/** What the token tables guarantee: acceptance read off the whole history of statements, revocation
    for ever, rotation chains, and what overlapping or failing rotations do. */
module SessionTheorems {
  import opened Wrappers
  import opened Rfc3339
  import opened Sessions

  const START := Tables(map[], map[], map[])

  // ------------------------------------------------- acceptance from the history

  function TableOf(t: Tables, jwt: bool): map<string, TokenRow> {
    if jwt then t.jwts else t.refreshes
  }

  predicate Adds(s: Statement, hash: string, jwt: bool) {
    if jwt then s.InsertJwt? && s.hash == hash else s.InsertRefresh? && s.hash == hash
  }

  predicate Cancels(s: Statement, hash: string, jwt: bool) {
    s == if jwt then RevokeJwt(hash) else RevokeRefresh(hash)
  }

  /** Statement `i` is the first to insert the hash: the insert that the UNIQUE index lets through. */
  predicate AddedFirst(ss: seq<Statement>, hash: string, jwt: bool, i: nat) {
    i < |ss| && Adds(ss[i], hash, jwt) && forall k :: 0 <= k < i ==> !Adds(ss[k], hash, jwt)
  }

  predicate CancelledAfter(ss: seq<Statement>, hash: string, jwt: bool, i: nat) {
    exists j :: i < j < |ss| && Cancels(ss[j], hash, jwt)
  }

  /** Statement `i` stored the hash and nothing has revoked it since. */
  predicate LiveInHistory(ss: seq<Statement>, hash: string, jwt: bool, i: nat) {
    AddedFirst(ss, hash, jwt, i) && !CancelledAfter(ss, hash, jwt, i)
  }

  function RowAdded(s: Statement, jwt: bool): TokenRow
    requires s.InsertJwt? || s.InsertRefresh?
  {
    NewRow(s.userId, s.at, if jwt then JWT_NANOS else REFRESH_NANOS)
  }

  lemma {:induction false} RunAllAppended(t: Tables, ss: seq<Statement>, more: seq<Statement>)
    ensures RunAll(t, ss + more) == RunAll(RunAll(t, ss), more)
    decreases |ss|
  {
    if ss == [] {
      assert ss + more == more;
    } else {
      assert (ss + more)[1..] == ss[1..] + more;
      RunAllAppended(Run(t, ss[0]), ss[1..], more);
    }
  }

  lemma RunAllLast(t: Tables, ss: seq<Statement>)
    requires ss != []
    ensures RunAll(t, ss) == Run(RunAll(t, ss[..|ss| - 1]), ss[|ss| - 1])
  {
    var last := [ss[|ss| - 1]];
    assert ss == ss[..|ss| - 1] + last && last[1..] == [];
    RunAllAppended(t, ss[..|ss| - 1], last);
    var t1 := RunAll(t, ss[..|ss| - 1]);
    assert RunAll(t1, last) == RunAll(Run(t1, last[0]), []);
  }

  lemma {:induction false} NeverAdded(ss: seq<Statement>, hash: string, jwt: bool)
    requires forall k :: 0 <= k < |ss| ==> !Adds(ss[k], hash, jwt)
    ensures hash !in TableOf(RunAll(START, ss), jwt)
    decreases |ss|
  {
    if ss != [] {
      NeverAdded(ss[..|ss| - 1], hash, jwt);
      RunAllLast(START, ss);
      assert !Adds(ss[|ss| - 1], hash, jwt);
    }
  }

  lemma CancelledBefore(ss: seq<Statement>, hash: string, jwt: bool, i: nat)
    requires i + 1 < |ss|
    ensures CancelledAfter(ss, hash, jwt, i) <==>
            CancelledAfter(ss[..|ss| - 1], hash, jwt, i) || Cancels(ss[|ss| - 1], hash, jwt)
  {
    var before := ss[..|ss| - 1];
    if j :| i < j < |before| && Cancels(before[j], hash, jwt) {
      assert Cancels(ss[j], hash, jwt);
    }
    if j :| i < j < |ss| && Cancels(ss[j], hash, jwt) {
      assert j < |before| ==> before[j] == ss[j];
    }
  }

  /** A statement that runs on a row already there. */
  lemma RunOnRow(t: Tables, s: Statement, hash: string, jwt: bool)
    requires hash in TableOf(t, jwt)
    ensures hash in TableOf(Run(t, s), jwt)
    ensures TableOf(Run(t, s), jwt)[hash] ==
            if Cancels(s, hash, jwt) then TableOf(t, jwt)[hash].(revoked := true) else TableOf(t, jwt)[hash]
  {
  }

  lemma {:induction false} RowOfFirst(ss: seq<Statement>, hash: string, jwt: bool, i: nat)
    requires AddedFirst(ss, hash, jwt, i)
    ensures hash in TableOf(RunAll(START, ss), jwt)
    ensures TableOf(RunAll(START, ss), jwt)[hash] ==
            RowAdded(ss[i], jwt).(revoked := CancelledAfter(ss, hash, jwt, i))
    decreases |ss|
  {
    var n := |ss| - 1;
    var before := ss[..n];
    RunAllLast(START, ss);
    if i == n {
      NeverAdded(before, hash, jwt);
    } else {
      assert forall k :: 0 <= k <= i ==> before[k] == ss[k];
      RowOfFirst(before, hash, jwt, i);
      CancelledBefore(ss, hash, jwt, i);
      RunOnRow(RunAll(START, before), ss[n], hash, jwt);
    }
  }

  lemma {:induction false} SomeFirst(ss: seq<Statement>, hash: string, jwt: bool)
    ensures (exists i: nat :: AddedFirst(ss, hash, jwt, i)) || forall k :: 0 <= k < |ss| ==> !Adds(ss[k], hash, jwt)
    decreases |ss|
  {
    if ss != [] {
      var before := ss[..|ss| - 1];
      SomeFirst(before, hash, jwt);
      if i: nat :| AddedFirst(before, hash, jwt, i) {
        assert forall k :: 0 <= k <= i ==> before[k] == ss[k];
        assert AddedFirst(ss, hash, jwt, i);
      } else {
        assert forall k :: 0 <= k < |before| ==> before[k] == ss[k];
        if Adds(ss[|before|], hash, jwt) {
          assert AddedFirst(ss, hash, jwt, |before|);
        }
      }
    }
  }

  /** Whatever the interleaving of handlers, a JWT passes the table check exactly when it was stored and
      no revoke of it came after the insert that stored it. */
  lemma JwtAcceptedExactly(env: Env, ss: seq<Statement>, token: string)
    ensures !JwtRevoked(env, RunAll(START, ss), token) <==>
            exists i: nat :: LiveInHistory(ss, env.hash(token), true, i)
  {
    var hash := env.hash(token);
    SomeFirst(ss, hash, true);
    if i: nat :| AddedFirst(ss, hash, true, i) {
      RowOfFirst(ss, hash, true, i);
      assert LiveInHistory(ss, hash, true, i) <==> !CancelledAfter(ss, hash, true, i);
      if k: nat :| LiveInHistory(ss, hash, true, k) {
        assert k == i;
      }
    } else {
      NeverAdded(ss, hash, true);
    }
  }

  /** The same for a refresh token, whose expiry the query compares as text: it is honoured for 604800
      seconds after the insert that stored it, to the nanosecond, and for that insert's user. */
  lemma RefreshAcceptedExactly(env: Env, ss: seq<Statement>, token: string, now: Clock, userId: int)
    ensures ValidRefresh(env, RunAll(START, ss), token, now) == Some(userId) <==>
            exists i: nat :: LiveInHistory(ss, env.hash(token), false, i) && ss[i].userId == userId
                && now < ss[i].at + REFRESH_NANOS
  {
    var hash := env.hash(token);
    SomeFirst(ss, hash, false);
    if i: nat :| AddedFirst(ss, hash, false, i) {
      RowOfFirst(ss, hash, false, i);
    } else {
      NeverAdded(ss, hash, false);
    }
    LiveMeans(env, RunAll(START, ss), token, now);
  }

  /** Whom the extractor admits without touching the tables: exactly the holders of a valid JWT that the
      history shows stored and not revoked since; the refresh token then plays no part. */
  lemma AdmittedExactly(env: Env, ss: seq<Statement>, jwt: Option<string>, refresh: Option<string>, d: Draw)
    ensures var s := Authenticate(env, RunAll(START, ss), jwt, refresh, d).1;
            (s.Some? && s.value.refreshed.None?) <==>
            && jwt.Some? && env.decode(jwt.value, d.checkedAt).Valid?
            && exists i: nat :: LiveInHistory(ss, env.hash(jwt.value), true, i)
    ensures var t := RunAll(START, ss);
            var (t', s) := Authenticate(env, t, jwt, refresh, d);
            s.Some? && s.value.refreshed.None? ==>
              t' == t && jwt.Some? && env.decode(jwt.value, d.checkedAt) == Valid(s.value.email)
  {
    var t := RunAll(START, ss);
    if jwt.Some? {
      JwtAcceptedExactly(env, ss, jwt.value);
    }
    DirectOnlyByJwt(env, t, jwt, refresh, d);
  }

  lemma DirectOnlyByJwt(env: Env, t: Tables, jwt: Option<string>, refresh: Option<string>, d: Draw)
    ensures var s := Authenticate(env, t, jwt, refresh, d).1;
            (s.Some? && s.value.refreshed.None?) <==>
            jwt.Some? && env.decode(jwt.value, d.checkedAt).Valid? && !JwtRevoked(env, t, jwt.value)
    ensures var (t', s) := Authenticate(env, t, jwt, refresh, d);
            s.Some? && s.value.refreshed.None? ==>
              t' == t && jwt.Some? && env.decode(jwt.value, d.checkedAt) == Valid(s.value.email)
  {
  }

  /** Whom it gives new tokens: exactly those without a JWT or with an expired one, whose refresh token
      the history shows stored for a known user less than 604800 seconds ago and not revoked since, when
      both new tokens can be stored. */
  lemma RefreshedExactly(env: Env, ss: seq<Statement>, jwt: Option<string>, refresh: Option<string>, d: Draw)
    ensures var t := RunAll(START, ss);
            var s := Authenticate(env, t, jwt, refresh, d).1;
            (s.Some? && s.value.refreshed.Some?) <==>
            && (jwt.None? || env.decode(jwt.value, d.checkedAt).ExpiredSignature?) && refresh.Some?
            && exists i: nat :: LiveInHistory(ss, env.hash(refresh.value), false, i) && Refreshes(env, t, ss[i], d)
  {
    var t := RunAll(START, ss);
    RefreshingExactly(env, t, jwt, refresh, d);
    if refresh.Some? {
      var hash := env.hash(refresh.value);
      SomeFirst(ss, hash, false);
      if i: nat :| AddedFirst(ss, hash, false, i) {
        RowOfFirst(ss, hash, false, i);
        if k: nat :| LiveInHistory(ss, hash, false, k) {
          assert k == i;
        }
      } else {
        NeverAdded(ss, hash, false);
      }
    }
  }

  /** The insert's user is known, the insert is not too old, and both new tokens can be stored. */
  predicate Refreshes(env: Env, t: Tables, s: Statement, d: Draw) {
    && s.InsertRefresh? && s.userId in t.users && d.checkedAt < s.at + REFRESH_NANOS
    && Storable(env, t, s.userId, t.users[s.userId], d)
  }

  predicate Storable(env: Env, t: Tables, userId: int, email: string, d: Draw) {
    && !d.faults.storeJwt && env.hash(env.mint(userId, email, d.mintedAt / NANOS)) !in t.jwts
    && !d.faults.storeRefresh && env.hash(d.refreshToken) !in t.refreshes
  }

  lemma RefreshPath(env: Env, t: Tables, jwt: Option<string>, refresh: string, d: Draw)
    requires jwt.None? || env.decode(jwt.value, d.checkedAt).ExpiredSignature?
    ensures Authenticate(env, t, jwt, Some(refresh), d) ==
            var user := ValidRefresh(env, t, refresh, d.checkedAt);
            if user.Some? && user.value in t.users then Rotate(env, t, refresh, user.value, t.users[user.value], d)
            else (t, None)
  {
  }

  lemma OtherPaths(env: Env, t: Tables, jwt: Option<string>, refresh: Option<string>, d: Draw)
    requires refresh.None? || (jwt.Some? && !env.decode(jwt.value, d.checkedAt).ExpiredSignature?)
    ensures var s := Authenticate(env, t, jwt, refresh, d).1; s.Some? ==> s.value.refreshed.None?
  {
  }

  /** A live token of a known user. */
  predicate LiveRow(env: Env, t: Tables, token: string, now: Clock) {
    && env.hash(token) in t.refreshes && !t.refreshes[env.hash(token)].revoked
    && now < t.refreshes[env.hash(token)].expiresAt
    && t.refreshes[env.hash(token)].userId in t.users
  }

  lemma RotationRefreshes(env: Env, t: Tables, spent: string, userId: int, email: string, d: Draw)
    ensures var s := Rotate(env, t, spent, userId, email, d).1; s.Some? ==> s.value.refreshed.Some?
  {
  }

  lemma RefreshingExactly(env: Env, t: Tables, jwt: Option<string>, refresh: Option<string>, d: Draw)
    ensures var s := Authenticate(env, t, jwt, refresh, d).1;
            (s.Some? && s.value.refreshed.Some?) <==>
            && (jwt.None? || env.decode(jwt.value, d.checkedAt).ExpiredSignature?) && refresh.Some?
            && LiveRow(env, t, refresh.value, d.checkedAt)
            && var userId := t.refreshes[env.hash(refresh.value)].userId; Storable(env, t, userId, t.users[userId], d)
  {
    if refresh.Some? && (jwt.None? || env.decode(jwt.value, d.checkedAt).ExpiredSignature?) {
      RefreshPath(env, t, jwt, refresh.value, d);
      LiveMeans(env, t, refresh.value, d.checkedAt);
      if LiveRow(env, t, refresh.value, d.checkedAt) {
        var userId := t.refreshes[env.hash(refresh.value)].userId;
        RotatesExactly(env, t, refresh.value, userId, t.users[userId], d);
        RotationRefreshes(env, t, refresh.value, userId, t.users[userId], d);
      }
    } else {
      OtherPaths(env, t, jwt, refresh, d);
    }
  }

  /** Once stored and then revoked, no further statements bring a row back to life. */
  lemma RevokedStays(ss: seq<Statement>, more: seq<Statement>, hash: string, jwt: bool, i: nat)
    requires AddedFirst(ss, hash, jwt, i) && CancelledAfter(ss, hash, jwt, i)
    ensures AddedFirst(ss + more, hash, jwt, i) && CancelledAfter(ss + more, hash, jwt, i)
    ensures var table := TableOf(RunAll(START, ss + more), jwt); hash in table && table[hash].revoked
  {
    assert forall k :: 0 <= k < |ss| ==> (ss + more)[k] == ss[k];
    var j :| i < j < |ss| && Cancels(ss[j], hash, jwt);
    assert Cancels((ss + more)[j], hash, jwt);
    RowOfFirst(ss + more, hash, jwt, i);
  }

  lemma {:induction false} RowsKept(t: Tables, ss: seq<Statement>)
    ensures t.jwts.Keys <= RunAll(t, ss).jwts.Keys && t.refreshes.Keys <= RunAll(t, ss).refreshes.Keys
    decreases |ss|
  {
    if ss != [] {
      RowsKept(Run(t, ss[0]), ss[1..]);
    }
  }

  lemma FirstOfStored(ss: seq<Statement>, hash: string, jwt: bool) returns (i: nat)
    requires hash in TableOf(RunAll(START, ss), jwt)
    ensures AddedFirst(ss, hash, jwt, i)
  {
    SomeFirst(ss, hash, jwt);
    if !exists i: nat :: AddedFirst(ss, hash, jwt, i) {
      NeverAdded(ss, hash, jwt);
    }
    i :| AddedFirst(ss, hash, jwt, i);
  }

  /** A revoke of a stored row outlasts whatever statements follow. */
  lemma RevokeOfStored(ss: seq<Statement>, revoke: Statement, more: seq<Statement>, hash: string, jwt: bool)
    requires hash in TableOf(RunAll(START, ss), jwt) && Cancels(revoke, hash, jwt)
    ensures var table := TableOf(RunAll(START, ss + [revoke] + more), jwt); hash in table && table[hash].revoked
  {
    var i := FirstOfStored(ss, hash, jwt);
    var after := ss + [revoke];
    assert forall k :: 0 <= k < |ss| ==> after[k] == ss[k];
    assert Cancels(after[|ss|], hash, jwt);
    RevokedStays(after, more, hash, jwt, i);
  }

  /** What a logout with these cookies runs; other handlers' statements may come in between. */
  function LogoutInterleaved(env: Env, jwt: Option<string>, between: seq<Statement>,
                             refresh: Option<string>): seq<Statement>
  {
    LogoutStatements(env, jwt, None) + between + LogoutStatements(env, None, refresh)
  }

  lemma LoggedOutJwt(env: Env, ss: seq<Statement>, between: seq<Statement>, more: seq<Statement>, jwt: string,
                     refresh: Option<string>)
    requires env.hash(jwt) in RunAll(START, ss).jwts
    ensures JwtRevoked(env, RunAll(START, ss + LogoutInterleaved(env, Some(jwt), between, refresh) + more), jwt)
  {
    var revoke := RevokeJwt(env.hash(jwt));
    var rest := between + LogoutStatements(env, None, refresh) + more;
    RevokeOfStored(ss, revoke, rest, env.hash(jwt), true);
    assert ss + LogoutInterleaved(env, Some(jwt), between, refresh) + more == ss + [revoke] + rest;
  }

  lemma LoggedOutRefresh(env: Env, ss: seq<Statement>, between: seq<Statement>, more: seq<Statement>,
                         jwt: Option<string>, refresh: string)
    requires env.hash(refresh) in RunAll(START, ss).refreshes
    ensures var t := RunAll(START, ss + LogoutInterleaved(env, jwt, between, Some(refresh)) + more);
            env.hash(refresh) in t.refreshes && t.refreshes[env.hash(refresh)].revoked
  {
    var revoke := RevokeRefresh(env.hash(refresh));
    var before := LogoutStatements(env, jwt, None) + between;
    RunAllAppended(START, ss, before);
    RowsKept(RunAll(START, ss), before);
    RevokeOfStored(ss + before, revoke, more, env.hash(refresh), false);
    assert ss + LogoutInterleaved(env, jwt, between, Some(refresh)) + more == ss + before + [revoke] + more;
  }

  /** After a logout whose cookies, one or both, held stored tokens, these cookies are refused for ever,
      whether the JWT then decodes as valid, expired or bad, and whatever other handlers did between the
      logout's two statements and do afterwards. */
  lemma LoggedOutForEver(env: Env, ss: seq<Statement>, between: seq<Statement>, more: seq<Statement>,
                         jwt: Option<string>, refresh: Option<string>, d: Draw)
    requires jwt.Some? ==> env.hash(jwt.value) in RunAll(START, ss).jwts
    requires refresh.Some? ==> env.hash(refresh.value) in RunAll(START, ss).refreshes
    ensures var t := RunAll(START, ss + LogoutInterleaved(env, jwt, between, refresh) + more);
            Authenticate(env, t, jwt, refresh, d) == (t, None)
  {
    var t := RunAll(START, ss + LogoutInterleaved(env, jwt, between, refresh) + more);
    if jwt.Some? {
      LoggedOutJwt(env, ss, between, more, jwt.value, refresh);
    }
    if refresh.Some? {
      LoggedOutRefresh(env, ss, between, more, jwt, refresh.value);
    }
    RevokedAreRefused(env, t, jwt, refresh, d);
  }

  lemma RevokedAreRefused(env: Env, t: Tables, jwt: Option<string>, refresh: Option<string>, d: Draw)
    requires jwt.Some? ==> JwtRevoked(env, t, jwt.value)
    requires refresh.Some? && env.hash(refresh.value) in t.refreshes ==> t.refreshes[env.hash(refresh.value)].revoked
    ensures Authenticate(env, t, jwt, refresh, d) == (t, None)
  {
  }

  /** A JWT minted twice within a second for one user is the same string, so the UNIQUE index lets a
      user start or refresh at most one session per second: after one, whether a sign-in or a refresh of
      `first`, the next is turned away, even when the first JWT has been revoked meanwhile. */
  lemma OneSessionPerSecond(env: Env, t: Tables, userId: int, email: string, first: Option<string>, d: Draw,
                            more: seq<Statement>, e: Draw, spent: string)
    requires Opened(env, t, userId, email, first, d).1.Some?
    requires d.mintedAt / NANOS == e.mintedAt / NANOS
    ensures var later := RunAll(Opened(env, t, userId, email, first, d).0, more);
            && Issue(env, later, userId, email, e) == (later, None)
            && Rotate(env, later, spent, userId, email, e) == (later, None)
  {
    OpenedStoresJwt(env, t, userId, email, first, d);
    RowsKept(Opened(env, t, userId, email, first, d).0, more);
  }

  /** A sign-in, or the refresh of a token. */
  function Opened(env: Env, t: Tables, userId: int, email: string, first: Option<string>, d: Draw)
    : (Tables, Option<Session>)
  {
    if first.None? then Issue(env, t, userId, email, d) else Rotate(env, t, first.value, userId, email, d)
  }

  lemma OpenedStoresJwt(env: Env, t: Tables, userId: int, email: string, first: Option<string>, d: Draw)
    requires Opened(env, t, userId, email, first, d).1.Some?
    ensures env.hash(env.mint(userId, email, d.mintedAt / NANOS)) in Opened(env, t, userId, email, first, d).0.jwts
  {
  }

  lemma {:induction false} UsersKept(t: Tables, ss: seq<Statement>)
    requires forall s :: s in ss ==> !s.InsertUser?
    ensures RunAll(t, ss).users == t.users
    decreases |ss|
  {
    if ss != [] {
      UsersKept(Run(t, ss[0]), ss[1..]);
    }
  }

  /** setup_first_user checks for users and inserts one in separate statements. Two setups that both found
      none, and then insert whatever else runs in between, make two first users exactly when their emails
      differ: only the UNIQUE email stands in the way. */
  lemma OverlappingSetUps(t: Tables, id: int, email: string, between: seq<Statement>, id': int, email': string)
    requires t.users == map[] && id != id'
    requires forall s :: s in between ==> !s.InsertUser?
    ensures RunAll(t, [InsertUser(id, email)] + between + [InsertUser(id', email')]).users ==
            if email != email' then map[id := email, id' := email'] else map[id := email]
  {
    var one := RunAll(t, [InsertUser(id, email)]);
    RunOne(t, InsertUser(id, email));
    RunAllAppended(t, [InsertUser(id, email)], between);
    UsersKept(one, between);
    RunAllAppended(t, [InsertUser(id, email)] + between, [InsertUser(id', email')]);
    RunOne(RunAll(one, between), InsertUser(id', email'));
    assert one.users == map[id := email] && map[id := email].Values == {email};
  }

  /** The statements one request runs, so that the results above cover every handler. */
  function RotateStatements(env: Env, spent: string, userId: int, email: string, d: Draw): seq<Statement> {
    [InsertJwt(env.hash(env.mint(userId, email, d.mintedAt / NANOS)), userId, d.jwtStoredAt)] +
    (if d.faults.revoke then [] else [RevokeRefresh(env.hash(spent))]) +
    [InsertRefresh(env.hash(d.refreshToken), userId, d.storedAt)]
  }

  lemma RunOne(t: Tables, s: Statement)
    ensures RunAll(t, [s]) == Run(t, s)
  {
    assert [s][1..] == [];
    assert RunAll(Run(t, s), []) == Run(t, s);
  }

  lemma RotateIsStatements(env: Env, t: Tables, spent: string, userId: int, email: string, d: Draw)
    ensures exists n: nat :: n <= |RotateStatements(env, spent, userId, email, d)| &&
              Rotate(env, t, spent, userId, email, d).0
                  == RunAll(t, RotateStatements(env, spent, userId, email, d)[..n])
    ensures Rotate(env, t, spent, userId, email, d).1.Some? ==>
              Rotate(env, t, spent, userId, email, d).0 == RunAll(t, RotateStatements(env, spent, userId, email, d))
  {
    var ss := RotateStatements(env, spent, userId, email, d);
    var t1 := Run(t, ss[0]);
    var k := |ss| - 1;
    assert ss[..0] == [] && ss[..1] == [ss[0]] && ss[..k + 1] == ss;
    RunOne(t, ss[0]);
    assert RunAll(t, ss[..0]) == t;
    if !d.faults.revoke {
      RunAllLast(t, ss[..2]);
      assert ss[..2][..1] == ss[..1];
    }
    RunAllLast(t, ss);
  }

  // ------------------------------------------------------------- one rotation

  /** When the extractor answers with new tokens: the presented token was live, and this is its row's
      user's rotation. */
  lemma RefreshingIsRotating(env: Env, t: Tables, jwt: Option<string>, refresh: Option<string>, d: Draw)
    requires var s := Authenticate(env, t, jwt, refresh, d).1; s.Some? && s.value.refreshed.Some?
    ensures refresh.Some? && env.hash(refresh.value) in t.refreshes && !t.refreshes[env.hash(refresh.value)].revoked
    ensures d.checkedAt < t.refreshes[env.hash(refresh.value)].expiresAt
    ensures var userId := t.refreshes[env.hash(refresh.value)].userId;
            userId in t.users && Authenticate(env, t, jwt, refresh, d)
                == Rotate(env, t, refresh.value, userId, t.users[userId], d)
  {
    LiveMeans(env, t, refresh.value, d.checkedAt);
  }

  lemma LiveMeans(env: Env, t: Tables, token: string, now: Clock)
    ensures ValidRefresh(env, t, token, now).Some? <==>
            env.hash(token) in t.refreshes && !t.refreshes[env.hash(token)].revoked
                && now < t.refreshes[env.hash(token)].expiresAt
    ensures ValidRefresh(env, t, token, now).Some? ==>
            ValidRefresh(env, t, token, now).value == t.refreshes[env.hash(token)].userId
  {
    if env.hash(token) in t.refreshes {
      TextOrderIsTimeOrder(now, t.refreshes[env.hash(token)].expiresAt);
    }
  }

  lemma RotatesExactly(env: Env, t: Tables, spent: string, userId: int, email: string, d: Draw)
    ensures Rotate(env, t, spent, userId, email, d).1.Some? <==> Storable(env, t, userId, email, d)
    ensures Rotate(env, t, spent, userId, email, d).1.Some? ==>
            Rotate(env, t, spent, userId, email, d).0.jwts.Keys ==
            t.jwts.Keys + {env.hash(env.mint(userId, email, d.mintedAt / NANOS))}
  {
  }

  lemma RotatedRows(env: Env, t: Tables, spent: string, userId: int, email: string, d: Draw)
    requires Rotate(env, t, spent, userId, email, d).1.Some?
    ensures env.hash(d.refreshToken) !in t.refreshes
    ensures Rotate(env, t, spent, userId, email, d).0.refreshes ==
            (if d.faults.revoke then t.refreshes else Revoke(t.refreshes, env.hash(spent)))
              [env.hash(d.refreshToken) := NewRow(userId, d.storedAt, REFRESH_NANOS)]
  {
  }

  // ------------------------------------------------------- what a session is good for

  /** The pair handed out is the minted JWT and the drawn refresh token, both rows are stored for the user,
      for 900 and 604800 seconds, unrevoked. */
  ghost predicate Granted(env: Env, t: Tables, t': Tables, s: Session, userId: int, email: string, d: Draw) {
    var jwt := env.mint(userId, email, d.mintedAt / 1_000_000_000);
    && s == Session(email, Some((jwt, d.refreshToken)))
    && env.hash(jwt) !in t.jwts && env.hash(d.refreshToken) !in t.refreshes
    && t'.jwts == t.jwts[env.hash(jwt) := TokenRow(userId, d.jwtStoredAt + 900_000_000_000, false)]
    && t'.users == t.users
    && env.hash(d.refreshToken) in t'.refreshes
    && t'.refreshes[env.hash(d.refreshToken)] == TokenRow(userId, d.storedAt + 604_800_000_000_000, false)
  }

  /** Only an orphaned JWT can remain of a sign-in or refresh that fails. */
  ghost predicate Ungranted(env: Env, t: Tables, t': Tables, userId: int, email: string, d: Draw) {
    var hash := env.hash(env.mint(userId, email, d.mintedAt / 1_000_000_000));
    && t'.users == t.users
    && t'.jwts == if d.faults.storeJwt || hash in t.jwts then t.jwts
                  else t.jwts[hash := TokenRow(userId, d.jwtStoredAt + 900_000_000_000, false)]
  }

  /** The token part of login and setup, outcome and tables. */
  lemma IssueExactly(env: Env, t: Tables, userId: int, email: string, d: Draw)
    ensures var (t', s) := Issue(env, t, userId, email, d);
            && (s.Some? <==> Storable(env, t, userId, email, d))
            && if s.Some? then
                 && Granted(env, t, t', s.value, userId, email, d)
                 && t'.refreshes.Keys == t.refreshes.Keys + {env.hash(d.refreshToken)}
                 && forall h :: h in t.refreshes ==> t'.refreshes[h] == t.refreshes[h]
               else Ungranted(env, t, t', userId, email, d) && t'.refreshes == t.refreshes
  {
  }

  /** The same of a refresh, which revokes the old token's row and no other, unless that fails. */
  lemma RotateExactly(env: Env, t: Tables, spent: string, userId: int, email: string, d: Draw)
    ensures var (t', s) := Rotate(env, t, spent, userId, email, d);
            && (s.Some? <==> Storable(env, t, userId, email, d))
            && if s.Some? then
                 && Granted(env, t, t', s.value, userId, email, d)
                 && t'.refreshes.Keys == t.refreshes.Keys + {env.hash(d.refreshToken)}
                 && forall h :: h in t.refreshes ==>
                      t'.refreshes[h] == if h == env.hash(spent) && !d.faults.revoke
                                         then t.refreshes[h].(revoked := true) else t.refreshes[h]
               else
                 && Ungranted(env, t, t', userId, email, d)
                 && t'.refreshes.Keys == t.refreshes.Keys
                 && forall h :: h in t.refreshes ==>
                      t'.refreshes[h] == if h == env.hash(spent) && !d.faults.revoke && t'.jwts != t.jwts
                                         then t.refreshes[h].(revoked := true) else t.refreshes[h]
  {
    RotatesExactly(env, t, spent, userId, email, d);
    if Rotate(env, t, spent, userId, email, d).1.Some? {
      RotatedRows(env, t, spent, userId, email, d);
      RotatedJwts(env, t, spent, userId, email, d);
    } else {
      UnrotatedRows(env, t, spent, userId, email, d);
    }
  }

  lemma UnrotatedRows(env: Env, t: Tables, spent: string, userId: int, email: string, d: Draw)
    requires Rotate(env, t, spent, userId, email, d).1.None?
    ensures var t' := Rotate(env, t, spent, userId, email, d).0;
            && Ungranted(env, t, t', userId, email, d)
            && t'.refreshes.Keys == t.refreshes.Keys
            && forall h :: h in t.refreshes ==>
                 t'.refreshes[h] == if h == env.hash(spent) && !d.faults.revoke && t'.jwts != t.jwts
                                    then t.refreshes[h].(revoked := true) else t.refreshes[h]
  {
    var hash := env.hash(env.mint(userId, email, d.mintedAt / NANOS));
    var t' := Rotate(env, t, spent, userId, email, d).0;
    assert hash !in t.jwts && !d.faults.storeJwt ==> hash in t'.jwts;
  }

  lemma RotatedJwts(env: Env, t: Tables, spent: string, userId: int, email: string, d: Draw)
    requires Rotate(env, t, spent, userId, email, d).1.Some?
    ensures var jwt := env.mint(userId, email, d.mintedAt / 1_000_000_000);
            var (t', s) := Rotate(env, t, spent, userId, email, d);
            && t'.users == t.users && env.hash(jwt) !in t.jwts
            && t'.jwts == t.jwts[env.hash(jwt) := TokenRow(userId, d.jwtStoredAt + 900_000_000_000, false)]
            && s.value == Session(email, Some((jwt, d.refreshToken)))
  {
  }

  /** A pair just granted: its JWT is not revoked, its refresh token is the user's for 604800 seconds. */
  lemma GrantedIsLive(env: Env, t: Tables, t': Tables, s: Session, userId: int, email: string, d: Draw, now: Clock)
    requires Granted(env, t, t', s, userId, email, d)
    ensures var (jwt, token) := s.refreshed.value;
            && !JwtRevoked(env, t', jwt)
            && ValidRefresh(env, t', token, now) ==
               if now < d.storedAt + 604_800_000_000_000 then Some(userId) else None
  {
    LiveMeans(env, t', s.refreshed.value.1, now);
  }

  /** Login and setup: the answer's pair works, for its user. */
  lemma IssuedPairWorks(env: Env, t: Tables, userId: int, email: string, d: Draw, now: Clock)
    requires Issue(env, t, userId, email, d).1.Some?
    ensures var (t', s) := Issue(env, t, userId, email, d);
            && s.value.email == email && s.value.refreshed.Some?
            && !JwtRevoked(env, t', s.value.refreshed.value.0)
            && ValidRefresh(env, t', s.value.refreshed.value.1, now) ==
               if now < d.storedAt + 604_800_000_000_000 then Some(userId) else None
  {
    IssueExactly(env, t, userId, email, d);
    var (t', s) := Issue(env, t, userId, email, d);
    GrantedIsLive(env, t, t', s.value, userId, email, d, now);
  }

  /** The extractor's refresh: the answer is for the user the presented token was stored for, and its pair
      works for that user. */
  lemma RefreshedPairWorks(env: Env, t: Tables, jwt: Option<string>, refresh: Option<string>, d: Draw, now: Clock)
    requires var s := Authenticate(env, t, jwt, refresh, d).1; s.Some? && s.value.refreshed.Some?
    ensures var (t', s) := Authenticate(env, t, jwt, refresh, d);
            && refresh.Some? && env.hash(refresh.value) in t.refreshes
            && var userId := t.refreshes[env.hash(refresh.value)].userId;
               && userId in t.users && s.value.email == t.users[userId]
               && !JwtRevoked(env, t', s.value.refreshed.value.0)
               && ValidRefresh(env, t', s.value.refreshed.value.1, now) ==
                  if now < d.storedAt + 604_800_000_000_000 then Some(userId) else None
  {
    RefreshingIsRotating(env, t, jwt, refresh, d);
    var userId := t.refreshes[env.hash(refresh.value)].userId;
    RotateExactly(env, t, refresh.value, userId, t.users[userId], d);
    var (t', s) := Authenticate(env, t, jwt, refresh, d);
    GrantedIsLive(env, t, t', s.value, userId, t.users[userId], d, now);
  }

  /** A live pair presented: while the JWT decodes as valid it admits its holder, and once it is expired the
      refresh token gets a new pair whenever that can be stored. */
  lemma LivePairAdmits(env: Env, t: Tables, jwt: string, token: string, d: Draw, userId: int)
    requires !JwtRevoked(env, t, jwt) && ValidRefresh(env, t, token, d.checkedAt) == Some(userId) && userId in t.users
    ensures var (t', s) := Authenticate(env, t, Some(jwt), Some(token), d);
            match env.decode(jwt, d.checkedAt)
            case Valid(email) => t' == t && s == Some(Session(email, None))
            case ExpiredSignature =>
              && (s.Some? <==> Storable(env, t, userId, t.users[userId], d))
              && (s.Some? ==> s.value.email == t.users[userId] && s.value.refreshed.Some?)
            case Bad => t' == t && s.None?
  {
    if env.decode(jwt, d.checkedAt).ExpiredSignature? {
      RefreshPath(env, t, Some(jwt), token, d);
      RotateExactly(env, t, token, userId, t.users[userId], d);
    }
  }

  /** A refresh spends the token it was made with exactly when the revoke, whose failure the extractor
      ignores, went through; otherwise the old token lives on until it expires. */
  lemma RefreshSpends(env: Env, t: Tables, jwt: Option<string>, refresh: string, d: Draw, now: Clock)
    requires var s := Authenticate(env, t, jwt, Some(refresh), d).1; s.Some? && s.value.refreshed.Some?
    ensures ValidRefresh(env, Authenticate(env, t, jwt, Some(refresh), d).0, refresh, now).None? <==>
            !d.faults.revoke || t.refreshes[env.hash(refresh)].expiresAt <= now
    ensures ValidRefresh(env, Authenticate(env, t, jwt, Some(refresh), d).0, d.refreshToken, now).Some? <==>
            now < d.storedAt + REFRESH_NANOS
  {
    RefreshingIsRotating(env, t, jwt, Some(refresh), d);
    var userId := t.refreshes[env.hash(refresh)].userId;
    RotatedRows(env, t, refresh, userId, t.users[userId], d);
    var t1 := Authenticate(env, t, jwt, Some(refresh), d).0;
    LiveMeans(env, t1, refresh, now);
    LiveMeans(env, t1, d.refreshToken, now);
  }

  // ------------------------------------------------------ chains, one at a time

  datatype Event =
    | SignIn(userId: int, email: string, draw: Draw)
    | FirstSetUp(id: int, email: string, draw: Draw)
    | Request(jwt: Option<string>, refresh: Option<string>, draw: Draw)
    | SignOut(jwt: Option<string>, refresh: Option<string>)

  /** One stored refresh token: the sign-in it descends from, and when its request looked up its
      predecessor and stored it. */
  datatype Link = Link(hash: string, chain: nat, checkedAt: Clock, storedAt: Clock)

  /** The tables with the history of stored refresh tokens; `signIns` counts successful sign-ins. */
  datatype World = World(tables: Tables, links: seq<Link>, signIns: nat)

  const NOBODY := World(START, [], 0)

  function ChainOf(links: seq<Link>, hash: string): nat {
    if links == [] then 0
    else if links[|links| - 1].hash == hash then links[|links| - 1].chain
    else ChainOf(links[..|links| - 1], hash)
  }

  function SignedIn(env: Env, w: World, t: Tables, s: Option<Session>, d: Draw): World {
    if s.None? then w.(tables := t)
    else World(t, w.links + [Link(env.hash(d.refreshToken), w.signIns, d.checkedAt, d.storedAt)], w.signIns + 1)
  }

  function Apply(env: Env, w: World, e: Event): World {
    match e
    case SignIn(userId, email, d) =>
      var (t, s) := Issue(env, w.tables, userId, email, d);
      SignedIn(env, w, t, s, d)
    case FirstSetUp(id, email, d) =>
      if w.tables.users != map[] then w
      else
        var (t, s) := Issue(env, Run(w.tables, InsertUser(id, email)), id, email, d);
        SignedIn(env, w, t, s, d)
    case Request(jwt, refresh, d) =>
      var (t, s) := Authenticate(env, w.tables, jwt, refresh, d);
      if s.None? || s.value.refreshed.None? then w.(tables := t)
      else
        var chain := ChainOf(w.links, env.hash(refresh.value));
        World(t, w.links + [Link(env.hash(d.refreshToken), chain, d.checkedAt, d.storedAt)], w.signIns)
    case SignOut(jwt, refresh) => w.(tables := RunAll(w.tables, LogoutStatements(env, jwt, refresh)))
  }

  function Play(env: Env, events: seq<Event>): World {
    if events == [] then NOBODY else Apply(env, Play(env, events[..|events| - 1]), events[|events| - 1])
  }

  predicate RevokeWorks(e: Event) {
    e.Request? ==> !e.draw.faults.revoke
  }

  function Unrevoked(rows: map<string, TokenRow>): set<string> {
    set h | h in rows && !rows[h].revoked
  }

  function Hashes(links: seq<Link>): set<string> {
    if links == [] then {} else Hashes(links[..|links| - 1]) + {links[|links| - 1].hash}
  }

  /** `j` is the token that replaced `i`. */
  predicate Replaces(links: seq<Link>, i: nat, j: nat) {
    && i < j < |links| && links[i].chain == links[j].chain
    && forall k :: i < k < j ==> links[k].chain != links[i].chain
  }

  predicate RowOfLink(rows: map<string, TokenRow>, link: Link, signIns: nat) {
    && link.hash in rows && rows[link.hash].expiresAt == link.storedAt + REFRESH_NANOS && link.chain < signIns
  }

  predicate RowsMatch(rows: map<string, TokenRow>, links: seq<Link>, signIns: nat) {
    && rows.Keys == Hashes(links)
    && (forall i :: 0 <= i < |links| ==> RowOfLink(rows, links[i], signIns))
    && (forall i, j :: 0 <= i < j < |links| ==> links[i].hash != links[j].hash)
  }

  predicate ReplacedAreRevoked(rows: map<string, TokenRow>, links: seq<Link>) {
    forall i, j :: 0 <= i < j < |links| && links[i].chain == links[j].chain ==>
      links[i].hash in rows && rows[links[i].hash].revoked
  }

  ghost predicate NoGap(links: seq<Link>) {
    forall i: nat, j: nat :: Replaces(links, i, j) ==> links[j].checkedAt < links[i].storedAt + REFRESH_NANOS
  }

  ghost predicate ChainInv(rows: map<string, TokenRow>, links: seq<Link>, signIns: nat) {
    && RowsMatch(rows, links, signIns) && ReplacedAreRevoked(rows, links) && NoGap(links)
    && |Unrevoked(rows)| <= signIns
  }

  /** The rows of `a` are still there in `b`, at most revoked since. */
  predicate OnlyRevoked(a: map<string, TokenRow>, b: map<string, TokenRow>) {
    && a.Keys == b.Keys
    && forall h :: h in a ==> b[h].expiresAt == a[h].expiresAt && (a[h].revoked ==> b[h].revoked)
  }

  lemma RevokingKeeps(a: map<string, TokenRow>, b: map<string, TokenRow>, links: seq<Link>, signIns: nat)
    requires ChainInv(a, links, signIns) && OnlyRevoked(a, b)
    ensures ChainInv(b, links, signIns)
  {
    assert Unrevoked(b) <= Unrevoked(a);
    assert Unrevoked(a) == Unrevoked(b) + (Unrevoked(a) - Unrevoked(b));
    forall i | 0 <= i < |links|
      ensures RowOfLink(b, links[i], signIns)
    {
      assert RowOfLink(a, links[i], signIns);
    }
  }

  lemma {:induction false} HashFound(links: seq<Link>, hash: string)
    requires hash in Hashes(links)
    ensures exists i :: 0 <= i < |links| && links[i].hash == hash
  {
    var n := |links| - 1;
    if links[n].hash != hash {
      HashFound(links[..n], hash);
      var i :| 0 <= i < n && links[..n][i].hash == hash;
      assert links[i].hash == hash;
    }
  }

  lemma InsertKeepsRows(rows: map<string, TokenRow>, links: seq<Link>, signIns: nat, link: Link, row: TokenRow, n: nat)
    requires RowsMatch(rows, links, signIns) && link.hash !in rows && signIns <= n
    requires row.expiresAt == link.storedAt + REFRESH_NANOS && link.chain < n
    ensures RowsMatch(rows[link.hash := row], links + [link], n)
  {
    assert (links + [link])[..|links|] == links;
    var next := rows[link.hash := row];
    forall i | 0 <= i < |links|
      ensures RowOfLink(next, links[i], n) && links[i].hash != link.hash
    {
      assert RowOfLink(rows, links[i], signIns);
    }
  }

  lemma ReplacesBefore(links: seq<Link>, link: Link, i: nat, j: nat)
    requires Replaces(links + [link], i, j) && j < |links|
    ensures Replaces(links, i, j)
  {
    assert forall k :: i <= k <= j ==> (links + [link])[k] == links[k];
  }

  lemma UnrevokedAfterInsert(rows: map<string, TokenRow>, hash: string, row: TokenRow)
    ensures |Unrevoked(rows[hash := row])| <= |Unrevoked(rows)| + 1
  {
    var next, most := rows[hash := row], Unrevoked(rows) + {hash};
    assert Unrevoked(next) <= most;
    assert most == Unrevoked(next) + (most - Unrevoked(next));
  }

  lemma StartReplacesNone(links: seq<Link>, link: Link)
    requires NoGap(links) && forall i :: 0 <= i < |links| ==> links[i].chain != link.chain
    ensures NoGap(links + [link])
  {
    var more := links + [link];
    forall i: nat, j: nat | Replaces(more, i, j)
      ensures more[j].checkedAt < more[i].storedAt + REFRESH_NANOS
    {
      assert more[i] == links[i];
      ReplacesBefore(links, link, i, j);
    }
  }

  /** A sign-in stores a token and starts a chain. */
  lemma StartKeeps(rows: map<string, TokenRow>, links: seq<Link>, signIns: nat, link: Link, row: TokenRow)
    requires ChainInv(rows, links, signIns) && link.hash !in rows && link.chain == signIns
    requires row.expiresAt == link.storedAt + REFRESH_NANOS
    ensures ChainInv(rows[link.hash := row], links + [link], signIns + 1)
  {
    InsertKeepsRows(rows, links, signIns, link, row, signIns + 1);
    UnrevokedAfterInsert(rows, link.hash, row);
    forall i | 0 <= i < |links|
      ensures links[i].hash != link.hash && links[i].chain != link.chain
    {
      assert RowOfLink(rows, links[i], signIns);
    }
    StartReplacesNone(links, link);
  }

  lemma {:induction false} ChainFound(links: seq<Link>, i: nat)
    requires i < |links|
    requires forall p, q :: 0 <= p < q < |links| ==> links[p].hash != links[q].hash
    ensures ChainOf(links, links[i].hash) == links[i].chain
  {
    var n := |links| - 1;
    if i < n {
      assert links[i].hash != links[n].hash;
      ChainFound(links[..n], i);
    }
  }

  /** Of a chain's links only the last can be unrevoked, so an unrevoked one has no later companion. */
  lemma LastOfChain(rows: map<string, TokenRow>, links: seq<Link>, i: nat, p: nat)
    requires ReplacedAreRevoked(rows, links) && i < |links| && p < |links|
    requires links[i].hash in rows && !rows[links[i].hash].revoked && links[p].chain == links[i].chain
    ensures p <= i && (p < i ==> links[p].hash in rows && rows[links[p].hash].revoked)
  {
  }

  /** A rotation revokes link `i` and stores its successor. */
  lemma RotationKeeps(rows: map<string, TokenRow>, links: seq<Link>, signIns: nat, i: nat, link: Link, row: TokenRow)
    requires ChainInv(rows, links, signIns) && i < |links| && link.hash !in rows
    requires links[i].hash in rows && !rows[links[i].hash].revoked && link.chain == links[i].chain
    requires link.checkedAt < links[i].storedAt + REFRESH_NANOS
    requires row.expiresAt == link.storedAt + REFRESH_NANOS
    ensures ChainInv(Revoke(rows, links[i].hash)[link.hash := row], links + [link], signIns)
  {
    var spent, more := links[i].hash, links + [link];
    var revoked := Revoke(rows, spent);
    var next := revoked[link.hash := row];
    RevokingKeeps(rows, revoked, links, signIns);
    assert RowOfLink(rows, links[i], signIns);
    InsertKeepsRows(revoked, links, signIns, link, row, signIns);
    UnrevokedAfterRotation(rows, spent, link.hash, row);
    RotationRevokes(rows, links, i, link, row);
    forall p: nat, q: nat | Replaces(more, p, q)
      ensures more[q].checkedAt < more[p].storedAt + REFRESH_NANOS
    {
      if q < |links| {
        ReplacesBefore(links, link, p, q);
      } else {
        LastOfChain(rows, links, i, p);
        assert more[i].chain == more[p].chain;
      }
    }
  }

  lemma UnrevokedAfterRotation(rows: map<string, TokenRow>, spent: string, hash: string, row: TokenRow)
    requires spent in rows && !rows[spent].revoked && hash !in rows
    ensures |Unrevoked(Revoke(rows, spent)[hash := row])| <= |Unrevoked(rows)|
  {
    var next := Revoke(rows, spent)[hash := row];
    var most := Unrevoked(rows) - {spent} + {hash};
    assert Unrevoked(next) <= most;
    assert most == Unrevoked(next) + (most - Unrevoked(next));
  }

  lemma RotationRevokes(rows: map<string, TokenRow>, links: seq<Link>, i: nat, link: Link, row: TokenRow)
    requires ReplacedAreRevoked(rows, links) && i < |links| && link.hash !in rows
    requires links[i].hash in rows && !rows[links[i].hash].revoked && link.chain == links[i].chain
    ensures ReplacedAreRevoked(Revoke(rows, links[i].hash)[link.hash := row], links + [link])
  {
    var next, more := Revoke(rows, links[i].hash)[link.hash := row], links + [link];
    forall p, q | 0 <= p < q < |more| && more[p].chain == more[q].chain
      ensures more[p].hash in next && next[more[p].hash].revoked
    {
      if q == |links| {
        LastOfChain(rows, links, i, p);
      } else {
        assert links[p].hash in rows && rows[links[p].hash].revoked;
      }
    }
  }

  ghost predicate WorldInv(w: World) {
    ChainInv(w.tables.refreshes, w.links, w.signIns)
  }

  lemma IssuedRows(env: Env, t: Tables, userId: int, email: string, d: Draw)
    ensures var (t1, s) := Issue(env, t, userId, email, d);
            if s.None? then t1.refreshes == t.refreshes
            else env.hash(d.refreshToken) !in t.refreshes && t1.refreshes ==
                   t.refreshes[env.hash(d.refreshToken) := NewRow(userId, d.storedAt, REFRESH_NANOS)]
  {
  }

  lemma IssueKeeps(env: Env, w: World, t: Tables, userId: int, email: string, d: Draw)
    requires WorldInv(w) && t.refreshes == w.tables.refreshes
    ensures WorldInv(SignedIn(env, w, Issue(env, t, userId, email, d).0, Issue(env, t, userId, email, d).1, d))
  {
    IssuedRows(env, t, userId, email, d);
    if Issue(env, t, userId, email, d).1.Some? {
      StartKeeps(t.refreshes, w.links, w.signIns, Link(env.hash(d.refreshToken), w.signIns, d.checkedAt, d.storedAt),
                 NewRow(userId, d.storedAt, REFRESH_NANOS));
    }
  }

  lemma FailedRotationOnlyRevokes(env: Env, t: Tables, spent: string, userId: int, email: string, d: Draw)
    requires Rotate(env, t, spent, userId, email, d).1.None?
    ensures OnlyRevoked(t.refreshes, Rotate(env, t, spent, userId, email, d).0.refreshes)
  {
  }

  lemma UnsuccessfulOnlyRevokes(env: Env, t: Tables, jwt: Option<string>, refresh: Option<string>, d: Draw)
    ensures var (t1, s) := Authenticate(env, t, jwt, refresh, d);
            s.None? || s.value.refreshed.None? ==> OnlyRevoked(t.refreshes, t1.refreshes)
  {
    var (t1, s) := Authenticate(env, t, jwt, refresh, d);
    if s.None? && t1 != t {
      var userId := t.refreshes[env.hash(refresh.value)].userId;
      FailedRotationOnlyRevokes(env, t, refresh.value, userId, t.users[userId], d);
    }
  }

  lemma RequestKeeps(env: Env, w: World, jwt: Option<string>, refresh: Option<string>, d: Draw)
    requires WorldInv(w) && !d.faults.revoke
    ensures WorldInv(Apply(env, w, Request(jwt, refresh, d)))
  {
    var (t1, s) := Authenticate(env, w.tables, jwt, refresh, d);
    var rows := w.tables.refreshes;
    if s.None? || s.value.refreshed.None? {
      UnsuccessfulOnlyRevokes(env, w.tables, jwt, refresh, d);
      RevokingKeeps(rows, t1.refreshes, w.links, w.signIns);
    } else {
      RefreshingIsRotating(env, w.tables, jwt, refresh, d);
      var spent := env.hash(refresh.value);
      var userId := rows[spent].userId;
      RotatedRows(env, w.tables, refresh.value, userId, w.tables.users[userId], d);
      HashFound(w.links, spent);
      var i :| 0 <= i < |w.links| && w.links[i].hash == spent;
      assert RowOfLink(rows, w.links[i], w.signIns);
      ChainFound(w.links, i);
      RotationKeeps(rows, w.links, w.signIns, i,
                    Link(env.hash(d.refreshToken), w.links[i].chain, d.checkedAt, d.storedAt),
                    NewRow(userId, d.storedAt, REFRESH_NANOS));
    }
  }

  lemma EventKeeps(env: Env, w: World, e: Event)
    requires WorldInv(w) && RevokeWorks(e)
    ensures WorldInv(Apply(env, w, e))
  {
    match e
    case SignIn(userId, email, d) => IssueKeeps(env, w, w.tables, userId, email, d);
    case FirstSetUp(id, email, d) =>
      if w.tables.users == map[] {
        IssueKeeps(env, w, Run(w.tables, InsertUser(id, email)), id, email, d);
      }
    case Request(jwt, refresh, d) => RequestKeeps(env, w, jwt, refresh, d);
    case SignOut(jwt, refresh) =>
      LogoutOneByOne(env, w.tables, jwt, refresh);
      RevokingKeeps(w.tables.refreshes, Apply(env, w, e).tables.refreshes, w.links, w.signIns);
  }

  lemma {:induction false} PlayKeeps(env: Env, events: seq<Event>)
    requires forall e :: e in events ==> RevokeWorks(e)
    ensures WorldInv(Play(env, events))
  {
    if events != [] {
      PlayKeeps(env, events[..|events| - 1]);
      EventKeeps(env, Play(env, events[..|events| - 1]), events[|events| - 1]);
    } else {
      assert Unrevoked(map[]) == {};
    }
  }

  /** One request at a time and with every revoke carried out, live refresh tokens never outnumber
      successful sign-ins. */
  lemma NoMoreLiveThanSignIns(env: Env, events: seq<Event>)
    requires forall e :: e in events ==> RevokeWorks(e)
    ensures |Unrevoked(Play(env, events).tables.refreshes)| <= Play(env, events).signIns
  {
    PlayKeeps(env, events);
  }

  /** Then, too, a token that has a successor in its sign-in's chain is refused at any time, and the
      request that replaced it came less than 604800 seconds after it was stored. */
  lemma ChainsOfSignIns(env: Env, events: seq<Event>, i: nat, j: nat, token: string, now: Clock)
    requires forall e :: e in events ==> RevokeWorks(e)
    requires i < j < |Play(env, events).links|
    requires Play(env, events).links[i].chain == Play(env, events).links[j].chain
    requires env.hash(token) == Play(env, events).links[i].hash
    ensures ValidRefresh(env, Play(env, events).tables, token, now) == None
    ensures Replaces(Play(env, events).links, i, j) ==>
              Play(env, events).links[j].checkedAt < Play(env, events).links[i].storedAt + REFRESH_NANOS
  {
    PlayKeeps(env, events);
    LiveMeans(env, Play(env, events).tables, token, now);
  }
}
