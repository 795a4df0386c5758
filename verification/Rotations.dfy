/** Two requests that present the same refresh token, their statements interleaved in any way. */
module Rotations {
  import opened Wrappers
  import opened Rfc3339
  import opened Sessions
  import opened SessionTheorems

  /** The next statement of a request, or how it ended. */
  datatype Stage = Look | StoreNewJwt | RevokeOld | StoreNewRefresh | Done | Refused

  /** `stored` and `revoked` are history: its JWT is in the table, its revoke has taken effect. `late` is
      set when the other's revoke had already taken effect at its lookup. */
  datatype Rotation = Rotation(draw: Draw, stage: Stage, stored: bool, revoked: bool, late: bool)

  datatype Race = Race(tables: Tables, first: Rotation, second: Rotation)

  /** The presented token's hash and the user its row names. */
  datatype Spent = Spent(token: string, userId: int, email: string)

  function JwtHash(env: Env, x: Spent, d: Draw): string {
    env.hash(env.mint(x.userId, x.email, d.mintedAt / NANOS))
  }

  /** One statement of a request. */
  function Advance(env: Env, x: Spent, t: Tables, r: Rotation, other: Rotation): (Tables, Rotation) {
    var d := r.draw;
    match r.stage
    case Look =>
      var found := ValidRefresh(env, t, x.token, d.checkedAt) == Some(x.userId) && x.userId in t.users;
      (t, r.(stage := if found then StoreNewJwt else Refused, late := other.revoked))
    case StoreNewJwt =>
      if d.faults.storeJwt || JwtHash(env, x, d) in t.jwts then (t, r.(stage := Refused))
      else (Run(t, InsertJwt(JwtHash(env, x, d), x.userId, d.jwtStoredAt)), r.(stage := RevokeOld, stored := true))
    case RevokeOld =>
      if d.faults.revoke then (t, r.(stage := StoreNewRefresh))
      else (Run(t, RevokeRefresh(env.hash(x.token))), r.(stage := StoreNewRefresh, revoked := true))
    case StoreNewRefresh =>
      if d.faults.storeRefresh || env.hash(d.refreshToken) in t.refreshes then (t, r.(stage := Refused))
      else (Run(t, InsertRefresh(env.hash(d.refreshToken), x.userId, d.storedAt)), r.(stage := Done))
    case _ => (t, r)
  }

  function Step(env: Env, x: Spent, s: Race, first: bool): Race {
    if first then
      var (t, r) := Advance(env, x, s.tables, s.first, s.second);
      Race(t, r, s.second)
    else
      var (t, r) := Advance(env, x, s.tables, s.second, s.first);
      Race(t, s.first, r)
  }

  /** An interleaving: whose turn it is, statement by statement. */
  function Interleave(env: Env, x: Spent, s: Race, turns: seq<bool>): Race {
    if turns == [] then s else Step(env, x, Interleave(env, x, s, turns[..|turns| - 1]), turns[|turns| - 1])
  }

  function Waiting(d: Draw): Rotation {
    Rotation(d, Look, false, false, false)
  }

  function Start(t: Tables, d: Draw, e: Draw): Race {
    Race(t, Waiting(d), Waiting(e))
  }

  predicate Ended(r: Rotation) {
    r.stage.Done? || r.stage.Refused?
  }

  function Iterate<S>(f: S -> S, s: S, n: nat): S {
    if n == 0 then s else f(Iterate(f, s, n - 1))
  }

  lemma {:induction false} IterateFirst<S>(f: S -> S, s: S, n: nat)
    ensures Iterate(f, s, n + 1) == Iterate(f, f(s), n)
  {
    if n > 0 {
      IterateFirst(f, s, n - 1);
    }
  }

  lemma {:induction false} IterateKeeps<S>(f: S -> S, inv: (S, nat) -> bool, s: S, n: nat)
    requires n > 0 && inv(f(s), 1)
    requires forall r, i: nat :: 1 <= i < n && inv(r, i) ==> inv(f(r), i + 1)
    ensures inv(Iterate(f, s, n), n)
  {
    if n == 1 {
      assert Iterate(f, s, 1) == f(Iterate(f, s, 0));
    } else {
      IterateKeeps(f, inv, s, n - 1);
    }
  }

  function Next(env: Env, x: Spent): Race -> Race {
    (s: Race) => Step(env, x, s, true)
  }

  /** `n` statements of the first request in a row. */
  function Alone(env: Env, x: Spent, s: Race, n: nat): Race {
    Iterate(Next(env, x), s, n)
  }

  lemma AloneFirst(env: Env, x: Spent, s: Race, n: nat)
    ensures Alone(env, x, s, n + 1) == Alone(env, x, Step(env, x, s, true), n)
  {
    IterateFirst(Next(env, x), s, n);
  }

  lemma AloneLast(env: Env, x: Spent, s: Race, n: nat)
    ensures Alone(env, x, s, n + 1) == Step(env, x, Alone(env, x, s, n), true)
  {
  }

  lemma AloneNone(env: Env, x: Spent, s: Race)
    ensures Alone(env, x, s, 0) == s
  {
  }

  lemma {:induction false} IterateFixed<S>(f: S -> S, s: S, n: nat)
    requires f(s) == s
    ensures Iterate(f, s, n) == s
  {
    if n > 0 {
      IterateFixed(f, s, n - 1);
    }
  }

  lemma AloneEnded(env: Env, x: Spent, s: Race, n: nat)
    requires Ended(s.first)
    ensures Alone(env, x, s, n) == s
  {
    IterateFixed(Next(env, x), s, n);
  }

  lemma AloneStores(env: Env, x: Spent, s: Race)
    requires s.first.stage.StoreNewRefresh?
    ensures var end, d := Alone(env, x, s, 1), s.first.draw;
            if d.faults.storeRefresh || env.hash(d.refreshToken) in s.tables.refreshes
            then end.tables == s.tables && end.first.stage.Refused?
            else
              && end.tables == Run(s.tables, InsertRefresh(env.hash(d.refreshToken), x.userId, d.storedAt))
              && end.first.stage.Done?
  {
    AloneLast(env, x, s, 0);
    AloneNone(env, x, s);
  }

  lemma AloneIsRotate(env: Env, x: Spent, s: Race)
    requires s.first.stage.StoreNewJwt?
    ensures var end := Alone(env, x, s, 3);
            var (t1, session) := Rotate(env, s.tables, x.token, x.userId, x.email, s.first.draw);
            end.tables == t1 && Ended(end.first) && (end.first.stage.Done? <==> session.Some?)
  {
    var s1 := Step(env, x, s, true);
    AloneFirst(env, x, s, 2);
    if s1.first.stage.Refused? {
      AloneEnded(env, x, s1, 2);
    } else {
      var s2 := Step(env, x, s1, true);
      AloneFirst(env, x, s1, 1);
      AloneStores(env, x, s2);
    }
  }

  /** Alone, the four statements are the refresh path of the extractor. */
  lemma AloneIsRefresh(env: Env, x: Spent, t: Tables, d: Draw, e: Draw, jwt: Option<string>)
    requires jwt.None? || env.decode(jwt.value, d.checkedAt).ExpiredSignature?
    requires x.userId in t.users && t.users[x.userId] == x.email
    requires env.hash(x.token) in t.refreshes && t.refreshes[env.hash(x.token)].userId == x.userId
    ensures var end := Alone(env, x, Start(t, d, e), 4);
            var (t1, session) := Authenticate(env, t, jwt, Some(x.token), d);
            end.tables == t1 && Ended(end.first) && (end.first.stage.Done? <==> session.Some?)
  {
    RefreshPath(env, t, jwt, x.token, d);
    LiveMeans(env, t, x.token, d.checkedAt);
    var s := Start(t, d, e);
    var s1 := Step(env, x, s, true);
    AloneFirst(env, x, s, 3);
    LookRuns(env, x, s);
    if s1.first.stage.Refused? {
      AloneEnded(env, x, s1, 3);
    } else {
      AloneIsRotate(env, x, s1);
    }
  }

  lemma LookRuns(env: Env, x: Spent, s: Race)
    requires s.first.stage.Look? && x.userId in s.tables.users
    ensures var s1 := Step(env, x, s, true);
            && s1.tables == s.tables && s1.first.draw == s.first.draw
            && s1.first.stage == if ValidRefresh(env, s.tables, x.token, s.first.draw.checkedAt) == Some(x.userId)
                                 then StoreNewJwt else Refused
  {
  }

  // --------------------------------------------------------------- invariant

  /** Both present a token that is stored and not revoked, and whose user is known. */
  ghost predicate Presented(env: Env, x: Spent, t: Tables) {
    && env.hash(x.token) in t.refreshes
    && !t.refreshes[env.hash(x.token)].revoked && t.refreshes[env.hash(x.token)].userId == x.userId
    && x.userId in t.users && t.users[x.userId] == x.email
  }

  /** The request looks the token up before it expires. */
  predicate OnTime(env: Env, x: Spent, t: Tables, d: Draw)
    requires env.hash(x.token) in t.refreshes
  {
    d.checkedAt < t.refreshes[env.hash(x.token)].expiresAt
  }

  predicate JwtStorable(env: Env, x: Spent, t: Tables, d: Draw) {
    !d.faults.storeJwt && JwtHash(env, x, d) !in t.jwts
  }

  predicate TokenStorable(env: Env, t: Tables, d: Draw) {
    !d.faults.storeRefresh && env.hash(d.refreshToken) !in t.refreshes
  }

  /** Alone, this request would succeed. */
  predicate Able(env: Env, x: Spent, t: Tables, d: Draw)
    requires env.hash(x.token) in t.refreshes
  {
    OnTime(env, x, t, d) && JwtStorable(env, x, t, d) && TokenStorable(env, t, d)
  }

  /** What a request's stage says of its history. */
  predicate Consistent(r: Rotation) {
    && (r.stored ==> !r.draw.faults.storeJwt && !r.late)
    && (r.revoked ==> r.stored && !r.draw.faults.revoke)
    && (r.late ==> r.stage.Refused?)
    && (match r.stage
        case Look => !r.stored
        case StoreNewJwt => !r.stored
        case RevokeOld => r.stored && !r.revoked
        case StoreNewRefresh => r.stored && (r.revoked <==> !r.draw.faults.revoke)
        case Done => r.stored && (r.revoked <==> !r.draw.faults.revoke) && !r.draw.faults.storeRefresh
        case Refused => true)
  }

  predicate SameJwt(env: Env, x: Spent, d: Draw, e: Draw) {
    JwtHash(env, x, d) == JwtHash(env, x, e)
  }

  predicate SameToken(env: Env, d: Draw, e: Draw) {
    env.hash(d.refreshToken) == env.hash(e.refreshToken)
  }

  /** Why a request was refused. */
  predicate Reason(env: Env, x: Spent, t0: Tables, r: Rotation, other: Rotation)
    requires env.hash(x.token) in t0.refreshes
  {
    || r.late || !Able(env, x, t0, r.draw)
    || (SameJwt(env, x, r.draw, other.draw) && other.stored)
    || (SameToken(env, r.draw, other.draw) && other.stage.Done?)
  }

  predicate Half(env: Env, x: Spent, t0: Tables, r: Rotation, other: Rotation)
    requires env.hash(x.token) in t0.refreshes
  {
    && Consistent(r)
    && (r.stage.Refused? ==> Reason(env, x, t0, r, other))
    && (r.late ==> other.revoked)
    && (!r.stage.Look? && !r.stage.Refused? ==> OnTime(env, x, t0, r.draw))
    && (r.stored ==> OnTime(env, x, t0, r.draw) && JwtStorable(env, x, t0, r.draw))
    && (r.stage.Done? ==> TokenStorable(env, t0, r.draw))
    && (r.stored && other.stored ==> !SameJwt(env, x, r.draw, other.draw))
    && (r.stage.Done? && other.stage.Done? ==> !SameToken(env, r.draw, other.draw))
  }

  /** A request's new row, once it is done. */
  predicate RowStored(env: Env, x: Spent, t: Tables, r: Rotation) {
    r.stage.Done? ==>
      env.hash(r.draw.refreshToken) in t.refreshes
      && t.refreshes[env.hash(r.draw.refreshToken)] == Sessions.NewRow(x.userId, r.draw.storedAt, REFRESH_NANOS)
  }

  predicate TablesFollow(env: Env, x: Spent, t0: Tables, s: Race) {
    var hash := env.hash(x.token);
    && s.tables.users == t0.users
    && t0.jwts.Keys <= s.tables.jwts.Keys && t0.refreshes.Keys <= s.tables.refreshes.Keys
    && (forall h :: h in s.tables.jwts ==> h in t0.jwts || (s.first.stored && h == JwtHash(env, x, s.first.draw))
                                           || (s.second.stored && h == JwtHash(env, x, s.second.draw)))
    && (s.first.stored ==> JwtHash(env, x, s.first.draw) in s.tables.jwts)
    && (s.second.stored ==> JwtHash(env, x, s.second.draw) in s.tables.jwts)
    && (forall h :: h in s.tables.refreshes ==>
          h in t0.refreshes || (s.first.stage.Done? && h == env.hash(s.first.draw.refreshToken))
          || (s.second.stage.Done? && h == env.hash(s.second.draw.refreshToken)))
    && hash in t0.refreshes && hash in s.tables.refreshes
    && s.tables.refreshes[hash] == t0.refreshes[hash].(revoked := s.first.revoked || s.second.revoked)
    && RowStored(env, x, s.tables, s.first) && RowStored(env, x, s.tables, s.second)
  }

  ghost predicate RaceInv(env: Env, x: Spent, t0: Tables, s: Race) {
    && Presented(env, x, t0)
    && Half(env, x, t0, s.first, s.second) && Half(env, x, t0, s.second, s.first)
    && TablesFollow(env, x, t0, s)
  }

  /** The lookup fails exactly when the token has been revoked or has expired. */
  lemma LookFinds(env: Env, x: Spent, t0: Tables, s: Race)
    requires RaceInv(env, x, t0, s)
    ensures ValidRefresh(env, s.tables, x.token, s.first.draw.checkedAt) ==
            if s.first.revoked || s.second.revoked || !OnTime(env, x, t0, s.first.draw) then None else Some(x.userId)
  {
    LiveMeans(env, s.tables, x.token, s.first.draw.checkedAt);
  }

  lemma LookKeepsInv(env: Env, x: Spent, t0: Tables, s: Race)
    requires RaceInv(env, x, t0, s) && s.first.stage.Look?
    ensures RaceInv(env, x, t0, Step(env, x, s, true))
  {
    LookFinds(env, x, t0, s);
  }

  lemma StoreJwtKeepsInv(env: Env, x: Spent, t0: Tables, s: Race)
    requires RaceInv(env, x, t0, s) && s.first.stage.StoreNewJwt?
    ensures RaceInv(env, x, t0, Step(env, x, s, true))
  {
  }

  lemma RevokeKeepsInv(env: Env, x: Spent, t0: Tables, s: Race)
    requires RaceInv(env, x, t0, s) && s.first.stage.RevokeOld?
    ensures RaceInv(env, x, t0, Step(env, x, s, true))
  {
  }

  lemma StoreRefreshKeepsInv(env: Env, x: Spent, t0: Tables, s: Race)
    requires RaceInv(env, x, t0, s) && s.first.stage.StoreNewRefresh?
    ensures RaceInv(env, x, t0, Step(env, x, s, true))
  {
  }

  lemma FirstKeepsInv(env: Env, x: Spent, t0: Tables, s: Race)
    requires RaceInv(env, x, t0, s)
    ensures RaceInv(env, x, t0, Step(env, x, s, true))
  {
    match s.first.stage
    case Look => LookKeepsInv(env, x, t0, s);
    case StoreNewJwt => StoreJwtKeepsInv(env, x, t0, s);
    case RevokeOld => RevokeKeepsInv(env, x, t0, s);
    case StoreNewRefresh => StoreRefreshKeepsInv(env, x, t0, s);
    case _ =>
  }

  function Swap(s: Race): Race {
    Race(s.tables, s.second, s.first)
  }

  lemma SwapKeepsInv(env: Env, x: Spent, t0: Tables, s: Race)
    requires RaceInv(env, x, t0, s)
    ensures RaceInv(env, x, t0, Swap(s))
  {
  }

  lemma {:induction false} InterleaveKeepsInv(env: Env, x: Spent, t: Tables, d: Draw, e: Draw, turns: seq<bool>)
    requires Presented(env, x, t)
    ensures var s := Interleave(env, x, Start(t, d, e), turns);
            RaceInv(env, x, t, s) && s.first.draw == d && s.second.draw == e
  {
    if turns != [] {
      InterleaveKeepsInv(env, x, t, d, e, turns[..|turns| - 1]);
      var s := Interleave(env, x, Start(t, d, e), turns[..|turns| - 1]);
      if turns[|turns| - 1] {
        FirstKeepsInv(env, x, t, s);
      } else {
        SwapKeepsInv(env, x, t, s);
        FirstKeepsInv(env, x, t, Swap(s));
        SwapKeepsInv(env, x, t, Step(env, x, Swap(s), true));
      }
    }
  }

  // ---------------------------------------------------------- turns and stages

  /** How many statements a request has had its turn for. */
  function Turns(turns: seq<bool>, first: bool): nat {
    if turns == [] then 0
    else Turns(turns[..|turns| - 1], first) + if turns[|turns| - 1] == first then 1 else 0
  }

  /** How many turns the other request has before this one's first. */
  function Ahead(turns: seq<bool>, first: bool): nat {
    if turns == [] || turns[0] == first then 0 else 1 + Ahead(turns[1..], first)
  }

  lemma {:induction false} AheadAppended(turns: seq<bool>, turn: bool, first: bool)
    ensures Ahead(turns + [turn], first) ==
            Ahead(turns, first) + if Turns(turns, first) == 0 && turn != first then 1 else 0
    ensures Turns(turns, first) == 0 ==> Ahead(turns, first) == Turns(turns, !first)
    decreases |turns|
  {
    TurnsFromFront(turns, first);
    TurnsFromFront(turns, !first);
    if turns == [] {
      assert (turns + [turn])[1..] == [];
    } else {
      assert (turns + [turn])[1..] == turns[1..] + [turn];
      AheadAppended(turns[1..], turn, first);
    }
  }

  lemma {:induction false} TurnsFromFront(turns: seq<bool>, first: bool)
    ensures Turns(turns, first) ==
            if turns == [] then 0 else Turns(turns[1..], first) + if turns[0] == first then 1 else 0
    decreases |turns|
  {
    if |turns| > 1 {
      var before := turns[..|turns| - 1];
      TurnsFromFront(before, first);
      assert turns[1..][..|turns| - 2] == before[1..];
    }
  }

  lemma TurnsAppended(turns: seq<bool>, turn: bool, first: bool)
    ensures Turns(turns + [turn], first) == Turns(turns, first) + if turn == first then 1 else 0
  {
    assert (turns + [turn])[..|turns|] == turns;
  }

  function StageAt(n: nat): Stage {
    if n == 0 then Look else if n == 1 then StoreNewJwt else if n == 2 then RevokeOld
    else if n == 3 then StoreNewRefresh else Done
  }

  /** A request's lookup comes after the other's revoke: three statements of the other come first, and its
      revoke does not fail. */
  predicate Outrun(turns: seq<bool>, first: bool, other: Draw) {
    Ahead(turns, first) >= 3 && !other.faults.revoke
  }

  /** A request not refused is where its turns have brought it, and its lookup was late exactly when it was
      outrun. */
  predicate Paced(turns: seq<bool>, first: bool, r: Rotation, other: Rotation) {
    var n := Turns(turns, first);
    && (r.stage == StageAt(n) || (r.stage.Refused? && n > 0))
    && (r.revoked ==> n >= 3)
    && (r.late ==> n > 0 && Outrun(turns, first, other.draw))
    && (n > 0 && Outrun(turns, first, other.draw) && !other.stage.Refused? ==> r.late)
  }

  lemma MyTurn(env: Env, x: Spent, t: Tables, turns: seq<bool>, first: bool, r: Rotation, other: Rotation)
    requires Paced(turns, first, r, other) && Paced(turns, !first, other, r) && Consistent(r) && Consistent(other)
    ensures Paced(turns + [first], first, Advance(env, x, t, r, other).1, other)
  {
    TurnsAppended(turns, first, first);
    AheadAppended(turns, first, first);
  }

  lemma TheirTurn(env: Env, x: Spent, t: Tables, turns: seq<bool>, first: bool, r: Rotation, other: Rotation)
    requires Paced(turns, first, r, other) && Consistent(r)
    ensures Paced(turns + [!first], first, r, Advance(env, x, t, other, r).1)
  {
    TurnsAppended(turns, !first, first);
    AheadAppended(turns, !first, first);
  }

  lemma {:induction false} InterleavePaced(env: Env, x: Spent, t: Tables, d: Draw, e: Draw, turns: seq<bool>)
    requires Presented(env, x, t)
    ensures var s := Interleave(env, x, Start(t, d, e), turns);
            Paced(turns, true, s.first, s.second) && Paced(turns, false, s.second, s.first)
  {
    if turns != [] {
      var before, turn := turns[..|turns| - 1], turns[|turns| - 1];
      assert turns == before + [turn];
      InterleavePaced(env, x, t, d, e, before);
      InterleaveKeepsInv(env, x, t, d, e, before);
      var s := Interleave(env, x, Start(t, d, e), before);
      if turn {
        MyTurn(env, x, s.tables, before, true, s.first, s.second);
        TheirTurn(env, x, s.tables, before, false, s.second, s.first);
      } else {
        MyTurn(env, x, s.tables, before, false, s.second, s.first);
        TheirTurn(env, x, s.tables, before, true, s.first, s.second);
      }
    }
  }

  // ----------------------------------------------------------------- theorems

  /** Two refreshes with one token, their statements interleaved in any way: both get a session exactly
      when each has its four turns and alone would succeed, they mint different JWTs and draw different
      refresh tokens, and neither looks the token up after the other's revoke. */
  lemma OverlapForks(env: Env, x: Spent, t: Tables, d: Draw, e: Draw, turns: seq<bool>)
    requires Presented(env, x, t)
    ensures var s := Interleave(env, x, Start(t, d, e), turns);
            s.first.stage.Done? && s.second.stage.Done? <==>
            && Turns(turns, true) >= 4 && Turns(turns, false) >= 4
            && Able(env, x, t, d) && Able(env, x, t, e)
            && !SameJwt(env, x, d, e) && !SameToken(env, d, e)
            && !Outrun(turns, true, e) && !Outrun(turns, false, d)
  {
    InterleaveKeepsInv(env, x, t, d, e, turns);
    InterleavePaced(env, x, t, d, e, turns);
  }

  /** `n` turns each, one by one. */
  function TurnByTurn(n: nat): seq<bool> {
    if n == 0 then [] else TurnByTurn(n - 1) + [true] + [false]
  }

  lemma TurnAdded(turns: seq<bool>, turn: bool)
    ensures Turns(turns + [turn], turn) == Turns(turns, turn) + 1
    ensures Turns(turns + [turn], !turn) == Turns(turns, !turn)
    ensures Ahead(turns + [turn], turn) == Ahead(turns, turn)
    ensures Ahead(turns + [turn], !turn) == Ahead(turns, !turn) + if Turns(turns, !turn) == 0 then 1 else 0
  {
    TurnsAppended(turns, turn, turn);
    TurnsAppended(turns, turn, !turn);
    AheadAppended(turns, turn, turn);
    AheadAppended(turns, turn, !turn);
  }

  lemma {:induction false} TurnByTurnCounts(n: nat)
    ensures Turns(TurnByTurn(n), true) == n && Turns(TurnByTurn(n), false) == n
    ensures Ahead(TurnByTurn(n), true) == 0 && Ahead(TurnByTurn(n), false) == if n == 0 then 0 else 1
  {
    if n > 0 {
      TurnByTurnCounts(n - 1);
      TurnAdded(TurnByTurn(n - 1), true);
      TurnAdded(TurnByTurn(n - 1) + [true], false);
    }
  }

  /** `m` turns of the first, then `n` of the second. */
  function OneThenOther(m: nat, n: nat): seq<bool> {
    if n > 0 then OneThenOther(m, n - 1) + [false] else if m > 0 then OneThenOther(m - 1, 0) + [true] else []
  }

  lemma {:induction false} OneCounts(m: nat)
    ensures Turns(OneThenOther(m, 0), true) == m && Turns(OneThenOther(m, 0), false) == 0
    ensures Ahead(OneThenOther(m, 0), false) == m && Ahead(OneThenOther(m, 0), true) == 0
  {
    if m > 0 {
      OneCounts(m - 1);
      TurnAdded(OneThenOther(m - 1, 0), true);
    }
  }

  lemma {:induction false} OneThenOtherCounts(m: nat, n: nat)
    requires m > 0
    ensures Turns(OneThenOther(m, n), true) == m && Turns(OneThenOther(m, n), false) == n
    ensures Ahead(OneThenOther(m, n), false) == m && Ahead(OneThenOther(m, n), true) == 0
  {
    if n == 0 {
      OneCounts(m);
    } else {
      OneThenOtherCounts(m, n - 1);
      TurnAdded(OneThenOther(m, n - 1), false);
    }
  }

  /** Turn by turn both succeed whenever each alone would and their JWTs and tokens differ; one after the
      other only if moreover the first one's revoke fails. */
  lemma BothOrders(env: Env, x: Spent, t: Tables, d: Draw, e: Draw)
    requires Presented(env, x, t)
    ensures var s := Interleave(env, x, Start(t, d, e), TurnByTurn(4));
            s.first.stage.Done? && s.second.stage.Done? <==>
            Able(env, x, t, d) && Able(env, x, t, e) && !SameJwt(env, x, d, e) && !SameToken(env, d, e)
    ensures var s := Interleave(env, x, Start(t, d, e), OneThenOther(4, 4));
            s.first.stage.Done? && s.second.stage.Done? <==>
            && Able(env, x, t, d) && Able(env, x, t, e) && !SameJwt(env, x, d, e) && !SameToken(env, d, e)
            && d.faults.revoke
  {
    TurnByTurnCounts(4);
    OverlapForks(env, x, t, d, e, TurnByTurn(4));
    OneThenOtherCounts(4, 4);
    OverlapForks(env, x, t, d, e, OneThenOther(4, 4));
  }

  /** At any moment of a race a finished request's token is live for 604800 seconds, and the old one is
      dead once either revoke took effect. */
  lemma LiveAfterRace(env: Env, x: Spent, t: Tables, d: Draw, e: Draw, turns: seq<bool>, now: Clock)
    requires Presented(env, x, t)
    ensures var s := Interleave(env, x, Start(t, d, e), turns);
            && (s.first.stage.Done? ==>
                  (ValidRefresh(env, s.tables, d.refreshToken, now).Some? <==> now < d.storedAt + REFRESH_NANOS))
            && (s.second.stage.Done? ==>
                  (ValidRefresh(env, s.tables, e.refreshToken, now).Some? <==> now < e.storedAt + REFRESH_NANOS))
            && (ValidRefresh(env, s.tables, x.token, now).Some? <==>
                  !s.first.revoked && !s.second.revoked && now < t.refreshes[env.hash(x.token)].expiresAt)
  {
    InterleaveKeepsInv(env, x, t, d, e, turns);
    var s := Interleave(env, x, Start(t, d, e), turns);
    LiveMeans(env, s.tables, d.refreshToken, now);
    LiveMeans(env, s.tables, e.refreshToken, now);
    LiveMeans(env, s.tables, x.token, now);
  }

  /** They never both lose: when each alone would succeed and their JWTs and tokens differ, at least one
      gets a session once both have had their turns. */
  lemma OneOfTwoRefreshes(env: Env, x: Spent, t: Tables, d: Draw, e: Draw, turns: seq<bool>)
    requires Presented(env, x, t) && Able(env, x, t, d) && Able(env, x, t, e)
    requires !SameJwt(env, x, d, e) && !SameToken(env, d, e)
    requires Turns(turns, true) >= 4 && Turns(turns, false) >= 4
    ensures var s := Interleave(env, x, Start(t, d, e), turns); s.first.stage.Done? || s.second.stage.Done?
  {
    InterleaveKeepsInv(env, x, t, d, e, turns);
    InterleavePaced(env, x, t, d, e, turns);
  }

  // ------------------------------------------------- a refresh against a logout

  /** `n` statements of a refresh, a logout's revoke of the token, and the refresh's other statements. */
  function LogoutAfter(env: Env, x: Spent, t: Tables, d: Draw, n: nat): Race
    requires n <= 4
  {
    var s := Alone(env, x, Start(t, d, d), n);
    Alone(env, x, s.(tables := Run(s.tables, RevokeRefresh(env.hash(x.token)))), 4 - n)
  }

  /** A refresh on its way after its lookup: it ends well if what is left to insert can be, and its new row
      is then unrevoked beside the old one. */
  ghost predicate WellUnderWay(env: Env, x: Spent, t0: Tables, s: Race) {
    && Presented(env, x, t0) && OnTime(env, x, t0, s.first.draw) && Consistent(s.first)
    && s.tables.refreshes.Keys == t0.refreshes.Keys && env.hash(x.token) in s.tables.refreshes
    && (s.first.stage.StoreNewJwt? ==> s.tables.jwts == t0.jwts)
    && (s.first.stored ==> JwtStorable(env, x, t0, s.first.draw))
    && (s.first.stage.StoreNewJwt? || s.first.stage.RevokeOld? || s.first.stage.StoreNewRefresh?)
  }

  predicate Revoked(env: Env, x: Spent, t: Tables) {
    env.hash(x.token) in t.refreshes && t.refreshes[env.hash(x.token)].revoked
  }

  ghost predicate EndsAs(env: Env, x: Spent, t0: Tables, d: Draw, end: Race)
    requires env.hash(x.token) in t0.refreshes
  {
    && Ended(end.first) && (end.first.stage.Done? <==> Able(env, x, t0, d))
    && RowStored(env, x, end.tables, end.first) && end.first.draw == d
  }

  lemma UnderWayStep(env: Env, x: Spent, t0: Tables, s: Race)
    requires WellUnderWay(env, x, t0, s) && !s.first.stage.StoreNewRefresh?
    ensures var s1 := Step(env, x, s, true);
            && s1.first.draw == s.first.draw && (Revoked(env, x, s.tables) ==> Revoked(env, x, s1.tables))
            && if s.first.stage.StoreNewJwt? && !JwtStorable(env, x, t0, s.first.draw) then s1.first.stage.Refused?
               else WellUnderWay(env, x, t0, s1) && s1.first.stage ==
                      if s.first.stage.StoreNewJwt? then RevokeOld else StoreNewRefresh
  {
  }

  lemma UnderWayEnds(env: Env, x: Spent, t0: Tables, s: Race)
    requires WellUnderWay(env, x, t0, s) && s.first.stage.StoreNewRefresh?
    ensures EndsAs(env, x, t0, s.first.draw, Step(env, x, s, true))
    ensures Revoked(env, x, s.tables) ==> Revoked(env, x, Step(env, x, s, true).tables)
  {
  }

  function Left(stage: Stage): nat {
    if stage.StoreNewJwt? then 3 else if stage.RevokeOld? then 2 else 1
  }

  lemma {:induction false} UnderWayAlone(env: Env, x: Spent, t0: Tables, s: Race)
    requires WellUnderWay(env, x, t0, s)
    ensures var end := Alone(env, x, s, Left(s.first.stage));
            EndsAs(env, x, t0, s.first.draw, end) && (Revoked(env, x, s.tables) ==> Revoked(env, x, end.tables))
    decreases Left(s.first.stage)
  {
    var n := Left(s.first.stage);
    var s1 := Step(env, x, s, true);
    AloneFirst(env, x, s, n - 1);
    if n == 1 {
      AloneNone(env, x, s1);
      UnderWayEnds(env, x, t0, s);
    } else {
      UnderWayStep(env, x, t0, s);
      if s1.first.stage.Refused? {
        AloneEnded(env, x, s1, n - 1);
      } else {
        UnderWayAlone(env, x, t0, s1);
      }
    }
  }

  /** The logout's revoke does not hinder a refresh past its lookup. */
  lemma LogoutUnderWay(env: Env, x: Spent, t0: Tables, s: Race)
    requires WellUnderWay(env, x, t0, s)
    ensures var s1 := s.(tables := Run(s.tables, RevokeRefresh(env.hash(x.token))));
            WellUnderWay(env, x, t0, s1) && Revoked(env, x, s1.tables)
  {
  }

  /** Up to three statements into a refresh: refused because it would fail alone, or well under way. */
  ghost predicate SoFar(env: Env, x: Spent, t: Tables, d: Draw, n: nat, s: Race) {
    && Presented(env, x, t) && s.first.draw == d
    && if s.first.stage.Refused? then !Able(env, x, t, d)
       else WellUnderWay(env, x, t, s) && s.first.stage == StageAt(n)
  }

  lemma FirstSoFar(env: Env, x: Spent, t: Tables, d: Draw)
    requires Presented(env, x, t)
    ensures SoFar(env, x, t, d, 1, Step(env, x, Start(t, d, d), true))
  {
    LiveMeans(env, t, x.token, d.checkedAt);
  }

  lemma NextSoFar(env: Env, x: Spent, t: Tables, d: Draw, n: nat, s: Race)
    requires SoFar(env, x, t, d, n, s) && 1 <= n <= 2
    ensures SoFar(env, x, t, d, n + 1, Step(env, x, s, true))
  {
    if !s.first.stage.Refused? {
      UnderWayStep(env, x, t, s);
    }
  }

  lemma AloneSoFar(env: Env, x: Spent, t: Tables, d: Draw, n: nat)
    requires Presented(env, x, t) && 1 <= n <= 3
    ensures SoFar(env, x, t, d, n, Alone(env, x, Start(t, d, d), n))
  {
    FirstSoFar(env, x, t, d);
    var inv := (s, i: nat) => SoFar(env, x, t, d, i, s);
    forall s, i: nat | 1 <= i < n && inv(s, i)
      ensures inv(Next(env, x)(s), i + 1)
    {
      NextSoFar(env, x, t, d, i, s);
    }
    IterateKeeps(Next(env, x), inv, Start(t, d, d), n);
  }

  lemma AloneToEnd(env: Env, x: Spent, t: Tables, d: Draw)
    requires Presented(env, x, t)
    ensures EndsAs(env, x, t, d, Alone(env, x, Start(t, d, d), 4))
    ensures env.hash(x.token) in Alone(env, x, Start(t, d, d), 4).tables.refreshes
  {
    var s := Alone(env, x, Start(t, d, d), 3);
    AloneSoFar(env, x, t, d, 3);
    AloneLast(env, x, Start(t, d, d), 3);
    if !s.first.stage.Refused? {
      UnderWayEnds(env, x, t, s);
    } else {
      AloneTokenStays(env, x, t, d, 3);
    }
  }

  lemma StepKeepsToken(env: Env, x: Spent, s: Race)
    requires env.hash(x.token) in s.tables.refreshes
    ensures env.hash(x.token) in Step(env, x, s, true).tables.refreshes
  {
  }

  lemma AloneTokenStays(env: Env, x: Spent, t: Tables, d: Draw, n: nat)
    requires Presented(env, x, t) && n > 0
    ensures env.hash(x.token) in Alone(env, x, Start(t, d, d), n).tables.refreshes
  {
    var inv := (s: Race, i: nat) => env.hash(x.token) in s.tables.refreshes;
    StepKeepsToken(env, x, Start(t, d, d));
    forall s, i: nat | 1 <= i < n && inv(s, i)
      ensures inv(Next(env, x)(s), i + 1)
    {
      StepKeepsToken(env, x, s);
    }
    IterateKeeps(Next(env, x), inv, Start(t, d, d), n);
  }

  ghost predicate LoggedOut(env: Env, x: Spent, t: Tables, d: Draw, n: nat, end: Race)
    requires env.hash(x.token) in t.refreshes
  {
    && Revoked(env, x, end.tables)
    && if n == 0 then end.first.stage.Refused? else EndsAs(env, x, t, d, end)
  }

  lemma LogoutFirst(env: Env, x: Spent, t: Tables, d: Draw, n: nat)
    requires Presented(env, x, t) && n == 0
    ensures LoggedOut(env, x, t, d, n, LogoutAfter(env, x, t, d, n))
  {
    var t1 := Run(t, RevokeRefresh(env.hash(x.token)));
    var s := Start(t, d, d).(tables := t1);
    AloneNone(env, x, Start(t, d, d));
    LiveMeans(env, t1, x.token, d.checkedAt);
    var s1 := Step(env, x, s, true);
    AloneFirst(env, x, s, 3);
    AloneEnded(env, x, s1, 3);
  }

  lemma LogoutBetween(env: Env, x: Spent, t: Tables, d: Draw, n: nat)
    requires Presented(env, x, t) && 1 <= n <= 3
    ensures LoggedOut(env, x, t, d, n, LogoutAfter(env, x, t, d, n))
  {
    var s := Alone(env, x, Start(t, d, d), n);
    AloneSoFar(env, x, t, d, n);
    var s1 := s.(tables := Run(s.tables, RevokeRefresh(env.hash(x.token))));
    if s.first.stage.Refused? {
      AloneEnded(env, x, s1, 4 - n);
      AloneTokenStays(env, x, t, d, n);
    } else {
      LogoutUnderWay(env, x, t, s);
      UnderWayAlone(env, x, t, s1);
      assert Left(s1.first.stage) == 4 - n;
    }
  }

  lemma LogoutLast(env: Env, x: Spent, t: Tables, d: Draw, n: nat)
    requires Presented(env, x, t) && n == 4
    ensures LoggedOut(env, x, t, d, n, LogoutAfter(env, x, t, d, n))
  {
    AloneToEnd(env, x, t, d);
    var s := Alone(env, x, Start(t, d, d), 4);
    var s1 := s.(tables := Run(s.tables, RevokeRefresh(env.hash(x.token))));
    AloneNone(env, x, s1);
  }

  lemma LogoutEnds(env: Env, x: Spent, t: Tables, d: Draw, n: nat)
    requires Presented(env, x, t) && n <= 4
    ensures LoggedOut(env, x, t, d, n, LogoutAfter(env, x, t, d, n))
  {
    if n == 0 {
      LogoutFirst(env, x, t, d, n);
    } else if n <= 3 {
      LogoutBetween(env, x, t, d, n);
    } else {
      LogoutLast(env, x, t, d, n);
    }
  }

  lemma LiveAtEnd(env: Env, x: Spent, t: Tables, d: Draw, end: Race, now: Clock)
    requires Presented(env, x, t) && EndsAs(env, x, t, d, end) && end.first.stage.Done?
    ensures ValidRefresh(env, end.tables, d.refreshToken, now).Some? <==> now < d.storedAt + REFRESH_NANOS
  {
    LiveMeans(env, end.tables, d.refreshToken, now);
  }

  /** A logout ends the presented token, but stops a refresh with it only by coming before its lookup: after
      that the refresh succeeds as if alone, and the client holds a live session although it logged out. */
  lemma RefreshOutrunsLogout(env: Env, x: Spent, t: Tables, d: Draw, n: nat, now: Clock)
    requires Presented(env, x, t) && n <= 4
    ensures var end := LogoutAfter(env, x, t, d, n);
            && (end.first.stage.Done? <==> n > 0 && Able(env, x, t, d))
            && ValidRefresh(env, end.tables, x.token, now) == None
            && (end.first.stage.Done? ==>
                  (ValidRefresh(env, end.tables, d.refreshToken, now).Some? <==> now < d.storedAt + REFRESH_NANOS))
  {
    LogoutEnds(env, x, t, d, n);
    var end := LogoutAfter(env, x, t, d, n);
    LiveMeans(env, end.tables, x.token, now);
    if end.first.stage.Done? {
      LiveAtEnd(env, x, t, d, end, now);
    }
  }
}
