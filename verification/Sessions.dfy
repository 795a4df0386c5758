/** src/auth.rs and the session steps of src/handlers/auth.rs: access tokens (JWT) and refresh tokens,
    their two tables, and the handlers that issue, rotate and revoke them. */
module Sessions {
  import opened Wrappers
  import opened Rfc3339

  const REFRESH_NANOS := 604_800 * NANOS
  const JWT_NANOS := 900 * NANOS

  /** Clock readings whose expiry still has a four-digit year. */
  type Clock = t: int | 0 <= t < MAX_DAY * DAY_NANOS - REFRESH_NANOS

  datatype Decoded = Valid(email: string) | ExpiredSignature | Bad

  /** Hashing, minting and decoding of tokens. A JWT depends on the user and the second only. */
  datatype Env = Env(hash: string -> string, mint: (int, string, int) -> string, decode: (string, Clock) -> Decoded)

  /** The `expires_at` column holds the text of `expiresAt`, and queries compare the texts. */
  datatype TokenRow = TokenRow(userId: int, expiresAt: Instant, revoked: bool)

  /** Both token tables are keyed by the UNIQUE token hash. */
  datatype Tables = Tables(jwts: map<string, TokenRow>, refreshes: map<string, TokenRow>, users: map<int, string>)

  // ---------------------------------------------------------------- statements

  datatype Statement =
    | InsertJwt(hash: string, userId: int, at: Clock)
    | RevokeJwt(hash: string)
    | InsertRefresh(hash: string, userId: int, at: Clock)
    | RevokeRefresh(hash: string)
    | InsertUser(id: int, email: string)

  function Insert(m: map<string, TokenRow>, hash: string, row: TokenRow): map<string, TokenRow> {
    if hash in m then m else m[hash := row]
  }

  function Revoke(m: map<string, TokenRow>, hash: string): map<string, TokenRow> {
    if hash in m then m[hash := m[hash].(revoked := true)] else m
  }

  /** An insert of a hash, a user id or an email already present fails and changes nothing. */
  function Run(t: Tables, s: Statement): Tables {
    match s
    case InsertJwt(hash, userId, at) => t.(jwts := Insert(t.jwts, hash, NewRow(userId, at, JWT_NANOS)))
    case RevokeJwt(hash) => t.(jwts := Revoke(t.jwts, hash))
    case InsertRefresh(hash, userId, at) =>
      t.(refreshes := Insert(t.refreshes, hash, NewRow(userId, at, REFRESH_NANOS)))
    case RevokeRefresh(hash) => t.(refreshes := Revoke(t.refreshes, hash))
    case InsertUser(id, email) =>
      if id in t.users || email in t.users.Values then t else t.(users := t.users[id := email])
  }

  function RunAll(t: Tables, statements: seq<Statement>): Tables
    decreases |statements|
  {
    if statements == [] then t else RunAll(Run(t, statements[0]), statements[1..])
  }

  /** A token row as `store_jwt` and `store_refresh_token` build it. */
  function NewRow(userId: int, now: Clock, lifetime: int): TokenRow
    requires 0 <= lifetime <= REFRESH_NANOS
  {
    TokenRow(userId, now + lifetime, false)
  }

  function JwtRevoked(env: Env, t: Tables, token: string): bool {
    env.hash(token) in t.jwts ==> t.jwts[env.hash(token)].revoked
  }

  /** The user of a refresh token that is stored, unrevoked and, compared as text, not expired. */
  function ValidRefresh(env: Env, t: Tables, token: string, now: Clock): Option<int> {
    var hash := env.hash(token);
    if hash in t.refreshes && !t.refreshes[hash].revoked && TextLess(ToText(now), ToText(t.refreshes[hash].expiresAt))
    then Some(t.refreshes[hash].userId)
    else None
  }

  // ------------------------------------------------------------------ handlers

  /** Statements the database may fail; the source ignores a failed revoke. */
  datatype Faults = Faults(storeJwt: bool, revoke: bool, storeRefresh: bool)

  /** Clock readings and the random refresh token of one request, in the order they are taken. */
  datatype Draw = Draw(checkedAt: Clock, mintedAt: Clock, jwtStoredAt: Clock, storedAt: Clock,
                       refreshToken: string, faults: Faults)

  datatype Session = Session(email: string, refreshed: Option<(string, string)>)

  /** The token part of login and of setup: a session, or None when a token cannot be stored. */
  function Issue(env: Env, t: Tables, userId: int, email: string, d: Draw): (Tables, Option<Session>) {
    var jwt := env.mint(userId, email, d.mintedAt / NANOS);
    if d.faults.storeJwt || env.hash(jwt) in t.jwts then (t, None)
    else
      var t1 := Run(t, InsertJwt(env.hash(jwt), userId, d.jwtStoredAt));
      if d.faults.storeRefresh || env.hash(d.refreshToken) in t.refreshes then (t1, None)
      else
        (Run(t1, InsertRefresh(env.hash(d.refreshToken), userId, d.storedAt)),
         Some(Session(email, Some((jwt, d.refreshToken)))))
  }

  /** The refresh path: the same, with the old refresh token revoked between the two inserts. */
  function Rotate(env: Env, t: Tables, old_: string, userId: int, email: string, d: Draw): (Tables, Option<Session>) {
    var jwt := env.mint(userId, email, d.mintedAt / NANOS);
    if d.faults.storeJwt || env.hash(jwt) in t.jwts then (t, None)
    else
      var t1 := Run(t, InsertJwt(env.hash(jwt), userId, d.jwtStoredAt));
      var t2 := if d.faults.revoke then t1 else Run(t1, RevokeRefresh(env.hash(old_)));
      if d.faults.storeRefresh || env.hash(d.refreshToken) in t2.refreshes then (t2, None)
      else
        (Run(t2, InsertRefresh(env.hash(d.refreshToken), userId, d.storedAt)),
         Some(Session(email, Some((jwt, d.refreshToken)))))
  }

  /** The extractor before every protected handler; None is the redirect to the login page. */
  function Authenticate(env: Env, t: Tables, jwt: Option<string>, refresh: Option<string>, d: Draw)
    : (Tables, Option<Session>)
  {
    if jwt.Some? && env.decode(jwt.value, d.checkedAt).Valid? then
      (t, if JwtRevoked(env, t, jwt.value) then None else Some(Session(env.decode(jwt.value, d.checkedAt).email, None)))
    else if jwt.Some? && env.decode(jwt.value, d.checkedAt).Bad? then (t, None)
    else if refresh.None? then (t, None)
    else
      match ValidRefresh(env, t, refresh.value, d.checkedAt)
      case None => (t, None)
      case Some(userId) =>
        if userId in t.users then Rotate(env, t, refresh.value, userId, t.users[userId], d) else (t, None)
  }

  function LogoutStatements(env: Env, jwt: Option<string>, refresh: Option<string>): seq<Statement> {
    (if jwt.Some? then [RevokeJwt(env.hash(jwt.value))] else []) +
    (if refresh.Some? then [RevokeRefresh(env.hash(refresh.value))] else [])
  }

  /** The tables as the server changes them in place. */
  class Store {
    const env: Env
    var jwts: map<string, TokenRow>
    var refreshes: map<string, TokenRow>
    var users: map<int, string>

    function State(): Tables
      reads this
    {
      Tables(jwts, refreshes, users)
    }

    constructor (env: Env)
      ensures this.env == env && State() == Tables(map[], map[], map[])
    {
      this.env, jwts, refreshes, users := env, map[], map[], map[];
    }

    method StoreJwt(userId: int, token: string, now: Clock, fault: bool) returns (stored: bool)
      modifies this`jwts
      ensures stored <==> !fault && env.hash(token) !in old(State()).jwts
      ensures State() == if stored then Run(old(State()), InsertJwt(env.hash(token), userId, now))
                         else old(State())
    {
      stored := !fault && env.hash(token) !in jwts;
      if stored {
        jwts := jwts[env.hash(token) := TokenRow(userId, now + JWT_NANOS, false)];
      }
    }

    method RevokeToken(token: string, fault: bool)
      modifies this`jwts
      ensures State() == if fault then old(State()) else Run(old(State()), RevokeJwt(env.hash(token)))
    {
      if !fault && env.hash(token) in jwts {
        jwts := jwts[env.hash(token) := jwts[env.hash(token)].(revoked := true)];
      }
    }

    /** A token that is not in the table counts as revoked. */
    method IsJwtRevoked(token: string) returns (revoked: bool)
      ensures revoked <==> JwtRevoked(env, State(), token)
    {
      revoked := if env.hash(token) in jwts then jwts[env.hash(token)].revoked else true;
    }

    method StoreRefreshToken(userId: int, token: string, now: Clock, fault: bool) returns (stored: bool)
      modifies this`refreshes
      ensures stored <==> !fault && env.hash(token) !in old(State()).refreshes
      ensures State() == if stored
                         then Run(old(State()), InsertRefresh(env.hash(token), userId, now)) else old(State())
    {
      stored := !fault && env.hash(token) !in refreshes;
      if stored {
        refreshes := refreshes[env.hash(token) := TokenRow(userId, now + REFRESH_NANOS, false)];
      }
    }

    method GetValidRefreshToken(token: string, now: Clock) returns (user: Option<int>)
      ensures user == ValidRefresh(env, State(), token, now)
    {
      var hash := env.hash(token);
      if hash in refreshes && !refreshes[hash].revoked && TextLess(ToText(now), ToText(refreshes[hash].expiresAt)) {
        return Some(refreshes[hash].userId);
      }
      return None;
    }

    method RevokeRefreshToken(token: string, fault: bool)
      modifies this`refreshes
      ensures State() == if fault then old(State()) else Run(old(State()), RevokeRefresh(env.hash(token)))
    {
      if !fault && env.hash(token) in refreshes {
        refreshes := refreshes[env.hash(token) := refreshes[env.hash(token)].(revoked := true)];
      }
    }

    /** login after the password check. */
    method LogIn(userId: int, email: string, d: Draw) returns (s: Option<Session>)
      modifies this
      ensures (State(), s) == Issue(env, old(State()), userId, email, d)
    {
      var jwt := env.mint(userId, email, d.mintedAt / NANOS);
      var stored := StoreJwt(userId, jwt, d.jwtStoredAt, d.faults.storeJwt);
      if !stored {
        return None;
      }
      stored := StoreRefreshToken(userId, d.refreshToken, d.storedAt, d.faults.storeRefresh);
      if !stored {
        return None;
      }
      s := Some(Session(email, Some((jwt, d.refreshToken))));
    }

    /** setup_first_user: only while there is no user. */
    method SetUp(id: int, email: string, d: Draw) returns (s: Option<Session>)
      modifies this
      ensures (State(), s) == if old(State()).users != map[] then (old(State()), None)
                              else Issue(env, Run(old(State()), InsertUser(id, email)), id, email, d)
    {
      if users != map[] {
        return None;
      }
      users := users[id := email];
      s := LogIn(id, email, d);
    }

    method FromRequestParts(jwt: Option<string>, refresh: Option<string>, d: Draw) returns (s: Option<Session>)
      modifies this
      ensures (State(), s) == Authenticate(env, old(State()), jwt, refresh, d)
    {
      if jwt.Some? {
        var decoded := env.decode(jwt.value, d.checkedAt);
        if decoded.Valid? {
          var revoked := IsJwtRevoked(jwt.value);
          return if revoked then None else Some(Session(decoded.email, None));
        }
        if decoded.Bad? {
          return None;
        }
      }
      if refresh.None? {
        return None;
      }
      var valid := GetValidRefreshToken(refresh.value, d.checkedAt);
      if valid.None? || valid.value !in users {
        return None;
      }
      s := RotateTokens(refresh.value, valid.value, d);
    }

    method RotateTokens(oldToken: string, userId: int, d: Draw) returns (s: Option<Session>)
      requires userId in users
      modifies this
      ensures (State(), s) == Rotate(env, old(State()), oldToken, userId, old(users[userId]), d)
    {
      var email := users[userId];
      var jwt := env.mint(userId, email, d.mintedAt / NANOS);
      var stored := StoreJwt(userId, jwt, d.jwtStoredAt, d.faults.storeJwt);
      if !stored {
        return None;
      }
      RevokeRefreshToken(oldToken, d.faults.revoke);
      stored := StoreRefreshToken(userId, d.refreshToken, d.storedAt, d.faults.storeRefresh);
      if !stored {
        return None;
      }
      s := Some(Session(email, Some((jwt, d.refreshToken))));
    }

    /** logout revokes what the cookies hold; `jwtFault` and `refreshFault` are failures it ignores. */
    method LogOut(jwt: Option<string>, refresh: Option<string>, jwtFault: bool, refreshFault: bool)
      modifies this
      ensures State() == RunAll(old(State()), LogoutStatements(env, if jwtFault then None else jwt,
                                                               if refreshFault then None else refresh))
    {
      if jwt.Some? {
        RevokeToken(jwt.value, jwtFault);
      }
      if refresh.Some? {
        RevokeRefreshToken(refresh.value, refreshFault);
      }
      LogoutOneByOne(env, old(State()), if jwtFault then None else jwt, if refreshFault then None else refresh);
    }
  }

  lemma LogoutOneByOne(env: Env, t: Tables, jwt: Option<string>, refresh: Option<string>)
    ensures RunAll(t, LogoutStatements(env, jwt, refresh)) ==
            var t1 := if jwt.Some? then Run(t, RevokeJwt(env.hash(jwt.value))) else t;
            if refresh.Some? then Run(t1, RevokeRefresh(env.hash(refresh.value))) else t1
  {
    var last := LogoutStatements(env, None, refresh);
    assert refresh.Some? ==> last[1..] == [];
    var t1 := if jwt.Some? then Run(t, RevokeJwt(env.hash(jwt.value))) else t;
    assert RunAll(t1, last) == if refresh.Some? then Run(t1, RevokeRefresh(env.hash(refresh.value))) else t1;
    assert jwt.Some? ==> LogoutStatements(env, jwt, refresh)[1..] == last;
  }
}
