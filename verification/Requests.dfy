/** The handlers that share the one rate limiter (src/main.rs): login and setup, the public contract
    pages and signing. */
module Requests {
  import opened Wrappers
  import opened RateLimit
  import opened RateLimitRuns
  import Crypto
  import Tables
  import Signing
  import Sequential
  import Database
  import Answers
  import Rfc3339
  import Sessions
  import SessionTheorems

  datatype Account = Account(id: int, passwordHash: string)

  type Accounts = map<string, Account>

  /** bcrypt's verdict on a password and a hash, None when the hash is malformed; `dummy` is the hash
      checked for an unknown address. */
  datatype Passwords = Passwords(verify: (string, string) -> Option<bool>, dummy: string)

  datatype Config = Config(env: Sessions.Env, primitives: Crypto.Primitives, passwords: Passwords)

  datatype State = State(sessions: Sessions.Tables, accounts: Accounts, contracts: Tables.Tables)

  /** Failures of a setup before any token: of the query for users, and of the hashing or the insert. */
  datatype SetUpFaults = SetUpFaults(query: bool, create: bool)

  /** A Page is one of the three public contract pages, asked for with a customer UUID. */
  datatype Request =
    | Login(ip: Ip, checkedAt: int, outcomeAt: int, email: string, password: string, draw: Sessions.Draw)
    | SetUp(ip: Ip, checkedAt: int, outcomeAt: int, id: int, email: string, passwordHash: string, draw: Sessions.Draw,
            faults: SetUpFaults)
    | Page(ip: Ip, checkedAt: int, outcomeAt: int, req: Signing.SignRequest, signingDraw: Signing.Draw)
    | Sign(ip: Ip, checkedAt: int, outcomeAt: int, req: Signing.SignRequest, signingDraw: Signing.Draw)

  /** `reports` is what the limiter sees. The status 200 of a page stands for what it then shows. */
  datatype Outcome = Outcome(status: int, reports: seq<Kind>, state: State, body: Body)

  /** What the answer carries: the cookies of a session, or the response to a signing. */
  datatype Body = Nothing | SignedIn(session: Sessions.Session) | Signed(response: Database.SignResponse)

  // ---------------------------------------------------------------- handlers

  /** None when verification itself fails; a dummy that matches is still no login. */
  function PasswordValid(p: Passwords, accounts: Accounts, email: string, password: string): Option<bool> {
    match p.verify(password, if email in accounts then accounts[email].passwordHash else p.dummy)
    case None => None
    case Some(valid) => Some(valid && email in accounts)
  }

  function LogIn(c: Config, s: State, email: string, password: string, d: Sessions.Draw): Outcome {
    match PasswordValid(c.passwords, s.accounts, email, password)
    case None => Outcome(500, [Try, Abandon], s, Nothing)
    case Some(false) => Outcome(401, [Try, Fail], s, Nothing)
    case Some(true) =>
      var (t, session) := Sessions.Issue(c.env, s.sessions, s.accounts[email].id, email, d);
      if session.None? then Outcome(500, [Try, Abandon], s.(sessions := t), Nothing)
      else Outcome(200, [Try, Succeed], s.(sessions := t), SignedIn(session.value))
  }

  function FirstSetUp(c: Config, s: State, id: int, email: string, passwordHash: string, d: Sessions.Draw,
                      faults: SetUpFaults): Outcome
  {
    if faults.query then Outcome(500, [Try, Abandon], s, Nothing)
    else if s.sessions.users != map[] then Outcome(409, [Try, Abandon], s, Nothing)
    else if faults.create then Outcome(500, [Try, Abandon], s, Nothing)
    else
      var created := Sessions.Run(s.sessions, Sessions.InsertUser(id, email));
      var accounts := s.accounts[email := Account(id, passwordHash)];
      var (t, session) := Sessions.Issue(c.env, created, id, email, d);
      if session.None? then Outcome(500, [Try, Abandon], State(t, accounts, s.contracts), Nothing)
      else Outcome(201, [Try, Succeed], State(t, accounts, s.contracts), SignedIn(session.value))
  }

  /** verify_customer_uuid and what the limiter is told of it; the rest is `then_`. */
  function Verified(s: State, req: Signing.SignRequest, d: Signing.Draw,
                    then_: (Tables.Tables, Signing.Phase)): Outcome
  {
    match Signing.AfterReadContract(s.contracts, req, 0, d)
    case Failed(status) => Outcome(status, [Try, Fail], s, Nothing)
    case _ => Outcome(Status(then_.1), [Try, Succeed], s.(contracts := then_.0), BodyOf(then_.1))
  }

  function BodyOf(phase: Signing.Phase): Body {
    var answer := Database.AnswerOf(phase);
    if answer.Ok? then Signed(answer.value) else Nothing
  }

  function Status(phase: Signing.Phase): int {
    if phase.Failed? then phase.status else 200
  }

  /** One request: sign_contract refuses an unaccepted one before the check, every other one is checked
      first. */
  function Respond(c: Config, m: Attempts, s: State, r: Request): Outcome {
    if r.Sign? && !r.req.accepted then Outcome(400, [], s, Nothing)
    else if CheckVerdict(m, r.ip, r.checkedAt).Refused? then Outcome(429, [Try], s, Nothing)
    else
      match r
      case Login(_, _, _, email, password, d) => LogIn(c, s, email, password, d)
      case SetUp(_, _, _, id, email, passwordHash, d, faults) => FirstSetUp(c, s, id, email, passwordHash, d, faults)
      case Page(_, _, _, req, d) => Verified(s, req, d, (s.contracts, Signing.Stopped))
      case Sign(_, _, _, req, d) => Verified(s, req, d, Sequential.SignAlone(c.primitives, s.contracts, req, d, 0))
  }

  function EventsOf(r: Request, reports: seq<Kind>): (events: seq<Event>)
    ensures |events| == |reports|
  {
    seq(|reports|, i requires 0 <= i < |reports| =>
      Event(reports[i], r.ip, if i == 0 then r.checkedAt else r.outcomeAt))
  }

  lemma AloneAfterRead(p: Crypto.Primitives, t: Tables.Tables, req: Signing.SignRequest, d: Signing.Draw,
                       contract: Tables.Contract)
    requires req.accepted && Signing.AfterReadContract(t, req, 0, d) == Signing.ReadSlot(contract, 0)
    ensures Sequential.SignAlone(p, t, req, d, 0) ==
            Sequential.SlotAlone(p, t, req, contract, 0, d, Signing.NewRow(p, req, contract, d))
  {
  }

  lemma SignRoute(c: Config, m: Attempts, s: State, r: Request)
    requires r.Sign? && r.req.accepted && CheckVerdict(m, r.ip, r.checkedAt).Allowed?
    ensures Respond(c, m, s, r) ==
            Verified(s, r.req, r.signingDraw, Sequential.SignAlone(c.primitives, s.contracts, r.req, r.signingDraw, 0))
  {
  }

  lemma VerifiedPasses(s: State, req: Signing.SignRequest, d: Signing.Draw, contract: Tables.Contract,
                       then_: (Tables.Tables, Signing.Phase))
    requires Signing.AfterReadContract(s.contracts, req, 0, d) == Signing.ReadSlot(contract, 0)
    ensures Verified(s, req, d, then_)
            == Outcome(Status(then_.1), [Try, Succeed], s.(contracts := then_.0), BodyOf(then_.1))
  {
  }

  /** sign_contract after its checks, in the terms of its answer. */
  lemma SignAfterCheck(c: Config, m: Attempts, s: State, r: Request, contract: Tables.Contract)
    requires r.Sign? && r.req.accepted && CheckVerdict(m, r.ip, r.checkedAt).Allowed?
    requires Signing.AfterReadContract(s.contracts, r.req, 0, r.signingDraw) == Signing.ReadSlot(contract, 0)
    ensures var signed := Signing.NewRow(c.primitives, r.req, contract, r.signingDraw);
            var end := Sequential.SlotAlone(c.primitives, s.contracts, r.req, contract, 0, r.signingDraw, signed);
            Respond(c, m, s, r) == Outcome(Status(end.1), [Try, Succeed], s.(contracts := end.0), BodyOf(end.1))
  {
    SignRoute(c, m, s, r);
    AloneAfterRead(c.primitives, s.contracts, r.req, r.signingDraw, contract);
    VerifiedPasses(s, r.req, r.signingDraw, contract,
                   Sequential.SignAlone(c.primitives, s.contracts, r.req, r.signingDraw, 0));
  }

  lemma UnverifiedAfterCheck(c: Config, m: Attempts, s: State, r: Request, status: int)
    requires r.Sign? && r.req.accepted && CheckVerdict(m, r.ip, r.checkedAt).Allowed?
    requires Signing.AfterReadContract(s.contracts, r.req, 0, r.signingDraw) == Signing.Failed(status)
    ensures Respond(c, m, s, r) == Outcome(status, [Try, Fail], s, Nothing)
  {
  }

  /** A handler alone ends with an answer. */
  lemma StatusIsAnswer(c: Config, t: Tables.Tables, req: Signing.SignRequest, contract: Tables.Contract,
                       d: Signing.Draw,
                       signed: Result<Tables.Signature, Crypto.KeyError>)
    ensures var phase := Sequential.SlotAlone(c.primitives, t, req, contract, 0, d, signed).1;
            Status(phase) == if Database.AnswerOf(phase).Ok? then 200 else Database.AnswerOf(phase).error
  {
  }

  lemma FinalOfTwo(m: Attempts, r: Request, a: Kind, b: Kind)
    ensures Final(m, EventsOf(r, [a])) == Apply(m, Event(a, r.ip, r.checkedAt))
    ensures Final(m, EventsOf(r, [a, b])) == Apply(Apply(m, Event(a, r.ip, r.checkedAt)), Event(b, r.ip, r.outcomeAt))
  {
    var one, two := EventsOf(r, [a]), EventsOf(r, [a, b]);
    assert one == [Event(a, r.ip, r.checkedAt)] && one[..0] == [];
    assert two[..1] == one;
  }

  class Server {
    const config: Config
    const limiter: RateLimiter
    const sessions: Sessions.Store
    const contracts: Database.Store
    var accounts: Accounts

    constructor (config: Config, limiter: RateLimiter, sessions: Sessions.Store, contracts: Database.Store)
      requires sessions.env == config.env
      ensures this.config == config && this.limiter == limiter && accounts == map[]
      ensures this.sessions == sessions && this.contracts == contracts
    {
      this.config, this.limiter, this.sessions, this.contracts := config, limiter, sessions, contracts;
      accounts := map[];
    }

    function Now(): State
      reads this, sessions, contracts
    {
      State(sessions.State(), accounts, contracts.State())
    }

    method HandleLogin(r: Request) returns (status: int, body: Body)
      requires r.Login? && sessions.env == config.env
      modifies limiter, sessions
      ensures var o := Respond(config, old(limiter.attempts), old(Now()), r);
              status == o.status && body == o.body && Now() == o.state
                  && limiter.attempts == Final(old(limiter.attempts), EventsOf(r, o.reports))
    {
      ghost var m, o := limiter.attempts, Respond(config, limiter.attempts, Now(), r);
      if |o.reports| == 2 {
        FinalOfTwo(m, r, Try, o.reports[1]);
      } else {
        FinalOfTwo(m, r, Try, Try);
      }
      var verdict := limiter.CheckRateLimit(r.ip, r.checkedAt);
      if verdict.Refused? {
        return 429, Nothing;
      }
      var known := r.email in accounts;
      var hash := if known then accounts[r.email].passwordHash else config.passwords.dummy;
      var matches := config.passwords.verify(r.password, hash);
      if matches.None? {
        return 500, Nothing;
      }
      if !(matches.value && known) {
        limiter.RecordFailedAttempt(r.ip, r.outcomeAt);
        return 401, Nothing;
      }
      var session := sessions.LogIn(accounts[r.email].id, r.email, r.draw);
      if session.None? {
        return 500, Nothing;
      }
      limiter.ResetAttempts(r.ip);
      status, body := 200, SignedIn(session.value);
    }

    method HandleSetUp(r: Request) returns (status: int, body: Body)
      requires r.SetUp? && sessions.env == config.env
      modifies limiter, sessions, this`accounts
      ensures var o := Respond(config, old(limiter.attempts), old(Now()), r);
              status == o.status && body == o.body && Now() == o.state
                  && limiter.attempts == Final(old(limiter.attempts), EventsOf(r, o.reports))
    {
      ghost var m, o := limiter.attempts, Respond(config, limiter.attempts, Now(), r);
      if |o.reports| == 2 {
        FinalOfTwo(m, r, Try, o.reports[1]);
      } else {
        FinalOfTwo(m, r, Try, Try);
      }
      var verdict := limiter.CheckRateLimit(r.ip, r.checkedAt);
      if verdict.Refused? {
        return 429, Nothing;
      }
      if r.faults.query {
        return 500, Nothing;
      }
      if sessions.users != map[] {
        return 409, Nothing;
      }
      if r.faults.create {
        return 500, Nothing;
      }
      var session := sessions.SetUp(r.id, r.email, r.draw);
      accounts := accounts[r.email := Account(r.id, r.passwordHash)];
      if session.None? {
        return 500, Nothing;
      }
      limiter.ResetAttempts(r.ip);
      status, body := 201, SignedIn(session.value);
    }

    /** The part all contract pages share. */
    method HandlePage(r: Request) returns (status: int, body: Body)
      requires r.Page?
      modifies limiter
      ensures var o := Respond(config, old(limiter.attempts), old(Now()), r);
              status == o.status && body == o.body && Now() == o.state
                  && limiter.attempts == Final(old(limiter.attempts), EventsOf(r, o.reports))
    {
      ghost var m, o := limiter.attempts, Respond(config, limiter.attempts, Now(), r);
      FinalOfTwo(m, r, Try, Fail);
      FinalOfTwo(m, r, Try, Succeed);
      var verdict := limiter.CheckRateLimit(r.ip, r.checkedAt);
      if verdict.Refused? {
        return 429, Nothing;
      }
      var verified := contracts.VerifyCustomer(r.req, r.signingDraw.customerExists);
      assert Signing.AfterReadContract(contracts.State(), r.req, 0, r.signingDraw)
             == if verified.Ok? then Signing.ReadSlot(verified.value, 0) else Signing.Failed(verified.error);
      if verified.Err? {
        limiter.RecordFailedAttempt(r.ip, r.outcomeAt);
        return verified.error, Nothing;
      }
      limiter.ResetAttempts(r.ip);
      status, body := 200, Nothing;
    }

    /** sign_contract with its limiter. */
    method HandleSign(r: Request) returns (status: int, body: Body)
      requires r.Sign?
      modifies limiter, contracts
      ensures var o := Respond(config, old(limiter.attempts), old(Now()), r);
              status == o.status && body == o.body && Now() == o.state
                  && limiter.attempts == Final(old(limiter.attempts), EventsOf(r, o.reports))
    {
      ghost var m := limiter.attempts;
      FinalOfTwo(m, r, Try, Fail);
      FinalOfTwo(m, r, Try, Succeed);
      if !r.req.accepted {
        return 400, Nothing;
      }
      var verdict := limiter.CheckRateLimit(r.ip, r.checkedAt);
      if verdict.Refused? {
        return 429, Nothing;
      }
      var verified := contracts.VerifyCustomer(r.req, r.signingDraw.customerExists);
      assert Signing.AfterReadContract(contracts.State(), r.req, 0, r.signingDraw)
             == if verified.Ok? then Signing.ReadSlot(verified.value, 0) else Signing.Failed(verified.error);
      if verified.Err? {
        UnverifiedAfterCheck(config, m, old(Now()), r, verified.error);
        limiter.RecordFailedAttempt(r.ip, r.outcomeAt);
        return verified.error, Nothing;
      }
      limiter.ResetAttempts(r.ip);
      var signed := Signing.NewRow(config.primitives, r.req, verified.value, r.signingDraw);
      SignAfterCheck(config, m, old(Now()), r, verified.value);
      StatusIsAnswer(config, contracts.State(), r.req, verified.value, r.signingDraw, signed);
      var answer := contracts.SignSlot(config.primitives, r.req, verified.value, r.signingDraw, signed);
      status := if answer.Ok? then 200 else answer.error;
      body := if answer.Ok? then Signed(answer.value) else Nothing;
    }
  }

  // ------------------------------------------------------- the answers, exactly

  /** What a user's session needs: that its JWT and its refresh token can be stored. */
  predicate Storable(c: Config, s: State, id: int, email: string, d: Sessions.Draw) {
    SessionTheorems.Storable(c.env, s.sessions, id, email, d)
  }

  /** A login that passes the limiter, by the password's verdict on the stored hash, or on the dummy for an
      unknown address: 200 exactly for a known address, a verdict of yes and tokens that can be stored; 401
      exactly for a verdict on anything else; 500 otherwise. Only 200 hands out tokens, only to that user. */
  lemma LoginExactly(c: Config, m: Attempts, s: State, r: Request)
    requires r.Login? && CheckVerdict(m, r.ip, r.checkedAt).Allowed?
    ensures var o, known := Respond(c, m, s, r), r.email in s.accounts;
            var hash := if known then s.accounts[r.email].passwordHash else c.passwords.dummy;
            var judged := c.passwords.verify(r.password, hash);
            && (o.status == 200 <==>
                  known && judged.Some? && judged.value && Storable(c, s, s.accounts[r.email].id, r.email, r.draw))
            && (o.status == 401 <==> judged.Some? && !(judged.value && known))
            && (o.status == 200 || o.status == 401 || o.status == 500)
            && o.reports == [Try, if o.status == 200 then Succeed else if o.status == 401 then Fail else Abandon]
            && o.state.accounts == s.accounts && o.state.contracts == s.contracts
            && o.state.sessions.users == s.sessions.users
            && (o.status != 200 ==> o.state.sessions.refreshes == s.sessions.refreshes)
            && (!(known && judged.Some? && judged.value) ==> o.state == s)
            && (o.body.SignedIn? <==> o.status == 200)
            && (o.status == 200 ==>
                  SessionTheorems.Granted(c.env, s.sessions, o.state.sessions, o.body.session, s.accounts[r.email].id,
                                          r.email, r.draw))
  {
    if r.email in s.accounts {
      SessionTheorems.IssueExactly(c.env, s.sessions, s.accounts[r.email].id, r.email, r.draw);
    }
  }

  /** A refused check answers 429 and changes nothing, whatever is asked; an unaccepted signing is refused
      before it. */
  lemma RefusedByLimiter(c: Config, m: Attempts, s: State, r: Request)
    requires CheckVerdict(m, r.ip, r.checkedAt).Refused?
    ensures Respond(c, m, s, r) == if r.Sign?
            && !r.req.accepted then Outcome(400, [], s, Nothing) else Outcome(429, [Try], s, Nothing)
  {
  }

  /** The first setup: only without users, and with the user's account and tokens in the state. */
  lemma SetUpExactly(c: Config, m: Attempts, s: State, r: Request)
    requires r.SetUp? && CheckVerdict(m, r.ip, r.checkedAt).Allowed?
    ensures var o := Respond(c, m, s, r);
            var first := s.sessions.users == map[] && !r.faults.query && !r.faults.create;
            && (o.status == 409 <==> s.sessions.users != map[] && !r.faults.query)
            && (o.status == 201 <==> first && Storable(c, s, r.id, r.email, r.draw))
            && (o.status == 201 || o.status == 409 || o.status == 500)
            && o.reports == [Try, if o.status == 201 then Succeed else Abandon]
            && (!first ==> o.state == s)
            && (o.body.SignedIn? <==> o.status == 201)
            && (o.status == 201 ==>
                  SessionTheorems.Granted(c.env, s.sessions.(users := map[r.id := r.email]), o.state.sessions,
                                          o.body.session, r.id, r.email, r.draw))
            && (first ==>
                  && o.state.sessions.users == map[r.id := r.email]
                  && o.state.accounts == s.accounts[r.email := Account(r.id, r.passwordHash)]
                  && o.state.contracts == s.contracts)
  {
    var created := Sessions.Run(s.sessions, Sessions.InsertUser(r.id, r.email));
    SessionTheorems.IssueExactly(c.env, created, r.id, r.email, r.draw);
  }

  /** Who is asked for: 401 for a malformed or wrong customer UUID or one without a customer, 404 for an
      unknown contract, in the source's order. */
  function CustomerStatus(t: Tables.Tables, req: Signing.SignRequest, customerExists: bool): Option<int> {
    if !req.uuidIsValid then Some(401)
    else if req.contractId !in t.contracts then Some(404)
    else if !customerExists || req.customerUuid != t.contracts[req.contractId].customerId then Some(401)
    else None
  }

  /** A contract page: a failed customer check is recorded and answered, a passed one resets. */
  lemma PageExactly(c: Config, m: Attempts, s: State, r: Request)
    requires r.Page? && CheckVerdict(m, r.ip, r.checkedAt).Allowed?
    ensures Respond(c, m, s, r) ==
            match CustomerStatus(s.contracts, r.req, r.signingDraw.customerExists)
            case Some(status) => Outcome(status, [Try, Fail], s, Nothing)
            case None => Outcome(200, [Try, Succeed], s, Nothing)
  {
  }

  /** A signing on tables that show a board: the limiter sees the customer check only, the caller the
      verdict. */
  lemma SignExactly(c: Config, m: Attempts, s: State, r: Request, b: Sequential.Board)
    requires r.Sign? && r.req.accepted && CheckVerdict(m, r.ip, r.checkedAt).Allowed?
    requires Sequential.Shows(c.primitives, s.contracts, b)
    ensures var o, verdict := Respond(c, m, s, r), Sequential.Verdict(s.contracts, b, r.req, r.signingDraw);
            && o.reports == [Try, if CustomerStatus(s.contracts, r.req, r.signingDraw.customerExists).Some? then Fail
                                  else Succeed]
            && o.state.sessions == s.sessions && o.state.accounts == s.accounts
            && match verdict
               case Some(status) => o.status == status && o.state == s && o.body == Nothing
               case None => o.status == 200 && o.body == Signed(FullResponse(s.contracts, b, r.req, r.signingDraw))
  {
    SignRoute(c, m, s, r);
    var end := Sequential.SignAlone(c.primitives, s.contracts, r.req, r.signingDraw, 0);
    SignOutcome(c, s.contracts, r.req, r.signingDraw, b, end);
    EndExactly(s, r.req, r.signingDraw, b, end);
  }

  /** The outcome, once it is known where the handler alone ends. */
  lemma EndExactly(s: State, req: Signing.SignRequest, d: Signing.Draw, b: Sequential.Board,
                   end: (Tables.Tables, Signing.Phase))
    requires match Sequential.Verdict(s.contracts, b, req, d)
             case Some(status) => end == (s.contracts, Signing.Failed(status))
             case None => end.1.Finished? && req.contractId in b.signed
                          && Database.AnswerOf(end.1) == Ok(FullResponse(s.contracts, b, req, d))
    requires req.accepted
    ensures var o := Verified(s, req, d, end);
            && o.reports == [Try, if CustomerStatus(s.contracts, req, d.customerExists).Some? then Fail else Succeed]
            && o.state.sessions == s.sessions && o.state.accounts == s.accounts
            && match Sequential.Verdict(s.contracts, b, req, d)
               case Some(status) => o.status == status && o.state == s && o.body == Nothing
               case None => o.status == 200 && o.body == Signed(FullResponse(s.contracts, b, req, d))
  {
    VerifiedParts(s, req, d, end);
  }

  /** The response to an accepted signing: its code and time, the signed slots counted, the new one too. */
  function FullResponse(t: Tables.Tables, b: Sequential.Board, req: Signing.SignRequest,
                        d: Signing.Draw): Database.SignResponse
    requires req.contractId in b.signed
  {
    var signed, all := b.signed[req.contractId] + {req.slotId}, Tables.SlotsOf(t, req.contractId);
    Database.SignResponse(d.code, Rfc3339.ToText(d.stampedAt), |signed|, |all|, signed == all)
  }

  lemma SignOutcome(c: Config, t: Tables.Tables, req: Signing.SignRequest, d: Signing.Draw, b: Sequential.Board,
                    end: (Tables.Tables, Signing.Phase))
    requires Sequential.Shows(c.primitives, t, b) && end == Sequential.SignAlone(c.primitives, t, req, d, 0)
    ensures match Sequential.Verdict(t, b, req, d)
            case Some(status) => end == (t, Signing.Failed(status))
            case None => end.1.Finished? && req.contractId in b.signed
                         && Database.AnswerOf(end.1) == Ok(FullResponse(t, b, req, d))
  {
    Sequential.AnswerIsVerdict(c.primitives, t, b, req, d, 0);
    if Sequential.Verdict(t, b, req, d).None? {
      Answers.AcceptedRows(c.primitives, t, b, req, d, 0);
      Answers.AcceptedResponse(c.primitives, t, b, req, d, 0);
    }
  }

  lemma VerifiedParts(s: State, req: Signing.SignRequest, d: Signing.Draw, end: (Tables.Tables, Signing.Phase))
    requires CustomerStatus(s.contracts, req, d.customerExists).Some? ==>
               end == (s.contracts, Signing.Failed(CustomerStatus(s.contracts, req, d.customerExists).value))
    ensures Verified(s, req, d, end) ==
            Outcome(Status(end.1),
                    [Try, if CustomerStatus(s.contracts, req, d.customerExists).Some? then Fail else Succeed],
                    s.(contracts := end.0), BodyOf(end.1))
  {
  }

  // ---------------------------------------------------- requests one at a time

  /** One served request and what the limiter saw of it. */
  datatype Entry = Entry(r: Request, reports: seq<Kind>)

  datatype World = World(state: State, attempts: Attempts, log: seq<Entry>)

  function Serve(c: Config, w: World, r: Request): World {
    var o := Respond(c, w.attempts, w.state, r);
    World(o.state, Final(w.attempts, EventsOf(r, o.reports)), w.log + [Entry(r, o.reports)])
  }

  function ServeAll(c: Config, s: State, requests: seq<Request>): World {
    if requests == [] then World(s, map[], [])
    else Serve(c, ServeAll(c, s, requests[..|requests| - 1]), requests[|requests| - 1])
  }

  /** Each request runs after the one before it. */
  predicate OneAtATime(requests: seq<Request>) {
    && (forall i :: 0 <= i < |requests| ==> requests[i].checkedAt <= requests[i].outcomeAt)
    && forall i, j :: 0 <= i < j < |requests| ==> requests[i].outcomeAt <= requests[j].checkedAt
  }

  function TimesAfter(times: seq<int>, reports: seq<Kind>, at: int): seq<int> {
    if Fail in reports then times + [at] else if Succeed in reports then [] else times
  }

  /** Times of the failures of `ip` - wrong passwords and wrong customer UUIDs - since any request of
      that address last reset its count. */
  function FailedSinceReset(log: seq<Entry>, ip: Ip): seq<int> {
    if log == [] then []
    else
      var e := log[|log| - 1];
      var times := FailedSinceReset(log[..|log| - 1], ip);
      if e.r.ip != ip then times else TimesAfter(times, e.reports, e.r.outcomeAt)
  }

  /** Times of the logins of `ip` answered 401 since its last login answered 200. */
  function WrongSinceLogin(log: seq<Entry>, ip: Ip): seq<int> {
    if log == [] then []
    else
      var e := log[|log| - 1];
      var times := WrongSinceLogin(log[..|log| - 1], ip);
      if e.r.ip != ip || !e.r.Login? then times else TimesAfter(times, e.reports, e.r.outcomeAt)
  }

  /** Since its last login answered 200, a verified contract request or a setup of `ip` has reset its
      count. */
  predicate ResetElsewhere(log: seq<Entry>, ip: Ip) {
    log != [] &&
    var e := log[|log| - 1];
    if e.r.ip == ip && Succeed in e.reports then !e.r.Login? else ResetElsewhere(log[..|log| - 1], ip)
  }

  /** The limiter's history. */
  function Events(log: seq<Entry>): seq<Event> {
    if log == [] then []
    else Events(log[..|log| - 1]) + EventsOf(log[|log| - 1].r, log[|log| - 1].reports)
  }

  lemma EventsAppended(log: seq<Entry>, e: Entry)
    ensures Events(log + [e]) == Events(log) + EventsOf(e.r, e.reports)
  {
    assert (log + [e])[..|log|] == log;
  }

  // ---------------------------------------------------- the limiter's own history

  predicate WellReported(m: Attempts, r: Request, reports: seq<Kind>) {
    || reports == []
    || (reports == [Try] && CheckVerdict(m, r.ip, r.checkedAt).Refused?)
    || (|reports| == 2 && reports[0] == Try && reports[1] != Try && CheckVerdict(m, r.ip, r.checkedAt).Allowed?)
  }

  /** A check, and after a passed one an outcome. */
  lemma RespondReports(c: Config, m: Attempts, s: State, r: Request)
    ensures WellReported(m, r, Respond(c, m, s, r).reports)
  {
  }

  ghost predicate Quiet(m: Attempts, events: seq<Event>, ip: Ip, times: seq<int>, last: int) {
    && m == Final(map[], events)
    && Pending(events, ip) == 0 && AtMostPending(events, ip, 1)
    && Sorted(events) && (forall e :: e in events ==> e.at <= last)
    && Failures(events, ip) == times
  }

  /** One more event of the limiter's history. */
  lemma EventAdded(before: seq<Event>, ip: Ip, e: Event)
    requires AtMostPending(before, ip, 1)
    requires Sorted(before) && forall d :: d in before ==> d.at <= e.at
    requires e.ip != ip || if e.kind.Try? then Pending(before, ip) == 0 else Pending(before, ip) == 1
    ensures var events, m := before + [e], Final(map[], before);
            && Final(map[], events) == Apply(m, e)
            && Pending(events, ip) == (if e.ip != ip then Pending(before, ip)
                                       else if Passes(m, e) then Pending(before, ip) + 1
                                       else if e.kind.Try? then Pending(before, ip)
                                       else Pending(before, ip) - 1)
            && AtMostPending(events, ip, 1) && Sorted(events)
            && Failures(events, ip) == FailuresWith(Failures(before, ip), e, ip)
  {
    var events := before + [e];
    assert events[..|events| - 1] == before;
  }

  lemma CheckAdded(m: Attempts, before: seq<Event>, ip: Ip, times: seq<int>, last: int, check: Event)
    requires Quiet(m, before, ip, times, last) && last <= check.at && check.kind.Try?
    ensures var events := before + [check];
            && Final(map[], events) == Checked(m, check.ip, check.at)
            && Pending(events, ip) == (if check.ip == ip && CheckVerdict(m, ip, check.at).Allowed? then 1 else 0)
            && AtMostPending(events, ip, 1) && Sorted(events) && (forall e :: e in events ==> e.at <= check.at)
            && Failures(events, ip) == times
  {
    EventAdded(before, ip, check);
  }

  /** The outcome of a request that passed its check. */
  lemma OutcomeAdded(m: Attempts, before: seq<Event>, ip: Ip, times: seq<int>, e: Event)
    requires m == Final(map[], before) && AtMostPending(before, ip, 1) && Sorted(before)
    requires (forall d :: d in before ==> d.at <= e.at) && Failures(before, ip) == times && !e.kind.Try?
    requires Pending(before, ip) == if e.ip == ip then 1 else 0
    ensures Quiet(Apply(m, e), before + [e], ip,
                  if e.ip == ip then TimesAfter(times, [Try, e.kind], e.at) else times, e.at)
  {
    EventAdded(before, ip, e);
  }

  lemma RequestAdded(m: Attempts, before: seq<Event>, r: Request, reports: seq<Kind>, ip: Ip, times: seq<int>,
                     last: int)
    requires Quiet(m, before, ip, times, last) && last <= r.checkedAt <= r.outcomeAt && WellReported(m, r, reports)
    ensures Quiet(Final(m, EventsOf(r, reports)), before + EventsOf(r, reports), ip,
                  if r.ip == ip then TimesAfter(times, reports, r.outcomeAt) else times, r.outcomeAt)
  {
    if reports == [] {
      assert before + EventsOf(r, reports) == before;
    } else if |reports| == 1 {
      var check := Event(Try, r.ip, r.checkedAt);
      CheckAdded(m, before, ip, times, last, check);
      FinalOfTwo(m, r, Try, Try);
      assert before + EventsOf(r, reports) == before + [check];
    } else {
      assert reports == [Try, reports[1]];
      OutcomeRequestAdded(m, before, r, reports[1], ip, times, last);
    }
  }

  lemma OutcomeRequestAdded(m: Attempts, before: seq<Event>, r: Request, kind: Kind, ip: Ip, times: seq<int>, last: int)
    requires Quiet(m, before, ip, times, last) && last <= r.checkedAt <= r.outcomeAt && !kind.Try?
    requires CheckVerdict(m, r.ip, r.checkedAt).Allowed?
    ensures Quiet(Final(m, EventsOf(r, [Try, kind])), before + EventsOf(r, [Try, kind]), ip,
                  if r.ip == ip then TimesAfter(times, [Try, kind], r.outcomeAt) else times, r.outcomeAt)
  {
    var check, outcome := Event(Try, r.ip, r.checkedAt), Event(kind, r.ip, r.outcomeAt);
    CheckAdded(m, before, ip, times, last, check);
    FinalOfTwo(m, r, Try, kind);
    OutcomeAdded(Checked(m, r.ip, r.checkedAt), before + [check], ip, times, outcome);
    assert before + EventsOf(r, [Try, kind]) == before + [check] + [outcome];
  }

  lemma PrefixBefore(requests: seq<Request>)
    requires requests != [] && OneAtATime(requests)
    ensures OneAtATime(requests[..|requests| - 1])
    ensures forall q :: q in requests[..|requests| - 1] ==> q.outcomeAt <= requests[|requests| - 1].checkedAt
  {
    var before := requests[..|requests| - 1];
    forall q | q in before
      ensures q.outcomeAt <= requests[|requests| - 1].checkedAt
    {
      var i :| 0 <= i < |before| && before[i] == q;
      assert requests[i] == q;
    }
  }

  ghost predicate QuietWorld(w: World, ip: Ip, last: int) {
    Quiet(w.attempts, Events(w.log), ip, FailedSinceReset(w.log, ip), last)
  }

  lemma FailedLast(log: seq<Entry>, e: Entry, ip: Ip)
    ensures FailedSinceReset(log + [e], ip) ==
            var times := FailedSinceReset(log, ip);
            if e.r.ip != ip then times else TimesAfter(times, e.reports, e.r.outcomeAt)
  {
    assert (log + [e])[..|log|] == log;
  }

  lemma ServeStaysQuiet(c: Config, w: World, r: Request, ip: Ip, last: int)
    requires QuietWorld(w, ip, last) && last <= r.checkedAt <= r.outcomeAt
    ensures QuietWorld(Serve(c, w, r), ip, r.outcomeAt)
  {
    var reports := Respond(c, w.attempts, w.state, r).reports;
    RespondReports(c, w.attempts, w.state, r);
    RequestAdded(w.attempts, Events(w.log), r, reports, ip, FailedSinceReset(w.log, ip), last);
    EventsAppended(w.log, Entry(r, reports));
    FailedLast(w.log, Entry(r, reports), ip);
  }

  lemma {:induction false} AllQuiet(c: Config, s: State, requests: seq<Request>, ip: Ip, last: int)
    requires OneAtATime(requests) && forall r :: r in requests ==> r.outcomeAt <= last
    ensures QuietWorld(ServeAll(c, s, requests), ip, last)
  {
    if requests != [] {
      var before, r := requests[..|requests| - 1], requests[|requests| - 1];
      PrefixBefore(requests);
      AllQuiet(c, s, before, ip, r.checkedAt);
      ServeStaysQuiet(c, ServeAll(c, s, before), r, ip, r.checkedAt);
    }
  }

  // ------------------------------------------------------------------- bounds

  /** Whatever requests an address sends, one after another: at most 9 of its failures since its count
      was last reset fall into any 15 minutes. */
  lemma FailuresLimited(c: Config, s: State, requests: seq<Request>, ip: Ip, from: int)
    requires OneAtATime(requests)
    ensures |Within(FailedSinceReset(ServeAll(c, s, requests).log, ip), from)| <= 9
  {
    var last := if requests == [] then 0 else requests[|requests| - 1].outcomeAt;
    forall r | r in requests
      ensures r.outcomeAt <= last
    {
      var i :| 0 <= i < |requests| && requests[i] == r;
    }
    AllQuiet(c, s, requests, ip, last);
    FailuresInInterval(Events(ServeAll(c, s, requests).log), ip, 1, from);
  }

  lemma WithinAppended(times: seq<int>, t: int, from: int)
    ensures |Within(times + [t], from)| == |Within(times, from)| + if from <= t < from + WINDOW then 1 else 0
  {
    var more := times + [t];
    var own := if from <= t < from + WINDOW then {|times|} else {};
    forall i
      ensures i in Within(more, from) <==> i in Within(times, from) || i in own
    {
      if 0 <= i < |times| {
        assert more[i] == times[i];
      }
    }
    assert Within(more, from) == Within(times, from) + own;
  }

  /** No request both fails and succeeds. */
  predicate OneOutcome(log: seq<Entry>) {
    forall e :: e in log ==> !(Fail in e.reports && Succeed in e.reports)
  }

  lemma {:induction false} ServedOneOutcome(c: Config, s: State, requests: seq<Request>)
    ensures OneOutcome(ServeAll(c, s, requests).log)
  {
    if requests != [] {
      var before, r := requests[..|requests| - 1], requests[|requests| - 1];
      ServedOneOutcome(c, s, before);
      var w := ServeAll(c, s, before);
      RespondReports(c, w.attempts, w.state, r);
    }
  }

  lemma {:induction false} WrongAmongFailed(log: seq<Entry>, ip: Ip, from: int)
    requires OneOutcome(log) && !ResetElsewhere(log, ip)
    ensures |Within(WrongSinceLogin(log, ip), from)| <= |Within(FailedSinceReset(log, ip), from)|
  {
    if log != [] {
      var before, e := log[..|log| - 1], log[|log| - 1];
      if e.r.ip == ip && Fail in e.reports {
        assert e in log;
        WrongAmongFailed(before, ip, from);
        WithinAppended(WrongSinceLogin(before, ip), e.r.outcomeAt, from);
        WithinAppended(FailedSinceReset(before, ip), e.r.outcomeAt, from);
      } else if e.r.ip != ip || Succeed !in e.reports {
        WrongAmongFailed(before, ip, from);
      }
    }
  }

  /** An address gets at most 9 wrong passwords judged in any 15 minutes since its last successful login,
      provided no verified contract request and no setup of that address has reset its count since. */
  lemma GuessesLimited(c: Config, s: State, requests: seq<Request>, ip: Ip, from: int)
    requires OneAtATime(requests) && !ResetElsewhere(ServeAll(c, s, requests).log, ip)
    ensures |Within(WrongSinceLogin(ServeAll(c, s, requests).log, ip), from)| <= 9
  {
    FailuresLimited(c, s, requests, ip, from);
    ServedOneOutcome(c, s, requests);
    WrongAmongFailed(ServeAll(c, s, requests).log, ip, from);
  }

  // ------------------------------------------------ ... and no bound without that

  /** A wrong password and a verified contract page, n times over, all at one moment. */
  function Alternating(login: Request, page: Request, n: nat): seq<Request> {
    if n == 0 then [] else Alternating(login, page, n - 1) + [login] + [page]
  }

  ghost predicate Alternates(c: Config, s: State, login: Request, page: Request) {
    && login.Login? && page.Page? && login.ip == page.ip
    && login.checkedAt == login.outcomeAt == page.checkedAt == page.outcomeAt
    && PasswordValid(c.passwords, s.accounts, login.email, login.password) == Some(false)
    && Signing.AfterReadContract(s.contracts, page.req, 0, page.signingDraw).ReadSlot?
  }

  lemma WrongPasswordServed(c: Config, w: World, login: Request, page: Request)
    requires Alternates(c, w.state, login, page) && w.attempts == map[]
    ensures Serve(c, w, login) ==
            World(w.state, map[login.ip := Tracker(1, login.checkedAt)], w.log + [Entry(login, [Try, Fail])])
  {
    FinalOfTwo(w.attempts, login, Try, Fail);
    assert Checked(map[], login.ip, login.checkedAt) == map[];
  }

  lemma VerifiedPageServed(c: Config, w: World, login: Request, page: Request)
    requires Alternates(c, w.state, login, page) && w.attempts == map[login.ip := Tracker(1, login.checkedAt)]
    ensures Serve(c, w, page) == World(w.state, map[], w.log + [Entry(page, [Try, Succeed])])
  {
    FinalOfTwo(w.attempts, page, Try, Succeed);
    assert Checked(w.attempts, page.ip, page.checkedAt) == w.attempts;
    assert w.attempts - {page.ip} == map[];
  }

  /** The count is back to none after each pair. */
  lemma PairServed(c: Config, w: World, login: Request, page: Request)
    requires Alternates(c, w.state, login, page) && w.attempts == map[]
    ensures Serve(c, Serve(c, w, login), page) ==
            World(w.state, map[], w.log + [Entry(login, [Try, Fail])] + [Entry(page, [Try, Succeed])])
  {
    WrongPasswordServed(c, w, login, page);
    VerifiedPageServed(c, Serve(c, w, login), login, page);
  }

  /** The log of the alternating requests. */
  function AlternatingLog(login: Request, page: Request, n: nat): seq<Entry> {
    if n == 0 then []
    else AlternatingLog(login, page, n - 1) + [Entry(login, [Try, Fail])] + [Entry(page, [Try, Succeed])]
  }

  lemma ServeLast(c: Config, s: State, before: seq<Request>, r: Request)
    ensures ServeAll(c, s, before + [r]) == Serve(c, ServeAll(c, s, before), r)
  {
    assert (before + [r])[..|before|] == before;
  }

  /** What a pair does, whatever was logged before. */
  ghost predicate PairResets(c: Config, s: State, login: Request, page: Request) {
    forall log: seq<Entry> ::
      Serve(c, Serve(c, World(s, map[], log), login), page) ==
      World(s, map[], log + [Entry(login, [Try, Fail])] + [Entry(page, [Try, Succeed])])
  }

  lemma AlternatesResets(c: Config, s: State, login: Request, page: Request)
    requires Alternates(c, s, login, page)
    ensures PairResets(c, s, login, page)
  {
    forall log: seq<Entry>
      ensures Serve(c, Serve(c, World(s, map[], log), login), page) ==
              World(s, map[], log + [Entry(login, [Try, Fail])] + [Entry(page, [Try, Succeed])])
    {
      PairServed(c, World(s, map[], log), login, page);
    }
  }

  lemma PairAppended(c: Config, s: State, login: Request, page: Request, before: seq<Request>, log: seq<Entry>)
    requires PairResets(c, s, login, page) && ServeAll(c, s, before) == World(s, map[], log)
    ensures ServeAll(c, s, before + [login] + [page]) ==
            World(s, map[], log + [Entry(login, [Try, Fail])] + [Entry(page, [Try, Succeed])])
  {
    ServeLast(c, s, before, login);
    ServeLast(c, s, before + [login], page);
  }

  /** Pairs repeated, for any way of serving that a pair extends like this. */
  lemma {:induction false} PairsRepeated(serve: seq<Request> -> World, s: State, login: Request, page: Request, n: nat)
    requires serve([]) == World(s, map[], [])
    requires forall before, log :: serve(before) == World(s, map[], log) ==>
               serve(before + [login] + [page]) ==
               World(s, map[], log + [Entry(login, [Try, Fail])] + [Entry(page, [Try, Succeed])])
    ensures serve(Alternating(login, page, n)) == World(s, map[], AlternatingLog(login, page, n))
  {
    if n > 0 {
      PairsRepeated(serve, s, login, page, n - 1);
    }
  }

  lemma AlternatingServed(c: Config, s: State, login: Request, page: Request, n: nat)
    requires PairResets(c, s, login, page)
    ensures ServeAll(c, s, Alternating(login, page, n)) == World(s, map[], AlternatingLog(login, page, n))
  {
    var serve := (requests: seq<Request>) => ServeAll(c, s, requests);
    forall before, log | serve(before) == World(s, map[], log)
      ensures serve(before + [login] + [page]) ==
              World(s, map[], log + [Entry(login, [Try, Fail])] + [Entry(page, [Try, Succeed])])
    {
      PairAppended(c, s, login, page, before, log);
    }
    PairsRepeated(serve, s, login, page, n);
  }

  lemma {:induction false} OnlyThesePairs(login: Request, page: Request, n: nat)
    ensures forall r :: r in Alternating(login, page, n) ==> r == login || r == page
  {
    if n > 0 {
      OnlyThesePairs(login, page, n - 1);
    }
  }

  lemma AtOneMoment(requests: seq<Request>, at: int)
    requires forall r :: r in requests ==> r.checkedAt == r.outcomeAt == at
    ensures OneAtATime(requests)
  {
    assert forall i :: 0 <= i < |requests| ==> requests[i] in requests;
  }

  lemma LogGrows(log: seq<Entry>, e: Entry, ip: Ip)
    requires e.r.ip == ip
    ensures WrongSinceLogin(log + [e], ip) ==
            if e.r.Login? then TimesAfter(WrongSinceLogin(log, ip), e.reports, e.r.outcomeAt) else WrongSinceLogin(log,
                                                                                                                   ip)
    ensures Succeed in e.reports && !e.r.Login? ==> ResetElsewhere(log + [e], ip)
  {
    assert (log + [e])[..|log|] == log;
  }

  lemma {:induction false} AlternatingCounts(login: Request, page: Request, n: nat)
    requires login.Login? && page.Page? && login.ip == page.ip
    ensures var log := AlternatingLog(login, page, n);
            && |Within(WrongSinceLogin(log, login.ip), login.outcomeAt)| == n
            && (n > 0 ==> ResetElsewhere(log, login.ip))
  {
    if n > 0 {
      AlternatingCounts(login, page, n - 1);
      var before := AlternatingLog(login, page, n - 1);
      assert [Try, Fail][1] == Fail && [Try, Succeed][1] == Succeed;
      LogGrows(before, Entry(login, [Try, Fail]), login.ip);
      LogGrows(before + [Entry(login, [Try, Fail])], Entry(page, [Try, Succeed]), login.ip);
      WithinAppended(WrongSinceLogin(before, login.ip), login.outcomeAt, login.outcomeAt);
    }
  }

  /** There are such requests: an unknown email address, and the page of a contract asked for by its
      customer. */
  lemma AlternatesIsMet(env: Sessions.Env, primitives: Crypto.Primitives, d: Sessions.Draw, e: Signing.Draw)
    requires e.customerExists
    ensures var contract := Signing.NewContract("u", "text", None, 1);
            Alternates(Config(env, primitives, Passwords((password, hash) => Some(false), "dummy")),
                       State(Sessions.Tables(map[], map[], map[]), map[],
                             Tables.Tables(map["c" := contract], map[], [], 1)),
                       Login(1, 0, 0, "nobody", "guess", d),
                       Page(1, 0, 0, Signing.SignRequest("c", 1, "u", true, true), e))
  {
  }

  /** The one limiter serves all these routes, so a successful login is not the only reset: with a
      verified contract page after each, any number of wrong passwords is judged within one moment and
      without a login in between. */
  lemma GuessesUnlimited(c: Config, s: State, login: Request, page: Request, n: nat)
    requires Alternates(c, s, login, page)
    ensures var requests := Alternating(login, page, n);
            var log := ServeAll(c, s, requests).log;
            && OneAtATime(requests) && (forall r :: r in requests ==> r == login || r == page)
            && |Within(WrongSinceLogin(log, login.ip), login.outcomeAt)| == n
            && (n > 0 ==> ResetElsewhere(log, login.ip))
  {
    AlternatesResets(c, s, login, page);
    AlternatingServed(c, s, login, page, n);
    AlternatingCounts(login, page, n);
    OnlyThesePairs(login, page, n);
    AtOneMoment(Alternating(login, page, n), login.outcomeAt);
  }
}
