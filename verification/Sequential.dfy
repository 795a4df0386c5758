/** One sign_contract request run without interleaving, and what a sequence of such requests is: a
    machine that keeps, per contract, the set of its signed slots. */
module Sequential {
  import opened Wrappers
  import opened Hex
  import opened Rfc3339
  import opened Crypto
  import opened Tables
  import opened Signing
  import opened SigningInvariant
  import opened SigningTheorems

  // --------------------------------------------------- the request on tables

  /** The three writing statements, one after the other. */
  function WriteAlone(t: Tables, req: SignRequest, contract: Contract, seen: nat, row: Signature,
                      finalHash: Option<string>)
    : (Tables, Phase)
  {
    if Conflicts(t.signatures, row) then (t, Failed(409))
    else
      (WithProgress(WithFilled(WithSignature(t, row), req.slotId), req.contractId,
                    contract.completed + 1, IsLast(contract), finalHash),
       Finished(contract, seen, row, seen))
  }

  /** The final hash a handler computes that runs alone. */
  function HashAlone(p: Primitives, t: Tables, req: SignRequest, contract: Contract, row: Signature): Option<string> {
    if IsLast(contract) then Some(HashWith(p, t, req.contractId, contract.content, row)) else None
  }

  /** From the slot read on. */
  function SlotAlone(p: Primitives, t: Tables, req: SignRequest, contract: Contract, seen: nat, draw: Draw,
                     signed: Result<Signature, KeyError>): (Tables, Phase)
  {
    var next := AfterReadSlot(t, req, contract, seen, draw.checkedAt, signed);
    if HasRow(next) then WriteAlone(t, req, contract, seen, next.row, HashAlone(p, t, req, contract, next.row))
    else (t, next)
  }

  /** The whole handler on tables nobody else touches; the second result is where it ends. */
  function SignAlone(p: Primitives, t: Tables, req: SignRequest, draw: Draw, seen: nat): (Tables, Phase) {
    if !req.accepted then (t, Failed(400))
    else
      var read := AfterReadContract(t, req, seen, draw);
      if read.ReadSlot? then SlotAlone(p, t, req, read.contract, seen, draw, NewRow(p, req, read.contract, draw))
      else (t, read)
  }

  // ------------------------------------------------ ... is a run of the system

  /** `n` statements of handler k in a row. */
  function Statements(k: int, draw: Draw, n: nat): (labels: seq<Label>)
    ensures |labels| == n
  {
    if n == 0 then [] else [Advance(k, draw)] + Statements(k, draw, n - 1)
  }

  lemma ExecStatement(p: Primitives, s: State, k: int, draw: Draw, n: nat)
    requires n > 0
    ensures Exec(p, s, Statements(k, draw, n)) == Exec(p, Step(p, s, Advance(k, draw)), Statements(k, draw, n - 1))
  {
    assert Statements(k, draw, n)[1..] == Statements(k, draw, n - 1);
  }

  lemma {:induction false} ExecDone(p: Primitives, s: State, k: int, draw: Draw, n: nat)
    requires k in s.handlers && !Active(s.handlers[k].phase)
    ensures Exec(p, s, Statements(k, draw, n)) == s
  {
    if n > 0 {
      ExecStatement(p, s, k, draw, n);
      assert Step(p, s, Advance(k, draw)) == s by {
        assert s.handlers[k := s.handlers[k]] == s.handlers;
      }
      ExecDone(p, s, k, draw, n - 1);
    }
  }

  function WritersWith(writers: map<string, set<int>>, req: SignRequest): map<string, set<int>> {
    writers[req.contractId := WritesOf(writers, req.contractId) + {req.slotId}]
  }

  /** Where handler k's request leaves the system. */
  function Landing(s: State, k: int, h: Handler, r: (Tables, Phase)): State {
    var writers := if r.1.Finished? then WritersWith(s.writers, h.req) else s.writers;
    State(r.0, s.handlers[k := Handler(h.req, r.1)], writers)
  }

  /** The last two statements. */
  lemma MarkIsRun(p: Primitives, s: State, k: int, draw: Draw, n: nat)
    requires k in s.handlers && s.handlers[k].phase.MarkFilled? && n >= 2
    ensures var h := s.handlers[k];
            var ph := h.phase;
            Exec(p, s, Statements(k, draw, n))
            == Landing(s, k, h, (WithProgress(WithFilled(s.tables, h.req.slotId), h.req.contractId,
                                              ph.contract.completed + 1, IsLast(ph.contract), ph.finalHash),
                                 Finished(ph.contract, ph.seen, ph.row, |WritesOf(s.writers, h.req.contractId)|)))
  {
    var s1 := Step(p, s, Advance(k, draw));
    var s2 := Step(p, s1, Advance(k, draw));
    ExecStatement(p, s, k, draw, n);
    ExecStatement(p, s1, k, draw, n - 1);
    ExecDone(p, s2, k, draw, n - 2);
    assert s2.handlers == s.handlers[k := s2.handlers[k]];
  }

  /** From the insert on: three statements. */
  lemma InsertIsRun(p: Primitives, s: State, k: int, draw: Draw, n: nat)
    requires k in s.handlers && s.handlers[k].phase.InsertSignature? && n >= 3
    requires s.handlers[k].phase.seen == |WritesOf(s.writers, s.handlers[k].req.contractId)|
    ensures var h := s.handlers[k];
            Exec(p, s, Statements(k, draw, n))
            == Landing(s, k, h, WriteAlone(s.tables, h.req, h.phase.contract, h.phase.seen, h.phase.row,
                                           h.phase.finalHash))
  {
    var h := s.handlers[k];
    var s1 := Step(p, s, Advance(k, draw));
    var r := WriteAlone(s.tables, h.req, h.phase.contract, h.phase.seen, h.phase.row, h.phase.finalHash);
    ExecStatement(p, s, k, draw, n);
    if Conflicts(s.tables.signatures, h.phase.row) {
      ExecDone(p, s1, k, draw, n - 1);
    } else {
      MarkIsRun(p, s1, k, draw, n - 1);
    }
    assert s1.handlers[k := Handler(h.req, r.1)] == s.handlers[k := Handler(h.req, r.1)];
  }

  /** The same with the signature load before. */
  lemma LoadIsRun(p: Primitives, s: State, k: int, draw: Draw, n: nat)
    requires k in s.handlers && s.handlers[k].phase.LoadSignatures? && n >= 4
    requires s.handlers[k].phase.seen == |WritesOf(s.writers, s.handlers[k].req.contractId)|
    ensures var h := s.handlers[k];
            var hash := Some(HashWith(p, s.tables, h.req.contractId, h.phase.contract.content, h.phase.row));
            Exec(p, s, Statements(k, draw, n))
            == Landing(s, k, h, WriteAlone(s.tables, h.req, h.phase.contract, h.phase.seen, h.phase.row, hash))
  {
    var h := s.handlers[k];
    var s1 := Step(p, s, Advance(k, draw));
    var hash := Some(HashWith(p, s.tables, h.req.contractId, h.phase.contract.content, h.phase.row));
    var r := WriteAlone(s.tables, h.req, h.phase.contract, h.phase.seen, h.phase.row, hash);
    ExecStatement(p, s, k, draw, n);
    InsertIsRun(p, s1, k, draw, n - 1);
    assert s1.handlers[k := Handler(h.req, r.1)] == s.handlers[k := Handler(h.req, r.1)];
  }

  /** From the phase the slot read leads to. */
  lemma SignedIsRun(p: Primitives, s: State, k: int, h: Handler, draw: Draw, next: Phase, r: (Tables, Phase))
    requires k in s.handlers && s.handlers[k] == Handler(h.req, next)
    requires HasRow(next) ==>
               && (next.LoadSignatures? || next.InsertSignature?)
               && (next.InsertSignature? ==> next.finalHash.None?)
               && next.seen == |WritesOf(s.writers, h.req.contractId)|
               && (next.LoadSignatures? <==> IsLast(next.contract))
    requires HasRow(next) || next.Failed?
    requires r == if HasRow(next) then WriteAlone(s.tables, h.req, next.contract, next.seen, next.row,
                                                  HashAlone(p, s.tables, h.req, next.contract, next.row))
                  else (s.tables, next)
    ensures Exec(p, s, Statements(k, draw, 4)) == Landing(s, k, h, r)
  {
    if next.InsertSignature? {
      InsertIsRun(p, s, k, draw, 4);
    } else if next.LoadSignatures? {
      LoadIsRun(p, s, k, draw, 4);
    } else {
      ExecDone(p, s, k, draw, 4);
      assert s.handlers[k := Handler(h.req, next)] == s.handlers;
    }
  }

  lemma LandingAgain(s: State, k: int, h: Handler, phase: Phase, r: (Tables, Phase))
    ensures Landing(WithPhase(s, k, h, phase), k, h, r) == Landing(s, k, h, r)
  {
    assert s.handlers[k := Handler(h.req, phase)][k := Handler(h.req, r.1)] == s.handlers[k := Handler(h.req, r.1)];
  }

  /** The same with the new row known. */
  lemma SignedSlotIsRun(p: Primitives, s: State, k: int, draw: Draw, signed: Result<Signature, KeyError>)
    requires k in s.handlers && s.handlers[k].phase.ReadSlot?
    requires s.handlers[k].phase.seen == |WritesOf(s.writers, s.handlers[k].req.contractId)|
    ensures var h := s.handlers[k];
            var next := AfterReadSlot(s.tables, h.req, h.phase.contract, h.phase.seen, draw.checkedAt, signed);
            Exec(p, WithPhase(s, k, h, next), Statements(k, draw, 4))
            == Landing(s, k, h, SlotAlone(p, s.tables, h.req, h.phase.contract, h.phase.seen, draw, signed))
  {
    var h := s.handlers[k];
    var next := AfterReadSlot(s.tables, h.req, h.phase.contract, h.phase.seen, draw.checkedAt, signed);
    var r := SlotAlone(p, s.tables, h.req, h.phase.contract, h.phase.seen, draw, signed);
    SignedIsRun(p, WithPhase(s, k, h, next), k, h, draw, next, r);
    LandingAgain(s, k, h, next, r);
  }

  lemma SlotIsRun(p: Primitives, s: State, k: int, draw: Draw)
    requires k in s.handlers && s.handlers[k].phase.ReadSlot?
    requires s.handlers[k].phase.seen == |WritesOf(s.writers, s.handlers[k].req.contractId)|
    ensures var h := s.handlers[k];
            var signed := NewRow(p, h.req, h.phase.contract, draw);
            Exec(p, s, Statements(k, draw, 5))
            == Landing(s, k, h, SlotAlone(p, s.tables, h.req, h.phase.contract, h.phase.seen, draw, signed))
  {
    var h := s.handlers[k];
    ExecStatement(p, s, k, draw, 5);
    SignedSlotIsRun(p, s, k, draw, NewRow(p, h.req, h.phase.contract, draw));
  }

  lemma AcceptedIsRun(p: Primitives, s: State, k: int, draw: Draw)
    requires k in s.handlers && s.handlers[k].phase.ReadContract? && s.handlers[k].req.accepted
    ensures var h := s.handlers[k];
            Exec(p, s, Statements(k, draw, 6))
            == Landing(s, k, h, SignAlone(p, s.tables, h.req, draw, |WritesOf(s.writers, h.req.contractId)|))
  {
    var h := s.handlers[k];
    var seen := |WritesOf(s.writers, h.req.contractId)|;
    var read := AfterReadContract(s.tables, h.req, seen, draw);
    var s1 := WithPhase(s, k, h, read);
    ExecStatement(p, s, k, draw, 6);
    if !read.ReadSlot? {
      ExecDone(p, s1, k, draw, 5);
    } else {
      SlotIsRun(p, s1, k, draw);
      assert forall phase :: s1.handlers[k := Handler(h.req, phase)] == s.handlers[k := Handler(h.req, phase)];
    }
  }

  /** A request and its at most six statements, uninterrupted. */
  function Request(k: int, req: SignRequest, draw: Draw): seq<Label> {
    [Begin(k, req)] + Statements(k, draw, 6)
  }

  /** A request that runs alone is a run of the transition system. */
  lemma AloneIsRun(p: Primitives, s: State, k: int, req: SignRequest, draw: Draw)
    requires k !in s.handlers
    ensures Exec(p, s, Request(k, req, draw))
            == Landing(s, k, Handler(req, ReadContract),
                       SignAlone(p, s.tables, req, draw, |WritesOf(s.writers, req.contractId)|))
  {
    var s1 := Step(p, s, Begin(k, req));
    assert Request(k, req, draw)[1..] == Statements(k, draw, 6);
    var r := SignAlone(p, s.tables, req, draw, |WritesOf(s.writers, req.contractId)|);
    if req.accepted {
      AcceptedIsRun(p, s1, k, draw);
      assert s1.handlers[k := Handler(req, r.1)] == s.handlers[k := Handler(req, r.1)];
    } else {
      ExecDone(p, s1, k, draw, 6);
    }
  }

  // ------------------------------------------------------ the abstract machine

  /** The signed slots of every contract and the verification codes in use. */
  datatype Board = Board(signed: map<string, set<int>>, codes: set<string>)

  /** The answer to a request: None to accept it, or the status of the refusal, in the order the
      source checks. Of the tables only what no request changes is used. */
  function Verdict(t: Tables, b: Board, req: SignRequest, draw: Draw): Option<int> {
    if !req.accepted then Some(400)
    else if !req.uuidIsValid then Some(401)
    else if req.contractId !in t.contracts then Some(404)
    else if !draw.customerExists || req.customerUuid != t.contracts[req.contractId].customerId then Some(401)
    else if req.slotId !in SlotsOf(t, req.contractId) then Some(400)
    else if req.contractId in b.signed && req.slotId in b.signed[req.contractId] then Some(409)
    else if t.contracts[req.contractId].expiresAt.Some?
            && draw.checkedAt > t.contracts[req.contractId].expiresAt.value then Some(410)
    else if draw.code in b.codes then Some(409)
    else None
  }

  function Accept(b: Board, req: SignRequest, draw: Draw): Board {
    Board(WritersWith(b.signed, req), b.codes + {draw.code})
  }

  function Play(t: Tables, b: Board, req: SignRequest, draw: Draw): Board {
    if Verdict(t, b, req, draw).None? then Accept(b, req, draw) else b
  }

  function Codes(rows: seq<Signature>): set<string> {
    if rows == [] then {} else Codes(rows[..|rows| - 1]) + {rows[|rows| - 1].verificationCode}
  }

  lemma {:induction false} CodesMembers(rows: seq<Signature>, code: string)
    ensures code in Codes(rows) <==> exists i :: 0 <= i < |rows| && rows[i].verificationCode == code
  {
    if rows != [] {
      var before := rows[..|rows| - 1];
      CodesMembers(before, code);
      assert forall i :: 0 <= i < |before| ==> before[i] == rows[i];
    }
  }

  /** A contract's count is the size of its set of signed slots, and the set's members are its signed slots. */
  ghost predicate MatchesAt(t: Tables, b: Board, id: string) {
    && id in t.contracts && id in b.signed
    && b.signed[id] == SignedSlots(t.signatures) * SlotsOf(t, id)
    && t.contracts[id].completed == |b.signed[id]|
    && (t.contracts[id].status == PENDING || t.contracts[id].status == SIGNED)
  }

  ghost predicate Matches(t: Tables, b: Board) {
    b.codes == Codes(t.signatures) && forall id :: id in t.contracts ==> MatchesAt(t, b, id)
  }

  /** Tables between two requests show a board. */
  ghost predicate Shows(p: Primitives, t: Tables, b: Board) {
    TablesInv(p, t, b.signed) && Matches(t, b)
  }

  /** Reading Shows: the stored columns are functions of the set. */
  lemma ShowsColumns(p: Primitives, t: Tables, b: Board, id: string)
    requires Shows(p, t, b) && id in t.contracts
    ensures t.contracts[id].completed == |b.signed[id]|
    ensures t.contracts[id].status == if b.signed[id] == SlotsOf(t, id) then SIGNED else PENDING
    ensures FilledSlots(t, id) == b.signed[id]
  {
    assert ContractInv(p, t, id, t.contracts[id], b.signed[id]);
    WritersAreSlots(p, t, b.signed, id);
    CountsOrderedInv(p, t, b.signed, id);
    SignedSlotsOfContract(t, id);
  }

  lemma ConflictExactly(p: Primitives, t: Tables, b: Board, id: string, row: Signature)
    requires Shows(p, t, b) && id in t.contracts && row.slotId.InSlot?
    requires row.slotId.id in SlotsOf(t, id) && row.slotId.id !in b.signed[id]
    ensures Conflicts(t.signatures, row) <==> row.verificationCode in b.codes
  {
    CodesMembers(t.signatures, row.verificationCode);
    SignedSlotsMembers(t.signatures, row.slotId.id);
    if row.verificationCode in b.codes {
      var i :| 0 <= i < |t.signatures| && t.signatures[i].verificationCode == row.verificationCode;
      assert !Distinct(t.signatures[i], row);
    }
  }

  lemma NewRowOk(p: Primitives, req: SignRequest, contract: Contract, draw: Draw)
    ensures NewRow(p, req, contract, draw).Ok?
  {
    DecodeEncode(draw.key);
  }

  /** The checks after the slot read, in terms of the set of signed slots. */
  lemma ReadSlotAnswer(t: Tables, signed: set<int>, req: SignRequest, now: Instant, seen: nat, row: Signature)
    requires req.contractId in t.contracts
    requires FilledSlots(t, req.contractId) == signed
    requires t.contracts[req.contractId].status == if signed == SlotsOf(t, req.contractId) then SIGNED else PENDING
    ensures var c := t.contracts[req.contractId];
            var next := AfterReadSlot(t, req, c, seen, now, Ok(row));
            if req.slotId !in SlotsOf(t, req.contractId) then next == Failed(400)
            else if req.slotId in signed then next == Failed(409)
            else if Expired(c, now) then next == Failed(410)
            else HasRow(next) && next.row == row
  {
    assert req.slotId in signed <==> req.slotId in FilledSlots(t, req.contractId);
  }

  /** The concrete answer is the abstract verdict. */
  lemma SlotAnswer(p: Primitives, t: Tables, b: Board, req: SignRequest, draw: Draw, seen: nat, row: Signature)
    requires Shows(p, t, b) && req.contractId in t.contracts
    requires row.slotId == InSlot(req.slotId) && row.verificationCode == draw.code
    ensures var c := t.contracts[req.contractId];
            var r := SlotAlone(p, t, req, c, seen, draw, Ok(row));
            if req.slotId !in SlotsOf(t, req.contractId) then r == (t, Failed(400))
            else if req.slotId in b.signed[req.contractId] then r == (t, Failed(409))
            else if Expired(c, draw.checkedAt) then r == (t, Failed(410))
            else if draw.code in b.codes then r == (t, Failed(409))
            else r == WriteAlone(t, req, c, seen, row, HashAlone(p, t, req, c, row)) && r.1.Finished?
  {
    ShowsColumns(p, t, b, req.contractId);
    ReadSlotAnswer(t, b.signed[req.contractId], req, draw.checkedAt, seen, row);
    if req.slotId in SlotsOf(t, req.contractId) && req.slotId !in b.signed[req.contractId] {
      ConflictExactly(p, t, b, req.contractId, row);
    }
  }

  lemma AnswerIsVerdict(p: Primitives, t: Tables, b: Board, req: SignRequest, draw: Draw, seen: nat)
    requires Shows(p, t, b)
    ensures var r := SignAlone(p, t, req, draw, seen);
            match Verdict(t, b, req, draw)
            case Some(status) => r == (t, Failed(status))
            case None => r.1.Finished?
  {
    if req.accepted && AfterReadContract(t, req, seen, draw).ReadSlot? {
      var row := AloneFromSlot(p, t, req, draw, seen);
      SlotAnswer(p, t, b, req, draw, seen, row);
    }
  }

  /** The tables after an accepted request whose row and final hash are known. */
  function AcceptedTables(t: Tables, req: SignRequest, row: Signature, hash: Option<string>): Tables
    requires req.contractId in t.contracts
  {
    var c := t.contracts[req.contractId];
    WithProgress(WithFilled(WithSignature(t, row), req.slotId), req.contractId, c.completed + 1, IsLast(c), hash)
  }

  lemma AcceptedSlots(t: Tables, req: SignRequest, row: Signature, hash: Option<string>, id: string)
    requires req.contractId in t.contracts
    ensures SlotsOf(AcceptedTables(t, req, row, hash), id) == SlotsOf(t, id)
  {
    var t1 := WithFilled(WithSignature(t, row), req.slotId);
    assert SlotsOf(t1, id) == SlotsOf(t, id);
    assert AcceptedTables(t, req, row, hash).slots == t1.slots;
  }

  lemma AcceptedSigned(signed: set<int>, all: set<int>, mine: set<int>, slot: int)
    requires slot in all ==> mine == {slot}
    requires slot !in all ==> mine == {}
    ensures (signed + {slot}) * all == signed * all + mine
  {
  }

  lemma AcceptedMatchesOwn(t: Tables, b: Board, req: SignRequest, draw: Draw, row: Signature, hash: Option<string>)
    requires MatchesAt(t, b, req.contractId) && req.slotId in SlotsOf(t, req.contractId)
    requires req.slotId !in b.signed[req.contractId] && row.slotId == InSlot(req.slotId)
    ensures MatchesAt(AcceptedTables(t, req, row, hash), Accept(b, req, draw), req.contractId)
  {
    SignedSlotsAppended(t.signatures, row);
    AcceptedSlots(t, req, row, hash, req.contractId);
    AcceptedSigned(SignedSlots(t.signatures), SlotsOf(t, req.contractId), {req.slotId}, req.slotId);
  }

  lemma AcceptedMatchesOther(t: Tables, b: Board, req: SignRequest, draw: Draw, row: Signature, hash: Option<string>,
                             id: string)
    requires MatchesAt(t, b, id) && req.contractId in t.contracts && req.slotId in SlotsOf(t, req.contractId)
    requires row.slotId == InSlot(req.slotId) && id != req.contractId
    ensures MatchesAt(AcceptedTables(t, req, row, hash), Accept(b, req, draw), id)
  {
    SignedSlotsAppended(t.signatures, row);
    AcceptedSlots(t, req, row, hash, id);
    AcceptedSigned(SignedSlots(t.signatures), SlotsOf(t, id), {}, req.slotId);
  }

  lemma CodesAppended(rows: seq<Signature>, row: Signature)
    ensures Codes(rows + [row]) == Codes(rows) + {row.verificationCode}
  {
    assert (rows + [row])[..|rows|] == rows;
  }

  lemma AcceptedMatches(t: Tables, b: Board, req: SignRequest, draw: Draw, row: Signature, hash: Option<string>)
    requires Matches(t, b) && req.contractId in t.contracts && req.slotId in SlotsOf(t, req.contractId)
    requires req.slotId !in b.signed[req.contractId]
    requires row.slotId == InSlot(req.slotId) && row.verificationCode == draw.code
    ensures Matches(AcceptedTables(t, req, row, hash), Accept(b, req, draw))
  {
    CodesAppended(t.signatures, row);
    forall id | id in t.contracts
      ensures MatchesAt(AcceptedTables(t, req, row, hash), Accept(b, req, draw), id)
    {
      if id == req.contractId {
        AcceptedMatchesOwn(t, b, req, draw, row, hash);
      } else {
        AcceptedMatchesOther(t, b, req, draw, row, hash, id);
      }
    }
  }

  /** With its row known, a request past the contract read is the part from the slot read on. */
  lemma AloneFromSlot(p: Primitives, t: Tables, req: SignRequest, draw: Draw, seen: nat) returns (row: Signature)
    requires req.accepted && AfterReadContract(t, req, seen, draw).ReadSlot?
    ensures req.contractId in t.contracts
    ensures SignAlone(p, t, req, draw, seen) == SlotAlone(p, t, req, t.contracts[req.contractId], seen, draw, Ok(row))
    ensures row.slotId == InSlot(req.slotId) && row.verificationCode == draw.code && row.contractId == req.contractId
    ensures NewRow(p, req, t.contracts[req.contractId], draw) == Ok(row)
  {
    var signed := NewRow(p, req, t.contracts[req.contractId], draw);
    NewRowOk(p, req, t.contracts[req.contractId], draw);
    NewRowFits(p, req, t.contracts[req.contractId], draw);
    row := signed.value;
  }

  lemma WriteAloneTables(t: Tables, req: SignRequest, seen: nat, row: Signature, hash: Option<string>)
    requires req.contractId in t.contracts
    ensures var r := WriteAlone(t, req, t.contracts[req.contractId], seen, row, hash);
            r.1.Finished? ==> r == (AcceptedTables(t, req, row, hash),
                                    Finished(t.contracts[req.contractId], seen, row, seen))
  {
  }

  lemma SlotAccepted(p: Primitives, t: Tables, b: Board, req: SignRequest, draw: Draw, seen: nat, row: Signature)
    requires Shows(p, t, b) && Verdict(t, b, req, draw).None?
    requires row.slotId == InSlot(req.slotId) && row.verificationCode == draw.code
    ensures var c := t.contracts[req.contractId];
            SlotAlone(p, t, req, c, seen, draw, Ok(row))
            == (AcceptedTables(t, req, row, HashAlone(p, t, req, c, row)), Finished(c, seen, row, seen))
  {
    SlotAnswer(p, t, b, req, draw, seen, row);
    WriteAloneTables(t, req, seen, row, HashAlone(p, t, req, t.contracts[req.contractId], row));
  }

  /** Where an accepted request ends. */
  lemma AcceptedPhase(p: Primitives, t: Tables, b: Board, req: SignRequest, draw: Draw, seen: nat)
    returns (row: Signature)
    requires Shows(p, t, b) && Verdict(t, b, req, draw).None?
    ensures row.verificationCode == draw.code
    ensures SignAlone(p, t, req, draw, seen).1 == Finished(t.contracts[req.contractId], seen, row, seen)
  {
    row := AloneFromSlot(p, t, req, draw, seen);
    SlotAccepted(p, t, b, req, draw, seen, row);
  }

  /** The answer to an accepted request counts the set of signed slots. */
  lemma CountMatchesBoard(p: Primitives, t: Tables, b: Board, id: string, slot: int)
    requires Shows(p, t, b) && id in t.contracts && slot in SlotsOf(t, id) && slot !in b.signed[id]
    ensures t.contracts[id].completed + 1 == |b.signed[id] + {slot}|
    ensures IsLast(t.contracts[id]) <==> b.signed[id] + {slot} == SlotsOf(t, id)
  {
    assert ContractInv(p, t, id, t.contracts[id], b.signed[id]);
    ShowsColumns(p, t, b, id);
    WritersAreSlots(p, t, b.signed, id);
    SubsetSize(b.signed[id] + {slot}, SlotsOf(t, id));
  }

  /** What an accepted caller is told: the new size of the set of signed slots, and "fully signed" when
      that set is all of them. */
  lemma AcceptedAnswer(p: Primitives, t: Tables, b: Board, req: SignRequest, draw: Draw, seen: nat)
    returns (row: Signature)
    requires Shows(p, t, b) && Verdict(t, b, req, draw).None?
    ensures row.verificationCode == draw.code
    ensures var c, signed := t.contracts[req.contractId], b.signed[req.contractId] + {req.slotId};
            && SignAlone(p, t, req, draw, seen).1 == Finished(c, seen, row, seen)
            && c.completed + 1 == |signed|
            && (IsLast(c) <==> signed == SlotsOf(t, req.contractId))
  {
    row := AcceptedPhase(p, t, b, req, draw, seen);
    CountMatchesBoard(p, t, b, req.contractId, req.slotId);
  }

  lemma AcceptedShows(p: Primitives, t: Tables, b: Board, req: SignRequest, draw: Draw, seen: nat)
    requires Shows(p, t, b) && Verdict(t, b, req, draw).None?
    ensures Matches(SignAlone(p, t, req, draw, seen).0, Accept(b, req, draw))
  {
    var row := AloneFromSlot(p, t, req, draw, seen);
    SlotAccepted(p, t, b, req, draw, seen, row);
    AcceptedMatches(t, b, req, draw, row, HashAlone(p, t, req, t.contracts[req.contractId], row));
  }

  /** One request on its own: the board plays it, the tables keep showing the board, a refusal changes
      nothing. */
  lemma RequestRefines(p: Primitives, t: Tables, b: Board, req: SignRequest, draw: Draw)
    requires Shows(p, t, b)
    ensures var r := SignAlone(p, t, req, draw, |WritesOf(b.signed, req.contractId)|);
            && Shows(p, r.0, Play(t, b, req, draw))
            && (match Verdict(t, b, req, draw)
                case Some(status) => r == (t, Failed(status))
                case None => r.1.Finished?)
  {
    var seen := |WritesOf(b.signed, req.contractId)|;
    AnswerIsVerdict(p, t, b, req, draw, seen);
    if Verdict(t, b, req, draw).None? {
      AcceptedShows(p, t, b, req, draw, seen);
      AloneKeepsTables(p, t, b.signed, req, draw);
    }
  }

  lemma {:induction false} StatementsSendable(k: int, draw: Draw, n: nat)
    ensures AllSendable(Statements(k, draw, n))
  {
    if n > 0 {
      StatementsSendable(k, draw, n - 1);
    }
  }

  /** The invariant after a request alone comes from the invariant of all interleavings. */
  lemma AloneKeepsTables(p: Primitives, t: Tables, writers: map<string, set<int>>, req: SignRequest, draw: Draw)
    requires TablesInv(p, t, writers)
    ensures var r := SignAlone(p, t, req, draw, |WritesOf(writers, req.contractId)|);
            TablesInv(p, r.0, if r.1.Finished? then WritersWith(writers, req) else writers)
  {
    var s := State(t, map[], writers);
    AloneIsRun(p, s, 0, req, draw);
    StatementsSendable(0, draw, 6);
    ExecKeepsInv(p, s, Request(0, req, draw));
  }

  // ------------------------------------------------------- sequences of requests

  datatype Turn = Turn(req: SignRequest, draw: Draw)

  function ServeAll(p: Primitives, t: Tables, signed: map<string, set<int>>, turns: seq<Turn>): Tables
    decreases |turns|
  {
    if turns == [] then t
    else
      var r := SignAlone(p, t, turns[0].req, turns[0].draw, |WritesOf(signed, turns[0].req.contractId)|);
      ServeAll(p, r.0, if r.1.Finished? then WritersWith(signed, turns[0].req) else signed, turns[1..])
  }

  function PlayAll(t: Tables, b: Board, turns: seq<Turn>): Board
    decreases |turns|
  {
    if turns == [] then b else PlayAll(t, Play(t, b, turns[0].req, turns[0].draw), turns[1..])
  }

  /** What requests never change and verdicts depend on. */
  ghost predicate SameTerms(t: Tables, t': Tables) {
    && t'.contracts.Keys == t.contracts.Keys
    && (forall id :: id in t.contracts ==>
          && t'.contracts[id].customerId == t.contracts[id].customerId
          && t'.contracts[id].expiresAt == t.contracts[id].expiresAt)
    && (forall id :: SlotsOf(t', id) == SlotsOf(t, id))
  }

  lemma WriteKeepsTerms(t: Tables, req: SignRequest, row: Signature, hash: Option<string>)
    requires req.contractId in t.contracts
    ensures SameTerms(t, AcceptedTables(t, req, row, hash))
  {
    forall id
      ensures SlotsOf(AcceptedTables(t, req, row, hash), id) == SlotsOf(t, id)
    {
      AcceptedSlots(t, req, row, hash, id);
    }
  }

  lemma SlotKeepsTerms(p: Primitives, t: Tables, req: SignRequest, draw: Draw, seen: nat,
                       signed: Result<Signature, KeyError>)
    requires req.contractId in t.contracts
    ensures SameTerms(t, SlotAlone(p, t, req, t.contracts[req.contractId], seen, draw, signed).0)
  {
    if signed.Ok? {
      WriteKeepsTerms(t, req, signed.value, HashAlone(p, t, req, t.contracts[req.contractId], signed.value));
    }
  }

  lemma AloneKeepsTerms(p: Primitives, t: Tables, req: SignRequest, draw: Draw, seen: nat)
    ensures SameTerms(t, SignAlone(p, t, req, draw, seen).0)
  {
    if AfterReadContract(t, req, seen, draw).ReadSlot? {
      SlotKeepsTerms(p, t, req, draw, seen, NewRow(p, req, t.contracts[req.contractId], draw));
    }
  }

  lemma {:induction false} PlayAllSameTerms(t: Tables, t': Tables, b: Board, turns: seq<Turn>)
    requires SameTerms(t, t')
    ensures PlayAll(t, b, turns) == PlayAll(t', b, turns)
    decreases |turns|
  {
    if turns != [] {
      assert Verdict(t, b, turns[0].req, turns[0].draw) == Verdict(t', b, turns[0].req, turns[0].draw);
      PlayAllSameTerms(t, t', Play(t, b, turns[0].req, turns[0].draw), turns[1..]);
    }
  }

  /** Any number of requests served one at a time refine the board. */
  lemma {:induction false} SequenceRefines(p: Primitives, t: Tables, b: Board, turns: seq<Turn>)
    requires Shows(p, t, b)
    ensures Shows(p, ServeAll(p, t, b.signed, turns), PlayAll(t, b, turns))
    decreases |turns|
  {
    if turns != [] {
      var req, draw := turns[0].req, turns[0].draw;
      var r := SignAlone(p, t, req, draw, |WritesOf(b.signed, req.contractId)|);
      var b' := Play(t, b, req, draw);
      RequestRefines(p, t, b, req, draw);
      AloneKeepsTerms(p, t, req, draw, |WritesOf(b.signed, req.contractId)|);
      SequenceRefines(p, r.0, b', turns[1..]);
      PlayAllSameTerms(t, r.0, b', turns[1..]);
      assert b'.signed == if r.1.Finished? then WritersWith(b.signed, req) else b.signed;
    }
  }

  /** The board is empty on an empty database ... */
  lemma EmptyShows(p: Primitives)
    ensures Shows(p, EMPTY, Board(map[], {}))
  {
  }

  /** ... and create_contract adds a contract none of whose slots is signed. */
  lemma CreationShows(p: Primitives, t: Tables, b: Board, l: Label)
    requires Shows(p, t, b) && l.Create? && Sendable(l) && l.slots != [] && FreshId(t, l.id)
    ensures Shows(p, CreateContract(t, l.id, l.customerId, l.content, l.expiresAt, l.slots),
                  b.(signed := b.signed[l.id := {}]))
  {
    CreateKeepsTables(p, t, b.signed, l);
    CreationMatches(t, b, l);
  }

  // ------------------------------------------- creations and requests from nothing

  datatype Happening = Served(turn: Turn) | Made(create: Label)

  /** A creation runs when its id is fresh, it has slots, and not more than can be sent. */
  predicate Makes(t: Tables, l: Label) {
    l.Create? && Sendable(l) && l.slots != [] && FreshId(t, l.id)
  }

  /** The tables and the board beside them, from the empty database on. */
  function History(p: Primitives, happenings: seq<Happening>): (Tables, Board) {
    if happenings == [] then (EMPTY, Board(map[], {}))
    else
      var (t, b) := History(p, happenings[..|happenings| - 1]);
      match happenings[|happenings| - 1]
      case Served(turn) =>
        (SignAlone(p, t, turn.req, turn.draw, |WritesOf(b.signed, turn.req.contractId)|).0,
         Play(t, b, turn.req, turn.draw))
      case Made(l) =>
        if Makes(t, l)
        then (CreateContract(t, l.id, l.customerId, l.content, l.expiresAt, l.slots),
              b.(signed := b.signed[l.id := {}]))
        else (t, b)
  }

  /** Any history of creations and requests, one at a time, keeps the tables showing the board. */
  lemma {:induction false} HistoryRefines(p: Primitives, happenings: seq<Happening>)
    ensures Shows(p, History(p, happenings).0, History(p, happenings).1)
  {
    if happenings == [] {
      EmptyShows(p);
    } else {
      HistoryRefines(p, happenings[..|happenings| - 1]);
      var (t, b) := History(p, happenings[..|happenings| - 1]);
      match happenings[|happenings| - 1]
      case Served(turn) => RequestRefines(p, t, b, turn.req, turn.draw);
      case Made(l) =>
        if Makes(t, l) {
          CreationShows(p, t, b, l);
        }
    }
  }

  lemma CreationMatches(t: Tables, b: Board, l: Label)
    requires RowsLinked(t) && Matches(t, b) && l.Create? && FreshId(t, l.id)
    ensures Matches(CreateContract(t, l.id, l.customerId, l.content, l.expiresAt, l.slots),
                    b.(signed := b.signed[l.id := {}]))
  {
    var t' := CreateContract(t, l.id, l.customerId, l.content, l.expiresAt, l.slots);
    CreateCreates(t, l);
    forall id | id in t.contracts
      ensures SlotsOf(t', id) == SlotsOf(t, id)
    {
      CreatedSlots(t, t', l.id, id);
    }
    NoSignedSlots(t, t', l.id);
  }

  lemma NoSignedSlots(t: Tables, t': Tables, id: string)
    requires RowsLinked(t) && FreshId(t, id) && Created(t, t', id)
    ensures SignedSlots(t.signatures) * SlotsOf(t', id) == {}
  {
    forall s | s in SignedSlots(t.signatures)
      ensures s !in SlotsOf(t', id)
    {
      SignedSlotsMembers(t.signatures, s);
      var i :| 0 <= i < |t.signatures| && t.signatures[i].slotId == InSlot(s);
      assert t.signatures[i] in t.signatures;
      assert t'.slots[s] == t.slots[s];
    }
  }
}
