/** Which expired contracts can still be signed: handlers past the expiry check may finish. */
module Expiry {
  import opened Wrappers
  import opened Rfc3339
  import opened Crypto
  import opened Tables
  import opened Signing
  import opened SigningInvariant
  import opened SigningTheorems
  import opened Stranded
  import opened Sequential
  import opened Signable

  // --------------------------------------------------- copies know the expiry

  ghost predicate ExpiryKept(s: State) {
    forall k :: k in s.handlers && HasRead(s.handlers[k].phase) ==>
      && s.handlers[k].req.contractId in s.tables.contracts
      && s.handlers[k].phase.contract.expiresAt == s.tables.contracts[s.handlers[k].req.contractId].expiresAt
  }

  lemma CopyStays(p: Primitives, t: Tables, writes: nat, h: Handler, draw: Draw)
    ensures var phase := PhaseAfter(p, t, writes, h, draw);
            HasRead(phase) ==>
              if h.phase.ReadContract? then h.req.contractId in t.contracts
                  && phase.contract == t.contracts[h.req.contractId]
              else HasRead(h.phase) && phase.contract == h.phase.contract
  {
  }

  lemma ExpiryOfRows(t: Tables, h: Handler, id: string)
    requires id in t.contracts
    ensures id in TablesAfter(t, h).contracts && TablesAfter(t, h).contracts[id].expiresAt == t.contracts[id].expiresAt
  {
  }

  lemma AdvanceKeepsExpiry(p: Primitives, s: State, k: int, draw: Draw)
    requires ExpiryKept(s) && k in s.handlers
    ensures ExpiryKept(AdvanceHandler(p, s, k, draw))
  {
    var h := s.handlers[k];
    var s' := AdvanceHandler(p, s, k, draw);
    CopyStays(p, s.tables, |WritesOf(s.writers, h.req.contractId)|, h, draw);
    forall j | j in s'.handlers && HasRead(s'.handlers[j].phase)
      ensures s'.handlers[j].req.contractId in s'.tables.contracts
      ensures s'.handlers[j].phase.contract.expiresAt == s'.tables.contracts[s'.handlers[j].req.contractId].expiresAt
    {
      assert s'.handlers[j].req == s.handlers[j].req;
      if j != k || !h.phase.ReadContract? {
        assert HasRead(s.handlers[j].phase);
      }
      ExpiryOfRows(s.tables, h, s'.handlers[j].req.contractId);
    }
  }

  lemma StepKeepsExpiry(p: Primitives, s: State, l: Label)
    requires Inv(p, s) && ExpiryKept(s)
    ensures ExpiryKept(Step(p, s, l))
  {
    if Creates(s, l) {
      CreateCreates(s.tables, l);
    } else if l.Advance? && l.handler in s.handlers {
      AdvanceKeepsExpiry(p, s, l.handler, l.draw);
    }
  }

  lemma {:induction false} ExecKeepsExpiry(p: Primitives, s: State, labels: seq<Label>)
    requires Inv(p, s) && ExpiryKept(s) && AllSendable(labels)
    ensures ExpiryKept(Exec(p, s, labels))
    decreases |labels|
  {
    if labels != [] {
      StepKeepsInv(p, s, labels[0]);
      StepKeepsExpiry(p, s, labels[0]);
      ExecKeepsExpiry(p, Step(p, s, labels[0]), labels[1..]);
    }
  }

  // ---------------------------------------------------------- an opening, or none

  /** The handler is past the expiry check and has not inserted. */
  ghost predicate Open(s: State, id: string, k: int) {
    && k in s.handlers && s.handlers[k].req.contractId == id
    && HasRow(s.handlers[k].phase) && !HasInserted(s.handlers[k].phase)
  }

  /** Its insert would go through, and no contract write came since its read. */
  ghost predicate Eligible(s: State, id: string, k: int) {
    && Open(s, id, k) && !Conflicts(s.tables.signatures, s.handlers[k].phase.row)
    && id in s.writers && s.handlers[k].phase.seen == |s.writers[id]|
  }

  ghost predicate Free(s: State, id: string, x: int) {
    x in SlotsOf(s.tables, id) && x !in SignedSlots(s.tables.signatures)
  }

  /** Too late: two slots are unsigned, or one is and nobody can sign it in time, or the contract is doomed
      anyway. */
  ghost predicate TooLate(s: State, id: string) {
    || Doomed(s, id)
    || (exists x, y :: x != y && Free(s, id, x) && Free(s, id, y))
    || ((exists x :: Free(s, id, x)) && ((exists k :: InFlight(s, id, k)) || forall k :: !Eligible(s, id, k)))
  }

  ghost predicate ExpiredAt(s: State, id: string, now: Instant) {
    id in s.tables.contracts && Expired(s.tables.contracts[id], now)
  }

  /** The step is an insert that goes through for this contract. */
  ghost predicate Inserts(s: State, l: Label, id: string) {
    && l.Advance? && l.handler in s.handlers && s.handlers[l.handler].req.contractId == id
    && s.handlers[l.handler].phase.InsertSignature?
    && !Conflicts(s.tables.signatures, s.handlers[l.handler].phase.row)
  }

  lemma OpenFacts(p: Primitives, s: State, id: string, k: int)
    requires Inv(p, s) && Open(s, id, k)
    ensures var h := s.handlers[k];
            && id in s.tables.contracts && id in s.writers
            && h.req.slotId in SlotsOf(s.tables, id) && h.phase.row.slotId == InSlot(h.req.slotId)
            && h.phase.row.contractId == id
            && CopyInv(s.tables.contracts[id], h.phase.contract, h.phase.seen, |s.writers[id]|)
  {
    var h := s.handlers[k];
    assert HandlerInv(p, s.tables, s.writers, h);
    assert RowInv(s.tables, h.req, h.phase.contract, h.phase.row);
  }

  lemma InsertLands(p: Primitives, s: State, l: Label, id: string)
    requires Inv(p, s) && Inserts(s, l, id)
    ensures var s' := Step(p, s, l);
            && InFlight(s', id, l.handler) && s'.handlers[l.handler].phase.seen == s.handlers[l.handler].phase.seen
            && s'.writers == s.writers && s'.tables.slots == s.tables.slots
            && SignedSlots(s'.tables.signatures)
                == SignedSlots(s.tables.signatures) + {s.handlers[l.handler].req.slotId}
  {
    assert Open(s, id, l.handler);
    OpenFacts(p, s, id, l.handler);
    SignedSlotsAppended(s.tables.signatures, s.handlers[l.handler].phase.row);
  }

  lemma FreeInTables(p: Primitives, s: State, k: int, id: string, x: int)
    requires Inv(p, s) && k in s.handlers && Free(s, id, x)
    requires s.handlers[k].phase.InsertSignature? && !Conflicts(s.tables.signatures, s.handlers[k].phase.row) ==>
               s.handlers[k].req.contractId != id
    ensures var t := TablesAfter(s.tables, s.handlers[k]); x in SlotsOf(t, id) && x !in SignedSlots(t.signatures)
  {
    var h := s.handlers[k];
    if h.phase.InsertSignature? && !Conflicts(s.tables.signatures, h.phase.row) {
      assert Open(s, h.req.contractId, k);
      OpenFacts(p, s, h.req.contractId, k);
      SignedSlotsAppended(s.tables.signatures, h.phase.row);
    }
  }

  /** Only an insert for the contract takes a free slot. */
  lemma FreeStays(p: Primitives, s: State, l: Label, id: string, x: int)
    requires Inv(p, s) && Sendable(l) && id in s.tables.contracts && Free(s, id, x) && !Inserts(s, l, id)
    ensures Free(Step(p, s, l), id, x)
  {
    if Creates(s, l) {
      CreateKeepsSlot(p, s, l, id, x);
    } else if l.Advance? && l.handler in s.handlers {
      FreeInTables(p, s, l.handler, id, x);
    }
  }

  lemma ExpiredStays(p: Primitives, s: State, l: Label, id: string, now: Instant)
    requires Inv(p, s) && ExpiredAt(s, id, now)
    ensures ExpiredAt(Step(p, s, l), id, now)
  {
    if Creates(s, l) {
      CreateCreates(s.tables, l);
    } else if l.Advance? && l.handler in s.handlers {
      ExpiryOfRows(s.tables, s.handlers[l.handler], id);
    }
  }

  /** No handler gets past the expiry check any more. */
  lemma CheckRefuses(p: Primitives, s: State, id: string, now: Instant, k: int, draw: Draw)
    requires ExpiryKept(s) && ExpiredAt(s, id, now) && now <= draw.checkedAt
    requires k in s.handlers && s.handlers[k].req.contractId == id && s.handlers[k].phase.ReadSlot?
    ensures !HasRow(PhaseAfter(p, s.tables, |WritesOf(s.writers, id)|, s.handlers[k], draw))
  {
    var h := s.handlers[k];
    assert h.phase.contract.expiresAt == s.tables.contracts[id].expiresAt;
    RefusedByExpiry(s.tables, h.req, h.phase.contract, h.phase.seen, draw.checkedAt,
                    NewRow(p, h.req, h.phase.contract, draw));
  }

  lemma RefusedByExpiry(t: Tables, req: SignRequest, contract: Contract, seen: nat, at: Instant,
                        signed: Result<Signature, KeyError>)
    requires Expired(contract, at)
    ensures AfterReadSlot(t, req, contract, seen, at, signed).Failed?
  {
  }

  lemma RowBefore(p: Primitives, t: Tables, writes: nat, h: Handler, draw: Draw)
    requires !h.phase.ReadSlot?
    ensures var phase := PhaseAfter(p, t, writes, h, draw);
            HasRow(phase) ==> HasRow(h.phase) && phase.row == h.phase.row && phase.seen == h.phase.seen
                              && (!HasInserted(phase) ==> !HasInserted(h.phase))
  {
  }

  lemma ConflictStays(t: Tables, h: Handler, row: Signature)
    requires Conflicts(t.signatures, row)
    ensures Conflicts(TablesAfter(t, h).signatures, row)
  {
    var i :| 0 <= i < |t.signatures| && !Distinct(t.signatures[i], row);
    assert TablesAfter(t, h).signatures[i] == t.signatures[i];
  }

  lemma EligibleInAdvance(p: Primitives, s: State, id: string, now: Instant, j: int, draw: Draw, k: int)
    requires Inv(p, s) && ExpiryKept(s) && ExpiredAt(s, id, now) && now <= draw.checkedAt && j in s.handlers
    requires var s' := AdvanceHandler(p, s, j, draw);
             Eligible(s', id, k) && id in s.writers && s'.writers[id] == s.writers[id]
    ensures Eligible(s, id, k)
  {
    var h := s.handlers[j];
    if j == k {
      if h.phase.ReadSlot? {
        CheckRefuses(p, s, id, now, k, draw);
      } else {
        RowBefore(p, s.tables, |WritesOf(s.writers, h.req.contractId)|, h, draw);
      }
    }
    if Conflicts(s.tables.signatures, s.handlers[k].phase.row) {
      ConflictStays(s.tables, h, s.handlers[k].phase.row);
    }
  }

  /** From the expiry on nobody becomes eligible. */
  lemma EligibleBefore(p: Primitives, s: State, l: Label, id: string, now: Instant, k: int)
    requires Inv(p, s) && ExpiryKept(s) && ExpiredAt(s, id, now) && (l.Advance? ==> now <= l.draw.checkedAt)
    requires Sendable(l) && !(Writes(s, l) && InFlight(s, id, l.handler)) && Eligible(Step(p, s, l), id, k)
    ensures Eligible(s, id, k)
  {
    if Creates(s, l) {
      CreateCreates(s.tables, l);
    } else if l.Advance? && l.handler in s.handlers {
      assert s.handlers[l.handler].phase.WriteContract? ==> s.handlers[l.handler].req.contractId != id;
      EligibleInAdvance(p, s, id, now, l.handler, l.draw, k);
    }
  }

  /** After a contract write nobody is eligible. */
  lemma NoneAfterWrite(p: Primitives, s: State, l: Label, id: string, k: int)
    requires Inv(p, s) && Writes(s, l) && InFlight(s, id, l.handler)
    ensures !Eligible(Step(p, s, l), id, k)
  {
    FlightWrites(p, s, l, id);
    if k in s.handlers && k != l.handler && Open(s, id, k) {
      OpenFacts(p, s, id, k);
    }
    WriteStep(p, s, l);
  }

  // -------------------------------------------------------------- it stays too late

  /** An insert for a contract with a handler in flight dooms it ... */
  lemma InsertCrowds(p: Primitives, s: State, l: Label, id: string, j: int)
    requires Inv(p, s) && Inserts(s, l, id) && InFlight(s, id, j)
    ensures Crowded(Step(p, s, l), id, j, l.handler)
  {
    InsertLands(p, s, l, id);
    FlightStep(p, s, l, id, j);
  }

  /** ... and so does an insert by a handler whose copy is stale. */
  lemma InsertStale(p: Primitives, s: State, l: Label, id: string)
    requires Inv(p, s) && Inserts(s, l, id) && !Eligible(s, id, l.handler)
    ensures Stale(Step(p, s, l), id, l.handler)
  {
    InsertLands(p, s, l, id);
    assert Open(s, id, l.handler);
    OpenFacts(p, s, id, l.handler);
  }

  lemma TwoFreeStep(p: Primitives, s: State, l: Label, id: string, x: int, y: int)
    requires Inv(p, s) && Sendable(l) && id in s.tables.contracts && x != y && Free(s, id, x) && Free(s, id, y)
    ensures TooLate(Step(p, s, l), id)
  {
    var s' := Step(p, s, l);
    if Inserts(s, l, id) {
      InsertLands(p, s, l, id);
      var left := if s.handlers[l.handler].req.slotId == x then y else x;
      assert SlotsOf(s'.tables, id) == SlotsOf(s.tables, id);
      assert Free(s', id, left);
      assert InFlight(s', id, l.handler);
    } else {
      FreeStays(p, s, l, id, x);
      FreeStays(p, s, l, id, y);
    }
  }

  lemma FlightAndFreeStep(p: Primitives, s: State, l: Label, id: string, x: int, j: int)
    requires Inv(p, s) && Sendable(l) && Free(s, id, x) && InFlight(s, id, j)
    ensures TooLate(Step(p, s, l), id)
  {
    var s' := Step(p, s, l);
    FlightFacts(p, s, id, j);
    if Inserts(s, l, id) {
      InsertCrowds(p, s, l, id, j);
    } else if l == Stop(j) {
      StopInFlight(p, s, id, j);
    } else {
      FreeStays(p, s, l, id, x);
      if Writes(s, l) && l.handler == j {
        forall k
          ensures !Eligible(s', id, k)
        {
          NoneAfterWrite(p, s, l, id, k);
        }
      } else {
        FlightStep(p, s, l, id, j);
      }
    }
  }

  lemma NobodyStep(p: Primitives, s: State, l: Label, id: string, now: Instant, x: int)
    requires Inv(p, s) && ExpiryKept(s) && ExpiredAt(s, id, now) && Sendable(l)
              && (l.Advance? ==> now <= l.draw.checkedAt)
    requires Free(s, id, x) && (forall k :: !Eligible(s, id, k)) && (forall k :: !InFlight(s, id, k))
    ensures TooLate(Step(p, s, l), id)
  {
    var s' := Step(p, s, l);
    if Inserts(s, l, id) {
      InsertStale(p, s, l, id);
    } else {
      FreeStays(p, s, l, id, x);
      forall k
        ensures !Eligible(s', id, k)
      {
        if Eligible(s', id, k) {
          EligibleBefore(p, s, l, id, now, k);
        }
      }
    }
  }

  lemma StepKeepsTooLate(p: Primitives, s: State, l: Label, id: string, now: Instant)
    requires Inv(p, s) && ExpiryKept(s) && ExpiredAt(s, id, now) && Sendable(l)
              && (l.Advance? ==> now <= l.draw.checkedAt)
    requires TooLate(s, id)
    ensures TooLate(Step(p, s, l), id)
  {
    if Doomed(s, id) {
      StepKeepsDoomed(p, s, l, id);
    } else if x, y :| x != y && Free(s, id, x) && Free(s, id, y) {
      TwoFreeStep(p, s, l, id, x, y);
    } else {
      var x :| Free(s, id, x);
      if j :| InFlight(s, id, j) {
        FlightAndFreeStep(p, s, l, id, x, j);
      } else {
        NobodyStep(p, s, l, id, now, x);
      }
    }
  }

  lemma {:induction false} ExecKeepsTooLate(p: Primitives, s: State, labels: seq<Label>, id: string, now: Instant)
    requires Inv(p, s) && ExpiryKept(s) && ExpiredAt(s, id, now) && AllSendable(labels) && From(labels, now)
    requires TooLate(s, id)
    ensures TooLate(Exec(p, s, labels), id)
    decreases |labels|
  {
    if labels != [] {
      StepKeepsInv(p, s, labels[0]);
      StepKeepsExpiry(p, s, labels[0]);
      ExpiredStays(p, s, labels[0], id, now);
      StepKeepsTooLate(p, s, labels[0], id, now);
      ExecKeepsTooLate(p, Step(p, s, labels[0]), labels[1..], id, now);
    }
  }

  lemma TooLateUnsigned(p: Primitives, s: State, id: string)
    requires Inv(p, s) && TooLate(s, id) && id in s.tables.contracts
    ensures s.tables.contracts[id].status != SIGNED
  {
    if Doomed(s, id) {
      DoomedUnsigned(p, s, id);
    } else {
      var x :| Free(s, id, x);
      assert ContractInv(p, s.tables, id, s.tables.contracts[id], s.writers[id]);
      CountsOrderedInv(p, s.tables, s.writers, id);
      SignedSlotsOfContract(s.tables, id);
      UnwrittenUnsigned(p, s, id, x);
    }
  }

  // ------------------------------------------------------------------ exactly when

  /** All signatures are counted, one slot is left, and a handler past the expiry check can take it. */
  ghost predicate LastOpening(s: State, id: string)
    requires id in s.tables.contracts
  {
    var c, rows := s.tables.contracts[id], |RowsOf(s.tables.signatures, id)|;
    && c.completed == rows && rows + 1 == c.required
    && exists k :: Open(s, id, k) && s.handlers[k].phase.contract.completed == c.completed
                   && !Conflicts(s.tables.signatures, s.handlers[k].phase.row)
  }

  lemma FreeSlots(p: Primitives, s: State, id: string)
    requires Inv(p, s) && id in s.tables.contracts
    requires |RowsOf(s.tables.signatures, id)| < s.tables.contracts[id].required
    ensures exists x :: Free(s, id, x)
    ensures |RowsOf(s.tables.signatures, id)| + 1 < s.tables.contracts[id].required ==>
              exists x, y :: x != y && Free(s, id, x) && Free(s, id, y)
  {
    assert ContractInv(p, s.tables, id, s.tables.contracts[id], s.writers[id]);
    SignedSlotsOfContract(s.tables, id);
    var own, all := SignedSlots(RowsOf(s.tables.signatures, id)), SlotsOf(s.tables, id);
    var x := FreeOne(s, id, own, {});
    assert Free(s, id, x);
    if |own| + 1 < |all| {
      var y := FreeOne(s, id, own, {x});
      assert x != y && Free(s, id, x) && Free(s, id, y);
    }
  }

  lemma FreeOne(s: State, id: string, own: set<int>, besides: set<int>) returns (x: int)
    requires own == SignedSlots(s.tables.signatures) * SlotsOf(s.tables, id)
    requires |own + besides| < |SlotsOf(s.tables, id)|
    ensures Free(s, id, x) && x !in besides
  {
    var all := SlotsOf(s.tables, id);
    if free :| free in all && free !in own && free !in besides {
      x := free;
    } else {
      forall y | y in all
        ensures y in own + besides
      {
      }
      SubsetSize(all, own + besides);
      assert false;
    }
  }

  lemma NoOpeningIsTooLate(p: Primitives, s: State, id: string)
    requires Inv(p, s) && id in s.tables.contracts && !LastOpening(s, id)
    requires |RowsOf(s.tables.signatures, id)| < s.tables.contracts[id].required
    ensures TooLate(s, id)
  {
    var c, rows := s.tables.contracts[id], |RowsOf(s.tables.signatures, id)|;
    FreeSlots(p, s, id);
    if rows + 1 == c.required && !Doomed(s, id) && !exists k :: InFlight(s, id, k) {
      NotDoomedIsClear(p, s, id);
      CountsOrderedInv(p, s.tables, s.writers, id);
      forall k
        ensures !Eligible(s, id, k)
      {
        if Eligible(s, id, k) {
          OpenFacts(p, s, id, k);
        }
      }
    }
  }

  /** The remaining statements of the handler that takes the last slot. */
  lemma LastSigns(p: Primitives, s: State, id: string, k: int, now: Instant) returns (labels: seq<Label>)
    requires Inv(p, s) && Open(s, id, k) && id in s.tables.contracts
              && !Conflicts(s.tables.signatures, s.handlers[k].phase.row)
    requires var c := s.tables.contracts[id];
             && c.completed == |RowsOf(s.tables.signatures, id)| && c.completed + 1 == c.required
             && s.handlers[k].phase.contract.completed == c.completed
    ensures AllSendable(labels) && From(labels, now) && SignedAfter(p, s, labels, id)
  {
    OpenFacts(p, s, id, k);
    CountsOrderedInv(p, s.tables, s.writers, id);
    var key: Key := seq(32, i => 0);
    var draw := Draw(true, now, now, key, "");
    labels := Statements(k, draw, 4);
    StatementsSendable(k, draw, 4);
    StatementsFrom(k, draw, 4, now);
    var h := s.handlers[k];
    if h.phase.LoadSignatures? {
      LoadIsRun(p, s, k, draw, 4);
    } else {
      InsertIsRun(p, s, k, draw, 4);
    }
  }

  lemma ExpiredExactly(p: Primitives, s: State, id: string, now: Instant)
    requires Inv(p, s) && ExpiryKept(s) && ExpiredAt(s, id, now)
    requires |RowsOf(s.tables.signatures, id)| < s.tables.contracts[id].required
    ensures (exists more :: AllSendable(more) && From(more, now) && SignedAfter(p, s, more, id)) <==> LastOpening(s, id)
  {
    if more :| AllSendable(more) && From(more, now) && SignedAfter(p, s, more, id) {
      if !LastOpening(s, id) {
        NoOpeningIsTooLate(p, s, id);
        ExecKeepsTooLate(p, s, more, id, now);
        ExecKeepsInv(p, s, more);
        TooLateUnsigned(p, Exec(p, s, more), id);
      }
    }
    if LastOpening(s, id) {
      var k :| Open(s, id, k) && s.handlers[k].phase.contract.completed == s.tables.contracts[id].completed
               && !Conflicts(s.tables.signatures, s.handlers[k].phase.row);
      var more := LastSigns(p, s, id, k, now);
    }
  }

  /** Whether a pending contract can still be signed, expired or not, in every state of every run: while a
      slot is unsigned and the contract has expired, iff that slot is the last one, everything else is
      counted, and a handler past the expiry check can take it with a current copy; otherwise iff it is
      clear. */
  lemma SignableAtAnyTime(p: Primitives, start: State, labels: seq<Label>, id: string, now: Instant)
    requires Run(p, start, labels)
    requires var t := Exec(p, start, labels).tables; id in t.contracts && t.contracts[id].status == PENDING
    ensures var s := Exec(p, start, labels);
            var c := s.tables.contracts[id];
            (exists more :: AllSendable(more) && From(more, now) && SignedAfter(p, s, more, id)) <==>
            if |RowsOf(s.tables.signatures, id)| < c.required
                && Expired(c, now) then LastOpening(s, id) else Clear(s, id)
  {
    RunKeepsInv(p, start, labels);
    RunKeepsInv(p, start, []);
    assert Exec(p, start, []) == start;
    ExecKeepsExpiry(p, start, labels);
    var s := Exec(p, start, labels);
    if |RowsOf(s.tables.signatures, id)| < s.tables.contracts[id].required && Expired(s.tables.contracts[id], now) {
      ExpiredExactly(p, s, id, now);
    } else {
      ClearExactly(p, s, id, now);
    }
  }
}
