/** What every statement of every interleaving keeps. */
module SigningInvariant {
  import opened Wrappers
  import opened Rfc3339
  import opened Crypto
  import opened Tables
  import opened Signing

  // -------------------------------------------------------------- predicates

  /** The rows of the three tables refer to each other and the UNIQUE indexes hold. */
  ghost predicate RowsLinked(t: Tables) {
    && UniqueRows(t.signatures)
    && (forall s :: s in t.slots ==> s < t.nextSlot && t.slots[s].contractId in t.contracts)
    && (forall row :: row in t.signatures && row.slotId.InSlot? ==>
          row.slotId.id in t.slots && t.slots[row.slotId.id].contractId == row.contractId)
    && (forall row :: row in t.signatures && row.contractId in t.contracts ==> row.slotId.InSlot?)
    && (forall s :: s in t.slots && t.slots[s].isFilled ==> s in SignedSlots(t.signatures))
  }

  function HashOf(p: Primitives, t: Tables, id: string, content: string): string {
    FinalHash(p, content, Entries(RowsOf(t.signatures, id)))
  }

  ghost predicate Written(t: Tables, id: string, done: set<int>) {
    forall s :: s in done ==> s in t.slots && t.slots[s].contractId == id && t.slots[s].isFilled
  }

  /** One contract row against the slots whose handlers have written it. */
  ghost predicate ContractInv(p: Primitives, t: Tables, id: string, c: Contract, done: set<int>) {
    && Written(t, id, done)
    && 1 <= c.required == |SlotsOf(t, id)| < 0x8000_0000
    && 0 <= c.completed <= |done|
    && (c.status == SIGNED <==> c.completed >= c.required)
    && (c.finalHash.Some? ==> c.status == SIGNED && c.finalHash.value == HashOf(p, t, id, c.content))
  }

  ghost predicate TablesInv(p: Primitives, t: Tables, writers: map<string, set<int>>) {
    && RowsLinked(t)
    && t.contracts.Keys == writers.Keys
    && forall id :: id in t.contracts ==> ContractInv(p, t, id, t.contracts[id], writers[id])
  }

  predicate HasRead(phase: Phase) {
    Active(phase) && !phase.ReadContract?
  }

  predicate HasRow(phase: Phase) {
    HasRead(phase) && !phase.ReadSlot?
  }

  predicate HasInserted(phase: Phase) {
    phase.MarkFilled? || phase.WriteContract?
  }

  /** Every slot of the contract but `slot` is signed. */
  ghost predicate OthersSigned(t: Tables, id: string, slot: int) {
    forall s :: s in t.slots && t.slots[s].contractId == id && s != slot ==> s in SignedSlots(t.signatures)
  }

  /** The copy a handler read is not ahead of the row, and equals it while no write came between. */
  ghost predicate CopyInv(c: Contract, copy: Contract, seen: nat, writes: nat) {
    && copy.required == c.required && copy.content == c.content
    && 0 <= copy.completed <= seen <= writes
    && (seen == writes ==> copy.completed == c.completed)
    && (copy.status == SIGNED <==> copy.completed >= copy.required)
  }

  ghost predicate RowInv(t: Tables, req: SignRequest, copy: Contract, row: Signature) {
    && copy.completed < copy.required
    && req.slotId in t.slots && t.slots[req.slotId].contractId == req.contractId
    && row.contractId == req.contractId && row.slotId == InSlot(req.slotId)
    && (IsLast(copy) ==> OthersSigned(t, req.contractId, req.slotId))
  }

  ghost predicate HandlerInv(p: Primitives, t: Tables, writers: map<string, set<int>>, h: Handler) {
    var id, slot, ph := h.req.contractId, h.req.slotId, h.phase;
    && (HasRead(ph) ==>
          id in t.contracts && id in writers && CopyInv(t.contracts[id], ph.contract, ph.seen, |writers[id]|))
    && (HasRow(ph) ==> RowInv(t, h.req, ph.contract, ph.row))
    && (ph.LoadSignatures? ==> IsLast(ph.contract))
    && (ph.InsertSignature? ==>
          && (ph.finalHash.Some? <==> IsLast(ph.contract))
          && (ph.finalHash.Some? && slot !in SignedSlots(t.signatures) ==>
                ph.finalHash.value == HashWith(p, t, id, ph.contract.content, ph.row)))
    && (HasInserted(ph) ==>
          && slot in SignedSlots(t.signatures) && slot !in writers[id]
          && (ph.finalHash.Some? <==> IsLast(ph.contract))
          && (ph.finalHash.Some? ==> ph.finalHash.value == HashOf(p, t, id, ph.contract.content)))
    && (ph.WriteContract? ==> t.slots[slot].isFilled)
    && (ph.Finished? ==> id in writers && slot in writers[id])
  }

  /** Two handlers that have inserted but not yet written hold different slots. */
  ghost predicate SlotsDiffer(handlers: map<int, Handler>) {
    forall j, k :: j in handlers && k in handlers && j != k
                   && HasInserted(handlers[j].phase) && HasInserted(handlers[k].phase)
                   ==> handlers[j].req.slotId != handlers[k].req.slotId
  }

  ghost predicate Inv(p: Primitives, s: State) {
    && TablesInv(p, s.tables, s.writers)
    && (forall k :: k in s.handlers ==> HandlerInv(p, s.tables, s.writers, s.handlers[k]))
    && SlotsDiffer(s.handlers)
  }

  // ------------------------------------------------------- facts about a state

  lemma WrittenAreSlots(t: Tables, id: string, done: set<int>)
    requires Written(t, id, done)
    ensures done <= SlotsOf(t, id)
  {
    forall s | s in done
      ensures s in SlotsOf(t, id)
    {
    }
  }

  /** Writes are counted by slots, so their number is at most the number of slots. */
  lemma WritersAreSlots(p: Primitives, t: Tables, writers: map<string, set<int>>, id: string)
    requires TablesInv(p, t, writers) && id in t.contracts
    ensures writers[id] <= SlotsOf(t, id) && |writers[id]| <= t.contracts[id].required
    ensures t.contracts[id].completed >= t.contracts[id].required ==> writers[id] == SlotsOf(t, id)
  {
    assert ContractInv(p, t, id, t.contracts[id], writers[id]);
    WrittenAreSlots(t, id, writers[id]);
    SubsetSize(writers[id], SlotsOf(t, id));
  }

  /** On a signed contract no handler is between its insert and its contract write. */
  lemma SignedHasNoLateWriter(p: Primitives, s: State, k: int)
    requires Inv(p, s) && k in s.handlers && HasInserted(s.handlers[k].phase)
    ensures var id := s.handlers[k].req.contractId;
            id in s.tables.contracts && s.tables.contracts[id].status != SIGNED
  {
    var h := s.handlers[k];
    var id := h.req.contractId;
    assert HasRow(h.phase);
    assert HandlerInv(p, s.tables, s.writers, h);
    WritersAreSlots(p, s.tables, s.writers, id);
    assert ContractInv(p, s.tables, id, s.tables.contracts[id], s.writers[id]);
    assert h.req.slotId in SlotsOf(s.tables, id) - s.writers[id];
  }

  /** If all slots are signed, inserting another signature fails. */
  lemma NoRoom(t: Tables, row: Signature)
    requires row.slotId.InSlot? && !Conflicts(t.signatures, row)
    ensures row.slotId.id !in SignedSlots(t.signatures)
  {
    if row.slotId.id in SignedSlots(t.signatures) {
      ConflictOnSignedSlot(t.signatures, row);
    }
  }

  // -------------------------------------------------------------- the steps

  lemma BeginKeepsInv(p: Primitives, s: State, k: int, req: SignRequest)
    requires Inv(p, s)
    ensures Inv(p, Step(p, s, Begin(k, req)))
  {
  }

  lemma StopKeepsInv(p: Primitives, s: State, k: int)
    requires Inv(p, s)
    ensures Inv(p, Step(p, s, Stop(k)))
  {
  }

  /** A step of handler `k` keeps the invariant if it keeps the tables' part, every other handler's
      part and its own. */
  lemma Assemble(p: Primitives, s: State, k: int, t: Tables, writers: map<string, set<int>>, phase: Phase)
    requires Inv(p, s) && k in s.handlers
    requires TablesInv(p, t, writers)
    requires HandlerInv(p, t, writers, Handler(s.handlers[k].req, phase))
    requires forall j :: j in s.handlers && j != k ==> HandlerInv(p, t, writers, s.handlers[j])
    requires HasInserted(phase) && !HasInserted(s.handlers[k].phase) ==>
               forall j :: j in s.handlers && j != k && HasInserted(s.handlers[j].phase)
                           ==> s.handlers[j].req.slotId != s.handlers[k].req.slotId
    ensures Inv(p, WithPhase(State(t, s.handlers, writers), k, s.handlers[k], phase))
  {
    var s' := WithPhase(State(t, s.handlers, writers), k, s.handlers[k], phase);
    assert forall j :: j in s'.handlers && j != k ==> s'.handlers[j] == s.handlers[j];
  }

  lemma PhaseChange(p: Primitives, s: State, k: int, phase: Phase)
    requires Inv(p, s) && k in s.handlers
    requires HandlerInv(p, s.tables, s.writers, Handler(s.handlers[k].req, phase))
    requires HasInserted(phase) ==> HasInserted(s.handlers[k].phase)
    ensures Inv(p, WithPhase(s, k, s.handlers[k], phase))
  {
    Assemble(p, s, k, s.tables, s.writers, phase);
  }

  lemma ReadContractKeepsInv(p: Primitives, s: State, k: int, draw: Draw)
    requires Inv(p, s) && k in s.handlers && s.handlers[k].phase.ReadContract?
    ensures Inv(p, Step(p, s, Advance(k, draw)))
  {
    var h := s.handlers[k];
    var id := h.req.contractId;
    if id in s.tables.contracts {
      assert ContractInv(p, s.tables, id, s.tables.contracts[id], s.writers[id]);
    }
    PhaseChange(p, s, k, AfterReadContract(s.tables, h.req, |WritesOf(s.writers, id)|, draw));
  }

  /** The slot read decides: if it is unfilled, the writes the copy counts were made for all the other slots. */
  lemma LastSeesOthersSigned(p: Primitives, s: State, id: string, slot: int, copy: Contract, seen: nat)
    requires Inv(p, s) && id in s.tables.contracts
    requires slot in s.tables.slots && s.tables.slots[slot].contractId == id && !s.tables.slots[slot].isFilled
    requires CopyInv(s.tables.contracts[id], copy, seen, |s.writers[id]|)
    requires copy.completed < copy.required && IsLast(copy)
    ensures OthersSigned(s.tables, id, slot)
  {
    var t, done := s.tables, s.writers[id];
    assert ContractInv(p, t, id, t.contracts[id], done);
    var others := SlotsOf(t, id) - {slot};
    WrittenAreSlots(t, id, done);
    assert done <= others;
    assert |others| == t.contracts[id].required - 1;
    SubsetSize(done, others);
    assert done == others;
    forall x | x in t.slots && t.slots[x].contractId == id && x != slot
      ensures x in SignedSlots(t.signatures)
    {
      assert x in others;
    }
  }

  lemma NewRowFits(p: Primitives, req: SignRequest, contract: Contract, draw: Draw)
    ensures var r := NewRow(p, req, contract, draw);
            r.Ok? ==> r.value.contractId == req.contractId && r.value.slotId == InSlot(req.slotId)
                      && r.value.verificationCode == draw.code
  {
  }

  lemma ReadSlotKeepsHandler(p: Primitives, s: State, h: Handler, now: Instant, signed: Result<Signature, KeyError>)
    requires Inv(p, s) && HandlerInv(p, s.tables, s.writers, h) && h.phase.ReadSlot?
    requires signed.Ok? ==> signed.value.contractId == h.req.contractId && signed.value.slotId == InSlot(h.req.slotId)
    ensures var phase := AfterReadSlot(s.tables, h.req, h.phase.contract, h.phase.seen, now, signed);
            HandlerInv(p, s.tables, s.writers, Handler(h.req, phase)) && !HasInserted(phase)
  {
    var copy, seen := h.phase.contract, h.phase.seen;
    var phase := AfterReadSlot(s.tables, h.req, copy, seen, now, signed);
    if !phase.Failed? && IsLast(copy) {
      LastSeesOthersSigned(p, s, h.req.contractId, h.req.slotId, copy, seen);
    }
  }

  lemma ReadSlotKeepsInv(p: Primitives, s: State, k: int, draw: Draw)
    requires Inv(p, s) && k in s.handlers && s.handlers[k].phase.ReadSlot?
    ensures Inv(p, Step(p, s, Advance(k, draw)))
  {
    var h := s.handlers[k];
    assert HandlerInv(p, s.tables, s.writers, h);
    NewRowFits(p, h.req, h.phase.contract, draw);
    var signed := NewRow(p, h.req, h.phase.contract, draw);
    ReadSlotKeepsHandler(p, s, h, draw.checkedAt, signed);
    PhaseChange(p, s, k, AfterReadSlot(s.tables, h.req, h.phase.contract, h.phase.seen, draw.checkedAt, signed));
  }

  lemma LoadSignaturesKeepsInv(p: Primitives, s: State, k: int, draw: Draw)
    requires Inv(p, s) && k in s.handlers && s.handlers[k].phase.LoadSignatures?
    ensures Inv(p, Step(p, s, Advance(k, draw)))
  {
    var h := s.handlers[k];
    assert HandlerInv(p, s.tables, s.writers, h);
    PhaseChange(p, s, k, PhaseAfter(p, s.tables, |WritesOf(s.writers, h.req.contractId)|, h, draw));
  }

  /** The new row's slot belongs to the new row's contract. */
  predicate RowFits(t: Tables, row: Signature) {
    && !Conflicts(t.signatures, row)
    && row.slotId.InSlot? && row.slotId.id in t.slots
    && t.slots[row.slotId.id].contractId == row.contractId
  }

  lemma InsertKeepsUnique(rows: seq<Signature>, row: Signature)
    requires UniqueRows(rows) && !Conflicts(rows, row)
    ensures UniqueRows(rows + [row])
  {
    var rows' := rows + [row];
    forall i, j | 0 <= i < j < |rows'|
      ensures Distinct(rows'[i], rows'[j])
    {
      if j == |rows| {
        assert Distinct(rows[i], row);
      }
    }
  }

  lemma InsertKeepsLinks(t: Tables, row: Signature)
    requires RowsLinked(t) && RowFits(t, row)
    ensures RowsLinked(WithSignature(t, row))
  {
    InsertKeepsUnique(t.signatures, row);
    SignedSlotsAppended(t.signatures, row);
    assert forall x :: x in t.signatures + [row] <==> x in t.signatures || x == row;
  }

  lemma InsertKeepsContract(p: Primitives, t: Tables, writers: map<string, set<int>>, row: Signature, id: string)
    requires TablesInv(p, t, writers) && RowFits(t, row) && id in t.contracts
    ensures ContractInv(p, WithSignature(t, row), id, t.contracts[id], writers[id])
  {
    var t' := WithSignature(t, row);
    assert ContractInv(p, t, id, t.contracts[id], writers[id]);
    assert SlotsOf(t', id) == SlotsOf(t, id);
    RowsOfAppended(t.signatures, row, id);
    if row.contractId == id && t.contracts[id].finalHash.Some? {
      NoRoom(t, row);
      WritersAreSlots(p, t, writers, id);
    }
  }

  lemma InsertKeepsTables(p: Primitives, t: Tables, writers: map<string, set<int>>, row: Signature)
    requires TablesInv(p, t, writers) && RowFits(t, row)
    ensures TablesInv(p, WithSignature(t, row), writers)
  {
    InsertKeepsLinks(t, row);
    forall id | id in t.contracts
      ensures ContractInv(p, WithSignature(t, row), id, t.contracts[id], writers[id])
    {
      InsertKeepsContract(p, t, writers, row, id);
    }
  }

  lemma InsertKeepsRowInv(t: Tables, row: Signature, req: SignRequest, copy: Contract, own: Signature)
    requires RowInv(t, req, copy, own)
    ensures RowInv(WithSignature(t, row), req, copy, own)
  {
    SignedSlotsAppended(t.signatures, row);
  }

  /** If all slots but `slot` are signed, a new row of the contract can only fill `slot`. */
  lemma OnlyOneFree(t: Tables, row: Signature, slot: int)
    requires RowFits(t, row) && OthersSigned(t, row.contractId, slot)
    ensures row.slotId.id == slot && slot !in SignedSlots(t.signatures)
    ensures slot in SignedSlots(t.signatures + [row])
  {
    NoRoom(t, row);
    SignedSlotsAppended(t.signatures, row);
  }

  lemma InsertKeepsOther(p: Primitives, t: Tables, writers: map<string, set<int>>, row: Signature, h: Handler)
    requires HandlerInv(p, t, writers, h) && RowFits(t, row)
    ensures HandlerInv(p, WithSignature(t, row), writers, h)
  {
    SignedSlotsAppended(t.signatures, row);
    if HasRow(h.phase) {
      InsertKeepsRowInv(t, row, h.req, h.phase.contract, h.phase.row);
      if row.contractId != h.req.contractId {
        RowsOfAppended(t.signatures, row, h.req.contractId);
      } else if IsLast(h.phase.contract) {
        OnlyOneFree(t, row, h.req.slotId);
      }
    }
  }

  lemma InsertKeepsInv(p: Primitives, s: State, k: int, draw: Draw)
    requires Inv(p, s) && k in s.handlers && s.handlers[k].phase.InsertSignature?
    ensures Inv(p, Step(p, s, Advance(k, draw)))
  {
    var h := s.handlers[k];
    var t, row, id := s.tables, h.phase.row, h.req.contractId;
    assert HandlerInv(p, t, s.writers, h);
    if Conflicts(t.signatures, row) {
      PhaseChange(p, s, k, Failed(409));
    } else {
      InsertKeepsTables(p, t, s.writers, row);
      forall j | j in s.handlers && j != k
        ensures HandlerInv(p, WithSignature(t, row), s.writers, s.handlers[j])
        ensures HasInserted(s.handlers[j].phase) ==> s.handlers[j].req.slotId != h.req.slotId
      {
        assert HandlerInv(p, t, s.writers, s.handlers[j]);
        InsertKeepsOther(p, t, s.writers, row, s.handlers[j]);
        NoRoom(t, row);
      }
      var phase := MarkFilled(h.phase.contract, h.phase.seen, row, h.phase.finalHash);
      InsertedHandler(p, t, s.writers, h, phase);
      Assemble(p, s, k, WithSignature(t, row), s.writers, phase);
    }
  }

  lemma InsertedHandler(p: Primitives, t: Tables, writers: map<string, set<int>>, h: Handler, phase: Phase)
    requires TablesInv(p, t, writers) && HandlerInv(p, t, writers, h)
    requires h.phase.InsertSignature? && !Conflicts(t.signatures, h.phase.row)
    requires phase == MarkFilled(h.phase.contract, h.phase.seen, h.phase.row, h.phase.finalHash)
    ensures HandlerInv(p, WithSignature(t, h.phase.row), writers, Handler(h.req, phase))
  {
    var row, id := h.phase.row, h.req.contractId;
    NoRoom(t, row);
    SignedSlotsAppended(t.signatures, row);
    RowsOfAppended(t.signatures, row, id);
    EntriesAppended(RowsOf(t.signatures, id), row);
    assert ContractInv(p, t, id, t.contracts[id], writers[id]);
  }

  lemma FillKeepsTables(p: Primitives, t: Tables, writers: map<string, set<int>>, slot: int)
    requires TablesInv(p, t, writers) && slot in t.slots && slot in SignedSlots(t.signatures)
    ensures TablesInv(p, WithFilled(t, slot), writers)
  {
    var t' := WithFilled(t, slot);
    assert RowsLinked(t');
    forall id | id in t.contracts
      ensures ContractInv(p, t', id, t.contracts[id], writers[id])
    {
      assert ContractInv(p, t, id, t.contracts[id], writers[id]);
      assert SlotsOf(t', id) == SlotsOf(t, id);
    }
  }

  lemma FillKeepsHandler(p: Primitives, t: Tables, writers: map<string, set<int>>, slot: int, h: Handler)
    requires HandlerInv(p, t, writers, h)
    ensures HandlerInv(p, WithFilled(t, slot), writers, h)
  {
  }

  lemma MarkFilledKeepsInv(p: Primitives, s: State, k: int, draw: Draw)
    requires Inv(p, s) && k in s.handlers && s.handlers[k].phase.MarkFilled?
    ensures Inv(p, Step(p, s, Advance(k, draw)))
  {
    var h := s.handlers[k];
    var slot := h.req.slotId;
    assert HandlerInv(p, s.tables, s.writers, h);
    FillKeepsTables(p, s.tables, s.writers, slot);
    forall j | j in s.handlers
      ensures HandlerInv(p, WithFilled(s.tables, slot), s.writers, s.handlers[j])
    {
      FillKeepsHandler(p, s.tables, s.writers, slot, s.handlers[j]);
    }
    var phase := WriteContract(h.phase.contract, h.phase.seen, h.phase.row, h.phase.finalHash);
    Assemble(p, s, k, WithFilled(s.tables, slot), s.writers, phase);
  }

  lemma WriteKeepsOwnContract(p: Primitives, t: Tables, writers: map<string, set<int>>, h: Handler)
    requires TablesInv(p, t, writers) && HandlerInv(p, t, writers, h) && h.phase.WriteContract?
    ensures var id := h.req.contractId;
            id in t.contracts && ContractInv(p, TablesAfter(t, h), id, TablesAfter(t, h).contracts[id],
                                             WritersAfter(writers, h)[id])
  {
    var id := h.req.contractId;
    assert ContractInv(p, t, id, t.contracts[id], writers[id]);
    assert SlotsOf(TablesAfter(t, h), id) == SlotsOf(t, id);
  }

  lemma WriteKeepsContract(p: Primitives, t: Tables, writers: map<string, set<int>>, h: Handler, id: string)
    requires TablesInv(p, t, writers) && HandlerInv(p, t, writers, h) && h.phase.WriteContract? && id in t.contracts
    ensures ContractInv(p, TablesAfter(t, h), id, TablesAfter(t, h).contracts[id], WritersAfter(writers, h)[id])
  {
    if id == h.req.contractId {
      WriteKeepsOwnContract(p, t, writers, h);
    } else {
      assert ContractInv(p, t, id, t.contracts[id], writers[id]);
      assert SlotsOf(TablesAfter(t, h), id) == SlotsOf(t, id);
    }
  }

  lemma WriteKeepsTables(p: Primitives, t: Tables, writers: map<string, set<int>>, h: Handler)
    requires TablesInv(p, t, writers) && HandlerInv(p, t, writers, h) && h.phase.WriteContract?
    ensures TablesInv(p, TablesAfter(t, h), WritersAfter(writers, h))
  {
    var t' := TablesAfter(t, h);
    assert t'.contracts.Keys == t.contracts.Keys;
    assert RowsLinked(t');
    forall id | id in t.contracts
      ensures ContractInv(p, t', id, t'.contracts[id], WritersAfter(writers, h)[id])
    {
      WriteKeepsContract(p, t, writers, h, id);
    }
  }

  lemma WriteKeepsCopy(t: Tables, writers: map<string, set<int>>, h: Handler, id: string, copy: Contract, seen: nat)
    requires h.phase.WriteContract? && h.req.contractId in t.contracts && h.req.contractId in writers
    requires h.req.slotId !in writers[h.req.contractId]
    requires id in t.contracts && id in writers && CopyInv(t.contracts[id], copy, seen, |writers[id]|)
    ensures var t', writers' := TablesAfter(t, h), WritersAfter(writers, h);
            id in t'.contracts && id in writers' && CopyInv(t'.contracts[id], copy, seen, |writers'[id]|)
  {
  }

  lemma WriteKeepsOther(p: Primitives, t: Tables, writers: map<string, set<int>>, h: Handler, other: Handler)
    requires HandlerInv(p, t, writers, h) && h.phase.WriteContract?
    requires HandlerInv(p, t, writers, other)
    requires HasInserted(other.phase) ==> other.req.slotId != h.req.slotId
    ensures HandlerInv(p, TablesAfter(t, h), WritersAfter(writers, h), other)
  {
    if HasRead(other.phase) {
      WriteKeepsCopy(t, writers, h, other.req.contractId, other.phase.contract, other.phase.seen);
    }
  }

  lemma WrittenHandler(p: Primitives, t: Tables, writers: map<string, set<int>>, req: SignRequest, phase: Phase)
    requires phase.Finished? && req.contractId in writers && req.slotId in writers[req.contractId]
    ensures HandlerInv(p, t, writers, Handler(req, phase))
  {
  }

  lemma WriteContractKeepsInv(p: Primitives, s: State, k: int, draw: Draw)
    requires Inv(p, s) && k in s.handlers && s.handlers[k].phase.WriteContract?
    ensures Inv(p, Step(p, s, Advance(k, draw)))
  {
    var h := s.handlers[k];
    var t', writers' := TablesAfter(s.tables, h), WritersAfter(s.writers, h);
    WriteKeepsTables(p, s.tables, s.writers, h);
    forall j | j in s.handlers && j != k
      ensures HandlerInv(p, t', writers', s.handlers[j])
    {
      assert HasInserted(h.phase);
      WriteKeepsOther(p, s.tables, s.writers, h, s.handlers[j]);
    }
    var phase := Finished(h.phase.contract, h.phase.seen, h.phase.row, |WritesOf(s.writers, h.req.contractId)|);
    WrittenHandler(p, t', writers', h.req, phase);
    Assemble(p, s, k, t', writers', phase);
  }

  // ------------------------------------------------------------ create_contract

  lemma {:induction false} InsertSlotsAdds(t: Tables, id: string, defs: seq<SlotDefinition>)
    requires forall s :: s in t.slots ==> s < t.nextSlot
    ensures var t' := InsertSlots(t, id, defs);
            && t'.contracts == t.contracts && t'.signatures == t.signatures
            && t'.nextSlot == t.nextSlot + |defs|
            && (forall s :: s in t'.slots <==> s in t.slots || t.nextSlot <= s < t'.nextSlot)
            && (forall s :: s in t.slots ==> t'.slots[s] == t.slots[s])
            && (forall s :: t.nextSlot <= s < t'.nextSlot ==>
                  t'.slots[s] == Slot(id, defs[s - t.nextSlot].name, defs[s - t.nextSlot].order, false))
  {
    if defs != [] {
      var init := defs[..|defs| - 1];
      InsertSlotsAdds(t, id, init);
      assert forall i :: 0 <= i < |init| ==> init[i] == defs[i];
    }
  }

  /** What create_contract does to the tables. */
  ghost predicate Created(t: Tables, t': Tables, id: string) {
    && t'.signatures == t.signatures
    && id in t'.contracts && t'.contracts.Keys == t.contracts.Keys + {id}
    && (forall j :: j in t.contracts && j != id ==> t'.contracts[j] == t.contracts[j])
    && t'.nextSlot >= t.nextSlot
    && (forall s :: s in t'.slots <==> s in t.slots || t.nextSlot <= s < t'.nextSlot)
    && (forall s :: s in t.slots ==> t'.slots[s] == t.slots[s])
    && (forall s :: t.nextSlot <= s < t'.nextSlot ==> t'.slots[s].contractId == id && !t'.slots[s].isFilled)
  }

  lemma {:induction false} IntervalSize(xs: set<int>, low: int, n: nat)
    requires forall x :: x in xs <==> low <= x < low + n
    ensures |xs| == n
  {
    if n > 0 {
      var last := low + n - 1;
      IntervalSize(xs - {last}, low, n - 1);
      assert last in xs;
    } else {
      assert forall x :: x !in xs;
      assert xs == {};
    }
  }

  lemma CreateCreates(t: Tables, l: Label)
    requires RowsLinked(t) && l.Create? && FreshId(t, l.id)
    ensures var t' := CreateContract(t, l.id, l.customerId, l.content, l.expiresAt, l.slots);
            && Created(t, t', l.id)
            && t'.nextSlot == t.nextSlot + |l.slots|
            && t'.contracts[l.id] == NewContract(l.customerId, l.content, l.expiresAt, |l.slots|)
  {
    var t1 := t.(contracts := t.contracts[l.id := NewContract(l.customerId, l.content, l.expiresAt, |l.slots|)]);
    InsertSlotsAdds(t1, l.id, l.slots);
  }

  lemma CreatedSlots(t: Tables, t': Tables, id: string, j: string)
    requires RowsLinked(t) && FreshId(t, id) && Created(t, t', id)
    ensures j == id ==> |SlotsOf(t', j)| == t'.nextSlot - t.nextSlot
    ensures j != id ==> SlotsOf(t', j) == SlotsOf(t, j)
  {
    if j == id {
      forall x
        ensures x in SlotsOf(t', id) <==> t.nextSlot <= x < t'.nextSlot
      {
        if x in t.slots {
          assert t'.slots[x] == t.slots[x];
        }
      }
      IntervalSize(SlotsOf(t', id), t.nextSlot, t'.nextSlot - t.nextSlot);
    } else {
      forall x
        ensures x in SlotsOf(t', j) <==> x in SlotsOf(t, j)
      {
        if x in t'.slots && x !in t.slots {
          assert t'.slots[x].contractId == id;
        }
      }
    }
  }

  lemma CreateKeepsLinks(t: Tables, t': Tables, id: string)
    requires RowsLinked(t) && FreshId(t, id) && Created(t, t', id)
    ensures RowsLinked(t')
  {
    forall row | row in t'.signatures && row.slotId.InSlot?
      ensures row.slotId.id in t'.slots && t'.slots[row.slotId.id].contractId == row.contractId
    {
      assert row.slotId.id in t.slots;
    }
  }

  lemma CreateKeepsContract(p: Primitives, t: Tables, t': Tables, id: string, j: string, done: set<int>)
    requires RowsLinked(t) && FreshId(t, id) && Created(t, t', id) && j in t.contracts
    requires ContractInv(p, t, j, t.contracts[j], done)
    ensures ContractInv(p, t', j, t'.contracts[j], done)
  {
    CreatedSlots(t, t', id, j);
  }

  /** A new row with one slot each for the signatures it requires. */
  lemma NewContractInv(p: Primitives, t: Tables, t': Tables, id: string)
    requires RowsLinked(t) && FreshId(t, id) && Created(t, t', id)
    requires var c := t'.contracts[id];
             && 0 < c.required == t'.nextSlot - t.nextSlot < 0x8000_0000
             && c.completed == 0 && c.status == PENDING && c.finalHash == None
    ensures ContractInv(p, t', id, t'.contracts[id], {})
  {
    CreatedSlots(t, t', id, id);
  }

  lemma CreatedKeepsTables(p: Primitives, t: Tables, t': Tables, writers: map<string, set<int>>, id: string)
    requires TablesInv(p, t, writers) && FreshId(t, id) && Created(t, t', id)
    requires ContractInv(p, t', id, t'.contracts[id], {})
    ensures TablesInv(p, t', writers[id := {}])
  {
    CreateKeepsLinks(t, t', id);
    forall j | j in t.contracts
      ensures j != id && ContractInv(p, t', j, t'.contracts[j], writers[j])
    {
      CreateKeepsContract(p, t, t', id, j, writers[j]);
    }
  }

  /** create_contract establishes the invariant: `required` is the number of slots it inserts, as
      long as that number survives the cast to i32. */
  lemma CreateKeepsTables(p: Primitives, t: Tables, writers: map<string, set<int>>, l: Label)
    requires TablesInv(p, t, writers) && l.Create? && FreshId(t, l.id) && 0 < |l.slots| < 0x8000_0000
    ensures var t' := CreateContract(t, l.id, l.customerId, l.content, l.expiresAt, l.slots);
            && TablesInv(p, t', writers[l.id := {}])
            && Created(t, t', l.id)
            && var c := t'.contracts[l.id];
               c.required == |SlotsOf(t', l.id)| == |l.slots| && c.completed == 0 && c.status == PENDING
                   && c.finalHash == None
  {
    var t' := CreateContract(t, l.id, l.customerId, l.content, l.expiresAt, l.slots);
    CreateCreates(t, l);
    NewContractInv(p, t, t', l.id);
    CreatedSlots(t, t', l.id, l.id);
    CreatedKeepsTables(p, t, t', writers, l.id);
  }

  lemma CreateKeepsHandler(p: Primitives, t: Tables, t': Tables, writers: map<string, set<int>>, id: string, h: Handler)
    requires RowsLinked(t) && FreshId(t, id) && Created(t, t', id) && id !in writers
    requires HandlerInv(p, t, writers, h)
    ensures HandlerInv(p, t', writers[id := {}], h)
  {
    if HasRow(h.phase) {
      assert h.req.contractId in t.contracts;
      if IsLast(h.phase.contract) {
        forall x | x in t'.slots && t'.slots[x].contractId == h.req.contractId && x != h.req.slotId
          ensures x in SignedSlots(t'.signatures)
        {
          assert x in t.slots;
        }
      }
    }
  }

  lemma CreateKeepsInv(p: Primitives, s: State, l: Label)
    requires Inv(p, s) && l.Create? && |l.slots| < 0x8000_0000
    ensures Inv(p, Step(p, s, l))
  {
    if l.slots != [] && FreshId(s.tables, l.id) {
      var t' := CreateContract(s.tables, l.id, l.customerId, l.content, l.expiresAt, l.slots);
      CreateKeepsTables(p, s.tables, s.writers, l);
      CreateCreates(s.tables, l);
      forall k | k in s.handlers
        ensures HandlerInv(p, t', s.writers[l.id := {}], s.handlers[k])
      {
        CreateKeepsHandler(p, s.tables, t', s.writers, l.id, s.handlers[k]);
      }
    }
  }

  /** create_contract's caller sends fewer slots than an i32 can count. */
  predicate Sendable(l: Label) {
    l.Create? ==> |l.slots| < 0x8000_0000
  }

  lemma StepKeepsInv(p: Primitives, s: State, l: Label)
    requires Inv(p, s) && Sendable(l)
    ensures Inv(p, Step(p, s, l))
  {
    match l
    case Create(_, _, _, _, _) => CreateKeepsInv(p, s, l);
    case Begin(k, req) => BeginKeepsInv(p, s, k, req);
    case Stop(k) => StopKeepsInv(p, s, k);
    case Advance(k, draw) =>
      if k in s.handlers {
        var h := s.handlers[k];
        match h.phase
        case ReadContract => ReadContractKeepsInv(p, s, k, draw);
        case ReadSlot(_, _) => ReadSlotKeepsInv(p, s, k, draw);
        case LoadSignatures(_, _, _) => LoadSignaturesKeepsInv(p, s, k, draw);
        case InsertSignature(_, _, _, _) => InsertKeepsInv(p, s, k, draw);
        case MarkFilled(_, _, _, _) => MarkFilledKeepsInv(p, s, k, draw);
        case WriteContract(_, _, _, _) => WriteContractKeepsInv(p, s, k, draw);
        case Finished(_, _, _, _) => PhaseChange(p, s, k, h.phase);
        case Failed(_) => PhaseChange(p, s, k, h.phase);
        case Stopped => PhaseChange(p, s, k, h.phase);
      }
  }

  ghost predicate AllSendable(labels: seq<Label>) {
    forall l :: l in labels ==> Sendable(l)
  }

  lemma {:induction false} ExecKeepsInv(p: Primitives, s: State, labels: seq<Label>)
    requires Inv(p, s) && AllSendable(labels)
    ensures Inv(p, Exec(p, s, labels))
    decreases |labels|
  {
    if labels != [] {
      StepKeepsInv(p, s, labels[0]);
      ExecKeepsInv(p, Step(p, s, labels[0]), labels[1..]);
    }
  }
}
