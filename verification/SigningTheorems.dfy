/** The protocol's promises over whole runs: any number of handlers, any interleaving of their
    statements, any of them stopping between two statements. */
module SigningTheorems {
  import opened Wrappers
  import opened Crypto
  import opened Tables
  import opened Signing
  import opened SigningInvariant
  import opened Verify

  /** A database at rest: no handler runs and the counts are exact. */
  ghost predicate AtRest(p: Primitives, s: State) {
    && s.handlers == map[]
    && TablesInv(p, s.tables, s.writers)
    && forall id :: id in s.tables.contracts ==> s.tables.contracts[id].completed == |s.writers[id]|
  }

  const FRESH := State(EMPTY, map[], map[])

  lemma FreshAtRest(p: Primitives)
    ensures AtRest(p, FRESH)
  {
  }

  ghost predicate Run(p: Primitives, start: State, labels: seq<Label>) {
    AtRest(p, start) && AllSendable(labels)
  }

  lemma RunKeepsInv(p: Primitives, start: State, labels: seq<Label>)
    requires Run(p, start, labels)
    ensures Inv(p, Exec(p, start, labels))
  {
    ExecKeepsInv(p, start, labels);
  }

  // -------------------------------------------------------- what a step changes

  predicate Writes(s: State, l: Label) {
    l.Advance? && l.handler in s.handlers && s.handlers[l.handler].phase.WriteContract?
  }

  predicate Creates(s: State, l: Label) {
    l.Create? && l.slots != [] && FreshId(s.tables, l.id)
  }

  predicate IsFinished(handlers: map<int, Handler>, k: int) {
    k in handlers && handlers[k].phase.Finished?
  }

  ghost predicate SameFinished(handlers: map<int, Handler>, handlers': map<int, Handler>) {
    forall k :: (IsFinished(handlers, k) <==> IsFinished(handlers', k))
                && (IsFinished(handlers, k) ==> handlers[k] == handlers'[k])
  }

  lemma PhaseKeepsFinished(handlers: map<int, Handler>, k: int, phase: Phase)
    requires k in handlers
    requires if handlers[k].phase.Finished? then phase == handlers[k].phase else !phase.Finished?
    ensures SameFinished(handlers, handlers[k := Handler(handlers[k].req, phase)])
  {
  }

  lemma BeginKeepsFinished(handlers: map<int, Handler>, k: int, h: Handler)
    requires k !in handlers && !h.phase.Finished?
    ensures SameFinished(handlers, handlers[k := h])
  {
  }

  /** Only create_contract and the last statement of sign_contract change contract rows. */
  lemma QuietStep(p: Primitives, s: State, l: Label)
    requires !Writes(s, l) && !Creates(s, l)
    ensures var s' := Step(p, s, l);
            s'.writers == s.writers && s'.tables.contracts == s.tables.contracts
                && SameFinished(s.handlers, s'.handlers)
  {
    match l
    case Create(_, _, _, _, _) =>
    case Begin(k, req) =>
      if k !in s.handlers {
        BeginKeepsFinished(s.handlers, k, Handler(req, if req.accepted then ReadContract else Failed(400)));
      }
    case Stop(k) =>
      if k in s.handlers && Active(s.handlers[k].phase) {
        PhaseKeepsFinished(s.handlers, k, Stopped);
      }
    case Advance(k, draw) =>
      if k in s.handlers {
        var h := s.handlers[k];
        PhaseKeepsFinished(s.handlers, k, PhaseAfter(p, s.tables, |WritesOf(s.writers, h.req.contractId)|, h, draw));
      }
  }

  lemma WriteStep(p: Primitives, s: State, l: Label)
    requires Writes(s, l)
    ensures var h := s.handlers[l.handler];
            Step(p, s, l) == WithPhase(State(TablesAfter(s.tables, h), s.handlers, WritersAfter(s.writers, h)),
                                       l.handler, h,
                                       Finished(h.phase.contract, h.phase.seen, h.phase.row,
                                                |WritesOf(s.writers, h.req.contractId)|))
  {
  }

  // ------------------------------------------------------------ signed is final

  /** What concerns one contract: its row, its slots, its signatures. */
  ghost predicate SameContract(t: Tables, t': Tables, id: string) {
    && id in t.contracts && id in t'.contracts && t'.contracts[id] == t.contracts[id]
    && RowsOf(t'.signatures, id) == RowsOf(t.signatures, id)
    && SlotsOf(t', id) == SlotsOf(t, id)
    && forall x :: x in SlotsOf(t, id) ==> x in t.slots && x in t'.slots && t'.slots[x] == t.slots[x]
  }

  lemma InsertOnSignedFails(p: Primitives, s: State, k: int)
    requires Inv(p, s) && k in s.handlers && s.handlers[k].phase.InsertSignature?
    requires var id := s.handlers[k].req.contractId;
             id in s.tables.contracts && s.tables.contracts[id].status == SIGNED
    ensures Conflicts(s.tables.signatures, s.handlers[k].phase.row)
  {
    var h, t := s.handlers[k], s.tables;
    var id := h.req.contractId;
    assert HandlerInv(p, t, s.writers, h);
    assert ContractInv(p, t, id, t.contracts[id], s.writers[id]);
    WritersAreSlots(p, t, s.writers, id);
    assert h.req.slotId in SlotsOf(t, id);
    ConflictOnSignedSlot(t.signatures, h.phase.row);
  }

  lemma CreateKeepsSigned(p: Primitives, s: State, l: Label, id: string)
    requires Inv(p, s) && Creates(s, l) && id in s.tables.contracts
    ensures SameContract(s.tables, Step(p, s, l).tables, id)
  {
    var t' := CreateContract(s.tables, l.id, l.customerId, l.content, l.expiresAt, l.slots);
    CreateCreates(s.tables, l);
    CreatedSlots(s.tables, t', l.id, id);
  }

  lemma InsertOtherKeepsSame(t: Tables, row: Signature, id: string)
    requires id in t.contracts && row.contractId != id
    ensures SameContract(t, WithSignature(t, row), id)
  {
    RowsOfAppended(t.signatures, row, id);
    assert SlotsOf(WithSignature(t, row), id) == SlotsOf(t, id);
  }

  lemma FillOtherKeepsSame(t: Tables, slot: int, id: string)
    requires id in t.contracts && slot !in SlotsOf(t, id)
    ensures SameContract(t, WithFilled(t, slot), id)
  {
    assert SlotsOf(WithFilled(t, slot), id) == SlotsOf(t, id);
  }

  /** On a signed contract the next statement of a handler that has inserted is another contract's. */
  lemma LateWriterIsElsewhere(p: Primitives, s: State, k: int, id: string)
    requires Inv(p, s) && k in s.handlers && HasInserted(s.handlers[k].phase)
    requires id in s.tables.contracts && s.tables.contracts[id].status == SIGNED
    ensures s.handlers[k].req.contractId != id && s.handlers[k].req.slotId !in SlotsOf(s.tables, id)
  {
    SignedHasNoLateWriter(p, s, k);
    var h := s.handlers[k];
    assert HasRow(h.phase);
    assert HandlerInv(p, s.tables, s.writers, h);
    assert RowInv(s.tables, h.req, h.phase.contract, h.phase.row);
  }

  lemma AdvanceKeepsSigned(p: Primitives, s: State, k: int, id: string)
    requires Inv(p, s) && k in s.handlers
    requires id in s.tables.contracts && s.tables.contracts[id].status == SIGNED
    ensures SameContract(s.tables, TablesAfter(s.tables, s.handlers[k]), id)
  {
    var h, t := s.handlers[k], s.tables;
    if HasInserted(h.phase) {
      LateWriterIsElsewhere(p, s, k, id);
      if h.phase.MarkFilled? {
        FillOtherKeepsSame(t, h.req.slotId, id);
      } else {
        assert SlotsOf(TablesAfter(t, h), id) == SlotsOf(t, id);
      }
    } else if h.phase.InsertSignature? && !Conflicts(t.signatures, h.phase.row) {
      assert HandlerInv(p, t, s.writers, h);
      if h.req.contractId == id {
        InsertOnSignedFails(p, s, k);
      } else {
        InsertOtherKeepsSame(t, h.phase.row, id);
      }
    }
  }

  lemma StepKeepsSigned(p: Primitives, s: State, l: Label, id: string)
    requires Inv(p, s) && Sendable(l)
    requires id in s.tables.contracts && s.tables.contracts[id].status == SIGNED
    ensures SameContract(s.tables, Step(p, s, l).tables, id)
  {
    if Creates(s, l) {
      CreateKeepsSigned(p, s, l, id);
    } else if l.Advance? && l.handler in s.handlers {
      AdvanceKeepsSigned(p, s, l.handler, id);
    }
  }

  lemma {:induction false} ExecKeepsSigned(p: Primitives, s: State, labels: seq<Label>, id: string)
    requires Inv(p, s) && AllSendable(labels)
    requires id in s.tables.contracts && s.tables.contracts[id].status == SIGNED
    ensures SameContract(s.tables, Exec(p, s, labels).tables, id)
    decreases |labels|
  {
    if labels != [] {
      StepKeepsInv(p, s, labels[0]);
      StepKeepsSigned(p, s, labels[0], id);
      ExecKeepsSigned(p, Step(p, s, labels[0]), labels[1..], id);
    }
  }

  /** "signed" is final: whatever the handlers still in flight hold, they change neither the row nor
      the slots, filled flags included, nor the signatures of a signed contract. */
  lemma SignedIsFinal(p: Primitives, start: State, labels: seq<Label>, more: seq<Label>, id: string)
    requires Run(p, start, labels) && AllSendable(more)
    requires var t := Exec(p, start, labels).tables; id in t.contracts && t.contracts[id].status == SIGNED
    ensures SameContract(Exec(p, start, labels).tables, Exec(p, start, labels + more).tables, id)
  {
    RunKeepsInv(p, start, labels);
    ExecAppend(p, start, labels, more);
    ExecKeepsSigned(p, Exec(p, start, labels), more, id);
  }

  // ------------------------------------------------------- counts in every state

  function FilledSlots(t: Tables, id: string): set<int> {
    set s | s in t.slots && t.slots[s].contractId == id && t.slots[s].isFilled
  }

  lemma {:induction false} RowsOfUnique(rows: seq<Signature>, id: string)
    requires UniqueRows(rows)
    ensures UniqueRows(RowsOf(rows, id))
  {
    if rows != [] {
      var before, last := rows[..|rows| - 1], rows[|rows| - 1];
      RowsOfUnique(before, id);
      var kept := RowsOf(before, id);
      forall i | 0 <= i < |kept|
        ensures Distinct(kept[i], last)
      {
        RowsOfMembers(before, id, kept[i]);
        var j :| 0 <= j < |before| && before[j] == kept[i];
        assert Distinct(rows[j], rows[|rows| - 1]);
      }
    }
  }

  /** Rows in different slots are as many as their slots. */
  lemma {:induction false} RowsAreSlots(rows: seq<Signature>)
    requires UniqueRows(rows) && forall i :: 0 <= i < |rows| ==> rows[i].slotId.InSlot?
    ensures |SignedSlots(rows)| == |rows|
  {
    if rows != [] {
      var before, last := rows[..|rows| - 1], rows[|rows| - 1];
      RowsAreSlots(before);
      SignedSlotsMembers(before, last.slotId.id);
      forall i | 0 <= i < |before|
        ensures before[i].slotId != last.slotId
      {
        assert Distinct(rows[i], rows[|rows| - 1]);
      }
    }
  }

  lemma OwnRowsInSlots(t: Tables, id: string)
    requires RowsLinked(t) && id in t.contracts
    ensures |SignedSlots(RowsOf(t.signatures, id))| == |RowsOf(t.signatures, id)|
  {
    var rows, mine := t.signatures, RowsOf(t.signatures, id);
    RowsOfUnique(rows, id);
    forall i | 0 <= i < |mine|
      ensures mine[i].slotId.InSlot?
    {
      RowsOfMembers(rows, id, mine[i]);
    }
    RowsAreSlots(mine);
  }

  lemma SignedByOwnRow(t: Tables, id: string, s: int)
    requires RowsLinked(t) && s in SignedSlots(RowsOf(t.signatures, id))
    ensures s in SignedSlots(t.signatures) && s in SlotsOf(t, id)
  {
    var rows, mine := t.signatures, RowsOf(t.signatures, id);
    SignedSlotsMembers(mine, s);
    SignedSlotsMembers(rows, s);
    var i :| 0 <= i < |mine| && mine[i].slotId == InSlot(s);
    RowsOfMembers(rows, id, mine[i]);
    var j :| 0 <= j < |rows| && rows[j] == mine[i];
    assert rows[j].slotId == InSlot(s);
  }

  lemma OwnRowSigns(t: Tables, id: string, s: int)
    requires RowsLinked(t) && s in SignedSlots(t.signatures) && s in SlotsOf(t, id)
    ensures s in SignedSlots(RowsOf(t.signatures, id))
  {
    var rows, mine := t.signatures, RowsOf(t.signatures, id);
    SignedSlotsMembers(mine, s);
    SignedSlotsMembers(rows, s);
    var j :| 0 <= j < |rows| && rows[j].slotId == InSlot(s);
    assert rows[j] in rows;
    RowsOfMembers(rows, id, rows[j]);
    var i :| 0 <= i < |mine| && mine[i] == rows[j];
    assert mine[i].slotId == InSlot(s);
  }

  lemma SignedSlotsOfContract(t: Tables, id: string)
    requires RowsLinked(t) && id in t.contracts
    ensures |SignedSlots(RowsOf(t.signatures, id))| == |RowsOf(t.signatures, id)|
    ensures SignedSlots(RowsOf(t.signatures, id)) == SignedSlots(t.signatures) * SlotsOf(t, id)
  {
    OwnRowsInSlots(t, id);
    var own, all := SignedSlots(RowsOf(t.signatures, id)), SignedSlots(t.signatures);
    forall s
      ensures s in own <==> s in all && s in SlotsOf(t, id)
    {
      if s in own {
        SignedByOwnRow(t, id, s);
      }
      if s in all && s in SlotsOf(t, id) {
        OwnRowSigns(t, id, s);
      }
    }
  }

  lemma CountsOrderedInv(p: Primitives, t: Tables, writers: map<string, set<int>>, id: string)
    requires TablesInv(p, t, writers) && id in t.contracts
    ensures writers[id] <= FilledSlots(t, id) <= SignedSlots(RowsOf(t.signatures, id)) <= SlotsOf(t, id)
    ensures t.contracts[id].completed <= |writers[id]| <= |FilledSlots(t, id)|
            <= |RowsOf(t.signatures, id)| <= |SlotsOf(t, id)| == t.contracts[id].required
  {
    assert ContractInv(p, t, id, t.contracts[id], writers[id]);
    SignedSlotsOfContract(t, id);
    var signed := SignedSlots(RowsOf(t.signatures, id));
    forall s | s in writers[id]
      ensures s in FilledSlots(t, id)
    {
    }
    forall s | s in FilledSlots(t, id)
      ensures s in signed
    {
    }
    SubsetSize(writers[id], FilledSlots(t, id));
    SubsetSize(FilledSlots(t, id), signed);
    SubsetSize(signed, SlotsOf(t, id));
  }

  /** In every state: writes are filled slots, filled slots are signed, signed ones are slots; so
      completed <= finished writes <= filled slots <= signature rows <= slots = required. */
  lemma CountsOrdered(p: Primitives, start: State, labels: seq<Label>, id: string)
    requires Run(p, start, labels) && id in Exec(p, start, labels).tables.contracts
    ensures var s := Exec(p, start, labels);
            var t := s.tables;
            && id in s.writers
            && s.writers[id] <= FilledSlots(t, id) <= SignedSlots(RowsOf(t.signatures, id)) <= SlotsOf(t, id)
            && t.contracts[id].completed <= |s.writers[id]| <= |FilledSlots(t, id)|
               <= |RowsOf(t.signatures, id)| <= |SlotsOf(t, id)| == t.contracts[id].required
  {
    RunKeepsInv(p, start, labels);
    var s := Exec(p, start, labels);
    CountsOrderedInv(p, s.tables, s.writers, id);
  }

  /** Two rows never share a slot. */
  lemma OneRowPerSlot(p: Primitives, start: State, labels: seq<Label>, i: nat, j: nat)
    requires Run(p, start, labels)
    requires var rows := Exec(p, start, labels).tables.signatures;
             i < |rows| && j < |rows| && rows[i].slotId.InSlot? && rows[i].slotId == rows[j].slotId
    ensures i == j
  {
    RunKeepsInv(p, start, labels);
    var rows := Exec(p, start, labels).tables.signatures;
    assert i < j ==> Distinct(rows[i], rows[j]);
    assert j < i ==> Distinct(rows[j], rows[i]);
  }

  /** The addition `completed + 1` of the source never leaves the i32 range. */
  lemma NoOverflow(p: Primitives, start: State, labels: seq<Label>, k: int)
    requires Run(p, start, labels)
    requires var s := Exec(p, start, labels); k in s.handlers && HasRow(s.handlers[k].phase)
    ensures 0 <= Exec(p, start, labels).handlers[k].phase.contract.completed + 1 < 0x8000_0000
  {
    RunKeepsInv(p, start, labels);
    var s := Exec(p, start, labels);
    assert HandlerInv(p, s.tables, s.writers, s.handlers[k]);
    assert ContractInv(p, s.tables, s.handlers[k].req.contractId, s.tables.contracts[s.handlers[k].req.contractId],
                       s.writers[s.handlers[k].req.contractId]);
  }

  // --------------------------------------------------------- signed is complete

  /** The protocol signs a contract only together with its hash; the migration leaves signed contracts
      that have none. */
  predicate SignedWithoutHash(t: Tables, id: string) {
    id in t.contracts && t.contracts[id].status == SIGNED && t.contracts[id].finalHash.None?
  }

  lemma WriteKeepsHash(p: Primitives, t: Tables, writers: map<string, set<int>>, h: Handler, id: string)
    requires HandlerInv(p, t, writers, h) && h.phase.WriteContract? && !SignedWithoutHash(t, id)
    ensures !SignedWithoutHash(TablesAfter(t, h), id)
  {
  }

  lemma CreateKeepsHash(p: Primitives, s: State, l: Label, id: string)
    requires Inv(p, s) && !SignedWithoutHash(s.tables, id) && Creates(s, l)
    ensures !SignedWithoutHash(Step(p, s, l).tables, id)
  {
    CreateCreates(s.tables, l);
  }

  lemma StepKeepsHash(p: Primitives, s: State, l: Label, id: string)
    requires Inv(p, s) && !SignedWithoutHash(s.tables, id) && Sendable(l)
    ensures !SignedWithoutHash(Step(p, s, l).tables, id)
  {
    if Creates(s, l) {
      CreateKeepsHash(p, s, l, id);
    } else if Writes(s, l) {
      assert HandlerInv(p, s.tables, s.writers, s.handlers[l.handler]);
      WriteStep(p, s, l);
      WriteKeepsHash(p, s.tables, s.writers, s.handlers[l.handler], id);
    } else {
      QuietStep(p, s, l);
    }
  }

  lemma {:induction false} ExecKeepsHash(p: Primitives, s: State, labels: seq<Label>, id: string)
    requires Inv(p, s) && !SignedWithoutHash(s.tables, id) && AllSendable(labels)
    ensures !SignedWithoutHash(Exec(p, s, labels).tables, id)
    decreases |labels|
  {
    if labels != [] {
      StepKeepsInv(p, s, labels[0]);
      StepKeepsHash(p, s, labels[0], id);
      ExecKeepsHash(p, Step(p, s, labels[0]), labels[1..], id);
    }
  }

  /** A run leaves a signed contract without a hash exactly when it found it so. */
  lemma HashMissingExactly(p: Primitives, start: State, labels: seq<Label>, id: string)
    requires Run(p, start, labels)
    ensures SignedWithoutHash(Exec(p, start, labels).tables, id) <==> SignedWithoutHash(start.tables, id)
  {
    RunKeepsInv(p, start, []);
    assert Exec(p, start, []) == start;
    if SignedWithoutHash(start.tables, id) {
      ExecKeepsSigned(p, start, labels, id);
    } else {
      ExecKeepsHash(p, start, labels, id);
    }
  }

  /** A signed contract has every slot filled and signed once and completed = required. Its final hash is
      that of exactly its rows, unless it was signed without one before the run. */
  lemma SignedIsComplete(p: Primitives, start: State, labels: seq<Label>, id: string)
    requires Run(p, start, labels)
    requires var t := Exec(p, start, labels).tables; id in t.contracts && t.contracts[id].status == SIGNED
    ensures var t := Exec(p, start, labels).tables;
            var c, rows := t.contracts[id], RowsOf(t.signatures, id);
            && FilledSlots(t, id) == SlotsOf(t, id) == SignedSlots(rows)
            && c.completed == c.required == |rows| == |SlotsOf(t, id)|
            && c.finalHash == if SignedWithoutHash(start.tables, id) then None
                              else Some(FinalHash(p, c.content, Entries(rows)))
  {
    RunKeepsInv(p, start, labels);
    HashMissingExactly(p, start, labels, id);
    var s := Exec(p, start, labels);
    assert ContractInv(p, s.tables, id, s.tables.contracts[id], s.writers[id]);
    CountsOrderedInv(p, s.tables, s.writers, id);
    WritersAreSlots(p, s.tables, s.writers, id);
  }

  /** A verify_contract that reads the contract row at one moment and the signatures at any later one
      recomputes the stored final hash; it reports it invalid only when the contract was signed without
      one before the run. */
  lemma ConcurrentVerifyAgrees(p: Primitives, start: State, labels: seq<Label>, more: seq<Label>, id: string,
                               code: string)
    requires Run(p, start, labels) && AllSendable(more)
    requires var t := Exec(p, start, labels).tables; id in t.contracts && t.contracts[id].status == SIGNED
    ensures var c := Exec(p, start, labels).tables.contracts[id];
            var rows := RowsOf(Exec(p, start, labels + more).tables.signatures, id);
            var proof := VerifyContract(p, id, c, rows, code);
            proof.Some? ==>
              && proof.value.fullySigned
              && (proof.value.finalHashValid <==> !SignedWithoutHash(start.tables, id))
  {
    SignedIsFinal(p, start, labels, more, id);
    SignedIsComplete(p, start, labels, id);
  }

  // ------------------------------------------------------------- lost updates

  /** No other handler wrote the contract between this finished handler's read and its write. */
  predicate Serial(phase: Phase)
    requires phase.Finished?
  {
    phase.seen == phase.before
  }

  ghost predicate AllSerial(handlers: map<int, Handler>, id: string) {
    forall k :: k in handlers && handlers[k].phase.Finished? && handlers[k].req.contractId == id ==>
        Serial(handlers[k].phase)
  }

  /** completed equals the number of writes exactly when all of them were serialised. */
  ghost predicate ExactInv(s: State) {
    forall id :: id in s.tables.contracts && id in s.writers ==>
      (s.tables.contracts[id].completed == |s.writers[id]| <==> AllSerial(s.handlers, id))
  }

  lemma SameFinishedSameSerial(handlers: map<int, Handler>, handlers': map<int, Handler>, id: string)
    requires SameFinished(handlers, handlers')
    ensures AllSerial(handlers, id) <==> AllSerial(handlers', id)
  {
    forall k | IsFinished(handlers, k) || IsFinished(handlers', k)
      ensures IsFinished(handlers, k) && IsFinished(handlers', k) && handlers[k] == handlers'[k]
    {
    }
  }

  /** Finishing one more handler adds its own seriality to that of the others. */
  lemma OneMoreFinished(handlers: map<int, Handler>, k: int, h: Handler, id: string)
    requires k in handlers && !handlers[k].phase.Finished? && h.phase.Finished?
    ensures AllSerial(handlers[k := h], id) <==>
            AllSerial(handlers, id) && (h.req.contractId == id ==> Serial(h.phase))
  {
    var handlers' := handlers[k := h];
    if AllSerial(handlers', id) {
      forall j | j in handlers && handlers[j].phase.Finished? && handlers[j].req.contractId == id
        ensures Serial(handlers[j].phase)
      {
        assert handlers'[j] == handlers[j];
      }
      assert k in handlers' && handlers'[k] == h;
    }
  }

  /** The count after a write is exact when it was exact before and nothing came between. */
  lemma WriteKeepsExact(p: Primitives, t: Tables, writers: map<string, set<int>>, h: Handler, id: string)
    requires TablesInv(p, t, writers) && HandlerInv(p, t, writers, h) && h.phase.WriteContract? && id in t.contracts
    ensures TablesAfter(t, h).contracts[id].completed == |WritersAfter(writers, h)[id]| <==>
            t.contracts[id].completed == |writers[id]| && (id == h.req.contractId ==> h.phase.seen == |writers[id]|)
  {
    assert ContractInv(p, t, id, t.contracts[id], writers[id]);
  }

  lemma WriteStepKeepsExact(p: Primitives, s: State, l: Label)
    requires Inv(p, s) && ExactInv(s) && Writes(s, l)
    ensures ExactInv(Step(p, s, l))
  {
    var h := s.handlers[l.handler];
    assert HandlerInv(p, s.tables, s.writers, h);
    var h' := Handler(h.req,
                      Finished(h.phase.contract, h.phase.seen, h.phase.row, |WritesOf(s.writers, h.req.contractId)|));
    WriteStep(p, s, l);
    forall id | id in s.tables.contracts
      ensures TablesAfter(s.tables, h).contracts[id].completed == |WritersAfter(s.writers, h)[id]| <==>
              AllSerial(s.handlers[l.handler := h'], id)
    {
      WriteKeepsExact(p, s.tables, s.writers, h, id);
      OneMoreFinished(s.handlers, l.handler, h', id);
    }
  }

  lemma CreateKeepsExact(p: Primitives, s: State, l: Label)
    requires Inv(p, s) && ExactInv(s) && l.Create? && Sendable(l)
    ensures ExactInv(Step(p, s, l))
  {
    if l.slots != [] && FreshId(s.tables, l.id) {
      CreateCreates(s.tables, l);
      forall k | k in s.handlers && s.handlers[k].phase.Finished?
        ensures s.handlers[k].req.contractId != l.id
      {
        assert HandlerInv(p, s.tables, s.writers, s.handlers[k]);
      }
    }
  }

  lemma StepKeepsExact(p: Primitives, s: State, l: Label)
    requires Inv(p, s) && ExactInv(s) && Sendable(l)
    ensures ExactInv(Step(p, s, l))
  {
    if l.Create? {
      CreateKeepsExact(p, s, l);
    } else if Writes(s, l) {
      WriteStepKeepsExact(p, s, l);
    } else {
      QuietStep(p, s, l);
      var s' := Step(p, s, l);
      forall id | id in s'.tables.contracts && id in s'.writers
        ensures s'.tables.contracts[id].completed == |s'.writers[id]| <==> AllSerial(s'.handlers, id)
      {
        SameFinishedSameSerial(s.handlers, s'.handlers, id);
      }
    }
  }

  lemma {:induction false} ExecKeepsExact(p: Primitives, s: State, labels: seq<Label>)
    requires Inv(p, s) && ExactInv(s) && AllSendable(labels)
    ensures ExactInv(Exec(p, s, labels))
    decreases |labels|
  {
    if labels != [] {
      StepKeepsInv(p, s, labels[0]);
      StepKeepsExact(p, s, labels[0]);
      ExecKeepsExact(p, Step(p, s, labels[0]), labels[1..]);
    }
  }

  /** Exactly when the count is right, and exactly when a contract is signed: all its slots have had
      their contract write, and no two of these writes overlapped. */
  lemma SignedExactly(p: Primitives, start: State, labels: seq<Label>, id: string)
    requires Run(p, start, labels) && id in Exec(p, start, labels).tables.contracts
    ensures var s := Exec(p, start, labels);
            var c := s.tables.contracts[id];
            && id in s.writers
            && (c.completed == |s.writers[id]| <==> AllSerial(s.handlers, id))
            && (c.status == SIGNED <==> s.writers[id] == SlotsOf(s.tables, id) && AllSerial(s.handlers, id))
  {
    RunKeepsInv(p, start, labels);
    ExecKeepsExact(p, start, labels);
    var s := Exec(p, start, labels);
    assert ContractInv(p, s.tables, id, s.tables.contracts[id], s.writers[id]);
    WritersAreSlots(p, s.tables, s.writers, id);
  }

  // ------------------------------------------------------------ behind for ever

  ghost predicate Behind(s: State, id: string) {
    id in s.tables.contracts && id in s.writers && s.tables.contracts[id].completed < |s.writers[id]|
  }

  lemma WriteKeepsBehind(p: Primitives, t: Tables, writers: map<string, set<int>>, h: Handler, id: string)
    requires HandlerInv(p, t, writers, h) && h.phase.WriteContract?
    requires id in t.contracts && id in writers && t.contracts[id].completed < |writers[id]|
    ensures TablesAfter(t, h).contracts[id].completed < |WritersAfter(writers, h)[id]|
  {
  }

  lemma StepKeepsBehind(p: Primitives, s: State, l: Label, id: string)
    requires Inv(p, s) && Behind(s, id) && Sendable(l)
    ensures Behind(Step(p, s, l), id)
  {
    if Creates(s, l) {
      CreateCreates(s.tables, l);
    } else if Writes(s, l) {
      var h := s.handlers[l.handler];
      assert HandlerInv(p, s.tables, s.writers, h);
      WriteKeepsBehind(p, s.tables, s.writers, h, id);
    } else {
      QuietStep(p, s, l);
    }
  }

  lemma {:induction false} ExecKeepsBehind(p: Primitives, s: State, labels: seq<Label>, id: string)
    requires Inv(p, s) && Behind(s, id) && AllSendable(labels)
    ensures Behind(Exec(p, s, labels), id)
    decreases |labels|
  {
    if labels != [] {
      StepKeepsInv(p, s, labels[0]);
      StepKeepsBehind(p, s, labels[0], id);
      ExecKeepsBehind(p, Step(p, s, labels[0]), labels[1..], id);
    }
  }

  /** A lost update is never made good: a contract once behind its writes can never be signed. */
  lemma LostForEver(p: Primitives, start: State, labels: seq<Label>, more: seq<Label>, id: string)
    requires Run(p, start, labels) && AllSendable(more) && Behind(Exec(p, start, labels), id)
    ensures var s := Exec(p, start, labels + more);
            Behind(s, id) && s.tables.contracts[id].status != SIGNED
  {
    RunKeepsInv(p, start, labels);
    ExecAppend(p, start, labels, more);
    ExecKeepsBehind(p, Exec(p, start, labels), more, id);
    ExecKeepsInv(p, Exec(p, start, labels), more);
    var s := Exec(p, start, labels + more);
    assert ContractInv(p, s.tables, id, s.tables.contracts[id], s.writers[id]);
    WritersAreSlots(p, s.tables, s.writers, id);
  }

  // ---------------------------------------------------- writes and their handlers

  function FinishedOn(handlers: map<int, Handler>, id: string): set<int> {
    set k | k in handlers && handlers[k].phase.Finished? && handlers[k].req.contractId == id
  }

  /** Every counted write belongs to one finished handler. */
  ghost predicate WritesCounted(writers: map<string, set<int>>, handlers: map<int, Handler>) {
    forall id :: id in writers ==> |writers[id]| == |FinishedOn(handlers, id)|
  }

  lemma CreateKeepsCounted(p: Primitives, s: State, l: Label)
    requires Inv(p, s) && WritesCounted(s.writers, s.handlers) && Creates(s, l)
    ensures WritesCounted(s.writers[l.id := {}], s.handlers)
  {
    forall k | k in s.handlers && s.handlers[k].phase.Finished?
      ensures s.handlers[k].req.contractId != l.id
    {
      assert HandlerInv(p, s.tables, s.writers, s.handlers[k]);
    }
    assert FinishedOn(s.handlers, l.id) == {};
  }

  lemma OneMoreCounted(handlers: map<int, Handler>, k: int, h: Handler, id: string)
    requires k in handlers && !handlers[k].phase.Finished? && h.phase.Finished?
    ensures |FinishedOn(handlers[k := h], id)| == |FinishedOn(handlers, id)| + if id == h.req.contractId then 1 else 0
  {
    var added := if id == h.req.contractId then {k} else {};
    assert FinishedOn(handlers[k := h], id) == FinishedOn(handlers, id) + added;
    assert k !in FinishedOn(handlers, id);
  }

  lemma WriteKeepsCounted(writers: map<string, set<int>>, handlers: map<int, Handler>, k: int, phase: Phase)
    requires WritesCounted(writers, handlers) && k in handlers && handlers[k].phase.WriteContract? && phase.Finished?
    requires handlers[k].req.contractId in writers && handlers[k].req.slotId !in writers[handlers[k].req.contractId]
    ensures WritesCounted(WritersAfter(writers, handlers[k]), handlers[k := Handler(handlers[k].req, phase)])
  {
    forall id | id in writers
      ensures |WritersAfter(writers, handlers[k])[id]|
              == |FinishedOn(handlers[k := Handler(handlers[k].req, phase)], id)|
    {
      OneMoreCounted(handlers, k, Handler(handlers[k].req, phase), id);
    }
  }

  lemma SameFinishedSameCount(writers: map<string, set<int>>, handlers: map<int, Handler>, handlers': map<int, Handler>)
    requires WritesCounted(writers, handlers) && SameFinished(handlers, handlers')
    ensures WritesCounted(writers, handlers')
  {
    forall id | id in writers
      ensures FinishedOn(handlers', id) == FinishedOn(handlers, id)
    {
      forall k
        ensures k in FinishedOn(handlers', id) <==> k in FinishedOn(handlers, id)
      {
        assert IsFinished(handlers, k) <==> IsFinished(handlers', k);
      }
    }
  }

  lemma StepKeepsCounted(p: Primitives, s: State, l: Label)
    requires Inv(p, s) && WritesCounted(s.writers, s.handlers) && Sendable(l)
    ensures WritesCounted(Step(p, s, l).writers, Step(p, s, l).handlers)
  {
    if Creates(s, l) {
      CreateKeepsCounted(p, s, l);
    } else if Writes(s, l) {
      var h := s.handlers[l.handler];
      assert HandlerInv(p, s.tables, s.writers, h);
      var phase := Finished(h.phase.contract, h.phase.seen, h.phase.row, |WritesOf(s.writers, h.req.contractId)|);
      WriteKeepsCounted(s.writers, s.handlers, l.handler, phase);
    } else {
      QuietStep(p, s, l);
      SameFinishedSameCount(s.writers, s.handlers, Step(p, s, l).handlers);
    }
  }

  lemma {:induction false} ExecKeepsCounted(p: Primitives, s: State, labels: seq<Label>)
    requires Inv(p, s) && WritesCounted(s.writers, s.handlers) && AllSendable(labels)
    ensures WritesCounted(Exec(p, s, labels).writers, Exec(p, s, labels).handlers)
    decreases |labels|
  {
    if labels != [] {
      StepKeepsInv(p, s, labels[0]);
      StepKeepsCounted(p, s, labels[0]);
      ExecKeepsCounted(p, Step(p, s, labels[0]), labels[1..]);
    }
  }

  /** From an empty database: the stored count is the number of signers who got their answer exactly
      when no signer's span from read to write contains another's write. */
  lemma CompletedCountsSigners(p: Primitives, labels: seq<Label>, id: string)
    requires AllSendable(labels) && id in Exec(p, FRESH, labels).tables.contracts
    ensures var s := Exec(p, FRESH, labels);
            && s.tables.contracts[id].completed <= |FinishedOn(s.handlers, id)|
            && (s.tables.contracts[id].completed == |FinishedOn(s.handlers, id)| <==> AllSerial(s.handlers, id))
            && (s.tables.contracts[id].status == SIGNED <==>
                  |FinishedOn(s.handlers, id)| == s.tables.contracts[id].required && AllSerial(s.handlers, id))
  {
    FreshAtRest(p);
    SignedExactly(p, FRESH, labels, id);
    CountsOrdered(p, FRESH, labels, id);
    ExecKeepsCounted(p, FRESH, labels);
    RunKeepsInv(p, FRESH, labels);
    var s := Exec(p, FRESH, labels);
    assert ContractInv(p, s.tables, id, s.tables.contracts[id], s.writers[id]);
    WritersAreSlots(p, s.tables, s.writers, id);
    SubsetSize(s.writers[id], SlotsOf(s.tables, id));
  }
}
