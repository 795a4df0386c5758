/** A request that stops between its insert and its contract write: nothing later makes it good. */
module Stranded {
  import opened Crypto
  import opened Tables
  import opened Signing
  import opened SigningInvariant
  import opened SigningTheorems

  /** A signed slot whose contract write has not happened, and that no handler is still about to do. */
  ghost predicate Abandoned(s: State, id: string, slot: int) {
    && id in s.tables.contracts && id in s.writers
    && slot in SlotsOf(s.tables, id) && slot in SignedSlots(s.tables.signatures) && slot !in s.writers[id]
    && forall k :: k in s.handlers && s.handlers[k].req.slotId == slot ==> !HasInserted(s.handlers[k].phase)
  }

  lemma OnlyInsertInserts(p: Primitives, t: Tables, writes: nat, h: Handler, draw: Draw)
    requires !HasInserted(h.phase) && !h.phase.InsertSignature?
    ensures !HasInserted(PhaseAfter(p, t, writes, h, draw))
  {
  }

  lemma ConflictingInsertFails(p: Primitives, t: Tables, writes: nat, h: Handler, draw: Draw)
    requires h.phase.InsertSignature? && Conflicts(t.signatures, h.phase.row)
    ensures PhaseAfter(p, t, writes, h, draw) == Failed(409)
  {
  }

  /** Another handler for an abandoned slot is refused by the UNIQUE index at the latest. */
  lemma AdvanceStaysOut(p: Primitives, t: Tables, writers: map<string, set<int>>, h: Handler, writes: nat, draw: Draw)
    requires HandlerInv(p, t, writers, h) && !HasInserted(h.phase) && h.req.slotId in SignedSlots(t.signatures)
    ensures !HasInserted(PhaseAfter(p, t, writes, h, draw))
  {
    if h.phase.InsertSignature? {
      assert HasRow(h.phase);
      assert RowInv(t, h.req, h.phase.contract, h.phase.row);
      ConflictOnSignedSlot(t.signatures, h.phase.row);
      ConflictingInsertFails(p, t, writes, h, draw);
    } else {
      OnlyInsertInserts(p, t, writes, h, draw);
    }
  }

  lemma TablesStayAbandoned(p: Primitives, s: State, id: string, slot: int, k: int)
    requires Inv(p, s) && Abandoned(s, id, slot) && k in s.handlers
    ensures var t, writers := TablesAfter(s.tables, s.handlers[k]), WritersAfter(s.writers, s.handlers[k]);
            && id in t.contracts && id in writers
            && slot in SlotsOf(t, id) && slot in SignedSlots(t.signatures) && slot !in writers[id]
  {
    var h := s.handlers[k];
    assert HasInserted(h.phase) ==> h.req.slotId != slot;
    if h.phase.InsertSignature? {
      SignedSlotsAppended(s.tables.signatures, h.phase.row);
    }
  }

  lemma AdvanceKeepsAbandoned(p: Primitives, s: State, id: string, slot: int, k: int, draw: Draw)
    requires Inv(p, s) && Abandoned(s, id, slot) && k in s.handlers
    ensures Abandoned(AdvanceHandler(p, s, k, draw), id, slot)
  {
    TablesStayAbandoned(p, s, id, slot, k);
    if s.handlers[k].req.slotId == slot {
      var writes := |WritesOf(s.writers, s.handlers[k].req.contractId)|;
      AdvanceStaysOut(p, s.tables, s.writers, s.handlers[k], writes, draw);
    }
  }

  lemma StepKeepsAbandoned(p: Primitives, s: State, l: Label, id: string, slot: int)
    requires Inv(p, s) && Abandoned(s, id, slot) && Sendable(l)
    ensures Abandoned(Step(p, s, l), id, slot)
  {
    match l
    case Create(_, _, _, _, _) =>
      if Creates(s, l) {
        CreateKeepsSlot(p, s, l, id, slot);
      }
    case Begin(k, req) =>
    case Stop(k) =>
    case Advance(k, draw) =>
      if k in s.handlers {
        AdvanceKeepsAbandoned(p, s, id, slot, k, draw);
      }
  }

  lemma CreateKeepsSlot(p: Primitives, s: State, l: Label, id: string, slot: int)
    requires Inv(p, s) && Creates(s, l) && Sendable(l) && id in s.tables.contracts && slot in SlotsOf(s.tables, id)
    ensures var t := Step(p, s, l).tables;
            id in t.contracts && slot in SlotsOf(t, id) && t.signatures == s.tables.signatures
  {
    CreateCreates(s.tables, l);
    CreatedSlots(s.tables, Step(p, s, l).tables, l.id, id);
  }

  lemma {:induction false} ExecKeepsAbandoned(p: Primitives, s: State, labels: seq<Label>, id: string, slot: int)
    requires Inv(p, s) && Abandoned(s, id, slot) && AllSendable(labels)
    ensures Abandoned(Exec(p, s, labels), id, slot)
    decreases |labels|
  {
    if labels != [] {
      StepKeepsInv(p, s, labels[0]);
      StepKeepsAbandoned(p, s, labels[0], id, slot);
      ExecKeepsAbandoned(p, Step(p, s, labels[0]), labels[1..], id, slot);
    }
  }

  /** The statements of sign_contract are not a transaction: once a request has inserted its signature
      and stops before it writes the contract, no run whatever signs that contract. */
  lemma AbandonedForEver(p: Primitives, start: State, labels: seq<Label>, more: seq<Label>, id: string, slot: int)
    requires Run(p, start, labels) && AllSendable(more) && Abandoned(Exec(p, start, labels), id, slot)
    ensures var s := Exec(p, start, labels + more);
            Abandoned(s, id, slot) && s.tables.contracts[id].status != SIGNED
  {
    RunKeepsInv(p, start, labels);
    ExecAppend(p, start, labels, more);
    ExecKeepsAbandoned(p, Exec(p, start, labels), more, id, slot);
    ExecKeepsInv(p, Exec(p, start, labels), more);
    var s := Exec(p, start, labels + more);
    assert ContractInv(p, s.tables, id, s.tables.contracts[id], s.writers[id]);
    WritersAreSlots(p, s.tables, s.writers, id);
  }

  /** Stopping after the insert is how a slot gets abandoned. */
  lemma StopAbandons(p: Primitives, start: State, labels: seq<Label>, more: seq<Label>, k: int)
    requires Run(p, start, labels) && AllSendable(more)
    requires var s := Exec(p, start, labels); k in s.handlers && HasInserted(s.handlers[k].phase)
    ensures var id := Exec(p, start, labels).handlers[k].req.contractId;
            var t := Exec(p, start, labels + [Stop(k)] + more).tables;
            id in t.contracts && t.contracts[id].status != SIGNED
  {
    RunKeepsInv(p, start, labels);
    var s := Exec(p, start, labels);
    var h := s.handlers[k];
    assert HandlerInv(p, s.tables, s.writers, h);
    ExecAppend(p, start, labels, [Stop(k)]);
    assert [Stop(k)][1..] == [];
    assert Exec(p, Step(p, s, Stop(k)), []) == Step(p, s, Stop(k));
    assert AllSendable(labels + [Stop(k)]);
    assert Abandoned(Step(p, s, Stop(k)), h.req.contractId, h.req.slotId);
    AbandonedForEver(p, start, labels + [Stop(k)], more, h.req.contractId, h.req.slotId);
  }
}
