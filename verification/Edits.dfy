/** An admin changes a contract's text while handlers are under way, and the system runs on. */
module Edits {
  import opened Wrappers
  import opened Crypto
  import opened Tables
  import opened Signing
  import opened SigningInvariant
  import opened SigningTheorems
  import opened Verify
  import opened Authenticity

  /** The text changed and nothing else. */
  function Edited(s: State, id: string, content: string): State
    requires id in s.tables.contracts
  {
    var t := s.tables;
    s.(tables := t.(contracts := t.contracts[id := t.contracts[id].(content := content)]))
  }

  /** The handler had read the contract before the edit and was still under way. */
  predicate ReadBefore(s: State, k: int) {
    k in s.handlers && HasRead(s.handlers[k].phase)
  }

  predicate FinishedSince(s: State, k: int, phase: Phase) {
    phase.Finished? && !(k in s.handlers && s.handlers[k].phase.Finished?)
  }

  /** The text a handler of the contract works with. */
  function TextRead(s: State, k: int, before: string, after: string): string {
    if ReadBefore(s, k) then before else after
  }

  // ------------------------------------------------------- rows after the edit

  /** A handler of the contract, `s` being the state at the edit. */
  ghost predicate HandlerKnows(p: Primitives, s: State, h: Handler, k: int, id: string, before: string, after: string) {
    var ph := h.phase;
    && (ReadBefore(s, k) ==> !ph.ReadContract?)
    && (k in s.handlers && s.handlers[k].phase.Finished? ==> ph.Finished?)
    && (HasRead(ph) || FinishedSince(s, k, ph) ==> ph.contract.content == TextRead(s, k, before, after))
    && (HasRow(ph) || FinishedSince(s, k, ph) ==> ph.row.contractId == id && Genuine(p, ph.row, ph.contract.content))
  }

  /** Every row written by now is a genuine signature of the old text or of the new one. */
  ghost predicate RowsKnown(p: Primitives, t: Tables, old_: seq<Signature>, id: string, before: string, after: string) {
    forall row :: row in t.signatures && row !in old_ && row.contractId == id ==>
      Genuine(p, row, before) || Genuine(p, row, after)
  }

  ghost predicate EditInv(p: Primitives, s: State, u: State, old_: seq<Signature>, id: string, before: string,
                          after: string)
  {
    && id in u.tables.contracts && u.tables.contracts[id].content == after
    && (forall k :: k in s.handlers ==> k in u.handlers && u.handlers[k].req == s.handlers[k].req)
    && (forall k :: k in u.handlers && u.handlers[k].req.contractId == id ==>
          HandlerKnows(p, s, u.handlers[k], k, id, before, after))
    && (forall k :: k in u.handlers && HasRow(u.handlers[k].phase) ==>
          u.handlers[k].phase.row.contractId == u.handlers[k].req.contractId)
    && RowsKnown(p, u.tables, old_, id, before, after)
  }

  lemma SlotKnows(p: Primitives, t: Tables, h: Handler, draw: Draw, signed: Result<Signature, KeyError>)
    requires h.phase.ReadSlot?
    requires signed.Ok? ==> signed.value.contractId == h.req.contractId
                            && Genuine(p, signed.value, h.phase.contract.content)
    ensures var phase := AfterReadSlot(t, h.req, h.phase.contract, h.phase.seen, draw.checkedAt, signed);
            && !phase.ReadContract? && !phase.Finished?
            && (HasRead(phase) ==> HasRow(phase) && phase.contract == h.phase.contract)
            && (HasRow(phase) ==>
                  phase.row.contractId == h.req.contractId && Genuine(p, phase.row, h.phase.contract.content))
  {
  }

  /** What a statement does to the row and the copy a handler holds. */
  lemma PhaseKnows(p: Primitives, t: Tables, writes: nat, h: Handler, draw: Draw)
    requires Sound(p) && !h.phase.ReadSlot?
    ensures var phase := PhaseAfter(p, t, writes, h, draw);
            && (h.phase.Finished? ==> phase == h.phase)
            && (HasRow(phase) ==> HasRow(h.phase) && phase.row == h.phase.row)
            && (phase.Finished? && !h.phase.Finished? ==> HasRow(h.phase) && phase.row == h.phase.row)
            && ((HasRead(phase) || phase.Finished?) && !h.phase.ReadContract? && !h.phase.Finished? ==>
                  HasRead(h.phase) && phase.contract == h.phase.contract)
            && (HasRead(phase) && h.phase.ReadContract? ==>
                  h.req.contractId in t.contracts && phase.contract == t.contracts[h.req.contractId])
            && (phase.Finished? ==> !h.phase.ReadContract?)
            && (phase.ReadContract? ==> h.phase.ReadContract?)
  {
  }

  lemma ReadSlotPhase(p: Primitives, t: Tables, writes: nat, h: Handler, draw: Draw)
    requires Sound(p) && h.phase.ReadSlot?
    ensures var phase := PhaseAfter(p, t, writes, h, draw);
            && !phase.ReadContract? && !phase.Finished?
            && (HasRead(phase) ==> HasRow(phase) && phase.contract == h.phase.contract)
            && (HasRow(phase) ==>
                  phase.row.contractId == h.req.contractId && Genuine(p, phase.row, h.phase.contract.content))
  {
    var signed := NewRow(p, h.req, h.phase.contract, draw);
    NewRowGenuine(p, h.req, h.phase.contract, draw);
    NewRowFits(p, h.req, h.phase.contract, draw);
    SlotKnows(p, t, h, draw, signed);
  }

  lemma AdvanceKnows(p: Primitives, s: State, t: Tables, writes: nat, h: Handler, k: int, draw: Draw,
                     id: string, before: string, after: string)
    requires Sound(p) && id in t.contracts && t.contracts[id].content == after
    requires h.req.contractId == id && HandlerKnows(p, s, h, k, id, before, after)
    ensures HandlerKnows(p, s, Handler(h.req, PhaseAfter(p, t, writes, h, draw)), k, id, before, after)
  {
    if h.phase.ReadSlot? {
      ReadSlotPhase(p, t, writes, h, draw);
    } else {
      PhaseKnows(p, t, writes, h, draw);
    }
  }

  lemma AdvanceKeepsRowId(p: Primitives, t: Tables, writes: nat, h: Handler, draw: Draw)
    requires Sound(p) && (HasRow(h.phase) ==> h.phase.row.contractId == h.req.contractId)
    ensures var phase := PhaseAfter(p, t, writes, h, draw); HasRow(phase) ==> phase.row.contractId == h.req.contractId
  {
    if h.phase.ReadSlot? {
      ReadSlotPhase(p, t, writes, h, draw);
    } else {
      PhaseKnows(p, t, writes, h, draw);
    }
  }

  lemma AdvanceKeepsRows(p: Primitives, t: Tables, h: Handler, old_: seq<Signature>, id: string, before: string,
                         after: string)
    requires RowsKnown(p, t, old_, id, before, after) && id in t.contracts
    requires h.phase.InsertSignature? && h.phase.row.contractId == id ==>
               Genuine(p, h.phase.row, before) || Genuine(p, h.phase.row, after)
    ensures RowsKnown(p, TablesAfter(t, h), old_, id, before, after)
    ensures id in TablesAfter(t, h).contracts && TablesAfter(t, h).contracts[id].content == t.contracts[id].content
  {
    if h.phase.InsertSignature? && !Conflicts(t.signatures, h.phase.row) {
      assert forall x :: x in t.signatures + [h.phase.row] <==> x in t.signatures || x == h.phase.row;
    }
  }

  lemma AdvanceKeepsEditInv(p: Primitives, s: State, u: State, old_: seq<Signature>, k: int, draw: Draw,
                            id: string, before: string, after: string)
    requires Sound(p) && EditInv(p, s, u, old_, id, before, after) && k in u.handlers
    ensures EditInv(p, s, AdvanceHandler(p, u, k, draw), old_, id, before, after)
  {
    var h := u.handlers[k];
    var writes := |WritesOf(u.writers, h.req.contractId)|;
    AdvanceKeepsRowId(p, u.tables, writes, h, draw);
    if h.req.contractId == id {
      AdvanceKnows(p, s, u.tables, writes, h, k, draw, id, before, after);
    }
    AdvanceKeepsRows(p, u.tables, h, old_, id, before, after);
  }

  lemma CreateKeepsEditInv(p: Primitives, s: State, u: State, old_: seq<Signature>, l: Label,
                           id: string, before: string, after: string)
    requires EditInv(p, s, u, old_, id, before, after) && l.Create?
    ensures EditInv(p, s, Step(p, u, l), old_, id, before, after)
  {
    if l.slots != [] && FreshId(u.tables, l.id) {
      InsertSlotsKeepRest(
        u.tables.(contracts :=
                    u.tables.contracts[l.id := NewContract(l.customerId, l.content, l.expiresAt, |l.slots|)]),
        l.id, l.slots);
    }
  }

  lemma {:induction false} InsertSlotsKeepRest(t: Tables, id: string, defs: seq<SlotDefinition>)
    ensures InsertSlots(t, id, defs).contracts == t.contracts && InsertSlots(t, id, defs).signatures == t.signatures
  {
    if defs != [] {
      InsertSlotsKeepRest(t, id, defs[..|defs| - 1]);
    }
  }

  lemma BeginKeepsEditInv(p: Primitives, s: State, u: State, old_: seq<Signature>, l: Label,
                          id: string, before: string, after: string)
    requires EditInv(p, s, u, old_, id, before, after) && l.Begin?
    ensures EditInv(p, s, Step(p, u, l), old_, id, before, after)
  {
  }

  lemma StopKeepsEditInv(p: Primitives, s: State, u: State, old_: seq<Signature>, l: Label,
                         id: string, before: string, after: string)
    requires EditInv(p, s, u, old_, id, before, after) && l.Stop?
    ensures EditInv(p, s, Step(p, u, l), old_, id, before, after)
  {
  }

  lemma StepKeepsEditInv(p: Primitives, s: State, u: State, old_: seq<Signature>, l: Label,
                         id: string, before: string, after: string)
    requires Sound(p) && EditInv(p, s, u, old_, id, before, after)
    ensures EditInv(p, s, Step(p, u, l), old_, id, before, after)
  {
    match l
    case Create(_, _, _, _, _) => CreateKeepsEditInv(p, s, u, old_, l, id, before, after);
    case Begin(_, _) => BeginKeepsEditInv(p, s, u, old_, l, id, before, after);
    case Stop(_) => StopKeepsEditInv(p, s, u, old_, l, id, before, after);
    case Advance(k, draw) =>
      if k in u.handlers {
        AdvanceKeepsEditInv(p, s, u, old_, k, draw, id, before, after);
      }
  }

  lemma {:induction false} ExecKeepsEditInv(p: Primitives, s: State, u: State, old_: seq<Signature>, labels: seq<Label>,
                                            id: string, before: string, after: string)
    requires Sound(p) && EditInv(p, s, u, old_, id, before, after)
    ensures EditInv(p, s, Exec(p, u, labels), old_, id, before, after)
    decreases |labels|
  {
    if labels != [] {
      StepKeepsEditInv(p, s, u, old_, labels[0], id, before, after);
      ExecKeepsEditInv(p, s, Step(p, u, labels[0]), old_, labels[1..], id, before, after);
    }
  }

  /** The state at the edit. */
  lemma EditStarts(p: Primitives, s: State, old_: seq<Signature>, id: string, content: string)
    requires Inv(p, s) && id in s.tables.contracts
    requires RowsGenuine(p, s.tables, old_) && HandlersGenuine(p, s.handlers)
    ensures EditInv(p, s, Edited(s, id, content), old_, id, s.tables.contracts[id].content, content)
  {
    var before := s.tables.contracts[id].content;
    forall k | k in s.handlers
      ensures s.handlers[k].req.contractId == id ==> HandlerKnows(p, s, s.handlers[k], k, id, before, content)
      ensures HasRow(s.handlers[k].phase) ==> s.handlers[k].phase.row.contractId == s.handlers[k].req.contractId
    {
      assert HandlerInv(p, s.tables, s.writers, s.handlers[k]);
    }
  }

  lemma GenuineShown(p: Primitives, row: Signature, id: string, text: string, content: string)
    requires row.contractId == id && Genuine(p, row, text)
    ensures VerifyRow(p, id, content, row) == VerifiedSignature(row, true, p.sha256(content) != p.sha256(text))
  {
    EditedRow(p, row, id, text, content);
  }

  /** What the proof page shows after the edit of a row that was not there before the run. */
  ghost predicate RowShown(p: Primitives, s: State, row: Signature, id: string, before: string, content: string) {
    var shown := VerifyRow(p, id, content, row);
    && shown.valid
    && (shown.tampered ==> p.sha256(content) != p.sha256(before))
    && (row in s.tables.signatures ==> (shown.tampered <==> p.sha256(content) != p.sha256(before)))
  }

  lemma RowIsShown(p: Primitives, s: State, u: State, old_: seq<Signature>, id: string, content: string, row: Signature)
    requires id in s.tables.contracts && RowsGenuine(p, s.tables, old_)
    requires RowsKnown(p, u.tables, old_, id, s.tables.contracts[id].content, content)
    requires row in u.tables.signatures && row !in old_ && row.contractId == id
    ensures RowShown(p, s, row, id, s.tables.contracts[id].content, content)
  {
    var before := s.tables.contracts[id].content;
    if row in s.tables.signatures || Genuine(p, row, before) {
      GenuineShown(p, row, id, before, content);
    } else {
      GenuineShown(p, row, id, content, content);
    }
  }

  lemma RunGenuine(p: Primitives, start: State, labels: seq<Label>)
    requires Sound(p) && Run(p, start, labels)
    ensures var s := Exec(p, start, labels);
            Inv(p, s) && RowsGenuine(p, s.tables, start.tables.signatures) && HandlersGenuine(p, s.handlers)
  {
    RunKeepsInv(p, start, labels);
    ExecKeepsGenuine(p, start, start.tables.signatures, labels);
  }

  /** An edit in the middle of a run, with handlers under way that hold the old text. Afterwards the page
      shows every signature written since the start as valid. One stored by the time of the edit is shown as
      tampered, as is one whose handler read the contract before the edit, unless the texts collide; one
      whose handler read the new text is not. */
  lemma RowsAfterEdit(p: Primitives, start: State, labels: seq<Label>, id: string, content: string, more: seq<Label>)
    requires Sound(p) && Run(p, start, labels) && id in Exec(p, start, labels).tables.contracts
    ensures var s := Exec(p, start, labels);
            var u := Exec(p, Edited(s, id, content), more);
            var before := s.tables.contracts[id].content;
            && id in u.tables.contracts && u.tables.contracts[id].content == content
            && (forall row :: row in RowsOf(u.tables.signatures, id) && row !in start.tables.signatures ==>
                  RowShown(p, s, row, id, before, content))
            && (forall k :: k in u.handlers && u.handlers[k].req.contractId == id
                            && FinishedSince(s, k, u.handlers[k].phase) ==>
                  VerifyRow(p, id, content, u.handlers[k].phase.row) ==
                  VerifiedSignature(u.handlers[k].phase.row, true,
                                    ReadBefore(s, k) && p.sha256(content) != p.sha256(before)))
  {
    var s, old_ := Exec(p, start, labels), start.tables.signatures;
    var before := s.tables.contracts[id].content;
    RunGenuine(p, start, labels);
    EditStarts(p, s, old_, id, content);
    ExecKeepsEditInv(p, s, Edited(s, id, content), old_, more, id, before, content);
    var u := Exec(p, Edited(s, id, content), more);
    forall row | row in RowsOf(u.tables.signatures, id) && row !in old_
      ensures RowShown(p, s, row, id, before, content)
    {
      RowsOfMembers(u.tables.signatures, id, row);
      RowIsShown(p, s, u, old_, id, content, row);
    }
    forall k | k in u.handlers && u.handlers[k].req.contractId == id && FinishedSince(s, k, u.handlers[k].phase)
      ensures VerifyRow(p, id, content, u.handlers[k].phase.row) ==
              VerifiedSignature(u.handlers[k].phase.row, true,
                                ReadBefore(s, k) && p.sha256(content) != p.sha256(before))
    {
      GenuineShown(p, u.handlers[k].phase.row, id, TextRead(s, k, before, content), content);
    }
  }

  // ----------------------------------------------------- a signed contract, edited

  /** All slots signed, and no handler between its insert and its write: whatever the text, nothing more can
      be written to the contract. */
  ghost predicate Sealed(u: State, id: string) {
    && id in u.tables.contracts
    && (forall x :: x in u.tables.slots ==> x < u.tables.nextSlot)
    && SlotsOf(u.tables, id) <= SignedSlots(u.tables.signatures)
    && forall k :: k in u.handlers && HasRow(u.handlers[k].phase) ==> Fitting(u, u.handlers[k], id)
  }

  /** The row is for the handler's own contract and, on a sealed one, for a slot already signed. */
  predicate Fitting(u: State, h: Handler, id: string)
    requires HasRow(h.phase)
  {
    && h.phase.row.contractId == h.req.contractId
    && (h.req.contractId == id ==>
          !HasInserted(h.phase) && h.phase.row.slotId == InSlot(h.req.slotId) && h.req.slotId in SlotsOf(u.tables, id))
  }

  lemma SealedAtEdit(p: Primitives, s: State, id: string, content: string)
    requires Inv(p, s) && id in s.tables.contracts && s.tables.contracts[id].status == SIGNED
    ensures Sealed(Edited(s, id, content), id)
  {
    var u := Edited(s, id, content);
    assert SlotsOf(u.tables, id) == SlotsOf(s.tables, id);
    assert ContractInv(p, s.tables, id, s.tables.contracts[id], s.writers[id]);
    WritersAreSlots(p, s.tables, s.writers, id);
    CountsOrderedInv(p, s.tables, s.writers, id);
    SignedSlotsOfContract(s.tables, id);
    forall k | k in s.handlers && HasRow(s.handlers[k].phase)
      ensures Fitting(u, s.handlers[k], id)
    {
      assert HandlerInv(p, s.tables, s.writers, s.handlers[k]);
      if HasInserted(s.handlers[k].phase) {
        SignedHasNoLateWriter(p, s, k);
      }
    }
  }

  /** The contract's row, its slots and its signatures are as they were. */
  ghost predicate Untouched(t: Tables, t': Tables, id: string) {
    && id in t.contracts && id in t'.contracts && t'.contracts[id] == t.contracts[id]
    && RowsOf(t'.signatures, id) == RowsOf(t.signatures, id) && SlotsOf(t', id) == SlotsOf(t, id)
  }

  lemma SealedInsert(u: State, k: int, id: string)
    requires Sealed(u, id) && k in u.handlers && u.handlers[k].phase.InsertSignature?
    ensures var t := TablesAfter(u.tables, u.handlers[k]);
            Untouched(u.tables, t, id) && SignedSlots(u.tables.signatures) <= SignedSlots(t.signatures)
  {
    var h := u.handlers[k];
    assert Fitting(u, h, id);
    if h.req.contractId == id {
      ConflictOnSignedSlot(u.tables.signatures, h.phase.row);
    } else {
      RowsOfAppended(u.tables.signatures, h.phase.row, id);
      SignedSlotsAppended(u.tables.signatures, h.phase.row);
    }
    assert SlotsOf(TablesAfter(u.tables, h), id) == SlotsOf(u.tables, id);
  }

  lemma SealedTables(u: State, k: int, id: string)
    requires Sealed(u, id) && k in u.handlers
    ensures var t := TablesAfter(u.tables, u.handlers[k]);
            && Untouched(u.tables, t, id) && SignedSlots(u.tables.signatures) <= SignedSlots(t.signatures)
            && t.nextSlot == u.tables.nextSlot && t.slots.Keys == u.tables.slots.Keys
  {
    var h := u.handlers[k];
    if h.phase.InsertSignature? {
      SealedInsert(u, k, id);
    } else {
      assert HasInserted(h.phase) ==> Fitting(u, h, id);
      assert SlotsOf(TablesAfter(u.tables, h), id) == SlotsOf(u.tables, id);
    }
  }

  lemma SealedPhase(p: Primitives, u: State, k: int, draw: Draw, id: string)
    requires Sealed(u, id) && k in u.handlers
    ensures var h := u.handlers[k];
            var phase := PhaseAfter(p, u.tables, |WritesOf(u.writers, h.req.contractId)|, h, draw);
            HasRow(phase) ==> Fitting(u, Handler(h.req, phase), id)
  {
    var h := u.handlers[k];
    var writes := |WritesOf(u.writers, h.req.contractId)|;
    if h.phase.ReadSlot? {
      NewRowFits(p, h.req, h.phase.contract, draw);
      SealedRead(p, u, h, writes, draw, id, NewRow(p, h.req, h.phase.contract, draw));
    } else if h.phase.InsertSignature? {
      assert Fitting(u, h, id);
      SealedInsertPhase(p, u, h, writes, draw, id);
    } else {
      SealedOther(p, u, h, writes, draw, id);
    }
  }

  lemma SealedRead(p: Primitives, u: State, h: Handler, writes: nat, draw: Draw, id: string,
                   signed: Result<Signature, KeyError>)
    requires h.phase.ReadSlot?
    requires signed.Ok? ==> signed.value.contractId == h.req.contractId && signed.value.slotId == InSlot(h.req.slotId)
    ensures var phase := AfterReadSlot(u.tables, h.req, h.phase.contract, h.phase.seen, draw.checkedAt, signed);
            HasRow(phase) ==> Fitting(u, Handler(h.req, phase), id)
  {
  }

  lemma SealedInsertPhase(p: Primitives, u: State, h: Handler, writes: nat, draw: Draw, id: string)
    requires h.phase.InsertSignature? && Fitting(u, h, id) && SlotsOf(u.tables, id) <= SignedSlots(u.tables.signatures)
    ensures var phase := PhaseAfter(p, u.tables, writes, h, draw);
            HasRow(phase) ==> Fitting(u, Handler(h.req, phase), id)
  {
    if h.req.contractId == id {
      ConflictOnSignedSlot(u.tables.signatures, h.phase.row);
    }
  }

  lemma SealedOther(p: Primitives, u: State, h: Handler, writes: nat, draw: Draw, id: string)
    requires !h.phase.ReadSlot? && !h.phase.InsertSignature? && (HasRow(h.phase) ==> Fitting(u, h, id))
    ensures var phase := PhaseAfter(p, u.tables, writes, h, draw);
            HasRow(phase) ==> Fitting(u, Handler(h.req, phase), id)
  {
  }

  lemma SealedAdvance(p: Primitives, u: State, k: int, draw: Draw, id: string)
    requires Sealed(u, id) && k in u.handlers
    ensures var u' := AdvanceHandler(p, u, k, draw); Sealed(u', id) && Untouched(u.tables, u'.tables, id)
  {
    SealedTables(u, k, id);
    SealedPhase(p, u, k, draw, id);
  }

  lemma SealedCreate(p: Primitives, u: State, l: Label, id: string)
    requires Sealed(u, id) && Creates(u, l)
    ensures var u' := Step(p, u, l); Sealed(u', id) && Untouched(u.tables, u'.tables, id)
  {
    var t := u.tables;
    var made := t.(contracts := t.contracts[l.id := NewContract(l.customerId, l.content, l.expiresAt, |l.slots|)]);
    InsertSlotsAdds(made, l.id, l.slots);
    var t' := Step(p, u, l).tables;
    forall x
      ensures x in SlotsOf(t', id) <==> x in SlotsOf(t, id)
    {
    }
  }

  lemma SealedStep(p: Primitives, u: State, l: Label, id: string)
    requires Sealed(u, id)
    ensures var u' := Step(p, u, l); Sealed(u', id) && Untouched(u.tables, u'.tables, id)
  {
    if Creates(u, l) {
      SealedCreate(p, u, l, id);
    } else if l.Advance? && l.handler in u.handlers {
      SealedAdvance(p, u, l.handler, l.draw, id);
    }
  }

  lemma {:induction false} SealedForEver(p: Primitives, u: State, labels: seq<Label>, id: string)
    requires Sealed(u, id)
    ensures Untouched(u.tables, Exec(p, u, labels).tables, id)
    decreases |labels|
  {
    if labels != [] {
      SealedStep(p, u, labels[0], id);
      SealedForEver(p, Step(p, u, labels[0]), labels[1..], id);
    }
  }

  /** The text of a signed contract is edited and the system runs on: the row keeps its status, counts and
      hash, no signature is added, and every later page finds the final hash invalid, unless the two
      preimages, which differ, collide. */
  lemma SignedThenEdited(p: Primitives, start: State, labels: seq<Label>, id: string, content: string,
                         more: seq<Label>, code: string)
    requires Run(p, start, labels)
    requires var t := Exec(p, start, labels).tables;
             && id in t.contracts && t.contracts[id].status == SIGNED && content != t.contracts[id].content
    ensures var s := Exec(p, start, labels);
            var c, rows := s.tables.contracts[id], RowsOf(s.tables.signatures, id);
            var t := Exec(p, Edited(s, id, content), more).tables;
            var proof := VerifyContract(p, id, c.(content := content), rows, code);
            && id in t.contracts && t.contracts[id] == c.(content := content) && RowsOf(t.signatures, id) == rows
            && Preimage(content, Entries(rows)) != Preimage(c.content, Entries(rows))
            && (proof.Some? ==>
                  (proof.value.finalHashValid <==>
                     && !SignedWithoutHash(start.tables, id)
                     && p.sha256(Preimage(content, Entries(rows))) == p.sha256(Preimage(c.content, Entries(rows)))))
  {
    RunKeepsInv(p, start, labels);
    var s := Exec(p, start, labels);
    var c, rows := s.tables.contracts[id], RowsOf(s.tables.signatures, id);
    SealedAtEdit(p, s, id, content);
    SealedForEver(p, Edited(s, id, content), more, id);
    SignedIsComplete(p, start, labels, id);
    EditedHash(p, c, rows, content);
    ProofParts(p, id, c.(content := content), rows, code);
  }
}
