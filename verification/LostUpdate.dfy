/** The run in which two signers of a two-slot contract overlap: both get an answer, both slots are
    signed and filled, and the contract stays pending with one completed signature. */
module LostUpdate {
  import opened Wrappers
  import opened Hex
  import opened Crypto
  import opened Tables
  import opened Signing
  import opened SigningInvariant
  import opened SigningTheorems
  import opened Stranded

  const ID := "c"
  const CUSTOMER := "u"
  const CREATE := Create(ID, CUSTOMER, "text", None, [SlotDefinition(None, 0), SlotDefinition(None, 1)])

  function Req(slot: int): SignRequest {
    SignRequest(ID, slot, CUSTOMER, true, true)
  }

  /** Handler k signs slot k; the two take their statements in turn. */
  function Pair(one: Draw, two: Draw): seq<Label> {
    [Advance(1, one), Advance(2, two)]
  }

  function Interleaved(one: Draw, two: Draw): seq<Label> {
    [CREATE] + ([Begin(1, Req(1)), Begin(2, Req(2))]
                + (Pair(one, two) + (Pair(one, two) + (Pair(one, two) + (Pair(one, two) + Pair(one, two))))))
  }

  function PendingRow(completed: int): Contract {
    Contract(CUSTOMER, "text", None, PENDING, 2, completed, None)
  }

  lemma Two(p: Primitives, s: State, a: Label, b: Label)
    ensures Exec(p, s, [a, b]) == Step(p, Step(p, s, a), b)
  {
    assert [a, b][1..] == [b] && [b][1..] == [];
    assert Exec(p, s, [a, b]) == Exec(p, Step(p, s, a), [b]);
    assert Exec(p, Step(p, s, a), [b]) == Step(p, Step(p, s, a), b);
  }

  function Both(one: Phase, two: Phase): map<int, Handler> {
    map[1 := Handler(Req(1), one), 2 := Handler(Req(2), two)]
  }

  function Slots(filled: bool): map<int, Slot> {
    map[1 := Slot(ID, None, 0, filled), 2 := Slot(ID, None, 1, filled)]
  }

  function Row(p: Primitives, k: int, draw: Draw): Signature {
    var r := NewRow(p, Req(k), PendingRow(0), draw);
    if r.Ok? then r.value else Signature("", "", "", "", "", "", Unassigned)
  }

  lemma RowIsNew(p: Primitives, k: int, draw: Draw)
    ensures NewRow(p, Req(k), PendingRow(0), draw) == Ok(Row(p, k, draw))
    ensures Row(p, k, draw).verificationCode == draw.code && Row(p, k, draw).slotId == InSlot(k)
  {
    DecodeEncode(draw.key);
  }

  lemma CreateTwoSlots(p: Primitives)
    ensures Step(p, FRESH, CREATE) == State(Tables(map[ID := PendingRow(0)], Slots(false), [], 3), map[], map[ID := {}])
  {
    var defs := CREATE.slots;
    var t := EMPTY.(contracts := map[ID := PendingRow(0)]);
    assert defs[..1] == [SlotDefinition(None, 0)] && defs[..1][..0] == [];
    assert InsertSlots(t, ID, []) == t;
    assert InsertSlots(t, ID, defs[..1]) == t.(slots := map[1 := Slot(ID, None, 0, false)], nextSlot := 2);
    assert InsertSlots(t, ID, defs) == t.(slots := Slots(false), nextSlot := 3);
    assert EMPTY.contracts[ID := PendingRow(0)] == map[ID := PendingRow(0)];
  }

  lemma BothUpdated(one: Phase, two: Phase, phase: Phase)
    ensures Both(one, two)[1 := Handler(Req(1), phase)] == Both(phase, two)
    ensures Both(one, two)[2 := Handler(Req(2), phase)] == Both(one, phase)
  {
  }

  lemma FirstStep(p: Primitives, s: State, one: Draw, phase1: Phase, phase2: Phase)
    requires s.handlers == Both(phase1, phase2)
    ensures var h1 := Handler(Req(1), phase1);
            Step(p, s, Advance(1, one))
            == State(TablesAfter(s.tables, h1),
                     Both(PhaseAfter(p, s.tables, |WritesOf(s.writers, ID)|, h1, one), phase2),
                     WritersAfter(s.writers, h1))
  {
    BothUpdated(phase1, phase2, PhaseAfter(p, s.tables, |WritesOf(s.writers, ID)|, Handler(Req(1), phase1), one));
  }

  lemma SecondStep(p: Primitives, s: State, two: Draw, phase1: Phase, phase2: Phase)
    requires s.handlers == Both(phase1, phase2)
    ensures var h2 := Handler(Req(2), phase2);
            Step(p, s, Advance(2, two))
            == State(TablesAfter(s.tables, h2),
                     Both(phase1, PhaseAfter(p, s.tables, |WritesOf(s.writers, ID)|, h2, two)),
                     WritersAfter(s.writers, h2))
  {
    BothUpdated(phase1, phase2, PhaseAfter(p, s.tables, |WritesOf(s.writers, ID)|, Handler(Req(2), phase2), two));
  }

  /** One statement of handler 1, then one of handler 2. */
  lemma PairStep(p: Primitives, s: State, one: Draw, two: Draw, phase1: Phase, phase2: Phase)
    requires s.handlers == Both(phase1, phase2)
    ensures var h1, h2 := Handler(Req(1), phase1), Handler(Req(2), phase2);
            var t1, w1 := TablesAfter(s.tables, h1), WritersAfter(s.writers, h1);
            Exec(p, s, Pair(one, two))
            == State(TablesAfter(t1, h2),
                     Both(PhaseAfter(p, s.tables, |WritesOf(s.writers, ID)|, h1, one),
                          PhaseAfter(p, t1, |WritesOf(w1, ID)|, h2, two)),
                     WritersAfter(w1, h2))
  {
    Two(p, s, Advance(1, one), Advance(2, two));
    FirstStep(p, s, one, phase1, phase2);
    var s1 := Step(p, s, Advance(1, one));
    SecondStep(p, s1, two, s1.handlers[1].phase, phase2);
  }

  lemma BothBegin(p: Primitives, t: Tables, writers: map<string, set<int>>)
    ensures Exec(p, State(t, map[], writers), [Begin(1, Req(1)), Begin(2, Req(2))])
            == State(t, Both(ReadContract, ReadContract), writers)
  {
    Two(p, State(t, map[], writers), Begin(1, Req(1)), Begin(2, Req(2)));
  }

  /** Two handlers of the same contract read the same contract row. */
  lemma BothRead(p: Primitives, t: Tables, one: Draw, two: Draw)
    requires t.contracts == map[ID := PendingRow(0)] && one.customerExists && two.customerExists
    ensures var read := ReadSlot(PendingRow(0), 0);
            Exec(p, State(t, Both(ReadContract, ReadContract), map[ID := {}]), Pair(one, two))
                == State(t, Both(read, read), map[ID := {}])
  {
    var s, read := State(t, Both(ReadContract, ReadContract), map[ID := {}]), ReadSlot(PendingRow(0), 0);
    PairStep(p, s, one, two, ReadContract, ReadContract);
  }

  lemma Signs(p: Primitives, t: Tables, k: int, draw: Draw)
    requires (k == 1 || k == 2) && t.slots == Slots(false)
    ensures AfterReadSlot(t, Req(k), PendingRow(0), 0, draw.checkedAt, NewRow(p, Req(k), PendingRow(0), draw))
            == InsertSignature(PendingRow(0), 0, Row(p, k, draw), None)
  {
    RowIsNew(p, k, draw);
    assert !Expired(PendingRow(0), draw.checkedAt) && !IsLast(PendingRow(0));
  }

  lemma BothSign(p: Primitives, s: State, one: Draw, two: Draw, r1: Signature, r2: Signature)
    requires s.handlers == Both(ReadSlot(PendingRow(0), 0), ReadSlot(PendingRow(0), 0))
             && s.tables.slots == Slots(false)
    requires r1 == Row(p, 1, one) && r2 == Row(p, 2, two)
    ensures Exec(p, s, Pair(one, two))
            == s.(handlers := Both(InsertSignature(PendingRow(0), 0, r1, None),
                                   InsertSignature(PendingRow(0), 0, r2, None)))
  {
    Signs(p, s.tables, 1, one);
    Signs(p, s.tables, 2, two);
    PairStep(p, s, one, two, s.handlers[1].phase, s.handlers[2].phase);
  }

  lemma BothInsert(p: Primitives, s: State, one: Draw, two: Draw, r1: Signature, r2: Signature)
    requires s.handlers == Both(InsertSignature(PendingRow(0), 0, r1, None),
                                InsertSignature(PendingRow(0), 0, r2, None))
    requires s.tables.signatures == [] && Distinct(r1, r2)
    ensures Exec(p, s, Pair(one, two))
            == s.(tables := s.tables.(signatures := [r1, r2]),
                  handlers := Both(MarkFilled(PendingRow(0), 0, r1, None), MarkFilled(PendingRow(0), 0, r2, None)))
  {
    assert [] + [r1] == [r1] && [r1] + [r2] == [r1, r2];
    assert !Conflicts([], r1) && !Conflicts([r1], r2);
    PairStep(p, s, one, two, s.handlers[1].phase, s.handlers[2].phase);
  }

  lemma BothFill(p: Primitives, s: State, one: Draw, two: Draw, r1: Signature, r2: Signature)
    requires s.handlers == Both(MarkFilled(PendingRow(0), 0, r1, None), MarkFilled(PendingRow(0), 0, r2, None))
    requires s.tables.slots == Slots(false)
    ensures Exec(p, s, Pair(one, two))
            == s.(tables := s.tables.(slots := Slots(true)),
                  handlers := Both(WriteContract(PendingRow(0), 0, r1, None),
                                   WriteContract(PendingRow(0), 0, r2, None)))
  {
    var s1 := s.(tables := WithFilled(s.tables, 1));
    assert WithFilled(s1.tables, 2).slots == Slots(true);
    PairStep(p, s, one, two, s.handlers[1].phase, s.handlers[2].phase);
  }

  lemma WritesOne(t: Tables)
    requires t.contracts == map[ID := PendingRow(0)] || t.contracts == map[ID := PendingRow(1)]
    ensures WithProgress(t, ID, 1, false, None) == t.(contracts := map[ID := PendingRow(1)])
  {
    assert WithProgress(t, ID, 1, false, None).contracts == map[ID := PendingRow(1)];
  }

  lemma BothWrite(p: Primitives, s: State, one: Draw, two: Draw, r1: Signature, r2: Signature)
    requires s.handlers == Both(WriteContract(PendingRow(0), 0, r1, None), WriteContract(PendingRow(0), 0, r2, None))
    requires s.tables.contracts == map[ID := PendingRow(0)] && s.writers == map[ID := {}]
    ensures Exec(p, s, Pair(one, two))
            == State(s.tables.(contracts := map[ID := PendingRow(1)]),
                     Both(Finished(PendingRow(0), 0, r1, 0), Finished(PendingRow(0), 0, r2, 1)),
                     map[ID := {1, 2}])
  {
    var t' := s.tables.(contracts := map[ID := PendingRow(1)]);
    assert {} + {1} == {1} && {1} + {2} == {1, 2} && |{1}| == 1;
    assert s.writers[ID := {1}] == map[ID := {1}] && map[ID := {1}][ID := {1, 2}] == map[ID := {1, 2}];
    WritesOne(s.tables);
    WritesOne(t');
    PairStep(p, s, one, two, s.handlers[1].phase, s.handlers[2].phase);
  }

  /** The interleaving up to both inserts. */
  function HalfWay(one: Draw, two: Draw): seq<Label> {
    [CREATE] + ([Begin(1, Req(1)), Begin(2, Req(2))] + (Pair(one, two) + (Pair(one, two) + Pair(one, two))))
  }

  lemma EndOfHalf(p: Primitives, one: Draw, two: Draw, r1: Signature, r2: Signature)
    requires one.customerExists && two.customerExists && one.code != two.code
    requires r1 == Row(p, 1, one) && r2 == Row(p, 2, two)
    ensures Exec(p, FRESH, HalfWay(one, two))
            == State(Tables(map[ID := PendingRow(0)], Slots(false), [r1, r2], 3),
                     Both(MarkFilled(PendingRow(0), 0, r1, None), MarkFilled(PendingRow(0), 0, r2, None)),
                     map[ID := {}])
  {
    var pair := Pair(one, two);
    var begin := [Begin(1, Req(1)), Begin(2, Req(2))];
    RowIsNew(p, 1, one);
    RowIsNew(p, 2, two);
    var t := Tables(map[ID := PendingRow(0)], Slots(false), [], 3);
    CreateTwoSlots(p);
    var s1 := State(t, map[], map[ID := {}]);
    BothBegin(p, t, s1.writers);
    BothRead(p, t, one, two);
    var s2 := State(t, Both(ReadContract, ReadContract), map[ID := {}]);
    var s3 := State(t, Both(ReadSlot(PendingRow(0), 0), ReadSlot(PendingRow(0), 0)), map[ID := {}]);
    BothSign(p, s3, one, two, r1, r2);
    var s4 := Exec(p, s3, pair);
    BothInsert(p, s4, one, two, r1, r2);
    ExecAppend(p, s3, pair, pair);
    ExecAppend(p, s2, pair, pair + pair);
    ExecAppend(p, s1, begin, pair + (pair + pair));
    assert HalfWay(one, two)[1..] == begin + (pair + (pair + pair));
  }

  lemma SecondHalf(p: Primitives, s: State, one: Draw, two: Draw, r1: Signature, r2: Signature)
    requires s == State(Tables(map[ID := PendingRow(0)], Slots(false), [r1, r2], 3),
                        Both(MarkFilled(PendingRow(0), 0, r1, None), MarkFilled(PendingRow(0), 0, r2, None)),
                        map[ID := {}])
    ensures Exec(p, s, Pair(one, two) + Pair(one, two))
            == State(Tables(map[ID := PendingRow(1)], Slots(true), [r1, r2], 3),
                     Both(Finished(PendingRow(0), 0, r1, 0), Finished(PendingRow(0), 0, r2, 1)),
                     map[ID := {1, 2}])
  {
    BothFill(p, s, one, two, r1, r2);
    BothWrite(p, Exec(p, s, Pair(one, two)), one, two, r1, r2);
    ExecAppend(p, s, Pair(one, two), Pair(one, two));
  }

  lemma Halves(one: Draw, two: Draw)
    ensures Interleaved(one, two) == HalfWay(one, two) + (Pair(one, two) + Pair(one, two))
  {
  }

  /** The state the interleaving ends in. */
  lemma EndOfInterleaving(p: Primitives, one: Draw, two: Draw, r1: Signature, r2: Signature)
    requires one.customerExists && two.customerExists && one.code != two.code
    requires r1 == Row(p, 1, one) && r2 == Row(p, 2, two)
    ensures Exec(p, FRESH, Interleaved(one, two))
            == State(Tables(map[ID := PendingRow(1)], Slots(true), [r1, r2], 3),
                     Both(Finished(PendingRow(0), 0, r1, 0), Finished(PendingRow(0), 0, r2, 1)),
                     map[ID := {1, 2}])
  {
    var s := Exec(p, FRESH, HalfWay(one, two));
    EndOfHalf(p, one, two, r1, r2);
    SecondHalf(p, s, one, two, r1, r2);
    Halves(one, two);
    ExecAppend(p, FRESH, HalfWay(one, two), Pair(one, two) + Pair(one, two));
  }

  lemma EndFacts(s: State, r1: Signature, r2: Signature)
    requires s == State(Tables(map[ID := PendingRow(1)], Slots(true), [r1, r2], 3),
                        Both(Finished(PendingRow(0), 0, r1, 0), Finished(PendingRow(0), 0, r2, 1)),
                        map[ID := {1, 2}])
    ensures FinishedOn(s.handlers, ID) == {1, 2}
    ensures FilledSlots(s.tables, ID) == SlotsOf(s.tables, ID) == {1, 2}
    ensures Behind(s, ID)
  {
    assert |{1, 2}| == 2;
  }

  lemma InterleavedSendable(one: Draw, two: Draw)
    ensures AllSendable(Interleaved(one, two))
  {
  }

  /** Both signers finish, every slot is filled and signed, yet one of two signatures is counted and
      the contract is not signed, nor will it be, whatever runs afterwards. */
  lemma OverlapLosesOne(p: Primitives, one: Draw, two: Draw, more: seq<Label>)
    requires one.customerExists && two.customerExists && one.code != two.code && AllSendable(more)
    ensures var s := Exec(p, FRESH, Interleaved(one, two));
            && FinishedOn(s.handlers, ID) == {1, 2}
            && FilledSlots(s.tables, ID) == SlotsOf(s.tables, ID) == {1, 2}
            && ID in s.tables.contracts && s.tables.contracts[ID].required == 2
            && s.tables.contracts[ID].completed == 1
            && s.tables.contracts[ID].status == PENDING
    ensures var t := Exec(p, FRESH, Interleaved(one, two) + more).tables;
            ID in t.contracts && t.contracts[ID].status != SIGNED
  {
    var r1, r2 := Row(p, 1, one), Row(p, 2, two);
    EndOfInterleaving(p, one, two, r1, r2);
    EndFacts(Exec(p, FRESH, Interleaved(one, two)), r1, r2);
    InterleavedSendable(one, two);
    FreshAtRest(p);
    LostForEver(p, FRESH, Interleaved(one, two), more, ID);
  }

  lemma HalfWaySendable(one: Draw, two: Draw)
    ensures AllSendable(HalfWay(one, two))
  {
  }

  lemma FirstInFlight(s: State, r1: Signature, r2: Signature)
    requires s.handlers == Both(MarkFilled(PendingRow(0), 0, r1, None), MarkFilled(PendingRow(0), 0, r2, None))
    ensures 1 in s.handlers && HasInserted(s.handlers[1].phase) && s.handlers[1].req.contractId == ID
  {
  }

  /** A signer that stops after its insert leaves a contract nothing can sign. */
  lemma StoppedSigner(p: Primitives, one: Draw, two: Draw, more: seq<Label>)
    requires one.customerExists && two.customerExists && one.code != two.code && AllSendable(more)
    ensures var s := Exec(p, FRESH, HalfWay(one, two)); 1 in s.handlers && HasInserted(s.handlers[1].phase)
    ensures var t := Exec(p, FRESH, HalfWay(one, two) + [Stop(1)] + more).tables;
            ID in t.contracts && t.contracts[ID].status != SIGNED
  {
    EndOfHalf(p, one, two, Row(p, 1, one), Row(p, 2, two));
    FirstInFlight(Exec(p, FRESH, HalfWay(one, two)), Row(p, 1, one), Row(p, 2, two));
    FreshAtRest(p);
    HalfWaySendable(one, two);
    StopAbandons(p, FRESH, HalfWay(one, two), more, 1);
  }
}
