/** migrations/2026-05-02-124913-0002: contracts of the one-signature schema get their slot. */
module Migration {
  import opened Wrappers
  import opened Rfc3339
  import opened Crypto
  import opened Tables
  import opened Signing
  import opened SigningInvariant
  import opened SigningTheorems
  import opened Stranded
  import opened Signable
  import opened Expiry
  import Database

  // ------------------------------------------------------------- statements

  function LegacySlot(t: Tables, id: string): Slot
    requires id in t.contracts
  {
    Slot(id, None, 0, t.contracts[id].status == SIGNED)
  }

  /** Step 1, for contracts read in the given order. */
  function InsertLegacySlots(t: Tables, order: seq<string>): (u: Tables)
    requires forall id :: id in order ==> id in t.contracts
    ensures u.contracts == t.contracts && u.signatures == t.signatures
  {
    if order == [] then t
    else
      var u := InsertLegacySlots(t, order[..|order| - 1]);
      u.(slots := u.slots[u.nextSlot := LegacySlot(t, order[|order| - 1])], nextSlot := u.nextSlot + 1)
  }

  /** The subquery of step 2: the first slot of a contract, or NULL. */
  function FirstSlot(t: Tables, id: string, from: int): SlotRef
    decreases t.nextSlot - from
  {
    if from >= t.nextSlot then Unassigned
    else if from in t.slots && t.slots[from].contractId == id then InSlot(from)
    else FirstSlot(t, id, from + 1)
  }

  function Linked(t: Tables, row: Signature): Signature {
    if row.slotId == Unassigned then row.(slotId := FirstSlot(t, row.contractId, 1)) else row
  }

  function LinkAll(t: Tables): seq<Signature> {
    seq(|t.signatures|, i requires 0 <= i < |t.signatures| => Linked(t, t.signatures[i]))
  }

  function Counted(c: Contract): Contract {
    c.(required := 1, completed := if c.status == SIGNED then 1 else 0)
  }

  function CountAll(contracts: map<string, Contract>): map<string, Contract> {
    map id | id in contracts :: Counted(contracts[id])
  }

  /** The tables after the three statements, if the second keeps the UNIQUE index. */
  function Migrated(t: Tables, order: seq<string>): Tables
    requires forall id :: id in order ==> id in t.contracts
  {
    var u := InsertLegacySlots(t, order);
    Tables(CountAll(u.contracts), u.slots, LinkAll(u), u.nextSlot)
  }

  predicate SlotTaken(rows: seq<Signature>, row: Signature) {
    row.slotId.InSlot? && exists i :: 0 <= i < |rows| && rows[i].slotId == row.slotId
  }

  predicate SlotsUnique(rows: seq<Signature>) {
    forall i, j :: 0 <= i < j < |rows| && rows[i].slotId.InSlot? ==> rows[i].slotId != rows[j].slotId
  }

  // -------------------------------------------------------- the legacy schema

  /** Distinct ids of all the contracts, in the order the INSERT reads them. */
  ghost predicate Enumerates(contracts: map<string, Contract>, order: seq<string>) {
    && (forall id :: id in order <==> id in contracts)
    && forall i, j :: 0 <= i < j < |order| ==> order[i] != order[j]
  }

  /** What the earlier migrations and the one-signature handlers leave behind: a contract is marked
      signed only after its signature was stored. */
  predicate Legacy(t: Tables) {
    && t.slots == map[] && t.nextSlot == 1
    && (forall row :: row in t.signatures ==> row.slotId == Unassigned)
    && (forall i, j :: 0 <= i < j < |t.signatures| ==>
          t.signatures[i].verificationCode != t.signatures[j].verificationCode)
    && (forall id :: id in t.contracts ==> t.contracts[id].finalHash == None)
    && (forall id :: id in t.contracts && t.contracts[id].status == SIGNED ==> HasSignature(t, id))
  }

  predicate HasSignature(t: Tables, id: string) {
    exists i :: 0 <= i < |t.signatures| && t.signatures[i].contractId == id
  }

  /** The index idx_unique_contract_signature, as far as existing contracts go. */
  predicate OnePerContract(t: Tables) {
    forall i, j :: 0 <= i < j < |t.signatures| && t.signatures[i].contractId in t.contracts ==>
      t.signatures[i].contractId != t.signatures[j].contractId
  }

  // ------------------------------------------------------------ the migration

  /** A broken UNIQUE index rolls everything back. */
  method Up(db: Database.Store, order: seq<string>) returns (done: bool)
    requires Enumerates(db.contracts, order)
    modifies db
    ensures done <==> SlotsUnique(old(Migrated(db.State(), order)).signatures)
    ensures db.State() == if done then old(Migrated(db.State(), order)) else old(db.State())
  {
    ghost var before := db.State();
    var contracts, slots, nextSlot := db.contracts, db.slots, db.nextSlot;
    for i := 0 to |order|
      invariant InsertLegacySlots(before, order[..i]) == Tables(contracts, slots, before.signatures, nextSlot)
    {
      assert order[..i + 1][..i] == order[..i];
      slots := slots[nextSlot := Slot(order[i], None, 0, contracts[order[i]].status == SIGNED)];
      nextSlot := nextSlot + 1;
    }
    assert order[..|order|] == order;
    var seen := Tables(contracts, slots, db.signatures, nextSlot);
    assert seen == InsertLegacySlots(before, order);
    var rows: seq<Signature> := [];
    ghost var all := LinkAll(seen);
    for i := 0 to |db.signatures|
      invariant rows == all[..i] && SlotsUnique(rows)
      invariant db.State() == before
    {
      var row := Linked(seen, db.signatures[i]);
      assert all[i] == row && all[..i + 1] == all[..i] + [all[i]];
      if SlotTaken(rows, row) {
        return false;
      }
      rows := rows + [row];
    }
    assert all[..|all|] == all;
    db.contracts, db.slots, db.signatures, db.nextSlot := CountAll(contracts), slots, rows, nextSlot;
    done := true;
  }

  // ----------------------------------------------------------------- theorems

  lemma {:induction false} SlotsInserted(t: Tables, order: seq<string>)
    requires t.slots == map[] && t.nextSlot == 1
    requires forall id :: id in order ==> id in t.contracts
    ensures var u := InsertLegacySlots(t, order);
            && u.nextSlot == 1 + |order|
            && (forall s :: s in u.slots <==> 1 <= s <= |order|)
            && (forall s :: 1 <= s <= |order| ==> u.slots[s] == LegacySlot(t, order[s - 1]))
  {
    if order != [] {
      SlotsInserted(t, order[..|order| - 1]);
    }
  }

  lemma SlotsOfNumber(t: Tables, order: seq<string>, u: Tables, k: nat)
    requires Enumerates(t.contracts, order) && k < |order|
    requires forall s :: s in u.slots <==> 1 <= s <= |order|
    requires forall s :: 1 <= s <= |order| ==> u.slots[s] == LegacySlot(t, order[s - 1])
    ensures SlotsOf(u, order[k]) == {k + 1}
  {
    forall s | s in SlotsOf(u, order[k])
      ensures s == k + 1
    {
      assert order[s - 1] == order[k];
    }
    assert u.slots[k + 1] == LegacySlot(t, order[k]);
  }

  /** Contract number `k` has exactly the slot `k + 1`, and the subquery finds it. */
  lemma OwnSlot(t: Tables, order: seq<string>, k: nat)
    requires t.slots == map[] && t.nextSlot == 1 && Enumerates(t.contracts, order) && k < |order|
    ensures SlotsOf(InsertLegacySlots(t, order), order[k]) == {k + 1}
    ensures FirstSlot(InsertLegacySlots(t, order), order[k], 1) == InSlot(k + 1)
  {
    SlotsInserted(t, order);
    var u := InsertLegacySlots(t, order);
    SlotsOfNumber(t, order, u, k);
    OnlySlotFound(u, order[k], k + 1, 1);
  }

  lemma {:induction false} OnlySlotFound(t: Tables, id: string, slot: int, from: int)
    requires SlotsOf(t, id) == {slot} && from <= slot < t.nextSlot
    ensures FirstSlot(t, id, from) == InSlot(slot)
    decreases slot - from
  {
    assert slot in SlotsOf(t, id);
    if from < slot {
      assert from !in SlotsOf(t, id);
      OnlySlotFound(t, id, slot, from + 1);
    }
  }

  lemma {:induction false} NoSlotFound(t: Tables, id: string, from: int)
    requires SlotsOf(t, id) == {}
    ensures FirstSlot(t, id, from) == Unassigned
    decreases t.nextSlot - from
  {
    if from < t.nextSlot {
      assert from !in SlotsOf(t, id);
      NoSlotFound(t, id, from + 1);
    }
  }

  /** Each contract has exactly one slot, filled if it was signed, and its counts say so. */
  lemma OneSlotEach(t: Tables, order: seq<string>, id: string)
    requires Legacy(t) && Enumerates(t.contracts, order) && id in t.contracts
    ensures var m := Migrated(t, order);
            && id in m.contracts && |SlotsOf(m, id)| == 1
            && (forall x :: x in SlotsOf(m, id) ==> m.slots[x] == Slot(id, None, 0, t.contracts[id].status == "signed"))
            && m.contracts[id] == t.contracts[id].(required := |SlotsOf(m, id)|, completed := |FilledSlots(m, id)|)
            && (FilledSlots(m, id) == if t.contracts[id].status == SIGNED then SlotsOf(m, id) else {})
  {
    var k :| 0 <= k < |order| && order[k] == id;
    OwnSlot(t, order, k);
    SlotsInserted(t, order);
    var m, u := Migrated(t, order), InsertLegacySlots(t, order);
    assert SlotsOf(m, id) == SlotsOf(u, id) == {k + 1};
    assert m.slots[k + 1] == LegacySlot(t, order[k]);
    forall s | s in FilledSlots(m, id)
      ensures s in SlotsOf(m, id)
    {
    }
    if t.contracts[id].status == SIGNED {
      assert k + 1 in FilledSlots(m, id);
      assert FilledSlots(m, id) == {k + 1};
    } else {
      assert k + 1 !in FilledSlots(m, id);
      assert FilledSlots(m, id) == {};
    }
  }

  /** Each signature refers to the slot of its own contract; one whose contract is gone keeps NULL. */
  lemma OwnSlotEach(t: Tables, order: seq<string>, i: nat)
    requires Legacy(t) && Enumerates(t.contracts, order) && i < |t.signatures|
    ensures var m := Migrated(t, order);
            var row, id := m.signatures[i], t.signatures[i].contractId;
            && |m.signatures| == |t.signatures|
            && row == t.signatures[i].(slotId := row.slotId)
            && (row.slotId.InSlot? <==> id in t.contracts)
            && (row.slotId.InSlot? ==> row.slotId.id in m.slots && SlotsOf(m, id) == {row.slotId.id})
  {
    var m, u := Migrated(t, order), InsertLegacySlots(t, order);
    var id := t.signatures[i].contractId;
    assert t.signatures[i] in t.signatures;
    SlotsInserted(t, order);
    assert SlotsOf(m, id) == SlotsOf(u, id);
    if id in t.contracts {
      var k :| 0 <= k < |order| && order[k] == id;
      OwnSlot(t, order, k);
    } else {
      forall s | s in u.slots
        ensures u.slots[s].contractId in t.contracts
      {
        assert u.slots[s] == LegacySlot(t, order[s - 1]);
        assert order[s - 1] in order;
      }
      assert SlotsOf(u, id) == {};
      NoSlotFound(u, id, 1);
    }
  }

  /** Step 2 keeps UNIQUE slot_id exactly when no existing contract has two signatures, which is what
      the index dropped by the migration before it had enforced. */
  lemma UniqueExactly(t: Tables, order: seq<string>)
    requires Legacy(t) && Enumerates(t.contracts, order)
    ensures SlotsUnique(Migrated(t, order).signatures) <==> OnePerContract(t)
  {
    var m := Migrated(t, order);
    forall i, j | 0 <= i < j < |t.signatures|
      ensures (m.signatures[i].slotId.InSlot? && m.signatures[i].slotId == m.signatures[j].slotId) <==>
              (t.signatures[i].contractId in t.contracts && t.signatures[i].contractId == t.signatures[j].contractId)
    {
      SameSlotExactly(t, order, i, j);
    }
    assert |m.signatures| == |t.signatures|;
  }

  lemma SameSlotExactly(t: Tables, order: seq<string>, i: nat, j: nat)
    requires Legacy(t) && Enumerates(t.contracts, order) && i < j < |t.signatures|
    ensures var m := Migrated(t, order);
            (m.signatures[i].slotId.InSlot? && m.signatures[i].slotId == m.signatures[j].slotId) <==>
            (t.signatures[i].contractId in t.contracts && t.signatures[i].contractId == t.signatures[j].contractId)
  {
    OwnSlotEach(t, order, i);
    OwnSlotEach(t, order, j);
    var m := Migrated(t, order);
    var r := m.signatures[i].slotId;
    if r.InSlot? && r == m.signatures[j].slotId {
      assert r.id in SlotsOf(m, t.signatures[i].contractId) && r.id in SlotsOf(m, t.signatures[j].contractId);
    }
  }

  lemma SlotOwners(t: Tables, order: seq<string>, s: int)
    requires Legacy(t) && Enumerates(t.contracts, order) && s in Migrated(t, order).slots
    ensures var m := Migrated(t, order);
            && s < m.nextSlot && m.slots[s].contractId in m.contracts
            && (m.slots[s].isFilled ==> s in SignedSlots(m.signatures))
  {
    var m := Migrated(t, order);
    SlotsInserted(t, order);
    assert m.slots[s] == LegacySlot(t, order[s - 1]);
    var id := order[s - 1];
    assert id in order;
    if m.slots[s].isFilled {
      assert HasSignature(t, id);
      SignatureSigns(t, order, id);
      assert s in SlotsOf(m, id);
    }
  }

  /** A signature of an existing contract signs that contract's slot. */
  lemma SignatureSigns(t: Tables, order: seq<string>, id: string)
    requires Legacy(t) && Enumerates(t.contracts, order) && id in t.contracts && HasSignature(t, id)
    ensures SlotsOf(Migrated(t, order), id) <= SignedSlots(Migrated(t, order).signatures)
  {
    var m := Migrated(t, order);
    var i :| 0 <= i < |t.signatures| && t.signatures[i].contractId == id;
    OwnSlotEach(t, order, i);
    SignedSlotsMembers(m.signatures, m.signatures[i].slotId.id);
  }

  lemma MigratedLinked(t: Tables, order: seq<string>)
    requires Legacy(t) && OnePerContract(t) && Enumerates(t.contracts, order)
    ensures RowsLinked(Migrated(t, order))
  {
    var m := Migrated(t, order);
    forall i, j | 0 <= i < j < |m.signatures|
      ensures Distinct(m.signatures[i], m.signatures[j])
    {
      OwnSlotEach(t, order, i);
      OwnSlotEach(t, order, j);
      UniqueExactly(t, order);
    }
    forall row | row in m.signatures
      ensures row.slotId.InSlot? ==> row.slotId.id in m.slots && m.slots[row.slotId.id].contractId == row.contractId
      ensures row.contractId in m.contracts ==> row.slotId.InSlot?
    {
      var i :| 0 <= i < |m.signatures| && m.signatures[i] == row;
      OwnSlotEach(t, order, i);
      assert row.slotId.InSlot? ==> row.slotId.id in SlotsOf(m, row.contractId);
    }
    forall s | s in m.slots
      ensures s < m.nextSlot && m.slots[s].contractId in m.contracts
      ensures m.slots[s].isFilled ==> s in SignedSlots(m.signatures)
    {
      SlotOwners(t, order, s);
    }
  }

  /** The filled slots count as written. */
  function LegacyWriters(t: Tables): map<string, set<int>> {
    map id | id in t.contracts :: FilledSlots(t, id)
  }

  function MigratedState(t: Tables, order: seq<string>): State
    requires forall id :: id in order ==> id in t.contracts
  {
    State(Migrated(t, order), map[], LegacyWriters(Migrated(t, order)))
  }

  /** The migrated tables are a starting point of the signing protocol, so all that holds of runs of
      the protocol holds from there on. */
  lemma MigrationStartsRuns(p: Primitives, t: Tables, order: seq<string>)
    requires Legacy(t) && OnePerContract(t) && Enumerates(t.contracts, order)
    ensures AtRest(p, MigratedState(t, order))
  {
    MigratedLinked(t, order);
    var m := Migrated(t, order);
    var writers := LegacyWriters(m);
    forall id | id in m.contracts
      ensures ContractInv(p, m, id, m.contracts[id], writers[id]) && m.contracts[id].completed == |writers[id]|
    {
      OneSlotEach(t, order, id);
    }
  }

  /** After the migration and any run, the contracts signed without a final hash are exactly those that
      were signed before: every other one gets its hash when it is signed. */
  lemma HashMissingIsLegacy(p: Primitives, t: Tables, order: seq<string>, labels: seq<Label>, id: string)
    requires Legacy(t) && OnePerContract(t) && Enumerates(t.contracts, order) && AllSendable(labels)
    ensures SignedWithoutHash(Exec(p, MigratedState(t, order), labels).tables, id) <==>
            id in t.contracts && t.contracts[id].status == SIGNED
  {
    MigrationStartsRuns(p, t, order);
    HashMissingExactly(p, MigratedState(t, order), labels, id);
    if id in t.contracts {
      OneSlotEach(t, order, id);
    }
  }

  lemma NeverSigned(p: Primitives, start: State, labels: seq<Label>, id: string, slot: int)
    requires AtRest(p, start) && AllSendable(labels) && Abandoned(start, id, slot)
    ensures var end := Exec(p, start, labels).tables; id in end.contracts && end.contracts[id].status != SIGNED
  {
    assert Exec(p, start, []) == start;
    assert [] + labels == labels;
    AbandonedForEver(p, start, [], labels, id, slot);
  }

  lemma HalfSignedIsAbandoned(t: Tables, order: seq<string>, id: string)
    requires Legacy(t) && Enumerates(t.contracts, order)
    requires id in t.contracts && t.contracts[id].status != SIGNED && HasSignature(t, id)
    ensures exists slot :: Abandoned(MigratedState(t, order), id, slot)
  {
    OneSlotEach(t, order, id);
    SignatureSigns(t, order, id);
    var start := MigratedState(t, order);
    var i :| 0 <= i < |t.signatures| && t.signatures[i].contractId == id;
    OwnSlotEach(t, order, i);
    var slot := start.tables.signatures[i].slotId.id;
    assert slot in SlotsOf(start.tables, id);
    assert slot !in start.writers[id];
    assert Abandoned(start, id, slot);
  }

  /** A contract whose old handler stored the signature and stopped before marking it signed comes out
      of the migration with a slot that can never be filled: no run signs it. */
  lemma HalfSignedForEver(p: Primitives, t: Tables, order: seq<string>, labels: seq<Label>, id: string)
    requires Legacy(t) && OnePerContract(t) && Enumerates(t.contracts, order) && AllSendable(labels)
    requires id in t.contracts && t.contracts[id].status != SIGNED && HasSignature(t, id)
    ensures var end := Exec(p, MigratedState(t, order), labels).tables;
            id in end.contracts && end.contracts[id].status != SIGNED
  {
    var start := MigratedState(t, order);
    MigrationStartsRuns(p, t, order);
    HalfSignedIsAbandoned(t, order, id);
    var slot :| Abandoned(start, id, slot);
    NeverSigned(p, start, labels, id, slot);
  }

  lemma MigratedRows(t: Tables, order: seq<string>, id: string)
    requires Legacy(t) && Enumerates(t.contracts, order)
    ensures RowsOf(Migrated(t, order).signatures, id) == [] <==> !HasSignature(t, id)
  {
    var m := Migrated(t, order);
    var rows := RowsOf(m.signatures, id);
    if HasSignature(t, id) {
      var i :| 0 <= i < |t.signatures| && t.signatures[i].contractId == id;
      OwnSlotEach(t, order, i);
      RowsOfMembers(m.signatures, id, m.signatures[i]);
    } else if rows != [] {
      RowsOfMembers(m.signatures, id, rows[0]);
      var i :| 0 <= i < |m.signatures| && m.signatures[i] == rows[0];
      OwnSlotEach(t, order, i);
    }
  }

  /** After the migration a pending contract can be signed from a given time on exactly when it had no
      signature row before and has not expired. */
  lemma MigratedSignableExactly(p: Primitives, t: Tables, order: seq<string>, id: string, now: Instant)
    requires Legacy(t) && OnePerContract(t) && Enumerates(t.contracts, order)
    requires id in t.contracts && t.contracts[id].status == PENDING
    ensures (exists more :: AllSendable(more) && From(more, now) && SignedAfter(p, MigratedState(t, order), more, id))
            <==> !HasSignature(t, id) && !Expired(t.contracts[id], now)
  {
    var start := MigratedState(t, order);
    MigrationStartsRuns(p, t, order);
    OneSlotEach(t, order, id);
    MigratedRows(t, order, id);
    assert Exec(p, start, []) == start;
    SignableAtAnyTime(p, start, [], id, now);
    assert start.tables.contracts[id].expiresAt == t.contracts[id].expiresAt;
    NoHandlersNoOpening(start, id);
  }

  lemma NoHandlersNoOpening(s: State, id: string)
    requires s.handlers == map[] && id in s.tables.contracts
    ensures !LastOpening(s, id)
    ensures Clear(s, id) <==> s.tables.contracts[id].completed == |RowsOf(s.tables.signatures, id)|
  {
  }
}
