/** The three contract tables and the queries the handlers run on them.

    Columns no statement of the signing protocol depends on (title, type, creation time, signer name,
    address and agent) are left out of the rows. */
module Tables {
  import opened Wrappers
  import opened Crypto

  /** `expiresAt` is the parsed expiry; None when the column is empty or does not parse. */
  datatype Contract = Contract(
    customerId: string,
    content: string,
    expiresAt: Option<int>,
    status: string,
    required: int,
    completed: int,
    finalHash: Option<string>)

  datatype Slot = Slot(contractId: string, name: Option<string>, order: int, isFilled: bool)

  /** The nullable `slot_id` column. */
  datatype SlotRef = Unassigned | InSlot(id: int)

  datatype Signature = Signature(
    contractId: string,
    verificationCode: string,
    signatureHash: string,
    publicKey: string,
    contentHash: string,
    signedAt: string,
    slotId: SlotRef)

  /** `signatures` is in insertion order, the order of the autoincremented ids; `nextSlot` is the
      next autoincremented slot id. */
  datatype Tables = Tables(
    contracts: map<string, Contract>,
    slots: map<int, Slot>,
    signatures: seq<Signature>,
    nextSlot: int)

  const EMPTY := Tables(map[], map[], [], 1)

  function EntryOf(row: Signature): Entry {
    Entry(row.signatureHash, row.signedAt, row.contentHash)
  }

  function Entries(rows: seq<Signature>): (entries: seq<Entry>)
    ensures |entries| == |rows| && forall i :: 0 <= i < |rows| ==> entries[i] == EntryOf(rows[i])
  {
    if rows == [] then [] else Entries(rows[..|rows| - 1]) + [EntryOf(rows[|rows| - 1])]
  }

  /** The signatures of one contract, in id order. */
  function RowsOf(rows: seq<Signature>, contractId: string): seq<Signature> {
    if rows == [] then []
    else
      var last := rows[|rows| - 1];
      RowsOf(rows[..|rows| - 1], contractId) + if last.contractId == contractId then [last] else []
  }

  lemma {:induction false} RowsOfMembers(rows: seq<Signature>, contractId: string, row: Signature)
    ensures row in RowsOf(rows, contractId) <==> row in rows && row.contractId == contractId
  {
    if rows != [] {
      RowsOfMembers(rows[..|rows| - 1], contractId, row);
      assert rows == rows[..|rows| - 1] + [rows[|rows| - 1]];
    }
  }

  lemma RowsOfAppended(rows: seq<Signature>, row: Signature, contractId: string)
    ensures RowsOf(rows + [row], contractId) ==
            RowsOf(rows, contractId) + if row.contractId == contractId then [row] else []
    ensures row.contractId != contractId ==> RowsOf(rows + [row], contractId) == RowsOf(rows, contractId)
  {
    assert (rows + [row])[..|rows|] == rows;
  }

  lemma EntriesAppended(rows: seq<Signature>, row: Signature)
    ensures Entries(rows + [row]) == Entries(rows) + [EntryOf(row)]
  {
    assert (rows + [row])[..|rows|] == rows;
  }

  function SlotsOf(t: Tables, contractId: string): set<int> {
    set s | s in t.slots && t.slots[s].contractId == contractId
  }

  /** Slots that some signature row refers to. */
  function SignedSlots(rows: seq<Signature>): set<int> {
    if rows == [] then {}
    else
      var last := rows[|rows| - 1];
      SignedSlots(rows[..|rows| - 1]) + if last.slotId.InSlot? then {last.slotId.id} else {}
  }

  lemma {:induction false} SignedSlotsMembers(rows: seq<Signature>, slot: int)
    ensures slot in SignedSlots(rows) <==> exists i :: 0 <= i < |rows| && rows[i].slotId == InSlot(slot)
  {
    if rows != [] {
      var before := rows[..|rows| - 1];
      SignedSlotsMembers(before, slot);
      assert forall i :: 0 <= i < |before| ==> before[i] == rows[i];
    }
  }

  lemma SignedSlotsAppended(rows: seq<Signature>, row: Signature)
    ensures SignedSlots(rows + [row]) ==
            SignedSlots(rows) + if row.slotId.InSlot? then {row.slotId.id} else {}
  {
    assert (rows + [row])[..|rows|] == rows;
  }

  /** The two UNIQUE indexes of `contract_signatures`; NULL slots never conflict. */
  predicate Distinct(a: Signature, b: Signature) {
    a.verificationCode != b.verificationCode && (a.slotId.InSlot? ==> a.slotId != b.slotId)
  }

  predicate UniqueRows(rows: seq<Signature>) {
    forall i, j :: 0 <= i < j < |rows| ==> Distinct(rows[i], rows[j])
  }

  /** Inserting `row` would break a UNIQUE index. */
  predicate Conflicts(rows: seq<Signature>, row: Signature) {
    exists i :: 0 <= i < |rows| && !Distinct(rows[i], row)
  }

  lemma ConflictOnSignedSlot(rows: seq<Signature>, row: Signature)
    requires row.slotId.InSlot? && row.slotId.id in SignedSlots(rows)
    ensures Conflicts(rows, row)
  {
    SignedSlotsMembers(rows, row.slotId.id);
    var i :| 0 <= i < |rows| && rows[i].slotId == row.slotId;
    assert !Distinct(rows[i], row);
  }

  lemma SubsetSize<T>(a: set<T>, b: set<T>)
    requires a <= b
    ensures |a| <= |b|
    ensures |a| == |b| ==> a == b
  {
    assert b == a + (b - a);
  }
}
