/** Which contracts can still be signed: exactly, and read off the tables and the handlers in flight. */
module Signable {
  import opened Wrappers
  import opened Sets
  import opened Rfc3339
  import opened Crypto
  import opened Tables
  import opened Signing
  import opened SigningInvariant
  import opened SigningTheorems
  import opened Stranded
  import opened Sequential

  /** Handler k has inserted its signature for this contract and not yet written the contract. */
  ghost predicate InFlight(s: State, id: string, k: int) {
    k in s.handlers && s.handlers[k].req.contractId == id && HasInserted(s.handlers[k].phase)
  }

  /** Every signature row is counted, or the only one that is not is that of a handler in flight whose copy
      of the contract is current. */
  ghost predicate Clear(s: State, id: string)
    requires id in s.tables.contracts
  {
    var completed, rows := s.tables.contracts[id].completed, |RowsOf(s.tables.signatures, id)|;
    || completed == rows
    || (completed + 1 == rows && exists k :: InFlight(s, id, k) && s.handlers[k].phase.contract.completed == completed)
  }

  // ------------------------------------------------------- what dooms a contract

  /** A contract write came after this handler's read. */
  ghost predicate Stale(s: State, id: string, k: int) {
    InFlight(s, id, k) && id in s.writers && s.handlers[k].phase.seen < |s.writers[id]|
  }

  ghost predicate Crowded(s: State, id: string, j: int, k: int) {
    j != k && InFlight(s, id, j) && InFlight(s, id, k)
  }

  ghost predicate Doomed(s: State, id: string) {
    || Behind(s, id)
    || (exists slot :: Abandoned(s, id, slot))
    || (exists k :: Stale(s, id, k))
    || (exists j, k :: Crowded(s, id, j, k))
  }

  lemma FlightFacts(p: Primitives, s: State, id: string, k: int)
    requires Inv(p, s) && InFlight(s, id, k)
    ensures var h := s.handlers[k];
            && id in s.tables.contracts && id in s.writers
            && h.req.slotId in SlotsOf(s.tables, id) && h.req.slotId in SignedSlots(s.tables.signatures)
            && h.req.slotId !in s.writers[id]
            && CopyInv(s.tables.contracts[id], h.phase.contract, h.phase.seen, |s.writers[id]|)
  {
    var h := s.handlers[k];
    assert HasRow(h.phase);
    assert HandlerInv(p, s.tables, s.writers, h);
    assert RowInv(s.tables, h.req, h.phase.contract, h.phase.row);
  }

  /** A handler in flight that stops abandons its slot. */
  lemma StopInFlight(p: Primitives, s: State, id: string, k: int)
    requires Inv(p, s) && InFlight(s, id, k)
    ensures Abandoned(Step(p, s, Stop(k)), id, s.handlers[k].req.slotId)
  {
    FlightFacts(p, s, id, k);
  }

  /** A step leaves a handler in flight as it is, except that handler's stop or contract write. */
  lemma FlightStep(p: Primitives, s: State, l: Label, id: string, k: int)
    requires Inv(p, s) && InFlight(s, id, k) && l != Stop(k) && !(Writes(s, l) && l.handler == k)
    ensures var s' := Step(p, s, l);
            InFlight(s', id, k) && s'.handlers[k].phase.seen == s.handlers[k].phase.seen
  {
    if l.Advance? && l.handler == k {
      assert s.handlers[k].phase.MarkFilled?;
    } else if l.Advance? {
      OthersStay(p, s, l.handler, l.draw, k);
    }
  }

  lemma OthersStay(p: Primitives, s: State, j: int, draw: Draw, k: int)
    requires j != k && k in s.handlers
    ensures var s' := Step(p, s, Advance(j, draw)); k in s'.handlers && s'.handlers[k] == s.handlers[k]
  {
  }

  lemma WritersGrow(p: Primitives, s: State, l: Label, id: string)
    requires Inv(p, s) && id in s.tables.contracts
    ensures id in s.writers && id in Step(p, s, l).writers && s.writers[id] <= Step(p, s, l).writers[id]
    ensures |s.writers[id]| <= |Step(p, s, l).writers[id]|
  {
    SubsetSize(s.writers[id], Step(p, s, l).writers[id]);
  }

  /** The write of a handler in flight is one more. */
  lemma FlightWrites(p: Primitives, s: State, l: Label, id: string)
    requires Inv(p, s) && Writes(s, l) && InFlight(s, id, l.handler)
    ensures var s' := Step(p, s, l);
            && id in s.tables.contracts && id in s'.tables.contracts && id in s.writers && id in s'.writers
            && |s'.writers[id]| == |s.writers[id]| + 1
            && s'.tables.contracts[id].completed == s.handlers[l.handler].phase.contract.completed + 1
  {
    FlightFacts(p, s, id, l.handler);
    WriteStep(p, s, l);
  }

  lemma StaleStep(p: Primitives, s: State, l: Label, id: string, k: int)
    requires Inv(p, s) && Stale(s, id, k)
    ensures Doomed(Step(p, s, l), id)
  {
    FlightFacts(p, s, id, k);
    if l == Stop(k) {
      StopInFlight(p, s, id, k);
    } else if Writes(s, l) && l.handler == k {
      FlightWrites(p, s, l, id);
      assert Behind(Step(p, s, l), id);
    } else {
      FlightStep(p, s, l, id, k);
      WritersGrow(p, s, l, id);
      assert Stale(Step(p, s, l), id, k);
    }
  }

  /** Of two handlers in flight the one that writes first makes the other stale. */
  lemma OneOfTwoWrites(p: Primitives, s: State, l: Label, id: string, k: int)
    requires Inv(p, s) && Writes(s, l) && Crowded(s, id, l.handler, k)
    ensures Stale(Step(p, s, l), id, k)
  {
    FlightFacts(p, s, id, k);
    FlightWrites(p, s, l, id);
    FlightStep(p, s, l, id, k);
  }

  lemma CrowdedStep(p: Primitives, s: State, l: Label, id: string, j: int, k: int)
    requires Inv(p, s) && Crowded(s, id, j, k)
    ensures Doomed(Step(p, s, l), id)
  {
    if l == Stop(j) {
      StopInFlight(p, s, id, j);
    } else if l == Stop(k) {
      StopInFlight(p, s, id, k);
    } else if Writes(s, l) && l.handler == j {
      OneOfTwoWrites(p, s, l, id, k);
    } else if Writes(s, l) && l.handler == k {
      assert Crowded(s, id, k, j);
      OneOfTwoWrites(p, s, l, id, j);
    } else {
      FlightStep(p, s, l, id, j);
      FlightStep(p, s, l, id, k);
      assert Crowded(Step(p, s, l), id, j, k);
    }
  }

  lemma StepKeepsDoomed(p: Primitives, s: State, l: Label, id: string)
    requires Inv(p, s) && Doomed(s, id) && Sendable(l)
    ensures Doomed(Step(p, s, l), id)
  {
    if Behind(s, id) {
      StepKeepsBehind(p, s, l, id);
    } else if slot :| Abandoned(s, id, slot) {
      StepKeepsAbandoned(p, s, l, id, slot);
    } else if k :| Stale(s, id, k) {
      StaleStep(p, s, l, id, k);
    } else {
      var j, k :| Crowded(s, id, j, k);
      CrowdedStep(p, s, l, id, j, k);
    }
  }

  lemma {:induction false} ExecKeepsDoomed(p: Primitives, s: State, labels: seq<Label>, id: string)
    requires Inv(p, s) && Doomed(s, id) && AllSendable(labels)
    ensures Doomed(Exec(p, s, labels), id)
    decreases |labels|
  {
    if labels != [] {
      StepKeepsInv(p, s, labels[0]);
      StepKeepsDoomed(p, s, labels[0], id);
      ExecKeepsDoomed(p, Step(p, s, labels[0]), labels[1..], id);
    }
  }

  lemma UnwrittenUnsigned(p: Primitives, s: State, id: string, slot: int)
    requires Inv(p, s) && id in s.tables.contracts && id in s.writers
    requires slot in SlotsOf(s.tables, id) && slot !in s.writers[id]
    ensures s.tables.contracts[id].status != SIGNED
  {
    assert ContractInv(p, s.tables, id, s.tables.contracts[id], s.writers[id]);
    WritersAreSlots(p, s.tables, s.writers, id);
  }

  lemma DoomedUnsigned(p: Primitives, s: State, id: string)
    requires Inv(p, s) && Doomed(s, id)
    ensures id in s.tables.contracts && s.tables.contracts[id].status != SIGNED
  {
    if Behind(s, id) {
      assert ContractInv(p, s.tables, id, s.tables.contracts[id], s.writers[id]);
      WritersAreSlots(p, s.tables, s.writers, id);
    } else if slot :| Abandoned(s, id, slot) {
      UnwrittenUnsigned(p, s, id, slot);
    } else {
      var k :| InFlight(s, id, k);
      FlightFacts(p, s, id, k);
      UnwrittenUnsigned(p, s, id, s.handlers[k].req.slotId);
    }
  }

  // ------------------------------------------- a contract not clear is doomed

  /** A signed slot whose write is due has a handler in flight, or dooms its contract. */
  lemma UnwrittenInFlight(p: Primitives, s: State, id: string, slot: int) returns (k: int)
    requires Inv(p, s) && !Doomed(s, id) && id in s.tables.contracts && id in s.writers
    requires slot in SignedSlots(RowsOf(s.tables.signatures, id)) && slot !in s.writers[id]
    ensures InFlight(s, id, k) && s.handlers[k].req.slotId == slot
  {
    SignedByOwnRow(s.tables, id, slot);
    assert !Abandoned(s, id, slot);
    k :| k in s.handlers && s.handlers[k].req.slotId == slot && HasInserted(s.handlers[k].phase);
    var h := s.handlers[k];
    assert HasRow(h.phase);
    assert HandlerInv(p, s.tables, s.writers, h);
    assert RowInv(s.tables, h.req, h.phase.contract, h.phase.row);
  }

  lemma OneUnwritten(p: Primitives, s: State, id: string, slot: int, k: int)
    requires Inv(p, s) && !Doomed(s, id) && id in s.tables.contracts && id in s.writers
    requires slot in SignedSlots(RowsOf(s.tables.signatures, id)) && slot !in s.writers[id]
    requires InFlight(s, id, k) && s.handlers[k].req.slotId == slot
    ensures SignedSlots(RowsOf(s.tables.signatures, id)) <= s.writers[id] + {slot}
  {
    forall other | other in SignedSlots(RowsOf(s.tables.signatures, id))
      ensures other in s.writers[id] + {slot}
    {
      if other !in s.writers[id] && other != slot {
        var j := UnwrittenInFlight(p, s, id, other);
        assert Crowded(s, id, j, k);
      }
    }
  }

  lemma NotDoomedIsClear(p: Primitives, s: State, id: string)
    requires Inv(p, s) && id in s.tables.contracts && !Doomed(s, id)
    ensures Clear(s, id)
  {
    CountsOrderedInv(p, s.tables, s.writers, id);
    SignedSlotsOfContract(s.tables, id);
    assert !Behind(s, id);
    var signed, done := SignedSlots(RowsOf(s.tables.signatures, id)), s.writers[id];
    if slot :| slot in SlotsOf(s.tables, id) && slot in signed && slot !in done {
      var k := UnwrittenInFlight(p, s, id, slot);
      OneUnwritten(p, s, id, slot, k);
      assert signed == done + {slot};
      FlightFacts(p, s, id, k);
      assert !Stale(s, id, k);
    } else {
      forall slot | slot in signed
        ensures slot in SlotsOf(s.tables, id) && slot in done
      {
      }
      assert signed == done;
    }
  }

  // ------------------------------------------------ a clear contract gets signed

  lemma NoConflict(rows: seq<Signature>, row: Signature)
    requires row.slotId.InSlot? && row.slotId.id !in SignedSlots(rows) && row.verificationCode !in Codes(rows)
    ensures !Conflicts(rows, row)
  {
    forall i | 0 <= i < |rows|
      ensures Distinct(rows[i], row)
    {
      SignedSlotsMembers(rows, row.slotId.id);
      CodesMembers(rows, row.verificationCode);
    }
  }

  /** Every signature is counted, and the contract can still be signed at this time. */
  ghost predicate Ready(s: State, id: string, now: Instant) {
    && id in s.tables.contracts && s.tables.contracts[id].status == PENDING
    && s.tables.contracts[id].completed == |RowsOf(s.tables.signatures, id)|
    && !Expired(s.tables.contracts[id], now)
  }

  /** What the customer asks for, and what it takes: a code in no row, a moment not too late. */
  ghost predicate Fits(t: Tables, id: string, now: Instant, req: SignRequest, draw: Draw) {
    && id in t.contracts && req == SignRequest(id, req.slotId, t.contracts[id].customerId, true, true)
    && req.slotId in SlotsOf(t, id) && req.slotId !in SignedSlots(t.signatures)
    && draw.customerExists && draw.checkedAt == now && draw.code !in Codes(t.signatures)
  }

  lemma SlotPasses(p: Primitives, s: State, id: string, now: Instant, req: SignRequest, draw: Draw, seen: nat,
                   row: Signature)
    requires Inv(p, s) && Ready(s, id, now) && Fits(s.tables, id, now, req, draw)
    ensures var next := AfterReadSlot(s.tables, req, s.tables.contracts[id], seen, now, Ok(row));
            HasRow(next) && next.row == row
  {
    var slot := req.slotId;
    assert !s.tables.slots[slot].isFilled;
  }

  /** Such a request, run alone, is accepted. */
  lemma AcceptedAlone(p: Primitives, s: State, id: string, now: Instant, req: SignRequest, draw: Draw, seen: nat)
    returns (row: Signature, hash: Option<string>)
    requires Inv(p, s) && Ready(s, id, now) && Fits(s.tables, id, now, req, draw)
    ensures row.contractId == id
    ensures SignAlone(p, s.tables, req, draw, seen) ==
            (AcceptedTables(s.tables, req, row, hash), Finished(s.tables.contracts[id], seen, row, seen))
  {
    var t, c := s.tables, s.tables.contracts[id];
    assert AfterReadContract(t, req, seen, draw) == ReadSlot(c, seen);
    row := AloneFromSlot(p, t, req, draw, seen);
    SlotPasses(p, s, id, now, req, draw, seen, row);
    NoConflict(t.signatures, row);
    hash := HashAlone(p, t, req, c, row);
    assert WriteAlone(t, req, c, seen, row, hash).1.Finished?;
    WriteAloneTables(t, req, seen, row, hash);
  }

  ghost predicate From(labels: seq<Label>, now: Instant) {
    forall l :: l in labels && l.Advance? ==> now <= l.draw.checkedAt
  }

  lemma {:induction false} StatementsFrom(k: int, draw: Draw, n: nat, now: Instant)
    requires now <= draw.checkedAt
    ensures From(Statements(k, draw, n), now)
  {
    if n > 0 {
      StatementsFrom(k, draw, n - 1, now);
    }
  }

  /** Signed, or ready again with one more signature counted. */
  ghost predicate OneMore(s: State, s': State, id: string, now: Instant)
    requires id in s.tables.contracts
  {
    && id in s'.tables.contracts && s'.tables.contracts[id].required == s.tables.contracts[id].required
    && (s'.tables.contracts[id].status == SIGNED
        || (Ready(s', id, now) && s'.tables.contracts[id].completed == s.tables.contracts[id].completed + 1))
  }

  lemma AcceptedIsOneMore(t: Tables, req: SignRequest, row: Signature, hash: Option<string>, s: State, s': State,
                          now: Instant)
    requires Ready(s, req.contractId, now) && s.tables == t && row.contractId == req.contractId
    requires s'.tables == AcceptedTables(t, req, row, hash)
    ensures OneMore(s, s', req.contractId, now)
  {
    RowsOfAppended(t.signatures, row, req.contractId);
  }

  /** One fresh request for an unsigned slot. */
  lemma SignNext(p: Primitives, s: State, id: string, now: Instant) returns (labels: seq<Label>)
    requires Inv(p, s) && Ready(s, id, now)
    ensures AllSendable(labels) && From(labels, now) && OneMore(s, Exec(p, s, labels), id, now)
  {
    var t := s.tables;
    var slot := UnsignedSlot(p, s, id, now);
    var n := LongerThanAll(Codes(t.signatures));
    var k := AboveAll(s.handlers.Keys);
    var key: Key := seq(32, i => 0);
    var draw := Draw(true, now, now, key, seq(n, i => 'A'));
    var req := SignRequest(id, slot, t.contracts[id].customerId, true, true);
    labels := Request(k, req, draw);
    StatementsSendable(k, draw, 6);
    StatementsFrom(k, draw, 6, now);
    AloneIsRun(p, s, k, req, draw);
    var row, hash := AcceptedAlone(p, s, id, now, req, draw, |WritesOf(s.writers, id)|);
    AcceptedIsOneMore(t, req, row, hash, s, Exec(p, s, labels), now);
  }

  lemma UnsignedSlot(p: Primitives, s: State, id: string, now: Instant) returns (slot: int)
    requires Inv(p, s) && Ready(s, id, now)
    ensures slot in SlotsOf(s.tables, id) && slot !in SignedSlots(s.tables.signatures)
  {
    assert ContractInv(p, s.tables, id, s.tables.contracts[id], s.writers[id]);
    SignedSlotsOfContract(s.tables, id);
    var own, all := SignedSlots(RowsOf(s.tables.signatures, id)), SlotsOf(s.tables, id);
    assert |own| < |all| && own <= all;
    if free :| free in all && free !in own {
      slot := free;
    } else {
      forall x | x in all
        ensures x in own
      {
      }
      SubsetSize(all, own);
      assert false;
    }
  }

  /** Requests one after another until the contract is signed. */
  lemma {:induction false} SignRest(p: Primitives, s: State, id: string, now: Instant) returns (labels: seq<Label>)
    requires Inv(p, s) && Ready(s, id, now)
    ensures AllSendable(labels) && From(labels, now) && SignedAfter(p, s, labels, id)
    decreases s.tables.contracts[id].required - s.tables.contracts[id].completed
  {
    assert ContractInv(p, s.tables, id, s.tables.contracts[id], s.writers[id]);
    labels := SignNext(p, s, id, now);
    var s1 := Exec(p, s, labels);
    if s1.tables.contracts[id].status != SIGNED {
      ExecKeepsInv(p, s, labels);
      var rest := SignRest(p, s1, id, now);
      ExecAppend(p, s, labels, rest);
      labels := labels + rest;
    }
  }

  ghost predicate SignedAfter(p: Primitives, s: State, labels: seq<Label>, id: string) {
    var t := Exec(p, s, labels).tables; id in t.contracts && t.contracts[id].status == SIGNED
  }

  /** The tables once a handler in flight has filled its slot and written its contract. */
  function Landed(t: Tables, h: Handler): Tables
    requires HasInserted(h.phase)
  {
    WithProgress(if h.phase.MarkFilled? then WithFilled(t, h.req.slotId) else t, h.req.contractId,
                 h.phase.contract.completed + 1, IsLast(h.phase.contract), h.phase.finalHash)
  }

  /** The remaining statements of a handler in flight. */
  lemma FlightLands(p: Primitives, s: State, k: int, now: Instant) returns (labels: seq<Label>)
    requires k in s.handlers && HasInserted(s.handlers[k].phase)
    ensures AllSendable(labels) && From(labels, now)
    ensures Exec(p, s, labels).tables == Landed(s.tables, s.handlers[k])
  {
    var key: Key := seq(32, i => 0);
    var draw := Draw(true, now, now, key, "");
    var n := if s.handlers[k].phase.MarkFilled? then 2 else 1;
    labels := Statements(k, draw, n);
    StatementsSendable(k, draw, n);
    StatementsFrom(k, draw, n, now);
    if n == 2 {
      MarkIsRun(p, s, k, draw, 2);
    } else {
      ExecStatement(p, s, k, draw, 1);
      ExecDone(p, Step(p, s, Advance(k, draw)), k, draw, 0);
    }
  }

  /** When the handler's copy is current all signatures are counted then. */
  lemma FinishFlight(p: Primitives, s: State, id: string, k: int, now: Instant) returns (labels: seq<Label>)
    requires Inv(p, s) && InFlight(s, id, k) && id in s.tables.contracts
    requires var c := s.tables.contracts[id];
             && s.handlers[k].phase.contract.completed == c.completed
             && c.completed + 1 == |RowsOf(s.tables.signatures, id)|
             && (c.required > |RowsOf(s.tables.signatures, id)| ==> !Expired(c, now))
    ensures AllSendable(labels) && From(labels, now)
    ensures SignedAfter(p, s, labels, id) || Ready(Exec(p, s, labels), id, now)
  {
    FlightFacts(p, s, id, k);
    labels := FlightLands(p, s, k, now);
  }

  /** Whether a pending contract can be signed at all from here, by any requests from `now` on: exactly
      when it is clear. (Expiry matters only while a slot is unsigned.) */
  lemma ClearExactly(p: Primitives, s: State, id: string, now: Instant)
    requires Inv(p, s) && id in s.tables.contracts && s.tables.contracts[id].status == PENDING
    requires var c := s.tables.contracts[id];
             |RowsOf(s.tables.signatures, id)| < c.required ==> !Expired(c, now)
    ensures (exists more :: AllSendable(more) && From(more, now) && SignedAfter(p, s, more, id)) <==> Clear(s, id)
  {
    if more :| AllSendable(more) && From(more, now) && SignedAfter(p, s, more, id) {
      NeverUnlessClear(p, s, more, id);
    }
    if Clear(s, id) {
      var more := SignClear(p, s, id, now);
    }
  }

  lemma NeverUnlessClear(p: Primitives, s: State, more: seq<Label>, id: string)
    requires Inv(p, s) && id in s.tables.contracts && AllSendable(more) && SignedAfter(p, s, more, id)
    ensures Clear(s, id)
  {
    if Doomed(s, id) {
      ExecKeepsDoomed(p, s, more, id);
      ExecKeepsInv(p, s, more);
      DoomedUnsigned(p, Exec(p, s, more), id);
    } else {
      NotDoomedIsClear(p, s, id);
    }
  }

  lemma SignClear(p: Primitives, s: State, id: string, now: Instant) returns (more: seq<Label>)
    requires Inv(p, s) && id in s.tables.contracts && s.tables.contracts[id].status == PENDING && Clear(s, id)
    requires var c := s.tables.contracts[id];
             |RowsOf(s.tables.signatures, id)| < c.required ==> !Expired(c, now)
    ensures AllSendable(more) && From(more, now) && SignedAfter(p, s, more, id)
  {
    var c, rows := s.tables.contracts[id], |RowsOf(s.tables.signatures, id)|;
    assert ContractInv(p, s.tables, id, c, s.writers[id]);
    if c.completed == rows {
      more := SignRest(p, s, id, now);
    } else {
      var k :| InFlight(s, id, k) && s.handlers[k].phase.contract.completed == c.completed;
      more := FinishFlight(p, s, id, k, now);
      if !SignedAfter(p, s, more, id) {
        ExecKeepsInv(p, s, more);
        var rest := SignRest(p, Exec(p, s, more), id, now);
        ExecAppend(p, s, more, rest);
        more := more + rest;
      }
    }
  }

  /** In every run: a pending contract can still be signed iff each of its signature rows is counted, but
      for at most one, whose handler is in flight and read the contract after the last write. Any such
      contract is signed by suitable requests; any other never. */
  lemma SignableExactly(p: Primitives, start: State, labels: seq<Label>, id: string, now: Instant)
    requires Run(p, start, labels)
    requires var t := Exec(p, start, labels).tables;
             && id in t.contracts && t.contracts[id].status == PENDING
             && (|RowsOf(t.signatures, id)| < t.contracts[id].required ==> !Expired(t.contracts[id], now))
    ensures var s := Exec(p, start, labels);
            (exists more :: AllSendable(more) && From(more, now) && SignedAfter(p, s, more, id)) <==> Clear(s, id)
  {
    RunKeepsInv(p, start, labels);
    ClearExactly(p, Exec(p, start, labels), id, now);
  }

  /** With no handler in flight the tables alone tell: completed equals the number of signature rows. */
  lemma SignableAtRest(p: Primitives, start: State, labels: seq<Label>, id: string, now: Instant)
    requires Run(p, start, labels)
    requires var t := Exec(p, start, labels).tables;
             && id in t.contracts && t.contracts[id].status == PENDING
             && (|RowsOf(t.signatures, id)| < t.contracts[id].required ==> !Expired(t.contracts[id], now))
    requires forall k :: !InFlight(Exec(p, start, labels), id, k)
    ensures var s := Exec(p, start, labels);
            (exists more :: AllSendable(more) && From(more, now) && SignedAfter(p, s, more, id)) <==>
            s.tables.contracts[id].completed == |RowsOf(s.tables.signatures, id)|
  {
    SignableExactly(p, start, labels, id, now);
  }
}
