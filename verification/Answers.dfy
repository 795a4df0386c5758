/** What create_contract stores and sign_contract answers and stores, column by column. */
module Answers {
  import opened Wrappers
  import opened Hex
  import opened Rfc3339
  import opened Crypto
  import opened Tables
  import opened Signing
  import opened SigningInvariant
  import opened Sequential
  import opened Database

  // --------------------------------------------------------- create_contract

  /** The cast of the slot count wraps around: it is the one 32-bit number congruent to it. */
  lemma CastExactly(n: nat)
    ensures -0x8000_0000 <= AsI32(n) < 0x8000_0000 && (n - AsI32(n)) % 0x1_0000_0000 == 0
  {
    var m := n + 0x8000_0000;
    assert m == m / 0x1_0000_0000 * 0x1_0000_0000 + m % 0x1_0000_0000;
    assert n - AsI32(n) == m / 0x1_0000_0000 * 0x1_0000_0000;
  }

  /** The stored contract has the request's columns, its slots the request's names and orders in turn, and
      everything else is as it was. */
  lemma CreatedExactly(t: Tables, l: Label)
    requires RowsLinked(t) && l.Create? && Sendable(l) && FreshId(t, l.id)
    ensures var t' := CreateContract(t, l.id, l.customerId, l.content, l.expiresAt, l.slots);
            && t'.contracts ==
               t.contracts[l.id := Contract(l.customerId, l.content, l.expiresAt, "pending", |l.slots|, 0, None)]
            && t'.signatures == t.signatures && t'.nextSlot == t.nextSlot + |l.slots|
            && (forall x :: x in t'.slots <==> x in t.slots || t.nextSlot <= x < t.nextSlot + |l.slots|)
            && (forall x :: x in t.slots ==> t'.slots[x] == t.slots[x])
            && (forall x :: t.nextSlot <= x < t.nextSlot + |l.slots| ==>
                  t'.slots[x] == Slot(l.id, l.slots[x - t.nextSlot].name, l.slots[x - t.nextSlot].order, false))
  {
    var made := t.(contracts := t.contracts[l.id := NewContract(l.customerId, l.content, l.expiresAt, |l.slots|)]);
    InsertSlotsAdds(made, l.id, l.slots);
  }

  // ----------------------------------------------------------- sign_contract

  /** The row of an accepted request. */
  function RowFor(p: Primitives, req: SignRequest, content: string, draw: Draw): Signature {
    var hash, time := Encode(p.sha256(content)), ToText(draw.stampedAt);
    Signature(req.contractId, draw.code, Encode(p.sign(draw.key, req.contractId + ":" + hash + ":" + time)),
              Encode(p.publicKey(draw.key)), hash, time, InSlot(req.slotId))
  }

  lemma RowExactly(p: Primitives, req: SignRequest, contract: Contract, draw: Draw)
    ensures NewRow(p, req, contract, draw) == Ok(RowFor(p, req, contract.content, draw))
  {
    DecodeEncode(draw.key);
    SignedExactly(p, Encode(draw.key), req.contractId, Encode(p.sha256(contract.content)), ToText(draw.stampedAt));
  }

  /** The contract row after an accepted request whose signature makes `signed` of `all` slots. */
  function RowAfter(p: Primitives, t: Tables, req: SignRequest, draw: Draw, signed: set<int>, all: set<int>): Contract
    requires req.contractId in t.contracts
  {
    var c := t.contracts[req.contractId];
    var entries := Entries(RowsOf(t.signatures, req.contractId)) + [EntryOf(RowFor(p, req, c.content, draw))];
    Contract(c.customerId, c.content, c.expiresAt, if signed == all then "signed" else "pending", c.required, |signed|,
             if signed == all then Some(Encode(p.sha256(Preimage(c.content, entries)))) else None)
  }

  lemma AcceptedRows(p: Primitives, t: Tables, b: Board, req: SignRequest, draw: Draw, seen: nat)
    requires Shows(p, t, b) && Verdict(t, b, req, draw).None?
    ensures var c := t.contracts[req.contractId];
            var row := RowFor(p, req, c.content, draw);
            SignAlone(p, t, req, draw, seen)
            == (AcceptedTables(t, req, row, HashAlone(p, t, req, c, row)), Finished(c, seen, row, seen))
  {
    var row := AloneFromSlot(p, t, req, draw, seen);
    RowExactly(p, req, t.contracts[req.contractId], draw);
    SlotAccepted(p, t, b, req, draw, seen, row);
  }

  lemma AcceptedColumns(p: Primitives, t: Tables, b: Board, req: SignRequest, draw: Draw)
    requires Shows(p, t, b) && Verdict(t, b, req, draw).None?
    ensures var id := req.contractId;
            var c, signed, all := t.contracts[id], b.signed[id] + {req.slotId}, SlotsOf(t, id);
            var row := RowFor(p, req, c.content, draw);
            AcceptedTables(t, req, row, HashAlone(p, t, req, c, row)) ==
            Tables(t.contracts[id := RowAfter(p, t, req, draw, signed, all)],
                   t.slots[req.slotId := t.slots[req.slotId].(isFilled := true)], t.signatures + [row], t.nextSlot)
  {
    CountMatchesBoard(p, t, b, req.contractId, req.slotId);
  }

  lemma AcceptedResponse(p: Primitives, t: Tables, b: Board, req: SignRequest, draw: Draw, seen: nat)
    requires Shows(p, t, b) && Verdict(t, b, req, draw).None?
    ensures var id := req.contractId;
            var c, signed, all := t.contracts[id], b.signed[id] + {req.slotId}, SlotsOf(t, id);
            AnswerOf(Finished(c, seen, RowFor(p, req, c.content, draw), seen)) ==
            Ok(SignResponse(draw.code, ToText(draw.stampedAt), |signed|, |all|, signed == all))
  {
    CountMatchesBoard(p, t, b, req.contractId, req.slotId);
    assert ContractInv(p, t, req.contractId, t.contracts[req.contractId], b.signed[req.contractId]);
  }

  /** The whole outcome of one request on tables that show a board. A refused one is answered with its
      status and changes nothing. An accepted one is answered with its code, the time of its stamp and the
      count of signed slots; it appends its row, fills its slot, and updates status, count and final hash. */
  lemma OutcomeExactly(p: Primitives, t: Tables, b: Board, req: SignRequest, draw: Draw, seen: nat)
    requires Shows(p, t, b)
    ensures var (t', phase) := SignAlone(p, t, req, draw, seen);
            match Verdict(t, b, req, draw)
            case Some(status) => t' == t && AnswerOf(phase) == Err(status)
            case None =>
              var id := req.contractId;
              var signed, all := b.signed[id] + {req.slotId}, SlotsOf(t, id);
              && AnswerOf(phase) == Ok(SignResponse(draw.code, ToText(draw.stampedAt), |signed|, |all|, signed == all))
              && t'.signatures == t.signatures + [RowFor(p, req, t.contracts[id].content, draw)]
              && t'.contracts == t.contracts[id := RowAfter(p, t, req, draw, signed, all)]
              && t'.slots == t.slots[req.slotId := t.slots[req.slotId].(isFilled := true)]
              && t'.nextSlot == t.nextSlot
  {
    AnswerIsVerdict(p, t, b, req, draw, seen);
    if Verdict(t, b, req, draw).None? {
      AcceptedRows(p, t, b, req, draw, seen);
      AcceptedColumns(p, t, b, req, draw);
      AcceptedResponse(p, t, b, req, draw, seen);
    }
  }

  /** With everything else in order, 410 is the answer exactly after the expiry; up to it and including it,
      and without one, the request is accepted. */
  lemma ExpiryDecides(p: Primitives, t: Tables, b: Board, req: SignRequest, draw: Draw, seen: nat)
    requires Shows(p, t, b) && req.accepted && req.uuidIsValid && draw.customerExists
    requires req.contractId in t.contracts && req.customerUuid == t.contracts[req.contractId].customerId
    requires req.slotId in SlotsOf(t, req.contractId) && req.slotId !in SignedSlots(t.signatures)
    requires forall row :: row in t.signatures ==> row.verificationCode != draw.code
    ensures var answer, expiry := AnswerOf(SignAlone(p, t, req, draw, seen).1), t.contracts[req.contractId].expiresAt;
            && (answer == Err(410) <==> expiry.Some? && draw.checkedAt > expiry.value)
            && (answer.Ok? <==> expiry.None? || draw.checkedAt <= expiry.value)
  {
    CodesMembers(t.signatures, draw.code);
    OutcomeExactly(p, t, b, req, draw, seen);
  }

  // ----------------------------------------------------------- from end to end

  ghost predicate Ordinary(req: SignRequest, draw: Draw, l: Label)
    requires l.Create?
  {
    req.accepted && req.uuidIsValid && draw.customerExists && req.contractId == l.id
  }

  lemma CreatedBoard(p: Primitives, t: Tables, b: Board, l: Label)
    requires Shows(p, t, b) && Makes(t, l)
    ensures var t' := CreateContract(t, l.id, l.customerId, l.content, l.expiresAt, l.slots);
            && Shows(p, t', b.(signed := b.signed[l.id := {}]))
            && (forall x :: x in SlotsOf(t', l.id) <==> t.nextSlot <= x < t.nextSlot + |l.slots|)
            && |SlotsOf(t', l.id)| == |l.slots|
  {
    CreationShows(p, t, b, l);
    CreatedExactly(t, l);
    CreateKeepsTables(p, t, b.signed, l);
    assert forall x :: x in t.slots ==> t.slots[x].contractId != l.id;
  }

  /** A contract just created, asked for by anybody: 401 for any customer but its own; for that one and one
      of its slots, 410 exactly after its expiry, and otherwise the answer of the first of its signers, with
      a row over its content. */
  lemma CreatedThenSigned(p: Primitives, t: Tables, b: Board, l: Label, req: SignRequest, draw: Draw)
    requires Shows(p, t, b) && Makes(t, l) && Ordinary(req, draw, l)
    requires t.nextSlot <= req.slotId < t.nextSlot + |l.slots| && draw.code !in b.codes
    ensures var (t', phase) :=
              SignAlone(p, CreateContract(t, l.id, l.customerId, l.content, l.expiresAt, l.slots), req, draw, 0);
            var late := l.expiresAt.Some? && draw.checkedAt > l.expiresAt.value;
            if req.customerUuid != l.customerId then AnswerOf(phase) == Err(401)
            else if late then AnswerOf(phase) == Err(410)
            else
              && AnswerOf(phase) ==
                 Ok(SignResponse(draw.code, ToText(draw.stampedAt), 1, |l.slots|, |l.slots| == 1))
              && t'.signatures == t.signatures + [RowFor(p, req, l.content, draw)]
  {
    CreatedBoard(p, t, b, l);
    CreatedExactly(t, l);
    FirstSigner(p, CreateContract(t, l.id, l.customerId, l.content, l.expiresAt, l.slots),
                b.(signed := b.signed[l.id := {}]), l, req, draw);
  }

  lemma FirstSigner(p: Primitives, t: Tables, b: Board, l: Label, req: SignRequest, draw: Draw)
    requires Shows(p, t, b) && l.Create? && Ordinary(req, draw, l) && draw.code !in b.codes
    requires l.id in t.contracts && l.id in b.signed && b.signed[l.id] == {} && req.slotId in SlotsOf(t, l.id)
    requires var c := t.contracts[l.id];
             c.customerId == l.customerId && c.content == l.content && c.expiresAt == l.expiresAt
    requires |SlotsOf(t, l.id)| == |l.slots|
    ensures var (t', phase) := SignAlone(p, t, req, draw, 0);
            var late := l.expiresAt.Some? && draw.checkedAt > l.expiresAt.value;
            if req.customerUuid != l.customerId then AnswerOf(phase) == Err(401)
            else if late then AnswerOf(phase) == Err(410)
            else
              && AnswerOf(phase) ==
                 Ok(SignResponse(draw.code, ToText(draw.stampedAt), 1, |l.slots|, |l.slots| == 1))
              && t'.signatures == t.signatures + [RowFor(p, req, l.content, draw)]
  {
    FreshVerdict(t, b, l, req, draw);
    if Verdict(t, b, req, draw).None? {
      FirstAccepted(p, t, b, l, req, draw);
    } else {
      Refused(p, t, b, req, draw, 0);
    }
  }

  lemma Refused(p: Primitives, t: Tables, b: Board, req: SignRequest, draw: Draw, seen: nat)
    requires Shows(p, t, b) && Verdict(t, b, req, draw).Some?
    ensures AnswerOf(SignAlone(p, t, req, draw, seen).1) == Err(Verdict(t, b, req, draw).value)
  {
    AnswerIsVerdict(p, t, b, req, draw, seen);
  }

  lemma FirstAccepted(p: Primitives, t: Tables, b: Board, l: Label, req: SignRequest, draw: Draw)
    requires Shows(p, t, b) && Verdict(t, b, req, draw).None? && l.Create? && req.contractId == l.id
    requires t.contracts[l.id].content == l.content && |SlotsOf(t, l.id)| == |l.slots| && b.signed[l.id] == {}
    ensures var (t', phase) := SignAlone(p, t, req, draw, 0);
            && AnswerOf(phase) ==
               Ok(SignResponse(draw.code, ToText(draw.stampedAt), 1, |l.slots|, |l.slots| == 1))
            && t'.signatures == t.signatures + [RowFor(p, req, l.content, draw)]
  {
    AcceptedRows(p, t, b, req, draw, 0);
    AcceptedResponse(p, t, b, req, draw, 0);
    OneOfAll(SlotsOf(t, l.id), req.slotId);
  }

  lemma FreshVerdict(t: Tables, b: Board, l: Label, req: SignRequest, draw: Draw)
    requires l.Create? && Ordinary(req, draw, l) && draw.code !in b.codes
    requires l.id in t.contracts && l.id in b.signed && b.signed[l.id] == {} && req.slotId in SlotsOf(t, l.id)
    requires t.contracts[l.id].customerId == l.customerId && t.contracts[l.id].expiresAt == l.expiresAt
    ensures Verdict(t, b, req, draw) ==
            if req.customerUuid != l.customerId then Some(401)
            else if l.expiresAt.Some? && draw.checkedAt > l.expiresAt.value then Some(410)
            else None
  {
  }

  lemma OneOfAll(all: set<int>, x: int)
    requires x in all
    ensures |{} + {x}| == 1 && ({} + {x} == all <==> |all| == 1)
  {
    SubsetSize({x}, all);
    assert {} + {x} == {x} && |{x}| == 1;
  }
}
