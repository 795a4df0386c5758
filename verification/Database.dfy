/** The tables as the server changes them in place: the statements, create_contract's insert loop and
    the body of sign_contract run from start to end. */
module Database {
  import opened Wrappers
  import opened Crypto
  import opened Tables
  import opened Signing
  import opened Sequential

  datatype SignResponse = SignResponse(code: string, signedAt: string, completed: int, required: int, fullySigned: bool)

  class Store {
    var contracts: map<string, Contract>
    var slots: map<int, Slot>
    var signatures: seq<Signature>
    var nextSlot: int

    function State(): Tables
      reads this
    {
      Tables(contracts, slots, signatures, nextSlot)
    }

    constructor ()
      ensures State() == EMPTY
    {
      contracts, slots, signatures, nextSlot := map[], map[], [], 1;
    }

    // ------------------------------------------------------------ statements

    method SelectContract(id: string) returns (c: Option<Contract>)
      ensures c == if id in State().contracts then Some(State().contracts[id]) else None
    {
      c := if id in contracts then Some(contracts[id]) else None;
    }

    method SelectSlot(id: int, contractId: string) returns (slot: Option<Slot>)
      ensures slot == if id in SlotsOf(State(), contractId) then Some(State().slots[id]) else None
    {
      slot := if id in slots && slots[id].contractId == contractId then Some(slots[id]) else None;
    }

    method LoadSignatures(contractId: string) returns (rows: seq<Signature>)
      ensures rows == RowsOf(State().signatures, contractId)
    {
      rows := RowsOf(signatures, contractId);
    }

    method InsertSignature(row: Signature) returns (inserted: bool)
      modifies this`signatures
      ensures inserted <==> !Conflicts(old(State()).signatures, row)
      ensures State() == if inserted then WithSignature(old(State()), row) else old(State())
    {
      inserted := !Conflicts(signatures, row);
      if inserted {
        signatures := signatures + [row];
      }
    }

    method FillSlot(id: int)
      modifies this`slots
      ensures State() == WithFilled(old(State()), id)
    {
      if id in slots {
        slots := slots[id := slots[id].(isFilled := true)];
      }
    }

    method UpdateProgress(id: string, count: int, isFull: bool, finalHash: Option<string>)
      modifies this`contracts
      ensures State() == WithProgress(old(State()), id, count, isFull, finalHash)
    {
      if id in contracts {
        contracts := contracts[id := contracts[id].(completed := count, status := if isFull then SIGNED else PENDING,
                                                    finalHash := finalHash)];
      }
    }

    // -------------------------------------------------------------- handlers

    /** A duplicate id violates the primary key and rolls the transaction back. */
    method Create(id: string, customerId: string, content: string, expiresAt: Option<int>, defs: seq<SlotDefinition>)
      returns (status: int)
      modifies this
      ensures status == if defs == [] then 400 else if id in old(State()).contracts then 500 else 201
      ensures State() == if status == 201 then CreateContract(old(State()), id, customerId, content, expiresAt, defs)
                         else old(State())
    {
      if defs == [] {
        return 400;
      }
      if id in contracts {
        return 500;
      }
      contracts := contracts[id := NewContract(customerId, content, expiresAt, |defs|)];
      ghost var before := State();
      for i := 0 to |defs|
        invariant State() == InsertSlots(before, id, defs[..i])
      {
        assert defs[..i + 1][..i] == defs[..i];
        slots := slots[nextSlot := Slot(id, defs[i].name, defs[i].order, false)];
        nextSlot := nextSlot + 1;
      }
      assert defs[..|defs|] == defs;
      status := 201;
    }

    /** verify_customer_uuid: the contract, if the caller's UUID is its customer's. */
    method VerifyCustomer(req: SignRequest, customerExists: bool) returns (r: Result<Contract, int>)
      ensures forall seen: nat, draw: Draw :: draw.customerExists == customerExists ==>
                AfterReadContract(State(), req, seen, draw)
                == if r.Ok? then ReadSlot(r.value, seen) else Failed(r.error)
      ensures r.Ok? ==> req.contractId in State().contracts && State().contracts[req.contractId] == r.value
    {
      if !req.uuidIsValid {
        return Err(401);
      }
      var found := SelectContract(req.contractId);
      if found.None? {
        return Err(404);
      }
      var contract := found.value;
      if !customerExists || req.customerUuid != contract.customerId {
        return Err(401);
      }
      r := Ok(contract);
    }

    /** The final hash over the signatures loaded now and the new one, from three parallel vectors. */
    method ComputeFinalHash(p: Primitives, contractId: string, content: string, row: Signature) returns (hash: string)
      ensures hash == HashWith(p, State(), contractId, content, row)
    {
      var existing := LoadSignatures(contractId);
      var hashes := seq(|existing|, i requires 0 <= i < |existing| => existing[i].signatureHash);
      var times := seq(|existing|, i requires 0 <= i < |existing| => existing[i].signedAt);
      var contents := seq(|existing|, i requires 0 <= i < |existing| => existing[i].contentHash);
      hashes := hashes + [row.signatureHash];
      times := times + [row.signedAt];
      contents := contents + [row.contentHash];
      hash := GenerateFinalHash(p, content, hashes, times, contents);
      assert Zip(hashes, times, contents) == Entries(existing) + [EntryOf(row)];
    }

    /** sign_contract from start to end with nobody else at the tables. */
    method Sign(p: Primitives, req: SignRequest, draw: Draw) returns (r: Result<SignResponse, int>)
      modifies this
      ensures var (t, phase) := SignAlone(p, old(State()), req, draw, 0);
              State() == t && r == AnswerOf(phase)
    {
      if !req.accepted {
        return Err(400);
      }
      var verified := VerifyCustomer(req, draw.customerExists);
      assert AfterReadContract(State(), req, 0, draw)
             == if verified.Ok? then ReadSlot(verified.value, 0) else Failed(verified.error);
      if verified.Err? {
        return Err(verified.error);
      }
      var signed := NewRow(p, req, verified.value, draw);
      r := SignSlot(p, req, verified.value, draw, signed);
    }

    /** The part of sign_contract from the slot load on; `signed` is the row the source builds after
        its checks. */
    method SignSlot(p: Primitives, req: SignRequest, contract: Contract, draw: Draw,
                    signed: Result<Signature, KeyError>)
      returns (r: Result<SignResponse, int>)
      modifies this
      ensures var (t, phase) := SlotAlone(p, old(State()), req, contract, 0, draw, signed);
              State() == t && r == AnswerOf(phase)
    {
      var slot := SelectSlot(req.slotId, req.contractId);
      if slot.None? {
        return Err(400);
      }
      if slot.value.isFilled {
        return Err(409);
      }
      if contract.status != PENDING {
        return Err(409);
      }
      if contract.expiresAt.Some? && draw.checkedAt > contract.expiresAt.value {
        return Err(410);
      }
      if signed.Err? {
        return Err(500);
      }
      r := SignWith(p, req, contract, signed.value);
    }

    /** The part of sign_contract after the new row is built. */
    method SignWith(p: Primitives, req: SignRequest, contract: Contract, row: Signature)
      returns (r: Result<SignResponse, int>)
      modifies this
      ensures var (t, phase) := WriteAlone(old(State()), req, contract, 0, row,
                                           HashAlone(p, old(State()), req, contract, row));
              State() == t && r == AnswerOf(phase)
    {
      var finalHash: Option<string> := None;
      if contract.completed + 1 >= contract.required {
        var hash := ComputeFinalHash(p, req.contractId, contract.content, row);
        finalHash := Some(hash);
      }
      var newCount := contract.completed + 1;
      var isFull := newCount >= contract.required;
      var inserted := InsertSignature(row);
      if !inserted {
        return Err(409);
      }
      FillSlot(req.slotId);
      UpdateProgress(req.contractId, newCount, isFull, finalHash);
      r := Ok(SignResponse(row.verificationCode, row.signedAt, newCount, contract.required, isFull));
    }
  }

  /** The response a finished or failed handler sends. */
  function AnswerOf(phase: Phase): Result<SignResponse, int> {
    match phase
    case Finished(contract, _, row, _) =>
      Ok(SignResponse(row.verificationCode, row.signedAt, contract.completed + 1, contract.required, IsLast(contract)))
    case Failed(status) => Err(status)
    case _ => Err(500)
  }
}
