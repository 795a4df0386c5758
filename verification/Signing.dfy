/** `create_contract` and `sign_contract` of src/handlers/contracts.rs as a transition system.

    `sign_contract` is not a transaction: each of its SQL statements commits by itself. So each
    statement is one atomic step, any number of handlers run interleaved, and any of them may stop
    between two statements (a failed statement, a lost connection, a cancelled request). */
module Signing {
  import opened Wrappers
  import opened Hex
  import opened Rfc3339
  import opened Crypto
  import opened Tables

  const PENDING := "pending"
  const SIGNED := "signed"

  type Key = k: seq<byte> | |k| == 32 witness seq(32, i => 0)

  datatype SignRequest = SignRequest(
    contractId: string,
    slotId: int,
    customerUuid: string,
    uuidIsValid: bool,
    accepted: bool)

  /** What a statement takes from outside the three tables: the customer lookup, the two clock
      readings, the generated key and the generated verification code. */
  datatype Draw = Draw(customerExists: bool, checkedAt: Instant, stampedAt: Instant, key: Key, code: string)

  /** Where a handler stands and the local variables it holds. `seen` and `before` are history:
      how many contract writes of this contract preceded the handler's read and its own write. */
  datatype Phase =
    | ReadContract
    | ReadSlot(contract: Contract, seen: nat)
    | LoadSignatures(contract: Contract, seen: nat, row: Signature)
    | InsertSignature(contract: Contract, seen: nat, row: Signature, finalHash: Option<string>)
    | MarkFilled(contract: Contract, seen: nat, row: Signature, finalHash: Option<string>)
    | WriteContract(contract: Contract, seen: nat, row: Signature, finalHash: Option<string>)
    | Finished(contract: Contract, seen: nat, row: Signature, before: nat)
    | Failed(status: int)
    | Stopped

  datatype Handler = Handler(req: SignRequest, phase: Phase)

  /** `writers` is history: per contract, the slots whose handler has done its contract write. */
  datatype State = State(tables: Tables, handlers: map<int, Handler>, writers: map<string, set<int>>)

  datatype SlotDefinition = SlotDefinition(name: Option<string>, order: int)

  datatype Label =
    | Create(id: string, customerId: string, content: string, expiresAt: Option<int>, slots: seq<SlotDefinition>)
    | Begin(handler: int, req: SignRequest)
    | Advance(handler: int, draw: Draw)
    | Stop(handler: int)

  // -------------------------------------------------------- create_contract

  /** Rust's `as i32` on a length. */
  function AsI32(n: nat): int {
    (n + 0x8000_0000) % 0x1_0000_0000 - 0x8000_0000
  }

  /** The ids create_contract may use: a v4 UUID no row mentions. */
  predicate FreshId(t: Tables, id: string) {
    && id !in t.contracts
    && (forall s :: s in t.slots ==> t.slots[s].contractId != id)
    && (forall row :: row in t.signatures ==> row.contractId != id)
  }

  function InsertSlots(t: Tables, id: string, defs: seq<SlotDefinition>): Tables {
    if defs == [] then t
    else
      var before := InsertSlots(t, id, defs[..|defs| - 1]);
      var def := defs[|defs| - 1];
      before.(slots := before.slots[before.nextSlot := Slot(id, def.name, def.order, false)],
              nextSlot := before.nextSlot + 1)
  }

  function NewContract(customerId: string, content: string, expiresAt: Option<int>, slots: nat): Contract {
    Contract(customerId, content, expiresAt, PENDING, AsI32(slots), 0, None)
  }

  /** The transaction of create_contract. */
  function CreateContract(t: Tables, id: string, customerId: string, content: string, expiresAt: Option<int>,
                          defs: seq<SlotDefinition>): Tables
  {
    InsertSlots(t.(contracts := t.contracts[id := NewContract(customerId, content, expiresAt, |defs|)]), id, defs)
  }

  // ----------------------------------------- the statements of sign_contract

  function AfterReadContract(t: Tables, req: SignRequest, seen: nat, draw: Draw): Phase {
    if !req.uuidIsValid then Failed(401)
    else if req.contractId !in t.contracts then Failed(404)
    else if !draw.customerExists then Failed(401)
    else if req.customerUuid != t.contracts[req.contractId].customerId then Failed(401)
    else ReadSlot(t.contracts[req.contractId], seen)
  }

  function NewRow(p: Primitives, req: SignRequest, contract: Contract, draw: Draw): Result<Signature, KeyError> {
    var timestamp := ToText(draw.stampedAt);
    var contentHash := HashContent(p, contract.content);
    match SignContract(p, Encode(draw.key), req.contractId, contentHash, timestamp)
    case Err(e) => Err(e)
    case Ok(signature) =>
      Ok(Signature(req.contractId, draw.code, signature, Encode(p.publicKey(draw.key)), contentHash, timestamp,
                   InSlot(req.slotId)))
  }

  predicate Expired(contract: Contract, now: Instant) {
    contract.expiresAt.Some? && now > contract.expiresAt.value
  }

  /** The handler believes its signature is the last one. */
  predicate IsLast(contract: Contract) {
    contract.completed + 1 >= contract.required
  }

  /** `signed` is the new row, computed once the checks have passed. */
  function AfterReadSlot(t: Tables, req: SignRequest, contract: Contract, seen: nat, now: Instant,
                         signed: Result<Signature, KeyError>)
    : Phase
  {
    if req.slotId !in t.slots || t.slots[req.slotId].contractId != req.contractId then Failed(400)
    else if t.slots[req.slotId].isFilled then Failed(409)
    else if contract.status != PENDING then Failed(409)
    else if Expired(contract, now) then Failed(410)
    else
      match signed
      case Err(_) => Failed(500)
      case Ok(row) =>
        if IsLast(contract) then LoadSignatures(contract, seen, row)
        else InsertSignature(contract, seen, row, None)
  }

  /** The final hash over the rows found so far and the new one. */
  function HashWith(p: Primitives, t: Tables, contractId: string, content: string, row: Signature): string {
    FinalHash(p, content, Entries(RowsOf(t.signatures, contractId)) + [EntryOf(row)])
  }

  function WithSignature(t: Tables, row: Signature): Tables {
    t.(signatures := t.signatures + [row])
  }

  function WithFilled(t: Tables, slotId: int): Tables {
    if slotId in t.slots then t.(slots := t.slots[slotId := t.slots[slotId].(isFilled := true)]) else t
  }

  function WithProgress(t: Tables, contractId: string, count: int, isFull: bool, finalHash: Option<string>): Tables {
    if contractId in t.contracts then
      t.(contracts := t.contracts[contractId := t.contracts[contractId].(
           completed := count, status := if isFull then SIGNED else PENDING, finalHash := finalHash)])
    else t
  }

  function WritesOf(writers: map<string, set<int>>, contractId: string): set<int> {
    if contractId in writers then writers[contractId] else {}
  }

  /** The tables after a handler's next statement; only its last three statements write. */
  function TablesAfter(t: Tables, h: Handler): Tables {
    match h.phase
    case InsertSignature(_, _, row, _) => if Conflicts(t.signatures, row) then t else WithSignature(t, row)
    case MarkFilled(_, _, _, _) => WithFilled(t, h.req.slotId)
    case WriteContract(contract, _, _, hash) =>
      WithProgress(t, h.req.contractId, contract.completed + 1, IsLast(contract), hash)
    case _ => t
  }

  function WritersAfter(writers: map<string, set<int>>, h: Handler): map<string, set<int>> {
    if h.phase.WriteContract? then writers[h.req.contractId := WritesOf(writers, h.req.contractId) + {h.req.slotId}]
    else writers
  }

  /** The statement's result and the local computation up to the next statement. */
  function PhaseAfter(p: Primitives, t: Tables, writes: nat, h: Handler, draw: Draw): Phase {
    match h.phase
    case ReadContract => AfterReadContract(t, h.req, writes, draw)
    case ReadSlot(contract, seen) =>
      AfterReadSlot(t, h.req, contract, seen, draw.checkedAt, NewRow(p, h.req, contract, draw))
    case LoadSignatures(contract, seen, row) =>
      InsertSignature(contract, seen, row, Some(HashWith(p, t, h.req.contractId, contract.content, row)))
    case InsertSignature(contract, seen, row, hash) =>
      if Conflicts(t.signatures, row) then Failed(409) else MarkFilled(contract, seen, row, hash)
    case MarkFilled(contract, seen, row, hash) => WriteContract(contract, seen, row, hash)
    case WriteContract(contract, seen, row, _) => Finished(contract, seen, row, writes)
    case _ => h.phase
  }

  predicate Active(phase: Phase) {
    !phase.Finished? && !phase.Failed? && !phase.Stopped?
  }

  function WithPhase(s: State, k: int, h: Handler, phase: Phase): State {
    s.(handlers := s.handlers[k := Handler(h.req, phase)])
  }

  /** One statement of one handler. */
  function AdvanceHandler(p: Primitives, s: State, k: int, draw: Draw): State
    requires k in s.handlers
  {
    var h := s.handlers[k];
    var phase := PhaseAfter(p, s.tables, |WritesOf(s.writers, h.req.contractId)|, h, draw);
    WithPhase(State(TablesAfter(s.tables, h), s.handlers, WritersAfter(s.writers, h)), k, h, phase)
  }

  /** One step of the whole system; a label that is not enabled changes nothing. */
  function Step(p: Primitives, s: State, l: Label): State {
    match l
    case Create(id, customerId, content, expiresAt, slots) =>
      if slots != [] && FreshId(s.tables, id) then
        s.(tables := CreateContract(s.tables, id, customerId, content, expiresAt, slots),
           writers := s.writers[id := {}])
      else s
    case Begin(k, req) =>
      if k in s.handlers then s
      else s.(handlers := s.handlers[k := Handler(req, if req.accepted then ReadContract else Failed(400))])
    case Advance(k, draw) =>
      if k in s.handlers then AdvanceHandler(p, s, k, draw) else s
    case Stop(k) =>
      if k in s.handlers && Active(s.handlers[k].phase) then WithPhase(s, k, s.handlers[k], Stopped) else s
  }

  /** A run: the state after any sequence of labels. */
  function Exec(p: Primitives, s: State, labels: seq<Label>): State
    decreases |labels|
  {
    if labels == [] then s else Exec(p, Step(p, s, labels[0]), labels[1..])
  }

  lemma {:induction false} ExecAppend(p: Primitives, s: State, a: seq<Label>, b: seq<Label>)
    ensures Exec(p, s, a + b) == Exec(p, Exec(p, s, a), b)
    decreases |a|
  {
    if a == [] {
      assert a + b == b;
    } else {
      assert (a + b)[1..] == a[1..] + b;
      ExecAppend(p, Step(p, s, a[0]), a[1..], b);
    }
  }
}
