/** What verify_contract shows of the rows sign_contract writes, before and after a change of the
    contract's text. */
module Authenticity {
  import opened Wrappers
  import opened Hex
  import opened Rfc3339
  import opened Crypto
  import opened Tables
  import opened Signing
  import opened SigningInvariant
  import opened SigningTheorems
  import opened Verify

  /** The row is a valid signature of this content, and has the sizes the final hash needs. */
  ghost predicate Genuine(p: Primitives, row: Signature, content: string) {
    && VerifySignature(p, row.publicKey, row.signatureHash, row.contractId, row.contentHash, row.signedAt)
    && row.contentHash == HashContent(p, content)
    && WellShaped(EntryOf(row))
  }

  /** The rows written since the tables held only the rows `old_`. */
  ghost predicate RowsGenuine(p: Primitives, t: Tables, old_: seq<Signature>) {
    forall row :: row in t.signatures && row !in old_ && row.contractId in t.contracts ==>
      Genuine(p, row, t.contracts[row.contractId].content)
  }

  ghost predicate HandlersGenuine(p: Primitives, handlers: map<int, Handler>) {
    forall k :: k in handlers && HasRow(handlers[k].phase) ==>
      Genuine(p, handlers[k].phase.row, handlers[k].phase.contract.content)
  }

  lemma NewRowGenuine(p: Primitives, req: SignRequest, contract: Contract, draw: Draw)
    requires Sound(p)
    ensures var r := NewRow(p, req, contract, draw); r.Ok? && Genuine(p, r.value, contract.content)
  {
    SignedVerifies(p, draw.key, req.contractId, HashContent(p, contract.content), ToText(draw.stampedAt));
    ToTextIsStamp(draw.stampedAt);
  }

  lemma InsertKeepsGenuine(p: Primitives, t: Tables, old_: seq<Signature>, row: Signature)
    requires RowsGenuine(p, t, old_)
    requires row.contractId in t.contracts ==> Genuine(p, row, t.contracts[row.contractId].content)
    ensures RowsGenuine(p, WithSignature(t, row), old_)
  {
    assert forall x :: x in t.signatures + [row] <==> x in t.signatures || x == row;
  }

  lemma SameContentKeepsGenuine(p: Primitives, t: Tables, t': Tables, old_: seq<Signature>)
    requires RowsGenuine(p, t, old_) && t'.signatures == t.signatures && t'.contracts.Keys == t.contracts.Keys
    requires forall id :: id in t.contracts ==> t'.contracts[id].content == t.contracts[id].content
    ensures RowsGenuine(p, t', old_)
  {
    forall row | row in t'.signatures && row !in old_ && row.contractId in t'.contracts
      ensures Genuine(p, row, t'.contracts[row.contractId].content)
    {
      assert row.contractId in t.contracts;
    }
  }

  lemma ReadSlotGenuine(p: Primitives, t: Tables, h: Handler, draw: Draw)
    requires Sound(p) && h.phase.ReadSlot?
    ensures var phase := AfterReadSlot(t, h.req, h.phase.contract, h.phase.seen, draw.checkedAt,
                                       NewRow(p, h.req, h.phase.contract, draw));
            HasRow(phase) ==> phase.contract == h.phase.contract && Genuine(p, phase.row, phase.contract.content)
  {
    NewRowGenuine(p, h.req, h.phase.contract, draw);
  }

  lemma AdvanceKeepsRowsGenuine(p: Primitives, t: Tables, old_: seq<Signature>, h: Handler)
    requires RowsGenuine(p, t, old_)
    requires h.phase.InsertSignature? ==>
               Genuine(p, h.phase.row, h.phase.contract.content)
               && (h.phase.row.contractId in t.contracts ==>
                   t.contracts[h.phase.row.contractId].content == h.phase.contract.content)
    ensures RowsGenuine(p, TablesAfter(t, h), old_)
  {
    if h.phase.InsertSignature? {
      InsertKeepsGenuine(p, t, old_, h.phase.row);
    } else {
      SameContentKeepsGenuine(p, t, TablesAfter(t, h), old_);
    }
  }

  /** Once its row is built a handler keeps row and contract. */
  lemma RowStays(p: Primitives, t: Tables, writes: nat, h: Handler, draw: Draw)
    requires !h.phase.ReadSlot?
    ensures var phase := PhaseAfter(p, t, writes, h, draw);
            HasRow(phase) ==> HasRow(h.phase) && phase.row == h.phase.row && phase.contract == h.phase.contract
  {
  }

  lemma AdvanceKeepsHandlerGenuine(p: Primitives, t: Tables, writes: nat, h: Handler, draw: Draw)
    requires Sound(p)
    requires HasRow(h.phase) ==> Genuine(p, h.phase.row, h.phase.contract.content)
    ensures var phase := PhaseAfter(p, t, writes, h, draw);
            HasRow(phase) ==> Genuine(p, phase.row, phase.contract.content)
  {
    if h.phase.ReadSlot? {
      ReadSlotGenuine(p, t, h, draw);
    } else {
      RowStays(p, t, writes, h, draw);
    }
  }

  lemma AdvanceKeepsGenuine(p: Primitives, s: State, old_: seq<Signature>, k: int, draw: Draw)
    requires Sound(p) && Inv(p, s) && RowsGenuine(p, s.tables, old_) && HandlersGenuine(p, s.handlers)
             && k in s.handlers
    ensures RowsGenuine(p, AdvanceHandler(p, s, k, draw).tables, old_)
            && HandlersGenuine(p, AdvanceHandler(p, s, k, draw).handlers)
  {
    var h := s.handlers[k];
    assert HandlerInv(p, s.tables, s.writers, h);
    AdvanceKeepsRowsGenuine(p, s.tables, old_, h);
    AdvanceKeepsHandlerGenuine(p, s.tables, |WritesOf(s.writers, h.req.contractId)|, h, draw);
  }

  lemma StepKeepsGenuine(p: Primitives, s: State, old_: seq<Signature>, l: Label)
    requires Sound(p) && Inv(p, s) && RowsGenuine(p, s.tables, old_) && HandlersGenuine(p, s.handlers)
    ensures RowsGenuine(p, Step(p, s, l).tables, old_) && HandlersGenuine(p, Step(p, s, l).handlers)
  {
    if Creates(s, l) {
      CreateKeepsGenuine(p, s.tables, old_, l);
    } else if l.Advance? && l.handler in s.handlers {
      AdvanceKeepsGenuine(p, s, old_, l.handler, l.draw);
    }
  }

  lemma CreateKeepsGenuine(p: Primitives, t: Tables, old_: seq<Signature>, l: Label)
    requires RowsLinked(t) && RowsGenuine(p, t, old_) && l.Create? && FreshId(t, l.id)
    ensures RowsGenuine(p, CreateContract(t, l.id, l.customerId, l.content, l.expiresAt, l.slots), old_)
  {
    CreateCreates(t, l);
  }

  lemma {:induction false} ExecKeepsGenuine(p: Primitives, s: State, old_: seq<Signature>, labels: seq<Label>)
    requires Sound(p) && Inv(p, s) && RowsGenuine(p, s.tables, old_) && HandlersGenuine(p, s.handlers)
             && AllSendable(labels)
    ensures RowsGenuine(p, Exec(p, s, labels).tables, old_) && HandlersGenuine(p, Exec(p, s, labels).handlers)
    decreases |labels|
  {
    if labels != [] {
      StepKeepsInv(p, s, labels[0]);
      StepKeepsGenuine(p, s, old_, labels[0]);
      ExecKeepsGenuine(p, Step(p, s, labels[0]), old_, labels[1..]);
    }
  }

  lemma AdvanceKeepsContent(t: Tables, h: Handler, id: string)
    requires id in t.contracts
    ensures id in TablesAfter(t, h).contracts && TablesAfter(t, h).contracts[id].content == t.contracts[id].content
  {
  }

  lemma StepKeepsContent(p: Primitives, s: State, l: Label, id: string)
    requires Inv(p, s) && id in s.tables.contracts
    ensures id in Step(p, s, l).tables.contracts
    ensures Step(p, s, l).tables.contracts[id].content == s.tables.contracts[id].content
  {
    if Creates(s, l) {
      CreateCreates(s.tables, l);
    } else if l.Advance? && l.handler in s.handlers {
      AdvanceKeepsContent(s.tables, s.handlers[l.handler], id);
    }
  }

  lemma {:induction false} ExecKeepsContent(p: Primitives, s: State, labels: seq<Label>, id: string)
    requires Inv(p, s) && AllSendable(labels) && id in s.tables.contracts
    ensures id in Exec(p, s, labels).tables.contracts
    ensures Exec(p, s, labels).tables.contracts[id].content == s.tables.contracts[id].content
    decreases |labels|
  {
    if labels != [] {
      StepKeepsInv(p, s, labels[0]);
      StepKeepsContent(p, s, labels[0], id);
      ExecKeepsContent(p, Step(p, s, labels[0]), labels[1..], id);
    }
  }

  /** A proof page that reads the contract at one moment and its signatures at any later one shows
      every signature written in the run as valid and untampered. */
  lemma ProofShowsGenuine(p: Primitives, start: State, labels: seq<Label>, more: seq<Label>, id: string, code: string)
    requires Sound(p) && Run(p, start, labels) && AllSendable(more)
    requires id in Exec(p, start, labels).tables.contracts
    ensures var c := Exec(p, start, labels).tables.contracts[id];
            var rows := RowsOf(Exec(p, start, labels + more).tables.signatures, id);
            var proof := VerifyContract(p, id, c, rows, code);
            proof.Some? ==> |proof.value.verified| == |rows|
                            && forall i :: 0 <= i < |rows| && rows[i] !in start.tables.signatures ==>
                                 proof.value.verified[i] == VerifiedSignature(rows[i], true, false)
  {
    var s, end := Exec(p, start, labels), Exec(p, start, labels + more).tables;
    RunKeepsInv(p, start, labels);
    ExecAppend(p, start, labels, more);
    ExecKeepsContent(p, s, more, id);
    ExecKeepsGenuine(p, start, start.tables.signatures, labels + more);
    var rows := RowsOf(end.signatures, id);
    forall i | 0 <= i < |rows| && rows[i] !in start.tables.signatures
      ensures VerifyRow(p, id, s.tables.contracts[id].content, rows[i]) == VerifiedSignature(rows[i], true, false)
    {
      RowsOfMembers(end.signatures, id, rows[i]);
    }
  }

  /** An edited text and the old one, followed by the same signatures, are different preimages. */
  lemma {:induction false} SameEntries(content: string, content': string, entries: seq<Entry>)
    ensures Preimage(content, entries) == Preimage(content', entries) <==> content == content'
  {
    if entries != [] {
      var before, e := entries[..|entries| - 1], entries[|entries| - 1];
      SameEntries(content, content', before);
      var tail := e.signatureHash + (e.signedAt + e.contentHash);
      assert Preimage(content, entries) == Preimage(content, before) + tail;
      assert Preimage(content', entries) == Preimage(content', before) + tail;
      SameTail(Preimage(content, before), Preimage(content', before), tail);
    }
  }

  lemma SameTail(a: string, b: string, tail: string)
    ensures a + tail == b + tail <==> a == b
  {
    if a + tail == b + tail {
      assert |a| == |b|;
      assert a == (a + tail)[..|a|] && b == (b + tail)[..|b|];
    }
  }

  lemma HashesDiffer(p: Primitives, a: string, b: string)
    ensures HashContent(p, a) == HashContent(p, b) <==> p.sha256(a) == p.sha256(b)
  {
    DecodeEncode(p.sha256(a));
    DecodeEncode(p.sha256(b));
  }

  /** A final hash that fits the old text fits the new one only by a collision. */
  lemma EditedHash(p: Primitives, c: Contract, rows: seq<Signature>, content: string)
    requires c.finalHash.Some? ==> c.status == SIGNED && c.finalHash.value == FinalHash(p, c.content, Entries(rows))
    requires content != c.content
    ensures Preimage(content, Entries(rows)) != Preimage(c.content, Entries(rows))
    ensures FinalHashValid(p, c.(content := content), rows) <==>
            c.finalHash.Some? && p.sha256(Preimage(content, Entries(rows)))
                == p.sha256(Preimage(c.content, Entries(rows)))
  {
    SameEntries(content, c.content, Entries(rows));
    HashesDiffer(p, Preimage(content, Entries(rows)), Preimage(c.content, Entries(rows)));
  }

  lemma EditedRow(p: Primitives, row: Signature, id: string, content: string, content': string)
    requires row.contractId == id && Genuine(p, row, content)
    ensures VerifyRow(p, id, content', row) == VerifiedSignature(row, true, p.sha256(content') != p.sha256(content))
  {
    HashesDiffer(p, content, content');
  }

  lemma ProofParts(p: Primitives, id: string, c: Contract, rows: seq<Signature>, code: string)
    ensures var proof := VerifyContract(p, id, c, rows, code);
            proof.Some? ==>
              && |proof.value.verified| == |rows| && proof.value.finalHashValid == FinalHashValid(p, c, rows)
              && forall i :: 0 <= i < |rows| ==> proof.value.verified[i] == VerifyRow(p, id, c.content, rows[i])
  {
  }

  /** What the proof page shows of a contract edited in this state: of a row not among `old_`, that it is
      valid and tampered with, unless the texts collide; and no valid final hash, unless the preimages do. */
  ghost predicate EditShown(p: Primitives, t: Tables, old_: seq<Signature>, id: string, code: string, content: string)
    requires id in t.contracts
  {
    var c, rows := t.contracts[id], RowsOf(t.signatures, id);
    var proof := VerifyContract(p, id, c.(content := content), rows, code);
    proof.Some? ==>
      && |proof.value.verified| == |rows|
      && (forall i :: 0 <= i < |rows| && rows[i] !in old_ ==>
            proof.value.verified[i] == VerifiedSignature(rows[i], true, p.sha256(content) != p.sha256(c.content)))
      && Preimage(content, Entries(rows)) != Preimage(c.content, Entries(rows))
      && (proof.value.finalHashValid <==>
            c.finalHash.Some? && p.sha256(Preimage(content, Entries(rows)))
                == p.sha256(Preimage(c.content, Entries(rows))))
  }

  lemma EditShownIn(p: Primitives, t: Tables, old_: seq<Signature>, id: string, code: string, content: string)
    requires RowsGenuine(p, t, old_) && id in t.contracts && content != t.contracts[id].content
    requires t.contracts[id].finalHash.Some? ==>
               t.contracts[id].status == SIGNED
                   && t.contracts[id].finalHash.value == HashOf(p, t, id, t.contracts[id].content)
    ensures EditShown(p, t, old_, id, code, content)
  {
    var c, rows := t.contracts[id], RowsOf(t.signatures, id);
    ProofParts(p, id, c.(content := content), rows, code);
    EditedHash(p, c, rows, content);
    forall i | 0 <= i < |rows| && rows[i] !in old_
      ensures VerifyRow(p, id, content, rows[i])
              == VerifiedSignature(rows[i], true, p.sha256(content) != p.sha256(c.content))
    {
      RowsOfMembers(t.signatures, id, rows[i]);
      EditedRow(p, rows[i], id, c.content, content);
    }
  }

  /** After an edit of the text alone every signature written in the run stays valid; each is shown as
      tampered and the final hash as wrong, except when the two texts (or the two preimages, which always
      differ) collide under SHA-256. */
  lemma EditIsDetected(p: Primitives, start: State, labels: seq<Label>, id: string, code: string, content: string)
    requires Sound(p) && Run(p, start, labels)
    requires id in Exec(p, start, labels).tables.contracts
    requires content != Exec(p, start, labels).tables.contracts[id].content
    ensures EditShown(p, Exec(p, start, labels).tables, start.tables.signatures, id, code, content)
  {
    var s := Exec(p, start, labels);
    RunKeepsInv(p, start, labels);
    ExecKeepsGenuine(p, start, start.tables.signatures, labels);
    assert ContractInv(p, s.tables, id, s.tables.contracts[id], s.writers[id]);
    EditShownIn(p, s.tables, start.tables.signatures, id, code, content);
  }
}
