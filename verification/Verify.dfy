/** The checks of `verify_contract` in src/handlers/contracts.rs: they only compute from the rows
    its statements loaded. */
module Verify {
  import opened Wrappers
  import opened Hex
  import opened Crypto
  import opened Tables
  import opened Signing

  datatype VerifiedSignature = VerifiedSignature(row: Signature, valid: bool, tampered: bool)

  datatype Proof = Proof(target: Signature, fullySigned: bool, finalHashValid: bool, verified: seq<VerifiedSignature>)

  function VerifyRow(p: Primitives, contractId: string, content: string, row: Signature): VerifiedSignature {
    VerifiedSignature(
      row,
      VerifySignature(p, row.publicKey, row.signatureHash, contractId, row.contentHash, row.signedAt),
      HashContent(p, content) != row.contentHash)
  }

  function Find(rows: seq<Signature>, code: string): Option<Signature> {
    if rows == [] then None
    else if rows[0].verificationCode == code then Some(rows[0])
    else Find(rows[1..], code)
  }

  function FinalHashValid(p: Primitives, contract: Contract, rows: seq<Signature>): bool {
    contract.finalHash.Some? && contract.status == SIGNED
    && FinalHash(p, contract.content, Entries(rows)) == contract.finalHash.value
  }

  /** None is the 404 of an unknown verification code. */
  function VerifyContract(p: Primitives, contractId: string, contract: Contract, rows: seq<Signature>, code: string)
    : Option<Proof>
  {
    match Find(rows, code)
    case None => None
    case Some(target) =>
      Some(Proof(target, contract.status == SIGNED, FinalHashValid(p, contract, rows),
                 seq(|rows|, i requires 0 <= i < |rows| => VerifyRow(p, contractId, contract.content, rows[i]))))
  }

  lemma {:induction false} FindFinds(rows: seq<Signature>, code: string)
    ensures Find(rows, code).Some? <==> exists row :: row in rows && row.verificationCode == code
    ensures Find(rows, code).Some? ==> Find(rows, code).value in rows && Find(rows, code).value.verificationCode == code
  {
    if rows != [] {
      FindFinds(rows[1..], code);
      assert rows == [rows[0]] + rows[1..];
    }
  }

  /** The row found is the first with the code. */
  lemma {:induction false} FindsFirst(rows: seq<Signature>, code: string) returns (i: nat)
    requires Find(rows, code).Some?
    ensures i < |rows| && Find(rows, code) == Some(rows[i]) && rows[i].verificationCode == code
    ensures forall j :: 0 <= j < i ==> rows[j].verificationCode != code
  {
    if rows[0].verificationCode == code {
      i := 0;
    } else {
      var k := FindsFirst(rows[1..], code);
      i := k + 1;
      assert forall j :: 1 <= j < i ==> rows[j] == rows[1..][j - 1];
    }
  }

  /** Exactly what the page shows of a row: a signature the primitive verifies on the row's own fields, and
      content whose SHA-256 is not the row's. */
  lemma RowShownExactly(p: Primitives, contractId: string, content: string, row: Signature)
    ensures var shown := VerifyRow(p, contractId, content, row);
            && shown.row == row
            && (shown.tampered <==> Encode(p.sha256(content)) != row.contentHash)
            && (shown.valid <==>
                  exists key, bytes ::
                    && Decode(row.publicKey) == Some(key) && |key| == 32 && p.isPoint(key)
                    && Decode(row.signatureHash) == Some(bytes) && |bytes| == 64
                    && p.verify(key, contractId + ":" + row.contentHash + ":" + row.signedAt, bytes))
  {
    AcceptedExactly(p, row.publicKey, row.signatureHash, contractId, row.contentHash, row.signedAt);
  }

  /** Exactly what the proof page shows of a contract: nothing for an unknown code, otherwise every row in
      order, the status, and whether the stored final hash is that of content and rows. */
  lemma PageExactly(p: Primitives, contractId: string, c: Contract, rows: seq<Signature>, code: string)
    ensures var proof := VerifyContract(p, contractId, c, rows, code);
            && (proof.Some? <==> exists row :: row in rows && row.verificationCode == code)
            && (proof.Some? ==>
                  && (exists i :: 0 <= i < |rows| && rows[i] == proof.value.target && rows[i].verificationCode == code
                        && forall j :: 0 <= j < i ==> rows[j].verificationCode != code)
                  && (proof.value.fullySigned <==> c.status == "signed")
                  && (proof.value.finalHashValid <==>
                        c.status == "signed"
                            && c.finalHash == Some(Encode(p.sha256(Preimage(c.content, Entries(rows))))))
                  && |proof.value.verified| == |rows|
                  && forall i :: 0 <= i < |rows| ==>
                       proof.value.verified[i] == VerifyRow(p, contractId, c.content, rows[i]))
  {
    FindFinds(rows, code);
    if Find(rows, code).Some? {
      var i := FindsFirst(rows, code);
    }
  }
}
