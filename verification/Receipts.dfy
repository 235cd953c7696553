/**
 Signed receipts. A body's hash and a receipt's signature check are functions of the
 signing scheme; the fields the chain never inspects are one opaque content value.
 */
module Receipts {
  import opened Outcomes

  datatype Body = Body(
    runId: string,
    seqNo: nat,
    parentHash: Option<string>,
    signerKeyId: string,
    content: string)

  datatype Receipt = Receipt(body: Body, signature: string)

  /** The store's signing scheme: hex body hash, signing, signature check, and key id. */
  datatype Scheme = Scheme(hash: Body -> string, sign: Body -> string, verifies: Receipt -> bool, keyId: string)

  ghost predicate SignsCorrectly(s: Scheme) {
    forall b :: s.verifies(Receipt(b, s.sign(b)))
  }

  /** SHA-256 over canonical bytes, idealized: different bodies have different hashes. */
  ghost predicate Injective(s: Scheme) {
    forall a, b :: s.hash(a) == s.hash(b) ==> a == b
  }

  datatype BreakReason = SignerMismatch | RunMismatch | SeqMismatch | ParentMismatch | BadSignature

  datatype ChainStatus = Valid(count: nat) | Broken(at: nat, reason: BreakReason) | Empty
}
