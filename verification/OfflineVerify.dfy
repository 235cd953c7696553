/**
 The two offline verifiers of an exported chain, after the public key has been decoded. The
 Rust one checks every signer label and run id before it walks the chain; the Python one
 checks everything receipt by receipt and refuses bodies that carry floats. Both reach
 the same verdict.
 */
module OfflineVerify {
  import opened Outcomes
  import opened Receipts
  import opened Merkle

  datatype Export = Export(runId: string, signerKeyId: string, receipts: seq<Receipt>)

  /** The Python verifier's outcome: a status, or a refusal to serialize a body. */
  datatype PythonOutcome = Status(status: ChainStatus) | Unsupported

  /** The declarative condition an intact export meets. */
  ghost predicate ExportHolds(s: Scheme, ex: Export) {
    && ex.signerKeyId == s.keyId
    && ChainHolds(s, ex.runId, ex.receipts)
    && forall i :: 0 <= i < |ex.receipts| ==> ex.receipts[i].body.signerKeyId == s.keyId
  }

  /** The signer label or run id of receipt i is wrong. */
  function IdentityDefect(s: Scheme, ex: Export, i: nat): Option<BreakReason>
    requires i < |ex.receipts|
  {
    if ex.receipts[i].body.signerKeyId != s.keyId then Some(SignerMismatch)
    else if ex.receipts[i].body.runId != ex.runId then Some(RunMismatch)
    else None
  }

  /** The first defect of receipt i in the Python verifier's order of checks. */
  function ReceiptDefect(s: Scheme, ex: Export, i: nat): Option<BreakReason>
    requires i < |ex.receipts|
  {
    if IdentityDefect(s, ex, i).Some? then IdentityDefect(s, ex, i) else LinkDefect(s, ex.runId, ex.receipts, i)
  }

  // ---- what each verifier reports ----

  ghost predicate IdentityBreak(s: Scheme, ex: Export, i: nat, status: ChainStatus) {
    && i < |ex.receipts|
    && (forall j :: 0 <= j < i ==> IdentityDefect(s, ex, j).None?)
    && IdentityDefect(s, ex, i).Some?
    && status == Broken(ex.receipts[i].body.seqNo, IdentityDefect(s, ex, i).value)
  }

  ghost predicate NoIdentityDefect(s: Scheme, ex: Export) {
    forall j :: 0 <= j < |ex.receipts| ==> IdentityDefect(s, ex, j).None?
  }

  ghost predicate IsRustStatus(s: Scheme, ex: Export, status: ChainStatus) {
    if ex.signerKeyId != s.keyId then status == Broken(0, SignerMismatch)
    else if ex.receipts == [] then status == Empty
    else if !NoIdentityDefect(s, ex) then exists i :: IdentityBreak(s, ex, i, status)
    else if ChainHolds(s, ex.runId, ex.receipts) then status == Valid(|ex.receipts|)
    else exists i :: BreaksAt(s, ex.runId, ex.receipts, i, status)
  }

  /** Receipts before i are fully in order and free of floats. */
  ghost predicate PassedTo(s: Scheme, hasFloat: Body -> bool, ex: Export, i: nat) {
    i <= |ex.receipts| && forall j :: 0 <= j < i ==> ReceiptDefect(s, ex, j).None? && !hasFloat(ex.receipts[j].body)
  }

  /** Receipt i fails a check the Python verifier makes before it serializes the body. */
  ghost predicate BreaksEarly(s: Scheme, ex: Export, i: nat)
    requires i < |ex.receipts|
  {
    ReceiptDefect(s, ex, i).Some? && ReceiptDefect(s, ex, i) != Some(BadSignature)
  }

  ghost predicate RefusesAt(s: Scheme, hasFloat: Body -> bool, ex: Export, i: nat) {
    PassedTo(s, hasFloat, ex, i) && i < |ex.receipts| && !BreaksEarly(s, ex, i) && hasFloat(ex.receipts[i].body)
  }

  ghost predicate PythonBreak(s: Scheme, hasFloat: Body -> bool, ex: Export, i: nat, status: ChainStatus) {
    && PassedTo(s, hasFloat, ex, i) && i < |ex.receipts|
    && ReceiptDefect(s, ex, i).Some? && (BreaksEarly(s, ex, i) || !hasFloat(ex.receipts[i].body))
    && status == Broken(ex.receipts[i].body.seqNo, ReceiptDefect(s, ex, i).value)
  }

  ghost predicate IsPythonOutcome(s: Scheme, hasFloat: Body -> bool, ex: Export, r: PythonOutcome) {
    if ex.signerKeyId != s.keyId then r == Status(Broken(0, SignerMismatch))
    else if ex.receipts == [] then r == Status(Empty)
    else
      match r
      case Unsupported => exists i :: RefusesAt(s, hasFloat, ex, i)
      case Status(Valid(n)) => n == |ex.receipts| && PassedTo(s, hasFloat, ex, |ex.receipts|)
      case Status(status) => exists i :: PythonBreak(s, hasFloat, ex, i, status)
  }

  // ---- the verifiers ----

  method RustVerifyExport(s: Scheme, ex: Export) returns (status: ChainStatus)
    ensures IsRustStatus(s, ex, status)
  {
    if ex.signerKeyId != s.keyId {
      return Broken(0, SignerMismatch);
    }
    for i := 0 to |ex.receipts|
      invariant forall j :: 0 <= j < i ==> IdentityDefect(s, ex, j).None?
    {
      var r := ex.receipts[i];
      if r.body.signerKeyId != s.keyId {
        status := Broken(r.body.seqNo, SignerMismatch);
        assert IdentityBreak(s, ex, i, status);
        return;
      }
      if r.body.runId != ex.runId {
        status := Broken(r.body.seqNo, RunMismatch);
        assert IdentityBreak(s, ex, i, status);
        return;
      }
    }
    status := VerifyChain(s, ex.receipts);
    assert ex.receipts != [] ==> IdentityDefect(s, ex, 0).None?;
  }

  method PythonVerifyExport(s: Scheme, hasFloat: Body -> bool, ex: Export) returns (r: PythonOutcome)
    ensures IsPythonOutcome(s, hasFloat, ex, r)
  {
    if ex.signerKeyId != s.keyId {
      return Status(Broken(0, SignerMismatch));
    }
    if ex.receipts == [] {
      return Status(Empty);
    }
    var expectedParent: Option<string> := None;
    for i := 0 to |ex.receipts|
      invariant expectedParent == NextParentHash(s, Before(ex.receipts, i))
      invariant PassedTo(s, hasFloat, ex, i)
    {
      var b := ex.receipts[i].body;
      var early :=
        if b.signerKeyId != s.keyId then Some(SignerMismatch)
        else if b.runId != ex.runId then Some(RunMismatch)
        else if b.seqNo != i then Some(SeqMismatch)
        else if b.parentHash != expectedParent then Some(ParentMismatch)
        else None;
      if early.Some? {
        r := Status(Broken(b.seqNo, early.value));
        assert PythonBreak(s, hasFloat, ex, i, r.status);
        return;
      }
      if hasFloat(b) {
        assert RefusesAt(s, hasFloat, ex, i);
        return Unsupported;
      }
      if !s.verifies(ex.receipts[i]) {
        r := Status(Broken(b.seqNo, BadSignature));
        assert PythonBreak(s, hasFloat, ex, i, r.status);
        return;
      }
      expectedParent := Some(s.hash(b));
    }
    return Status(Valid(|ex.receipts|));
  }

  /** The first check of receipt i that fails: its signer label, its run id, then its place in the chain. */
  lemma {:induction false} DefectExactly(s: Scheme, ex: Export, i: nat, reason: BreakReason)
    requires i < |ex.receipts|
    ensures var b := ex.receipts[i].body;
            ReceiptDefect(s, ex, i) == Some(reason) <==>
            if b.signerKeyId != s.keyId then reason == SignerMismatch
            else if b.runId != ex.runId then reason == RunMismatch
            else Reason(s, ex.runId, ex.receipts, i, reason)
    ensures var b := ex.receipts[i].body;
            IdentityDefect(s, ex, i) == Some(reason) <==>
            if b.signerKeyId != s.keyId then reason == SignerMismatch else b.runId != ex.runId && reason == RunMismatch
  {
    ReasonExactly(s, ex.runId, ex.receipts, i, reason);
  }

  // ---- agreement ----

  /** No receipt has a defect exactly when the chain condition holds and every identity is right. */
  lemma {:induction false} NoDefectHolds(s: Scheme, ex: Export)
    requires ex.signerKeyId == s.keyId && ex.receipts != []
    ensures ExportHolds(s, ex) <==> forall i :: 0 <= i < |ex.receipts| ==> ReceiptDefect(s, ex, i).None?
  {
    forall i | 0 <= i < |ex.receipts|
      ensures ReceiptDefect(s, ex, i).None? <==>
              LinkHolds(s, ex.runId, ex.receipts, i) && ex.receipts[i].body.signerKeyId == s.keyId
    {
    }
  }

  lemma {:induction false} RustValidExactly(s: Scheme, ex: Export, status: ChainStatus)
    requires IsRustStatus(s, ex, status)
    ensures status.Valid? <==> ExportHolds(s, ex)
    ensures status.Valid? ==> status.count == |ex.receipts|
    ensures status.Empty? <==> ex.signerKeyId == s.keyId && ex.receipts == []
  {
    if ex.signerKeyId == s.keyId && ex.receipts != [] {
      if NoIdentityDefect(s, ex) {
        forall i: nat | i < |ex.receipts| ensures ex.receipts[i].body.signerKeyId == s.keyId {
          assert IdentityDefect(s, ex, i).None?;
        }
      } else {
        var i: nat :| IdentityBreak(s, ex, i, status);
        assert !(LinkHolds(s, ex.runId, ex.receipts, i) && ex.receipts[i].body.signerKeyId == s.keyId);
      }
    }
  }

  lemma {:induction false} PythonValidExactly(s: Scheme, hasFloat: Body -> bool, ex: Export, r: PythonOutcome)
    requires IsPythonOutcome(s, hasFloat, ex, r) && r.Status?
    ensures r.status.Valid? <==> ExportHolds(s, ex)
    ensures r.status.Valid? ==> r.status.count == |ex.receipts|
    ensures r.status.Empty? <==> ex.signerKeyId == s.keyId && ex.receipts == []
  {
    if ex.signerKeyId == s.keyId && ex.receipts != [] {
      NoDefectHolds(s, ex);
      if r.status.Valid? {
        assert forall j :: 0 <= j < |ex.receipts| ==> ReceiptDefect(s, ex, j).None?;
      } else {
        var i :| PythonBreak(s, hasFloat, ex, i, r.status);
      }
    }
  }

  predicate SameVerdict(a: ChainStatus, b: ChainStatus) {
    (a.Valid? && b.Valid? && a.count == b.count) || (a.Broken? && b.Broken?) || (a.Empty? && b.Empty?)
  }

  /** Whenever the Python verifier reaches a verdict at all, it is the Rust verifier's. */
  lemma VerifiersAgree(s: Scheme, hasFloat: Body -> bool, ex: Export, rust: ChainStatus, python: PythonOutcome)
    requires IsRustStatus(s, ex, rust) && IsPythonOutcome(s, hasFloat, ex, python)
    ensures python.Status? ==> SameVerdict(rust, python.status)
  {
    RustValidExactly(s, ex, rust);
    if python.Status? {
      PythonValidExactly(s, hasFloat, ex, python);
    }
  }

  /** It refuses only a float-carrying receipt that nothing before it disqualifies; so never a float-free export. */
  lemma {:induction false} RefusesOnlyFloats(s: Scheme, hasFloat: Body -> bool, ex: Export, python: PythonOutcome)
    requires IsPythonOutcome(s, hasFloat, ex, python)
    ensures python.Unsupported? <==>
            ex.signerKeyId == s.keyId && exists i :: RefusesAt(s, hasFloat, ex, i)
    ensures (forall i :: 0 <= i < |ex.receipts| ==> !hasFloat(ex.receipts[i].body)) ==> python.Status?
  {
    if ex.signerKeyId == s.keyId && ex.receipts != [] && python.Status? {
      if python.status.Valid? {
        forall i | 0 <= i < |ex.receipts| ensures !RefusesAt(s, hasFloat, ex, i) {
          assert !hasFloat(ex.receipts[i].body);
        }
      } else {
        var j :| PythonBreak(s, hasFloat, ex, j, python.status);
        forall i ensures !RefusesAt(s, hasFloat, ex, i) {
        }
      }
    }
  }

  // ---- which receipt is blamed ----

  /** Receipt i is out of place or wrongly signed before the first wrong label or run id, at receipt j. */
  ghost predicate LinkBreaksAt(s: Scheme, ex: Export, i: nat, j: nat) {
    && i < j < |ex.receipts|
    && LinkDefect(s, ex.runId, ex.receipts, i).Some?
    && IdentityDefect(s, ex, j).Some?
    && forall k :: 0 <= k < j ==> IdentityDefect(s, ex, k).None?
  }

  ghost predicate LinkBreaksFirst(s: Scheme, ex: Export) {
    exists i: nat, j: nat :: LinkBreaksAt(s, ex, i, j)
  }

  lemma {:induction false} FirstIdentityBreak(s: Scheme, ex: Export, status: ChainStatus) returns (j: nat)
    requires IsRustStatus(s, ex, status) && ex.signerKeyId == s.keyId && !NoIdentityDefect(s, ex)
    ensures IdentityBreak(s, ex, j, status)
  {
    assert ex.receipts != [];
    j :| IdentityBreak(s, ex, j, status);
  }

  /** With a wrong label or run id first at j, the verifiers differ exactly if the Python one stops before. */
  lemma {:induction false} BlameWithIdentityDefect(
      s: Scheme, hasFloat: Body -> bool, ex: Export, rust: ChainStatus, j: nat, python: ChainStatus, i: nat)
    requires IdentityBreak(s, ex, j, rust) && PythonBreak(s, hasFloat, ex, i, python)
    ensures i <= j && (i < j ==> LinkBreaksAt(s, ex, i, j))
    ensures rust == python <==> i == j
    ensures rust == python <==> !LinkBreaksFirst(s, ex)
  {
    forall k: nat | k < i ensures IdentityDefect(s, ex, k).None? {
      assert ReceiptDefect(s, ex, k).None?;
    }
    if i < j {
      assert IdentityDefect(s, ex, i).None?;
      assert LinkBreaksAt(s, ex, i, j);
    }
    forall m: nat, n: nat | LinkBreaksAt(s, ex, m, n) ensures i <= m < j {
      forall k: nat | k < i ensures LinkDefect(s, ex.runId, ex.receipts, k).None? {
        assert ReceiptDefect(s, ex, k).None?;
      }
    }
  }

  /** With none, both stop at the first receipt out of place or wrongly signed. */
  lemma {:induction false} BlameWithoutIdentityDefect(
      s: Scheme, hasFloat: Body -> bool, ex: Export, rust: ChainStatus, j: nat, python: ChainStatus, i: nat)
    requires NoIdentityDefect(s, ex)
    requires BreaksAt(s, ex.runId, ex.receipts, j, rust) && PythonBreak(s, hasFloat, ex, i, python)
    ensures rust == python && !LinkBreaksFirst(s, ex)
  {
    forall k: nat | k < j ensures LinkDefect(s, ex.runId, ex.receipts, k).None? {
      assert LinkHolds(s, ex.runId, ex.receipts, k);
    }
    forall k: nat | k < i ensures LinkDefect(s, ex.runId, ex.receipts, k).None? {
      assert ReceiptDefect(s, ex, k).None? && IdentityDefect(s, ex, k).None?;
    }
    assert IdentityDefect(s, ex, i).None?;
  }

  /**
   When the Python verifier reaches a verdict, both verifiers report the same status (the same
   count, or the same receipt and reason) exactly when the export itself claims the wrong signer or
   no receipt is out of place or wrongly signed before the first one with a wrong label or run id.
   */
  lemma {:induction false} BlameExactly(
      s: Scheme, hasFloat: Body -> bool, ex: Export, rust: ChainStatus, python: PythonOutcome)
    requires IsRustStatus(s, ex, rust) && IsPythonOutcome(s, hasFloat, ex, python) && python.Status?
    ensures rust == python.status <==> ex.signerKeyId != s.keyId || !LinkBreaksFirst(s, ex)
  {
    if ex.signerKeyId == s.keyId && ex.receipts != [] {
      VerifiersAgree(s, hasFloat, ex, rust, python);
      if python.status.Valid? {
        assert forall k :: 0 <= k < |ex.receipts| ==> ReceiptDefect(s, ex, k).None?;
      } else {
        var i: nat :| PythonBreak(s, hasFloat, ex, i, python.status);
        if NoIdentityDefect(s, ex) {
          var j: nat :| BreaksAt(s, ex.runId, ex.receipts, j, rust);
          BlameWithoutIdentityDefect(s, hasFloat, ex, rust, j, python.status, i);
        } else {
          var j := FirstIdentityBreak(s, ex, rust);
          BlameWithIdentityDefect(s, hasFloat, ex, rust, j, python.status, i);
        }
      }
    }
  }

  /** Broken exports may be blamed on different receipts: a bad signature before a foreign run id. */
  lemma {:induction false} BlameCanDiffer(s: Scheme, hasFloat: Body -> bool, r0: Receipt, r1: Receipt,
                                          rust: ChainStatus, python: PythonOutcome)
    requires r0.body.seqNo == 0 && r0.body.parentHash == None && r0.body.signerKeyId == s.keyId
    requires !s.verifies(r0) && !hasFloat(r0.body)
    requires r1.body.signerKeyId == s.keyId && r1.body.runId != r0.body.runId && r1.body.seqNo != 0
    requires var ex := Export(r0.body.runId, s.keyId, [r0, r1]);
             IsRustStatus(s, ex, rust) && IsPythonOutcome(s, hasFloat, ex, python)
    ensures rust == Broken(r1.body.seqNo, RunMismatch) && python == Status(Broken(0, BadSignature))
  {
    var ex := Export(r0.body.runId, s.keyId, [r0, r1]);
    assert IdentityDefect(s, ex, 0).None? && IdentityDefect(s, ex, 1) == Some(RunMismatch);
    assert ReceiptDefect(s, ex, 0) == Some(BadSignature);
    assert !NoIdentityDefect(s, ex);
    var i :| IdentityBreak(s, ex, i, rust);
    assert i == 1;
    RefusesOnlyFloats(s, hasFloat, ex, python);
    assert !PassedTo(s, hasFloat, ex, 1);
  }
}
