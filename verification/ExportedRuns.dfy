/** What the offline verifiers say of the runs a store holds. */
module ExportedRuns {
  import opened Outcomes
  import opened Receipts
  import opened Merkle
  import opened ReceiptStore
  import opened AppendProtocol
  import opened ChainEvidence
  import opened OfflineVerify

  predicate OurOwn(s: Scheme, b: Body) {
    b.signerKeyId == s.keyId
  }

  /** Every body signed, held by a writer or stored names the store's own key. */
  ghost predicate AllOurOwn(s: Scheme, st: State) {
    && (forall b :: b in st.signed ==> OurOwn(s, b))
    && (forall w :: w in st.writers && (st.writers[w].Signed? || st.writers[w].Checked?) ==>
          OurOwn(s, st.writers[w].receipt.body))
    && (forall k :: k in st.rows ==> OurOwn(s, st.rows[k].body))
  }

  lemma {:induction false} StepOurOwn(s: Scheme, st: State, step: Step)
    requires AllOurOwn(s, st) && !step.Fabricate?
    ensures AllOurOwn(s, Apply(s, st, step))
  {
  }

  lemma {:induction false} RunOurOwn(s: Scheme, st: State, steps: seq<Step>)
    requires AllOurOwn(s, st) && Honest(steps)
    ensures AllOurOwn(s, Run(s, st, steps))
    decreases |steps|
  {
    if steps != [] {
      StepOurOwn(s, st, steps[0]);
      RunOurOwn(s, Apply(s, st, steps[0]), steps[1..]);
    }
  }

  /** The export of a run that the store holds. */
  ghost function ExportOf(s: Scheme, rows: Rows, runId: string): Export {
    Export(runId, s.keyId, RowsOf(rows, runId))
  }

  /** Whatever honest writers did, the export of any stored run is valid to the Rust verifier, and to the
      Python one unless it refuses a float. */
  lemma {:induction false} StoredRunVerifies(
      s: Scheme, steps: seq<Step>, runId: string, hasFloat: Body -> bool, rust: ChainStatus, python: PythonOutcome)
    requires SignsCorrectly(s) && Honest(steps)
    requires var ex := ExportOf(s, Run(s, INIT, steps).rows, runId);
             ex.receipts != [] && IsRustStatus(s, ex, rust) && IsPythonOutcome(s, hasFloat, ex, python)
    ensures var n := |RowsOf(Run(s, INIT, steps).rows, runId)|;
            rust == Valid(n) && (python == Status(Valid(n)) || python == Unsupported)
  {
    var rows := Run(s, INIT, steps).rows;
    var ex := ExportOf(s, rows, runId);
    RunSafe(s, INIT, steps);
    RunOurOwn(s, INIT, steps);
    EveryInterleavingChains(s, steps, runId);
    forall i | 0 <= i < |ex.receipts| ensures ex.receipts[i].body.signerKeyId == s.keyId {
      RowAt(s, rows, runId, i);
    }
    assert ExportHolds(s, ex);
    RustValidExactly(s, ex, rust);
    VerifiersAgree(s, hasFloat, ex, rust, python);
  }

  /** Of the exports of really signed bodies, a valid one copies the stored run up to its last receipt. */
  lemma {:induction false} ValidExportAgrees(s: Scheme, steps: seq<Step>, ex: Export, rust: ChainStatus)
    requires SignsCorrectly(s) && Injective(s) && Honest(steps) && IsRustStatus(s, ex, rust) && rust.Valid?
    requires forall i :: 0 <= i < |ex.receipts| ==> ex.receipts[i].body in Run(s, INIT, steps).signed
    ensures var rs := RowsOf(Run(s, INIT, steps).rows, ex.runId);
            && 0 < |ex.receipts| <= |rs| + 1
            && forall i :: 0 <= i < |ex.receipts| - 1 ==> ex.receipts[i].body == rs[i].body
  {
    RustValidExactly(s, ex, rust);
    AcceptedChainAgrees(s, steps, ex.runId, ex.receipts);
  }
}
