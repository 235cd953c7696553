/** A program's trace depends on the context only through the collected paths. */
module ProgramFootprint {
  import opened Outcomes
  import opened Ast
  import opened Values
  import opened Eval
  import opened Evaluator
  import opened ProgramEvaluation
  import opened Validator
  import opened Footprint

  /** Two contexts that agree on the collected paths of a program get the same trace. */
  lemma {:induction false} TraceReadsPaths(h: Host, ps: seq<Policy>, a: Json, b: Json, t: Trace)
    requires AgreeOn(ProgramPaths(ps), a, b) && IsTrace(h, ps, a, t)
    ensures IsTrace(h, ps, b, t)
  {
    forall k | 0 <= k < |ps|
      ensures GuardOf(h, ps[k], a) == GuardOf(h, ps[k], b) && Report(h, ps[k], a) == Report(h, ps[k], b)
    {
      PolicyReadsPaths(h, ps, k, a, b);
    }
    FirstFireSame(h, ps, a, b);
    AnyErrorSame(h, ps, a, b, t.evaluated);
  }

  lemma {:induction false} PolicyReadsPaths(h: Host, ps: seq<Policy>, k: nat, a: Json, b: Json)
    requires k < |ps| && AgreeOn(ProgramPaths(ps), a, b)
    ensures GuardOf(h, ps[k], a) == GuardOf(h, ps[k], b) && Report(h, ps[k], a) == Report(h, ps[k], b)
    decreases |ps|
  {
    AgreeParts(PolicyPaths(ps[0]), ProgramPaths(ps[1..]), a, b);
    if k == 0 {
      OnePolicyReadsPaths(h, ps[0], a, b);
    } else {
      assert ps[k] == ps[1..][k - 1];
      PolicyReadsPaths(h, ps[1..], k - 1, a, b);
    }
  }

  lemma {:induction false} OnePolicyReadsPaths(h: Host, p: Policy, a: Json, b: Json)
    requires AgreeOn(PolicyPaths(p), a, b)
    ensures GuardOf(h, p, a) == GuardOf(h, p, b) && Report(h, p, a) == Report(h, p, b)
  {
    AgreeParts(ExprPaths(p.guard), EvidencePaths(p), a, b);
    FreshReadsPaths(h, p.guard, a, b);
    if p.action.evidence.Some? {
      FreshReadsPaths(h, p.action.evidence.value, a, b);
    }
  }

  lemma {:induction false} FreshReadsPaths(h: Host, e: Expr, a: Json, b: Json)
    requires AgreeOn(ExprPaths(e), a, b)
    ensures Fresh(h, e, a) == Fresh(h, e, b)
  {
    MeaningReadsPaths(h, e, a, b);
  }

  lemma {:induction false} FirstFireSame(h: Host, ps: seq<Policy>, a: Json, b: Json)
    requires forall k :: 0 <= k < |ps| ==> GuardOf(h, ps[k], a) == GuardOf(h, ps[k], b)
    ensures FirstFire(h, ps, a) == FirstFire(h, ps, b)
  {
  }

  lemma {:induction false} AnyErrorSame(h: Host, ps: seq<Policy>, a: Json, b: Json, k: nat)
    requires k <= |ps| && forall i :: 0 <= i < |ps| ==> GuardOf(h, ps[i], a) == GuardOf(h, ps[i], b)
    ensures AnyError(h, ps, a, k) == AnyError(h, ps, b, k)
    decreases k
  {
    if k > 0 {
      AnyErrorSame(h, ps, a, b, k - 1);
    }
  }
}
