/**
 Running a whole program: the plain evaluator, with one budget shared by every policy, and
 the traced evaluator the enforcing overlay uses, with a fresh budget per expression and
 guard errors that fail closed.
 */
module ProgramEvaluation {
  import opened Outcomes
  import opened Ast
  import opened Values
  import opened Eval
  import opened Evaluator

  datatype PolicyFired = PolicyFired(name: string, verdict: Verdict, reason: Option<string>, evidence: Option<Value>)

  datatype Trace = Trace(fired: Option<PolicyFired>, evaluated: nat, firedNames: seq<string>, errored: bool)

  const EVAL_ERROR_REASON := "dictum-eval-error"

  // ---- specifications ----

  /** First policy to fire, charging every guard and the fired evidence to one meter. */
  function RunPlain(h: Host, ps: seq<Policy>, root: Json, m: Meter): (Result<Option<PolicyFired>, RunError>, Meter)
    decreases |ps|
  {
    if ps == [] then (Ok(None), m)
    else
      var (g, m1) := Metered(h, ps[0].guard, root, m);
      if g.Err? then (Err(g.error), m1)
      else if Truthy(g.value) then FirePlain(h, ps[0], root, m1)
      else RunPlain(h, ps[1..], root, m1)
  }

  function FirePlain(h: Host, p: Policy, root: Json, m: Meter): (Result<Option<PolicyFired>, RunError>, Meter) {
    match p.action.evidence
    case None => (Ok(Some(PolicyFired(p.name, p.action.verdict, p.action.reason, None))), m)
    case Some(e) =>
      var (v, m1) := Metered(h, e, root, m);
      if v.Err? then (Err(v.error), m1)
      else (Ok(Some(PolicyFired(p.name, p.action.verdict, p.action.reason, Some(v.value)))), m1)
  }

  /** The outcome of e under its own default budget. */
  function Fresh(h: Host, e: Expr, root: Json): Result<Value, RunError> {
    Metered(h, e, root, Meter(DEFAULT_STEPS, 0)).0
  }

  /** A guard's outcome as the traced evaluator reads it. */
  datatype Guard = Holds | Fails | Errors

  function GuardOf(h: Host, p: Policy, root: Json): Guard {
    var g := Fresh(h, p.guard, root);
    if g.Err? then Errors else if Truthy(g.value) then Holds else Fails
  }

  /** An error counts as true for Review and Block, and as false for Allow. */
  predicate Fires(g: Guard, v: Verdict) {
    g == Holds || (g == Errors && v != Allow)
  }

  /** What a fired policy reports: an erroring guard names the error and drops the evidence. */
  function Report(h: Host, p: Policy, root: Json): PolicyFired {
    if GuardOf(h, p, root) == Errors then
      PolicyFired(p.name, p.action.verdict, Some(EVAL_ERROR_REASON), None)
    else
      PolicyFired(p.name, p.action.verdict, p.action.reason, EvidenceOf(h, p, root))
  }

  /** Evidence is kept when it evaluates and dropped when it does not. */
  function EvidenceOf(h: Host, p: Policy, root: Json): Option<Value> {
    match p.action.evidence
    case None => None
    case Some(e) => var v := Fresh(h, e, root); if v.Ok? then Some(v.value) else None
  }

  /** The position of the first policy that fires, or |ps|. */
  function FirstFire(h: Host, ps: seq<Policy>, root: Json): (k: nat)
    ensures k <= |ps|
    ensures k < |ps| ==> Fires(GuardOf(h, ps[k], root), ps[k].action.verdict)
    ensures forall i :: 0 <= i < k ==> !Fires(GuardOf(h, ps[i], root), ps[i].action.verdict)
    decreases |ps|
  {
    if ps == [] || Fires(GuardOf(h, ps[0], root), ps[0].action.verdict) then 0
    else 1 + FirstFire(h, ps[1..], root)
  }

  /** Some guard among the first k errs. */
  predicate AnyError(h: Host, ps: seq<Policy>, root: Json, k: nat)
    requires k <= |ps|
  {
    k > 0 && (GuardOf(h, ps[k - 1], root) == Errors || AnyError(h, ps, root, k - 1))
  }

  /** The traced evaluation: first fire over resolved guards. */
  ghost predicate IsTrace(h: Host, ps: seq<Policy>, root: Json, t: Trace) {
    var k := FirstFire(h, ps, root);
    && t.fired == (if k < |ps| then Some(Report(h, ps[k], root)) else None)
    && t.firedNames == (if k < |ps| then [ps[k].name] else [])
    && t.evaluated == (if k < |ps| then k + 1 else |ps|)
    && t.errored == AnyError(h, ps, root, t.evaluated)
  }

  // ---- the evaluators ----

  method EvaluateProgram(h: Host, prog: Program, root: Json, budget: EvalBudget)
    returns (r: Result<Option<PolicyFired>, RunError>)
    modifies budget
    ensures (r, budget.Now()) == RunPlain(h, prog.policies, root, old(budget.Now()))
  {
    var ps := prog.policies;
    assert ps[0..] == ps;
    for k := 0 to |ps|
      invariant RunPlain(h, ps[k..], root, budget.Now()) == RunPlain(h, ps, root, old(budget.Now()))
    {
      assert ps[k..][0] == ps[k] && ps[k..][1..] == ps[k + 1..];
      var fired := EvalExpr(h, ps[k].guard, root, budget);
      if fired.Err? {
        return Err(fired.error);
      }
      if Truthy(fired.value) {
        var evidence: Option<Value> := None;
        if ps[k].action.evidence.Some? {
          var v := EvalExpr(h, ps[k].action.evidence.value, root, budget);
          if v.Err? {
            return Err(v.error);
          }
          evidence := Some(v.value);
        }
        return Ok(Some(PolicyFired(ps[k].name, ps[k].action.verdict, ps[k].action.reason, evidence)));
      }
    }
    return Ok(None);
  }

  method EvalFresh(h: Host, e: Expr, root: Json) returns (r: Result<Value, RunError>)
    ensures r == Fresh(h, e, root)
  {
    var budget := new EvalBudget(DEFAULT_STEPS);
    r := EvalExpr(h, e, root, budget);
  }

  method CollectEvidence(h: Host, p: Policy, root: Json) returns (evidence: Option<Value>)
    ensures evidence == EvidenceOf(h, p, root)
  {
    if p.action.evidence.None? {
      return None;
    }
    var v := EvalFresh(h, p.action.evidence.value, root);
    return if v.Ok? then Some(v.value) else None;
  }

  method EvaluateProgramTraced(h: Host, prog: Program, root: Json) returns (t: Trace)
    ensures IsTrace(h, prog.policies, root, t)
  {
    var ps := prog.policies;
    var evaluated, errored := 0, false;
    for k := 0 to |ps|
      invariant evaluated == k && Quiet(h, ps, root, k)
      invariant errored == AnyError(h, ps, root, k)
    {
      var p := ps[k];
      evaluated := evaluated + 1;
      var g := EvalFresh(h, p.guard, root);
      if g.Ok? && Truthy(g.value) {
        var evidence := CollectEvidence(h, p, root);
        TraceFired(h, ps, root, k, errored);
        return Trace(Some(PolicyFired(p.name, p.action.verdict, p.action.reason, evidence)), evaluated, [p.name], errored);
      }
      if g.Err? {
        errored := true;
        if p.action.verdict != Allow {
          TraceFired(h, ps, root, k, errored);
          return Trace(Some(PolicyFired(p.name, p.action.verdict, Some(EVAL_ERROR_REASON), None)),
                       evaluated, [p.name], errored);
        }
      }
    }
    return Trace(None, evaluated, [], errored);
  }

  /** None of the first k policies fires. */
  ghost predicate Quiet(h: Host, ps: seq<Policy>, root: Json, k: nat) {
    k <= |ps| && forall i :: 0 <= i < k ==> !Fires(GuardOf(h, ps[i], root), ps[i].action.verdict)
  }

  lemma {:induction false} FirstFireAt(h: Host, ps: seq<Policy>, root: Json, k: nat)
    requires k < |ps| && Quiet(h, ps, root, k) && Fires(GuardOf(h, ps[k], root), ps[k].action.verdict)
    ensures FirstFire(h, ps, root) == k
  {
  }

  lemma {:induction false} TraceFired(h: Host, ps: seq<Policy>, root: Json, k: nat, errored: bool)
    requires k < |ps| && Quiet(h, ps, root, k) && Fires(GuardOf(h, ps[k], root), ps[k].action.verdict)
    requires errored == AnyError(h, ps, root, k + 1)
    ensures IsTrace(h, ps, root, Trace(Some(Report(h, ps[k], root)), k + 1, [ps[k].name], errored))
  {
    FirstFireAt(h, ps, root, k);
  }

  // ---- the traced evaluator refines the plain one ----

  /** An expression that a smaller meter can pay for has the same outcome under a fresh budget. */
  lemma {:induction false} FreshAgrees(h: Host, e: Expr, root: Json, m: Meter)
    requires m.remaining <= DEFAULT_STEPS && Metered(h, e, root, m).0.Ok?
    ensures Fresh(h, e, root) == Metered(h, e, root, m).0
  {
  }

  /**
   Whenever the plain evaluator succeeds on one shared default budget, tracing with fresh
   budgets fires exactly the same policy with the same verdict, reason and evidence, and
   no guard it evaluates errs.
   */
  lemma {:induction false} TracedRefinesPlain(h: Host, ps: seq<Policy>, root: Json, m: Meter, t: Trace)
    requires m.remaining <= DEFAULT_STEPS && RunPlain(h, ps, root, m).0.Ok? && IsTrace(h, ps, root, t)
    ensures t.fired == RunPlain(h, ps, root, m).0.value && !t.errored
    decreases |ps|
  {
    if ps != [] {
      var (g, m1) := Metered(h, ps[0].guard, root, m);
      FreshAgrees(h, ps[0].guard, root, m);
      if Truthy(g.value) {
        assert !AnyError(h, ps, root, 1);
        if ps[0].action.evidence.Some? {
          FreshAgrees(h, ps[0].action.evidence.value, root, m1);
        }
      } else {
        var t' := Trace(t.fired, t.evaluated - 1, t.firedNames, t.errored);
        TraceTail(h, ps, root, t);
        TracedRefinesPlain(h, ps[1..], root, m1, t');
      }
    }
  }

  lemma {:induction false} TraceTail(h: Host, ps: seq<Policy>, root: Json, t: Trace)
    requires ps != [] && IsTrace(h, ps, root, t) && GuardOf(h, ps[0], root) == Fails
    ensures t.evaluated > 0 && IsTrace(h, ps[1..], root, t.(evaluated := t.evaluated - 1))
  {
    assert FirstFire(h, ps, root) == 1 + FirstFire(h, ps[1..], root);
    ErrorTail(h, ps, root, t.evaluated);
  }

  lemma {:induction false} ErrorTail(h: Host, ps: seq<Policy>, root: Json, k: nat)
    requires 0 < k <= |ps| && GuardOf(h, ps[0], root) == Fails
    ensures AnyError(h, ps, root, k) == AnyError(h, ps[1..], root, k - 1)
    decreases k
  {
    if k > 1 {
      assert ps[1..][k - 2] == ps[k - 1];
      ErrorTail(h, ps, root, k - 1);
    }
  }
}
