/**
 What running a program answers, in terms of the meanings and steps of its guards alone: which
 policy fires, what is reported of it, and when evaluation fails or runs out of budget.
 */
module ProgramLaws {
  import opened Outcomes
  import opened Ast
  import opened Values
  import opened Eval
  import opened Evaluator
  import opened ProgramEvaluation
  import opened ValueLaws

  // ---- guards ----

  ghost predicate GuardTrue(h: Host, p: Policy, root: Json) {
    Meaning(h, p.guard, root).Ok? && !CountsAsFalse(Meaning(h, p.guard, root).value)
  }

  ghost predicate GuardFalse(h: Host, p: Policy, root: Json) {
    Meaning(h, p.guard, root).Ok? && CountsAsFalse(Meaning(h, p.guard, root).value)
  }

  /** The guards of the first k policies are all false. */
  ghost predicate FalseUpTo(h: Host, ps: seq<Policy>, root: Json, k: nat) {
    k <= |ps| && forall i :: 0 <= i < k ==> GuardFalse(h, ps[i], root)
  }

  // ---- the plain evaluator ----

  /** The steps of the first k guards. */
  function Spent(h: Host, ps: seq<Policy>, root: Json, k: nat): nat
    requires k <= |ps|
  {
    if k == 0 then 0 else Spent(h, ps, root, k - 1) + Steps(h, ps[k - 1].guard, root)
  }

  /** What a policy with a true guard comes to: itself with its evidence, or the evidence's failure. */
  function FiredBy(h: Host, p: Policy, root: Json): Result<PolicyFired, EvalError> {
    match p.action.evidence
    case None => Ok(PolicyFired(p.name, p.action.verdict, p.action.reason, None))
    case Some(e) =>
      match Meaning(h, e, root)
      case Ok(v) => Ok(PolicyFired(p.name, p.action.verdict, p.action.reason, Some(v)))
      case Err(err) => Err(err)
  }

  function EvidenceSteps(h: Host, p: Policy, root: Json): nat {
    if p.action.evidence.Some? then Steps(h, p.action.evidence.value, root) else 0
  }

  /** What evaluation comes to at a policy whose guard is not false. */
  function StopOutcome(h: Host, p: Policy, root: Json): Result<Option<PolicyFired>, EvalError> {
    if Meaning(h, p.guard, root).Err? then Err(Meaning(h, p.guard, root).error)
    else
      match FiredBy(h, p, root)
      case Ok(fired) => Ok(Some(fired))
      case Err(err) => Err(err)
  }

  function StopSteps(h: Host, p: Policy, root: Json): nat {
    Steps(h, p.guard, root) + if Meaning(h, p.guard, root).Ok? then EvidenceSteps(h, p, root) else 0
  }

  /** Policy k is the first whose guard is not false, or there is none and k is their number. */
  ghost predicate FirstNotFalse(h: Host, ps: seq<Policy>, root: Json, k: nat) {
    FalseUpTo(h, ps, root, k) && (k < |ps| ==> !GuardFalse(h, ps[k], root))
  }

  lemma {:induction false} FirstNotFalseExists(h: Host, ps: seq<Policy>, root: Json) returns (k: nat)
    ensures FirstNotFalse(h, ps, root, k)
  {
    k := 0;
    while k < |ps| && GuardFalse(h, ps[k], root)
      invariant FalseUpTo(h, ps, root, k)
    {
      k := k + 1;
    }
  }

  function PlainOutcome(h: Host, ps: seq<Policy>, root: Json, k: nat): Result<Option<PolicyFired>, EvalError> {
    if k < |ps| then StopOutcome(h, ps[k], root) else Ok(None)
  }

  function PlainSteps(h: Host, ps: seq<Policy>, root: Json, k: nat): nat
    requires k <= |ps|
  {
    Spent(h, ps, root, k) + if k < |ps| then StopSteps(h, ps[k], root) else 0
  }

  lemma {:induction false} PlainCharges(h: Host, ps: seq<Policy>, root: Json, m: Meter, k: nat)
    requires FirstNotFalse(h, ps, root, k)
    ensures RunPlain(h, ps, root, m) == Charge(m, PlainSteps(h, ps, root, k), PlainOutcome(h, ps, root, k))
    decreases k
  {
    if k > 0 {
      assert GuardFalse(h, ps[0], root);
      FalseTail(h, ps, root, k);
      PlainCharges(h, ps[1..], root, Metered(h, ps[0].guard, root, m).1, k - 1);
      PlainTail(h, ps, root, k);
      PlainSkips(h, ps, root, m, PlainOutcome(h, ps[1..], root, k - 1), PlainSteps(h, ps[1..], root, k - 1));
    } else if ps != [] {
      StopCharges(h, ps, root, m);
    }
  }

  lemma {:induction false} FalseTail(h: Host, ps: seq<Policy>, root: Json, k: nat)
    requires k > 0 && FirstNotFalse(h, ps, root, k)
    ensures FirstNotFalse(h, ps[1..], root, k - 1)
  {
    assert forall i :: 1 <= i < |ps| ==> ps[i] == ps[1..][i - 1];
  }

  lemma {:induction false} PlainTail(h: Host, ps: seq<Policy>, root: Json, k: nat)
    requires 0 < k <= |ps|
    ensures PlainOutcome(h, ps, root, k) == PlainOutcome(h, ps[1..], root, k - 1)
    ensures PlainSteps(h, ps, root, k) == Steps(h, ps[0].guard, root) + PlainSteps(h, ps[1..], root, k - 1)
  {
    SpentCons(h, ps, root, k - 1);
    assert k < |ps| ==> ps[k] == ps[1..][k - 1];
  }

  /**
   Given enough steps for the guards up to policy k, and its evidence, the plain evaluator answers
   what policy k comes to, or that none fired; given fewer it uses up all there are.
   */
  lemma {:induction false} PlainExactly(h: Host, ps: seq<Policy>, root: Json, m: Meter, k: nat)
    requires FirstNotFalse(h, ps, root, k)
    ensures var (r, steps) := (PlainOutcome(h, ps, root, k), PlainSteps(h, ps, root, k));
            RunPlain(h, ps, root, m) ==
            if steps <= m.remaining then (Lift(r), Meter(m.remaining - steps, m.total + steps))
            else (Err(BudgetExhausted(m.total + m.remaining)), Meter(0, m.total + m.remaining))
  {
    PlainCharges(h, ps, root, m, k);
  }

  lemma {:induction false} PlainSkips(
      h: Host, ps: seq<Policy>, root: Json, m: Meter, r: Result<Option<PolicyFired>, EvalError>, steps: nat)
    requires ps != [] && GuardFalse(h, ps[0], root)
    requires var m1 := Metered(h, ps[0].guard, root, m).1; RunPlain(h, ps[1..], root, m1) == Charge(m1, steps, r)
    ensures RunPlain(h, ps, root, m) == Charge(m, Steps(h, ps[0].guard, root) + steps, r)
  {
  }

  lemma {:induction false} StopCharges(h: Host, ps: seq<Policy>, root: Json, m: Meter)
    requires ps != [] && !GuardFalse(h, ps[0], root)
    ensures RunPlain(h, ps, root, m) == Charge(m, StopSteps(h, ps[0], root), StopOutcome(h, ps[0], root))
  {
    var (g, m1) := Metered(h, ps[0].guard, root, m);
    if g.Ok? {
      FireCharges(h, ps[0], root, m1);
    }
  }

  lemma {:induction false} FireCharges(h: Host, p: Policy, root: Json, m: Meter)
    requires Meaning(h, p.guard, root).Ok?
    ensures FirePlain(h, p, root, m) == Charge(m, EvidenceSteps(h, p, root), StopOutcome(h, p, root))
  {
  }

  lemma {:induction false} SpentCons(h: Host, ps: seq<Policy>, root: Json, k: nat)
    requires k < |ps|
    ensures Spent(h, ps, root, k + 1) == Steps(h, ps[0].guard, root) + Spent(h, ps[1..], root, k)
  {
    if k == 0 {
      assert Spent(h, ps, root, 0) == 0;
    } else {
      SpentCons(h, ps, root, k - 1);
      assert ps[1..][k - 1] == ps[k];
    }
  }

  // ---- the traced evaluator ----

  /** Under its own budget of 10,000 steps the guard fails, or is not done. */
  ghost predicate GuardErrs(h: Host, p: Policy, root: Json) {
    Steps(h, p.guard, root) > 10_000 || Meaning(h, p.guard, root).Err?
  }

  /** Policy i lets evaluation go on: its guard is false, or errs and the policy would only allow. */
  ghost predicate PassesOver(h: Host, p: Policy, root: Json) {
    if GuardErrs(h, p, root) then p.action.verdict == Allow else GuardFalse(h, p, root)
  }

  ghost predicate PassesUpTo(h: Host, ps: seq<Policy>, root: Json, k: nat) {
    k <= |ps| && forall i :: 0 <= i < k ==> PassesOver(h, ps[i], root)
  }

  /** What is reported of a policy that fires. */
  ghost predicate ReportedAs(h: Host, p: Policy, root: Json, fired: PolicyFired) {
    && fired.name == p.name && fired.verdict == p.action.verdict
    && if GuardErrs(h, p, root) then
         fired.reason == Some("dictum-eval-error") && fired.evidence == None
       else
         && fired.reason == p.action.reason
         && match p.action.evidence
            case None => fired.evidence == None
            case Some(e) =>
              if Steps(h, e, root) <= 10_000 && Meaning(h, e, root).Ok? then
                fired.evidence == Some(Meaning(h, e, root).value)
              else
                fired.evidence == None
  }

  lemma {:induction false} GuardReads(h: Host, p: Policy, root: Json)
    ensures GuardOf(h, p, root) ==
            if GuardErrs(h, p, root) then Errors else if GuardTrue(h, p, root) then Guard.Holds else Fails
    ensures PassesOver(h, p, root) <==> !Fires(GuardOf(h, p, root), p.action.verdict)
  {
  }

  lemma {:induction false} ReportReads(h: Host, p: Policy, root: Json)
    ensures ReportedAs(h, p, root, Report(h, p, root))
  {
    GuardReads(h, p, root);
  }

  lemma {:induction false} AnyErrorExactly(h: Host, ps: seq<Policy>, root: Json, k: nat)
    requires k <= |ps|
    ensures AnyError(h, ps, root, k) <==> exists i :: 0 <= i < k && GuardErrs(h, ps[i], root)
  {
    if k > 0 {
      AnyErrorExactly(h, ps, root, k - 1);
      GuardReads(h, ps[k - 1], root);
    }
  }

  /**
   The first policy not passed over fires, and is reported; the policies up to it, or all of them,
   were evaluated, and the trace says whether any of their guards erred.
   */
  lemma {:induction false} TraceExactly(h: Host, ps: seq<Policy>, root: Json, t: Trace)
    requires IsTrace(h, ps, root, t)
    ensures t.fired.None? <==> PassesUpTo(h, ps, root, |ps|)
    ensures t.fired.None? ==> t.evaluated == |ps| && t.firedNames == []
    ensures t.fired.Some? ==>
              && 0 < t.evaluated <= |ps|
              && var p := ps[t.evaluated - 1];
                 && PassesUpTo(h, ps, root, t.evaluated - 1) && !PassesOver(h, p, root)
                 && ReportedAs(h, p, root, t.fired.value) && t.firedNames == [p.name]
    ensures t.errored <==> exists i :: 0 <= i < t.evaluated && GuardErrs(h, ps[i], root)
  {
    var k := FirstFire(h, ps, root);
    forall i | 0 <= i < |ps|
      ensures PassesOver(h, ps[i], root) <==> !Fires(GuardOf(h, ps[i], root), ps[i].action.verdict)
    {
      GuardReads(h, ps[i], root);
    }
    if k < |ps| {
      ReportReads(h, ps[k], root);
    }
    AnyErrorExactly(h, ps, root, t.evaluated);
  }
}
