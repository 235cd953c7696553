/**
 What guard errors do to the decisions of loaded programs: no error weakens the outcome of any
 program with a given list of verdicts exactly when no Review stands before a Block in it.
 */
module ErrorTightening {
  import opened Outcomes
  import opened Ast
  import opened CoreTypes
  import opened Strings
  import opened Values
  import opened Eval
  import opened ProgramEvaluation
  import opened FailClosed
  import opened Structure
  import opened Validator
  import opened Overlay
  import Parsing
  import Printer

  /** The decision on a request: the baseline merged with the program's outcome in the context. */
  function DecisionOn(h: Host, ps: seq<Policy>, ctx: Json, baseline: Decision): Decision {
    Merged(baseline, Fired(Verdicts(ps), Guards(h, ps, ctx)))
  }

  lemma TraceDecides(h: Host, ps: seq<Policy>, ctx: Json, baseline: Decision, t: Trace)
    requires IsTrace(h, ps, ctx, t)
    ensures DecisionOn(h, ps, ctx, baseline)
         == if t.fired.Some? then MergeDecisions(baseline, t.fired.value.verdict) else baseline
  {
    TraceVerdict(h, ps, ctx, t);
  }

  /** Some tokens parse to the program, it has no structural defect, and the schema accepts its paths. */
  ghost predicate Loadable(blank: string -> bool, ps: seq<Policy>) {
    && (exists ts :: Parsing.ParseProgram(ts) == Parsing.Got(Program(ps), |ts|))
    && (forall k :: 0 <= k < |ps| ==> PolicyFine(blank, ps, k))
    && AcceptedUpTo(ProgramPaths(ps), |ProgramPaths(ps)|)
  }

  /** Context b only turns outcomes the guards have in a into errors, and weakens the decision. */
  ghost predicate Weakens(h: Host, ps: seq<Policy>, a: Json, b: Json, baseline: Decision) {
    && Worsened(Guards(h, ps, a), Guards(h, ps, b))
    && Rank(DecisionOn(h, ps, b, baseline)) < Rank(DecisionOn(h, ps, a, baseline))
  }

  /** No loaded program with these verdicts is weakened by errors, in any contexts the host builds. */
  ghost predicate NeverWeakened(h: Host, blank: string -> bool, vs: seq<Verdict>) {
    forall ps, i, j, a, b, baseline ::
      Verdicts(ps) == vs && Loadable(blank, ps) && IsContext(i, a) && IsContext(j, b)
      ==> !Weakens(h, ps, a, b, baseline)
  }

  /** With no Review before a Block nothing weakens the decision, loaded or not, in any contexts at all. */
  lemma OrderedNeverWeakened(h: Host, ps: seq<Policy>, a: Json, b: Json, baseline: Decision)
    requires NoReviewBeforeBlock(Verdicts(ps))
    ensures !Weakens(h, ps, a, b, baseline)
  {
    OutcomesOnlyTightenExactly(Verdicts(ps));
  }

  // ---- otherwise: a loadable program and two requests ----

  /** Names as long as their position, so that no two are equal. */
  function Name(k: nat): string {
    seq(k + 1, _ => 'p')
  }

  const PAYLOAD_X := ["action", "payload", "x"]

  /** `"y" in action.payload.x` */
  const SEARCH := Membership(false, Literal(StrLit("y")), Path(PAYLOAD_X))

  function WitnessPolicy(v: Verdict, k: nat, i: nat, j: nat): Policy {
    Policy(Name(k), if k == i then SEARCH else Literal(BoolLit(k == j)), Action(v, None, None))
  }

  /** Policy i searches a payload field, policy j always holds, the others never do. */
  function WitnessProgram(vs: seq<Verdict>, i: nat, j: nat): (ps: seq<Policy>)
    ensures |ps| == |vs| && Verdicts(ps) == vs
    ensures forall k :: 0 <= k < |vs| ==> ps[k] == WitnessPolicy(vs[k], k, i, j)
  {
    seq(|vs|, k requires 0 <= k < |vs| => WitnessPolicy(vs[k], k, i, j))
  }

  /** A request with one payload field. */
  function Asking(x: Json): Inputs {
    BARE.(request := NO_REQUEST.(payload := map["x" := x]))
  }

  lemma WalkToField(ctx: Json, x: Json)
    requires IsContext(Asking(x), ctx)
    ensures Walk(ctx, PAYLOAD_X) == x
  {
    assert RootValue(Asking(x), "action") == Some(ctx.fields["action"]);
    var action := ctx.fields["action"];
    assert PAYLOAD_X[1..] == ["payload", "x"] && PAYLOAD_X[1..][1..] == ["x"];
    assert Walk(action.fields["payload"], ["x"]) == Walk(x, ["x"][1..]);
  }

  /** The search fails to find anything in empty text, and errs on a number. */
  lemma SearchOutcomes(h: Host, p: Policy, ctx: Json, x: Json)
    requires p.guard == SEARCH && IsContext(Asking(x), ctx)
    ensures x == JStr("") ==> GuardOf(h, p, ctx) == Fails
    ensures x == JInt(0) ==> GuardOf(h, p, ctx) == Errors
  {
    WalkToField(ctx, x);
    var needle, haystack := SEARCH.needle, SEARCH.haystack;
    assert Meaning(h, needle, ctx) == Ok(VStr("y")) && Meaning(h, haystack, ctx) == Ok(JsonToValue(x));
    assert !IsSubstring("y", "");
    assert Steps(h, needle, ctx) == 1 && Steps(h, haystack, ctx) == 1 && Steps(h, SEARCH, ctx) == 3;
    assert Meaning(h, SEARCH, ctx) == Contains(false, VStr("y"), JsonToValue(x));
  }

  lemma ConstantOutcome(h: Host, p: Policy, ctx: Json, holds: bool)
    requires p.guard == Literal(BoolLit(holds))
    ensures GuardOf(h, p, ctx) == if holds then Holds else Fails
  {
    assert Meaning(h, p.guard, ctx) == Ok(VBool(holds)) && Steps(h, p.guard, ctx) == 1;
  }

  lemma WitnessOutcomes(h: Host, vs: seq<Verdict>, i: nat, j: nat, ctx: Json, x: Json)
    requires i < j < |vs| && IsContext(Asking(x), ctx) && (x == JStr("") || x == JInt(0))
    ensures var gs := Guards(h, WitnessProgram(vs, i, j), ctx);
            forall k :: 0 <= k < |vs| ==>
              gs[k] == if k == i then (if x == JInt(0) then Errors else Fails) else if k == j then Holds else Fails
  {
    var ps := WitnessProgram(vs, i, j);
    forall k | 0 <= k < |vs|
      ensures GuardOf(h, ps[k], ctx)
           == if k == i then (if x == JInt(0) then Errors else Fails) else if k == j then Holds else Fails
    {
      if k == i {
        SearchOutcomes(h, ps[k], ctx, x);
      } else {
        ConstantOutcome(h, ps[k], ctx, k == j);
      }
    }
  }

  // ---- the program loads ----

  lemma {:induction false} WitnessPaths(ps: seq<Policy>)
    requires forall p :: p in ps ==> p.action.evidence.None? && (p.guard == SEARCH || p.guard.Literal?)
    ensures forall path :: path in ProgramPaths(ps) ==> path == PAYLOAD_X
    decreases |ps|
  {
    if ps != [] {
      WitnessPaths(ps[1..]);
      assert ps[0] in ps;
      assert ExprPaths(SEARCH) == [] + [PAYLOAD_X];
      assert forall path :: path in PolicyPaths(ps[0]) ==> path == PAYLOAD_X;
    }
  }

  lemma WitnessSound(blank: string -> bool, vs: seq<Verdict>, i: nat, j: nat, k: nat)
    requires forall name :: 'p' in name ==> !blank(name)
    requires k < |vs|
    ensures PolicyFine(blank, WitnessProgram(vs, i, j), k)
  {
    var ps := WitnessProgram(vs, i, j);
    assert Name(k)[0] == 'p';
    forall m | 0 <= m < k ensures ps[m].name != ps[k].name {
      assert |Name(m)| != |Name(k)|;
    }
    assert ExprDefect(SEARCH.needle).None? && ExprDefect(SEARCH.haystack).None?;
    DefectExactly(ps[k].guard);
  }

  lemma WitnessLoadable(blank: string -> bool, vs: seq<Verdict>, i: nat, j: nat)
    requires forall name :: 'p' in name ==> !blank(name)
    ensures Loadable(blank, WitnessProgram(vs, i, j))
  {
    var ps := WitnessProgram(vs, i, j);
    forall k | 0 <= k < |ps| ensures PolicyFine(blank, ps, k) && Printer.PolicyPathsNonEmpty(ps[k]) {
      WitnessSound(blank, vs, i, j, k);
      assert Printer.PathsNonEmpty(SEARCH.needle) && Printer.PathsNonEmpty(SEARCH.haystack);
    }
    Printer.RoundTrip(Program(ps));
    WitnessPaths(ps);
    assert Accepts(PAYLOAD_X);
    forall k | 0 <= k < |ProgramPaths(ps)| ensures Accepts(ProgramPaths(ps)[k]) {
      assert ProgramPaths(ps)[k] in ProgramPaths(ps);
    }
  }

  lemma OutcomesDiffer(vs: seq<Verdict>, gs: seq<Guard>, gs': seq<Guard>, i: nat, j: nat)
    requires i < j < |vs| == |gs| == |gs'| && vs[i] == Review && vs[j] == Block
    requires forall k :: 0 <= k < |vs| ==> gs[k] == if k == j then Holds else Fails
    requires forall k :: 0 <= k < |vs| ==> gs'[k] == if k == i then Errors else if k == j then Holds else Fails
    ensures Worsened(gs, gs') && Fired(vs, gs) == Some(Block) && Fired(vs, gs') == Some(Review)
  {
    FiredAt(vs, gs, j);
    FiredAt(vs, gs', i);
  }

  /**
   For any verdicts with a Review at i before a Block at j there are a loadable program and two
   requests on which an erroring Review hides the Block: an empty field is blocked, a numeric one
   only reviewed.
   */
  lemma HiddenBlock(h: Host, blank: string -> bool, vs: seq<Verdict>, i: nat, j: nat, a: Json, b: Json)
    requires forall name :: 'p' in name ==> !blank(name)
    requires i < j < |vs| && vs[i] == Review && vs[j] == Block
    requires IsContext(Asking(JStr("")), a) && IsContext(Asking(JInt(0)), b)
    ensures var ps := WitnessProgram(vs, i, j);
            && Loadable(blank, ps) && Worsened(Guards(h, ps, a), Guards(h, ps, b))
            && DecisionOn(h, ps, a, AllowAction) == BlockAction
            && DecisionOn(h, ps, b, AllowAction) == ReviewAction
  {
    var ps := WitnessProgram(vs, i, j);
    WitnessLoadable(blank, vs, i, j);
    WitnessOutcomes(h, vs, i, j, a, JStr(""));
    WitnessOutcomes(h, vs, i, j, b, JInt(0));
    OutcomesDiffer(vs, Guards(h, ps, a), Guards(h, ps, b), i, j);
  }

  /** Whitespace trimming never blanks a name with a letter; then the order of verdicts decides. */
  lemma ErrorsOnlyTightenExactly(h: Host, blank: string -> bool, vs: seq<Verdict>)
    requires forall name :: 'p' in name ==> !blank(name)
    ensures NeverWeakened(h, blank, vs) <==> NoReviewBeforeBlock(vs)
  {
    if NoReviewBeforeBlock(vs) {
      forall ps, i, j, a, b, baseline |
        Verdicts(ps) == vs && Loadable(blank, ps) && IsContext(i, a) && IsContext(j, b)
        ensures !Weakens(h, ps, a, b, baseline)
      {
        OrderedNeverWeakened(h, ps, a, b, baseline);
      }
    } else {
      var i, j :| 0 <= i < j < |vs| && vs[i] == Review && vs[j] == Block;
      var a := ContextExists(Asking(JStr("")));
      var b := ContextExists(Asking(JInt(0)));
      HiddenBlock(h, blank, vs, i, j, a, b);
      assert Weakens(h, WitnessProgram(vs, i, j), a, b, AllowAction);
    }
  }
}
