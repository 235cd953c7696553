/**
 How guard outcomes reach the merged decision. The overlay may only tighten the baseline,
 and over all sequences of outcomes errors only tighten the result exactly for verdicts
 that put no Review before a Block.
 */
module FailClosed {
  import opened Outcomes
  import opened Ast
  import opened CoreTypes
  import opened Values
  import opened Eval
  import opened ProgramEvaluation

  function Rank(d: Decision): nat {
    match d
    case AllowAction => 0
    case ReviewAction => 1
    case BlockAction => 2
  }

  function Stricter(a: Decision, b: Decision): Decision {
    if Rank(a) >= Rank(b) then a else b
  }

  function AsDecision(v: Verdict): Decision {
    match v
    case Allow => AllowAction
    case Review => ReviewAction
    case Block => BlockAction
  }

  function MergeDecisions(baseline: Decision, v: Verdict): Decision {
    Stricter(baseline, AsDecision(v))
  }

  /** The decision after the overlay: the baseline, merged with the fired verdict if there is one. */
  function Merged(baseline: Decision, fired: Option<Verdict>): Decision {
    match fired
    case None => baseline
    case Some(v) => MergeDecisions(baseline, v)
  }

  // ---- programs seen as verdicts and guard outcomes ----

  /** The verdict of the first policy that fires. */
  function Fired(vs: seq<Verdict>, gs: seq<Guard>): Option<Verdict>
    requires |vs| == |gs|
  {
    if vs == [] then None
    else if Fires(gs[0], vs[0]) then Some(vs[0])
    else Fired(vs[1..], gs[1..])
  }

  function Verdicts(ps: seq<Policy>): seq<Verdict> {
    seq(|ps|, i requires 0 <= i < |ps| => ps[i].action.verdict)
  }

  function Guards(h: Host, ps: seq<Policy>, root: Json): seq<Guard> {
    seq(|ps|, i requires 0 <= i < |ps| => GuardOf(h, ps[i], root))
  }

  /** The traced evaluator's verdict is the first fire over the resolved guards. */
  lemma {:induction false} TraceVerdict(h: Host, ps: seq<Policy>, root: Json, t: Trace)
    requires IsTrace(h, ps, root, t)
    ensures Fired(Verdicts(ps), Guards(h, ps, root)) == if t.fired.Some? then Some(t.fired.value.verdict) else None
  {
    var vs, gs := Verdicts(ps), Guards(h, ps, root);
    var k := FirstFire(h, ps, root);
    assert forall i :: 0 <= i < |ps| ==> vs[i] == ps[i].action.verdict && gs[i] == GuardOf(h, ps[i], root);
    FiredAt(vs, gs, k);
  }

  lemma {:induction false} FiredAt(vs: seq<Verdict>, gs: seq<Guard>, k: nat)
    requires |vs| == |gs| && k <= |vs|
    requires forall i :: 0 <= i < k ==> !Fires(gs[i], vs[i])
    requires k < |vs| ==> Fires(gs[k], vs[k])
    ensures Fired(vs, gs) == if k < |vs| then Some(vs[k]) else None
    decreases k
  {
    if k > 0 {
      forall i | 0 <= i < k - 1
        ensures !Fires(gs[1..][i], vs[1..][i])
      {
        assert gs[1..][i] == gs[i + 1] && vs[1..][i] == vs[i + 1];
      }
      FiredAt(vs[1..], gs[1..], k - 1);
    }
  }

  /** The overlay never relaxes the baseline. */
  lemma MergeTightens(baseline: Decision, fired: Option<Verdict>)
    ensures Rank(Merged(baseline, fired)) >= Rank(baseline)
    ensures fired.Some? ==> Rank(Merged(baseline, fired)) >= Rank(AsDecision(fired.value))
    ensures Merged(baseline, fired) == baseline || (fired.Some? && Merged(baseline, fired) == AsDecision(fired.value))
  {
  }

  /** It blocks if either side does, else reviews if either side does. */
  lemma MergedExactly(baseline: Decision, fired: Option<Verdict>)
    ensures Merged(baseline, fired) == BlockAction <==> baseline == BlockAction || fired == Some(Block)
    ensures Merged(baseline, fired) == AllowAction <==> baseline == AllowAction && (fired == None || fired == Some(Allow))
  {
  }

  // ---- errors only tighten, exactly when no Review precedes a Block ----

  /** gs' is gs with some outcomes turned into errors. */
  ghost predicate Worsened(gs: seq<Guard>, gs': seq<Guard>) {
    |gs| == |gs'| && forall i :: 0 <= i < |gs| ==> gs'[i] == gs[i] || gs'[i] == Errors
  }

  /** Over all sequences of guard outcomes, turning some into errors never lowers the merged decision. */
  ghost predicate OutcomesOnlyTighten(vs: seq<Verdict>) {
    forall baseline, gs, gs' :: |gs| == |vs| && Worsened(gs, gs') ==>
      Rank(Merged(baseline, Fired(vs, gs'))) >= Rank(Merged(baseline, Fired(vs, gs)))
  }

  predicate NoReviewBeforeBlock(vs: seq<Verdict>) {
    forall i, j :: 0 <= i < j < |vs| ==> !(vs[i] == Review && vs[j] == Block)
  }

  lemma {:induction false} OutcomesOnlyTightenExactly(vs: seq<Verdict>)
    ensures OutcomesOnlyTighten(vs) <==> NoReviewBeforeBlock(vs)
  {
    if NoReviewBeforeBlock(vs) {
      forall baseline, gs, gs' | |gs| == |vs| && Worsened(gs, gs')
        ensures Rank(Merged(baseline, Fired(vs, gs'))) >= Rank(Merged(baseline, Fired(vs, gs)))
      {
        WorsenedFires(vs, gs, gs');
      }
    } else {
      var i, j :| 0 <= i < j < |vs| && vs[i] == Review && vs[j] == Block;
      HiddenOutcome(vs, i, j);
    }
  }

  /** An erroring Review outcome hides a later Block that would have fired. */
  lemma {:induction false} HiddenOutcome(vs: seq<Verdict>, i: nat, j: nat)
    requires i < j < |vs| && vs[i] == Review && vs[j] == Block
    ensures !OutcomesOnlyTighten(vs)
  {
    var gs := seq(|vs|, m => if m == j then Holds else Fails);
    var gs' := gs[i := Errors];
    FiredAt(vs, gs, j);
    FiredAt(vs, gs', i);
    assert Worsened(gs, gs');
    assert Rank(Merged(AllowAction, Fired(vs, gs'))) < Rank(Merged(AllowAction, Fired(vs, gs)));
  }

  function Strength(fired: Option<Verdict>): nat {
    if fired.Some? then Rank(AsDecision(fired.value)) else 0
  }

  lemma {:induction false} WorsenedFires(vs: seq<Verdict>, gs: seq<Guard>, gs': seq<Guard>)
    requires |vs| == |gs| && Worsened(gs, gs') && NoReviewBeforeBlock(vs)
    ensures Strength(Fired(vs, gs')) >= Strength(Fired(vs, gs))
    decreases |vs|
  {
    if vs != [] && !(Fires(gs[0], vs[0]) && Fires(gs'[0], vs[0])) {
      if Fires(gs'[0], vs[0]) {
        StrengthBound(vs[1..], gs[1..], vs[0]);
      } else {
        WorsenedFires(vs[1..], gs[1..], gs'[1..]);
      }
    }
  }

  /** After an erroring Review, no later policy can be stricter; after a Block, none at all is. */
  lemma {:induction false} StrengthBound(vs: seq<Verdict>, gs: seq<Guard>, v: Verdict)
    requires |vs| == |gs| && v != Allow && (v == Review ==> forall j :: 0 <= j < |vs| ==> vs[j] != Block)
    ensures Strength(Fired(vs, gs)) <= Rank(AsDecision(v))
    decreases |vs|
  {
    if vs != [] {
      StrengthBound(vs[1..], gs[1..], v);
    }
  }
}
