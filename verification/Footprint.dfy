/** Evaluation reads nothing of the context but the collected paths. */
module Footprint {
  import opened Outcomes
  import opened Ast
  import opened Builtins
  import opened Values
  import opened Eval
  import opened Validator

  /** The two contexts look the same along every one of the paths. */
  predicate AgreeOn(paths: seq<seq<string>>, a: Json, b: Json) {
    paths == [] || (Walk(a, paths[0]) == Walk(b, paths[0]) && AgreeOn(paths[1..], a, b))
  }

  lemma {:induction false} AgreeParts(p: seq<seq<string>>, q: seq<seq<string>>, a: Json, b: Json)
    requires AgreeOn(p + q, a, b)
    ensures AgreeOn(p, a, b) && AgreeOn(q, a, b)
    decreases |p|
  {
    if p == [] {
      assert p + q == q;
    } else {
      assert (p + q)[0] == p[0] && (p + q)[1..] == p[1..] + q;
      AgreeParts(p[1..], q, a, b);
    }
  }

  /** Evaluating e in either context takes the same steps to the same outcome. */
  ghost predicate SameIn(h: Host, e: Expr, a: Json, b: Json) {
    Meaning(h, e, a) == Meaning(h, e, b) && Steps(h, e, a) == Steps(h, e, b)
  }

  /** An expression means the same in two contexts that agree on its paths. */
  lemma {:induction false} MeaningReadsPaths(h: Host, e: Expr, a: Json, b: Json)
    requires AgreeOn(ExprPaths(e), a, b)
    ensures SameIn(h, e, a, b)
    decreases e, 1
  {
    match e
    case Literal(_) =>
    case Path(segs) => assert ExprPaths(e)[0] == segs;
    case Unary(_, inner) => MeaningReadsPaths(h, inner, a, b);
    case Binary(_, l, r) =>
      PairReadsPaths(h, e, l, r, a, b);
      BinarySame(h, e, a, b);
    case Membership(_, n, hs) =>
      PairReadsPaths(h, e, n, hs, a, b);
      MembershipSame(h, e, a, b);
    case Call(_, _) =>
      CallReadsPaths(h, e, a, b);
      CallSame(h, e, a, b);
  }

  lemma {:induction false} BinarySame(h: Host, e: Expr, a: Json, b: Json)
    requires e.Binary? && SameIn(h, e.left, a, b) && SameIn(h, e.right, a, b)
    ensures SameIn(h, e, a, b)
  {
  }

  lemma {:induction false} MembershipSame(h: Host, e: Expr, a: Json, b: Json)
    requires e.Membership? && SameIn(h, e.needle, a, b) && SameIn(h, e.haystack, a, b)
    ensures SameIn(h, e, a, b)
  {
  }

  lemma {:induction false} CallSame(h: Host, e: Expr, a: Json, b: Json)
    requires e.Call? && CallMeaning(h, e, a) == CallMeaning(h, e, b) && CallSteps(h, e, a) == CallSteps(h, e, b)
    ensures SameIn(h, e, a, b)
  {
  }

  lemma {:induction false} CallReadsPaths(h: Host, e: Expr, a: Json, b: Json)
    requires e.Call? && AgreeOn(ArgsPaths(e.args), a, b)
    ensures CallMeaning(h, e, a) == CallMeaning(h, e, b) && CallSteps(h, e, a) == CallSteps(h, e, b)
    decreases e, 0
  {
    if Named(e.name) != Some(FnSecretRef) {
      ArgsReadPaths(h, e.args, a, b);
    } else if |e.args| == 1 {
      SecretReadsPaths(h, e.args, a, b);
    }
  }

  lemma {:induction false} PairReadsPaths(h: Host, e: Expr, l: Expr, r: Expr, a: Json, b: Json)
    requires l < e && r < e && AgreeOn(ExprPaths(l) + ExprPaths(r), a, b)
    ensures SameIn(h, l, a, b) && SameIn(h, r, a, b)
    decreases e, 0
  {
    AgreeParts(ExprPaths(l), ExprPaths(r), a, b);
    MeaningReadsPaths(h, l, a, b);
    MeaningReadsPaths(h, r, a, b);
  }

  lemma {:induction false} SecretReadsPaths(h: Host, args: seq<Expr>, a: Json, b: Json)
    requires |args| == 1 && AgreeOn(ArgsPaths(args), a, b)
    ensures SubtreeMeaning(h, args[0], a) == SubtreeMeaning(h, args[0], b) && SameIn(h, args[0], a, b)
    decreases args
  {
    AgreeParts(ExprPaths(args[0]), ArgsPaths(args[1..]), a, b);
    SubtreeReadsPaths(h, args[0], a, b);
  }

  lemma {:induction false} SubtreeReadsPaths(h: Host, e: Expr, a: Json, b: Json)
    requires AgreeOn(ExprPaths(e), a, b)
    ensures SubtreeMeaning(h, e, a) == SubtreeMeaning(h, e, b) && SameIn(h, e, a, b)
    decreases e, 2
  {
    MeaningReadsPaths(h, e, a, b);
    if e.Path? {
      assert ExprPaths(e)[0] == e.segs;
    }
  }

  lemma {:induction false} ArgsReadPaths(h: Host, args: seq<Expr>, a: Json, b: Json)
    requires AgreeOn(ArgsPaths(args), a, b)
    ensures ArgumentMeanings(h, args, a) == ArgumentMeanings(h, args, b)
    ensures ArgumentSteps(h, args, a) == ArgumentSteps(h, args, b)
    decreases args
  {
    if args != [] {
      AgreeParts(ExprPaths(args[0]), ArgsPaths(args[1..]), a, b);
      MeaningReadsPaths(h, args[0], a, b);
      ArgsReadPaths(h, args[1..], a, b);
      ArgsSame(h, args, a, b);
    }
  }

  lemma {:induction false} ArgsSame(h: Host, args: seq<Expr>, a: Json, b: Json)
    requires args != [] && SameIn(h, args[0], a, b)
    requires ArgumentMeanings(h, args[1..], a) == ArgumentMeanings(h, args[1..], b)
    requires ArgumentSteps(h, args[1..], a) == ArgumentSteps(h, args[1..], b)
    ensures ArgumentMeanings(h, args, a) == ArgumentMeanings(h, args, b)
    ensures ArgumentSteps(h, args, a) == ArgumentSteps(h, args, b)
  {
  }
}
