/** Every phrase of the grammar, read up to where it must end, is what the parser returns. */
module ParserCompleteness {
  import opened Outcomes
  import opened Ast
  import opened Lexer
  import opened Grammar
  import opened Parsing

  lemma {:induction false} PrimaryComplete(ts: seq<Token>, i: nat, j: nat, e: Expr)
    requires Primary(ts, i, j, e) && AfterPrimary(ts, j)
    ensures ParsePrimary(ts, i) == Got(e, j)
    decreases j - i, 0, 1
  {
    if j == i + 1 && LiteralOf(ts[i]).Some? && e == Literal(LiteralOf(ts[i]).value) {
    } else if e.Path? && DottedPath(ts, i, j, e.segs) {
      PathComplete(ts, i, j, e.segs);
    } else if ts[i] == LParen {
      ParenComplete(ts, i, j, e);
    } else {
      CallComplete(ts, i, j, e);
    }
  }

  lemma {:induction false} ParenComplete(ts: seq<Token>, i: nat, j: nat, e: Expr)
    requires i + 1 < j - 1 < |ts| && ts[i] == LParen && ts[j - 1] == RParen && Disjunction(ts, i + 1, j - 1, e)
    ensures ParsePrimary(ts, i) == Got(e, j)
    decreases j - i, 0, 0
  {
    DisjunctionComplete(ts, i + 1, j - 1, e);
    ParenStep(ts, i, j, e);
  }

  lemma {:induction false} ParenStep(ts: seq<Token>, i: nat, j: nat, e: Expr)
    requires i + 1 < j - 1 < |ts| && ts[i] == LParen && ts[j - 1] == RParen && ParseDisjunction(ts, i + 1) == Got(e, j - 1)
    ensures ParsePrimary(ts, i) == Got(e, j)
  {
  }

  lemma {:induction false} CallComplete(ts: seq<Token>, i: nat, j: nat, e: Expr)
    requires e.Call? && i + 2 < j <= |ts|
    requires ts[i] == TIdent(e.name) && ts[i + 1] == LParen && ts[j - 1] == RParen
    requires if e.args == [] then j == i + 3 else Arguments(ts, i + 2, j - 1, e.args)
    ensures ParsePrimary(ts, i) == Got(e, j)
    decreases j - i, 0, 0
  {
    if e.args != [] {
      ArgumentsStart(ts, i + 2, j - 1, e.args);
      ArgumentsComplete(ts, i + 2, j - 1, e.args, []);
      assert [] + e.args == e.args;
    }
    assert CallTail(ts, i + 2, e.name) == Got(e, j) by {
      assert e == Call(e.name, e.args);
    }
  }

  lemma {:induction false} PathComplete(ts: seq<Token>, i: nat, j: nat, segs: seq<string>)
    requires DottedPath(ts, i, j, segs) && AfterPrimary(ts, j)
    ensures ParsePrimary(ts, i) == Got(Path(segs), j)
  {
    assert ts[i + 2 * 0] == TIdent(segs[0]);
    assert |segs| > 1 ==> ts[i + 1] == Dot by {
      if |segs| > 1 {
        assert segs[1] == segs[1] && ts[i + 2 * 1 - 1] == Dot;
      }
    }
    assert segs[..1] == [ts[i].id];
    SegmentsComplete(ts, i, j, segs, 1);
  }

  lemma {:induction false} SegmentsComplete(ts: seq<Token>, i: nat, j: nat, segs: seq<string>, n: nat)
    requires DottedPath(ts, i, j, segs) && 1 <= n <= |segs| && AfterPrimary(ts, j)
    ensures ParseSegments(ts, i + 2 * n - 1, segs[..n]) == Got(Path(segs), j)
    decreases |segs| - n
  {
    if n == |segs| {
      assert segs[..n] == segs;
    } else {
      assert ts[i + 2 * n] == TIdent(segs[n]) && ts[i + 2 * n - 1] == Dot;
      assert segs[..n] + [segs[n]] == segs[..n + 1];
      SegmentsComplete(ts, i, j, segs, n + 1);
    }
  }

  lemma {:induction false} ArgumentsStart(ts: seq<Token>, i: nat, j: nat, args: seq<Expr>)
    requires Arguments(ts, i, j, args)
    ensures ts[i] != RParen
  {
    if |args| == 1 && Disjunction(ts, i, j, args[0]) {
      DisjunctionStart(ts, i, j, args[0]);
    } else {
      var k :| i < k < j - 1 && Disjunction(ts, i, k, args[0]);
      DisjunctionStart(ts, i, k, args[0]);
    }
  }

  lemma {:induction false} ArgumentsComplete(ts: seq<Token>, i: nat, j: nat, args: seq<Expr>, acc: seq<Expr>)
    requires Arguments(ts, i, j, args) && At(ts, j, RParen)
    ensures ParseArguments(ts, i, acc) == Got(acc + args, j)
    decreases j - i, 10
  {
    if |args| == 1 && Disjunction(ts, i, j, args[0]) {
      ArgumentComplete(ts, i, j, args[0], acc);
      assert args == [args[0]];
    } else {
      var k := SplitArguments(ts, i, j, args);
      ArgumentComplete(ts, i, k, args[0], acc);
      ArgumentsComplete(ts, k + 1, j, args[1..], acc + [args[0]]);
      assert acc + [args[0]] + args[1..] == acc + args;
    }
  }

  lemma {:induction false} ArgumentComplete(ts: seq<Token>, i: nat, k: nat, arg: Expr, acc: seq<Expr>)
    requires Disjunction(ts, i, k, arg) && (At(ts, k, Comma) || At(ts, k, RParen))
    ensures ParseArguments(ts, i, acc) ==
            if ts[k] == Comma then ParseArguments(ts, k + 1, acc + [arg]) else Got(acc + [arg], k)
    decreases k - i, 9
  {
    DisjunctionComplete(ts, i, k, arg);
    ArgumentStep(ts, i, k, acc, arg);
  }

  lemma {:induction false} ArgumentStep(ts: seq<Token>, i: nat, k: nat, acc: seq<Expr>, arg: Expr)
    requires i < k < |ts| && ParseDisjunction(ts, i) == Got(arg, k)
    ensures ParseArguments(ts, i, acc) ==
            if ts[k] == Comma then ParseArguments(ts, k + 1, acc + [arg]) else Got(acc + [arg], k)
  {
  }

  lemma {:induction false} MemberComplete(ts: seq<Token>, i: nat, j: nat, e: Expr)
    requires Member(ts, i, j, e) && AfterMember(ts, j)
    ensures ParseMember(ts, i) == Got(e, j)
    decreases j - i, 1
  {
    if Primary(ts, i, j, e) {
      PrimaryComplete(ts, i, j, e);
    } else {
      var k, h := SplitMember(ts, i, j, e);
      PrimaryComplete(ts, i, k, e.needle);
      PrimaryComplete(ts, h, j, e.haystack);
      MemberStep(ts, i, k, j, e);
    }
  }

  lemma {:induction false} MemberStep(ts: seq<Token>, i: nat, k: nat, j: nat, e: Expr)
    requires i < k < |ts| && e.Membership?
    requires if e.negated then ts[k] == KwNot && At(ts, k + 1, KwIn) else ts[k] == KwIn
    requires ParsePrimary(ts, i) == Got(e.needle, k)
    requires ParsePrimary(ts, if e.negated then k + 2 else k + 1) == Got(e.haystack, j)
    ensures ParseMember(ts, i) == Got(e, j)
  {
  }

  lemma {:induction false} ComparisonComplete(ts: seq<Token>, i: nat, j: nat, e: Expr)
    requires Comparison(ts, i, j, e) && AfterComparison(ts, j)
    ensures ParseComparison(ts, i) == Got(e, j)
    decreases j - i, 2, 1
  {
    if Member(ts, i, j, e) {
      MemberComplete(ts, i, j, e);
    } else {
      var k := SplitComparison(ts, i, j, e);
      ComparisonPair(ts, i, k, j, e);
    }
  }

  lemma {:induction false} ComparisonPair(ts: seq<Token>, i: nat, k: nat, j: nat, e: Expr)
    requires e.Binary? && i < k < j - 1 < |ts| && ComparisonOf(ts[k]) == Some(e.op) && AfterComparison(ts, j)
    requires Member(ts, i, k, e.left) && Member(ts, k + 1, j, e.right)
    ensures ParseComparison(ts, i) == Got(e, j)
    decreases j - i, 2, 0
  {
    MemberComplete(ts, i, k, e.left);
    MemberComplete(ts, k + 1, j, e.right);
    ComparisonTailStep(ts, k, j, e);
  }

  lemma {:induction false} ComparisonTailStep(ts: seq<Token>, k: nat, j: nat, e: Expr)
    requires e.Binary? && k < |ts| && ComparisonOf(ts[k]) == Some(e.op)
    requires ParseMember(ts, k + 1) == Got(e.right, j)
    ensures ComparisonTail(ts, k, e.left) == Got(e, j)
  {
    assert e == Binary(e.op, e.left, e.right);
  }

  lemma {:induction false} NegationComplete(ts: seq<Token>, i: nat, j: nat, e: Expr)
    requires Negation(ts, i, j, e) && AfterComparison(ts, j)
    ensures ParseNegation(ts, i) == Got(e, j)
    decreases j - i, 3
  {
    if Comparison(ts, i, j, e) {
      ComparisonStart(ts, i, j, e);
      ComparisonComplete(ts, i, j, e);
    } else {
      NegationComplete(ts, i + 1, j, e.inner);
      assert e.uop == Not;
    }
  }

  /** Parsing a phrase that may continue amounts to entering the loop after it. */
  lemma {:induction false} ConjunctionPrefix(ts: seq<Token>, i: nat, j: nat, e: Expr)
    requires Conjunction(ts, i, j, e) && AfterComparison(ts, j)
    ensures ParseConjunction(ts, i) == AndTail(ts, j, e)
    decreases j - i, 4, 0
  {
    if Negation(ts, i, j, e) {
      NegationComplete(ts, i, j, e);
    } else {
      var k := SplitConjunction(ts, i, j, e);
      ConjunctionPrefix(ts, i, k, e.left);
      NegationComplete(ts, k + 1, j, e.right);
    }
  }

  lemma {:induction false} DisjunctionPrefix(ts: seq<Token>, i: nat, j: nat, e: Expr)
    requires Disjunction(ts, i, j, e) && AfterConjunction(ts, j)
    ensures ParseDisjunction(ts, i) == OrTail(ts, j, e)
    decreases j - i, 5
  {
    if Conjunction(ts, i, j, e) {
      ConjunctionComplete(ts, i, j, e);
    } else {
      var k := SplitDisjunction(ts, i, j, e);
      DisjunctionPrefix(ts, i, k, e.left);
      ConjunctionComplete(ts, k + 1, j, e.right);
      OrStep(ts, k, j, e);
    }
  }

  lemma {:induction false} ConjunctionComplete(ts: seq<Token>, i: nat, j: nat, e: Expr)
    requires Conjunction(ts, i, j, e) && AfterConjunction(ts, j)
    ensures ParseConjunction(ts, i) == Got(e, j)
    decreases j - i, 4, 1
  {
    ConjunctionPrefix(ts, i, j, e);
  }

  lemma {:induction false} OrStep(ts: seq<Token>, k: nat, j: nat, e: Expr)
    requires k < |ts| && ts[k] == KwOr && e.Binary? && e.op == Or && ParseConjunction(ts, k + 1) == Got(e.right, j)
    ensures OrTail(ts, k, e.left) == OrTail(ts, j, e)
  {
    assert e == Binary(Or, e.left, e.right);
  }

  lemma {:induction false} DisjunctionComplete(ts: seq<Token>, i: nat, j: nat, e: Expr)
    requires Disjunction(ts, i, j, e) && AfterDisjunction(ts, j)
    ensures ParseDisjunction(ts, i) == Got(e, j)
    decreases j - i, 6
  {
    DisjunctionPrefix(ts, i, j, e);
  }

  lemma {:induction false} ActionPrefix(ts: seq<Token>, i: nat, j: nat, a: Action)
    requires ActionClause(ts, i, j, a) && (At(ts, j, Comma) || At(ts, j, RBrace))
    ensures ParseAction(ts, i) == AttributeTail(ts, j, a)
    decreases j - i
  {
    if !(j == i + 1 && VerdictOf(ts[i]).Some? && a == Action(VerdictOf(ts[i]).value, None, None)) {
      var k, a0 :| i < k < j && ActionClause(ts, i, k, a0) && Attribute(ts, k, j, a0, a);
      ActionPrefix(ts, i, k, a0);
      AttributeStep(ts, k, j, a0, a);
    }
  }

  lemma {:induction false} AttributeStep(ts: seq<Token>, k: nat, j: nat, a0: Action, a: Action)
    requires Attribute(ts, k, j, a0, a) && (At(ts, j, Comma) || At(ts, j, RBrace))
    ensures AttributeTail(ts, k, a0) == AttributeTail(ts, j, a)
  {
    if ts[k + 1] == KwEvidence {
      DisjunctionComplete(ts, k + 3, j, a.evidence.value);
    }
  }

  lemma {:induction false} PolicyComplete(ts: seq<Token>, i: nat, j: nat, p: Policy)
    requires PolicyClause(ts, i, j, p)
    ensures ParsePolicy(ts, i) == Got(p, j)
  {
    BodyComplete(ts, i + 4, j, p);
    HeaderStep(ts, i, j, p);
  }

  lemma {:induction false} HeaderStep(ts: seq<Token>, i: nat, j: nat, p: Policy)
    requires i + 4 < |ts| && PolicyTail(ts, i + 4, p.name) == Got(p, j)
    requires ts[i] == KwPolicy && ts[i + 1] == TStr(p.name) && ts[i + 2] == LBrace && ts[i + 3] == KwWhen
    ensures ParsePolicy(ts, i) == Got(p, j)
  {
  }

  lemma {:induction false} BodyComplete(ts: seq<Token>, i: nat, j: nat, p: Policy)
    requires PolicyBody(ts, i, j, p.guard, p.action)
    ensures PolicyTail(ts, i, p.name) == Got(p, j)
  {
    var k := SplitBody(ts, i, j, p.guard, p.action);
    GuardComplete(ts, i, k, p.guard);
    ActionComplete(ts, k + 1, j - 1, p.action);
    ThenTailStep(ts, k + 1, j, p);
    GuardTailStep(ts, k, j, p);
    PolicyTailStep(ts, i, k, j, p);
  }

  lemma {:induction false} GuardComplete(ts: seq<Token>, i: nat, j: nat, e: Expr)
    requires Disjunction(ts, i, j, e) && At(ts, j, KwThen)
    ensures ParseDisjunction(ts, i) == Got(e, j)
  {
    DisjunctionComplete(ts, i, j, e);
  }

  lemma {:induction false} ActionComplete(ts: seq<Token>, i: nat, j: nat, a: Action)
    requires ActionClause(ts, i, j, a) && At(ts, j, RBrace)
    ensures ParseAction(ts, i) == Got(a, j)
  {
    ActionPrefix(ts, i, j, a);
  }

  lemma {:induction false} PolicyTailStep(ts: seq<Token>, i: nat, k: nat, j: nat, p: Policy)
    requires i < k < |ts| && ParseDisjunction(ts, i) == Got(p.guard, k)
    requires GuardTail(ts, k, p.name, p.guard) == Got(p, j)
    ensures PolicyTail(ts, i, p.name) == Got(p, j)
  {
  }

  lemma {:induction false} GuardTailStep(ts: seq<Token>, k: nat, j: nat, p: Policy)
    requires At(ts, k, KwThen) && ThenTail(ts, k + 1, p.name, p.guard) == Got(p, j)
    ensures GuardTail(ts, k, p.name, p.guard) == Got(p, j)
  {
  }

  lemma {:induction false} ThenTailStep(ts: seq<Token>, i: nat, j: nat, p: Policy)
    requires i <= j - 1 < |ts| && ts[j - 1] == RBrace && ParseAction(ts, i) == Got(p.action, j - 1)
    ensures ThenTail(ts, i, p.name, p.guard) == Got(p, j)
  {
    assert p == Policy(p.name, p.guard, p.action);
  }

  lemma {:induction false} PoliciesComplete(ts: seq<Token>, i: nat, ps: seq<Policy>, acc: seq<Policy>)
    requires i <= |ts| && Policies(ts, i, |ts|, ps)
    ensures ParsePolicies(ts, i, acc) == Got(Program(acc + ps), |ts|)
    decreases |ps|
  {
    if ps == [] {
      assert acc + ps == acc;
    } else {
      var k :| i < k <= |ts| && PolicyClause(ts, i, k, ps[0]) && Policies(ts, k, |ts|, ps[1..]);
      PolicyComplete(ts, i, k, ps[0]);
      PoliciesComplete(ts, k, ps[1..], acc + [ps[0]]);
      PoliciesStep(ts, i, k, ps, acc);
    }
  }

  lemma {:induction false} PoliciesStep(ts: seq<Token>, i: nat, k: nat, ps: seq<Policy>, acc: seq<Policy>)
    requires i < k <= |ts| && ps != [] && ParsePolicy(ts, i) == Got(ps[0], k)
    requires ParsePolicies(ts, k, acc + [ps[0]]) == Got(Program(acc + [ps[0]] + ps[1..]), |ts|)
    ensures ParsePolicies(ts, i, acc) == Got(Program(acc + ps), |ts|)
  {
    assert acc + [ps[0]] + ps[1..] == acc + ps;
  }
}
