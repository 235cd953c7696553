/** A derivation depends on no tokens but its own. */
module GrammarLocality {
  import opened Outcomes
  import opened Ast
  import opened Lexer
  import opened Grammar

  /** The two lists begin with the same n tokens. */
  predicate Agree(ts: seq<Token>, us: seq<Token>, n: nat) {
    n <= |ts| && n <= |us| && forall k :: 0 <= k < n ==> ts[k] == us[k]
  }

  lemma {:induction false} PrimaryKept(ts: seq<Token>, us: seq<Token>, i: nat, j: nat, e: Expr)
    requires Primary(ts, i, j, e) && Agree(ts, us, j)
    ensures Primary(us, i, j, e)
    decreases j - i, 0
  {
    if i + 1 < j - 1 && ts[i] == LParen && ts[j - 1] == RParen && Disjunction(ts, i + 1, j - 1, e) {
      DisjunctionKept(ts, us, i + 1, j - 1, e);
    } else if e.Call? && e.args != [] {
      ArgumentsKept(ts, us, i + 2, j - 1, e.args);
    }
  }

  lemma {:induction false} ArgumentsKept(ts: seq<Token>, us: seq<Token>, i: nat, j: nat, args: seq<Expr>)
    requires Arguments(ts, i, j, args) && Agree(ts, us, j)
    ensures Arguments(us, i, j, args)
    decreases j - i, 10
  {
    if |args| == 1 && Disjunction(ts, i, j, args[0]) {
      DisjunctionKept(ts, us, i, j, args[0]);
    } else {
      var k := SplitArguments(ts, i, j, args);
      DisjunctionKept(ts, us, i, k, args[0]);
      ArgumentsKept(ts, us, k + 1, j, args[1..]);
      JoinArguments(us, i, k, j, args);
    }
  }

  lemma {:induction false} MemberKept(ts: seq<Token>, us: seq<Token>, i: nat, j: nat, e: Expr)
    requires Member(ts, i, j, e) && Agree(ts, us, j)
    ensures Member(us, i, j, e)
    decreases j - i, 1
  {
    if Primary(ts, i, j, e) {
      PrimaryKept(ts, us, i, j, e);
    } else {
      var k, h := SplitMember(ts, i, j, e);
      PrimaryKept(ts, us, i, k, e.needle);
      PrimaryKept(ts, us, h, j, e.haystack);
      JoinMember(us, i, k, h, j, e);
    }
  }

  lemma {:induction false} ComparisonKept(ts: seq<Token>, us: seq<Token>, i: nat, j: nat, e: Expr)
    requires Comparison(ts, i, j, e) && Agree(ts, us, j)
    ensures Comparison(us, i, j, e)
    decreases j - i, 2
  {
    if Member(ts, i, j, e) {
      MemberKept(ts, us, i, j, e);
    } else {
      var k := SplitComparison(ts, i, j, e);
      MemberKept(ts, us, i, k, e.left);
      MemberKept(ts, us, k + 1, j, e.right);
      JoinComparison(us, i, k, j, e);
    }
  }

  lemma {:induction false} NegationKept(ts: seq<Token>, us: seq<Token>, i: nat, j: nat, e: Expr)
    requires Negation(ts, i, j, e) && Agree(ts, us, j)
    ensures Negation(us, i, j, e)
    decreases j - i, 3
  {
    if Comparison(ts, i, j, e) {
      ComparisonKept(ts, us, i, j, e);
    } else {
      NegationKept(ts, us, i + 1, j, e.inner);
    }
  }

  lemma {:induction false} ConjunctionKept(ts: seq<Token>, us: seq<Token>, i: nat, j: nat, e: Expr)
    requires Conjunction(ts, i, j, e) && Agree(ts, us, j)
    ensures Conjunction(us, i, j, e)
    decreases j - i, 4
  {
    if Negation(ts, i, j, e) {
      NegationKept(ts, us, i, j, e);
    } else {
      var k := SplitConjunction(ts, i, j, e);
      ConjunctionKept(ts, us, i, k, e.left);
      NegationKept(ts, us, k + 1, j, e.right);
      JoinConjunction(us, i, k, j, e);
    }
  }

  lemma {:induction false} JoinConjunction(ts: seq<Token>, i: nat, k: nat, j: nat, e: Expr)
    requires e.Binary? && e.op == And && i < k < j - 1 < |ts| && ts[k] == KwAnd
    requires Conjunction(ts, i, k, e.left) && Negation(ts, k + 1, j, e.right)
    ensures Conjunction(ts, i, j, e)
  {
  }

  lemma {:induction false} DisjunctionKept(ts: seq<Token>, us: seq<Token>, i: nat, j: nat, e: Expr)
    requires Disjunction(ts, i, j, e) && Agree(ts, us, j)
    ensures Disjunction(us, i, j, e)
    decreases j - i, 5
  {
    if Conjunction(ts, i, j, e) {
      ConjunctionKept(ts, us, i, j, e);
    } else {
      var k := SplitDisjunction(ts, i, j, e);
      DisjunctionKept(ts, us, i, k, e.left);
      ConjunctionKept(ts, us, k + 1, j, e.right);
      JoinDisjunction(us, i, k, j, e);
    }
  }

  lemma {:induction false} JoinDisjunction(ts: seq<Token>, i: nat, k: nat, j: nat, e: Expr)
    requires e.Binary? && e.op == Or && i < k < j - 1 < |ts| && ts[k] == KwOr
    requires Disjunction(ts, i, k, e.left) && Conjunction(ts, k + 1, j, e.right)
    ensures Disjunction(ts, i, j, e)
  {
  }

  lemma {:induction false} AttributeKept(ts: seq<Token>, us: seq<Token>, k: nat, j: nat, a0: Action, a: Action)
    requires Attribute(ts, k, j, a0, a) && Agree(ts, us, j)
    ensures Attribute(us, k, j, a0, a)
  {
    if ts[k + 1] == KwEvidence {
      DisjunctionKept(ts, us, k + 3, j, a.evidence.value);
    }
  }

  lemma {:induction false} ActionKept(ts: seq<Token>, us: seq<Token>, i: nat, j: nat, a: Action)
    requires ActionClause(ts, i, j, a) && Agree(ts, us, j)
    ensures ActionClause(us, i, j, a)
    decreases j - i
  {
    if a.reason.Some? || a.evidence.Some? {
      var k, a0 := SplitAction(ts, i, j, a);
      ActionKept(ts, us, i, k, a0);
      AttributeKept(ts, us, k, j, a0, a);
      JoinAction(us, i, k, j, a0, a);
    } else {
      PlainAction(ts, i, j, a);
    }
  }

  /** Every attribute leaves a reason or evidence behind. */
  lemma {:induction false} PlainAction(ts: seq<Token>, i: nat, j: nat, a: Action)
    requires ActionClause(ts, i, j, a) && a.reason.None? && a.evidence.None?
    ensures j == i + 1
  {
  }

  lemma {:induction false} BodyKept(ts: seq<Token>, us: seq<Token>, i: nat, j: nat, guard: Expr, action: Action)
    requires PolicyBody(ts, i, j, guard, action) && Agree(ts, us, j)
    ensures PolicyBody(us, i, j, guard, action)
  {
    var k := SplitBody(ts, i, j, guard, action);
    DisjunctionKept(ts, us, i, k, guard);
    ActionKept(ts, us, k + 1, j - 1, action);
    JoinBody(us, i, k, j, guard, action);
  }

  lemma {:induction false} PolicyKept(ts: seq<Token>, us: seq<Token>, i: nat, j: nat, p: Policy)
    requires PolicyClause(ts, i, j, p) && Agree(ts, us, j)
    ensures PolicyClause(us, i, j, p)
  {
    BodyKept(ts, us, i + 4, j, p.guard, p.action);
  }
}
