/**
 The Dictum grammar, stated declaratively: `X(ts, i, j, e)` says that the tokens
 ts[i..j] derive the tree e at precedence level X. The levels, loosest first, are
 disjunction, conjunction, negation, comparison, membership and primary.
 */
module Grammar {
  import opened Outcomes
  import opened Ast
  import opened Lexer

  function ComparisonOf(t: Token): Option<BinOp> {
    if t == EqEq then Some(Eq)
    else if t == NotEq then Some(Neq)
    else if t == Less then Some(Lt)
    else if t == Greater then Some(Gt)
    else if t == LtEq then Some(Le)
    else if t == GtEq then Some(Ge)
    else None
  }

  function LiteralOf(t: Token): Option<Lit> {
    if t == KwTrue then Some(BoolLit(true))
    else if t == KwFalse then Some(BoolLit(false))
    else if t.TInt? then Some(IntLit(t.n))
    else if t.TStr? then Some(StrLit(t.s))
    else None
  }

  /** ts[i..j] is the dotted identifier list segs. */
  predicate DottedPath(ts: seq<Token>, i: nat, j: nat, segs: seq<string>) {
    && segs != []
    && j == i + 2 * |segs| - 1
    && j <= |ts|
    && forall m :: 0 <= m < |segs| ==>
         ts[i + 2 * m] == TIdent(segs[m]) && (m > 0 ==> ts[i + 2 * m - 1] == Dot)
  }

  ghost predicate Primary(ts: seq<Token>, i: nat, j: nat, e: Expr)
    decreases j - i, 0
  {
    && i < j <= |ts|
    && (
         || (j == i + 1 && LiteralOf(ts[i]).Some? && e == Literal(LiteralOf(ts[i]).value))
         || (i + 1 < j - 1 && ts[i] == LParen && ts[j - 1] == RParen && Disjunction(ts, i + 1, j - 1, e))
         || (e.Path? && DottedPath(ts, i, j, e.segs))
         || (&& e.Call?
             && i + 2 < j
             && ts[i] == TIdent(e.name) && ts[i + 1] == LParen && ts[j - 1] == RParen
             && if e.args == [] then j == i + 3 else Arguments(ts, i + 2, j - 1, e.args)))
  }

  ghost predicate Arguments(ts: seq<Token>, i: nat, j: nat, args: seq<Expr>)
    decreases j - i, 10
  {
    && i < j <= |ts|
    && args != []
    && (
         || (|args| == 1 && Disjunction(ts, i, j, args[0]))
         || (exists k {:trigger Disjunction(ts, i, k, args[0])} ::
               && i < k < j - 1
               && Disjunction(ts, i, k, args[0])
               && ts[k] == Comma
               && Arguments(ts, k + 1, j, args[1..])))
  }

  ghost predicate Member(ts: seq<Token>, i: nat, j: nat, e: Expr)
    decreases j - i, 1
  {
    && i < j <= |ts|
    && (
         || Primary(ts, i, j, e)
         || (&& e.Membership?
             && exists k {:trigger Primary(ts, i, k, e.needle)} ::
                  && i < k < j
                  && Primary(ts, i, k, e.needle)
                  && if e.negated then
                       k + 2 < j && ts[k] == KwNot && ts[k + 1] == KwIn && Primary(ts, k + 2, j, e.haystack)
                     else
                       k + 1 < j && ts[k] == KwIn && Primary(ts, k + 1, j, e.haystack)))
  }

  ghost predicate Comparison(ts: seq<Token>, i: nat, j: nat, e: Expr)
    decreases j - i, 2
  {
    && i < j <= |ts|
    && (
         || Member(ts, i, j, e)
         || (&& e.Binary?
             && exists k {:trigger Member(ts, i, k, e.left)} ::
                  && i < k < j - 1
                  && Member(ts, i, k, e.left)
                  && ComparisonOf(ts[k]) == Some(e.op)
                  && Member(ts, k + 1, j, e.right)))
  }

  ghost predicate Negation(ts: seq<Token>, i: nat, j: nat, e: Expr)
    decreases j - i, 3
  {
    && i < j <= |ts|
    && (
         || Comparison(ts, i, j, e)
         || (e.Unary? && i + 1 < j && ts[i] == KwNot && Negation(ts, i + 1, j, e.inner)))
  }

  ghost predicate Conjunction(ts: seq<Token>, i: nat, j: nat, e: Expr)
    decreases j - i, 4
  {
    && i < j <= |ts|
    && (
         || Negation(ts, i, j, e)
         || (&& e.Binary? && e.op == And
             && exists k {:trigger Conjunction(ts, i, k, e.left)} ::
                  && i < k < j - 1
                  && Conjunction(ts, i, k, e.left)
                  && ts[k] == KwAnd
                  && Negation(ts, k + 1, j, e.right)))
  }

  ghost predicate Disjunction(ts: seq<Token>, i: nat, j: nat, e: Expr)
    decreases j - i, 5
  {
    && i < j <= |ts|
    && (
         || Conjunction(ts, i, j, e)
         || (&& e.Binary? && e.op == Or
             && exists k {:trigger Disjunction(ts, i, k, e.left)} ::
                  && i < k < j - 1
                  && Disjunction(ts, i, k, e.left)
                  && ts[k] == KwOr
                  && Conjunction(ts, k + 1, j, e.right)))
  }

  function VerdictOf(t: Token): Option<Verdict> {
    if t == KwAllow then Some(Allow)
    else if t == KwReview then Some(Review)
    else if t == KwBlock then Some(Block)
    else None
  }

  /** ts[k..j] is one attribute, turning the action a0 into a. */
  ghost predicate Attribute(ts: seq<Token>, k: nat, j: nat, a0: Action, a: Action) {
    && k + 3 < j <= |ts|
    && ts[k] == Comma && ts[k + 2] == Assign
    && (
         || (&& ts[k + 1] == KwReason
             && j == k + 4 && ts[k + 3].TStr?
             && a == a0.(reason := Some(ts[k + 3].s)))
         || (&& ts[k + 1] == KwEvidence
             && a.evidence.Some?
             && Disjunction(ts, k + 3, j, a.evidence.value)
             && a == a0.(evidence := a.evidence)))
  }

  /** A verdict followed by attributes; a repeated attribute overrides the earlier one. */
  ghost predicate ActionClause(ts: seq<Token>, i: nat, j: nat, a: Action)
    decreases j - i
  {
    && i < j <= |ts|
    && (
         || (&& j == i + 1
             && VerdictOf(ts[i]).Some?
             && a == Action(VerdictOf(ts[i]).value, None, None))
         || (exists k, a0 {:trigger ActionClause(ts, i, k, a0)} :: i < k < j && ActionClause(ts, i, k, a0) && Attribute(ts, k, j, a0, a)))
  }

  /** `policy "name" { when <guard> then <action> }` */
  ghost predicate PolicyClause(ts: seq<Token>, i: nat, j: nat, p: Policy) {
    && i + 4 < j <= |ts|
    && ts[i] == KwPolicy && ts[i + 1] == TStr(p.name) && ts[i + 2] == LBrace && ts[i + 3] == KwWhen
    && PolicyBody(ts, i + 4, j, p.guard, p.action)
  }

  /** `<guard> then <action> }` */
  ghost predicate PolicyBody(ts: seq<Token>, i: nat, j: nat, guard: Expr, action: Action) {
    && i < j <= |ts|
    && ts[j - 1] == RBrace
    && exists k {:trigger Disjunction(ts, i, k, guard)} ::
         i < k < j - 1 && Disjunction(ts, i, k, guard) && ts[k] == KwThen && ActionClause(ts, k + 1, j - 1, action)
  }

  ghost predicate Policies(ts: seq<Token>, i: nat, j: nat, ps: seq<Policy>)
    decreases |ps|
  {
    if ps == [] then
      i == j <= |ts|
    else
      exists k {:trigger PolicyClause(ts, i, k, ps[0])} :: i < k <= j && PolicyClause(ts, i, k, ps[0]) && Policies(ts, k, j, ps[1..])
  }

  /** The whole token list derives the program. */
  ghost predicate Derives(ts: seq<Token>, prog: Program) {
    Policies(ts, 0, |ts|, prog.policies)
  }

  // ---- what may follow a maximal phrase of each level ----

  predicate AfterPrimary(ts: seq<Token>, j: nat) {
    !At(ts, j, Dot) && !At(ts, j, LParen)
  }

  predicate AfterMember(ts: seq<Token>, j: nat) {
    AfterPrimary(ts, j) && !At(ts, j, KwIn) && !(At(ts, j, KwNot) && At(ts, j + 1, KwIn))
  }

  predicate AfterComparison(ts: seq<Token>, j: nat) {
    AfterMember(ts, j) && (j < |ts| ==> ComparisonOf(ts[j]).None?)
  }

  predicate AfterConjunction(ts: seq<Token>, j: nat) {
    AfterComparison(ts, j) && !At(ts, j, KwAnd)
  }

  predicate AfterDisjunction(ts: seq<Token>, j: nat) {
    AfterConjunction(ts, j) && !At(ts, j, KwOr)
  }

  /** Primaries start with a literal, an identifier or `(`; so do memberships and comparisons. */
  predicate StartsOperand(ts: seq<Token>, i: nat) {
    i < |ts| && (LiteralOf(ts[i]).Some? || ts[i] == LParen || ts[i].TIdent?)
  }

  lemma {:induction false} PrimaryStart(ts: seq<Token>, i: nat, j: nat, e: Expr)
    requires Primary(ts, i, j, e)
    ensures StartsOperand(ts, i)
  {
    if e.Path? && DottedPath(ts, i, j, e.segs) {
      assert ts[i + 2 * 0] == TIdent(e.segs[0]);
    }
  }

  lemma {:induction false} ComparisonStart(ts: seq<Token>, i: nat, j: nat, e: Expr)
    requires Comparison(ts, i, j, e)
    ensures StartsOperand(ts, i)
  {
    if Member(ts, i, j, e) {
      MemberStart(ts, i, j, e);
    } else {
      var k :| i < k < j - 1 && Member(ts, i, k, e.left) && ComparisonOf(ts[k]) == Some(e.op);
      MemberStart(ts, i, k, e.left);
    }
  }

  lemma {:induction false} MemberStart(ts: seq<Token>, i: nat, j: nat, e: Expr)
    requires Member(ts, i, j, e)
    ensures StartsOperand(ts, i)
  {
    if Primary(ts, i, j, e) {
      PrimaryStart(ts, i, j, e);
    } else {
      var k :| i < k < j && Primary(ts, i, k, e.needle);
      PrimaryStart(ts, i, k, e.needle);
    }
  }

  /** No expression starts with `)`, so an empty argument list is never mistaken for one. */
  lemma {:induction false} DisjunctionStart(ts: seq<Token>, i: nat, j: nat, e: Expr)
    requires Disjunction(ts, i, j, e)
    ensures StartsOperand(ts, i) || ts[i] == KwNot
    decreases j - i, 1
  {
    if Conjunction(ts, i, j, e) {
      ConjunctionStart(ts, i, j, e);
    } else {
      var k :| i < k < j - 1 && Disjunction(ts, i, k, e.left) && ts[k] == KwOr;
      DisjunctionStart(ts, i, k, e.left);
    }
  }

  lemma {:induction false} ConjunctionStart(ts: seq<Token>, i: nat, j: nat, e: Expr)
    requires Conjunction(ts, i, j, e)
    ensures StartsOperand(ts, i) || ts[i] == KwNot
    decreases j - i, 0
  {
    if Negation(ts, i, j, e) {
      if ts[i] != KwNot {
        ComparisonStart(ts, i, j, e);
      }
    } else {
      var k :| i < k < j - 1 && Conjunction(ts, i, k, e.left) && ts[k] == KwAnd;
      ConjunctionStart(ts, i, k, e.left);
    }
  }

  // ---- taking derivations apart and putting them together ----

  lemma {:induction false} SplitArguments(ts: seq<Token>, i: nat, j: nat, args: seq<Expr>) returns (k: nat)
    requires Arguments(ts, i, j, args) && !(|args| == 1 && Disjunction(ts, i, j, args[0]))
    ensures i < k < j - 1 < |ts| && Disjunction(ts, i, k, args[0]) && ts[k] == Comma
    ensures Arguments(ts, k + 1, j, args[1..])
  {
    k :| i < k < j - 1 && Disjunction(ts, i, k, args[0]) && ts[k] == Comma && Arguments(ts, k + 1, j, args[1..]);
  }

  lemma {:induction false} JoinArguments(ts: seq<Token>, i: nat, k: nat, j: nat, args: seq<Expr>)
    requires args != [] && i < k < j - 1 < |ts| && ts[k] == Comma
    requires Disjunction(ts, i, k, args[0]) && Arguments(ts, k + 1, j, args[1..])
    ensures Arguments(ts, i, j, args)
  {
  }

  lemma {:induction false} SplitMember(ts: seq<Token>, i: nat, j: nat, e: Expr) returns (k: nat, h: nat)
    requires Member(ts, i, j, e) && !Primary(ts, i, j, e)
    ensures e.Membership? && i < k < h < j <= |ts| && h == (if e.negated then k + 2 else k + 1)
    ensures if e.negated then ts[k] == KwNot && ts[k + 1] == KwIn else ts[k] == KwIn
    ensures Primary(ts, i, k, e.needle) && Primary(ts, h, j, e.haystack)
  {
    k :| && i < k < j
         && Primary(ts, i, k, e.needle)
         && if e.negated then
              k + 2 < j && ts[k] == KwNot && ts[k + 1] == KwIn && Primary(ts, k + 2, j, e.haystack)
            else
              k + 1 < j && ts[k] == KwIn && Primary(ts, k + 1, j, e.haystack);
    h := if e.negated then k + 2 else k + 1;
  }

  lemma {:induction false} JoinMember(ts: seq<Token>, i: nat, k: nat, h: nat, j: nat, e: Expr)
    requires e.Membership? && i < k < h < j <= |ts| && h == (if e.negated then k + 2 else k + 1)
    requires if e.negated then ts[k] == KwNot && ts[k + 1] == KwIn else ts[k] == KwIn
    requires Primary(ts, i, k, e.needle) && Primary(ts, h, j, e.haystack)
    ensures Member(ts, i, j, e)
  {
  }

  lemma {:induction false} SplitComparison(ts: seq<Token>, i: nat, j: nat, e: Expr) returns (k: nat)
    requires Comparison(ts, i, j, e) && !Member(ts, i, j, e)
    ensures e.Binary? && i < k < j - 1 < |ts| && ComparisonOf(ts[k]) == Some(e.op)
    ensures Member(ts, i, k, e.left) && Member(ts, k + 1, j, e.right)
  {
    k :| i < k < j - 1 && Member(ts, i, k, e.left) && ComparisonOf(ts[k]) == Some(e.op) && Member(ts, k + 1, j, e.right);
  }

  lemma {:induction false} JoinComparison(ts: seq<Token>, i: nat, k: nat, j: nat, e: Expr)
    requires e.Binary? && i < k < j - 1 < |ts| && ComparisonOf(ts[k]) == Some(e.op)
    requires Member(ts, i, k, e.left) && Member(ts, k + 1, j, e.right)
    ensures Comparison(ts, i, j, e)
  {
  }

  lemma {:induction false} SplitConjunction(ts: seq<Token>, i: nat, j: nat, e: Expr) returns (k: nat)
    requires Conjunction(ts, i, j, e) && !Negation(ts, i, j, e)
    ensures e.Binary? && e.op == And && i < k < j - 1 < |ts| && ts[k] == KwAnd
    ensures Conjunction(ts, i, k, e.left) && Negation(ts, k + 1, j, e.right)
  {
    k :| i < k < j - 1 && Conjunction(ts, i, k, e.left) && ts[k] == KwAnd && Negation(ts, k + 1, j, e.right);
  }

  lemma {:induction false} SplitDisjunction(ts: seq<Token>, i: nat, j: nat, e: Expr) returns (k: nat)
    requires Disjunction(ts, i, j, e) && !Conjunction(ts, i, j, e)
    ensures e.Binary? && e.op == Or && i < k < j - 1 < |ts| && ts[k] == KwOr
    ensures Disjunction(ts, i, k, e.left) && Conjunction(ts, k + 1, j, e.right)
  {
    k :| i < k < j - 1 && Disjunction(ts, i, k, e.left) && ts[k] == KwOr && Conjunction(ts, k + 1, j, e.right);
  }

  lemma {:induction false} SplitBody(ts: seq<Token>, i: nat, j: nat, guard: Expr, action: Action) returns (k: nat)
    requires PolicyBody(ts, i, j, guard, action)
    ensures i < k < j - 1 < |ts| && Disjunction(ts, i, k, guard) && ts[k] == KwThen
    ensures ActionClause(ts, k + 1, j - 1, action)
  {
    k :| i < k < j - 1 && Disjunction(ts, i, k, guard) && ts[k] == KwThen && ActionClause(ts, k + 1, j - 1, action);
  }

  lemma {:induction false} JoinPolicies(ts: seq<Token>, i: nat, k: nat, j: nat, ps: seq<Policy>)
    requires ps != [] && i < k <= j && PolicyClause(ts, i, k, ps[0]) && Policies(ts, k, j, ps[1..])
    ensures Policies(ts, i, j, ps)
  {
  }

  lemma {:induction false} JoinBody(ts: seq<Token>, i: nat, k: nat, j: nat, guard: Expr, action: Action)
    requires i < k < j - 1 < |ts| && ts[k] == KwThen && ts[j - 1] == RBrace
    requires Disjunction(ts, i, k, guard) && ActionClause(ts, k + 1, j - 1, action)
    ensures PolicyBody(ts, i, j, guard, action)
  {
  }

  lemma {:induction false} SplitAction(ts: seq<Token>, i: nat, j: nat, a: Action) returns (k: nat, a0: Action)
    requires ActionClause(ts, i, j, a) && (a.reason.Some? || a.evidence.Some?)
    ensures i < k < j && ActionClause(ts, i, k, a0) && Attribute(ts, k, j, a0, a)
  {
    k, a0 :| i < k < j && ActionClause(ts, i, k, a0) && Attribute(ts, k, j, a0, a);
  }

  lemma {:induction false} JoinAction(ts: seq<Token>, i: nat, k: nat, j: nat, a0: Action, a: Action)
    requires i < k < j && ActionClause(ts, i, k, a0) && Attribute(ts, k, j, a0, a)
    ensures ActionClause(ts, i, j, a)
  {
  }

  lemma {:induction false} SplitPolicies(ts: seq<Token>, i: nat, j: nat, ps: seq<Policy>) returns (k: nat)
    requires ps != [] && Policies(ts, i, j, ps)
    ensures i < k <= j && PolicyClause(ts, i, k, ps[0]) && Policies(ts, k, j, ps[1..])
  {
    k :| i < k <= j && PolicyClause(ts, i, k, ps[0]) && Policies(ts, k, j, ps[1..]);
  }
}
