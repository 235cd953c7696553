/** How far the parser looks: one token past a phrase, and past a `not` there, whether an `in` follows. */
module ParserLocality {
  import opened Outcomes
  import opened Ast
  import opened Lexer
  import opened Grammar
  import opened Parsing
  import opened GrammarLocality

  /** Where a phrase ends, or does not fit. */
  function End<T>(r: Parsed<T>): nat {
    match r
    case Got(_, next) => next
    case Fail(at) => at
  }

  /** The lists begin with the same n tokens, and us does not turn a `not` at their end into `not in`. */
  predicate Alike(ts: seq<Token>, us: seq<Token>, n: nat) {
    Agree(ts, us, n) && (n > 0 && ts[n - 1] == KwNot && At(us, n, KwIn) ==> At(ts, n, KwIn))
  }

  lemma {:induction false} PrimaryLocal(ts: seq<Token>, us: seq<Token>, i: nat, n: nat)
    requires Alike(ts, us, n) && i <= |ts| && End(ParsePrimary(ts, i)) < n
    ensures i <= |us| && ParsePrimary(us, i) == ParsePrimary(ts, i)
    decreases |ts| - i, 0
  {
    if LiteralOf(ts[i]).None? {
      if ts[i] == LParen {
        ParenLocal(ts, us, i + 1, n);
      } else if ts[i].TIdent? {
        if At(ts, i + 1, LParen) {
          CallLocal(ts, us, i + 2, ts[i].id, n);
        } else {
          SegmentsLocal(ts, us, i + 1, [ts[i].id], n);
        }
      }
    }
  }

  lemma {:induction false} ParenLocal(ts: seq<Token>, us: seq<Token>, i: nat, n: nat)
    requires Alike(ts, us, n) && i <= |ts| && End(ParenTail(ts, i)) < n
    ensures i <= |us| && ParenTail(us, i) == ParenTail(ts, i)
    decreases |ts| - i, 6
  {
    DisjunctionLocal(ts, us, i, n);
  }

  lemma {:induction false} CallLocal(ts: seq<Token>, us: seq<Token>, i: nat, name: string, n: nat)
    requires Alike(ts, us, n) && i <= |ts| && End(CallTail(ts, i, name)) < n
    ensures i <= |us| && CallTail(us, i, name) == CallTail(ts, i, name)
    decreases |ts| - i, 11
  {
    if !At(ts, i, RParen) {
      ArgumentsLocal(ts, us, i, [], n);
    }
  }

  lemma {:induction false} SegmentsLocal(ts: seq<Token>, us: seq<Token>, k: nat, segs: seq<string>, n: nat)
    requires Alike(ts, us, n) && k <= |ts| && End(ParseSegments(ts, k, segs)) < n
    ensures k <= |us| && ParseSegments(us, k, segs) == ParseSegments(ts, k, segs)
    decreases |ts| - k
  {
    if At(ts, k, Dot) && k + 1 < |ts| && ts[k + 1].TIdent? {
      SegmentsLocal(ts, us, k + 2, segs + [ts[k + 1].id], n);
    }
  }

  lemma {:induction false} ArgumentsLocal(ts: seq<Token>, us: seq<Token>, i: nat, acc: seq<Expr>, n: nat)
    requires Alike(ts, us, n) && i <= |ts| && End(ParseArguments(ts, i, acc)) < n
    ensures i <= |us| && ParseArguments(us, i, acc) == ParseArguments(ts, i, acc)
    decreases |ts| - i, 10
  {
    DisjunctionLocal(ts, us, i, n);
    var d := ParseDisjunction(ts, i);
    if d.Got? {
      ArgumentTailLocal(ts, us, i, d.next, d.val, acc, n);
    }
  }

  lemma {:induction false} ArgumentTailLocal(
      ts: seq<Token>, us: seq<Token>, i: nat, k: nat, e: Expr, acc: seq<Expr>, n: nat)
    requires Alike(ts, us, n) && i < k <= |ts| && i <= |us|
    requires ParseDisjunction(ts, i) == Got(e, k) && ParseDisjunction(us, i) == Got(e, k)
    requires End(ParseArguments(ts, i, acc)) < n
    ensures ParseArguments(us, i, acc) == ParseArguments(ts, i, acc)
    decreases |ts| - i, 9
  {
    if At(ts, k, Comma) {
      ArgumentsLocal(ts, us, k + 1, acc + [e], n);
    }
  }

  lemma {:induction false} MemberLocal(ts: seq<Token>, us: seq<Token>, i: nat, n: nat)
    requires Alike(ts, us, n) && i <= |ts| && End(ParseMember(ts, i)) < n
    ensures i <= |us| && ParseMember(us, i) == ParseMember(ts, i)
    decreases |ts| - i, 1
  {
    PrimaryLocal(ts, us, i, n);
    var p := ParsePrimary(ts, i);
    if p.Got? {
      MemberTailLocal(ts, us, p.next, p.val, n);
    }
  }

  lemma {:induction false} MemberTailLocal(ts: seq<Token>, us: seq<Token>, k: nat, needle: Expr, n: nat)
    requires Alike(ts, us, n) && k <= |ts| && End(MemberTail(ts, k, needle)) < n
    ensures k <= |us| && MemberTail(us, k, needle) == MemberTail(ts, k, needle)
    decreases |ts| - k, 1
  {
    var negated := At(ts, k, KwNot) && At(ts, k + 1, KwIn);
    if negated || At(ts, k, KwIn) {
      PrimaryLocal(ts, us, if negated then k + 2 else k + 1, n);
    }
  }

  lemma {:induction false} ComparisonLocal(ts: seq<Token>, us: seq<Token>, i: nat, n: nat)
    requires Alike(ts, us, n) && i <= |ts| && End(ParseComparison(ts, i)) < n
    ensures i <= |us| && ParseComparison(us, i) == ParseComparison(ts, i)
    decreases |ts| - i, 2
  {
    MemberLocal(ts, us, i, n);
    var m := ParseMember(ts, i);
    if m.Got? {
      ComparisonTailLocal(ts, us, m.next, m.val, n);
    }
  }

  lemma {:induction false} ComparisonTailLocal(ts: seq<Token>, us: seq<Token>, k: nat, left: Expr, n: nat)
    requires Alike(ts, us, n) && k <= |ts| && End(ComparisonTail(ts, k, left)) < n
    ensures k <= |us| && ComparisonTail(us, k, left) == ComparisonTail(ts, k, left)
    decreases |ts| - k, 2
  {
    if k < |ts| && ComparisonOf(ts[k]).Some? {
      MemberLocal(ts, us, k + 1, n);
    }
  }

  lemma {:induction false} NegationLocal(ts: seq<Token>, us: seq<Token>, i: nat, n: nat)
    requires Alike(ts, us, n) && i <= |ts| && End(ParseNegation(ts, i)) < n
    ensures i <= |us| && ParseNegation(us, i) == ParseNegation(ts, i)
    decreases |ts| - i, 3
  {
    if At(ts, i, KwNot) {
      NegationLocal(ts, us, i + 1, n);
    } else {
      ComparisonLocal(ts, us, i, n);
    }
  }

  lemma {:induction false} ConjunctionLocal(ts: seq<Token>, us: seq<Token>, i: nat, n: nat)
    requires Alike(ts, us, n) && i <= |ts| && End(ParseConjunction(ts, i)) < n
    ensures i <= |us| && ParseConjunction(us, i) == ParseConjunction(ts, i)
    decreases |ts| - i, 4
  {
    NegationLocal(ts, us, i, n);
    var r := ParseNegation(ts, i);
    if r.Got? {
      AndTailLocal(ts, us, r.next, r.val, n);
    }
  }

  lemma {:induction false} AndTailLocal(ts: seq<Token>, us: seq<Token>, k: nat, left: Expr, n: nat)
    requires Alike(ts, us, n) && k <= |ts| && End(AndTail(ts, k, left)) < n
    ensures k <= |us| && AndTail(us, k, left) == AndTail(ts, k, left)
    decreases |ts| - k, 4
  {
    if At(ts, k, KwAnd) {
      NegationLocal(ts, us, k + 1, n);
      var r := ParseNegation(ts, k + 1);
      if r.Got? {
        AndTailLocal(ts, us, r.next, Binary(And, left, r.val), n);
      }
    }
  }

  lemma {:induction false} DisjunctionLocal(ts: seq<Token>, us: seq<Token>, i: nat, n: nat)
    requires Alike(ts, us, n) && i <= |ts| && End(ParseDisjunction(ts, i)) < n
    ensures i <= |us| && ParseDisjunction(us, i) == ParseDisjunction(ts, i)
    decreases |ts| - i, 5
  {
    ConjunctionLocal(ts, us, i, n);
    var r := ParseConjunction(ts, i);
    if r.Got? {
      OrTailLocal(ts, us, r.next, r.val, n);
    }
  }

  lemma {:induction false} OrTailLocal(ts: seq<Token>, us: seq<Token>, k: nat, left: Expr, n: nat)
    requires Alike(ts, us, n) && k <= |ts| && End(OrTail(ts, k, left)) < n
    ensures k <= |us| && OrTail(us, k, left) == OrTail(ts, k, left)
    decreases |ts| - k, 5
  {
    if At(ts, k, KwOr) {
      ConjunctionLocal(ts, us, k + 1, n);
      var r := ParseConjunction(ts, k + 1);
      if r.Got? {
        OrTailLocal(ts, us, r.next, Binary(Or, left, r.val), n);
      }
    }
  }

  lemma {:induction false} AttributeLocal(ts: seq<Token>, us: seq<Token>, k: nat, a: Action, n: nat)
    requires Alike(ts, us, n) && k <= |ts| && End(ParseAttribute(ts, k, a)) < n
    ensures k <= |us| && ParseAttribute(us, k, a) == ParseAttribute(ts, k, a)
  {
    if At(ts, k, KwEvidence) && At(ts, k + 1, Assign) {
      DisjunctionLocal(ts, us, k + 2, n);
    }
  }

  lemma {:induction false} AttributeTailLocal(ts: seq<Token>, us: seq<Token>, k: nat, a: Action, n: nat)
    requires Alike(ts, us, n) && k <= |ts| && End(AttributeTail(ts, k, a)) < n
    ensures k <= |us| && AttributeTail(us, k, a) == AttributeTail(ts, k, a)
    decreases |ts| - k
  {
    if At(ts, k, Comma) {
      AttributeLocal(ts, us, k + 1, a, n);
      var r := ParseAttribute(ts, k + 1, a);
      if r.Got? {
        AttributeTailLocal(ts, us, r.next, r.val, n);
      }
    }
  }

  lemma {:induction false} ActionLocal(ts: seq<Token>, us: seq<Token>, i: nat, n: nat)
    requires Alike(ts, us, n) && i <= |ts| && End(ParseAction(ts, i)) < n
    ensures i <= |us| && ParseAction(us, i) == ParseAction(ts, i)
  {
    if VerdictOf(ts[i]).Some? {
      AttributeTailLocal(ts, us, i + 1, Action(VerdictOf(ts[i]).value, None, None), n);
    }
  }

  lemma {:induction false} ThenLocal(ts: seq<Token>, us: seq<Token>, i: nat, name: string, guard: Expr, n: nat)
    requires Alike(ts, us, n) && i <= |ts| && End(ThenTail(ts, i, name, guard)) < n
    ensures i <= |us| && ThenTail(us, i, name, guard) == ThenTail(ts, i, name, guard)
  {
    ActionLocal(ts, us, i, n);
  }

  lemma {:induction false} BodyLocal(ts: seq<Token>, us: seq<Token>, i: nat, name: string, n: nat)
    requires Alike(ts, us, n) && i <= |ts| && End(PolicyTail(ts, i, name)) < n
    ensures i <= |us| && PolicyTail(us, i, name) == PolicyTail(ts, i, name)
  {
    DisjunctionLocal(ts, us, i, n);
    var d := ParseDisjunction(ts, i);
    if d.Got? {
      GuardLocal(ts, us, d.next, name, d.val, n);
    }
  }

  lemma {:induction false} GuardLocal(ts: seq<Token>, us: seq<Token>, k: nat, name: string, guard: Expr, n: nat)
    requires Alike(ts, us, n) && k <= |ts| && End(GuardTail(ts, k, name, guard)) < n
    ensures k <= |us| && GuardTail(us, k, name, guard) == GuardTail(ts, k, name, guard)
  {
    if At(ts, k, KwThen) {
      ThenGuardLocal(ts, us, k, name, guard, n);
    }
  }

  lemma {:induction false} ThenGuardLocal(ts: seq<Token>, us: seq<Token>, k: nat, name: string, guard: Expr, n: nat)
    requires Alike(ts, us, n) && At(ts, k, KwThen) && End(ThenTail(ts, k + 1, name, guard)) < n
    ensures At(us, k, KwThen) && ThenTail(us, k + 1, name, guard) == ThenTail(ts, k + 1, name, guard)
  {
    ThenLocal(ts, us, k + 1, name, guard, n);
  }

  predicate Header(ts: seq<Token>, i: nat) {
    && At(ts, i, KwPolicy) && i + 1 < |ts| && ts[i + 1].TStr?
    && At(ts, i + 2, LBrace) && At(ts, i + 3, KwWhen)
  }

  lemma {:induction false} HeaderRead(ts: seq<Token>, i: nat)
    requires Header(ts, i)
    ensures ParsePolicy(ts, i) == PolicyTail(ts, i + 4, ts[i + 1].s)
  {
  }

  lemma {:induction false} NoHeaderLocal(ts: seq<Token>, us: seq<Token>, i: nat, n: nat)
    requires Alike(ts, us, n) && i <= |ts| && !Header(ts, i) && End(ParsePolicy(ts, i)) < n
    ensures i <= |us| && ParsePolicy(us, i) == ParsePolicy(ts, i)
  {
  }

  /** A finished policy is read off its own tokens. */
  lemma {:induction false} PolicyLocal(ts: seq<Token>, us: seq<Token>, i: nat, n: nat)
    requires Alike(ts, us, n) && i <= |ts| && End(ParsePolicy(ts, i)) < n
    ensures i <= |us| && ParsePolicy(us, i) == ParsePolicy(ts, i)
  {
    if Header(ts, i) {
      HeaderRead(ts, i);
      BodyLocal(ts, us, i + 4, ts[i + 1].s, n);
      HeaderRead(us, i);
    } else {
      NoHeaderLocal(ts, us, i, n);
    }
  }

  /** A failure is settled by the tokens up to the one that does not fit, unless it becomes a `not in`. */
  lemma {:induction false} PoliciesLocal(ts: seq<Token>, us: seq<Token>, i: nat, acc: seq<Policy>, n: nat)
    requires Alike(ts, us, n) && i <= |ts|
    requires ParsePolicies(ts, i, acc).Fail? && ParsePolicies(ts, i, acc).at < n
    ensures i <= |us| && ParsePolicies(us, i, acc) == ParsePolicies(ts, i, acc)
    decreases |ts| - i
  {
    var p := ParsePolicy(ts, i);
    PolicyLocal(ts, us, i, n);
    if p.Got? {
      PoliciesLocal(ts, us, p.next, acc + [p.val], n);
    }
  }
}
