/** What the parser accepts, the grammar derives. */
module ParserSoundness {
  import opened Outcomes
  import opened Ast
  import opened Lexer
  import opened Grammar
  import opened Parsing

  lemma {:induction false} PrimarySound(ts: seq<Token>, i: nat)
    requires i <= |ts|
    ensures var r := ParsePrimary(ts, i); r.Got? ==> Primary(ts, i, r.next, r.val)
    decreases |ts| - i, 0
  {
    if i < |ts| && LiteralOf(ts[i]).None? {
      if ts[i] == LParen {
        ParenSound(ts, i);
      } else if ts[i].TIdent? {
        if At(ts, i + 1, LParen) {
          CallSound(ts, i);
        } else {
          SegmentsSound(ts, i, i + 1, [ts[i].id]);
        }
      }
    }
  }

  lemma {:induction false} ParenSound(ts: seq<Token>, i: nat)
    requires At(ts, i, LParen)
    ensures var r := ParenTail(ts, i + 1); r.Got? ==> Primary(ts, i, r.next, r.val)
    decreases |ts| - i - 1, 20
  {
    DisjunctionSound(ts, i + 1);
  }

  lemma {:induction false} CallSound(ts: seq<Token>, i: nat)
    requires i < |ts| && ts[i].TIdent? && At(ts, i + 1, LParen)
    ensures var r := CallTail(ts, i + 2, ts[i].id); r.Got? ==> Primary(ts, i, r.next, r.val)
    decreases |ts| - i - 1, 20
  {
    if !At(ts, i + 2, RParen) {
      ArgumentsSound(ts, i + 2, []);
    }
  }

  lemma {:induction false} SegmentsSound(ts: seq<Token>, i: nat, k: nat, segs: seq<string>)
    requires i < k <= |ts| && DottedPath(ts, i, k, segs)
    ensures var r := ParseSegments(ts, k, segs);
            r.Got? ==> r.val.Path? && DottedPath(ts, i, r.next, r.val.segs)
    decreases |ts| - k
  {
    if At(ts, k, Dot) && k + 1 < |ts| && ts[k + 1].TIdent? {
      SegmentsSound(ts, i, k + 2, segs + [ts[k + 1].id]);
    }
  }

  lemma {:induction false} ArgumentsSound(ts: seq<Token>, i: nat, acc: seq<Expr>)
    requires i <= |ts|
    ensures var r := ParseArguments(ts, i, acc);
            r.Got? ==> |acc| < |r.val| && r.val[..|acc|] == acc && Arguments(ts, i, r.next, r.val[|acc|..])
    decreases |ts| - i, 10
  {
    DisjunctionSound(ts, i);
    var d := ParseDisjunction(ts, i);
    if d.Got? && At(ts, d.next, Comma) {
      ArgumentsSound(ts, d.next + 1, acc + [d.val]);
      var r := ParseArguments(ts, d.next + 1, acc + [d.val]);
      if r.Got? {
        var args := r.val[|acc|..];
        assert r.val[..|acc|] == r.val[..|acc| + 1][..|acc|];
        assert args[0] == r.val[..|acc| + 1][|acc|] && args[1..] == r.val[|acc| + 1..];
      }
    } else if d.Got? {
      assert (acc + [d.val])[|acc|..] == [d.val];
    }
  }

  lemma {:induction false} MemberSound(ts: seq<Token>, i: nat)
    requires i <= |ts|
    ensures var r := ParseMember(ts, i); r.Got? ==> Member(ts, i, r.next, r.val)
    decreases |ts| - i, 1
  {
    PrimarySound(ts, i);
    var p := ParsePrimary(ts, i);
    if p.Got? {
      MemberTailSound(ts, i, p.next, p.val);
    }
  }

  lemma {:induction false} MemberTailSound(ts: seq<Token>, i: nat, k: nat, needle: Expr)
    requires i < k <= |ts| && Primary(ts, i, k, needle)
    ensures var r := MemberTail(ts, k, needle); r.Got? ==> Member(ts, i, r.next, r.val)
    decreases |ts| - k, 1
  {
    var r := MemberTail(ts, k, needle);
    var negated := At(ts, k, KwNot) && At(ts, k + 1, KwIn);
    if r.Got? && (negated || At(ts, k, KwIn)) {
      var h := if negated then k + 2 else k + 1;
      PrimarySound(ts, h);
      JoinMember(ts, i, k, h, r.next, r.val);
    }
  }

  lemma {:induction false} ComparisonSound(ts: seq<Token>, i: nat)
    requires i <= |ts|
    ensures var r := ParseComparison(ts, i); r.Got? ==> Comparison(ts, i, r.next, r.val)
    decreases |ts| - i, 2
  {
    MemberSound(ts, i);
    var m := ParseMember(ts, i);
    if m.Got? {
      ComparisonTailSound(ts, i, m.next, m.val);
    }
  }

  lemma {:induction false} ComparisonTailSound(ts: seq<Token>, i: nat, k: nat, left: Expr)
    requires i < k <= |ts| && Member(ts, i, k, left)
    ensures var r := ComparisonTail(ts, k, left); r.Got? ==> Comparison(ts, i, r.next, r.val)
    decreases |ts| - k, 2
  {
    var r := ComparisonTail(ts, k, left);
    if r.Got? && k < |ts| && ComparisonOf(ts[k]).Some? {
      RightSound(ts, k, left, r.val, r.next);
      JoinComparison(ts, i, k, r.next, r.val);
    }
  }

  lemma {:induction false} RightSound(ts: seq<Token>, k: nat, left: Expr, e: Expr, j: nat)
    requires k < |ts| && ComparisonOf(ts[k]).Some? && ComparisonTail(ts, k, left) == Got(e, j)
    ensures e.Binary? && e.left == left && ComparisonOf(ts[k]) == Some(e.op) && Member(ts, k + 1, j, e.right)
    decreases |ts| - k, 1
  {
    MemberSound(ts, k + 1);
  }

  lemma {:induction false} NegationSound(ts: seq<Token>, i: nat)
    requires i <= |ts|
    ensures var r := ParseNegation(ts, i); r.Got? ==> Negation(ts, i, r.next, r.val)
    decreases |ts| - i, 3
  {
    if At(ts, i, KwNot) {
      NegationSound(ts, i + 1);
    } else {
      ComparisonSound(ts, i);
    }
  }

  lemma {:induction false} ConjunctionSound(ts: seq<Token>, i: nat)
    requires i <= |ts|
    ensures var r := ParseConjunction(ts, i); r.Got? ==> Conjunction(ts, i, r.next, r.val)
    decreases |ts| - i, 4
  {
    NegationSound(ts, i);
    var n := ParseNegation(ts, i);
    if n.Got? {
      AndTailSound(ts, i, n.next, n.val);
    }
  }

  lemma {:induction false} AndTailSound(ts: seq<Token>, i: nat, k: nat, left: Expr)
    requires i < k <= |ts| && Conjunction(ts, i, k, left)
    ensures var r := AndTail(ts, k, left); r.Got? ==> Conjunction(ts, i, r.next, r.val)
    decreases |ts| - k, 4
  {
    if At(ts, k, KwAnd) {
      NegationSound(ts, k + 1);
      var n := ParseNegation(ts, k + 1);
      if n.Got? {
        AndTailSound(ts, i, n.next, Binary(And, left, n.val));
      }
    }
  }

  lemma {:induction false} DisjunctionSound(ts: seq<Token>, i: nat)
    requires i <= |ts|
    ensures var r := ParseDisjunction(ts, i); r.Got? ==> Disjunction(ts, i, r.next, r.val)
    decreases |ts| - i, 5
  {
    ConjunctionSound(ts, i);
    var c := ParseConjunction(ts, i);
    if c.Got? {
      OrTailSound(ts, i, c.next, c.val);
    }
  }

  lemma {:induction false} OrTailSound(ts: seq<Token>, i: nat, k: nat, left: Expr)
    requires i < k <= |ts| && Disjunction(ts, i, k, left)
    ensures var r := OrTail(ts, k, left); r.Got? ==> Disjunction(ts, i, r.next, r.val)
    decreases |ts| - k, 5
  {
    if At(ts, k, KwOr) {
      ConjunctionSound(ts, k + 1);
      var c := ParseConjunction(ts, k + 1);
      if c.Got? {
        OrTailSound(ts, i, c.next, Binary(Or, left, c.val));
      }
    }
  }

  lemma {:induction false} AttributeTailSound(ts: seq<Token>, i: nat, k: nat, a: Action)
    requires i < k <= |ts| && ActionClause(ts, i, k, a)
    ensures var r := AttributeTail(ts, k, a); r.Got? ==> ActionClause(ts, i, r.next, r.val)
    decreases |ts| - k
  {
    if At(ts, k, Comma) {
      AttributeSound(ts, k, a);
      var r := ParseAttribute(ts, k + 1, a);
      if r.Got? {
        JoinAction(ts, i, k, r.next, a, r.val);
        AttributeTailSound(ts, i, r.next, r.val);
      }
    }
  }

  lemma {:induction false} AttributeSound(ts: seq<Token>, k: nat, a: Action)
    requires At(ts, k, Comma)
    ensures var r := ParseAttribute(ts, k + 1, a); r.Got? ==> Attribute(ts, k, r.next, a, r.val)
  {
    if At(ts, k + 1, KwEvidence) && At(ts, k + 2, Assign) {
      DisjunctionSound(ts, k + 3);
    }
  }

  lemma {:induction false} PolicySound(ts: seq<Token>, i: nat)
    requires i <= |ts|
    ensures var r := ParsePolicy(ts, i); r.Got? ==> PolicyClause(ts, i, r.next, r.val)
  {
    if ParsePolicy(ts, i).Got? {
      BodySound(ts, i + 4, ts[i + 1].s);
    }
  }

  lemma {:induction false} BodySound(ts: seq<Token>, i: nat, name: string)
    requires i <= |ts|
    ensures var r := PolicyTail(ts, i, name);
            r.Got? ==> r.val.name == name && PolicyBody(ts, i, r.next, r.val.guard, r.val.action)
  {
    DisjunctionSound(ts, i);
    var d := ParseDisjunction(ts, i);
    if d.Got? && At(ts, d.next, KwThen) {
      var r := ThenTail(ts, d.next + 1, name, d.val);
      if r.Got? {
        BodyAfterGuard(ts, i, d.next, r.next, name, d.val, r.val);
      }
    }
  }

  lemma {:induction false} BodyAfterGuard(
      ts: seq<Token>, i: nat, k: nat, j: nat, name: string, guard: Expr, p: Policy)
    requires i < k && At(ts, k, KwThen) && Disjunction(ts, i, k, guard) && ThenTail(ts, k + 1, name, guard) == Got(p, j)
    ensures p.name == name && p.guard == guard && PolicyBody(ts, i, j, guard, p.action)
  {
    ThenSound(ts, k + 1, name, guard);
    JoinBody(ts, i, k, j, guard, p.action);
  }

  lemma {:induction false} ThenSound(ts: seq<Token>, i: nat, name: string, guard: Expr)
    requires i <= |ts|
    ensures var r := ThenTail(ts, i, name, guard);
            r.Got? ==> && r.val.name == name && r.val.guard == guard
                       && i < r.next - 1 && ts[r.next - 1] == RBrace
                       && ActionClause(ts, i, r.next - 1, r.val.action)
  {
    ActionSound(ts, i);
  }

  lemma {:induction false} ActionSound(ts: seq<Token>, i: nat)
    requires i <= |ts|
    ensures var r := ParseAction(ts, i); r.Got? ==> ActionClause(ts, i, r.next, r.val)
  {
    if ParseAction(ts, i).Got? {
      var a := Action(VerdictOf(ts[i]).value, None, None);
      assert ActionClause(ts, i, i + 1, a);
      AttributeTailSound(ts, i, i + 1, a);
    }
  }

  lemma {:induction false} PoliciesSound(ts: seq<Token>, i: nat, acc: seq<Policy>)
    requires i <= |ts|
    ensures var r := ParsePolicies(ts, i, acc);
            r.Got? ==> acc <= r.val.policies && Policies(ts, i, |ts|, r.val.policies[|acc|..])
    decreases |ts| - i, 1
  {
    if i < |ts| && ParsePolicy(ts, i).Got? {
      PolicySound(ts, i);
      PoliciesSoundAfter(ts, i, ParsePolicy(ts, i).next, acc, ParsePolicy(ts, i).val);
    }
  }

  lemma {:induction false} PoliciesSoundAfter(ts: seq<Token>, i: nat, k: nat, acc: seq<Policy>, p: Policy)
    requires i < k <= |ts| && PolicyClause(ts, i, k, p)
    ensures var r := ParsePolicies(ts, k, acc + [p]);
            r.Got? ==> acc <= r.val.policies && Policies(ts, i, |ts|, r.val.policies[|acc|..])
    decreases |ts| - i, 0
  {
    PoliciesSound(ts, k, acc + [p]);
    var r := ParsePolicies(ts, k, acc + [p]);
    if r.Got? {
      PoliciesFirst(ts, i, k, acc, p, r.val.policies);
    }
  }

  lemma {:induction false} PoliciesFirst(
      ts: seq<Token>, i: nat, k: nat, acc: seq<Policy>, p: Policy, all: seq<Policy>)
    requires i < k <= |ts| && PolicyClause(ts, i, k, p)
    requires acc + [p] <= all && Policies(ts, k, |ts|, all[|acc| + 1..])
    ensures acc <= all && Policies(ts, i, |ts|, all[|acc|..])
  {
    var ps := all[|acc|..];
    assert ps[0] == (acc + [p])[|acc|] && ps[1..] == all[|acc| + 1..];
    JoinPolicies(ts, i, k, |ts|, ps);
  }
}
