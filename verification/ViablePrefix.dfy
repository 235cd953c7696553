/**
 Where the parser stops. The tokens before the one it reports can always be completed to a
 program. With that token they cannot, unless it is a `not` in the place of an operator, which the
 parser gives back when no `in` follows; then one more token settles it.
 */
module ViablePrefix {
  import opened Outcomes
  import opened Ast
  import opened Lexer
  import opened Grammar
  import opened GrammarLocality
  import opened Parsing
  import opened ParserLocality
  import opened ParserSoundness
  import opened ParserTheorems

  /** The first b tokens of ts, completed by z. */
  function Completed(ts: seq<Token>, b: nat, z: seq<Token>): (us: seq<Token>)
    requires b <= |ts|
    ensures Agree(ts, us, b) && |us| == b + |z|
    ensures forall k :: b <= k < |us| ==> us[k] == z[k - b]
  {
    ts[..b] + z
  }

  // ---- expressions: what was read up to the failure can be completed ----

  lemma {:induction false} PrimaryViable(ts: seq<Token>, i: nat) returns (us: seq<Token>, e: Expr)
    requires i <= |ts| && ParsePrimary(ts, i).Fail?
    ensures Agree(ts, us, ParsePrimary(ts, i).at) && Primary(us, i, |us|, e)
    decreases |ts| - i, 0
  {
    if At(ts, i, LParen) {
      us, e := ParenViable(ts, i);
    } else if i < |ts| && ts[i].TIdent? && At(ts, i + 1, LParen) {
      us, e := CallViable(ts, i);
    } else if i < |ts| && ts[i].TIdent? {
      us, e := SegmentsViable(ts, i, i + 1, [ts[i].id]);
    } else {
      us, e := Completed(ts, i, [KwTrue]), Literal(BoolLit(true));
    }
  }

  lemma {:induction false} ParenViable(ts: seq<Token>, i: nat) returns (us: seq<Token>, e: Expr)
    requires At(ts, i, LParen) && ParenTail(ts, i + 1).Fail?
    ensures Agree(ts, us, ParenTail(ts, i + 1).at) && Primary(us, i, |us|, e)
    decreases |ts| - i - 1, 20
  {
    var d := ParseDisjunction(ts, i + 1);
    if d.Fail? {
      var vs;
      vs, e := DisjunctionViable(ts, i + 1);
      us := Completed(vs, |vs|, [RParen]);
      DisjunctionKept(vs, us, i + 1, |vs|, e);
    } else {
      e := d.val;
      us := Completed(ts, d.next, [RParen]);
      DisjunctionSound(ts, i + 1);
      DisjunctionKept(ts, us, i + 1, d.next, e);
    }
  }

  lemma {:induction false} CallViable(ts: seq<Token>, i: nat) returns (us: seq<Token>, e: Expr)
    requires i < |ts| && ts[i].TIdent? && At(ts, i + 1, LParen) && CallTail(ts, i + 2, ts[i].id).Fail?
    ensures Agree(ts, us, CallTail(ts, i + 2, ts[i].id).at) && Primary(us, i, |us|, e)
    decreases |ts| - i - 1, 20
  {
    var vs, args := ArgumentsViable(ts, i + 2);
    us := Completed(vs, |vs|, [RParen]);
    ArgumentsKept(vs, us, i + 2, |vs|, args);
    e := Call(ts[i].id, args);
  }

  /** The arguments fail, or end where neither `)` nor `,` follows; without the `)` they can be completed. */
  lemma {:induction false} ArgumentsViable(ts: seq<Token>, i: nat) returns (us: seq<Token>, args: seq<Expr>)
    requires i <= |ts|
    ensures Agree(ts, us, End(ParseArguments(ts, i, []))) && Arguments(us, i, |us|, args)
    decreases |ts| - i, 11
  {
    us, args := ArgumentListViable(ts, i, []);
  }

  lemma {:induction false} ArgumentListViable(ts: seq<Token>, i: nat, acc: seq<Expr>)
    returns (us: seq<Token>, args: seq<Expr>)
    requires i <= |ts|
    ensures Agree(ts, us, End(ParseArguments(ts, i, acc))) && Arguments(us, i, |us|, args)
    decreases |ts| - i, 10
  {
    var d := ParseDisjunction(ts, i);
    if d.Fail? {
      var e;
      us, e := DisjunctionViable(ts, i);
      args := [e];
    } else {
      DisjunctionSound(ts, i);
      if At(ts, d.next, Comma) {
        var rest;
        us, rest := ArgumentListViable(ts, d.next + 1, acc + [d.val]);
        args := [d.val] + rest;
        DisjunctionKept(ts, us, i, d.next, d.val);
        JoinArguments(us, i, d.next, |us|, args);
      } else {
        us, args := Completed(ts, d.next, []), [d.val];
        DisjunctionKept(ts, us, i, d.next, d.val);
      }
    }
  }

  lemma {:induction false} SegmentsViable(ts: seq<Token>, i: nat, k: nat, segs: seq<string>)
    returns (us: seq<Token>, e: Expr)
    requires i < k <= |ts| && DottedPath(ts, i, k, segs) && ParseSegments(ts, k, segs).Fail?
    ensures Agree(ts, us, ParseSegments(ts, k, segs).at) && Primary(us, i, |us|, e)
    decreases |ts| - k
  {
    if k + 1 < |ts| && ts[k + 1].TIdent? {
      us, e := SegmentsViable(ts, i, k + 2, segs + [ts[k + 1].id]);
    } else {
      us, e := Completed(ts, k + 1, [TIdent("x")]), Path(segs + ["x"]);
      assert DottedPath(us, i, |us|, segs + ["x"]);
    }
  }

  lemma {:induction false} MemberViable(ts: seq<Token>, i: nat) returns (us: seq<Token>, e: Expr)
    requires i <= |ts| && ParseMember(ts, i).Fail?
    ensures Agree(ts, us, ParseMember(ts, i).at) && Member(us, i, |us|, e)
    decreases |ts| - i, 1
  {
    var p := ParsePrimary(ts, i);
    if p.Fail? {
      us, e := PrimaryViable(ts, i);
    } else {
      PrimarySound(ts, i);
      us, e := HaystackViable(ts, i, p.next, p.val);
    }
  }

  lemma {:induction false} HaystackViable(ts: seq<Token>, i: nat, k: nat, needle: Expr)
    returns (us: seq<Token>, e: Expr)
    requires i < k <= |ts| && Primary(ts, i, k, needle) && MemberTail(ts, k, needle).Fail?
    ensures Agree(ts, us, MemberTail(ts, k, needle).at) && Member(us, i, |us|, e)
    decreases |ts| - k, 1
  {
    var negated := At(ts, k, KwNot) && At(ts, k + 1, KwIn);
    var h := if negated then k + 2 else k + 1;
    var haystack;
    us, haystack := PrimaryViable(ts, h);
    e := Membership(negated, needle, haystack);
    PrimaryKept(ts, us, i, k, needle);
    JoinMember(us, i, k, h, |us|, e);
  }

  lemma {:induction false} ComparisonViable(ts: seq<Token>, i: nat) returns (us: seq<Token>, e: Expr)
    requires i <= |ts| && ParseComparison(ts, i).Fail?
    ensures Agree(ts, us, ParseComparison(ts, i).at) && Comparison(us, i, |us|, e)
    decreases |ts| - i, 2
  {
    var m := ParseMember(ts, i);
    if m.Fail? {
      us, e := MemberViable(ts, i);
    } else {
      MemberSound(ts, i);
      us, e := RightViable(ts, i, m.next, m.val);
    }
  }

  lemma {:induction false} RightViable(ts: seq<Token>, i: nat, k: nat, left: Expr) returns (us: seq<Token>, e: Expr)
    requires i < k <= |ts| && Member(ts, i, k, left) && ComparisonTail(ts, k, left).Fail?
    ensures Agree(ts, us, ComparisonTail(ts, k, left).at) && Comparison(us, i, |us|, e)
    decreases |ts| - k, 2
  {
    var right;
    us, right := MemberViable(ts, k + 1);
    e := Binary(ComparisonOf(ts[k]).value, left, right);
    MemberKept(ts, us, i, k, left);
    JoinComparison(us, i, k, |us|, e);
  }

  lemma {:induction false} NegationViable(ts: seq<Token>, i: nat) returns (us: seq<Token>, e: Expr)
    requires i <= |ts| && ParseNegation(ts, i).Fail?
    ensures Agree(ts, us, ParseNegation(ts, i).at) && Negation(us, i, |us|, e)
    decreases |ts| - i, 3
  {
    if At(ts, i, KwNot) {
      var inner;
      us, inner := NegationViable(ts, i + 1);
      e := Unary(Not, inner);
    } else {
      us, e := ComparisonViable(ts, i);
    }
  }

  lemma {:induction false} ConjunctionViable(ts: seq<Token>, i: nat) returns (us: seq<Token>, e: Expr)
    requires i <= |ts| && ParseConjunction(ts, i).Fail?
    ensures Agree(ts, us, ParseConjunction(ts, i).at) && Conjunction(us, i, |us|, e)
    decreases |ts| - i, 4
  {
    var n := ParseNegation(ts, i);
    if n.Fail? {
      us, e := NegationViable(ts, i);
    } else {
      NegationSound(ts, i);
      us, e := AndTailViable(ts, i, n.next, n.val);
    }
  }

  lemma {:induction false} AndTailViable(ts: seq<Token>, i: nat, k: nat, left: Expr) returns (us: seq<Token>, e: Expr)
    requires i < k <= |ts| && Conjunction(ts, i, k, left) && AndTail(ts, k, left).Fail?
    ensures Agree(ts, us, AndTail(ts, k, left).at) && Conjunction(us, i, |us|, e)
    decreases |ts| - k, 4
  {
    var n := ParseNegation(ts, k + 1);
    if n.Fail? {
      var right;
      us, right := NegationViable(ts, k + 1);
      e := Binary(And, left, right);
      ConjunctionKept(ts, us, i, k, left);
      JoinConjunction(us, i, k, |us|, e);
    } else {
      NegationSound(ts, k + 1);
      JoinConjunction(ts, i, k, n.next, Binary(And, left, n.val));
      us, e := AndTailViable(ts, i, n.next, Binary(And, left, n.val));
    }
  }

  lemma {:induction false} DisjunctionViable(ts: seq<Token>, i: nat) returns (us: seq<Token>, e: Expr)
    requires i <= |ts| && ParseDisjunction(ts, i).Fail?
    ensures Agree(ts, us, ParseDisjunction(ts, i).at) && Disjunction(us, i, |us|, e)
    decreases |ts| - i, 5
  {
    var c := ParseConjunction(ts, i);
    if c.Fail? {
      us, e := ConjunctionViable(ts, i);
    } else {
      ConjunctionSound(ts, i);
      us, e := OrTailViable(ts, i, c.next, c.val);
    }
  }

  lemma {:induction false} OrTailViable(ts: seq<Token>, i: nat, k: nat, left: Expr) returns (us: seq<Token>, e: Expr)
    requires i < k <= |ts| && Disjunction(ts, i, k, left) && OrTail(ts, k, left).Fail?
    ensures Agree(ts, us, OrTail(ts, k, left).at) && Disjunction(us, i, |us|, e)
    decreases |ts| - k, 5
  {
    var c := ParseConjunction(ts, k + 1);
    if c.Fail? {
      var right;
      us, right := ConjunctionViable(ts, k + 1);
      e := Binary(Or, left, right);
      DisjunctionKept(ts, us, i, k, left);
      JoinDisjunction(us, i, k, |us|, e);
    } else {
      ConjunctionSound(ts, k + 1);
      JoinDisjunction(ts, i, k, c.next, Binary(Or, left, c.val));
      us, e := OrTailViable(ts, i, c.next, Binary(Or, left, c.val));
    }
  }

  // ---- actions and policies ----

  lemma {:induction false} TrueDerives(us: seq<Token>, i: nat)
    requires At(us, i, KwTrue)
    ensures Disjunction(us, i, i + 1, Literal(BoolLit(true)))
  {
    assert Primary(us, i, i + 1, Literal(BoolLit(true)));
    assert Member(us, i, i + 1, Literal(BoolLit(true)));
    assert Negation(us, i, i + 1, Literal(BoolLit(true)));
  }

  lemma {:induction false} AttributeViable(ts: seq<Token>, k: nat, a: Action) returns (us: seq<Token>, a': Action)
    requires At(ts, k, Comma) && ParseAttribute(ts, k + 1, a).Fail?
    ensures Agree(ts, us, ParseAttribute(ts, k + 1, a).at) && Attribute(us, k, |us|, a, a')
  {
    if At(ts, k + 1, KwEvidence) {
      if At(ts, k + 2, Assign) {
        var e;
        us, e := DisjunctionViable(ts, k + 3);
        a' := a.(evidence := Some(e));
      } else {
        us, a' := Completed(ts, k + 2, [Assign, KwTrue]), a.(evidence := Some(Literal(BoolLit(true))));
        TrueDerives(us, k + 3);
      }
    } else {
      a' := a.(reason := Some(""));
      us := ReasonViable(ts, k, a);
    }
  }

  lemma {:induction false} ReasonViable(ts: seq<Token>, k: nat, a: Action) returns (us: seq<Token>)
    requires At(ts, k, Comma) && ParseAttribute(ts, k + 1, a).Fail? && !At(ts, k + 1, KwEvidence)
    ensures Agree(ts, us, ParseAttribute(ts, k + 1, a).at) && Attribute(us, k, |us|, a, a.(reason := Some("")))
  {
    if !At(ts, k + 1, KwReason) {
      us := Completed(ts, k + 1, [KwReason, Assign, TStr("")]);
    } else if !At(ts, k + 2, Assign) {
      us := Completed(ts, k + 2, [Assign, TStr("")]);
    } else {
      us := Completed(ts, k + 3, [TStr("")]);
    }
  }

  lemma {:induction false} AttributesViable(ts: seq<Token>, i: nat, k: nat, a: Action)
    returns (us: seq<Token>, a': Action)
    requires i < k <= |ts| && ActionClause(ts, i, k, a) && AttributeTail(ts, k, a).Fail?
    ensures Agree(ts, us, AttributeTail(ts, k, a).at) && ActionClause(us, i, |us|, a')
    decreases |ts| - k
  {
    var r := ParseAttribute(ts, k + 1, a);
    if r.Fail? {
      us, a' := AttributeViable(ts, k, a);
      ActionKept(ts, us, i, k, a);
      JoinAction(us, i, k, |us|, a, a');
    } else {
      AttributeSound(ts, k, a);
      JoinAction(ts, i, k, r.next, a, r.val);
      us, a' := AttributesViable(ts, i, r.next, r.val);
    }
  }

  lemma {:induction false} ActionViable(ts: seq<Token>, i: nat) returns (us: seq<Token>, a: Action)
    requires i <= |ts| && ParseAction(ts, i).Fail?
    ensures Agree(ts, us, ParseAction(ts, i).at) && ActionClause(us, i, |us|, a)
  {
    if i < |ts| && VerdictOf(ts[i]).Some? {
      a := Action(VerdictOf(ts[i]).value, None, None);
      assert ActionClause(ts, i, i + 1, a);
      us, a := AttributesViable(ts, i, i + 1, a);
    } else {
      us, a := Completed(ts, i, [KwAllow]), Action(Allow, None, None);
    }
  }

  /** The shortest end of a policy after its guard. */
  const REST := [KwThen, KwAllow, RBrace]
  const PLAIN := Action(Allow, None, None)

  /** A guard with the shortest end after it. */
  lemma {:induction false} GuardFinished(ts: seq<Token>, i: nat, k: nat, guard: Expr) returns (us: seq<Token>)
    requires Disjunction(ts, i, k, guard)
    ensures Agree(ts, us, k) && PolicyBody(us, i, |us|, guard, PLAIN)
  {
    us := Completed(ts, k, REST);
    DisjunctionKept(ts, us, i, k, guard);
    assert ActionClause(us, k + 1, k + 2, PLAIN);
    JoinBody(us, i, k, |us|, guard, PLAIN);
  }

  lemma {:induction false} ThenViable(ts: seq<Token>, i: nat, k: nat, name: string, guard: Expr)
    returns (us: seq<Token>, action: Action)
    requires At(ts, k, KwThen) && Disjunction(ts, i, k, guard) && ThenTail(ts, k + 1, name, guard).Fail?
    ensures Agree(ts, us, ThenTail(ts, k + 1, name, guard).at) && PolicyBody(us, i, |us|, guard, action)
  {
    var a := ParseAction(ts, k + 1);
    if a.Fail? {
      var vs;
      vs, action := ActionViable(ts, k + 1);
      DisjunctionKept(ts, vs, i, k, guard);
      us := BodyFinished(vs, i, k, |vs|, guard, action);
    } else {
      ActionSound(ts, k + 1);
      action := a.val;
      us := BodyFinished(ts, i, k, a.next, guard, action);
    }
  }

  lemma {:induction false} BodyFinished(ts: seq<Token>, i: nat, k: nat, m: nat, guard: Expr, action: Action)
    returns (us: seq<Token>)
    requires i < k < m <= |ts| && ts[k] == KwThen && Disjunction(ts, i, k, guard) && ActionClause(ts, k + 1, m, action)
    ensures Agree(ts, us, m) && PolicyBody(us, i, |us|, guard, action)
  {
    us := Completed(ts, m, [RBrace]);
    ActionKept(ts, us, k + 1, m, action);
    DisjunctionKept(ts, us, i, k, guard);
    JoinBody(us, i, k, |us|, guard, action);
  }

  lemma {:induction false} BodyViable(ts: seq<Token>, i: nat, name: string)
    returns (us: seq<Token>, guard: Expr, action: Action)
    requires i <= |ts| && PolicyTail(ts, i, name).Fail?
    ensures Agree(ts, us, PolicyTail(ts, i, name).at) && PolicyBody(us, i, |us|, guard, action)
  {
    var d := ParseDisjunction(ts, i);
    if d.Fail? {
      var vs;
      vs, guard := DisjunctionViable(ts, i);
      us := GuardFinished(vs, i, |vs|, guard);
      action := PLAIN;
    } else {
      guard := d.val;
      DisjunctionSound(ts, i);
      us, action := GuardViable(ts, i, d.next, name, guard);
    }
  }

  lemma {:induction false} GuardViable(ts: seq<Token>, i: nat, k: nat, name: string, guard: Expr)
    returns (us: seq<Token>, action: Action)
    requires Disjunction(ts, i, k, guard) && GuardTail(ts, k, name, guard).Fail?
    ensures Agree(ts, us, GuardTail(ts, k, name, guard).at) && PolicyBody(us, i, |us|, guard, action)
  {
    if At(ts, k, KwThen) {
      us, action := ThenViable(ts, i, k, name, guard);
    } else {
      us := GuardFinished(ts, i, k, guard);
      action := PLAIN;
    }
  }

  /** The shortest policy. */
  const POLICY := [KwPolicy, TStr(""), LBrace, KwWhen, KwTrue] + REST

  /** The first n tokens of a policy header are there. */
  predicate HeaderUpTo(ts: seq<Token>, i: nat, n: nat) {
    && n < 4 && i + n <= |ts|
    && (n > 0 ==> ts[i] == KwPolicy) && (n > 1 ==> ts[i + 1].TStr?) && (n > 2 ==> ts[i + 2] == LBrace)
  }

  lemma {:induction false} HeaderStops(ts: seq<Token>, i: nat)
    requires i <= |ts| && !Header(ts, i)
    ensures ParsePolicy(ts, i).Fail? && i <= ParsePolicy(ts, i).at
    ensures HeaderUpTo(ts, i, ParsePolicy(ts, i).at - i)
  {
  }

  lemma {:induction false} ShortestDerives(us: seq<Token>, i: nat)
    requires |us| == i + 8 && us[i + 1].TStr?
    requires us[i] == KwPolicy && us[i + 2..] == POLICY[2..]
    ensures PolicyClause(us, i, |us|, Policy(us[i + 1].s, Literal(BoolLit(true)), PLAIN))
  {
    forall m: nat | 2 <= m < 8 ensures us[i + m] == POLICY[m] {
      assert us[i + 2..][m - 2] == POLICY[2..][m - 2];
    }
    TrueDerives(us, i + 4);
    assert ActionClause(us, i + 6, i + 7, PLAIN);
    JoinBody(us, i + 4, i + 5, |us|, Literal(BoolLit(true)), PLAIN);
  }

  lemma {:induction false} HeaderViable(ts: seq<Token>, i: nat, n: nat) returns (us: seq<Token>, p: Policy)
    requires HeaderUpTo(ts, i, n)
    ensures Agree(ts, us, i + n) && PolicyClause(us, i, |us|, p)
  {
    us := Completed(ts, i + n, POLICY[n..]);
    forall m: nat | n <= m < 8 ensures us[i + m] == POLICY[m] {
      assert us[i + m] == POLICY[n..][m - n];
    }
    if n == 3 {
      assert us[i + 2..] == POLICY[2..] by {
        assert us[i + 2] == LBrace;
      }
    }
    p := Policy(us[i + 1].s, Literal(BoolLit(true)), PLAIN);
    ShortestDerives(us, i);
  }

  lemma {:induction false} PolicyViable(ts: seq<Token>, i: nat) returns (us: seq<Token>, p: Policy)
    requires i <= |ts| && ParsePolicy(ts, i).Fail?
    ensures Agree(ts, us, ParsePolicy(ts, i).at) && PolicyClause(us, i, |us|, p)
  {
    if Header(ts, i) {
      HeaderRead(ts, i);
      var guard, action;
      us, guard, action := BodyViable(ts, i + 4, ts[i + 1].s);
      p := Policy(ts[i + 1].s, guard, action);
    } else {
      HeaderStops(ts, i);
      us, p := HeaderViable(ts, i, ParsePolicy(ts, i).at - i);
    }
  }

  lemma {:induction false} PoliciesViable(ts: seq<Token>, i: nat, acc: seq<Policy>)
    returns (us: seq<Token>, ps: seq<Policy>)
    requires i <= |ts| && ParsePolicies(ts, i, acc).Fail?
    ensures Agree(ts, us, ParsePolicies(ts, i, acc).at) && Policies(us, i, |us|, ps)
    decreases |ts| - i
  {
    var p := ParsePolicy(ts, i);
    if p.Fail? {
      var q;
      us, q := PolicyViable(ts, i);
      ps := [q];
      JoinPolicies(us, i, |us|, |us|, ps);
    } else {
      PolicySound(ts, i);
      var rest;
      us, rest := PoliciesViable(ts, p.next, acc + [p.val]);
      ps := [p.val] + rest;
      PolicyKept(ts, us, i, p.next, p.val);
      JoinPolicies(us, i, p.next, |us|, ps);
    }
  }

  // ---- the failure is at the first token that cannot be right ----

  /** Some program begins with these tokens. */
  ghost predicate Viable(prefix: seq<Token>) {
    exists us, prog :: prefix <= us && Derives(us, prog)
  }

  lemma {:induction false} BeforeIsViable(ts: seq<Token>)
    requires ParseProgram(ts).Fail?
    ensures Viable(ts[..ParseProgram(ts).at])
  {
    var b := ParseProgram(ts).at;
    var us, ps := PoliciesViable(ts, 0, []);
    assert us[..b] == ts[..b];
    assert ts[..b] <= us && Derives(us, Program(ps));
  }

  /** No continuation of the first n tokens is a program, unless it makes their last one a `not in`. */
  lemma {:induction false} AlikeFails(ts: seq<Token>, us: seq<Token>, n: nat, prog: Program)
    requires ParseProgram(ts).Fail? && ParseProgram(ts).at < n <= |ts| && ts[..n] <= us
    requires ts[n - 1] == KwNot && At(us, n, KwIn) ==> At(ts, n, KwIn)
    ensures !Derives(us, prog)
  {
    assert forall k :: 0 <= k < n ==> ts[k] == ts[..n][k] == us[k];
    PoliciesLocal(ts, us, 0, [], n);
    ParserExact(us, prog);
  }

  lemma {:induction false} ProgramsEndInBrace(ts: seq<Token>, i: nat, j: nat, ps: seq<Policy>)
    requires Policies(ts, i, j, ps) && i < j
    ensures j <= |ts| && ts[j - 1] == RBrace
    decreases |ps|
  {
    var k := SplitPolicies(ts, i, j, ps);
    if k < j {
      ProgramsEndInBrace(ts, k, j, ps[1..]);
    }
  }

  /** Whether the parser would read an `in` after the first n tokens: it then misses only what follows. */
  predicate ReadsIn(ts: seq<Token>, n: nat)
    requires n <= |ts|
  {
    ParseProgram(ts[..n] + [KwIn]) == Fail(n + 1)
  }

  lemma {:induction false} ReadsInViable(ts: seq<Token>, n: nat)
    requires n <= |ts| && ReadsIn(ts, n)
    ensures Viable(ts[..n])
  {
    var vs := ts[..n] + [KwIn];
    BeforeIsViable(vs);
    assert vs[..n + 1] == vs;
    var us, prog :| vs <= us && Derives(us, prog);
    assert ts[..n] <= us;
  }

  lemma {:induction false} ViableReadsIn(ts: seq<Token>, n: nat, us: seq<Token>, prog: Program)
    requires n <= |ts| && ts[..n] + [KwIn] <= us && Derives(us, prog)
    ensures ReadsIn(ts, n)
  {
    var vs := ts[..n] + [KwIn];
    var r := ParseProgram(vs);
    if r.Got? {
      PoliciesEnd(vs, 0, []);
      ParserExact(vs, r.val);
      ProgramsEndInBrace(vs, 0, |vs|, r.val.policies);
    } else if r.at < n + 1 {
      assert vs[..r.at + 1] <= us;
      AlikeFails(vs, us, r.at + 1, prog);
    }
  }

  lemma {:induction false} WithIn(ts: seq<Token>, n: nat, us: seq<Token>)
    requires n <= |ts| && ts[..n] <= us && At(us, n, KwIn)
    ensures ts[..n] + [KwIn] <= us
  {
    assert us[..n + 1] == us[..n] + [us[n]] == ts[..n] + [KwIn];
  }

  lemma {:induction false} ContinuedByIn(ts: seq<Token>, b: nat, us: seq<Token>, prog: Program)
    requires ParseProgram(ts) == Fail(b) && b < |ts| && ts[..b + 1] <= us && Derives(us, prog)
    ensures ts[b] == KwNot && ReadsIn(ts, b + 1)
  {
    if !(ts[b] == KwNot && At(us, b + 1, KwIn) && !At(ts, b + 1, KwIn)) {
      AlikeFails(ts, us, b + 1, prog);
    }
    WithIn(ts, b + 1, us);
    ViableReadsIn(ts, b + 1, us, prog);
  }

  lemma {:induction false} ReportedViableExactly(ts: seq<Token>, b: nat)
    requires ParseProgram(ts) == Fail(b) && b < |ts|
    ensures Viable(ts[..b + 1]) <==> ts[b] == KwNot && ReadsIn(ts, b + 1)
  {
    if ts[b] == KwNot && ReadsIn(ts, b + 1) {
      ReadsInViable(ts, b + 1);
    }
    forall us, prog | ts[..b + 1] <= us && Derives(us, prog) ensures ts[b] == KwNot && ReadsIn(ts, b + 1) {
      ContinuedByIn(ts, b, us, prog);
    }
  }

  lemma {:induction false} NextNotViable(ts: seq<Token>, b: nat, us: seq<Token>, prog: Program)
    requires ParseProgram(ts) == Fail(b) && b + 1 < |ts| && ts[..b + 2] <= us
    ensures !Derives(us, prog)
  {
    assert us[b + 1] == ts[..b + 2][b + 1];
    assert ts[..b + 1] == ts[..b + 2][..b + 1];
    AlikeFails(ts, us, b + 1, prog);
  }

  /**
   The tokens before the one reported begin some program. With that token they begin one exactly
   when it is a `not` after which the parser would have read an `in`; with the next they never do.
   */
  lemma {:induction false} FailureExactly(ts: seq<Token>, b: nat)
    requires ParseProgram(ts) == Fail(b)
    ensures Viable(ts[..b])
    ensures b < |ts| ==> (Viable(ts[..b + 1]) <==> ts[b] == KwNot && ReadsIn(ts, b + 1))
    ensures b + 1 < |ts| ==> !Viable(ts[..b + 2])
  {
    BeforeIsViable(ts);
    if b < |ts| {
      ReportedViableExactly(ts, b);
    }
    if b + 1 < |ts| {
      forall us, prog | ts[..b + 2] <= us ensures !Derives(us, prog) {
        NextNotViable(ts, b, us, prog);
      }
    }
  }
}
