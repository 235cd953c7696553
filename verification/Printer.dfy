/**
 A printer that parenthesizes a subexpression exactly when it binds looser than its
 position allows, and the round trip through the parser.
 */
module Printer {
  import opened Outcomes
  import opened Ast
  import opened Lexer
  import opened Grammar
  import opened Parsing
  import opened ParserTheorems

  // Precedence levels, tightest first.
  const PRIMARY: nat := 0
  const MEMBER: nat := 1
  const COMPARISON: nat := 2
  const NEGATION: nat := 3
  const CONJUNCTION: nat := 4
  const DISJUNCTION: nat := 5

  function Level(e: Expr): nat {
    match e
    case Literal(_) => PRIMARY
    case Path(_) => PRIMARY
    case Call(_, _) => PRIMARY
    case Membership(_, _, _) => MEMBER
    case Unary(_, _) => NEGATION
    case Binary(op, _, _) => if op == And then CONJUNCTION else if op == Or then DISJUNCTION else COMPARISON
  }

  // `and` and `or` associate to the left; comparisons do not chain.
  function LeftLevel(op: BinOp): nat {
    if op == And then CONJUNCTION else if op == Or then DISJUNCTION else MEMBER
  }

  function RightLevel(op: BinOp): nat {
    if op == And then NEGATION else if op == Or then CONJUNCTION else MEMBER
  }

  /** No path in the tree is empty; the parser never builds one that is. */
  predicate PathsNonEmpty(e: Expr) {
    match e
    case Literal(_) => true
    case Path(segs) => segs != []
    case Call(_, args) => forall a :: a in args ==> PathsNonEmpty(a)
    case Membership(_, n, h) => PathsNonEmpty(n) && PathsNonEmpty(h)
    case Unary(_, inner) => PathsNonEmpty(inner)
    case Binary(_, l, r) => PathsNonEmpty(l) && PathsNonEmpty(r)
  }

  function LiteralToken(lit: Lit): Token {
    match lit
    case StrLit(s) => TStr(s)
    case IntLit(n) => TInt(n)
    case BoolLit(b) => if b then KwTrue else KwFalse
  }

  function OperatorToken(op: BinOp): Token {
    match op
    case Eq => EqEq
    case Neq => NotEq
    case Lt => Less
    case Gt => Greater
    case Le => LtEq
    case Ge => GtEq
    case And => KwAnd
    case Or => KwOr
  }

  function PrintPath(segs: seq<string>): seq<Token>
    requires segs != []
  {
    seq(2 * |segs| - 1, m requires 0 <= m < 2 * |segs| - 1 => if m % 2 == 0 then TIdent(segs[m / 2]) else Dot)
  }

  /** The tokens of e at a position that admits the given level. */
  function Print(e: Expr, level: nat): seq<Token>
    requires PathsNonEmpty(e)
    decreases e, 1
  {
    if Level(e) <= level then Bare(e) else [LParen] + Bare(e) + [RParen]
  }

  function Bare(e: Expr): seq<Token>
    requires PathsNonEmpty(e)
    decreases e, 0
  {
    match e
    case Literal(lit) => [LiteralToken(lit)]
    case Path(segs) => PrintPath(segs)
    case Call(name, args) => [TIdent(name), LParen] + (PrintArguments(args) + [RParen])
    case Membership(negated, n, h) =>
      Print(n, PRIMARY) + ((if negated then [KwNot, KwIn] else [KwIn]) + Print(h, PRIMARY))
    case Unary(_, inner) => [KwNot] + Print(inner, NEGATION)
    case Binary(op, l, r) =>
      Print(l, LeftLevel(op)) + ([OperatorToken(op)] + Print(r, RightLevel(op)))
  }

  function PrintArguments(args: seq<Expr>): seq<Token>
    requires forall a :: a in args ==> PathsNonEmpty(a)
    decreases args, 0
  {
    if args == [] then []
    else if |args| == 1 then Print(args[0], DISJUNCTION)
    else Print(args[0], DISJUNCTION) + ([Comma] + PrintArguments(args[1..]))
  }

  function VerdictToken(v: Verdict): Token {
    match v
    case Allow => KwAllow
    case Review => KwReview
    case Block => KwBlock
  }

  predicate ActionPathsNonEmpty(a: Action) {
    a.evidence.Some? ==> PathsNonEmpty(a.evidence.value)
  }

  function PrintReason(reason: Option<string>): seq<Token> {
    if reason.Some? then [Comma, KwReason, Assign, TStr(reason.value)] else []
  }

  function PrintEvidence(evidence: Option<Expr>): seq<Token>
    requires evidence.Some? ==> PathsNonEmpty(evidence.value)
  {
    if evidence.Some? then [Comma, KwEvidence, Assign] + Print(evidence.value, DISJUNCTION) else []
  }

  function PrintAction(a: Action): seq<Token>
    requires ActionPathsNonEmpty(a)
  {
    [VerdictToken(a.verdict)] + (PrintReason(a.reason) + PrintEvidence(a.evidence))
  }

  predicate PolicyPathsNonEmpty(p: Policy) {
    PathsNonEmpty(p.guard) && ActionPathsNonEmpty(p.action)
  }

  function PrintPolicy(p: Policy): seq<Token>
    requires PolicyPathsNonEmpty(p)
  {
    [KwPolicy, TStr(p.name), LBrace, KwWhen]
    + (Print(p.guard, DISJUNCTION) + ([KwThen] + (PrintAction(p.action) + [RBrace])))
  }

  predicate Printable(ps: seq<Policy>) {
    forall k :: 0 <= k < |ps| ==> PolicyPathsNonEmpty(ps[k])
  }

  function PrintPolicies(ps: seq<Policy>): seq<Token>
    requires Printable(ps)
  {
    if ps == [] then [] else PrintPolicy(ps[0]) + PrintPolicies(ps[1..])
  }

  // ---- printed tokens inside a larger token list ----

  /** The tokens w stand at position i. */
  predicate Has(ts: seq<Token>, i: nat, w: seq<Token>)
    decreases |w|
  {
    if w == [] then i <= |ts| else At(ts, i, w[0]) && Has(ts, i + 1, w[1..])
  }

  lemma {:induction false} HasParts(ts: seq<Token>, i: nat, a: seq<Token>, b: seq<Token>)
    requires Has(ts, i, a + b)
    ensures Has(ts, i, a) && Has(ts, i + |a|, b)
    decreases |a|
  {
    if a == [] {
      assert a + b == b;
      HasRoom(ts, i, b);
    } else {
      assert (a + b)[1..] == a[1..] + b;
      HasParts(ts, i + 1, a[1..], b);
    }
  }

  lemma {:induction false} HasRoom(ts: seq<Token>, i: nat, w: seq<Token>)
    requires Has(ts, i, w)
    ensures i + |w| <= |ts|
    decreases |w|
  {
    if w != [] {
      HasRoom(ts, i + 1, w[1..]);
    }
  }

  lemma {:induction false} HasAt(ts: seq<Token>, i: nat, w: seq<Token>, k: nat)
    requires Has(ts, i, w) && k < |w|
    ensures At(ts, i + k, w[k])
    decreases k
  {
    if k > 0 {
      HasAt(ts, i + 1, w[1..], k - 1);
    }
  }

  lemma {:induction false} HasAll(ts: seq<Token>, i: nat)
    requires i <= |ts|
    ensures Has(ts, i, ts[i..])
    decreases |ts| - i
  {
    if i < |ts| {
      HasAll(ts, i + 1);
    }
  }

  ghost predicate Phrase(level: nat, ts: seq<Token>, i: nat, j: nat, e: Expr) {
    if level == PRIMARY then Primary(ts, i, j, e)
    else if level == MEMBER then Member(ts, i, j, e)
    else if level == COMPARISON then Comparison(ts, i, j, e)
    else if level == NEGATION then Negation(ts, i, j, e)
    else if level == CONJUNCTION then Conjunction(ts, i, j, e)
    else Disjunction(ts, i, j, e)
  }

  /** A phrase of a tight level is a phrase of every looser one. */
  lemma {:induction false} Loosen(tight: nat, loose: nat, ts: seq<Token>, i: nat, j: nat, e: Expr)
    requires tight <= loose <= DISJUNCTION && Phrase(tight, ts, i, j, e)
    ensures Phrase(loose, ts, i, j, e)
    decreases loose - tight
  {
    if tight < loose {
      Loosen(tight + 1, loose, ts, i, j, e);
    }
  }

  lemma {:induction false} PrintDerives(ts: seq<Token>, i: nat, e: Expr, level: nat)
    requires PathsNonEmpty(e) && level <= DISJUNCTION && Has(ts, i, Print(e, level))
    ensures Phrase(level, ts, i, i + |Print(e, level)|, e)
    decreases e, 4
  {
    var w := Bare(e);
    if Level(e) <= level {
      BareDerives(ts, i, e);
      Loosen(Level(e), level, ts, i, i + |w|, e);
    } else {
      ParenDerives(ts, i, e);
      Loosen(PRIMARY, level, ts, i, i + |w| + 2, e);
    }
  }

  lemma {:induction false} ParenDerives(ts: seq<Token>, i: nat, e: Expr)
    requires PathsNonEmpty(e) && Has(ts, i, [LParen] + Bare(e) + [RParen])
    ensures Primary(ts, i, i + |Bare(e)| + 2, e)
    decreases e, 2
  {
    var w := Bare(e);
    HasParts(ts, i, [LParen] + w, [RParen]);
    HasParts(ts, i, [LParen], w);
    HasAt(ts, i, [LParen], 0);
    HasAt(ts, i + 1 + |w|, [RParen], 0);
    BareDerives(ts, i + 1, e);
    Loosen(Level(e), DISJUNCTION, ts, i + 1, i + 1 + |w|, e);
    ParenPrimary(ts, i, i + 2 + |w|, e);
  }

  lemma {:induction false} ParenPrimary(ts: seq<Token>, i: nat, j: nat, e: Expr)
    requires i + 1 < j - 1 < |ts| && ts[i] == LParen && ts[j - 1] == RParen && Disjunction(ts, i + 1, j - 1, e)
    ensures Primary(ts, i, j, e)
  {
  }

  lemma {:induction false} BareDerives(ts: seq<Token>, i: nat, e: Expr)
    requires PathsNonEmpty(e) && Has(ts, i, Bare(e))
    ensures Phrase(Level(e), ts, i, i + |Bare(e)|, e)
    decreases e, 1
  {
    match e
    case Literal(lit) => HasAt(ts, i, Bare(e), 0);
    case Path(segs) => PathDerives(ts, i, segs);
    case Call(name, args) => CallDerives(ts, i, e);
    case Membership(negated, n, h) => MembershipDerives(ts, i, e);
    case Unary(_, inner) =>
      HasParts(ts, i, [KwNot], Print(inner, NEGATION));
      HasAt(ts, i, [KwNot], 0);
      PrintDerives(ts, i + 1, inner, NEGATION);
    case Binary(op, l, r) => BinaryDerives(ts, i, e);
  }

  lemma {:induction false} PathDerives(ts: seq<Token>, i: nat, segs: seq<string>)
    requires segs != [] && Has(ts, i, PrintPath(segs))
    ensures Primary(ts, i, i + |PrintPath(segs)|, Path(segs))
  {
    var w := PrintPath(segs);
    HasRoom(ts, i, w);
    forall m | 0 <= m < |segs|
      ensures ts[i + 2 * m] == TIdent(segs[m]) && (m > 0 ==> ts[i + 2 * m - 1] == Dot)
    {
      HasAt(ts, i, w, 2 * m);
      if m > 0 {
        HasAt(ts, i, w, 2 * m - 1);
      }
    }
    assert DottedPath(ts, i, i + |w|, segs);
  }

  lemma {:induction false} CallDerives(ts: seq<Token>, i: nat, e: Expr)
    requires e.Call? && PathsNonEmpty(e) && Has(ts, i, Bare(e))
    ensures Primary(ts, i, i + |Bare(e)|, e)
    decreases e, 0
  {
    var w := PrintArguments(e.args);
    HasParts(ts, i, [TIdent(e.name), LParen], w + [RParen]);
    HasParts(ts, i + 2, w, [RParen]);
    HasAt(ts, i, [TIdent(e.name), LParen], 0);
    HasAt(ts, i, [TIdent(e.name), LParen], 1);
    HasAt(ts, i + 2 + |w|, [RParen], 0);
    if e.args != [] {
      ArgumentsDerive(ts, i + 2, e.args);
    }
  }

  lemma {:induction false} ArgumentsDerive(ts: seq<Token>, i: nat, args: seq<Expr>)
    requires args != [] && (forall a :: a in args ==> PathsNonEmpty(a)) && Has(ts, i, PrintArguments(args))
    ensures Arguments(ts, i, i + |PrintArguments(args)|, args)
    decreases args
  {
    var w := Print(args[0], DISJUNCTION);
    if |args| == 1 {
      PrintDerives(ts, i, args[0], DISJUNCTION);
    } else {
      var rest := PrintArguments(args[1..]);
      HasParts(ts, i, w, [Comma] + rest);
      HasParts(ts, i + |w|, [Comma], rest);
      HasAt(ts, i + |w|, [Comma], 0);
      PrintDerives(ts, i, args[0], DISJUNCTION);
      ArgumentsDerive(ts, i + |w| + 1, args[1..]);
      JoinArguments(ts, i, i + |w|, i + |PrintArguments(args)|, args);
    }
  }

  lemma {:induction false} MembershipDerives(ts: seq<Token>, i: nat, e: Expr)
    requires e.Membership? && PathsNonEmpty(e) && Has(ts, i, Bare(e))
    ensures Member(ts, i, i + |Bare(e)|, e)
    decreases e, 0
  {
    var n, h := Print(e.needle, PRIMARY), Print(e.haystack, PRIMARY);
    var op := if e.negated then [KwNot, KwIn] else [KwIn];
    assert Bare(e) == n + (op + h);
    PrintDerives(ts, i, e.needle, PRIMARY) by { HasParts(ts, i, n, op + h); }
    OperandsDerive(ts, i + |n|, op, e.haystack) by { HasParts(ts, i, n, op + h); }
    JoinMember(ts, i, i + |n|, i + |n| + |op|, i + |Bare(e)|, e);
  }

  /** The operator tokens op, then the printed operand e. */
  lemma {:induction false} OperandsDerive(ts: seq<Token>, k: nat, op: seq<Token>, e: Expr)
    requires op != [] && PathsNonEmpty(e) && Has(ts, k, op + Print(e, PRIMARY))
    ensures At(ts, k, op[0]) && At(ts, k + |op| - 1, op[|op| - 1])
    ensures Primary(ts, k + |op|, k + |op| + |Print(e, PRIMARY)|, e)
    decreases e, 5
  {
    HasParts(ts, k, op, Print(e, PRIMARY));
    HasAt(ts, k, op, 0);
    HasAt(ts, k, op, |op| - 1);
    PrintDerives(ts, k + |op|, e, PRIMARY);
  }

  lemma {:induction false} BinaryDerives(ts: seq<Token>, i: nat, e: Expr)
    requires e.Binary? && PathsNonEmpty(e) && Has(ts, i, Bare(e))
    ensures Phrase(Level(e), ts, i, i + |Bare(e)|, e)
    decreases e, 0
  {
    var op, l, r := [OperatorToken(e.op)], Print(e.left, LeftLevel(e.op)), Print(e.right, RightLevel(e.op));
    var k := i + |l|;
    HasParts(ts, i, l, op + r);
    HasParts(ts, k, op, r);
    assert At(ts, k, OperatorToken(e.op)) by { HasAt(ts, k, op, 0); }
    PrintDerives(ts, i, e.left, LeftLevel(e.op));
    PrintDerives(ts, k + 1, e.right, RightLevel(e.op));
    JoinBinary(ts, i, k, k + 1 + |r|, e);
  }

  lemma {:induction false} JoinBinary(ts: seq<Token>, i: nat, k: nat, j: nat, e: Expr)
    requires e.Binary? && At(ts, k, OperatorToken(e.op))
    requires Phrase(LeftLevel(e.op), ts, i, k, e.left) && Phrase(RightLevel(e.op), ts, k + 1, j, e.right)
    ensures Phrase(Level(e), ts, i, j, e)
  {
    if IsComparison(e.op) {
      JoinComparison(ts, i, k, j, e);
    }
  }

  lemma {:induction false} ActionDerives(ts: seq<Token>, i: nat, a: Action)
    requires ActionPathsNonEmpty(a) && Has(ts, i, PrintAction(a))
    ensures ActionClause(ts, i, i + |PrintAction(a)|, a)
  {
    var v, reason, evidence := [VerdictToken(a.verdict)], PrintReason(a.reason), PrintEvidence(a.evidence);
    HasParts(ts, i, v, reason + evidence);
    HasParts(ts, i + 1, reason, evidence);
    VerdictReasonDerives(ts, i, a.verdict, a.reason);
    EvidenceDerives(ts, i, i + 1 + |reason|, Action(a.verdict, a.reason, None), a.evidence);
    assert a == Action(a.verdict, a.reason, a.evidence);
  }

  lemma {:induction false} VerdictReasonDerives(ts: seq<Token>, i: nat, v: Verdict, reason: Option<string>)
    requires Has(ts, i, [VerdictToken(v)]) && Has(ts, i + 1, PrintReason(reason))
    ensures ActionClause(ts, i, i + 1 + |PrintReason(reason)|, Action(v, reason, None))
  {
    VerdictDerives(ts, i, v);
    ReasonDerives(ts, i, i + 1, Action(v, None, None), reason);
  }

  lemma {:induction false} VerdictDerives(ts: seq<Token>, i: nat, v: Verdict)
    requires Has(ts, i, [VerdictToken(v)])
    ensures ActionClause(ts, i, i + 1, Action(v, None, None))
  {
    HasAt(ts, i, [VerdictToken(v)], 0);
  }

  lemma {:induction false} ReasonDerives(ts: seq<Token>, i: nat, k: nat, a0: Action, reason: Option<string>)
    requires ActionClause(ts, i, k, a0) && a0.reason.None? && Has(ts, k, PrintReason(reason))
    ensures ActionClause(ts, i, k + |PrintReason(reason)|, a0.(reason := reason))
  {
    if reason.Some? {
      var w := PrintReason(reason);
      HasAt(ts, k, w, 0);
      HasAt(ts, k, w, 1);
      HasAt(ts, k, w, 2);
      HasAt(ts, k, w, 3);
      JoinAction(ts, i, k, k + 4, a0, a0.(reason := reason));
    } else {
      assert a0 == a0.(reason := None);
    }
  }

  lemma {:induction false} EvidenceDerives(ts: seq<Token>, i: nat, k: nat, a0: Action, evidence: Option<Expr>)
    requires evidence.Some? ==> PathsNonEmpty(evidence.value)
    requires ActionClause(ts, i, k, a0) && a0.evidence.None? && Has(ts, k, PrintEvidence(evidence))
    ensures ActionClause(ts, i, k + |PrintEvidence(evidence)|, a0.(evidence := evidence))
  {
    if evidence.Some? {
      var head, w := [Comma, KwEvidence, Assign], Print(evidence.value, DISJUNCTION);
      HasParts(ts, k, head, w);
      HasAt(ts, k, head, 0);
      HasAt(ts, k, head, 1);
      HasAt(ts, k, head, 2);
      PrintDerives(ts, k + 3, evidence.value, DISJUNCTION);
      JoinAction(ts, i, k, k + 3 + |w|, a0, a0.(evidence := evidence));
    } else {
      assert a0 == a0.(evidence := None);
    }
  }

  lemma {:induction false} PolicyDerives(ts: seq<Token>, i: nat, k: nat, p: Policy)
    requires PolicyPathsNonEmpty(p) && Has(ts, i, PrintPolicy(p)) && k == i + |PrintPolicy(p)|
    ensures i < k && PolicyClause(ts, i, k, p)
  {
    var header := [KwPolicy, TStr(p.name), LBrace, KwWhen];
    var body := Print(p.guard, DISJUNCTION) + ([KwThen] + (PrintAction(p.action) + [RBrace]));
    HasParts(ts, i, header, body);
    HasAt(ts, i, header, 0);
    HasAt(ts, i, header, 1);
    HasAt(ts, i, header, 2);
    HasAt(ts, i, header, 3);
    BodyDerives(ts, i + 4, p.guard, p.action);
  }

  lemma {:induction false} BodyDerives(ts: seq<Token>, i: nat, guard: Expr, action: Action)
    requires PathsNonEmpty(guard) && ActionPathsNonEmpty(action)
    requires Has(ts, i, Print(guard, DISJUNCTION) + ([KwThen] + (PrintAction(action) + [RBrace])))
    ensures PolicyBody(ts, i, i + |Print(guard, DISJUNCTION)| + |PrintAction(action)| + 2, guard, action)
  {
    var k, end := BodyPositions(ts, i, Print(guard, DISJUNCTION), PrintAction(action));
    GuardDerives(ts, i, k, guard);
    ThenDerives(ts, k + 1, end, action);
    JoinBody(ts, i, k, end + 1, guard, action);
  }

  lemma {:induction false} GuardDerives(ts: seq<Token>, i: nat, k: nat, guard: Expr)
    requires PathsNonEmpty(guard) && Has(ts, i, Print(guard, DISJUNCTION)) && k == i + |Print(guard, DISJUNCTION)|
    ensures i < k && Disjunction(ts, i, k, guard)
  {
    PrintDerives(ts, i, guard, DISJUNCTION);
  }

  lemma {:induction false} ThenDerives(ts: seq<Token>, i: nat, k: nat, action: Action)
    requires ActionPathsNonEmpty(action) && Has(ts, i, PrintAction(action)) && k == i + |PrintAction(action)|
    ensures ActionClause(ts, i, k, action)
  {
    ActionDerives(ts, i, action);
  }

  /** Where the parts of a policy body stand. */
  lemma {:induction false} BodyPositions(ts: seq<Token>, i: nat, g: seq<Token>, a: seq<Token>)
    returns (k: nat, end: nat)
    requires Has(ts, i, g + ([KwThen] + (a + [RBrace])))
    ensures k == i + |g| && end == k + 1 + |a|
    ensures Has(ts, i, g) && At(ts, k, KwThen) && Has(ts, k + 1, a) && At(ts, end, RBrace)
  {
    k, end := i + |g|, i + |g| + 1 + |a|;
    HasParts(ts, i, g, [KwThen] + (a + [RBrace]));
    HasParts(ts, k, [KwThen], a + [RBrace]);
    HasParts(ts, k + 1, a, [RBrace]);
    HasAt(ts, k, [KwThen], 0);
    HasAt(ts, k + 1 + |a|, [RBrace], 0);
  }

  lemma {:induction false} PoliciesDerive(ts: seq<Token>, i: nat, ps: seq<Policy>)
    requires Printable(ps) && Has(ts, i, PrintPolicies(ps)) && i + |PrintPolicies(ps)| == |ts|
    ensures Policies(ts, i, |ts|, ps)
    decreases |ps|
  {
    if ps != [] {
      var k := PolicyPositions(ts, i, ps);
      HasRoom(ts, k, PrintPolicies(ps[1..]));
      PoliciesDerive(ts, k, ps[1..]);
      PrependDerived(ts, i, k, ps);
    }
  }

  /** Where the first policy ends and the others begin. */
  lemma {:induction false} PolicyPositions(ts: seq<Token>, i: nat, ps: seq<Policy>) returns (k: nat)
    requires Printable(ps) && ps != [] && Has(ts, i, PrintPolicies(ps))
    ensures k == i + |PrintPolicy(ps[0])| && Has(ts, i, PrintPolicy(ps[0])) && Has(ts, k, PrintPolicies(ps[1..]))
    ensures i + |PrintPolicies(ps)| == k + |PrintPolicies(ps[1..])|
  {
    k := TwoParts(ts, i, PrintPolicies(ps), PrintPolicy(ps[0]), PrintPolicies(ps[1..]));
  }

  lemma {:induction false} TwoParts(ts: seq<Token>, i: nat, w: seq<Token>, a: seq<Token>, b: seq<Token>) returns (k: nat)
    requires Has(ts, i, w) && w == a + b
    ensures k == i + |a| && Has(ts, i, a) && Has(ts, k, b) && i + |w| == k + |b|
  {
    HasParts(ts, i, a, b);
    k := i + |a|;
  }

  lemma {:induction false} PrependDerived(ts: seq<Token>, i: nat, k: nat, ps: seq<Policy>)
    requires Printable(ps) && ps != [] && Has(ts, i, PrintPolicy(ps[0])) && k == i + |PrintPolicy(ps[0])| <= |ts|
    requires Policies(ts, k, |ts|, ps[1..])
    ensures Policies(ts, i, |ts|, ps)
  {
    PolicyDerives(ts, i, k, ps[0]);
    JoinPolicies(ts, i, k, |ts|, ps);
  }

  /** Parsing the minimally parenthesized print of a program gives the program back. */
  lemma RoundTrip(prog: Program)
    requires Printable(prog.policies)
    ensures var ts := PrintPolicies(prog.policies); ParseProgram(ts) == Got(prog, |ts|)
  {
    var ts := PrintPolicies(prog.policies);
    HasAll(ts, 0);
    assert ts[0..] == ts;
    PoliciesDerive(ts, 0, prog.policies);
    ParserExact(ts, prog);
  }

  // ---- every tree the grammar derives can be printed ----

  lemma {:induction false} PhrasePrintable(level: nat, ts: seq<Token>, i: nat, j: nat, e: Expr)
    requires level <= DISJUNCTION && Phrase(level, ts, i, j, e)
    ensures PathsNonEmpty(e)
    decreases j - i, level + 1
  {
    if level > PRIMARY && Phrase(level - 1, ts, i, j, e) {
      PhrasePrintable(level - 1, ts, i, j, e);
    } else if level == PRIMARY {
      PrimaryPrintable(ts, i, j, e);
    } else if level == NEGATION {
      PhrasePrintable(NEGATION, ts, i + 1, j, e.inner);
    } else if level == MEMBER {
      var k, h := SplitMember(ts, i, j, e);
      PhrasePrintable(PRIMARY, ts, i, k, e.needle);
      PhrasePrintable(PRIMARY, ts, h, j, e.haystack);
    } else {
      BinaryPrintable(level, ts, i, j, e);
    }
  }

  lemma {:induction false} BinaryPrintable(level: nat, ts: seq<Token>, i: nat, j: nat, e: Expr)
    requires level == COMPARISON || level == CONJUNCTION || level == DISJUNCTION
    requires Phrase(level, ts, i, j, e) && !Phrase(level - 1, ts, i, j, e)
    ensures PathsNonEmpty(e)
    decreases j - i, level
  {
    if level == COMPARISON {
      var k := SplitComparison(ts, i, j, e);
      PhrasePrintable(MEMBER, ts, i, k, e.left);
      PhrasePrintable(MEMBER, ts, k + 1, j, e.right);
    } else if level == CONJUNCTION {
      var k := SplitConjunction(ts, i, j, e);
      PhrasePrintable(CONJUNCTION, ts, i, k, e.left);
      PhrasePrintable(NEGATION, ts, k + 1, j, e.right);
    } else {
      var k := SplitDisjunction(ts, i, j, e);
      PhrasePrintable(DISJUNCTION, ts, i, k, e.left);
      PhrasePrintable(CONJUNCTION, ts, k + 1, j, e.right);
    }
  }

  lemma {:induction false} PrimaryPrintable(ts: seq<Token>, i: nat, j: nat, e: Expr)
    requires Primary(ts, i, j, e)
    ensures PathsNonEmpty(e)
    decreases j - i, 0
  {
    if e.Path? && DottedPath(ts, i, j, e.segs) {
    } else if i + 1 < j - 1 && ts[i] == LParen && ts[j - 1] == RParen && Disjunction(ts, i + 1, j - 1, e) {
      PhrasePrintable(DISJUNCTION, ts, i + 1, j - 1, e);
    } else if e.Call? && e.args != [] {
      ArgumentsPrintable(ts, i + 2, j - 1, e.args);
    }
  }

  lemma {:induction false} ArgumentsPrintable(ts: seq<Token>, i: nat, j: nat, args: seq<Expr>)
    requires Arguments(ts, i, j, args)
    ensures forall a :: a in args ==> PathsNonEmpty(a)
    decreases j - i, DISJUNCTION + 2
  {
    if |args| == 1 && Disjunction(ts, i, j, args[0]) {
      PhrasePrintable(DISJUNCTION, ts, i, j, args[0]);
    } else {
      var k := SplitArguments(ts, i, j, args);
      PhrasePrintable(DISJUNCTION, ts, i, k, args[0]);
      ArgumentsPrintable(ts, k + 1, j, args[1..]);
      assert args == [args[0]] + args[1..];
    }
  }

  lemma {:induction false} ActionPrintable(ts: seq<Token>, i: nat, j: nat, a: Action)
    requires ActionClause(ts, i, j, a)
    ensures ActionPathsNonEmpty(a)
    decreases j - i
  {
    if a.evidence.Some? {
      var k, a0 := SplitAction(ts, i, j, a);
      if ts[k + 1] == KwEvidence {
        PhrasePrintable(DISJUNCTION, ts, k + 3, j, a.evidence.value);
      } else {
        ActionPrintable(ts, i, k, a0);
      }
    }
  }

  lemma {:induction false} PolicyPrintable(ts: seq<Token>, i: nat, j: nat, p: Policy)
    requires PolicyClause(ts, i, j, p)
    ensures PolicyPathsNonEmpty(p)
  {
    var k := SplitBody(ts, i + 4, j, p.guard, p.action);
    PhrasePrintable(DISJUNCTION, ts, i + 4, k, p.guard);
    ActionPrintable(ts, k + 1, j - 1, p.action);
  }

  lemma {:induction false} PoliciesPrintable(ts: seq<Token>, i: nat, ps: seq<Policy>)
    requires Policies(ts, i, |ts|, ps)
    ensures Printable(ps)
    decreases |ps|
  {
    if ps != [] {
      var k := SplitPolicies(ts, i, |ts|, ps);
      PolicyPrintable(ts, i, k, ps[0]);
      PoliciesPrintable(ts, k, ps[1..]);
      PrintableCons(ps);
    }
  }

  lemma {:induction false} PrintableCons(ps: seq<Policy>)
    requires ps != [] && PolicyPathsNonEmpty(ps[0]) && Printable(ps[1..])
    ensures Printable(ps)
  {
    forall m | 0 <= m < |ps| ensures PolicyPathsNonEmpty(ps[m]) {
      assert m > 0 ==> ps[m] == ps[1..][m - 1];
    }
  }

  /** The programs the parser can produce are exactly the ones without empty paths. */
  lemma ParserRange(prog: Program)
    ensures Printable(prog.policies) <==> exists ts :: ParseProgram(ts) == Got(prog, |ts|)
  {
    if Printable(prog.policies) {
      RoundTrip(prog);
      assert ParseProgram(PrintPolicies(prog.policies)).Got?;
    }
    forall ts | ParseProgram(ts) == Got(prog, |ts|)
      ensures Printable(prog.policies)
    {
      ParserExact(ts, prog);
      PoliciesPrintable(ts, 0, prog.policies);
    }
  }
}
