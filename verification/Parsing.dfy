/**
 What recursive descent computes on a token list, as functions of the list and a start
 position. The imperative parser is proved equal to these functions; ParserSoundness
 and ParserCompleteness relate them to the grammar.
 A failure records the position of the token that does not fit, or of the end of the list.
 */
module Parsing {
  import opened Outcomes
  import opened Ast
  import opened Lexer
  import opened Grammar

  datatype Parsed<+T> = Got(val: T, next: nat) | Fail(at: nat)

  /** The cursor after consuming the token at i: errors take their line and column from there. */
  function Past(ts: seq<Token>, i: nat): nat {
    if i < |ts| then i + 1 else i
  }

  function ParsePrimary(ts: seq<Token>, i: nat): (r: Parsed<Expr>)
    requires i <= |ts|
    ensures r.Got? ==> i < r.next <= |ts|
    ensures r.Fail? ==> i <= r.at <= |ts|
    decreases |ts| - i, 0
  {
    if i == |ts| then Fail(i)
    else if LiteralOf(ts[i]).Some? then Got(Literal(LiteralOf(ts[i]).value), i + 1)
    else if ts[i] == LParen then ParenTail(ts, i + 1)
    else if ts[i].TIdent? then
      if At(ts, i + 1, LParen) then CallTail(ts, i + 2, ts[i].id) else ParseSegments(ts, i + 1, [ts[i].id])
    else Fail(i)
  }

  function ParenTail(ts: seq<Token>, i: nat): (r: Parsed<Expr>)
    requires i <= |ts|
    ensures r.Got? ==> i < r.next <= |ts|
    ensures r.Fail? ==> i <= r.at <= |ts|
    decreases |ts| - i, 6
  {
    match ParseDisjunction(ts, i)
    case Fail(at) => Fail(at)
    case Got(e, k) => if At(ts, k, RParen) then Got(e, k + 1) else Fail(k)
  }

  function CallTail(ts: seq<Token>, i: nat, name: string): (r: Parsed<Expr>)
    requires i <= |ts|
    ensures r.Got? ==> i < r.next <= |ts|
    ensures r.Fail? ==> i <= r.at <= |ts|
    decreases |ts| - i, 11
  {
    if At(ts, i, RParen) then
      Got(Call(name, []), i + 1)
    else
      match ParseArguments(ts, i, [])
      case Fail(at) => Fail(at)
      case Got(args, k) => if At(ts, k, RParen) then Got(Call(name, args), k + 1) else Fail(k)
  }

  function ParseSegments(ts: seq<Token>, k: nat, segs: seq<string>): (r: Parsed<Expr>)
    requires k <= |ts|
    ensures r.Got? ==> k <= r.next <= |ts|
    ensures r.Fail? ==> k <= r.at <= |ts|
    decreases |ts| - k
  {
    if !At(ts, k, Dot) then
      Got(Path(segs), k)
    else if k + 1 < |ts| && ts[k + 1].TIdent? then
      ParseSegments(ts, k + 2, segs + [ts[k + 1].id])
    else
      Fail(k + 1)
  }

  function ParseArguments(ts: seq<Token>, i: nat, acc: seq<Expr>): (r: Parsed<seq<Expr>>)
    requires i <= |ts|
    ensures r.Got? ==> i < r.next <= |ts|
    ensures r.Fail? ==> i <= r.at <= |ts|
    decreases |ts| - i, 10
  {
    match ParseDisjunction(ts, i)
    case Fail(at) => Fail(at)
    case Got(e, k) =>
      if At(ts, k, Comma) then ParseArguments(ts, k + 1, acc + [e]) else Got(acc + [e], k)
  }

  function ParseMember(ts: seq<Token>, i: nat): (r: Parsed<Expr>)
    requires i <= |ts|
    ensures r.Got? ==> i < r.next <= |ts|
    ensures r.Fail? ==> i <= r.at <= |ts|
    decreases |ts| - i, 1
  {
    match ParsePrimary(ts, i)
    case Fail(at) => Fail(at)
    case Got(needle, k) => MemberTail(ts, k, needle)
  }

  function MemberTail(ts: seq<Token>, k: nat, needle: Expr): (r: Parsed<Expr>)
    requires k <= |ts|
    ensures r.Got? ==> k <= r.next <= |ts|
    ensures r.Fail? ==> k <= r.at <= |ts|
    decreases |ts| - k, 1
  {
    var negated := At(ts, k, KwNot) && At(ts, k + 1, KwIn);
    if !negated && !At(ts, k, KwIn) then
      Got(needle, k)
    else
      match ParsePrimary(ts, if negated then k + 2 else k + 1)
      case Fail(at) => Fail(at)
      case Got(haystack, next) => Got(Membership(negated, needle, haystack), next)
  }

  function ParseComparison(ts: seq<Token>, i: nat): (r: Parsed<Expr>)
    requires i <= |ts|
    ensures r.Got? ==> i < r.next <= |ts|
    ensures r.Fail? ==> i <= r.at <= |ts|
    decreases |ts| - i, 2
  {
    match ParseMember(ts, i)
    case Fail(at) => Fail(at)
    case Got(left, k) => ComparisonTail(ts, k, left)
  }

  function ComparisonTail(ts: seq<Token>, k: nat, left: Expr): (r: Parsed<Expr>)
    requires k <= |ts|
    ensures r.Got? ==> k <= r.next <= |ts|
    ensures r.Fail? ==> k <= r.at <= |ts|
    decreases |ts| - k, 2
  {
    if k == |ts| || ComparisonOf(ts[k]).None? then
      Got(left, k)
    else
      match ParseMember(ts, k + 1)
      case Fail(at) => Fail(at)
      case Got(right, next) => Got(Binary(ComparisonOf(ts[k]).value, left, right), next)
  }

  function ParseNegation(ts: seq<Token>, i: nat): (r: Parsed<Expr>)
    requires i <= |ts|
    ensures r.Got? ==> i < r.next <= |ts|
    ensures r.Fail? ==> i <= r.at <= |ts|
    decreases |ts| - i, 3
  {
    if At(ts, i, KwNot) then
      match ParseNegation(ts, i + 1)
      case Fail(at) => Fail(at)
      case Got(e, k) => Got(Unary(Not, e), k)
    else
      ParseComparison(ts, i)
  }

  function ParseConjunction(ts: seq<Token>, i: nat): (r: Parsed<Expr>)
    requires i <= |ts|
    ensures r.Got? ==> i < r.next <= |ts|
    ensures r.Fail? ==> i <= r.at <= |ts|
    decreases |ts| - i, 4
  {
    match ParseNegation(ts, i)
    case Fail(at) => Fail(at)
    case Got(left, k) => AndTail(ts, k, left)
  }

  function AndTail(ts: seq<Token>, k: nat, left: Expr): (r: Parsed<Expr>)
    requires k <= |ts|
    ensures r.Got? ==> k <= r.next <= |ts|
    ensures r.Fail? ==> k <= r.at <= |ts|
    decreases |ts| - k, 4
  {
    if !At(ts, k, KwAnd) then
      Got(left, k)
    else
      match ParseNegation(ts, k + 1)
      case Fail(at) => Fail(at)
      case Got(right, next) => AndTail(ts, next, Binary(And, left, right))
  }

  function ParseDisjunction(ts: seq<Token>, i: nat): (r: Parsed<Expr>)
    requires i <= |ts|
    ensures r.Got? ==> i < r.next <= |ts|
    ensures r.Fail? ==> i <= r.at <= |ts|
    decreases |ts| - i, 5
  {
    match ParseConjunction(ts, i)
    case Fail(at) => Fail(at)
    case Got(left, k) => OrTail(ts, k, left)
  }

  function OrTail(ts: seq<Token>, k: nat, left: Expr): (r: Parsed<Expr>)
    requires k <= |ts|
    ensures r.Got? ==> k <= r.next <= |ts|
    ensures r.Fail? ==> k <= r.at <= |ts|
    decreases |ts| - k, 5
  {
    if !At(ts, k, KwOr) then
      Got(left, k)
    else
      match ParseConjunction(ts, k + 1)
      case Fail(at) => Fail(at)
      case Got(right, next) => OrTail(ts, next, Binary(Or, left, right))
  }

  function ParseAction(ts: seq<Token>, i: nat): (r: Parsed<Action>)
    requires i <= |ts|
    ensures r.Got? ==> i < r.next <= |ts|
    ensures r.Fail? ==> i <= r.at <= |ts|
  {
    if i == |ts| then Fail(i)
    else if VerdictOf(ts[i]).None? then Fail(i)
    else AttributeTail(ts, i + 1, Action(VerdictOf(ts[i]).value, None, None))
  }

  function AttributeTail(ts: seq<Token>, k: nat, a: Action): (r: Parsed<Action>)
    requires k <= |ts|
    ensures r.Got? ==> k <= r.next <= |ts|
    ensures r.Fail? ==> k <= r.at <= |ts|
    decreases |ts| - k
  {
    if !At(ts, k, Comma) then
      Got(a, k)
    else
      match ParseAttribute(ts, k + 1, a)
      case Fail(at) => Fail(at)
      case Got(a', next) => AttributeTail(ts, next, a')
  }

  function ParseAttribute(ts: seq<Token>, k: nat, a: Action): (r: Parsed<Action>)
    requires k <= |ts|
    ensures r.Got? ==> k <= r.next <= |ts|
    ensures r.Fail? ==> k <= r.at <= |ts|
  {
    if At(ts, k, KwReason) then
      if !At(ts, k + 1, Assign) then Fail(k + 1)
      else if k + 2 < |ts| && ts[k + 2].TStr? then Got(a.(reason := Some(ts[k + 2].s)), k + 3)
      else Fail(k + 2)
    else if At(ts, k, KwEvidence) then
      if !At(ts, k + 1, Assign) then Fail(k + 1)
      else
        match ParseDisjunction(ts, k + 2)
        case Fail(at) => Fail(at)
        case Got(e, next) => Got(a.(evidence := Some(e)), next)
    else
      Fail(k)
  }

  function ParsePolicy(ts: seq<Token>, i: nat): (r: Parsed<Policy>)
    requires i <= |ts|
    ensures r.Got? ==> i < r.next <= |ts|
    ensures r.Fail? ==> i <= r.at <= |ts|
  {
    if !At(ts, i, KwPolicy) then Fail(i)
    else if !(i + 1 < |ts| && ts[i + 1].TStr?) then Fail(i + 1)
    else if !At(ts, i + 2, LBrace) then Fail(i + 2)
    else if !At(ts, i + 3, KwWhen) then Fail(i + 3)
    else PolicyTail(ts, i + 4, ts[i + 1].s)
  }

  function PolicyTail(ts: seq<Token>, i: nat, name: string): (r: Parsed<Policy>)
    requires i <= |ts|
    ensures r.Got? ==> i < r.next <= |ts|
    ensures r.Fail? ==> i <= r.at <= |ts|
  {
    match ParseDisjunction(ts, i)
    case Fail(at) => Fail(at)
    case Got(guard, k) => GuardTail(ts, k, name, guard)
  }

  function GuardTail(ts: seq<Token>, k: nat, name: string, guard: Expr): (r: Parsed<Policy>)
    requires k <= |ts|
    ensures r.Got? ==> k < r.next <= |ts|
    ensures r.Fail? ==> k <= r.at <= |ts|
  {
    if At(ts, k, KwThen) then ThenTail(ts, k + 1, name, guard) else Fail(k)
  }

  function ThenTail(ts: seq<Token>, i: nat, name: string, guard: Expr): (r: Parsed<Policy>)
    requires i <= |ts|
    ensures r.Got? ==> i < r.next <= |ts|
    ensures r.Fail? ==> i <= r.at <= |ts|
  {
    match ParseAction(ts, i)
    case Fail(at) => Fail(at)
    case Got(action, k) => if At(ts, k, RBrace) then Got(Policy(name, guard, action), k + 1) else Fail(k)
  }

  function ParsePolicies(ts: seq<Token>, i: nat, acc: seq<Policy>): (r: Parsed<Program>)
    requires i <= |ts|
    ensures r.Fail? ==> i <= r.at <= |ts|
    decreases |ts| - i
  {
    if i == |ts| then
      Got(Program(acc), i)
    else
      match ParsePolicy(ts, i)
      case Fail(at) => Fail(at)
      case Got(p, k) => ParsePolicies(ts, k, acc + [p])
  }

  function ParseProgram(ts: seq<Token>): Parsed<Program> {
    ParsePolicies(ts, 0, [])
  }
}
