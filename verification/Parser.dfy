/**
 The recursive-descent parser itself: a cursor over a token list that is advanced, and
 once rewound, in place. Each method returns what Parsing says of the tokens from the
 old cursor on, and on success leaves the cursor right behind the phrase it read.
 Errors carry the cursor position that their line and column are taken from: it is one past the
 token that does not fit.
 */
module Parser {
  import opened Outcomes
  import opened Ast
  import opened Lexer
  import opened Grammar
  import opened Parsing

  type ParseResult<+T> = Result<T, nat>

  class Cursor {
    const toks: seq<Token>
    var pos: nat

    ghost predicate Valid()
      reads this
    {
      pos <= |toks|
    }

    constructor (toks: seq<Token>)
      ensures Valid() && this.toks == toks && pos == 0
    {
      this.toks := toks;
      pos := 0;
    }

    function Peek(): Option<Token>
      reads this
    {
      if pos < |toks| then Some(toks[pos]) else None
    }

    method Advance() returns (t: Option<Token>)
      requires Valid()
      modifies this`pos
      ensures Valid()
      ensures t == old(Peek()) && pos == old(pos) + if t.Some? then 1 else 0
    {
      t := Peek();
      if t.Some? {
        pos := pos + 1;
      }
    }

    method Expect(expected: Token) returns (r: ParseResult<()>)
      requires Valid()
      modifies this`pos
      ensures Valid()
      ensures if At(toks, old(pos), expected) then r == Ok(()) && pos == old(pos) + 1
              else r == Err(Past(toks, old(pos)))
    {
      var t := Advance();
      if t == Some(expected) {
        return Ok(());
      }
      return Err(pos);
    }

    /** The method outcome r, with the cursor where it is now, is the specified outcome p. */
    ghost predicate Matches<T>(r: ParseResult<T>, p: Parsed<T>)
      reads this
    {
      match p
      case Got(val, next) => r == Ok(val) && pos == next
      case Fail(at) => r == Err(Past(toks, at))
    }

    method ParsePrimary() returns (r: ParseResult<Expr>)
      requires Valid()
      modifies this`pos
      ensures Valid() && Matches(r, Parsing.ParsePrimary(toks, old(pos)))
      decreases |toks| - pos, 0
    {
      var t := Advance();
      if t.None? {
        return Err(pos);
      }
      if LiteralOf(t.value).Some? {
        return Ok(Literal(LiteralOf(t.value).value));
      }
      if t.value == LParen {
        var e := ParseExpr();
        if e.Err? {
          return e;
        }
        var close := Expect(RParen);
        if close.Err? {
          return Err(close.error);
        }
        return e;
      }
      if t.value.TIdent? {
        if Peek() == Some(LParen) {
          r := ParseCallRest(t.value.id);
        } else {
          r := ParsePathRest(t.value.id);
        }
        return;
      }
      return Err(pos);
    }

    method ParseCallRest(name: string) returns (r: ParseResult<Expr>)
      requires Valid() && Peek() == Some(LParen)
      modifies this`pos
      ensures Valid() && Matches(r, CallTail(toks, old(pos) + 1, name))
      decreases |toks| - pos, 1
    {
      var _ := Advance();
      ghost var start := pos;
      var args: seq<Expr> := [];
      if Peek() != Some(RParen) {
        var more := true;
        while more
          invariant Valid() && start <= pos
          invariant more ==> ParseArguments(toks, start, []) == ParseArguments(toks, pos, args)
          invariant !more ==> ParseArguments(toks, start, []) == Got(args, pos)
          decreases |toks| - pos, more
        {
          var e := ParseExpr();
          if e.Err? {
            return e;
          }
          args := args + [e.value];
          if Peek() == Some(Comma) {
            var _ := Advance();
          } else {
            more := false;
          }
        }
      }
      var close := Expect(RParen);
      if close.Err? {
        return Err(close.error);
      }
      return Ok(Call(name, args));
    }

    method ParsePathRest(first: string) returns (r: ParseResult<Expr>)
      requires Valid()
      modifies this`pos
      ensures Valid() && Matches(r, ParseSegments(toks, old(pos), [first]))
    {
      var segs := [first];
      while Peek() == Some(Dot)
        invariant Valid()
        invariant ParseSegments(toks, old(pos), [first]) == ParseSegments(toks, pos, segs)
        decreases |toks| - pos
      {
        var _ := Advance();
        var t := Advance();
        if t.None? || !t.value.TIdent? {
          return Err(pos);
        }
        segs := segs + [t.value.id];
      }
      return Ok(Path(segs));
    }

    /** Reads `in` or `not in`; a `not` that no `in` follows is given back. */
    method ReadMembershipOperator() returns (found: bool, negated: bool)
      requires Valid()
      modifies this`pos
      ensures Valid()
      ensures negated <==> At(toks, old(pos), KwNot) && At(toks, old(pos) + 1, KwIn)
      ensures found <==> negated || At(toks, old(pos), KwIn)
      ensures pos == old(pos) + if negated then 2 else if found then 1 else 0
    {
      if Peek() == Some(KwIn) {
        var _ := Advance();
        return true, false;
      }
      if Peek() == Some(KwNot) {
        var save := pos;
        var _ := Advance();
        if Peek() == Some(KwIn) {
          var _ := Advance();
          return true, true;
        }
        pos := save;
      }
      return false, false;
    }

    method ParseMembership() returns (r: ParseResult<Expr>)
      requires Valid()
      modifies this`pos
      ensures Valid() && Matches(r, ParseMember(toks, old(pos)))
      decreases |toks| - pos, 1
    {
      var needle := ParsePrimary();
      if needle.Err? {
        return needle;
      }
      var found, negated := ReadMembershipOperator();
      if !found {
        return needle;
      }
      var haystack := ParsePrimary();
      if haystack.Err? {
        return haystack;
      }
      return Ok(Membership(negated, needle.value, haystack.value));
    }

    method ParseCompare() returns (r: ParseResult<Expr>)
      requires Valid()
      modifies this`pos
      ensures Valid() && Matches(r, ParseComparison(toks, old(pos)))
      decreases |toks| - pos, 2
    {
      var left := ParseMembership();
      if left.Err? {
        return left;
      }
      var t := Peek();
      if t.None? || ComparisonOf(t.value).None? {
        return left;
      }
      var _ := Advance();
      var right := ParseMembership();
      if right.Err? {
        return right;
      }
      return Ok(Binary(ComparisonOf(t.value).value, left.value, right.value));
    }

    method ParseNot() returns (r: ParseResult<Expr>)
      requires Valid()
      modifies this`pos
      ensures Valid() && Matches(r, ParseNegation(toks, old(pos)))
      decreases |toks| - pos, 3
    {
      if Peek() == Some(KwNot) {
        var _ := Advance();
        var inner := ParseNot();
        if inner.Err? {
          return inner;
        }
        return Ok(Unary(Not, inner.value));
      }
      r := ParseCompare();
    }

    method ParseAnd() returns (r: ParseResult<Expr>)
      requires Valid()
      modifies this`pos
      ensures Valid() && Matches(r, ParseConjunction(toks, old(pos)))
      decreases |toks| - pos, 4
    {
      r := ParseNot();
      if r.Err? {
        return;
      }
      while Peek() == Some(KwAnd)
        invariant Valid() && r.Ok? && old(pos) < pos
        invariant ParseConjunction(toks, old(pos)) == AndTail(toks, pos, r.value)
        decreases |toks| - pos
      {
        var _ := Advance();
        var right := ParseNot();
        if right.Err? {
          return right;
        }
        r := Ok(Binary(And, r.value, right.value));
      }
    }

    method ParseOr() returns (r: ParseResult<Expr>)
      requires Valid()
      modifies this`pos
      ensures Valid() && Matches(r, ParseDisjunction(toks, old(pos)))
      decreases |toks| - pos, 5
    {
      r := ParseAnd();
      if r.Err? {
        return;
      }
      while Peek() == Some(KwOr)
        invariant Valid() && r.Ok? && old(pos) < pos
        invariant ParseDisjunction(toks, old(pos)) == OrTail(toks, pos, r.value)
        decreases |toks| - pos
      {
        var _ := Advance();
        var right := ParseAnd();
        if right.Err? {
          return right;
        }
        r := Ok(Binary(Or, r.value, right.value));
      }
    }

    method ParseExpr() returns (r: ParseResult<Expr>)
      requires Valid()
      modifies this`pos
      ensures Valid() && Matches(r, ParseDisjunction(toks, old(pos)))
      decreases |toks| - pos, 6
    {
      r := ParseOr();
    }

    method ParseOneAttribute(action: Action) returns (r: ParseResult<Action>)
      requires Valid()
      modifies this`pos
      ensures Valid() && Matches(r, ParseAttribute(toks, old(pos), action))
    {
      var attr := Advance();
      if attr != Some(KwReason) && attr != Some(KwEvidence) {
        return Err(pos);
      }
      var eq := Expect(Assign);
      if eq.Err? {
        return Err(eq.error);
      }
      if attr == Some(KwReason) {
        var s := Advance();
        if s.None? || !s.value.TStr? {
          return Err(pos);
        }
        return Ok(action.(reason := Some(s.value.s)));
      }
      var e := ParseExpr();
      if e.Err? {
        return Err(e.error);
      }
      return Ok(action.(evidence := Some(e.value)));
    }

    method ParseAction() returns (r: ParseResult<Action>)
      requires Valid()
      modifies this`pos
      ensures Valid() && Matches(r, Parsing.ParseAction(toks, old(pos)))
    {
      var t := Advance();
      if t.None? || VerdictOf(t.value).None? {
        return Err(pos);
      }
      r := ParseAttributes(Action(VerdictOf(t.value).value, None, None));
    }

    method ParseAttributes(verdict: Action) returns (r: ParseResult<Action>)
      requires Valid()
      modifies this`pos
      ensures Valid() && Matches(r, AttributeTail(toks, old(pos), verdict))
    {
      var action := verdict;
      while Peek() == Some(Comma)
        invariant Valid()
        invariant AttributeTail(toks, old(pos), verdict) == AttributeTail(toks, pos, action)
        decreases |toks| - pos
      {
        var _ := Advance();
        var next := ParseOneAttribute(action);
        if next.Err? {
          return next;
        }
        action := next.value;
      }
      return Ok(action);
    }

    method ParsePolicy() returns (r: ParseResult<Policy>)
      requires Valid()
      modifies this`pos
      ensures Valid() && Matches(r, Parsing.ParsePolicy(toks, old(pos)))
    {
      var step := Expect(KwPolicy);
      if step.Err? {
        return Err(step.error);
      }
      var name := Advance();
      if name.None? || !name.value.TStr? {
        return Err(pos);
      }
      step := Expect(LBrace);
      if step.Err? {
        return Err(step.error);
      }
      step := Expect(KwWhen);
      if step.Err? {
        return Err(step.error);
      }
      assert pos == old(pos) + 4 && toks[old(pos) + 1] == name.value;
      r := ParsePolicyRest(name.value.s);
    }

    method ParsePolicyRest(name: string) returns (r: ParseResult<Policy>)
      requires Valid()
      modifies this`pos
      ensures Valid() && Matches(r, PolicyTail(toks, old(pos), name))
    {
      var guard := ParseExpr();
      if guard.Err? {
        return Err(guard.error);
      }
      var step := Expect(KwThen);
      if step.Err? {
        return Err(step.error);
      }
      r := ParseThenRest(name, guard.value);
    }

    method ParseThenRest(name: string, guard: Expr) returns (r: ParseResult<Policy>)
      requires Valid()
      modifies this`pos
      ensures Valid() && Matches(r, ThenTail(toks, old(pos), name, guard))
    {
      var action := ParseAction();
      if action.Err? {
        return Err(action.error);
      }
      var close := Expect(RBrace);
      if close.Err? {
        return Err(close.error);
      }
      return Ok(Policy(name, guard, action.value));
    }
  }

  /** Parses a whole token list. With ParserExact this is the grammar's only reading of it. */
  method Parse(toks: seq<Token>) returns (r: ParseResult<Program>)
    ensures match ParseProgram(toks)
            case Got(prog, _) => r == Ok(prog)
            case Fail(at) => r == Err(Past(toks, at))
  {
    var p := new Cursor(toks);
    var policies: seq<Policy> := [];
    while p.pos < |p.toks|
      invariant p.Valid()
      invariant ParsePolicies(toks, 0, []) == ParsePolicies(toks, p.pos, policies)
      decreases |toks| - p.pos
    {
      var policy := p.ParsePolicy();
      if policy.Err? {
        return Err(policy.error);
      }
      policies := policies + [policy.value];
    }
    return Ok(Program(policies));
  }
}
