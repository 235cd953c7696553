/** The parser and the grammar agree exactly. */
module ParserTheorems {
  import opened Outcomes
  import opened Ast
  import opened Lexer
  import opened Grammar
  import opened Parsing
  import opened ParserSoundness
  import opened ParserCompleteness

  /** The parser accepts exactly the grammar, with exactly its trees. */
  lemma {:induction false} ParserExact(ts: seq<Token>, prog: Program)
    ensures Derives(ts, prog) <==> ParseProgram(ts) == Got(prog, |ts|)
  {
    if Derives(ts, prog) {
      PoliciesComplete(ts, 0, prog.policies, []);
      assert [] + prog.policies == prog.policies;
    }
    PoliciesSound(ts, 0, []);
    if ParseProgram(ts) == Got(prog, |ts|) {
      assert prog.policies[0..] == prog.policies;
    }
  }

  /** A token list is rejected exactly when no program derives it. */
  lemma {:induction false} ParserRejects(ts: seq<Token>)
    ensures ParseProgram(ts).Fail? <==> forall prog :: !Derives(ts, prog)
  {
    forall prog ensures Derives(ts, prog) <==> ParseProgram(ts) == Got(prog, |ts|) {
      ParserExact(ts, prog);
    }
    PoliciesEnd(ts, 0, []);
    if ParseProgram(ts).Got? {
      assert Derives(ts, ParseProgram(ts).val);
    }
  }

  lemma {:induction false} PoliciesEnd(ts: seq<Token>, i: nat, acc: seq<Policy>)
    requires i <= |ts|
    ensures var r := ParsePolicies(ts, i, acc); r.Got? ==> r.next == |ts|
    decreases |ts| - i
  {
    if i < |ts| && ParsePolicy(ts, i).Got? {
      var p := ParsePolicy(ts, i);
      PoliciesEnd(ts, p.next, acc + [p.val]);
    }
  }

  /** The grammar is unambiguous. */
  lemma {:induction false} GrammarUnambiguous(ts: seq<Token>, p: Program, q: Program)
    requires Derives(ts, p) && Derives(ts, q)
    ensures p == q
  {
    ParserExact(ts, p);
    ParserExact(ts, q);
  }

  /** So is the expression sublanguage, on any token list. */
  lemma {:induction false} ExpressionsUnambiguous(ts: seq<Token>, d: Expr, e: Expr)
    requires Disjunction(ts, 0, |ts|, d) && Disjunction(ts, 0, |ts|, e)
    ensures d == e
  {
    DisjunctionComplete(ts, 0, |ts|, d);
    DisjunctionComplete(ts, 0, |ts|, e);
  }
}
