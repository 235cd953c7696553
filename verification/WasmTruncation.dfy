/** What the code of an expression computes when its literals do not fit in 32 bits. */
module WasmTruncation {
  import opened Outcomes
  import opened Ast
  import opened Values
  import opened Eval
  import opened Types
  import opened Infer
  import opened TypeSoundness
  import opened Wasm

  /** e with every integer literal truncated to a signed 32-bit number. */
  function Truncated(e: Expr): Expr {
    match e
    case Literal(IntLit(n)) => Literal(IntLit(Signed(Wrap(n))))
    case Unary(op, inner) => Unary(op, Truncated(inner))
    case Binary(op, l, r) => Binary(op, Truncated(l), Truncated(r))
    case _ => e
  }

  /** Truncation keeps the code and the typing, and leaves only small literals. */
  lemma {:induction false} TruncatedSame(env: Env, e: Expr)
    requires WellFormed(env) && Emit(e).Ok?
    ensures Emit(Truncated(e)) == Emit(e) && SmallLiterals(Truncated(e))
    ensures InferExpr(env, Truncated(e)) == InferExpr(env, e)
    decreases e
  {
    match e
    case Literal(_) =>
    case Unary(_, inner) => TruncatedSame(env, inner);
    case Binary(_, l, r) =>
      TruncatedSame(env, l);
      if InferExpr(env, l).Ok? {
        TruncatedSame(InferExpr(env, l).value.1, r);
      } else {
        TruncatedSame(env, r);
      }
  }

  /** Truncation changes nothing but literals that do not fit in 32 bits. */
  lemma {:induction false} TruncatedExactly(e: Expr)
    requires Emit(e).Ok?
    ensures Truncated(e) == e <==> SmallLiterals(e)
    decreases e
  {
    match e
    case Literal(_) =>
    case Unary(_, inner) => TruncatedExactly(inner);
    case Binary(_, l, r) =>
      TruncatedExactly(l);
      TruncatedExactly(r);
  }

  /**
   For every well-typed accepted expression, whatever its literals, the code pushes exactly the
   encoding of the value of the expression with truncated literals.
   */
  lemma TruncatingCompilerCorrect(env: Env, e: Expr, t: Ty, env1: Env, h: Host, root: Json, stack: seq<u32>)
    requires WellFormed(env) && InferExpr(env, e) == Ok((t, env1)) && Emit(e).Ok?
    ensures Meaning(h, Truncated(e), root).Ok? && HasType(Meaning(h, Truncated(e), root).value, t)
    ensures Exec(Emit(e).value, stack) == Some(stack + [Encode(Meaning(h, Truncated(e), root).value)])
  {
    TruncatedSame(env, e);
    CompilerCorrect(env, Truncated(e), t, env1, h, root, stack);
  }
}
