/** The Dictum syntax tree. */
module Ast {
  import opened Outcomes

  type i64 = x: int | -0x8000_0000_0000_0000 <= x < 0x8000_0000_0000_0000

  datatype Verdict = Allow | Review | Block

  datatype Lit = StrLit(s: string) | IntLit(n: i64) | BoolLit(b: bool)

  datatype BinOp = Eq | Neq | Lt | Gt | Le | Ge | And | Or

  datatype UnOp = Not

  datatype Expr =
    | Literal(lit: Lit)
    | Path(segs: seq<string>)
    | Call(name: string, args: seq<Expr>)
    | Binary(op: BinOp, left: Expr, right: Expr)
    | Unary(uop: UnOp, inner: Expr)
    | Membership(negated: bool, needle: Expr, haystack: Expr)

  datatype Action = Action(verdict: Verdict, reason: Option<string>, evidence: Option<Expr>)

  datatype Policy = Policy(name: string, guard: Expr, action: Action)

  datatype Program = Program(policies: seq<Policy>)

  predicate IsComparison(op: BinOp) {
    op != And && op != Or
  }
}
