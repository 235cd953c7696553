/** The structural defects of an expression: which there are, and which is reported first. */
module Structure {
  import opened Outcomes
  import opened Ast
  import opened Builtins
  import opened Trees

  datatype Defect = BlankName | DuplicateName(name: string) | EmptyPath | WrongArity(name: string, arity: nat, got: nat)

  /** The first structural defect of an expression, in preorder. */
  function ExprDefect(e: Expr): Option<Defect>
    decreases e, 0
  {
    match e
    case Literal(_) => None
    case Path(segs) => if segs == [] then Some(EmptyPath) else None
    case Unary(_, inner) => ExprDefect(inner)
    case Binary(_, l, r) => if ExprDefect(l).Some? then ExprDefect(l) else ExprDefect(r)
    case Membership(_, n, hs) => if ExprDefect(n).Some? then ExprDefect(n) else ExprDefect(hs)
    case Call(name, args) =>
      var f := Named(name);
      if f.Some? && Arity(f.value) != |args| then Some(WrongArity(name, Arity(f.value), |args|)) else ArgsDefect(args)
  }

  function ArgsDefect(args: seq<Expr>): Option<Defect>
    decreases args, 0
  {
    if args == [] then None
    else if ExprDefect(args[0]).Some? then ExprDefect(args[0])
    else ArgsDefect(args[1..])
  }

  // ---- the same, node by node ----

  /** How many arguments a builtin takes. */
  function Takes(name: string): Option<nat> {
    if name == "contains" || name == "starts_with" || name == "ends_with" then Some(2)
    else if name == "len" || name == "lower" || name == "upper" || name == "secret_ref" then Some(1)
    else if name == "url_host" || name == "timestamp" || name == "sha256" then Some(1)
    else None
  }

  /** A path without segments, or a known builtin with another number of arguments. */
  predicate Malformed(e: Expr) {
    match e
    case Path(segs) => segs == []
    case Call(name, args) => Takes(name).Some? && Takes(name).value != |args|
    case _ => false
  }

  const MALFORMED: Expr -> bool := (e: Expr) => Malformed(e)

  /** The defect that names a malformed node. */
  predicate Reports(d: Defect, e: Expr) {
    match e
    case Path(_) => d == EmptyPath
    case Call(name, args) => Takes(name).Some? && d == WrongArity(name, Takes(name).value, |args|)
    case _ => false
  }

  lemma {:induction false} DefectByFirst(e: Expr)
    ensures match First(Subterms(e), MALFORMED)
            case None => ExprDefect(e).None?
            case Some(bad) => ExprDefect(e).Some? && Reports(ExprDefect(e).value, bad)
    decreases e, 1
  {
    match e
    case Unary(_, inner) =>
      DefectByFirst(inner);
      FirstAppend([e], Subterms(inner), MALFORMED);
    case Binary(_, l, r) =>
      DefectByFirst(l);
      DefectByFirst(r);
      FirstAppend(Subterms(l), Subterms(r), MALFORMED);
      FirstAppend([e], Subterms(l) + Subterms(r), MALFORMED);
    case Membership(_, n, hs) =>
      DefectByFirst(n);
      DefectByFirst(hs);
      FirstAppend(Subterms(n), Subterms(hs), MALFORMED);
      FirstAppend([e], Subterms(n) + Subterms(hs), MALFORMED);
    case Call(name, args) =>
      ArgsDefectByFirst(e, args);
      FirstAppend([e], ArgsSubterms(args), MALFORMED);
      ArityDefect(name, args);
    case _ => FirstOne(e, MALFORMED);
  }

  lemma {:induction false} ArgsDefectByFirst(call: Expr, args: seq<Expr>)
    requires forall a :: a in args ==> a < call
    ensures match First(ArgsSubterms(args), MALFORMED)
            case None => ArgsDefect(args).None?
            case Some(bad) => ArgsDefect(args).Some? && Reports(ArgsDefect(args).value, bad)
    decreases call, 0, |args|
  {
    if args != [] {
      assert args[0] in args;
      DefectByFirst(args[0]);
      assert forall a :: a in args[1..] ==> a in args;
      ArgsDefectByFirst(call, args[1..]);
      FirstAppend(Subterms(args[0]), ArgsSubterms(args[1..]), MALFORMED);
    }
  }

  lemma {:induction false} TakesArity(name: string)
    ensures Takes(name) == if Named(name).Some? then Some(Arity(Named(name).value)) else None
  {
    NamedExactly(name);
  }

  lemma {:induction false} ArityDefect(name: string, args: seq<Expr>)
    ensures var e := Call(name, args);
            if Malformed(e) then ExprDefect(e).Some? && Reports(ExprDefect(e).value, e)
            else ExprDefect(e) == ArgsDefect(args)
  {
    TakesArity(name);
  }

  predicate WellFormed(e: Expr) {
    forall n :: n in Subterms(e) ==> !Malformed(n)
  }

  /** The defect names the first malformed node of e. */
  ghost predicate ReportsNode(d: Defect, e: Expr) {
    exists k: nat :: FirstAt(Subterms(e), MALFORMED, k) && Reports(d, Subterms(e)[k])
  }

  lemma {:induction false} DefectExactly(e: Expr)
    ensures ExprDefect(e).None? <==> WellFormed(e)
    ensures ExprDefect(e).Some? ==> ReportsNode(ExprDefect(e).value, e)
  {
    DefectByFirst(e);
    FirstMeans(Subterms(e), MALFORMED);
  }
}
