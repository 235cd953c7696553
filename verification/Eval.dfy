/**
 What a Dictum expression means: the outcome of evaluating it with no step budget, and
 the number of steps (AST node visits) evaluation takes before it has that outcome.
 */
module Eval {
  import opened Outcomes
  import opened Ast
  import opened Values
  import opened Builtins
  import opened Strings

  function Meaning(h: Host, e: Expr, root: Json): Outcome
    decreases e, 1
  {
    match e
    case Literal(StrLit(s)) => Ok(VStr(s))
    case Literal(IntLit(n)) => Ok(VInt(n))
    case Literal(BoolLit(b)) => Ok(VBool(b))
    case Path(segs) => Ok(JsonToValue(Walk(root, segs)))
    case Unary(_, inner) => NotOutcome(Meaning(h, inner, root))
    case Binary(op, l, r) => BinaryOutcome(h, op, Meaning(h, l, root), Meaning(h, r, root))
    case Membership(negated, n, hs) => MembershipOutcome(negated, Meaning(h, n, root), Meaning(h, hs, root))
    case Call(_, _) => CallMeaning(h, e, root)
  }

  function NotOutcome(v: Outcome): Outcome {
    if v.Err? then v else Ok(VBool(!Truthy(v.value)))
  }

  /** The right outcome matters only if the left operand neither fails nor decides. */
  function BinaryOutcome(h: Host, op: BinOp, l: Outcome, r: Outcome): Outcome {
    if l.Err? then l
    else if Decides(op, l.value) then Ok(VBool(Truthy(l.value)))
    else if r.Err? then r
    else Combine(h, op, l.value, r.value)
  }

  function MembershipOutcome(negated: bool, needle: Outcome, haystack: Outcome): Outcome {
    if needle.Err? then needle
    else if haystack.Err? then haystack
    else Contains(negated, needle.value, haystack.value)
  }

  function CallMeaning(h: Host, e: Expr, root: Json): Outcome
    requires e.Call?
    decreases e, 0
  {
    if Named(e.name) != Some(FnSecretRef) then BuiltinOutcome(h, Named(e.name), ArgumentMeanings(h, e.args, root))
    else if |e.args| != 1 then Err(EvalError("secret_ref takes 1 arg"))
    else SecretOutcome(h, SubtreeMeaning(h, e.args[0], root))
  }

  function BuiltinOutcome(h: Host, f: Option<Fn>, vs: Result<seq<Value>, EvalError>): Outcome {
    if vs.Err? then Err(vs.error)
    else if f.None? then Err(EvalError("unknown or mistyped call"))
    else Builtin(h, f.value, vs.value)
  }

  function SecretOutcome(h: Host, subtree: Result<Json, EvalError>): Outcome {
    if subtree.Err? then Err(subtree.error) else Ok(VBool(HasSecret(h, subtree.value)))
  }

  /** `and` and `or` stop at a left operand that settles them. */
  predicate Decides(op: BinOp, lv: Value) {
    (op == And && !Truthy(lv)) || (op == Or && Truthy(lv))
  }

  function Combine(h: Host, op: BinOp, lv: Value, rv: Value): Outcome {
    if op == And || op == Or then Ok(VBool(Truthy(rv)))
    else if op == Eq then Ok(VBool(ValuesEq(h, lv, rv)))
    else if op == Neq then Ok(VBool(!ValuesEq(h, lv, rv)))
    else Compare(h, op, lv, rv)
  }

  function Contains(negated: bool, needle: Value, haystack: Value): Outcome {
    match haystack
    case VList(xs) => Ok(VBool((needle in xs) != negated))
    case VStr(s) =>
      if needle.VStr? then Ok(VBool(IsSubstring(needle.s, s) != negated))
      else Err(EvalError("`in` against string requires string needle"))
    case _ => Err(EvalError("`in` rhs must be list or string"))
  }

  /** `secret_ref` scans the raw subtree of its argument, objects included. */
  function SubtreeMeaning(h: Host, e: Expr, root: Json): Result<Json, EvalError>
    decreases e, 2
  {
    if e.Path? then Ok(Walk(root, e.segs))
    else
      match Meaning(h, e, root)
      case Err(err) => Err(err)
      case Ok(v) => Ok(ValueToJson(v))
  }

  function HasSecret(h: Host, j: Json): bool {
    h.containsSecret(if j.JStr? then j.s else if j.JNull? then "" else h.render(j))
  }

  /** Arguments left to right, stopping at the first error. */
  function ArgumentMeanings(h: Host, args: seq<Expr>, root: Json): (r: Result<seq<Value>, EvalError>)
    ensures r.Ok? ==> |r.value| == |args|
    decreases args, 0
  {
    if args == [] then Ok([])
    else
      match Meaning(h, args[0], root)
      case Err(err) => Err(err)
      case Ok(v) =>
        match ArgumentMeanings(h, args[1..], root)
        case Err(err) => Err(err)
        case Ok(vs) => Ok([v] + vs)
  }

  function Builtin(h: Host, f: Fn, vs: seq<Value>): Outcome {
    if |vs| == 2 && vs[0].VStr? && vs[1].VStr? then TwoStrings(f, vs[0].s, vs[1].s)
    else if |vs| == 2 && vs[0].VList? && f == FnContains then Ok(VBool(vs[1] in vs[0].xs))
    else if |vs| == 1 && vs[0].VList? && f == FnLen then Ok(VInt(ToI64(|vs[0].xs|)))
    else if |vs| == 1 && vs[0].VStr? then OneString(h, f, vs[0].s)
    else Err(EvalError("unknown or mistyped call"))
  }

  function TwoStrings(f: Fn, s: string, t: string): Outcome {
    match f
    case FnContains => Ok(VBool(IsSubstring(t, s)))
    case FnStartsWith => Ok(VBool(t <= s))
    case FnEndsWith => Ok(VBool(EndsWith(s, t)))
    case _ => Err(EvalError("unknown or mistyped call"))
  }

  function OneString(h: Host, f: Fn, s: string): Outcome {
    match f
    case FnLen => Ok(VInt(ToI64(|s|)))
    case FnLower => Ok(VStr(h.lower(s)))
    case FnUpper => Ok(VStr(h.upper(s)))
    case FnUrlHost => Ok(VStr(h.urlHost(s)))
    case FnTimestamp =>
      var n := h.timestamp(s);
      if n.Some? then Ok(VInt(n.value)) else Err(EvalError("timestamp(): not an RFC3339 instant"))
    case FnSha256 => Ok(VStr(h.sha256(s)))
    case _ => Err(EvalError("unknown or mistyped call"))
  }

  // ---- steps ----

  /** Node visits before evaluation of e succeeds or fails; an operand not evaluated costs nothing. */
  function Steps(h: Host, e: Expr, root: Json): (n: nat)
    ensures n >= 1
    decreases e, 1
  {
    match e
    case Literal(_) => 1
    case Path(_) => 1
    case Unary(_, inner) => 1 + Steps(h, inner, root)
    case Binary(op, l, r) => 1 + BinarySteps(op, Meaning(h, l, root), Steps(h, l, root), Steps(h, r, root))
    case Membership(_, n, hs) => 1 + MembershipSteps(Meaning(h, n, root), Steps(h, n, root), Steps(h, hs, root))
    case Call(_, _) => 1 + CallSteps(h, e, root)
  }

  function BinarySteps(op: BinOp, l: Outcome, left: nat, right: nat): nat {
    left + if l.Err? || Decides(op, l.value) then 0 else right
  }

  function MembershipSteps(n: Outcome, needle: nat, haystack: nat): nat {
    needle + if n.Err? then 0 else haystack
  }

  function CallSteps(h: Host, e: Expr, root: Json): nat
    requires e.Call?
    decreases e, 0
  {
    if Named(e.name) == Some(FnSecretRef) then (if |e.args| != 1 then 0 else Steps(h, e.args[0], root))
    else ArgumentSteps(h, e.args, root)
  }

  function ArgumentSteps(h: Host, args: seq<Expr>, root: Json): nat
    decreases args, 0
  {
    if args == [] then 0
    else Steps(h, args[0], root) + (if Meaning(h, args[0], root).Err? then 0 else ArgumentSteps(h, args[1..], root))
  }

  function Nodes(e: Expr): (n: nat)
    ensures n >= 1
    decreases e, 0
  {
    match e
    case Literal(_) => 1
    case Path(_) => 1
    case Unary(_, inner) => 1 + Nodes(inner)
    case Binary(_, l, r) => 1 + Nodes(l) + Nodes(r)
    case Membership(_, needle, haystack) => 1 + Nodes(needle) + Nodes(haystack)
    case Call(_, args) => 1 + ArgumentNodes(args)
  }

  function ArgumentNodes(args: seq<Expr>): nat
    decreases args, 0
  {
    if args == [] then 0 else Nodes(args[0]) + ArgumentNodes(args[1..])
  }

  /** Evaluation never visits a node twice. */
  lemma {:induction false} StepsBounded(h: Host, e: Expr, root: Json)
    ensures Steps(h, e, root) <= Nodes(e)
    decreases e, 1
  {
    match e
    case Literal(_) =>
    case Path(_) =>
    case Unary(_, inner) => StepsBounded(h, inner, root);
    case Binary(_, l, r) =>
      StepsBounded(h, l, root);
      StepsBounded(h, r, root);
    case Membership(_, needle, haystack) =>
      StepsBounded(h, needle, root);
      StepsBounded(h, haystack, root);
    case Call(_, args) => CallStepsBounded(h, e, root);
  }

  lemma {:induction false} CallStepsBounded(h: Host, e: Expr, root: Json)
    requires e.Call?
    ensures CallSteps(h, e, root) <= ArgumentNodes(e.args)
    decreases e, 0
  {
    ArgumentStepsBounded(h, e.args, root);
    if |e.args| == 1 {
      StepsBounded(h, e.args[0], root);
      assert ArgumentNodes(e.args) == Nodes(e.args[0]) + ArgumentNodes(e.args[1..]);
    }
  }

  lemma {:induction false} ArgumentStepsBounded(h: Host, args: seq<Expr>, root: Json)
    ensures ArgumentSteps(h, args, root) <= ArgumentNodes(args)
    decreases args
  {
    if args != [] {
      StepsBounded(h, args[0], root);
      ArgumentStepsBounded(h, args[1..], root);
    }
  }
}
