/** What the inferred type of an expression says about evaluating it. */
module TypeSoundness {
  import opened Outcomes
  import opened Ast
  import opened Values
  import opened Builtins
  import opened Eval
  import opened Types
  import opened Infer

  /** v inhabits t. Nothing inhabits a variable; anything inhabits Unknown. */
  predicate HasType(v: Value, t: Ty) {
    match t
    case TBool => v.VBool?
    case TInt => v.VInt?
    case TStr => v.VStr?
    case Unknown => true
    case TList(e) => v.VList? && forall x :: x in v.xs ==> HasType(x, e)
    case Var(_) => false
  }

  /**
   Preservation: if inference gives e the type t and evaluation gives it the value v, then
   v inhabits t under any substitution s inference may end with. In particular an
   expression whose type is a variable never has a value.
   */
  lemma {:induction false} Preservation(env: Env, e: Expr, s: Subst, h: Host, root: Json)
    requires WellFormed(env) && InferExpr(env, e).Ok? && Meaning(h, e, root).Ok?
    requires Acyclic(s) && Extends(InferExpr(env, e).value.1.subst, s)
    ensures HasType(Meaning(h, e, root).value, Apply(s, InferExpr(env, e).value.0))
  {
    var (t, env1) := InferExpr(env, e).value;
    if e.Call? {
      CallPreservation(env, e, t, env1, h, Meaning(h, e, root).value, root);
    } else if e.Unary? || e.Binary? || e.Membership? {
      OperatorPreservation(h, e, root);
    }
  }

  lemma {:induction false} OperatorPreservation(h: Host, e: Expr, root: Json)
    requires (e.Unary? || e.Binary? || e.Membership?) && Meaning(h, e, root).Ok?
    ensures Meaning(h, e, root).value.VBool?
  {
  }

  lemma {:induction false} CallPreservation(env: Env, e: Expr, t: Ty, env1: Env, h: Host, v: Value, root: Json)
    requires WellFormed(env) && e.Call? && InferExpr(env, e) == Ok((t, env1)) && Meaning(h, e, root) == Ok(v)
    ensures Named(e.name).Some? && t == SignatureOf(Named(e.name).value).ret && HasType(v, t)
  {
    if Named(e.name) != Some(FnSecretRef) {
      BuiltinType(h, Named(e.name).value, ArgumentMeanings(h, e.args, root).value);
    }
  }

  lemma {:induction false} BuiltinType(h: Host, f: Fn, vs: seq<Value>)
    requires Builtin(h, f, vs).Ok?
    ensures HasType(Builtin(h, f, vs).value, SignatureOf(f).ret)
  {
  }

  // ---- progress ----

  predicate TotalBuiltin(name: string) {
    Named(name).Some? && Named(name).value != FnLen && Named(name).value != FnTimestamp
  }

  /** No paths, membership tests, `len`, `timestamp` or unknown calls. */
  predicate Closed(e: Expr) {
    match e
    case Literal(_) => true
    case Path(_) => false
    case Unary(_, inner) => Closed(inner)
    case Binary(_, l, r) => Closed(l) && Closed(r)
    case Membership(_, _, _) => false
    case Call(name, args) => TotalBuiltin(name) && forall a :: a in args ==> Closed(a)
  }

  predicate Concrete(t: Ty) {
    t == TBool || t == TInt || t == TStr
  }

  lemma {:induction false} ConcreteUnify(env: Env, a: Ty, b: Ty)
    requires WellFormed(env) && Concrete(a) && Concrete(b)
    ensures UnifyIn(env, a, b).Ok? ==> a == b
  {
  }

  /** e evaluates to a value of the concrete type t. */
  ghost predicate Yields(h: Host, e: Expr, root: Json, t: Ty) {
    Concrete(t) && Meaning(h, e, root).Ok? && HasType(Meaning(h, e, root).value, t)
  }

  /** Progress: evaluation of a well-typed closed expression never fails, and gives a value of its type. */
  lemma {:induction false} Progress(env: Env, e: Expr, t: Ty, env1: Env, h: Host, root: Json)
    requires WellFormed(env) && InferExpr(env, e) == Ok((t, env1)) && Closed(e)
    ensures Yields(h, e, root, t)
    decreases e, 2
  {
    match e
    case Literal(_) =>
    case Unary(_, inner) =>
      var (t0, env0) := InferExpr(env, inner).value;
      Progress(env, inner, t0, env0, h, root);
    case Binary(_, _, _) => BinaryProgress(env, e, t, env1, h, root);
    case Call(_, _) => CallProgress(env, e, t, env1, h, root);
  }

  lemma {:induction false} BinaryProgress(env: Env, e: Expr, t: Ty, env1: Env, h: Host, root: Json)
    requires WellFormed(env) && e.Binary? && InferExpr(env, e) == Ok((t, env1)) && Closed(e)
    ensures Yields(h, e, root, t)
    decreases e, 1
  {
    var (lt, envL) := InferExpr(env, e.left).value;
    var (rt, envR) := InferExpr(envL, e.right).value;
    Progress(env, e.left, lt, envL, h, root);
    Progress(envL, e.right, rt, envR, h, root);
    OperatorProgress(envR, e.op, lt, rt, h, Meaning(h, e.left, root).value, Meaning(h, e.right, root).value);
    BinaryYields(h, e, root);
  }

  lemma {:induction false} BinaryYields(h: Host, e: Expr, root: Json)
    requires e.Binary? && Meaning(h, e.left, root).Ok? && Meaning(h, e.right, root).Ok?
    requires var c := Combine(h, e.op, Meaning(h, e.left, root).value, Meaning(h, e.right, root).value); c.Ok? && c.value.VBool?
    ensures Yields(h, e, root, TBool)
  {
  }

  lemma {:induction false} CallProgress(env: Env, e: Expr, t: Ty, env1: Env, h: Host, root: Json)
    requires WellFormed(env) && e.Call? && InferExpr(env, e) == Ok((t, env1)) && Closed(e)
    ensures Yields(h, e, root, t)
    decreases e, 1
  {
    if Named(e.name) == Some(FnSecretRef) {
      SecretProgress(env, e, t, env1, h, root);
    } else {
      OrdinaryProgress(env, e, t, env1, h, root);
    }
  }

  lemma {:induction false} OrdinaryProgress(env: Env, e: Expr, t: Ty, env1: Env, h: Host, root: Json)
    requires e.Call? && Named(e.name) != Some(FnSecretRef)
    requires WellFormed(env) && InferExpr(env, e) == Ok((t, env1)) && Closed(e)
    ensures Yields(h, e, root, t)
    decreases e, 0, 1
  {
    var f := Named(e.name).value;
    var vs := CallArguments(env, e, f, t, env1, h, root);
    CallYields(h, e, f, vs, root);
  }

  /** The arguments of a well-typed call evaluate to values of the parameters' types. */
  lemma {:induction false} CallArguments(env: Env, e: Expr, f: Fn, t: Ty, env1: Env, h: Host, root: Json)
    returns (vs: seq<Value>)
    requires e.Call? && Named(e.name) == Some(f) && f != FnSecretRef && Closed(e)
    requires WellFormed(env) && InferExpr(env, e) == Ok((t, env1))
    ensures t == SignatureOf(f).ret
    ensures ArgumentMeanings(h, e.args, root) == Ok(vs) && HaveTypes(vs, SignatureOf(f).params)
    decreases e, 0, 0
  {
    CallInference(env, e, f, t, env1);
    SignatureConcrete(f);
    ArgumentsProgress(env, e.args, SignatureOf(f).params, h, root);
    vs := ArgumentMeanings(h, e.args, root).value;
  }

  lemma SignatureConcrete(f: Fn)
    requires f != FnSecretRef && f != FnLen
    ensures forall t :: t in SignatureOf(f).params ==> Ground(t) && Concrete(t)
  {
  }

  lemma {:induction false} CallInference(env: Env, e: Expr, f: Fn, t: Ty, env1: Env)
    requires WellFormed(env) && e.Call? && Named(e.name) == Some(f) && InferExpr(env, e) == Ok((t, env1))
    ensures var sig := SignatureOf(f);
            |sig.params| == |e.args| && InferArgs(env, e.args, Some(sig.params)) == Ok(env1) && t == sig.ret
  {
  }

  lemma {:induction false} CallYields(h: Host, e: Expr, f: Fn, vs: seq<Value>, root: Json)
    requires e.Call? && Named(e.name) == Some(f) && TotalBuiltin(e.name) && f != FnSecretRef
    requires ArgumentMeanings(h, e.args, root) == Ok(vs) && HaveTypes(vs, SignatureOf(f).params)
    ensures Yields(h, e, root, SignatureOf(f).ret)
  {
    BuiltinProgress(h, f, vs);
    assert CallMeaning(h, e, root).Ok?;
  }

  lemma {:induction false} SecretProgress(env: Env, e: Expr, t: Ty, env1: Env, h: Host, root: Json)
    requires e.Call? && Named(e.name) == Some(FnSecretRef)
    requires WellFormed(env) && InferExpr(env, e) == Ok((t, env1)) && Closed(e)
    ensures Yields(h, e, root, t)
    decreases e, 0
  {
    var arg := e.args[0];
    CallInference(env, e, FnSecretRef, t, env1);
    assert arg in e.args && InferExpr(env, arg).Ok?;
    var (t0, env0) := InferExpr(env, arg).value;
    Progress(env, arg, t0, env0, h, root);
    SecretYields(h, e, root);
  }

  lemma {:induction false} SecretYields(h: Host, e: Expr, root: Json)
    requires e.Call? && Named(e.name) == Some(FnSecretRef) && |e.args| == 1 && Meaning(h, e.args[0], root).Ok?
    ensures Yields(h, e, root, TBool)
  {
    assert SubtreeMeaning(h, e.args[0], root).Ok?;
    assert CallMeaning(h, e, root).Ok?;
  }

  lemma {:induction false} OperatorProgress(env: Env, op: BinOp, lt: Ty, rt: Ty, h: Host, lv: Value, rv: Value)
    requires WellFormed(env) && Concrete(lt) && Concrete(rt) && HasType(lv, lt) && HasType(rv, rt)
    requires InferOperator(env, op, lt, rt).Ok?
    ensures Combine(h, op, lv, rv).Ok? && Combine(h, op, lv, rv).value.VBool?
  {
    if IsComparison(op) && op != Eq && op != Neq {
      ConcreteUnify(env, lt, TInt);
      ConcreteUnify(Expecting(env, lt, TInt, TBool).value.1, rt, TInt);
    }
  }

  ghost predicate HaveTypes(vs: seq<Value>, params: seq<Ty>) {
    |vs| == |params| && forall k :: 0 <= k < |vs| ==> HasType(vs[k], params[k])
  }

  lemma {:induction false} ArgumentsProgress(env: Env, args: seq<Expr>, params: seq<Ty>, h: Host, root: Json)
    requires WellFormed(env) && (forall a :: a in args ==> Closed(a))
    requires |params| == |args| && forall t :: t in params ==> Ground(t) && Concrete(t)
    requires InferArgs(env, args, Some(params)).Ok?
    ensures ArgumentMeanings(h, args, root).Ok? && HaveTypes(ArgumentMeanings(h, args, root).value, params)
    decreases args
  {
    if args != [] {
      assert Concrete(params[0]);
      var (t, env1) := InferExpr(env, args[0]).value;
      var env2 := Expecting(env1, t, params[0], TBool).value.1;
      Progress(env, args[0], t, env1, h, root);
      ConcreteUnify(env1, t, params[0]);
      ArgumentsProgress(env2, args[1..], params[1..], h, root);
      ConsTypes(Meaning(h, args[0], root).value, ArgumentMeanings(h, args[1..], root).value, params);
    }
  }

  lemma {:induction false} ConsTypes(v: Value, vs: seq<Value>, params: seq<Ty>)
    requires params != [] && HasType(v, params[0]) && HaveTypes(vs, params[1..])
    ensures HaveTypes([v] + vs, params)
  {
    assert forall k :: 0 < k < |params| ==> ([v] + vs)[k] == vs[k - 1] && params[k] == params[1..][k - 1];
  }

  lemma {:induction false} BuiltinProgress(h: Host, f: Fn, vs: seq<Value>)
    requires f != FnLen && f != FnTimestamp && f != FnSecretRef && HaveTypes(vs, SignatureOf(f).params)
    ensures Builtin(h, f, vs).Ok? && HasType(Builtin(h, f, vs).value, SignatureOf(f).ret)
  {
    assert HasType(vs[0], TStr);
    if |vs| == 2 {
      assert HasType(vs[1], TStr);
    }
  }
}
