/**
 Type inference over expressions, and the environment it updates in place. Paths are
 dynamically typed (Unknown) and calls of unknown builtins get a fresh variable.
 */
module Infer {
  import opened Outcomes
  import opened Ast
  import opened Types
  import opened Builtins

  /** The part of the environment that inference threads: the variable counter and the substitution. */
  datatype Env = Env(next: nat, subst: Subst)

  /** Bindings are for variables already handed out, and bind them to types without Unknown or lists. */
  ghost predicate WellFormed(env: Env) {
    && Acyclic(env.subst)
    && forall v :: v in env.subst ==> v < env.next && Simple(env.subst[v], env.next) && env.subst[v] != Unknown
  }

  /** The types inference computes: an atom, or a variable already handed out. */
  predicate Simple(t: Ty, next: nat) {
    !t.TList? && (t.Var? ==> t.v < next)
  }

  predicate Ground(t: Ty) {
    t == TBool || t == TInt || t == TStr || t == Unknown
  }

  datatype Signature = Signature(ret: Ty, params: seq<Ty>)

  function SignatureOf(f: Fn): Signature {
    match f
    case FnContains | FnStartsWith | FnEndsWith => Signature(TBool, [TStr, TStr])
    case FnLen => Signature(TInt, [Unknown])
    case FnLower | FnUpper | FnUrlHost | FnSha256 => Signature(TStr, [TStr])
    case FnSecretRef => Signature(TBool, [Unknown])
    case FnTimestamp => Signature(TInt, [TStr])
  }

  function UnifyIn(env: Env, a: Ty, b: Ty): Result<Env, TypeError>
    requires Acyclic(env.subst)
  {
    match Unify(env.subst, a, b)
    case Err(e) => Err(e)
    case Ok(s) => Ok(env.(subst := s))
  }

  lemma {:induction false} UnifyInKeeps(env: Env, a: Ty, b: Ty)
    requires WellFormed(env) && Simple(a, env.next) && Simple(b, env.next)
    ensures var r := UnifyIn(env, a, b);
            r.Ok? ==> WellFormed(r.value) && r.value.next == env.next && Extends(env.subst, r.value.subst)
  {
    UnifyAcyclic(env.subst, a, b);
    ApplySimple(env, a);
    ApplySimple(env, b);
    ApplyResolves(env.subst, a);
    ApplyResolves(env.subst, b);
  }

  lemma {:induction false} ApplySimple(env: Env, t: Ty)
    requires WellFormed(env) && Simple(t, env.next)
    ensures Simple(Apply(env.subst, t), env.next)
    decreases Height(env.subst, t)
  {
    if t.Var? && t.v in env.subst {
      ApplyResolves(env.subst, t);
      ApplySimple(env, env.subst[t.v]);
    }
  }

  /** What an inference step keeps of the environment it started in. */
  ghost predicate Follows(env: Env, env': Env) {
    WellFormed(env') && env.next <= env'.next && Extends(env.subst, env'.subst)
  }

  function InferExpr(env: Env, e: Expr): (r: Result<(Ty, Env), TypeError>)
    requires WellFormed(env)
    ensures r.Ok? ==> Follows(env, r.value.1) && Simple(r.value.0, r.value.1.next)
    decreases e, 0
  {
    match e
    case Literal(BoolLit(_)) => Ok((TBool, env))
    case Literal(IntLit(_)) => Ok((TInt, env))
    case Literal(StrLit(_)) => Ok((TStr, env))
    case Path(_) => Ok((Unknown, env))
    case Unary(_, inner) =>
      (match InferExpr(env, inner)
       case Err(err) => Err(err)
       case Ok((t, env1)) => Expecting(env1, t, TBool, TBool))
    case Binary(op, l, r) =>
      (match InferExpr(env, l)
       case Err(err) => Err(err)
       case Ok((lt, env1)) =>
         match InferExpr(env1, r)
         case Err(err) => Err(err)
         case Ok((rt, env2)) => InferOperator(env2, op, lt, rt))
    case Membership(_, needle, haystack) =>
      (match InferExpr(env, needle)
       case Err(err) => Err(err)
       case Ok((_, env1)) =>
         match InferExpr(env1, haystack)
         case Err(err) => Err(err)
         case Ok((_, env2)) => Ok((TBool, env2)))
    case Call(name, args) =>
      match Named(name)
      case Some(f) =>
        var sig := SignatureOf(f);
        if |sig.params| != |args| then Err(BuiltinArity(name, |sig.params|, |args|))
        else
          (match InferArgs(env, args, Some(sig.params))
           case Err(err) => Err(err)
           case Ok(env1) => Ok((sig.ret, env1)))
      case None =>
        match InferArgs(env, args, None)
        case Err(err) => Err(err)
        case Ok(env1) => Ok((Var(env1.next), env1.(next := env1.next + 1)))
  }

  /** Unifies the inferred type with the expected one and gives the result type. */
  function Expecting(env: Env, t: Ty, expected: Ty, ret: Ty): (r: Result<(Ty, Env), TypeError>)
    requires WellFormed(env) && Simple(t, env.next) && Simple(expected, env.next) && Simple(ret, env.next)
    ensures r.Ok? ==> r.value.0 == ret && r.value.1.next == env.next && Follows(env, r.value.1)
  {
    UnifyInKeeps(env, t, expected);
    match UnifyIn(env, t, expected)
    case Err(err) => Err(err)
    case Ok(env1) => Ok((ret, env1))
  }

  function InferOperator(env: Env, op: BinOp, lt: Ty, rt: Ty): (r: Result<(Ty, Env), TypeError>)
    requires WellFormed(env) && Simple(lt, env.next) && Simple(rt, env.next)
    ensures r.Ok? ==> r.value.0 == TBool && Follows(env, r.value.1)
  {
    if op == Eq || op == Neq then
      Expecting(env, lt, rt, TBool)
    else
      var operand := if op == And || op == Or then TBool else TInt;
      match Expecting(env, lt, operand, TBool)
      case Err(err) => Err(err)
      case Ok((_, env1)) => Expecting(env1, rt, operand, TBool)
  }

  /** Arguments left to right, each unified with its parameter type if there is a signature. */
  function InferArgs(env: Env, args: seq<Expr>, params: Option<seq<Ty>>): (r: Result<Env, TypeError>)
    requires WellFormed(env)
    requires params.Some? ==> |params.value| == |args| && forall t :: t in params.value ==> Ground(t)
    ensures r.Ok? ==> Follows(env, r.value)
    decreases args, 0
  {
    if args == [] then Ok(env)
    else
      match InferExpr(env, args[0])
      case Err(err) => Err(err)
      case Ok((t, env1)) =>
        if params.None? then InferArgs(env1, args[1..], None)
        else
          assert Ground(params.value[0]);
          match Expecting(env1, t, params.value[0], TBool)
          case Err(err) => Err(err)
          case Ok((_, env2)) => InferArgs(env2, args[1..], Some(params.value[1..]))
  }

  /** A guard is inferred and unified with Bool; the error names the policy. */
  function InferGuard(env: Env, p: Policy): (r: Result<(Ty, Env), TypeError>)
    requires WellFormed(env)
    ensures r.Ok? ==> Follows(env, r.value.1)
  {
    match InferExpr(env, p.guard)
    case Err(err) => Err(err)
    case Ok((t, env1)) =>
      match Expecting(env1, t, TBool, t)
      case Ok((_, env2)) => Ok((Apply(env2.subst, t), env2))
      case Err(err) => Err(if err.Mismatch? then NonBoolWhen(p.name, err.actual) else err)
  }

  /** The types recorded for the guards, in declaration order, appended to acc. */
  function InferPolicies(env: Env, ps: seq<Policy>, acc: seq<Ty>): (r: Result<(seq<Ty>, Env), TypeError>)
    requires WellFormed(env)
    ensures r.Ok? ==> Follows(env, r.value.1)
    decreases |ps|
  {
    if ps == [] then Ok((acc, env))
    else
      match InferGuard(env, ps[0])
      case Err(err) => Err(err)
      case Ok((t, env1)) => InferPolicies(env1, ps[1..], acc + [t])
  }

  const EMPTY := Env(0, map[])

  lemma EmptyWellFormed()
    ensures WellFormed(EMPTY)
  {
    var rank: map<nat, nat> := map[];
    assert Ranks(map[], rank);
  }

  function InferProgram(prog: Program): (r: Result<(seq<Ty>, Env), TypeError>)
    ensures r.Ok? ==> WellFormed(r.value.1)
  {
    EmptyWellFormed();
    InferPolicies(EMPTY, prog.policies, [])
  }

  // ---- the type of an expression, by its shape ----

  /** Only paths are Unknown, and only calls of unknown builtins get a (still unbound) variable. */
  lemma InferShape(env: Env, e: Expr)
    requires WellFormed(env)
    ensures var r := InferExpr(env, e);
            r.Ok? ==>
              && (r.value.0 == Unknown <==> e.Path?)
              && (r.value.0.Var? <==> e.Call? && Named(e.name).None?)
              && (r.value.0.Var? ==> r.value.0.v !in r.value.1.subst)
  {
  }

  function RecordedType(p: Policy): Ty {
    if p.guard.Path? then Unknown else TBool
  }

  /** ts is acc followed by the recorded types of ps. */
  ghost predicate Recorded(ts: seq<Ty>, acc: seq<Ty>, ps: seq<Policy>) {
    && |ts| == |acc| + |ps|
    && ts[..|acc|] == acc
    && forall k :: 0 <= k < |ps| ==> ts[|acc| + k] == RecordedType(ps[k])
  }

  /** The recorded type of a guard is Bool, or Unknown exactly when the guard is a bare path. */
  lemma GuardType(env: Env, p: Policy)
    requires WellFormed(env)
    ensures var r := InferGuard(env, p);
            r.Ok? ==> r.value.0 == RecordedType(p)
    ensures p.guard.Path? ==> InferGuard(env, p).Ok? && InferGuard(env, p).value.0 == Unknown
  {
    var r := InferGuard(env, p);
    if r.Ok? {
      InferShape(env, p.guard);
      var (t, env1) := InferExpr(env, p.guard).value;
      UnifyUnifies(env1.subst, t, TBool);
    }
  }

  /** So every inferred `when` type is known from the syntax alone. */
  lemma {:induction false} WhenTypes(env: Env, ps: seq<Policy>, acc: seq<Ty>)
    requires WellFormed(env)
    ensures var r := InferPolicies(env, ps, acc);
            r.Ok? ==> Recorded(r.value.0, acc, ps)
    decreases |ps|
  {
    if ps != [] && InferGuard(env, ps[0]).Ok? {
      GuardType(env, ps[0]);
      var (t, env1) := InferGuard(env, ps[0]).value;
      WhenTypes(env1, ps[1..], acc + [t]);
      var r := InferPolicies(env, ps, acc);
      if r.Ok? {
        RecordedCons(r.value.0, acc, t, ps);
      }
    }
  }

  lemma {:induction false} RecordedCons(ts: seq<Ty>, acc: seq<Ty>, t: Ty, ps: seq<Policy>)
    requires ps != [] && t == RecordedType(ps[0])
    requires Recorded(ts, acc + [t], ps[1..])
    ensures Recorded(ts, acc, ps)
  {
    assert ts[..|acc|] == ts[..|acc| + 1][..|acc|];
    forall k | 0 <= k < |ps|
      ensures ts[|acc| + k] == RecordedType(ps[k])
    {
      if k > 0 {
        assert ps[k] == ps[1..][k - 1] && ts[|acc| + k] == ts[|acc| + 1 + (k - 1)];
      } else {
        assert ts[|acc|] == ts[..|acc| + 1][|acc|];
      }
    }
  }
}
