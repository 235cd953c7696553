/** The type checker's mutable environment, with its operations proved against Infer and Types. */
module TypeChecker {
  import opened Outcomes
  import opened Ast
  import opened Types
  import opened Infer
  import opened Builtins

  class TypeEnv {
    var nextVar: nat
    var subst: Subst
    var whenTypes: seq<Ty>

    function Now(): Env
      reads this
    {
      Env(nextVar, subst)
    }

    ghost predicate Valid()
      reads this
    {
      WellFormed(Now())
    }

    constructor ()
      ensures Valid() && Now() == EMPTY && whenTypes == []
    {
      nextVar, subst, whenTypes := 0, map[], [];
      new;
      EmptyWellFormed();
    }

    method Fresh() returns (t: Ty)
      requires Valid()
      modifies this`nextVar
      ensures Valid() && t == Var(old(nextVar)) && nextVar == old(nextVar) + 1
      ensures Apply(subst, t) == t
    {
      t := Var(nextVar);
      nextVar := nextVar + 1;
    }

    /** Binds at most one variable; a failed unification changes nothing. */
    method UnifyTypes(a: Ty, b: Ty) returns (r: Result<(), TypeError>)
      requires Acyclic(subst)
      modifies this`subst
      ensures match Unify(old(subst), a, b)
              case Ok(s) => r == Ok(()) && subst == s
              case Err(e) => r == Err(e) && subst == old(subst)
      ensures Acyclic(subst) && Extends(old(subst), subst)
      ensures r.Ok? ==> Compatible(Apply(subst, a), Apply(subst, b))
      decreases Depth(Apply(subst, a))
    {
      UnifyAcyclic(subst, a, b);
      UnifyUnifies(subst, a, b);
      var x, y := Apply(subst, a), Apply(subst, b);
      if x == Unknown || y == Unknown {
        return Ok(());
      }
      if x == y && (x == TBool || x == TInt || x == TStr) {
        return Ok(());
      }
      if x.TList? && y.TList? {
        ApplyIdempotent(subst, a);
        r := UnifyTypes(x.elem, y.elem);
        return;
      }
      if !x.Var? && !y.Var? {
        return Err(Mismatch(x, y));
      }
      var v, other := if x.Var? then x.v else y.v, if x.Var? then y else x;
      if other == Var(v) {
        return Ok(());
      }
      if OccursIn(subst, v, other) {
        return Err(OccursCheck(v));
      }
      subst := subst[v := other];
      return Ok(());
    }

    method Expect(t: Ty, expected: Ty) returns (r: Result<(), TypeError>)
      requires Valid() && Simple(t, nextVar) && Simple(expected, nextVar)
      modifies this`subst
      ensures Valid()
      ensures match UnifyIn(old(Now()), t, expected)
              case Ok(env) => r == Ok(()) && Now() == env
              case Err(e) => r == Err(e)
    {
      UnifyInKeeps(Now(), t, expected);
      r := UnifyTypes(t, expected);
    }

    method InferType(e: Expr) returns (r: Result<Ty, TypeError>)
      requires Valid()
      modifies this`nextVar, this`subst
      ensures Valid()
      ensures match InferExpr(old(Now()), e)
              case Ok((t, env)) => r == Ok(t) && Now() == env
              case Err(err) => r == Err(err)
      decreases e, 1
    {
      match e
      case Literal(BoolLit(_)) => return Ok(TBool);
      case Literal(IntLit(_)) => return Ok(TInt);
      case Literal(StrLit(_)) => return Ok(TStr);
      case Path(_) => return Ok(Unknown);
      case Unary(_, inner) =>
        r := InferType(inner);
        if r.Ok? {
          var u := Expect(r.value, TBool);
          r := if u.Ok? then Ok(TBool) else Err(u.error);
        }
      case Binary(op, l, right) =>
        r := InferType(l);
        if r.Ok? {
          var rt := InferType(right);
          if rt.Err? {
            return rt;
          }
          r := InferOperands(op, r.value, rt.value);
        }
      case Membership(_, needle, haystack) =>
        r := InferType(needle);
        if r.Ok? {
          r := InferType(haystack);
          if r.Ok? {
            r := Ok(TBool);
          }
        }
      case Call(_, _) =>
        r := InferCall(e);
    }

    method InferCall(e: Expr) returns (r: Result<Ty, TypeError>)
      requires Valid() && e.Call?
      modifies this`nextVar, this`subst
      ensures Valid()
      ensures match InferExpr(old(Now()), e)
              case Ok((t, env)) => r == Ok(t) && Now() == env
              case Err(err) => r == Err(err)
      decreases e, 0, 1
    {
      var name, args := e.name, e.args;
      var f := Named(name);
      var sig := if f.Some? then Some(SignatureOf(f.value)) else None;
      if sig.Some? && |sig.value.params| != |args| {
        return Err(BuiltinArity(name, |sig.value.params|, |args|));
      }
      var u := InferArguments(e, args, if sig.Some? then Some(sig.value.params) else None);
      if u.Err? {
        return Err(u.error);
      }
      if sig.Some? {
        return Ok(sig.value.ret);
      }
      var t := Fresh();
      return Ok(t);
    }

    method InferOperands(op: BinOp, lt: Ty, rt: Ty) returns (r: Result<Ty, TypeError>)
      requires Valid() && Simple(lt, nextVar) && Simple(rt, nextVar)
      modifies this`subst
      ensures Valid()
      ensures match InferOperator(old(Now()), op, lt, rt)
              case Ok((t, env)) => r == Ok(t) && Now() == env
              case Err(err) => r == Err(err)
    {
      if op == Eq || op == Neq {
        var u := Expect(lt, rt);
        return if u.Ok? then Ok(TBool) else Err(u.error);
      }
      var operand := if op == And || op == Or then TBool else TInt;
      var u := Expect(lt, operand);
      if u.Ok? {
        u := Expect(rt, operand);
      }
      return if u.Ok? then Ok(TBool) else Err(u.error);
    }

    method InferArguments(ghost call: Expr, args: seq<Expr>, params: Option<seq<Ty>>) returns (r: Result<(), TypeError>)
      requires Valid() && forall a :: a in args ==> a < call
      requires params.Some? ==> |params.value| == |args| && forall t :: t in params.value ==> Ground(t)
      modifies this`nextVar, this`subst
      ensures Valid()
      ensures match InferArgs(old(Now()), args, params)
              case Ok(env) => r == Ok(()) && Now() == env
              case Err(err) => r == Err(err)
      decreases call, 0, 0
    {
      var k := 0;
      assert args[0..] == args && (params.Some? ==> params.value[0..] == params.value);
      while k < |args|
        invariant 0 <= k <= |args| && Valid()
        invariant InferArgs(old(Now()), args, params) == InferArgs(Now(), args[k..], ParamsFrom(params, k))
      {
        assert args[k..][0] == args[k] && args[k..][1..] == args[k + 1..];
        assert args[k] in args;
        var t := InferType(args[k]);
        if t.Err? {
          return Err(t.error);
        }
        if params.Some? {
          assert params.value[k..][0] == params.value[k] && params.value[k..][1..] == params.value[k + 1..];
          assert Ground(params.value[k]);
          var u := Expect(t.value, params.value[k]);
          if u.Err? {
            return u;
          }
        }
        k := k + 1;
      }
      return Ok(());
    }

    method InferWhen(p: Policy) returns (r: Result<Ty, TypeError>)
      requires Valid()
      modifies this`nextVar, this`subst
      ensures Valid()
      ensures match InferGuard(old(Now()), p)
              case Ok((t, env)) => r == Ok(t) && Now() == env
              case Err(err) => r == Err(err)
    {
      r := InferType(p.guard);
      if r.Ok? {
        var u := Expect(r.value, TBool);
        if u.Err? {
          return Err(if u.error.Mismatch? then NonBoolWhen(p.name, u.error.actual) else u.error);
        }
        r := Ok(Apply(subst, r.value));
      }
    }
  }

  function ParamsFrom(params: Option<seq<Ty>>, k: nat): Option<seq<Ty>>
    requires params.Some? ==> k <= |params.value|
  {
    if params.Some? then Some(params.value[k..]) else None
  }

  /** Infers every guard; the recorded types are known from the guards' shapes alone. */
  method InferTypes(prog: Program) returns (r: Result<TypeEnv, TypeError>)
    ensures match InferProgram(prog)
            case Ok((ts, env)) =>
              && r.Ok? && r.value.Now() == env && r.value.whenTypes == ts
              && Recorded(ts, [], prog.policies)
            case Err(err) => r == Err(err)
  {
    var env := new TypeEnv();
    var k := 0;
    assert prog.policies[0..] == prog.policies;
    WhenTypes(EMPTY, prog.policies, []);
    while k < |prog.policies|
      invariant 0 <= k <= |prog.policies| && env.Valid()
      invariant InferPolicies(EMPTY, prog.policies, []) ==
                InferPolicies(env.Now(), prog.policies[k..], env.whenTypes)
    {
      assert prog.policies[k..][0] == prog.policies[k] && prog.policies[k..][1..] == prog.policies[k + 1..];
      var t := env.InferWhen(prog.policies[k]);
      if t.Err? {
        return Err(t.error);
      }
      env.whenTypes := env.whenTypes + [t.value];
      k := k + 1;
    }
    return Ok(env);
  }
}
