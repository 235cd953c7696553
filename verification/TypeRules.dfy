/**
 The typing rules, without variables or substitutions: every expression has a kind that can be
 read off it, and type checking accepts exactly the programs all of whose nodes fit together.
 */
module TypeRules {
  import opened Outcomes
  import opened Ast
  import opened Trees
  import opened Types
  import opened Builtins
  import opened Infer

  // ---- kinds ----

  /** The kinds a function wants of its arguments, and the kind it returns. */
  datatype Rule = Rule(wants: seq<Ty>, gives: Ty)

  /** An unknown function has no rule: it takes anything. */
  function RuleOf(name: string): Option<Rule> {
    if name == "contains" then Some(Rule([TStr, TStr], TBool))
    else if name == "starts_with" then Some(Rule([TStr, TStr], TBool))
    else if name == "ends_with" then Some(Rule([TStr, TStr], TBool))
    else if name == "len" then Some(Rule([Unknown], TInt))
    else if name == "lower" then Some(Rule([TStr], TStr))
    else if name == "upper" then Some(Rule([TStr], TStr))
    else if name == "secret_ref" then Some(Rule([Unknown], TBool))
    else if name == "url_host" then Some(Rule([TStr], TStr))
    else if name == "timestamp" then Some(Rule([TStr], TInt))
    else if name == "sha256" then Some(Rule([TStr], TStr))
    else None
  }

  function Wants(name: string): Option<seq<Ty>> {
    if RuleOf(name).Some? then Some(RuleOf(name).value.wants) else None
  }

  /** Paths and calls of unknown functions can be anything: their kind is Unknown. */
  function KindOf(e: Expr): Ty {
    match e
    case Literal(StrLit(_)) => TStr
    case Literal(IntLit(_)) => TInt
    case Literal(BoolLit(_)) => TBool
    case Path(_) => Unknown
    case Call(name, _) => if RuleOf(name).Some? then RuleOf(name).value.gives else Unknown
    case _ => TBool
  }

  predicate Fits(a: Ty, b: Ty) {
    a == b || a == Unknown || b == Unknown
  }

  /** The operands of a node fit its operator or function. */
  predicate Fitting(e: Expr) {
    match e
    case Unary(_, inner) => Fits(KindOf(inner), TBool)
    case Binary(op, l, r) =>
      if op == Eq || op == Neq then Fits(KindOf(l), KindOf(r))
      else
        var operand := if op == And || op == Or then TBool else TInt;
        Fits(KindOf(l), operand) && Fits(KindOf(r), operand)
    case Call(name, args) =>
      var wants := Wants(name);
      wants.Some? ==>
        |wants.value| == |args| && forall k :: 0 <= k < |args| ==> Fits(KindOf(args[k]), wants.value[k])
    case _ => true
  }

  predicate WellTyped(e: Expr) {
    forall n :: n in Subterms(e) ==> Fitting(n)
  }

  // ---- constraints, in the order they are checked ----

  datatype Constraint = Agree(a: Ty, b: Ty) | Count(name: string, wanted: nat, got: nat)

  predicate Broken(c: Constraint) {
    match c
    case Agree(a, b) => !Fits(a, b)
    case Count(_, wanted, got) => wanted != got
  }

  const BROKEN: Constraint -> bool := (c: Constraint) => Broken(c)

  function ErrorOf(c: Constraint): TypeError {
    match c
    case Agree(a, b) => Mismatch(a, b)
    case Count(name, wanted, got) => BuiltinArity(name, wanted, got)
  }

  function Constraints(e: Expr): seq<Constraint>
    decreases e, 0
  {
    match e
    case Literal(_) => []
    case Path(_) => []
    case Unary(_, inner) => Constraints(inner) + [Agree(KindOf(inner), TBool)]
    case Binary(op, l, r) => Constraints(l) + Constraints(r) + OperatorConstraints(op, KindOf(l), KindOf(r))
    case Membership(_, n, hs) => Constraints(n) + Constraints(hs)
    case Call(name, args) =>
      match Wants(name)
      case None => ArgConstraints(args, None)
      case Some(wants) =>
        [Count(name, |wants|, |args|)] + (if |wants| == |args| then ArgConstraints(args, Some(wants)) else [])
  }

  function OperatorConstraints(op: BinOp, l: Ty, r: Ty): seq<Constraint> {
    if op == Eq || op == Neq then [Agree(l, r)]
    else
      var operand := if op == And || op == Or then TBool else TInt;
      [Agree(l, operand)] + [Agree(r, operand)]
  }

  function ArgConstraints(args: seq<Expr>, wants: Option<seq<Ty>>): seq<Constraint>
    requires wants.Some? ==> |wants.value| == |args|
    decreases args, 0
  {
    if args == [] then []
    else if wants.None? then Constraints(args[0]) + ArgConstraints(args[1..], None)
    else Constraints(args[0]) + [Agree(KindOf(args[0]), wants.value[0])] + ArgConstraints(args[1..], Some(wants.value[1..]))
  }

  // ---- inference solves the constraints ----

  /** An inferred type of this kind: itself, or, for Unknown, perhaps a variable nothing is known of. */
  ghost predicate Represents(env: Env, since: nat, t: Ty, kind: Ty) {
    if t.Var? then kind == Unknown && since <= t.v < env.next && t.v !in env.subst
    else t == kind && Ground(t)
  }

  /** Only variables handed out since have been bound. */
  ghost predicate BindsOnlySince(env: Env, since: nat, env': Env) {
    forall v :: v in env'.subst ==> v in env.subst || since <= v
  }

  lemma {:induction false} ApplyFree(env: Env, t: Ty)
    requires WellFormed(env) && (t.Var? ==> t.v !in env.subst) && !t.TList?
    ensures Apply(env.subst, t) == t
  {
  }

  /** Unifying two inferred types succeeds exactly when their kinds fit, and binds at most the types themselves. */
  lemma {:induction false} UnifyKinds(env: Env, since: nat, t: Ty, k: Ty, u: Ty, m: Ty)
    requires WellFormed(env) && Represents(env, since, t, k) && Represents(env, since, u, m)
    ensures var r := UnifyIn(env, t, u);
            if Fits(k, m) then
              r.Ok? && (forall v :: v in r.value.subst ==> v in env.subst || t == Var(v) || u == Var(v))
            else r == Err(Mismatch(k, m))
  {
    ApplyFree(env, t);
    ApplyFree(env, u);
    if t.Var? && u.Var? {
      OccursInAtom(env.subst, t.v, u);
    } else if t.Var? {
      OccursInAtom(env.subst, t.v, u);
    } else if u.Var? {
      OccursInAtom(env.subst, u.v, t);
    }
  }

  lemma {:induction false} ExpectKind(env: Env, since: nat, t: Ty, k: Ty, u: Ty, m: Ty, ret: Ty)
    requires WellFormed(env) && Represents(env, since, t, k) && Represents(env, since, u, m)
    requires Simple(ret, env.next)
    ensures var r := Expecting(env, t, u, ret);
            if Fits(k, m) then
              && r.Ok? && r.value.0 == ret && r.value.1.next == env.next && BindsOnlySince(env, since, r.value.1)
              && (forall v :: v in r.value.1.subst ==> v in env.subst || t == Var(v) || u == Var(v))
            else r == Err(Mismatch(k, m))
  {
    UnifyKinds(env, since, t, k, u, m);
  }

  /** What inference makes of e: a type of its kind, or the error of its first broken constraint. */
  ghost predicate Solved(env: Env, e: Expr, r: Result<(Ty, Env), TypeError>)
    requires WellFormed(env)
  {
    match First(Constraints(e), BROKEN)
    case Some(c) => r == Err(ErrorOf(c))
    case None =>
      && r.Ok? && Follows(env, r.value.1)
      && Represents(r.value.1, env.next, r.value.0, KindOf(e)) && BindsOnlySince(env, env.next, r.value.1)
  }

  lemma {:induction false} InferSolves(env: Env, e: Expr)
    requires WellFormed(env)
    ensures Solved(env, e, InferExpr(env, e))
    decreases e, 1
  {
    match e
    case Unary(_, inner) => UnarySolves(env, e);
    case Binary(_, _, _) => BinarySolves(env, e);
    case Membership(_, n, hs) =>
      InferSolves(env, n);
      FirstAppend(Constraints(n), Constraints(hs), BROKEN);
      if InferExpr(env, n).Ok? {
        InferSolves(InferExpr(env, n).value.1, hs);
      }
    case Call(_, _) => CallSolves(env, e);
    case _ =>
  }

  lemma {:induction false} UnarySolves(env: Env, e: Expr)
    requires WellFormed(env) && e.Unary?
    ensures Solved(env, e, InferExpr(env, e))
    decreases e, 0
  {
    var c := Agree(KindOf(e.inner), TBool);
    InferSolves(env, e.inner);
    FirstAppend(Constraints(e.inner), [c], BROKEN);
    FirstOne(c, BROKEN);
    if InferExpr(env, e.inner).Ok? {
      var (t, env1) := InferExpr(env, e.inner).value;
      ExpectKind(env1, env.next, t, KindOf(e.inner), TBool, TBool, TBool);
    }
  }

  lemma {:induction false} BinarySolves(env: Env, e: Expr)
    requires WellFormed(env) && e.Binary?
    ensures Solved(env, e, InferExpr(env, e))
    decreases e, 0
  {
    var k, m := KindOf(e.left), KindOf(e.right);
    InferSolves(env, e.left);
    FirstAppend(Constraints(e.left), Constraints(e.right), BROKEN);
    FirstAppend(Constraints(e.left) + Constraints(e.right), OperatorConstraints(e.op, k, m), BROKEN);
    if InferExpr(env, e.left).Ok? {
      var (lt, env1) := InferExpr(env, e.left).value;
      InferSolves(env1, e.right);
      if InferExpr(env1, e.right).Ok? {
        var (rt, env2) := InferExpr(env1, e.right).value;
        OperatorSolves(env2, env.next, e.op, lt, k, rt, m);
      }
    }
  }

  lemma {:induction false} OperatorSolves(env: Env, since: nat, op: BinOp, lt: Ty, k: Ty, rt: Ty, m: Ty)
    requires WellFormed(env) && Represents(env, since, lt, k) && Represents(env, since, rt, m)
    requires lt.Var? && rt.Var? ==> lt != rt
    ensures var r := InferOperator(env, op, lt, rt);
            match First(OperatorConstraints(op, k, m), BROKEN)
            case Some(c) => r == Err(ErrorOf(c))
            case None => r.Ok? && r.value.1.next == env.next && BindsOnlySince(env, since, r.value.1)
  {
    if op == Eq || op == Neq {
      ExpectKind(env, since, lt, k, rt, m, TBool);
      FirstOne(Agree(k, m), BROKEN);
    } else {
      var operand := if op == And || op == Or then TBool else TInt;
      FirstOne(Agree(k, operand), BROKEN);
      FirstOne(Agree(m, operand), BROKEN);
      FirstAppend([Agree(k, operand)], [Agree(m, operand)], BROKEN);
      ExpectKind(env, since, lt, k, operand, operand, TBool);
      if Fits(k, operand) {
        ExpectKind(Expecting(env, lt, operand, TBool).value.1, since, rt, m, operand, operand, TBool);
      }
    }
  }

  /** The table of signatures says the same as the rules. */
  lemma {:induction false} SignatureRules(name: string)
    ensures RuleOf(name) == if Named(name).Some? then Some(RuleFor(Named(name).value)) else None
  {
    NamedExactly(name);
  }

  /** The rule a signature stands for. */
  function RuleFor(f: Fn): Rule {
    Rule(SignatureOf(f).params, SignatureOf(f).ret)
  }

  lemma {:induction false} CallSolves(env: Env, e: Expr)
    requires WellFormed(env) && e.Call?
    ensures Solved(env, e, InferExpr(env, e))
    decreases e, 0
  {
    SignatureRules(e.name);
    if Named(e.name).None? {
      ArgsSolve(env, e, e.args, None);
    } else {
      var wants := Wants(e.name).value;
      var c := Count(e.name, |wants|, |e.args|);
      FirstOne(c, BROKEN);
      if |wants| == |e.args| {
        ArgsSolve(env, e, e.args, Some(wants));
        FirstAppend([c], ArgConstraints(e.args, Some(wants)), BROKEN);
      } else {
        FirstAppend([c], [], BROKEN);
      }
    }
  }

  lemma {:induction false} ArgsSolve(env: Env, call: Expr, args: seq<Expr>, wants: Option<seq<Ty>>)
    requires WellFormed(env) && forall a :: a in args ==> a < call
    requires wants.Some? ==> |wants.value| == |args| && forall t :: t in wants.value ==> Ground(t)
    ensures var r := InferArgs(env, args, wants);
            match First(ArgConstraints(args, wants), BROKEN)
            case Some(c) => r == Err(ErrorOf(c))
            case None => r.Ok? && BindsOnlySince(env, env.next, r.value)
    decreases call, 0, |args|
  {
    if args != [] {
      assert args[0] in args && forall a :: a in args[1..] ==> a in args;
      InferSolves(env, args[0]);
      ArgsSplit(args, wants);
      if InferExpr(env, args[0]).Ok? {
        var (t, env1) := InferExpr(env, args[0]).value;
        if wants.None? {
          ArgsSolve(env1, call, args[1..], None);
        } else {
          var want := wants.value[0];
          assert Ground(want);
          FirstOne(Agree(KindOf(args[0]), want), BROKEN);
          ExpectKind(env1, env.next, t, KindOf(args[0]), want, want, TBool);
          if Fits(KindOf(args[0]), want) {
            ArgsSolve(Expecting(env1, t, want, TBool).value.1, call, args[1..], Some(wants.value[1..]));
          }
        }
      }
    }
  }

  lemma {:induction false} ArgsSplit(args: seq<Expr>, wants: Option<seq<Ty>>)
    requires args != [] && (wants.Some? ==> |wants.value| == |args|)
    ensures var first := First(Constraints(args[0]), BROKEN);
            First(ArgConstraints(args, wants), BROKEN) ==
            if first.Some? then first
            else if wants.None? then First(ArgConstraints(args[1..], None), BROKEN)
            else
              var c := Agree(KindOf(args[0]), wants.value[0]);
              if Broken(c) then Some(c) else First(ArgConstraints(args[1..], Some(wants.value[1..])), BROKEN)
  {
    if wants.None? {
      FirstAppend(Constraints(args[0]), ArgConstraints(args[1..], None), BROKEN);
    } else {
      var c := Agree(KindOf(args[0]), wants.value[0]);
      var rest := ArgConstraints(args[1..], Some(wants.value[1..]));
      FirstOne(c, BROKEN);
      FirstAppend(Constraints(args[0]), [c], BROKEN);
      FirstAppend(Constraints(args[0]) + [c], rest, BROKEN);
    }
  }

  // ---- the constraints hold exactly when every node fits ----

  predicate AllKept(cs: seq<Constraint>) {
    forall c :: c in cs ==> !Broken(c)
  }

  lemma {:induction false} KeptParts(a: seq<Constraint>, b: seq<Constraint>)
    ensures AllKept(a + b) <==> AllKept(a) && AllKept(b)
  {
    assert forall c :: c in a || c in b <==> c in a + b;
  }

  lemma {:induction false} NodeParts(first: Expr, rest: seq<Expr>)
    ensures (forall n :: n in [first] + rest ==> Fitting(n)) <==> Fitting(first) && forall n :: n in rest ==> Fitting(n)
  {
    assert forall n :: n in [first] + rest <==> n == first || n in rest;
  }

  lemma {:induction false} ConstraintsExactly(e: Expr)
    ensures AllKept(Constraints(e)) <==> WellTyped(e)
    decreases e, 1
  {
    match e
    case Unary(_, inner) =>
      ConstraintsExactly(inner);
      var c := Agree(KindOf(inner), TBool);
      assert c in [c];
      KeptParts(Constraints(inner), [c]);
      NodeParts(e, Subterms(inner));
    case Binary(op, l, r) =>
      ConstraintsExactly(l);
      ConstraintsExactly(r);
      KeptParts(Constraints(l), Constraints(r));
      KeptParts(Constraints(l) + Constraints(r), OperatorConstraints(op, KindOf(l), KindOf(r)));
      OperatorKept(op, KindOf(l), KindOf(r));
      NodeParts(e, Subterms(l) + Subterms(r));
      assert forall n :: n in Subterms(l) + Subterms(r) <==> n in Subterms(l) || n in Subterms(r);
    case Membership(_, n, hs) =>
      ConstraintsExactly(n);
      ConstraintsExactly(hs);
      KeptParts(Constraints(n), Constraints(hs));
      NodeParts(e, Subterms(n) + Subterms(hs));
      assert forall m :: m in Subterms(n) + Subterms(hs) <==> m in Subterms(n) || m in Subterms(hs);
    case Call(_, args) =>
      CallConstraintsExactly(e);
    case _ =>
  }

  lemma {:induction false} OperatorKept(op: BinOp, k: Ty, m: Ty)
    ensures AllKept(OperatorConstraints(op, k, m)) <==>
            if op == Eq || op == Neq then Fits(k, m)
            else
              var operand := if op == And || op == Or then TBool else TInt;
              Fits(k, operand) && Fits(m, operand)
  {
    if op == Eq || op == Neq {
      assert Agree(k, m) in OperatorConstraints(op, k, m);
    } else {
      var operand := if op == And || op == Or then TBool else TInt;
      var cs := [Agree(k, operand)] + [Agree(m, operand)];
      assert Agree(k, operand) in cs && Agree(m, operand) in cs;
    }
  }

  lemma {:induction false} CallConstraintsExactly(e: Expr)
    requires e.Call?
    ensures AllKept(Constraints(e)) <==> WellTyped(e)
    decreases e, 0
  {
    var wants := Wants(e.name);
    NodeParts(e, ArgsSubterms(e.args));
    if wants.None? {
      ArgConstraintsExactly(e, e.args, None);
    } else {
      var c := Count(e.name, |wants.value|, |e.args|);
      assert Broken(c) <==> |wants.value| != |e.args|;
      assert c in Constraints(e);
      if |wants.value| == |e.args| {
        KeptParts([c], ArgConstraints(e.args, wants));
        ArgConstraintsExactly(e, e.args, wants);
      }
    }
  }

  lemma {:induction false} ArgConstraintsExactly(call: Expr, args: seq<Expr>, wants: Option<seq<Ty>>)
    requires forall a :: a in args ==> a < call
    requires wants.Some? ==> |wants.value| == |args|
    ensures AllKept(ArgConstraints(args, wants)) <==>
            && (forall n :: n in ArgsSubterms(args) ==> Fitting(n))
            && (wants.Some? ==> forall k :: 0 <= k < |args| ==> Fits(KindOf(args[k]), wants.value[k]))
    decreases call, 0, |args|
  {
    if args != [] {
      assert args[0] in args && forall a :: a in args[1..] ==> a in args;
      ConstraintsExactly(args[0]);
      assert forall n :: n in ArgsSubterms(args) <==> n in Subterms(args[0]) || n in ArgsSubterms(args[1..]);
      if wants.None? {
        ArgConstraintsExactly(call, args[1..], None);
        KeptParts(Constraints(args[0]), ArgConstraints(args[1..], None));
      } else {
        var c := Agree(KindOf(args[0]), wants.value[0]);
        var rest := Some(wants.value[1..]);
        ArgConstraintsExactly(call, args[1..], rest);
        assert c in [c];
        KeptParts(Constraints(args[0]), [c]);
        KeptParts(Constraints(args[0]) + [c], ArgConstraints(args[1..], rest));
        FitsInTurn(args, wants.value);
      }
    }
  }

  lemma {:induction false} FitsInTurn(args: seq<Expr>, wants: seq<Ty>)
    requires args != [] && |args| == |wants|
    ensures (forall k :: 0 <= k < |args| ==> Fits(KindOf(args[k]), wants[k])) <==>
            && Fits(KindOf(args[0]), wants[0])
            && forall k :: 0 <= k < |args[1..]| ==> Fits(KindOf(args[1..][k]), wants[1..][k])
  {
    assert forall k :: 1 <= k < |args| ==> args[k] == args[1..][k - 1] && wants[k] == wants[1..][k - 1];
  }

  // ---- what type checking accepts ----

  /** Inference of e succeeds exactly when all its nodes fit; otherwise it reports its first broken constraint. */
  lemma {:induction false} InferExactly(env: Env, e: Expr)
    requires WellFormed(env)
    ensures InferExpr(env, e).Ok? <==> WellTyped(e)
    ensures InferExpr(env, e).Err? ==>
              exists k: nat :: FirstAt(Constraints(e), BROKEN, k) && InferExpr(env, e).error == ErrorOf(Constraints(e)[k])
  {
    InferSolves(env, e);
    ConstraintsExactly(e);
    FirstMeans(Constraints(e), BROKEN);
  }

  /** The guard fits together, and can be a Bool. */
  predicate GuardTyped(p: Policy) {
    WellTyped(p.guard) && Fits(KindOf(p.guard), TBool)
  }

  /** What is reported of a guard that is not typed; a guard of another kind is always said to be a Bool. */
  ghost predicate ReportsGuard(err: TypeError, p: Policy) {
    if WellTyped(p.guard) then err == NonBoolWhen(p.name, TBool)
    else
      var cs := Constraints(p.guard);
      exists k: nat :: FirstAt(cs, BROKEN, k) && err == ErrorOf(cs[k])
  }

  lemma {:induction false} GuardExactly(env: Env, p: Policy)
    requires WellFormed(env)
    ensures var r := InferGuard(env, p);
            (r.Ok? <==> GuardTyped(p)) && (r.Err? ==> ReportsGuard(r.error, p))
  {
    InferExactly(env, p.guard);
    InferSolves(env, p.guard);
    if InferExpr(env, p.guard).Ok? {
      var (t, env1) := InferExpr(env, p.guard).value;
      FirstMeans(Constraints(p.guard), BROKEN);
      ExpectKind(env1, env.next, t, KindOf(p.guard), TBool, TBool, t);
    }
  }

  /** The verdict on guards in order: all typed, or the first that is not, reported. */
  ghost predicate Checked<T>(ps: seq<Policy>, r: Result<T, TypeError>) {
    match r
    case Ok(_) => forall k :: 0 <= k < |ps| ==> GuardTyped(ps[k])
    case Err(err) => exists k: nat :: FirstUntyped(ps, k) && ReportsGuard(err, ps[k])
  }

  ghost predicate FirstUntyped(ps: seq<Policy>, k: nat) {
    k < |ps| && !GuardTyped(ps[k]) && forall j :: 0 <= j < k ==> GuardTyped(ps[j])
  }

  lemma {:induction false} CheckedCons<T>(ps: seq<Policy>, r: Result<T, TypeError>)
    requires ps != [] && GuardTyped(ps[0]) && Checked(ps[1..], r)
    ensures Checked(ps, r)
  {
    assert forall k :: 1 <= k < |ps| ==> ps[k] == ps[1..][k - 1];
    if r.Err? {
      var k: nat :| FirstUntyped(ps[1..], k) && ReportsGuard(r.error, ps[1..][k]);
      assert FirstUntyped(ps, k + 1);
    }
  }

  lemma {:induction false} PoliciesExactly(env: Env, ps: seq<Policy>, acc: seq<Ty>)
    requires WellFormed(env)
    ensures Checked(ps, InferPolicies(env, ps, acc))
    decreases |ps|
  {
    if ps != [] {
      GuardExactly(env, ps[0]);
      if GuardTyped(ps[0]) {
        var (t, env1) := InferGuard(env, ps[0]).value;
        PoliciesExactly(env1, ps[1..], acc + [t]);
        CheckedCons(ps, InferPolicies(env, ps, acc));
      } else {
        assert FirstUntyped(ps, 0);
      }
    }
  }

  /** A program passes exactly when every guard is typed; otherwise the first that is not is reported. */
  lemma {:induction false} ProgramExactly(prog: Program)
    ensures Checked(prog.policies, InferProgram(prog))
    ensures InferProgram(prog).Ok? <==> forall k :: 0 <= k < |prog.policies| ==> GuardTyped(prog.policies[k])
  {
    EmptyWellFormed();
    PoliciesExactly(EMPTY, prog.policies, []);
  }
}
