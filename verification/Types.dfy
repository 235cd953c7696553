/**
 Monotypes, substitutions and unification. A substitution is a finite map from type
 variables to types; `Apply` resolves a type through it, following chains of variables,
 and so is only defined on acyclic substitutions. `Unify` is shown to keep them acyclic.
 */
module Types {
  import opened Outcomes

  datatype Ty = TBool | TInt | TStr | Unknown | TList(elem: Ty) | Var(v: nat)

  type Subst = map<nat, Ty>

  datatype TypeError =
    | Mismatch(expected: Ty, actual: Ty)
    | OccursCheck(v: nat)
    | BuiltinArity(name: string, arity: nat, got: nat)
    | NonBoolWhen(policy: string, actual: Ty)

  /** A type is a stack of list constructors over one atom; this is the atom. */
  function Atom(t: Ty): Ty {
    if t.TList? then Atom(t.elem) else t
  }

  function Depth(t: Ty): nat {
    if t.TList? then 1 + Depth(t.elem) else 0
  }

  // ---- acyclic substitutions ----

  /** Every variable a binding mentions has a smaller rank than the bound variable. */
  ghost predicate Ranks(s: Subst, rank: map<nat, nat>) {
    && rank.Keys == s.Keys
    && forall v :: v in s && Atom(s[v]).Var? && Atom(s[v]).v in s ==> rank[Atom(s[v]).v] < rank[v]
  }

  ghost predicate Acyclic(s: Subst) {
    exists rank :: Ranks(s, rank)
  }

  ghost function TheRank(s: Subst): (rank: map<nat, nat>)
    requires Acyclic(s)
    ensures Ranks(s, rank)
  {
    var rank :| Ranks(s, rank);
    rank
  }

  /** How many bindings resolving t can still follow, at most. */
  ghost function Height(s: Subst, t: Ty): nat
    requires Acyclic(s)
  {
    if Atom(t).Var? && Atom(t).v in s then TheRank(s)[Atom(t).v] + 1 else 0
  }

  /** Resolves t fully. The inner test is the source's guard against a circular substitution. */
  function Apply(s: Subst, t: Ty): Ty
    requires Acyclic(s)
    decreases Height(s, t), t
  {
    match t
    case Var(v) =>
      if v in s then
        var resolved := Apply(s, s[v]);
        if resolved == Var(v) then Unknown else resolved
      else
        t
    case TList(e) => TList(Apply(s, e))
    case _ => t
  }

  predicate Resolved(s: Subst, t: Ty) {
    Atom(t).Var? ==> Atom(t).v !in s
  }

  /** Resolution leaves no bound variable, so the circularity guard never fires. */
  lemma {:induction false} ApplyResolves(s: Subst, t: Ty)
    requires Acyclic(s)
    ensures Resolved(s, Apply(s, t))
    ensures t.Var? && t.v in s ==> Apply(s, t) == Apply(s, s[t.v]) && Apply(s, s[t.v]) != t
    decreases Height(s, t), t
  {
    match t
    case Var(v) => if v in s { ApplyResolves(s, s[v]); }
    case TList(e) => ApplyResolves(s, e);
    case _ =>
  }

  lemma {:induction false} ApplyResolved(s: Subst, t: Ty)
    requires Acyclic(s) && Resolved(s, t)
    ensures Apply(s, t) == t
    decreases t
  {
    if t.TList? {
      ApplyResolved(s, t.elem);
    }
  }

  lemma {:induction false} ApplyIdempotent(s: Subst, t: Ty)
    requires Acyclic(s)
    ensures Apply(s, Apply(s, t)) == Apply(s, t)
  {
    ApplyResolves(s, t);
    ApplyResolved(s, Apply(s, t));
  }

  /** Resolving early or late makes no difference: a later substitution finishes the job. */
  lemma {:induction false} ApplyExtends(s: Subst, s': Subst, t: Ty)
    requires Acyclic(s) && Acyclic(s') && s.Keys <= s'.Keys && forall v :: v in s ==> s'[v] == s[v]
    ensures Apply(s', Apply(s, t)) == Apply(s', t)
    decreases Height(s, t), t
  {
    match t
    case Var(v) =>
      if v in s {
        ApplyResolves(s, t);
        ApplyResolves(s', t);
        ApplyExtends(s, s', s[v]);
      }
    case TList(e) => ApplyExtends(s, s', e);
    case _ =>
  }

  function OccursIn(s: Subst, v: nat, t: Ty): bool
    requires Acyclic(s)
    decreases Depth(Apply(s, t))
  {
    match Apply(s, t)
    case Var(w) => w == v
    case TList(inner) =>
      ApplyIdempotent(s, t);
      OccursIn(s, v, inner)
    case _ => false
  }

  /** The occurs check looks at exactly the atom of the resolved type. */
  lemma {:induction false} OccursInAtom(s: Subst, v: nat, t: Ty)
    requires Acyclic(s)
    ensures OccursIn(s, v, t) <==> Atom(Apply(s, t)) == Var(v)
    decreases Depth(Apply(s, t))
  {
    ApplyIdempotent(s, t);
    if Apply(s, t).TList? {
      OccursInAtom(s, v, Apply(s, t).elem);
    }
  }

  function Unify(s: Subst, a: Ty, b: Ty): (r: Result<Subst, TypeError>)
    requires Acyclic(s)
    decreases Depth(Apply(s, a))
  {
    var x, y := Apply(s, a), Apply(s, b);
    if x == Unknown || y == Unknown then Ok(s)
    else if x == y && !x.Var? && !x.TList? then Ok(s)
    else if x.TList? && y.TList? then
      ApplyIdempotent(s, a);
      Unify(s, x.elem, y.elem)
    else if x.Var? then Bind(s, x.v, y)
    else if y.Var? then Bind(s, y.v, x)
    else Err(Mismatch(x, y))
  }

  function Bind(s: Subst, v: nat, t: Ty): Result<Subst, TypeError>
    requires Acyclic(s)
  {
    if t == Var(v) then Ok(s)
    else if OccursIn(s, v, t) then Err(OccursCheck(v))
    else Ok(s[v := t])
  }

  // ---- unification keeps the substitution acyclic ----

  ghost predicate Extends(s: Subst, s': Subst) {
    s.Keys <= s'.Keys && forall v :: v in s ==> s'[v] == s[v]
  }

  /** Binding an unbound variable to a resolved type that does not mention it. */
  lemma {:induction false} BindAcyclic(s: Subst, v: nat, t: Ty)
    requires Acyclic(s) && v !in s && Resolved(s, t) && Atom(t) != Var(v)
    ensures Acyclic(s[v := t]) && Extends(s, s[v := t])
  {
    var rank := TheRank(s);
    var rank' := map w | w in s.Keys + {v} :: if w == v then 0 else rank[w] + 1;
    assert Ranks(s[v := t], rank');
  }

  lemma {:induction false} UnifyAcyclic(s: Subst, a: Ty, b: Ty)
    requires Acyclic(s)
    ensures var r := Unify(s, a, b); r.Ok? ==> Acyclic(r.value) && Extends(s, r.value)
    decreases Depth(Apply(s, a))
  {
    var x, y := Apply(s, a), Apply(s, b);
    ApplyResolves(s, a);
    ApplyResolves(s, b);
    ApplyIdempotent(s, a);
    ApplyIdempotent(s, b);
    if x.TList? && y.TList? {
      UnifyAcyclic(s, x.elem, y.elem);
    } else if x.Var? {
      OccursInAtom(s, x.v, y);
      if Unify(s, a, b).Ok? && y != x && y != Unknown {
        BindAcyclic(s, x.v, y);
      }
    } else if y.Var? {
      OccursInAtom(s, y.v, x);
      if Unify(s, a, b).Ok? && x != Unknown {
        BindAcyclic(s, y.v, x);
      }
    }
  }

  // ---- success makes the two types equal, up to Unknown ----

  /** Equal, except that an Unknown matches whatever stands opposite it. */
  predicate Compatible(a: Ty, b: Ty) {
    || a == Unknown || b == Unknown
    || (a.TList? && b.TList? && Compatible(a.elem, b.elem))
    || a == b
  }

  lemma {:induction false} UnifyUnifies(s: Subst, a: Ty, b: Ty)
    requires Acyclic(s)
    ensures var r := Unify(s, a, b);
            r.Ok? ==> Acyclic(r.value) && Compatible(Apply(r.value, a), Apply(r.value, b))
    decreases Depth(Apply(s, a))
  {
    var r := Unify(s, a, b);
    UnifyAcyclic(s, a, b);
    if r.Ok? {
      var s' := r.value;
      var x, y := Apply(s, a), Apply(s, b);
      ApplyExtends(s, s', a);
      ApplyExtends(s, s', b);
      ApplyIdempotent(s, a);
      if x.TList? && y.TList? {
        UnifyUnifies(s, x.elem, y.elem);
      } else if x.Var? && y != Unknown {
        ApplyResolves(s, b);
        BindUnifies(s, x.v, y);
      } else if y.Var? && x != Unknown {
        ApplyResolves(s, a);
        BindUnifies(s, y.v, x);
      }
    }
  }

  lemma {:induction false} BindUnifies(s: Subst, v: nat, t: Ty)
    requires Acyclic(s) && Resolved(s, t) && Bind(s, v, t).Ok? && Acyclic(Bind(s, v, t).value)
    ensures var s' := Bind(s, v, t).value;
            Compatible(Apply(s', Var(v)), Apply(s', t)) && Compatible(Apply(s', t), Apply(s', Var(v)))
  {
    if Bind(s, v, t).value != s {
      OccursInAtom(s, v, t);
      ApplyResolved(s, t);
      BoundTo(s, v, t);
    }
    CompatibleSelf(Apply(Bind(s, v, t).value, t));
  }

  lemma {:induction false} CompatibleSelf(t: Ty)
    ensures Compatible(t, t)
  {
  }

  lemma {:induction false} BoundTo(s: Subst, v: nat, t: Ty)
    requires Acyclic(s) && Resolved(s, t) && Acyclic(s[v := t]) && Atom(t) != Var(v)
    ensures Apply(s[v := t], Var(v)) == t && Apply(s[v := t], t) == t
  {
    ApplyResolved(s[v := t], t);
  }

  // ---- on Unknown-free types the result is most general ----

  predicate Known(t: Ty) {
    Atom(t) != Unknown
  }

  ghost predicate KnownSubst(s: Subst) {
    forall v :: v in s ==> Known(s[v])
  }

  /** A total assignment of types to variables, applied to t. */
  function Instance(theta: nat -> Ty, t: Ty): Ty {
    match t
    case Var(v) => theta(v)
    case TList(e) => TList(Instance(theta, e))
    case _ => t
  }

  /** theta satisfies every equation the substitution records. */
  ghost predicate Solves(theta: nat -> Ty, s: Subst) {
    forall v :: v in s ==> theta(v) == Instance(theta, s[v])
  }

  lemma {:induction false} InstanceApply(theta: nat -> Ty, s: Subst, t: Ty)
    requires Acyclic(s) && Solves(theta, s)
    ensures Instance(theta, Apply(s, t)) == Instance(theta, t)
    decreases Height(s, t), t
  {
    match t
    case Var(v) => if v in s { ApplyResolves(s, t); InstanceApply(theta, s, s[v]); }
    case TList(e) => InstanceApply(theta, s, e);
    case _ =>
  }

  lemma {:induction false} ApplyKnown(s: Subst, t: Ty)
    requires Acyclic(s) && KnownSubst(s) && Known(t)
    ensures Known(Apply(s, t))
    decreases Height(s, t), t
  {
    match t
    case Var(v) => if v in s { ApplyResolves(s, t); ApplyKnown(s, s[v]); }
    case TList(e) => ApplyKnown(s, e);
    case _ =>
  }

  lemma {:induction false} InstanceDepth(theta: nat -> Ty, t: Ty, v: nat)
    requires Atom(t) == Var(v)
    ensures Depth(Instance(theta, t)) == Depth(t) + Depth(theta(v))
  {
    if t.TList? {
      InstanceDepth(theta, t.elem, v);
    }
  }

  lemma {:induction false} ApplySettles(s: Subst, t: Ty, theta: nat -> Ty)
    requires Acyclic(s) && KnownSubst(s) && Known(t)
    ensures var x := Apply(s, t);
            && Known(x) && Resolved(s, x) && Apply(s, x) == x
            && (Solves(theta, s) ==> Instance(theta, x) == Instance(theta, t))
  {
    ApplyKnown(s, t);
    ApplyIdempotent(s, t);
    ApplyResolves(s, t);
    if Solves(theta, s) {
      InstanceApply(theta, s, t);
    }
  }

  /**
   Unification is sound, complete and most general: it succeeds exactly when some
   assignment solves the current substitution and equates a with b, and then the new
   substitution has exactly those assignments as its solutions.
   */
  lemma {:induction false} UnifyMostGeneral(s: Subst, a: Ty, b: Ty, theta: nat -> Ty)
    requires Acyclic(s) && KnownSubst(s) && Known(a) && Known(b)
    ensures var r := Unify(s, a, b);
            if r.Ok? then
              && KnownSubst(r.value)
              && (Solves(theta, r.value) <==> Solves(theta, s) && Instance(theta, a) == Instance(theta, b))
            else
              !(Solves(theta, s) && Instance(theta, a) == Instance(theta, b))
    decreases Depth(Apply(s, a))
  {
    var x, y := Apply(s, a), Apply(s, b);
    ApplySettles(s, a, theta);
    ApplySettles(s, b, theta);
    if x.TList? && y.TList? {
      UnifyMostGeneral(s, x.elem, y.elem, theta);
      UnifyAcyclic(s, x.elem, y.elem);
      SolvesShrinks(theta, s, Unify(s, x.elem, y.elem));
    } else if x.Var? {
      BindMostGeneral(theta, s, x.v, y);
    } else if y.Var? {
      BindMostGeneral(theta, s, y.v, x);
    }
  }

  lemma {:induction false} SolvesShrinks(theta: nat -> Ty, s: Subst, r: Result<Subst, TypeError>)
    requires r.Ok? ==> Extends(s, r.value)
    ensures r.Ok? && Solves(theta, r.value) ==> Solves(theta, s)
  {
  }

  lemma {:induction false} BindMostGeneral(theta: nat -> Ty, s: Subst, v: nat, t: Ty)
    requires Acyclic(s) && KnownSubst(s) && Known(t) && v !in s && Resolved(s, t)
    ensures var r := Bind(s, v, t);
            if r.Ok? then
              KnownSubst(r.value) && (Solves(theta, r.value) <==> Solves(theta, s) && theta(v) == Instance(theta, t))
            else
              theta(v) != Instance(theta, t)
  {
    var r := Bind(s, v, t);
    OccursInAtom(s, v, t);
    ApplyResolved(s, t);
    if t == Var(v) {
    } else if r.Ok? {
      if Solves(theta, s[v := t]) {
        assert s[v := t][v] == t;
        assert forall w :: w in s ==> s[v := t][w] == s[w];
      }
    } else {
      InstanceDepth(theta, t, v);
    }
  }
}
