/**
 The budgeted tree-walk evaluator. Every node visit is charged to a shared counter that
 is updated in place; the methods are proved against the unbudgeted meaning and step
 count of Eval, so the budget can only cut evaluation off, never change its outcome.
 */
module Evaluator {
  import opened Outcomes
  import opened Ast
  import opened Values
  import opened Eval
  import opened Builtins

  const DEFAULT_STEPS: nat := 10_000

  datatype RunError = Failed(error: EvalError) | BudgetExhausted(steps: nat)

  datatype Meter = Meter(remaining: nat, total: nat)

  function Lift<T>(r: Result<T, EvalError>): Result<T, RunError> {
    match r
    case Ok(v) => Ok(v)
    case Err(e) => Err(Failed(e))
  }

  /** Charging `steps` visits to m before an outcome is reached. */
  function Charge<T>(m: Meter, steps: nat, outcome: Result<T, EvalError>): (Result<T, RunError>, Meter) {
    if steps <= m.remaining then
      (Lift(outcome), Meter(m.remaining - steps, m.total + steps))
    else
      (Err(BudgetExhausted(m.total + m.remaining)), Meter(0, m.total + m.remaining))
  }

  function Metered(h: Host, e: Expr, root: Json, m: Meter): (Result<Value, RunError>, Meter) {
    Charge(m, Steps(h, e, root), Meaning(h, e, root))
  }

  /** Argument values vs found so far, followed by what the remaining arguments give. */
  function Prepend(vs: seq<Value>, r: Result<seq<Value>, EvalError>): Result<seq<Value>, EvalError> {
    match r
    case Ok(ws) => Ok(vs + ws)
    case Err(e) => Err(e)
  }

  class EvalBudget {
    var remaining: nat
    var total: nat

    constructor (maxSteps: nat)
      ensures Now() == Meter(maxSteps, 0)
    {
      remaining, total := maxSteps, 0;
    }

    function Now(): Meter
      reads this
    {
      Meter(remaining, total)
    }

    method Tick() returns (r: Result<(), RunError>)
      modifies this
      ensures (r, Now()) == Charge(old(Now()), 1, Ok(()))
    {
      if remaining == 0 {
        return Err(BudgetExhausted(total));
      }
      remaining := remaining - 1;
      total := total + 1;
      return Ok(());
    }
  }

  /** Charges one visit, then evaluates the node. */
  method Visit(h: Host, e: Expr, root: Json, budget: EvalBudget) returns (r: Result<Value, RunError>)
    modifies budget
    ensures (r, budget.Now()) == Metered(h, e, root, old(budget.Now()))
    decreases e, 3
  {
    var tick := budget.Tick();
    if tick.Err? {
      return Err(tick.error);
    }
    r := EvalNode(h, e, root, budget);
  }

  /** Evaluation of a node whose visit has been charged. */
  method EvalNode(h: Host, e: Expr, root: Json, budget: EvalBudget) returns (r: Result<Value, RunError>)
    modifies budget
    ensures (r, budget.Now()) == Charge(old(budget.Now()), Steps(h, e, root) - 1, Meaning(h, e, root))
    decreases e, 2
  {
    match e
    case Literal(StrLit(s)) => return Ok(VStr(s));
    case Literal(IntLit(n)) => return Ok(VInt(n));
    case Literal(BoolLit(b)) => return Ok(VBool(b));
    case Path(segs) =>
      var j := WalkPath(root, segs);
      return Ok(JsonToValue(j));
    case Unary(_, inner) =>
      r := Visit(h, inner, root, budget);
      if r.Ok? {
        r := Ok(VBool(!Truthy(r.value)));
      }
    case Binary(_, _, _) => r := EvalBinop(h, e, root, budget);
    case Membership(_, _, _) => r := EvalMembership(h, e, root, budget);
    case Call(_, _) => r := EvalBuiltin(h, e, root, budget);
  }

  method EvalMembership(h: Host, e: Expr, root: Json, budget: EvalBudget) returns (r: Result<Value, RunError>)
    requires e.Membership?
    modifies budget
    ensures var n, hs := Meaning(h, e.needle, root), Meaning(h, e.haystack, root);
            (r, budget.Now()) ==
            Charge(old(budget.Now()), MembershipSteps(n, Steps(h, e.needle, root), Steps(h, e.haystack, root)),
                   MembershipOutcome(e.negated, n, hs))
    decreases e, 1
  {
    var n := Visit(h, e.needle, root, budget);
    if n.Err? {
      return n;
    }
    var hs := Visit(h, e.haystack, root, budget);
    if hs.Err? {
      return hs;
    }
    return Lift(Contains(e.negated, n.value, hs.value));
  }

  method EvalBinop(h: Host, e: Expr, root: Json, budget: EvalBudget) returns (r: Result<Value, RunError>)
    requires e.Binary?
    modifies budget
    ensures var lv, rv := Meaning(h, e.left, root), Meaning(h, e.right, root);
            (r, budget.Now()) ==
            Charge(old(budget.Now()), BinarySteps(e.op, lv, Steps(h, e.left, root), Steps(h, e.right, root)),
                   BinaryOutcome(h, e.op, lv, rv))
    decreases e, 1
  {
    var lv := Visit(h, e.left, root, budget);
    if lv.Err? {
      return lv;
    }
    if e.op == And && !Truthy(lv.value) {
      return Ok(VBool(false));
    }
    if e.op == Or && Truthy(lv.value) {
      return Ok(VBool(true));
    }
    var rv := Visit(h, e.right, root, budget);
    if rv.Err? {
      return rv;
    }
    return Lift(Combine(h, e.op, lv.value, rv.value));
  }

  method EvalBuiltin(h: Host, e: Expr, root: Json, budget: EvalBudget) returns (r: Result<Value, RunError>)
    requires e.Call?
    modifies budget
    ensures (r, budget.Now()) == Charge(old(budget.Now()), CallSteps(h, e, root), CallMeaning(h, e, root))
    decreases e, 1
  {
    if Named(e.name) == Some(FnSecretRef) {
      if |e.args| != 1 {
        return Err(Failed(EvalError("secret_ref takes 1 arg")));
      }
      var raw := ResolveJson(h, e.args[0], root, budget);
      if raw.Err? {
        return Err(raw.error);
      }
      return Ok(VBool(HasSecret(h, raw.value)));
    }
    var vs := EvalArguments(h, e, root, budget);
    if vs.Err? {
      return Err(vs.error);
    }
    return Lift(BuiltinOutcome(h, Named(e.name), Ok(vs.value)));
  }

  method EvalArguments(h: Host, e: Expr, root: Json, budget: EvalBudget) returns (r: Result<seq<Value>, RunError>)
    requires e.Call?
    modifies budget
    ensures (r, budget.Now()) ==
            Charge(old(budget.Now()), ArgumentSteps(h, e.args, root), ArgumentMeanings(h, e.args, root))
    decreases e, 0
  {
    var args := e.args;
    var vs: seq<Value> := [];
    var k := 0;
    assert args[0..] == args;
    PrependNone(ArgumentMeanings(h, args, root));
    while k < |args|
      invariant 0 <= k <= |args|
      invariant Charge(old(budget.Now()), ArgumentSteps(h, args, root), ArgumentMeanings(h, args, root)) ==
                RestOfArguments(h, args[k..], root, budget.Now(), vs)
    {
      assert args[k..][0] == args[k] && args[k..][1..] == args[k + 1..];
      RestStep(h, args[k..], root, budget.Now(), vs);
      var v := Visit(h, args[k], root, budget);
      if v.Err? {
        return Err(v.error);
      }
      vs := vs + [v.value];
      k := k + 1;
    }
    assert vs + [] == vs;
    return Ok(vs);
  }

  /** Evaluating the remaining arguments from meter m, after the values vs. */
  function RestOfArguments(h: Host, rest: seq<Expr>, root: Json, m: Meter, vs: seq<Value>)
    : (Result<seq<Value>, RunError>, Meter)
  {
    Charge(m, ArgumentSteps(h, rest, root), Prepend(vs, ArgumentMeanings(h, rest, root)))
  }

  lemma {:induction false} PrependNone(r: Result<seq<Value>, EvalError>)
    ensures Prepend([], r) == r
  {
    if r.Ok? {
      assert [] + r.value == r.value;
    }
  }

  lemma {:induction false} RestStep(h: Host, rest: seq<Expr>, root: Json, m: Meter, vs: seq<Value>)
    requires rest != []
    ensures var (v, m') := Metered(h, rest[0], root, m);
            RestOfArguments(h, rest, root, m, vs) ==
            if v.Ok? then RestOfArguments(h, rest[1..], root, m', vs + [v.value]) else (Err(v.error), m')
  {
    var v, r := Meaning(h, rest[0], root), ArgumentMeanings(h, rest[1..], root);
    if v.Ok? && r.Ok? {
      assert vs + ([v.value] + r.value) == vs + [v.value] + r.value;
    }
  }

  method ResolveJson(h: Host, e: Expr, root: Json, budget: EvalBudget) returns (r: Result<Json, RunError>)
    modifies budget
    ensures (r, budget.Now()) == Charge(old(budget.Now()), Steps(h, e, root), SubtreeMeaning(h, e, root))
    decreases e, 4
  {
    if e.Path? {
      var tick := budget.Tick();
      if tick.Err? {
        return Err(tick.error);
      }
      var j := WalkPath(root, e.segs);
      return Ok(j);
    }
    var v := Visit(h, e, root, budget);
    if v.Err? {
      return Err(v.error);
    }
    return Ok(ValueToJson(v.value));
  }

  method WalkPath(root: Json, segs: seq<string>) returns (j: Json)
    ensures j == Walk(root, segs)
  {
    j := root;
    assert segs[0..] == segs;
    for k := 0 to |segs|
      invariant Walk(j, segs[k..]) == Walk(root, segs)
    {
      assert segs[k..][0] == segs[k] && segs[k..][1..] == segs[k + 1..];
      if j.JObject? && segs[k] in j.fields {
        j := j.fields[segs[k]];
      } else {
        return JNull;
      }
    }
  }

  /**
   Evaluates e if the budget can pay for it: then the outcome is the unbudgeted one, whatever the
   budget was. Otherwise the whole budget is spent. No step is lost or counted twice.
   */
  method EvalExpr(h: Host, e: Expr, root: Json, budget: EvalBudget) returns (r: Result<Value, RunError>)
    modifies budget
    ensures (r, budget.Now()) == Metered(h, e, root, old(budget.Now()))
    ensures budget.remaining + budget.total == old(budget.remaining) + old(budget.total)
    ensures if Steps(h, e, root) <= old(budget.remaining) then
              r == Lift(Meaning(h, e, root)) && budget.total == old(budget.total) + Steps(h, e, root)
            else
              r == Err(BudgetExhausted(budget.total)) && budget.remaining == 0
  {
    r := Visit(h, e, root, budget);
    ChargePlainly(old(budget.Now()), Steps(h, e, root), Meaning(h, e, root));
  }

  /** What charging means for the two counters and the outcome. */
  lemma ChargePlainly(m: Meter, steps: nat, outcome: Outcome)
    ensures var (r, m') := Charge(m, steps, outcome);
            && m'.remaining + m'.total == m.remaining + m.total
            && if steps <= m.remaining then r == Lift(outcome) && m'.total == m.total + steps
               else r == Err(BudgetExhausted(m'.total)) && m'.remaining == 0
  {
  }

  // ---- the budget only cuts evaluation off ----

  /** An expression of at most 10,000 nodes never exhausts the default budget. */
  lemma {:induction false} DefaultBudgetSuffices(h: Host, e: Expr, root: Json)
    requires Nodes(e) <= DEFAULT_STEPS
    ensures Metered(h, e, root, Meter(DEFAULT_STEPS, 0)).0 == Lift(Meaning(h, e, root))
  {
    StepsBounded(h, e, root);
  }
}
