/**
 Code generation from Dictum guards to WebAssembly i32 stack code, and the execution of
 that code. Numeric instructions follow section 4.3.2 and stack execution follows
 section 4.4.1 of the WebAssembly Core Specification: an i32 is an unsigned 32-bit
 number that the signed comparisons reinterpret.
 */
module Wasm {
  import opened Outcomes
  import opened Ast
  import opened Trees
  import opened Values
  import opened Eval
  import opened Types
  import opened Infer
  import opened TypeSoundness

  type u32 = x: int | 0 <= x < 0x1_0000_0000

  datatype Instr =
    | Const(n: u32)
    | Eqz
    | I32Eq | I32Ne | I32LtS | I32GtS | I32LeS | I32GeS
    | I32And | I32Or
    | End

  datatype CompileError = UnsupportedPath(segs: seq<string>) | UnsupportedCall(name: string) | UnsupportedMembership | StringLiteral

  // ---- the machine ----

  function Wrap(n: int): u32 {
    n % 0x1_0000_0000
  }

  function Signed(x: u32): int {
    if x < 0x8000_0000 then x else x - 0x1_0000_0000
  }

  function Flag(b: bool): u32 {
    if b then 1 else 0
  }

  function TwoTo(n: nat): nat {
    if n == 0 then 1 else 2 * TwoTo(n - 1)
  }

  lemma TwoTo32()
    ensures TwoTo(32) == 0x1_0000_0000
  {
    assert TwoTo(8) == 0x100;
    assert TwoTo(16) == 0x1_0000;
    assert TwoTo(24) == 0x100_0000;
  }

  /** Bitwise conjunction or disjunction of the low `bits` bits, least significant first. */
  function Bitwise(conj: bool, x: nat, y: nat, bits: nat): (r: nat)
    ensures r < TwoTo(bits)
    decreases bits, x
  {
    if bits == 0 then 0
    else
      var a, b := x % 2 == 1, y % 2 == 1;
      Flag(if conj then a && b else a || b) + 2 * Bitwise(conj, x / 2, y / 2, bits - 1)
  }

  function BitAnd(x: u32, y: u32): u32 {
    TwoTo32();
    Bitwise(true, x, y, 32)
  }

  function BitOr(x: u32, y: u32): u32 {
    TwoTo32();
    Bitwise(false, x, y, 32)
  }

  function BinaryOp(op: Instr, x: u32, y: u32): u32 {
    match op
    case I32Eq => Flag(x == y)
    case I32Ne => Flag(x != y)
    case I32LtS => Flag(Signed(x) < Signed(y))
    case I32GtS => Flag(Signed(x) > Signed(y))
    case I32LeS => Flag(Signed(x) <= Signed(y))
    case I32GeS => Flag(Signed(x) >= Signed(y))
    case I32And => BitAnd(x, y)
    case I32Or => BitOr(x, y)
    case _ => 0
  }

  /** One instruction on the operand stack, top last; None when operands are missing. */
  function Step(i: Instr, stack: seq<u32>): Option<seq<u32>> {
    var n := |stack|;
    match i
    case Const(c) => Some(stack + [c])
    case Eqz => if n < 1 then None else Some(stack[..n - 1] + [Flag(stack[n - 1] == 0)])
    case End => Some(stack)
    case _ => if n < 2 then None else Some(stack[..n - 2] + [BinaryOp(i, stack[n - 2], stack[n - 1])])
  }

  function Exec(code: seq<Instr>, stack: seq<u32>): Option<seq<u32>> {
    if code == [] then Some(stack)
    else
      match Step(code[0], stack)
      case None => None
      case Some(stack') => Exec(code[1..], stack')
  }

  lemma {:induction false} ExecAppend(c1: seq<Instr>, c2: seq<Instr>, stack: seq<u32>)
    ensures Exec(c1 + c2, stack) ==
            match Exec(c1, stack) case None => None case Some(stack') => Exec(c2, stack')
    decreases |c1|
  {
    if c1 == [] {
      assert c1 + c2 == c2;
    } else {
      assert (c1 + c2)[0] == c1[0] && (c1 + c2)[1..] == c1[1..] + c2;
      if Step(c1[0], stack).Some? {
        ExecAppend(c1[1..], c2, Step(c1[0], stack).value);
      }
    }
  }

  // ---- the code generator ----

  function OperatorInstr(op: BinOp): Instr {
    match op
    case Eq => I32Eq
    case Neq => I32Ne
    case Lt => I32LtS
    case Gt => I32GtS
    case Le => I32LeS
    case Ge => I32GeS
    case And => I32And
    case Or => I32Or
  }

  /** The code of e, or the first unsupported construct in evaluation order. */
  function Emit(e: Expr): Result<seq<Instr>, CompileError> {
    match e
    case Literal(BoolLit(b)) => Ok([Const(Flag(b))])
    case Literal(IntLit(n)) => Ok([Const(Wrap(n))])
    case Literal(StrLit(_)) => Err(StringLiteral)
    case Path(segs) => Err(UnsupportedPath(segs))
    case Call(name, _) => Err(UnsupportedCall(name))
    case Membership(_, _, _) => Err(UnsupportedMembership)
    case Unary(_, inner) =>
      (match Emit(inner)
       case Err(err) => Err(err)
       case Ok(code) => Ok(code + [Eqz]))
    case Binary(op, l, r) =>
      match Emit(l)
      case Err(err) => Err(err)
      case Ok(lc) =>
        match Emit(r)
        case Err(err) => Err(err)
        case Ok(rc) => Ok(lc + rc + [OperatorInstr(op)])
  }

  // ---- what can be compiled ----

  predicate NeedsHost(e: Expr) {
    e.Path? || e.Call? || e.Membership? || (e.Literal? && e.lit.StrLit?)
  }

  const UNSUPPORTED: Expr -> bool := (e: Expr) => NeedsHost(e)

  /** The error that names a node which needs the host. */
  predicate Names(err: CompileError, e: Expr) {
    match e
    case Path(segs) => err == UnsupportedPath(segs)
    case Call(name, _) => err == UnsupportedCall(name)
    case Membership(_, _, _) => err == UnsupportedMembership
    case Literal(_) => err == StringLiteral
    case _ => false
  }

  lemma {:induction false} EmitsByFirst(e: Expr)
    ensures match First(Subterms(e), UNSUPPORTED)
            case None => Emit(e).Ok?
            case Some(bad) => Emit(e).Err? && Names(Emit(e).error, bad)
  {
    match e
    case Unary(_, inner) =>
      EmitsByFirst(inner);
      FirstAppend([e], Subterms(inner), UNSUPPORTED);
    case Binary(_, l, r) =>
      EmitsByFirst(l);
      EmitsByFirst(r);
      FirstAppend(Subterms(l), Subterms(r), UNSUPPORTED);
      FirstAppend([e], Subterms(l) + Subterms(r), UNSUPPORTED);
    case Membership(_, n, hs) => FirstAppend([e], Subterms(n) + Subterms(hs), UNSUPPORTED);
    case Call(_, args) => FirstAppend([e], ArgsSubterms(args), UNSUPPORTED);
    case _ => FirstOne(e, UNSUPPORTED);
  }

  /**
   An expression is compiled exactly when none of its nodes is a string literal, path, call or
   membership test; otherwise the error names the first such node, left to right.
   */
  lemma {:induction false} EmitsExactly(e: Expr)
    ensures Emit(e).Ok? <==> NoHost(e)
    ensures Emit(e).Err? ==> exists k: nat :: FirstAt(Subterms(e), UNSUPPORTED, k) && Names(Emit(e).error, Subterms(e)[k])
  {
    EmitsByFirst(e);
    FirstMeans(Subterms(e), UNSUPPORTED);
  }

  /** The first nodes of a program that need the host: those of policy k, from node m on. */
  ghost predicate FirstUnsupported(prog: Program, k: nat, m: nat) {
    && k < |prog.policies|
    && (forall j :: 0 <= j < k ==> NoHost(prog.policies[j].guard))
    && FirstAt(Subterms(prog.policies[k].guard), UNSUPPORTED, m)
  }

  predicate NoHost(e: Expr) {
    forall n :: n in Subterms(e) ==> !NeedsHost(n)
  }

  class Function {
    var code: seq<Instr>

    constructor ()
      ensures code == []
    {
      code := [];
    }

    method Instruction(i: Instr)
      modifies this
      ensures code == old(code) + [i]
    {
      code := code + [i];
    }
  }

  /** Appends the code of e to f; on an error f is left with the code of a prefix. */
  method EmitExpr(e: Expr, f: Function) returns (r: Result<(), CompileError>)
    modifies f
    ensures match Emit(e)
            case Ok(code) => r == Ok(()) && f.code == old(f.code) + code
            case Err(err) => r == Err(err) && old(f.code) <= f.code
    decreases e
  {
    match e {
      case Literal(BoolLit(b)) => f.Instruction(Const(Flag(b)));
      case Literal(IntLit(n)) => f.Instruction(Const(Wrap(n)));
      case Literal(StrLit(_)) => return Err(StringLiteral);
      case Path(segs) => return Err(UnsupportedPath(segs));
      case Call(name, _) => return Err(UnsupportedCall(name));
      case Membership(_, _, _) => return Err(UnsupportedMembership);
      case Unary(_, inner) =>
        r := EmitExpr(inner, f);
        if r.Err? {
          return;
        }
        f.Instruction(Eqz);
      case Binary(op, l, right) =>
        r := EmitExpr(l, f);
        if r.Err? {
          return;
        }
        r := EmitExpr(right, f);
        if r.Err? {
          return;
        }
        f.Instruction(OperatorInstr(op));
    }
    return Ok(());
  }

  /**
   One function body per policy, in order, if no node of any guard needs the host. Otherwise
   compilation stops at the first guard with such a node and names the first one in it.
   */
  method CompileToWasm(prog: Program) returns (r: Result<seq<seq<Instr>>, CompileError>)
    ensures r.Ok? <==> forall k :: 0 <= k < |prog.policies| ==> NoHost(prog.policies[k].guard)
    ensures r.Ok? ==> && |r.value| == |prog.policies|
                      && forall k :: 0 <= k < |r.value| ==>
                           Emit(prog.policies[k].guard).Ok? &&
                           r.value[k] == Emit(prog.policies[k].guard).value + [End]
    ensures r.Err? ==> exists k: nat, m: nat ::
                         FirstUnsupported(prog, k, m) && Names(r.error, Subterms(prog.policies[k].guard)[m])
  {
    var bodies: seq<seq<Instr>> := [];
    for k := 0 to |prog.policies|
      invariant |bodies| == k
      invariant forall m :: 0 <= m < k ==>
                  NoHost(prog.policies[m].guard) &&
                  Emit(prog.policies[m].guard).Ok? &&
                  bodies[m] == Emit(prog.policies[m].guard).value + [End]
    {
      var f := new Function();
      var emitted := EmitExpr(prog.policies[k].guard, f);
      EmitsExactly(prog.policies[k].guard);
      if emitted.Err? {
        ghost var m: nat :| FirstAt(Subterms(prog.policies[k].guard), UNSUPPORTED, m)
                            && Names(emitted.error, Subterms(prog.policies[k].guard)[m]);
        assert FirstUnsupported(prog, k, m);
        return Err(emitted.error);
      }
      f.Instruction(End);
      bodies := bodies + [f.code];
    }
    return Ok(bodies);
  }

  // ---- every accepted expression leaves exactly one more value on the stack ----

  /** What an operator computes on 32-bit words: comparisons give 0 or 1, connectives work bit by bit. */
  function Combined(op: BinOp, x: u32, y: u32): u32 {
    match op
    case Eq => Flag(x == y)
    case Neq => Flag(x != y)
    case Lt => Flag(Signed(x) < Signed(y))
    case Gt => Flag(Signed(x) > Signed(y))
    case Le => Flag(Signed(x) <= Signed(y))
    case Ge => Flag(Signed(x) >= Signed(y))
    case And => BitAnd(x, y)
    case Or => BitOr(x, y)
  }

  /** The 32-bit value of an accepted expression, well typed or not. */
  function Computed(e: Expr): u32
    requires Emit(e).Ok?
  {
    match e
    case Literal(BoolLit(b)) => Flag(b)
    case Literal(IntLit(n)) => Wrap(n)
    case Unary(_, inner) => Flag(Computed(inner) == 0)
    case Binary(op, l, r) => Combined(op, Computed(l), Computed(r))
  }

  /** The code of every accepted expression runs on any stack and pushes exactly its value. */
  lemma {:induction false} StackEffect(e: Expr, stack: seq<u32>)
    requires Emit(e).Ok?
    ensures Exec(Emit(e).value, stack) == Some(stack + [Computed(e)])
    decreases e
  {
    match e
    case Literal(_) =>
    case Unary(_, inner) =>
      StackEffect(inner, stack);
      UnaryEffect(Emit(inner).value, stack, Computed(inner));
    case Binary(op, l, r) =>
      StackEffect(l, stack);
      StackEffect(r, stack + [Computed(l)]);
      BinaryEffect(op, Emit(l).value, Emit(r).value, stack, Computed(l), Computed(r));
      InstructionCombines(op, Computed(l), Computed(r));
  }

  lemma {:induction false} UnaryEffect(code: seq<Instr>, stack: seq<u32>, x: u32)
    requires Exec(code, stack) == Some(stack + [x])
    ensures Exec(code + [Eqz], stack) == Some(stack + [Flag(x == 0)])
  {
    ExecAppend(code, [Eqz], stack);
    assert (stack + [x])[..|stack|] == stack;
  }

  /** The chosen instruction computes the operator. */
  lemma InstructionCombines(op: BinOp, x: u32, y: u32)
    ensures BinaryOp(OperatorInstr(op), x, y) == Combined(op, x, y)
  {
  }

  lemma {:induction false} BinaryEffect(op: BinOp, lc: seq<Instr>, rc: seq<Instr>, stack: seq<u32>, x: u32, y: u32)
    requires Exec(lc, stack) == Some(stack + [x]) && Exec(rc, stack + [x]) == Some(stack + [x] + [y])
    ensures Exec(lc + rc + [OperatorInstr(op)], stack) == Some(stack + [BinaryOp(OperatorInstr(op), x, y)])
  {
    var i := OperatorInstr(op);
    ExecAppend(lc + rc, [i], stack);
    ExecAppend(lc, rc, stack);
    var s := stack + [x] + [y];
    assert s[..|s| - 2] == stack && s[|s| - 2] == x && s[|s| - 1] == y;
    assert Exec([i], s) == Step(i, s);
  }

  // ---- code generation preserves meaning on the well-typed fragment ----

  /** Every integer literal fits in 32 bits. */
  predicate SmallLiterals(e: Expr) {
    match e
    case Literal(IntLit(n)) => -0x8000_0000 <= n < 0x8000_0000
    case Literal(_) => true
    case Unary(_, inner) => SmallLiterals(inner)
    case Binary(_, l, r) => SmallLiterals(l) && SmallLiterals(r)
    case _ => true
  }

  /** The i32 that stands for a boolean or a 32-bit integer. */
  function Encode(v: Value): u32 {
    if v.VBool? then Flag(v.b) else if v.VInt? then Wrap(v.n) else 0
  }

  predicate Small(v: Value) {
    v.VBool? || (v.VInt? && -0x8000_0000 <= v.n < 0x8000_0000)
  }

  lemma EncodeFaithful(v: Value, w: Value)
    requires Small(v) && Small(w) && (v.VBool? <==> w.VBool?)
    ensures Encode(v) == Encode(w) <==> v == w
    ensures v.VInt? ==> Signed(Encode(v)) == v.n
  {
  }

  lemma {:induction false} BitwiseZero(conj: bool, bits: nat)
    ensures Bitwise(conj, 0, 0, bits) == 0
  {
    if bits > 0 {
      BitwiseZero(conj, bits - 1);
    }
  }

  /** On encoded booleans the bitwise instructions are the logical ones. */
  lemma {:induction false} BitwiseFlags(conj: bool, a: bool, b: bool)
    ensures Bitwise(conj, Flag(a), Flag(b), 32) == Flag(if conj then a && b else a || b)
  {
    assert Flag(a) / 2 == 0 && Flag(b) / 2 == 0;
    BitwiseZero(conj, 31);
  }

  /**
   Running the code of a well-typed accepted expression with small literals pushes exactly
   the encoding of the value that evaluation gives it, whatever is already on the stack.
   */
  lemma {:induction false} CompilerCorrect(env: Env, e: Expr, t: Ty, env1: Env, h: Host, root: Json, stack: seq<u32>)
    requires WellFormed(env) && InferExpr(env, e) == Ok((t, env1))
    requires Emit(e).Ok? && SmallLiterals(e)
    ensures Meaning(h, e, root).Ok? && Small(Meaning(h, e, root).value) && HasType(Meaning(h, e, root).value, t)
    ensures Concrete(t)
    ensures Exec(Emit(e).value, stack) == Some(stack + [Encode(Meaning(h, e, root).value)])
    decreases e, 1
  {
    match e
    case Literal(_) =>
    case Unary(_, inner) =>
      var (t0, env0) := InferExpr(env, inner).value;
      CompilerCorrect(env, inner, t0, env0, h, root, stack);
      ConcreteUnify(env0, t0, TBool);
      var v := Meaning(h, inner, root).value;
      UnaryEffect(Emit(inner).value, stack, Encode(v));
    case Binary(_, _, _) => BinaryCorrect(env, e, t, env1, h, root, stack);
  }

  lemma {:induction false} BinaryCorrect(env: Env, e: Expr, t: Ty, env1: Env, h: Host, root: Json, stack: seq<u32>)
    requires e.Binary? && WellFormed(env) && InferExpr(env, e) == Ok((t, env1))
    requires Emit(e).Ok? && SmallLiterals(e)
    ensures Meaning(h, e, root).Ok? && Meaning(h, e, root).value.VBool? && t == TBool
    ensures Exec(Emit(e).value, stack) == Some(stack + [Encode(Meaning(h, e, root).value)])
    decreases e, 0
  {
    var (lt, envL) := InferExpr(env, e.left).value;
    var (rt, envR) := InferExpr(envL, e.right).value;
    CompilerCorrect(env, e.left, lt, envL, h, root, stack);
    var lv := Meaning(h, e.left, root).value;
    CompilerCorrect(envL, e.right, rt, envR, h, root, stack + [Encode(lv)]);
    var rv := Meaning(h, e.right, root).value;
    BinaryEffect(e.op, Emit(e.left).value, Emit(e.right).value, stack, Encode(lv), Encode(rv));
    OperatorCorrect(envR, e.op, lt, rt, h, lv, rv);
  }

  /** Despite evaluating both operands, the instruction agrees with the short-circuit operator. */
  lemma {:induction false} OperatorCorrect(env: Env, op: BinOp, lt: Ty, rt: Ty, h: Host, lv: Value, rv: Value)
    requires WellFormed(env) && Concrete(lt) && Concrete(rt) && InferOperator(env, op, lt, rt).Ok?
    requires Small(lv) && Small(rv) && HasType(lv, lt) && HasType(rv, rt)
    ensures Agrees(op, h, lv, rv)
  {
    if op == Eq || op == Neq {
      ConcreteUnify(env, lt, rt);
      EqualityCorrect(op, h, lv, rv);
    } else {
      OperandTypes(env, op, lt, rt);
      if IsComparison(op) {
        OrderCorrect(op, h, lv, rv);
      } else {
        LogicCorrect(op, h, lv, rv);
      }
    }
  }

  /** The instruction computes the encoding of the operator's result. */
  ghost predicate Agrees(op: BinOp, h: Host, lv: Value, rv: Value) {
    && Combine(h, op, lv, rv).Ok?
    && var v := if Decides(op, lv) then VBool(Truthy(lv)) else Combine(h, op, lv, rv).value;
       v.VBool? && BinaryOp(OperatorInstr(op), Encode(lv), Encode(rv)) == Encode(v)
  }

  lemma {:induction false} EqualityCorrect(op: BinOp, h: Host, lv: Value, rv: Value)
    requires (op == Eq || op == Neq) && Small(lv) && Small(rv) && (lv.VBool? <==> rv.VBool?)
    ensures Agrees(op, h, lv, rv)
  {
    EncodeFaithful(lv, rv);
  }

  lemma {:induction false} LogicCorrect(op: BinOp, h: Host, lv: Value, rv: Value)
    requires (op == And || op == Or) && lv.VBool? && rv.VBool?
    ensures Agrees(op, h, lv, rv)
  {
    InstructionFlags(lv.b, rv.b);
    assert Encode(lv) == Flag(lv.b) && Encode(rv) == Flag(rv.b);
  }

  lemma {:induction false} InstructionFlags(a: bool, b: bool)
    ensures BinaryOp(I32And, Flag(a), Flag(b)) == Flag(a && b)
    ensures BinaryOp(I32Or, Flag(a), Flag(b)) == Flag(a || b)
  {
    BitwiseFlags(true, a, b);
    BitwiseFlags(false, a, b);
  }

  lemma {:induction false} OperandTypes(env: Env, op: BinOp, lt: Ty, rt: Ty)
    requires WellFormed(env) && Concrete(lt) && Concrete(rt) && InferOperator(env, op, lt, rt).Ok?
    requires op != Eq && op != Neq
    ensures lt == rt == if op == And || op == Or then TBool else TInt
  {
    var operand := if op == And || op == Or then TBool else TInt;
    ConcreteUnify(env, lt, operand);
    ConcreteUnify(Expecting(env, lt, operand, TBool).value.1, rt, operand);
  }

  lemma {:induction false} OrderCorrect(op: BinOp, h: Host, lv: Value, rv: Value)
    requires op == Lt || op == Gt || op == Le || op == Ge
    requires lv.VInt? && rv.VInt? && Small(lv) && Small(rv)
    ensures Agrees(op, h, lv, rv)
  {
    EncodeFaithful(lv, rv);
    EncodeFaithful(rv, lv);
  }

  /** The function compiled from a well-typed guard returns 1 exactly when the policy fires, and otherwise 0. */
  lemma GuardCorrect(env: Env, p: Policy, h: Host, root: Json)
    requires WellFormed(env) && InferGuard(env, p).Ok? && Emit(p.guard).Ok? && SmallLiterals(p.guard)
    ensures Meaning(h, p.guard, root).Ok?
    ensures Exec(Emit(p.guard).value + [End], []) == Some([Flag(Truthy(Meaning(h, p.guard, root).value))])
  {
    var (t, env1) := InferExpr(env, p.guard).value;
    CompilerCorrect(env, p.guard, t, env1, h, root, []);
    ConcreteUnify(env1, t, TBool);
    ExecAppend(Emit(p.guard).value, [End], []);
    var v := Meaning(h, p.guard, root).value;
    assert [] + [Encode(v)] == [Flag(Truthy(v))];
    assert Exec([End], [Encode(v)]) == Some([Encode(v)]);
  }

  // ---- both side conditions are needed ----

  /** `4294967296 == 0` is well typed and false, but its code returns 1. */
  lemma {:induction false} LargeLiteralDisagrees(env: Env, h: Host, root: Json)
    requires WellFormed(env)
    ensures var e := Binary(Eq, Literal(IntLit(0x1_0000_0000)), Literal(IntLit(0)));
            InferExpr(env, e).Ok? && Meaning(h, e, root) == Ok(VBool(false)) && Exec(Emit(e).value, []) == Some([1])
  {
    ConstantsCode(Eq, Literal(IntLit(0x1_0000_0000)), Literal(IntLit(0)));
  }

  /** `2 and 1` is ill typed and true, but its code returns 0. */
  lemma {:induction false} UntypedDisagrees(env: Env, h: Host, root: Json)
    requires WellFormed(env)
    ensures var e := Binary(And, Literal(IntLit(2)), Literal(IntLit(1)));
            InferExpr(env, e).Err? && Meaning(h, e, root) == Ok(VBool(true)) && Exec(Emit(e).value, []) == Some([0])
  {
    var l, r := Literal(IntLit(2)), Literal(IntLit(1));
    IntegersIllTyped(env, l, r);
    TruthyIntegers(h, l, r, root);
    BitAndTwoOne(2, 1);
    ConjunctionCode(l, r, 2, 1);
  }

  lemma {:induction false} ConjunctionCode(l: Expr, r: Expr, x: u32, y: u32)
    requires l.Literal? && l.lit.IntLit? && r.Literal? && r.lit.IntLit?
    requires x == Wrap(l.lit.n) && y == Wrap(r.lit.n) && BitAnd(x, y) == 0
    ensures Emit(Binary(And, l, r)).Ok?
    ensures Exec(Emit(Binary(And, l, r)).value, []) == Some([0])
  {
    ConstantsCode(And, l, r);
  }

  lemma {:induction false} IntegersIllTyped(env: Env, l: Expr, r: Expr)
    requires WellFormed(env) && l.Literal? && l.lit.IntLit? && r.Literal? && r.lit.IntLit?
    ensures InferExpr(env, Binary(And, l, r)).Err?
  {
  }

  lemma {:induction false} TruthyIntegers(h: Host, l: Expr, r: Expr, root: Json)
    requires l.Literal? && l.lit.IntLit? && l.lit.n != 0 && r.Literal? && r.lit.IntLit? && r.lit.n != 0
    ensures Meaning(h, Binary(And, l, r), root) == Ok(VBool(true))
  {
    var e := Binary(And, l, r);
    assert Meaning(h, e.left, root) == Ok(VInt(l.lit.n)) && Meaning(h, e.right, root) == Ok(VInt(r.lit.n));
  }

  lemma {:induction false} BitAndTwoOne(x: u32, y: u32)
    requires x == 2 && y == 1
    ensures BitAnd(x, y) == 0
  {
    BitwiseZero(true, 30);
    assert Bitwise(true, x / 2, y / 2, 31) == 2 * Bitwise(true, 0, 0, 30);
  }

  /** Two integer literals and an operator compute what the operator does on the truncated literals. */
  lemma {:induction false} ConstantsCode(op: BinOp, l: Expr, r: Expr)
    requires l.Literal? && l.lit.IntLit? && r.Literal? && r.lit.IntLit?
    ensures Emit(Binary(op, l, r)).Ok?
    ensures Exec(Emit(Binary(op, l, r)).value, []) == Some([Combined(op, Wrap(l.lit.n), Wrap(r.lit.n))])
  {
    var e := Binary(op, l, r);
    assert Emit(l).Ok? && Emit(r).Ok?;
    StackEffect(e, []);
    assert [] + [Computed(e)] == [Computed(e)];
  }
}
