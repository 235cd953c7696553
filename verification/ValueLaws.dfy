/**
 What evaluation answers, operator by operator and builtin by builtin, in terms of the values
 its operands have: laws that do not mention how the evaluator computes them.
 */
module ValueLaws {
  import opened Outcomes
  import opened Ast
  import opened Strings
  import opened Values
  import opened Builtins
  import opened Eval
  import opened Trees

  ghost predicate Gives(h: Host, e: Expr, root: Json, v: Value) {
    Meaning(h, e, root) == Ok(v)
  }

  ghost predicate Answers(h: Host, e: Expr, root: Json, b: bool) {
    Meaning(h, e, root) == Ok(VBool(b))
  }

  // ---- leaves ----

  lemma LiteralValues(h: Host, root: Json, s: string, n: i64, b: bool)
    ensures Gives(h, Literal(StrLit(s)), root, VStr(s))
    ensures Gives(h, Literal(IntLit(n)), root, VInt(n))
    ensures Gives(h, Literal(BoolLit(b)), root, VBool(b))
  {
  }

  /** The path leads from root through these subtrees. */
  ghost predicate Leads(root: Json, segs: seq<string>, stops: seq<Json>) {
    && |stops| == |segs| + 1 && stops[0] == root
    && forall k :: 0 <= k < |segs| ==> HasField(stops[k], segs[k], stops[k + 1])
  }

  predicate HasField(j: Json, key: string, sub: Json) {
    j.JObject? && key in j.fields && j.fields[key] == sub
  }

  /** The value that stands for a subtree: objects and null are null, arrays go element by element. */
  ghost predicate StandsFor(v: Value, j: Json) {
    match j
    case JNull => v == VNull
    case JObject(_) => v == VNull
    case JBool(b) => v == VBool(b)
    case JInt(n) => v == VInt(n)
    case JFloat(f) => v == VFloat(f)
    case JStr(s) => v == VStr(s)
    case JArray(xs) => v.VList? && |v.xs| == |xs| && forall k :: 0 <= k < |xs| ==> StandsFor(v.xs[k], xs[k])
  }

  lemma {:induction false} ValueStandsFor(j: Json)
    ensures StandsFor(JsonToValue(j), j)
  {
    if j.JArray? {
      forall k | 0 <= k < |j.xs| ensures StandsFor(JsonToValue(j.xs[k]), j.xs[k]) {
        ValueStandsFor(j.xs[k]);
      }
    }
  }

  lemma {:induction false} WalkLeads(root: Json, segs: seq<string>, stops: seq<Json>)
    requires Leads(root, segs, stops)
    ensures Walk(root, segs) == stops[|segs|]
  {
    if segs != [] {
      assert HasField(stops[0], segs[0], stops[1]);
      forall k | 0 <= k < |segs| - 1 ensures HasField(stops[1..][k], segs[1..][k], stops[1..][k + 1]) {
        assert HasField(stops[k + 1], segs[k + 1], stops[k + 2]);
      }
      WalkLeads(stops[1], segs[1..], stops[1..]);
    }
  }

  /** A path that leads somewhere gives the value found there. */
  lemma {:induction false} PathFound(h: Host, root: Json, segs: seq<string>, stops: seq<Json>)
    requires Leads(root, segs, stops)
    ensures exists v :: Gives(h, Path(segs), root, v) && StandsFor(v, stops[|segs|])
  {
    WalkLeads(root, segs, stops);
    ValueStandsFor(stops[|segs|]);
    assert Gives(h, Path(segs), root, JsonToValue(Walk(root, segs)));
  }

  /** A path that leads nowhere gives null. */
  lemma {:induction false} PathMissing(h: Host, root: Json, segs: seq<string>)
    requires forall stops :: !Leads(root, segs, stops)
    ensures Gives(h, Path(segs), root, VNull)
  {
    WalkNowhere(root, segs);
  }

  lemma {:induction false} WalkNowhere(root: Json, segs: seq<string>)
    requires forall stops :: !Leads(root, segs, stops)
    ensures Walk(root, segs) == JNull
  {
    if segs == [] {
      assert Leads(root, segs, [root]);
    } else if root.JObject? && segs[0] in root.fields {
      var sub := root.fields[segs[0]];
      forall stops ensures !Leads(sub, segs[1..], stops) {
        if Leads(sub, segs[1..], stops) {
          LeadsFirst(root, segs, stops);
        }
      }
      WalkNowhere(sub, segs[1..]);
    }
  }

  lemma {:induction false} LeadsFirst(root: Json, segs: seq<string>, stops: seq<Json>)
    requires segs != [] && root.JObject? && segs[0] in root.fields && Leads(root.fields[segs[0]], segs[1..], stops)
    ensures Leads(root, segs, [root] + stops)
  {
    var all := [root] + stops;
    forall k | 0 <= k < |segs| ensures HasField(all[k], segs[k], all[k + 1]) {
      if k > 0 {
        assert HasField(stops[k - 1], segs[1..][k - 1], stops[k]);
      }
    }
  }

  // ---- truth and the connectives ----

  /** The values that count as false. */
  predicate CountsAsFalse(v: Value) {
    v == VNull || v == VBool(false) || v == VInt(0) || v == VFloat(0.0) || v == VStr("") || v == VList([])
  }

  lemma NotNegates(h: Host, e: Expr, root: Json, v: Value)
    requires Gives(h, e, root, v)
    ensures Answers(h, Unary(Not, e), root, CountsAsFalse(v))
  {
  }

  /** `l and r` is true exactly when both are, and fails exactly when l fails, or l is true and r fails. */
  lemma {:induction false} ConjunctionExactly(h: Host, l: Expr, r: Expr, root: Json)
    ensures var e, lv, rv := Binary(And, l, r), Meaning(h, l, root), Meaning(h, r, root);
            if lv.Err? then Meaning(h, e, root) == lv
            else if CountsAsFalse(lv.value) then Answers(h, e, root, false)
            else if rv.Err? then Meaning(h, e, root) == rv
            else Answers(h, e, root, !CountsAsFalse(rv.value))
  {
    assert Meaning(h, Binary(And, l, r), root) == BinaryOutcome(h, And, Meaning(h, l, root), Meaning(h, r, root));
  }

  /** `l or r` is false exactly when both are, and fails exactly when l fails, or l is false and r fails. */
  lemma {:induction false} DisjunctionExactly(h: Host, l: Expr, r: Expr, root: Json)
    ensures var e, lv, rv := Binary(Or, l, r), Meaning(h, l, root), Meaning(h, r, root);
            if lv.Err? then Meaning(h, e, root) == lv
            else if !CountsAsFalse(lv.value) then Answers(h, e, root, true)
            else if rv.Err? then Meaning(h, e, root) == rv
            else Answers(h, e, root, !CountsAsFalse(rv.value))
  {
    assert Meaning(h, Binary(Or, l, r), root) == BinaryOutcome(h, Or, Meaning(h, l, root), Meaning(h, r, root));
  }

  /** The right operand of a connective costs nothing exactly when the left one fails or settles it. */
  lemma ConnectiveSteps(h: Host, op: BinOp, l: Expr, r: Expr, root: Json)
    requires op == And || op == Or
    ensures var lv := Meaning(h, l, root);
            Steps(h, Binary(op, l, r), root) == 1 + Steps(h, l, root) +
              if lv.Err? || CountsAsFalse(lv.value) == (op == And) then 0 else Steps(h, r, root)
  {
  }

  // ---- comparisons ----

  /** A number as a real; integers are converted by the host when they meet a float. */
  function AsReal(h: Host, v: Value): real
    requires v.VInt? || v.VFloat?
  {
    if v.VInt? then h.toFloat(v.n) else v.f
  }

  /** The same value, or an integer and a float for the same number. */
  ghost predicate SameValue(h: Host, a: Value, b: Value) {
    a == b || (((a.VInt? && b.VFloat?) || (a.VFloat? && b.VInt?)) && AsReal(h, a) == AsReal(h, b))
  }

  lemma EqualityExactly(h: Host, l: Expr, r: Expr, root: Json, a: Value, b: Value)
    requires Gives(h, l, root, a) && Gives(h, r, root, b)
    ensures Answers(h, Binary(Eq, l, r), root, SameValue(h, a, b))
    ensures Answers(h, Binary(Neq, l, r), root, !SameValue(h, a, b))
  {
  }

  lemma IntegerOrder(h: Host, l: Expr, r: Expr, root: Json, m: i64, n: i64)
    requires Gives(h, l, root, VInt(m)) && Gives(h, r, root, VInt(n))
    ensures Answers(h, Binary(Lt, l, r), root, m < n) && Answers(h, Binary(Gt, l, r), root, m > n)
    ensures Answers(h, Binary(Le, l, r), root, m <= n) && Answers(h, Binary(Ge, l, r), root, m >= n)
  {
  }

  lemma FloatOrder(h: Host, l: Expr, r: Expr, root: Json, a: Value, b: Value)
    requires Gives(h, l, root, a) && Gives(h, r, root, b)
    requires (a.VFloat? && (b.VFloat? || b.VInt?)) || (a.VInt? && b.VFloat?)
    ensures var x, y := AsReal(h, a), AsReal(h, b);
            && Answers(h, Binary(Lt, l, r), root, x < y) && Answers(h, Binary(Gt, l, r), root, x > y)
            && Answers(h, Binary(Le, l, r), root, x <= y) && Answers(h, Binary(Ge, l, r), root, x >= y)
  {
  }

  /** s comes no later than t: where they first differ s has the smaller character, or s ends first. */
  ghost predicate NoLater(s: string, t: string) {
    exists i: nat :: BranchesAt(s, t, i)
  }

  lemma {:induction false} TextOrder(h: Host, l: Expr, r: Expr, root: Json, s: string, t: string)
    requires Gives(h, l, root, VStr(s)) && Gives(h, r, root, VStr(t))
    ensures Answers(h, Binary(Le, l, r), root, NoLater(s, t)) && Answers(h, Binary(Gt, l, r), root, !NoLater(s, t))
    ensures Answers(h, Binary(Ge, l, r), root, NoLater(t, s)) && Answers(h, Binary(Lt, l, r), root, !NoLater(t, s))
  {
    LeqExactly(s, t);
    LeqExactly(t, s);
    LeqTotal(s, t);
    if s != t && Leq(s, t) && Leq(t, s) {
      LeqAntisymmetric(s, t);
    }
    LeqReflexive(s);
  }

  lemma {:induction false} LeqReflexive(s: string)
    ensures Leq(s, s)
  {
    LeqTotal(s, s);
  }

  /** Ordering anything but two numbers or two texts fails. */
  lemma OrderFails(h: Host, op: BinOp, l: Expr, r: Expr, root: Json, a: Value, b: Value)
    requires op == Lt || op == Gt || op == Le || op == Ge
    requires Gives(h, l, root, a) && Gives(h, r, root, b)
    requires !(a.VStr? && b.VStr?) && !((a.VInt? || a.VFloat?) && (b.VInt? || b.VFloat?))
    ensures Meaning(h, Binary(op, l, r), root).Err?
  {
  }

  // ---- membership ----

  ghost predicate Holds(xs: seq<Value>, x: Value) {
    exists i :: 0 <= i < |xs| && xs[i] == x
  }

  ghost predicate Occurs(sub: string, s: string) {
    exists before, after :: Splits(s, before, sub, after)
  }

  lemma MembershipInList(h: Host, n: Expr, hs: Expr, root: Json, x: Value, xs: seq<Value>)
    requires Gives(h, n, root, x) && Gives(h, hs, root, VList(xs))
    ensures Answers(h, Membership(false, n, hs), root, Holds(xs, x))
    ensures Answers(h, Membership(true, n, hs), root, !Holds(xs, x))
  {
    assert x in xs <==> Holds(xs, x);
  }

  lemma {:induction false} MembershipInText(h: Host, n: Expr, hs: Expr, root: Json, sub: string, s: string)
    requires Gives(h, n, root, VStr(sub)) && Gives(h, hs, root, VStr(s))
    ensures Answers(h, Membership(false, n, hs), root, Occurs(sub, s))
    ensures Answers(h, Membership(true, n, hs), root, !Occurs(sub, s))
  {
    SubstringExactly(sub, s);
  }

  lemma MembershipFails(h: Host, negated: bool, n: Expr, hs: Expr, root: Json, x: Value, v: Value)
    requires Gives(h, n, root, x) && Gives(h, hs, root, v)
    requires !v.VList? && !(v.VStr? && x.VStr?)
    ensures Meaning(h, Membership(negated, n, hs), root).Err?
  {
  }

  /** The error of a left operand is that of the whole, and nothing after it is evaluated. */
  lemma FirstOperandFails(h: Host, e: Expr, root: Json)
    requires (e.Binary? && Meaning(h, e.left, root).Err?) || (e.Membership? && Meaning(h, e.needle, root).Err?)
    ensures var first := if e.Binary? then e.left else e.needle;
            Meaning(h, e, root) == Meaning(h, first, root) && Steps(h, e, root) == 1 + Steps(h, first, root)
  {
  }

  // ---- builtins ----

  lemma {:induction false} OneArgument(h: Host, a: Expr, root: Json, v: Value)
    requires Gives(h, a, root, v)
    ensures ArgumentMeanings(h, [a], root) == Ok([v])
  {
    assert [a][1..] == [] && [v] + [] == [v];
    assert ArgumentMeanings(h, [], root) == Ok([]);
  }

  lemma {:induction false} TwoArguments(h: Host, a: Expr, b: Expr, root: Json, v: Value, w: Value)
    requires Gives(h, a, root, v) && Gives(h, b, root, w)
    ensures ArgumentMeanings(h, [a, b], root) == Ok([v, w])
  {
    assert [a, b][1..] == [b];
    OneArgument(h, b, root, w);
    assert [v] + [w] == [v, w];
  }

  lemma {:induction false} CallAnswers(h: Host, name: string, f: Fn, args: seq<Expr>, root: Json, vs: seq<Value>)
    requires Named(name) == Some(f) && f != FnSecretRef && ArgumentMeanings(h, args, root) == Ok(vs)
    ensures Meaning(h, Call(name, args), root) == Builtin(h, f, vs)
  {
    assert CallMeaning(h, Call(name, args), root) == BuiltinOutcome(h, Some(f), Ok(vs));
  }

  lemma {:induction false} TextSearches(h: Host, name: string, a: Expr, b: Expr, root: Json, s: string, t: string)
    requires Gives(h, a, root, VStr(s)) && Gives(h, b, root, VStr(t))
    ensures name == "contains" ==> Answers(h, Call(name, [a, b]), root, Occurs(t, s))
    ensures name == "starts_with" ==> Answers(h, Call(name, [a, b]), root, exists after :: Splits(s, "", t, after))
    ensures name == "ends_with" ==> Answers(h, Call(name, [a, b]), root, exists before :: Splits(s, before, t, ""))
  {
    NamedExactly(name);
    TwoArguments(h, a, b, root, VStr(s), VStr(t));
    if name == "contains" || name == "starts_with" || name == "ends_with" {
      CallAnswers(h, name, Named(name).value, [a, b], root, [VStr(s), VStr(t)]);
      SubstringExactly(t, s);
      PrefixExactly(s, t);
      SuffixExactly(s, t);
    }
  }

  lemma {:induction false} ListSearch(h: Host, name: string, a: Expr, b: Expr, root: Json, xs: seq<Value>, x: Value)
    requires name == "contains" && Gives(h, a, root, VList(xs)) && Gives(h, b, root, x)
    ensures Answers(h, Call(name, [a, b]), root, Holds(xs, x))
  {
    NamedAt(0);
    TwoArguments(h, a, b, root, VList(xs), x);
    CallAnswers(h, name, FnContains, [a, b], root, [VList(xs), x]);
    assert x in xs <==> Holds(xs, x);
  }

  lemma {:induction false} Lengths(h: Host, name: string, a: Expr, root: Json, v: Value)
    requires name == "len" && Gives(h, a, root, v) && (v.VStr? || v.VList?)
    requires (if v.VStr? then |v.s| else |v.xs|) < 0x8000_0000_0000_0000
    ensures Gives(h, Call(name, [a]), root, VInt(if v.VStr? then |v.s| else |v.xs|))
  {
    NamedAt(3);
    OneArgument(h, a, root, v);
    CallAnswers(h, name, FnLen, [a], root, [v]);
  }

  lemma {:induction false} Lowered(h: Host, name: string, a: Expr, root: Json, s: string)
    requires name == "lower" && Gives(h, a, root, VStr(s))
    ensures Gives(h, Call(name, [a]), root, VStr(h.lower(s)))
  {
    NamedAt(4);
    TextFunction(h, name, FnLower, a, root, s);
  }

  lemma {:induction false} Uppered(h: Host, name: string, a: Expr, root: Json, s: string)
    requires name == "upper" && Gives(h, a, root, VStr(s))
    ensures Gives(h, Call(name, [a]), root, VStr(h.upper(s)))
  {
    NamedAt(5);
    TextFunction(h, name, FnUpper, a, root, s);
  }

  lemma {:induction false} HostNamed(h: Host, name: string, a: Expr, root: Json, s: string)
    requires name == "url_host" && Gives(h, a, root, VStr(s))
    ensures Gives(h, Call(name, [a]), root, VStr(h.urlHost(s)))
  {
    NamedAt(7);
    TextFunction(h, name, FnUrlHost, a, root, s);
  }

  lemma {:induction false} Digested(h: Host, name: string, a: Expr, root: Json, s: string)
    requires name == "sha256" && Gives(h, a, root, VStr(s))
    ensures Gives(h, Call(name, [a]), root, VStr(h.sha256(s)))
  {
    NamedAt(9);
    TextFunction(h, name, FnSha256, a, root, s);
  }

  lemma {:induction false} Timed(h: Host, name: string, a: Expr, root: Json, s: string)
    requires name == "timestamp" && Gives(h, a, root, VStr(s))
    ensures var r := Meaning(h, Call(name, [a]), root);
            if h.timestamp(s).Some? then r == Ok(VInt(h.timestamp(s).value)) else r.Err?
  {
    NamedAt(8);
    TextFunction(h, name, FnTimestamp, a, root, s);
  }

  lemma {:induction false} TextFunction(h: Host, name: string, f: Fn, a: Expr, root: Json, s: string)
    requires Gives(h, a, root, VStr(s)) && Named(name) == Some(f) && f != FnSecretRef
    ensures Meaning(h, Call(name, [a]), root) == OneString(h, f, s)
  {
    OneArgument(h, a, root, VStr(s));
    CallAnswers(h, name, f, [a], root, [VStr(s)]);
  }

  /** The arguments a builtin answers for. */
  predicate Accepts(name: string, vs: seq<Value>) {
    if name == "contains" then |vs| == 2 && (vs[0].VList? || (vs[0].VStr? && vs[1].VStr?))
    else if name == "starts_with" || name == "ends_with" then |vs| == 2 && vs[0].VStr? && vs[1].VStr?
    else if name == "len" then |vs| == 1 && (vs[0].VStr? || vs[0].VList?)
    else if name == "lower" || name == "upper" || name == "url_host" || name == "sha256" || name == "timestamp" then
      |vs| == 1 && vs[0].VStr?
    else false
  }

  /** Called with anything else, or by any other name, a call fails. */
  lemma {:induction false} OtherCallsFail(h: Host, name: string, args: seq<Expr>, root: Json, vs: seq<Value>)
    requires name != "secret_ref" && ArgumentMeanings(h, args, root) == Ok(vs) && !Accepts(name, vs)
    ensures Meaning(h, Call(name, args), root).Err?
  {
    NamedExactly(name);
    assert CallMeaning(h, Call(name, args), root) == BuiltinOutcome(h, Named(name), Ok(vs));
    if Named(name).Some? {
      UnacceptedFail(h, name, Named(name).value, vs);
    }
  }

  lemma {:induction false} UnacceptedFail(h: Host, name: string, f: Fn, vs: seq<Value>)
    requires Named(name) == Some(f) && f != FnSecretRef && !Accepts(name, vs)
    ensures Builtin(h, f, vs).Err?
  {
    NamedExactly(name);
  }

  /** Arguments are evaluated left to right up to the first that fails. */
  ghost predicate FailsAt(h: Host, args: seq<Expr>, root: Json, k: nat) {
    && k < |args| && Meaning(h, args[k], root).Err?
    && forall i :: 0 <= i < k ==> Meaning(h, args[i], root).Ok?
  }

  function TotalSteps(h: Host, args: seq<Expr>, root: Json): nat {
    if args == [] then 0 else Steps(h, args[0], root) + TotalSteps(h, args[1..], root)
  }

  lemma {:induction false} ArgumentsFail(h: Host, args: seq<Expr>, root: Json, k: nat)
    requires FailsAt(h, args, root, k)
    ensures ArgumentMeanings(h, args, root) == Err(Meaning(h, args[k], root).error)
    ensures ArgumentSteps(h, args, root) == TotalSteps(h, args[..k + 1], root)
    decreases k
  {
    assert args[..k + 1][0] == args[0];
    if k == 0 {
      assert args[..1][1..] == [];
    } else {
      assert args[..k + 1][1..] == args[1..][..k];
      assert forall i :: 0 <= i < k ==> args[1..][i] == args[i + 1];
      ArgumentsFail(h, args[1..], root, k - 1);
    }
  }

  lemma {:induction false} ArgumentFails(h: Host, name: string, args: seq<Expr>, root: Json, k: nat)
    requires name != "secret_ref" && FailsAt(h, args, root, k)
    ensures Meaning(h, Call(name, args), root) == Meaning(h, args[k], root)
    ensures Steps(h, Call(name, args), root) == 1 + TotalSteps(h, args[..k + 1], root)
  {
    NamedExactly(name);
    ArgumentsFail(h, args, root, k);
    var e := Call(name, args);
    assert CallMeaning(h, e, root) == BuiltinOutcome(h, Named(name), ArgumentMeanings(h, args, root));
    assert CallSteps(h, e, root) == ArgumentSteps(h, args, root);
  }

  // ---- secrets ----

  /** The text the secret detector looks through: a text itself, nothing for null, all else rendered. */
  ghost predicate Scanned(h: Host, j: Json, text: string) {
    match j
    case JStr(s) => text == s
    case JNull => text == ""
    case _ => text == h.render(j)
  }

  lemma {:induction false} SecretCall(h: Host, name: string, a: Expr, root: Json, subtree: Result<Json, EvalError>)
    requires name == "secret_ref" && SubtreeMeaning(h, a, root) == subtree
    ensures Meaning(h, Call(name, [a]), root) == SecretOutcome(h, subtree)
  {
    NamedAt(6);
    assert CallMeaning(h, Call(name, [a]), root) == SecretOutcome(h, subtree);
  }

  /** On a path, the whole subtree is scanned, objects included. */
  lemma {:induction false} SecretAtPath(
      h: Host, name: string, root: Json, segs: seq<string>, stops: seq<Json>, text: string)
    requires name == "secret_ref" && Leads(root, segs, stops) && Scanned(h, stops[|segs|], text)
    ensures Answers(h, Call(name, [Path(segs)]), root, h.containsSecret(text))
  {
    WalkLeads(root, segs, stops);
    SecretCall(h, name, Path(segs), root, Ok(stops[|segs|]));
  }

  lemma {:induction false} SecretNowhere(h: Host, name: string, root: Json, segs: seq<string>)
    requires name == "secret_ref" && forall stops :: !Leads(root, segs, stops)
    ensures Answers(h, Call(name, [Path(segs)]), root, h.containsSecret(""))
  {
    WalkNowhere(root, segs);
    SecretCall(h, name, Path(segs), root, Ok(JNull));
  }

  /** On any other argument, its value: a text itself, anything else as the JSON it stands for. */
  lemma {:induction false} SecretInValue(
      h: Host, name: string, a: Expr, root: Json, v: Value, j: Json, text: string)
    requires name == "secret_ref" && !a.Path? && Gives(h, a, root, v)
    requires StandsFor(v, j) && NoObjects(j) && Scanned(h, j, text)
    ensures Answers(h, Call(name, [a]), root, h.containsSecret(text))
  {
    BackToJson(v, j);
    SecretCall(h, name, a, root, Ok(j));
  }

  predicate NoObjects(j: Json) {
    !j.JObject? && (j.JArray? ==> forall k :: 0 <= k < |j.xs| ==> NoObjects(j.xs[k]))
  }

  lemma {:induction false} BackToJson(v: Value, j: Json)
    requires StandsFor(v, j) && NoObjects(j)
    ensures ValueToJson(v) == j
    decreases j
  {
    if j.JArray? {
      forall k | 0 <= k < |j.xs| ensures ValueToJson(v.xs[k]) == j.xs[k] {
        BackToJson(v.xs[k], j.xs[k]);
      }
    }
  }

  // ---- steps ----

  lemma {:induction false} NodesCount(e: Expr)
    ensures Nodes(e) == |Subterms(e)|
    decreases e, 1
  {
    match e
    case Unary(_, inner) => NodesCount(inner);
    case Binary(_, l, r) =>
      NodesCount(l);
      NodesCount(r);
    case Membership(_, n, hs) =>
      NodesCount(n);
      NodesCount(hs);
    case Call(_, args) => ArgumentNodesCount(e, args);
    case _ =>
  }

  lemma {:induction false} ArgumentNodesCount(call: Expr, args: seq<Expr>)
    requires forall a :: a in args ==> a < call
    ensures ArgumentNodes(args) == |ArgsSubterms(args)|
    decreases call, 0, |args|
  {
    if args != [] {
      assert args[0] in args && forall a :: a in args[1..] ==> a in args;
      NodesCount(args[0]);
      ArgumentNodesCount(call, args[1..]);
    }
  }

  predicate Straight(e: Expr) {
    forall n :: n in Subterms(e) ==> !(n.Binary? && (n.op == And || n.op == Or))
  }

  /** Without connectives to cut it short, evaluation that succeeds visits every node once. */
  lemma {:induction false} EveryNodeOnce(h: Host, e: Expr, root: Json)
    requires Straight(e) && Meaning(h, e, root).Ok?
    ensures Steps(h, e, root) == Nodes(e)
    decreases e, 1
  {
    match e
    case Unary(_, inner) =>
      assert forall n :: n in Subterms(inner) ==> n in Subterms(e);
      EveryNodeOnce(h, inner, root);
    case Binary(_, l, r) =>
      assert e in Subterms(e);
      assert forall n :: n in Subterms(l) || n in Subterms(r) ==> n in Subterms(e);
      EveryNodeOnce(h, l, root);
      EveryNodeOnce(h, r, root);
    case Membership(_, n, hs) =>
      assert forall m :: m in Subterms(n) || m in Subterms(hs) ==> m in Subterms(e);
      EveryNodeOnce(h, n, root);
      EveryNodeOnce(h, hs, root);
    case Call(_, args) => CallNodesOnce(h, e, root);
    case _ =>
  }

  lemma {:induction false} CallNodesOnce(h: Host, e: Expr, root: Json)
    requires e.Call? && Straight(e) && Meaning(h, e, root).Ok?
    ensures CallSteps(h, e, root) == ArgumentNodes(e.args)
    decreases e, 0, |e.args| + 1
  {
    assert CallMeaning(h, e, root).Ok?;
    assert forall n :: n in ArgsSubterms(e.args) ==> n in Subterms(e);
    if Named(e.name) == Some(FnSecretRef) {
      var a := e.args[0];
      assert ArgsSubterms(e.args) == Subterms(a) + ArgsSubterms(e.args[1..]);
      assert e.args[1..] == [];
      if !a.Path? {
        assert SubtreeMeaning(h, a, root).Ok?;
        EveryNodeOnce(h, a, root);
      }
    } else {
      ArgumentsOnce(h, e, e.args, root);
    }
  }

  lemma {:induction false} ArgumentsOnce(h: Host, call: Expr, args: seq<Expr>, root: Json)
    requires forall a :: a in args ==> a < call
    requires forall n :: n in ArgsSubterms(args) ==> !(n.Binary? && (n.op == And || n.op == Or))
    requires ArgumentMeanings(h, args, root).Ok?
    ensures ArgumentSteps(h, args, root) == ArgumentNodes(args)
    decreases call, 0, |args|
  {
    if args != [] {
      assert args[0] in args && forall a :: a in args[1..] ==> a in args;
      assert forall n :: n in Subterms(args[0]) || n in ArgsSubterms(args[1..]) ==> n in ArgsSubterms(args);
      EveryNodeOnce(h, args[0], root);
      ArgumentsOnce(h, call, args[1..], root);
    }
  }
}
