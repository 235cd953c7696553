/**
 Runtime values, the JSON context they are read from, and the string and number
 operations the evaluator delegates to its host libraries.
 Floating-point numbers are finite reals: JSON has no other ones.
 */
module Values {
  import opened Outcomes
  import opened Ast
  import opened Strings

  datatype Value =
    | VNull
    | VBool(b: bool)
    | VInt(n: i64)
    | VFloat(f: real)
    | VStr(s: string)
    | VList(xs: seq<Value>)

  datatype Json =
    | JNull
    | JBool(b: bool)
    | JInt(n: i64)
    | JFloat(f: real)
    | JStr(s: string)
    | JArray(xs: seq<Json>)
    | JObject(fields: map<string, Json>)

  /** Library functions the evaluator calls; all of them are deterministic. */
  datatype Host = Host(
    lower: string -> string,
    upper: string -> string,
    urlHost: string -> string,
    sha256: string -> string,
    timestamp: string -> Option<i64>,
    containsSecret: string -> bool,
    render: Json -> string,
    toFloat: i64 -> real)

  datatype EvalError = EvalError(what: string)

  type Outcome = Result<Value, EvalError>

  function Truthy(v: Value): bool {
    match v
    case VNull => false
    case VBool(b) => b
    case VInt(n) => n != 0
    case VFloat(f) => f != 0.0
    case VStr(s) => s != ""
    case VList(xs) => xs != []
  }

  function ValuesEq(h: Host, a: Value, b: Value): bool {
    if a.VInt? && b.VFloat? then h.toFloat(a.n) == b.f
    else if a.VFloat? && b.VInt? then a.f == h.toFloat(b.n)
    else a == b
  }

  datatype Ordering = Less | Equal | Greater

  function OrderReals(x: real, y: real): Ordering {
    if x < y then Less else if x == y then Equal else Greater
  }

  function OrderInts(x: int, y: int): Ordering {
    if x < y then Less else if x == y then Equal else Greater
  }

  function OrderOf(h: Host, a: Value, b: Value): Option<Ordering> {
    match (a, b)
    case (VInt(x), VInt(y)) => Some(OrderInts(x, y))
    case (VFloat(x), VFloat(y)) => Some(OrderReals(x, y))
    case (VInt(x), VFloat(y)) => Some(OrderReals(h.toFloat(x), y))
    case (VFloat(x), VInt(y)) => Some(OrderReals(x, h.toFloat(y)))
    case (VStr(x), VStr(y)) => Some(if x == y then Equal else if Leq(x, y) then Less else Greater)
    case _ => None
  }

  function Compare(h: Host, op: BinOp, a: Value, b: Value): Outcome
    requires op == Lt || op == Gt || op == Le || op == Ge
  {
    match OrderOf(h, a, b)
    case None => Err(EvalError("cannot compare"))
    case Some(ord) =>
      Ok(VBool(match op
               case Lt => ord == Less
               case Gt => ord == Greater
               case Le => ord != Greater
               case _ => ord != Less))
  }

  function JsonToValue(j: Json): Value {
    match j
    case JNull => VNull
    case JBool(b) => VBool(b)
    case JInt(n) => VInt(n)
    case JFloat(f) => VFloat(f)
    case JStr(s) => VStr(s)
    case JArray(xs) => VList(seq(|xs|, i requires 0 <= i < |xs| => JsonToValue(xs[i])))
    case JObject(_) => VNull
  }

  function ValueToJson(v: Value): Json {
    match v
    case VNull => JNull
    case VBool(b) => JBool(b)
    case VInt(n) => JInt(n)
    case VFloat(f) => JFloat(f)
    case VStr(s) => JStr(s)
    case VList(xs) => JArray(seq(|xs|, i requires 0 <= i < |xs| => ValueToJson(xs[i])))
  }

  /** The subtree a dotted path leads to; a missing key or a non-object gives null. */
  function Walk(root: Json, segs: seq<string>): Json {
    if segs == [] then root
    else if root.JObject? && segs[0] in root.fields then Walk(root.fields[segs[0]], segs[1..])
    else JNull
  }

  /** Every key of the path is there. */
  predicate Provides(root: Json, segs: seq<string>) {
    segs == [] || (root.JObject? && segs[0] in root.fields && Provides(root.fields[segs[0]], segs[1..]))
  }

  /** Two's-complement truncation to 64 bits. */
  function ToI64(n: int): i64 {
    (n + 0x8000_0000_0000_0000) % 0x1_0000_0000_0000_0000 - 0x8000_0000_0000_0000
  }
}
