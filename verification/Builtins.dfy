/** The builtin functions. The evaluator, the type checker and the validator know the same ten names. */
module Builtins {
  import opened Outcomes

  datatype Fn =
    | FnContains | FnStartsWith | FnEndsWith | FnLen | FnLower | FnUpper
    | FnSecretRef | FnUrlHost | FnTimestamp | FnSha256

  const NAMES: seq<(string, Fn)> := [
    ("contains", FnContains), ("starts_with", FnStartsWith), ("ends_with", FnEndsWith), ("len", FnLen),
    ("lower", FnLower), ("upper", FnUpper), ("secret_ref", FnSecretRef), ("url_host", FnUrlHost),
    ("timestamp", FnTimestamp), ("sha256", FnSha256)]

  function Named(name: string): Option<Fn> {
    LookUp(NAMES, name)
  }

  function LookUp(table: seq<(string, Fn)>, name: string): Option<Fn> {
    if table == [] then None
    else if table[0].0 == name then Some(table[0].1)
    else LookUp(table[1..], name)
  }

  function Arity(f: Fn): nat {
    if f == FnContains || f == FnStartsWith || f == FnEndsWith then 2 else 1
  }

  /** The ten names, and no others. */
  lemma {:induction false} NamedExactly(name: string)
    ensures Named(name) ==
            if name == "contains" then Some(FnContains)
            else if name == "starts_with" then Some(FnStartsWith)
            else if name == "ends_with" then Some(FnEndsWith)
            else if name == "len" then Some(FnLen)
            else if name == "lower" then Some(FnLower)
            else if name == "upper" then Some(FnUpper)
            else if name == "secret_ref" then Some(FnSecretRef)
            else if name == "url_host" then Some(FnUrlHost)
            else if name == "timestamp" then Some(FnTimestamp)
            else if name == "sha256" then Some(FnSha256)
            else None
  {
    LookUpFrom(name, 0);
    LookUpFrom(name, 5);
    assert NAMES[0..] == NAMES;
  }

  lemma {:induction false} NamedAt(k: nat)
    requires k < |NAMES|
    ensures Named(NAMES[k].0) == Some(NAMES[k].1)
  {
    NamedExactly(NAMES[k].0);
  }

  /** Five entries of the table at a time. */
  lemma {:induction false} LookUpFrom(name: string, k: nat)
    requires k == 0 || k == 5
    ensures LookUp(NAMES[k..], name) ==
            if NAMES[k].0 == name then Some(NAMES[k].1)
            else if NAMES[k + 1].0 == name then Some(NAMES[k + 1].1)
            else if NAMES[k + 2].0 == name then Some(NAMES[k + 2].1)
            else if NAMES[k + 3].0 == name then Some(NAMES[k + 3].1)
            else if NAMES[k + 4].0 == name then Some(NAMES[k + 4].1)
            else LookUp(NAMES[k + 5..], name)
  {
    LookUpStep(name, k);
    LookUpStep(name, k + 1);
    LookUpStep(name, k + 2);
    LookUpStep(name, k + 3);
    LookUpStep(name, k + 4);
  }

  lemma {:induction false} LookUpStep(name: string, k: nat)
    requires k < |NAMES|
    ensures LookUp(NAMES[k..], name) == if NAMES[k].0 == name then Some(NAMES[k].1) else LookUp(NAMES[k + 1..], name)
  {
    assert NAMES[k..][0] == NAMES[k] && NAMES[k..][1..] == NAMES[k + 1..];
  }
}
