/** Structural validation of programs, and the collection of the context paths they mention. */
module Validator {
  import opened Outcomes
  import opened Ast
  import opened Structure
  import opened Trees

  // ---- structural validation ----

  /** The name is neither blank (`blank` trims it) nor taken, and guard and evidence are well formed. */
  predicate PolicyFine(blank: string -> bool, ps: seq<Policy>, k: nat)
    requires k < |ps|
  {
    && !blank(ps[k].name)
    && (forall i :: 0 <= i < k ==> ps[i].name != ps[k].name)
    && WellFormed(ps[k].guard)
    && (ps[k].action.evidence.Some? ==> WellFormed(ps[k].action.evidence.value))
  }

  /** What is reported of a policy that is not: its name comes first, then its guard, then its evidence. */
  ghost predicate ReportsPolicy(d: Defect, blank: string -> bool, ps: seq<Policy>, k: nat)
    requires k < |ps|
  {
    var p := ps[k];
    if blank(p.name) then d == BlankName
    else if exists i :: 0 <= i < k && ps[i].name == p.name then d == DuplicateName(p.name)
    else if !WellFormed(p.guard) then ReportsNode(d, p.guard)
    else p.action.evidence.Some? && ReportsNode(d, p.action.evidence.value)
  }

  /** Accepts a program all of whose policies are fine; otherwise reports the first that is not. */
  method Validate(blank: string -> bool, prog: Program) returns (r: Result<(), Defect>)
    ensures r.Ok? <==> forall k :: 0 <= k < |prog.policies| ==> PolicyFine(blank, prog.policies, k)
    ensures r.Err? ==> exists k :: 0 <= k < |prog.policies| && ReportsPolicy(r.error, blank, prog.policies, k) &&
                                   forall i :: 0 <= i < k ==> PolicyFine(blank, prog.policies, i)
  {
    var ps := prog.policies;
    var seen: set<string> := {};
    for k := 0 to |ps|
      invariant forall name :: name in seen <==> exists i :: 0 <= i < k && ps[i].name == name
      invariant forall i :: 0 <= i < k ==> PolicyFine(blank, ps, i)
    {
      var p := ps[k];
      if blank(p.name) {
        assert ReportsPolicy(BlankName, blank, ps, k) && !PolicyFine(blank, ps, k);
        return Err(BlankName);
      }
      if p.name in seen {
        assert ReportsPolicy(DuplicateName(p.name), blank, ps, k) && !PolicyFine(blank, ps, k);
        return Err(DuplicateName(p.name));
      }
      seen := seen + {p.name};
      DefectExactly(p.guard);
      var d := ExprDefect(p.guard);
      if d.None? && p.action.evidence.Some? {
        DefectExactly(p.action.evidence.value);
        d := ExprDefect(p.action.evidence.value);
      }
      if d.Some? {
        assert ReportsPolicy(d.value, blank, ps, k) && !PolicyFine(blank, ps, k);
        return Err(d.value);
      }
    }
    return Ok(());
  }

  // ---- collected paths ----

  /** Every path of an expression, in source order with duplicates. */
  function ExprPaths(e: Expr): seq<seq<string>>
    decreases e, 0
  {
    match e
    case Literal(_) => []
    case Path(segs) => [segs]
    case Unary(_, inner) => ExprPaths(inner)
    case Binary(_, l, r) => ExprPaths(l) + ExprPaths(r)
    case Membership(_, n, hs) => ExprPaths(n) + ExprPaths(hs)
    case Call(_, args) => ArgsPaths(args)
  }

  function ArgsPaths(args: seq<Expr>): seq<seq<string>>
    decreases args, 0
  {
    if args == [] then [] else ExprPaths(args[0]) + ArgsPaths(args[1..])
  }

  function PolicyPaths(p: Policy): seq<seq<string>> {
    ExprPaths(p.guard) + EvidencePaths(p)
  }

  function EvidencePaths(p: Policy): seq<seq<string>> {
    if p.action.evidence.Some? then ExprPaths(p.action.evidence.value) else []
  }

  function ProgramPaths(ps: seq<Policy>): seq<seq<string>> {
    if ps == [] then [] else PolicyPaths(ps[0]) + ProgramPaths(ps[1..])
  }

  /** The collected paths are those of the path nodes. */
  lemma {:induction false} PathsExactly(e: Expr, segs: seq<string>)
    ensures segs in ExprPaths(e) <==> Path(segs) in Subterms(e)
    decreases e, 1
  {
    match e
    case Unary(_, inner) => PathsExactly(inner, segs);
    case Binary(_, l, r) =>
      PathsExactly(l, segs);
      PathsExactly(r, segs);
    case Membership(_, n, hs) =>
      PathsExactly(n, segs);
      PathsExactly(hs, segs);
    case Call(_, args) => ArgsPathsExactly(e, args, segs);
    case _ =>
  }

  lemma {:induction false} ArgsPathsExactly(call: Expr, args: seq<Expr>, segs: seq<string>)
    requires forall a :: a in args ==> a < call
    ensures segs in ArgsPaths(args) <==> Path(segs) in ArgsSubterms(args)
    decreases call, 0, |args|
  {
    if args != [] {
      assert args[0] in args && forall a :: a in args[1..] ==> a in args;
      PathsExactly(args[0], segs);
      ArgsPathsExactly(call, args[1..], segs);
    }
  }

  /** The growing output list of the collector. */
  class PathList {
    var paths: seq<seq<string>>

    constructor ()
      ensures paths == []
    {
      paths := [];
    }

    method Collect(e: Expr)
      modifies this
      ensures paths == old(paths) + ExprPaths(e)
      decreases e, 1
    {
      match e
      case Literal(_) =>
      case Path(segs) => paths := paths + [segs];
      case Unary(_, inner) => Collect(inner);
      case Binary(_, l, r) =>
        Collect(l);
        Collect(r);
      case Membership(_, n, hs) =>
        Collect(n);
        Collect(hs);
      case Call(_, args) => CollectArgs(e, args);
    }

    method CollectPolicy(p: Policy)
      modifies this
      ensures paths == old(paths) + PolicyPaths(p)
    {
      Collect(p.guard);
      if p.action.evidence.Some? {
        Collect(p.action.evidence.value);
      }
    }

    method CollectArgs(ghost call: Expr, args: seq<Expr>)
      requires forall a :: a in args ==> a < call
      modifies this
      ensures paths == old(paths) + ArgsPaths(args)
      decreases call, 0
    {
      assert args[0..] == args;
      for k := 0 to |args|
        invariant old(paths) + ArgsPaths(args) == paths + ArgsPaths(args[k..])
      {
        assert args[k..][0] == args[k] && args[k..][1..] == args[k + 1..];
        assert args[k] in args;
        Collect(args[k]);
      }
    }
  }

  method CollectPaths(prog: Program) returns (out: seq<seq<string>>)
    ensures out == ProgramPaths(prog.policies)
  {
    var ps := prog.policies;
    var list := new PathList();
    assert ps[0..] == ps;
    for k := 0 to |ps|
      invariant ProgramPaths(ps) == list.paths + ProgramPaths(ps[k..])
    {
      assert ps[k..][0] == ps[k] && ps[k..][1..] == ps[k + 1..];
      ghost var before, rest := list.paths, ProgramPaths(ps[k + 1..]);
      list.CollectPolicy(ps[k]);
      assert before + (PolicyPaths(ps[k]) + rest) == list.paths + rest;
    }
    out := list.paths;
  }
}
