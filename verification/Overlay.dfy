/**
 The context schema of the policy overlay: which paths a policy may mention, the context
 the host builds for a request, and the agreement between the two.
 */
module Overlay {
  import opened Outcomes
  import opened Ast
  import opened CoreTypes
  import opened Values
  import opened Validator

  // ---- the schema ----

  datatype Schema = Closed(leaves: set<string>) | Open

  function ContextSchema(root: string): Option<Schema> {
    if root == "agent" then Some(Closed({"id", "framework"}))
    else if root == "action" then Some(Closed({"kind", "tool_name", "payload"}))
    else if root == "workspace" then Some(Closed({"id", "allowlist"}))
    else if root == "risk" then Some(Closed({"score", "decision"}))
    else if root == "ml" then Some(Open)
    else if root == "usage" then Some(Closed({"session_cost_usd"}))
    else if root == "budget" then Some(Closed({"limit"}))
    else None
  }

  /** Roots that exist only under some configurations. */
  predicate Conditional(root: string) {
    root == "ml" || root == "usage" || root == "budget"
  }

  /** The paths a program may mention: an empty path is skipped by the check. */
  predicate Accepts(segs: seq<string>) {
    segs == [] || (
      && ContextSchema(segs[0]).Some?
      && var schema := ContextSchema(segs[0]).value;
         schema.Open? || |segs| == 1 ||
         (segs[1] in schema.leaves && (|segs| == 2 || (segs[0] == "action" && segs[1] == "payload"))))
  }

  /** The conditional roots among the paths, in order of first use. */
  function ConditionalRoots(paths: seq<seq<string>>): (roots: seq<string>)
    ensures forall r :: r in roots <==> Conditional(r) && exists p :: p in paths && p != [] && p[0] == r
    ensures forall i, j :: 0 <= i < j < |roots| ==> roots[i] != roots[j]
  {
    if paths == [] then []
    else
      var roots := ConditionalRoots(paths[..|paths| - 1]);
      var p := paths[|paths| - 1];
      assert forall q :: q in paths <==> q in paths[..|paths| - 1] || q == p;
      AddRoot(roots, p)
  }

  function AddRoot(roots: seq<string>, p: seq<string>): seq<string> {
    if p != [] && Conditional(p[0]) && p[0] !in roots then roots + [p[0]] else roots
  }

  lemma {:induction false} RootsStep(paths: seq<seq<string>>, k: nat)
    requires k < |paths|
    ensures ConditionalRoots(paths[..k + 1]) == AddRoot(ConditionalRoots(paths[..k]), paths[k])
  {
    assert paths[..k + 1][..k] == paths[..k];
  }

  /** Whether the schema of the path's root allows what follows the root. */
  method CheckLeaf(segs: seq<string>, schema: Schema) returns (ok: bool)
    requires segs != [] && ContextSchema(segs[0]) == Some(schema)
    ensures ok <==> Accepts(segs)
  {
    if schema.Open? || |segs| == 1 {
      return true;
    }
    if segs[1] !in schema.leaves {
      return false;
    }
    var deeperIsOpen := segs[0] == "action" && segs[1] == "payload";
    return deeperIsOpen || |segs| <= 2;
  }

  /** The first k paths are accepted. */
  predicate AcceptedUpTo(paths: seq<seq<string>>, k: nat) {
    k <= |paths| && forall i :: 0 <= i < k ==> Accepts(paths[i])
  }

  /** Accepts the program, reporting its conditional roots, or rejects its first unknown path. */
  method ValidateContextPaths(prog: Program) returns (r: Result<seq<string>, seq<string>>)
    ensures var paths := ProgramPaths(prog.policies);
            match r
            case Ok(roots) => AcceptedUpTo(paths, |paths|) && roots == ConditionalRoots(paths)
            case Err(bad) => !Accepts(bad) && exists k: nat :: AcceptedUpTo(paths, k) && k < |paths| && paths[k] == bad
  {
    var paths := CollectPaths(prog);
    var conditionalUsed: seq<string> := [];
    for k := 0 to |paths|
      invariant AcceptedUpTo(paths, k)
      invariant conditionalUsed == ConditionalRoots(paths[..k])
    {
      var segs := paths[k];
      RootsStep(paths, k);
      if segs == [] {
        continue;
      }
      if ContextSchema(segs[0]).None? {
        return Err(segs);
      }
      if Conditional(segs[0]) && segs[0] !in conditionalUsed {
        conditionalUsed := conditionalUsed + [segs[0]];
      }
      var ok := CheckLeaf(segs, ContextSchema(segs[0]).value);
      if !ok {
        return Err(segs);
      }
    }
    assert paths[..|paths|] == paths;
    return Ok(conditionalUsed);
  }

  // ---- the context ----

  datatype Request = Request(
    agentId: string,
    framework: string,
    actionType: ActionType,
    toolName: string,
    payload: map<string, Json>)

  datatype Inputs = Inputs(
    request: Request,
    riskScore: i64,
    decision: Decision,
    workspaceId: Option<string>,
    allowlist: seq<string>,
    mlScores: Option<Json>,
    sessionCost: Option<real>,
    budgetLimit: Option<real>)

  function KindName(t: ActionType): string {
    match t
    case Shell => "shell"
    case FileRead => "file_read"
    case FileWrite => "file_write"
    case Http => "http"
    case DbQuery => "db_query"
    case Email => "email"
    case Custom => "custom"
  }

  function DecisionName(d: Decision): string {
    match d
    case AllowAction => "allow"
    case ReviewAction => "review"
    case BlockAction => "block"
  }

  function AgentObject(r: Request): Json {
    JObject(map["id" := JStr(r.agentId), "framework" := JStr(r.framework)])
  }

  function ActionObject(r: Request): Json {
    JObject(map["kind" := JStr(KindName(r.actionType)), "tool_name" := JStr(r.toolName), "payload" := JObject(r.payload)])
  }

  function WorkspaceObject(i: Inputs): Json {
    var id := if i.workspaceId.Some? then i.workspaceId.value else "";
    JObject(map["id" := JStr(id),
                "allowlist" := JArray(seq(|i.allowlist|, k requires 0 <= k < |i.allowlist| => JStr(i.allowlist[k])))])
  }

  function RiskObject(i: Inputs): Json {
    JObject(map["score" := JInt(i.riskScore), "decision" := JStr(DecisionName(i.decision))])
  }

  /** The subtree under a root key, if the context has that key. */
  function RootValue(i: Inputs, root: string): Option<Json> {
    if root == "agent" then Some(AgentObject(i.request))
    else if root == "action" then Some(ActionObject(i.request))
    else if root == "workspace" then Some(WorkspaceObject(i))
    else if root == "risk" then Some(RiskObject(i))
    else if root == "ml" then i.mlScores
    else if root == "usage" then
      if i.sessionCost.Some? then Some(JObject(map["session_cost_usd" := JFloat(i.sessionCost.value)])) else None
    else if root == "budget" then
      if i.budgetLimit.Some? then Some(JObject(map["limit" := JFloat(i.budgetLimit.value)])) else None
    else None
  }

  /** The context holds exactly the root values, under their keys. */
  ghost predicate IsContext(i: Inputs, ctx: Json) {
    && ctx.JObject?
    && forall root :: RootValue(i, root) == if root in ctx.fields then Some(ctx.fields[root]) else None
  }

  method BuildOverlayContext(i: Inputs) returns (ctx: Json)
    ensures IsContext(i, ctx)
  {
    var root := map[
      "agent" := AgentObject(i.request),
      "action" := ActionObject(i.request),
      "workspace" := WorkspaceObject(i),
      "risk" := RiskObject(i)];
    if i.mlScores.Some? {
      root := root["ml" := i.mlScores.value];
    }
    if i.sessionCost.Some? {
      root := root["usage" := JObject(map["session_cost_usd" := JFloat(i.sessionCost.value)])];
    }
    if i.budgetLimit.Some? {
      root := root["budget" := JObject(map["limit" := JFloat(i.budgetLimit.value)])];
    }
    ctx := JObject(root);
  }

  // ---- the schema describes the contexts exactly ----

  /** The context built from i has every key of the path. */
  predicate ProvidedBy(i: Inputs, segs: seq<string>) {
    segs == [] || (RootValue(i, segs[0]).Some? && Provides(RootValue(i, segs[0]).value, segs[1..]))
  }

  lemma ProvidedByContext(i: Inputs, ctx: Json, segs: seq<string>)
    requires IsContext(i, ctx)
    ensures Provides(ctx, segs) <==> ProvidedBy(i, segs)
  {
    if segs != [] {
      assert RootValue(i, segs[0]) == if segs[0] in ctx.fields then Some(ctx.fields[segs[0]]) else None;
    }
  }

  /** A path no configuration can leave unprovided: not under a conditional root, nor inside the payload. */
  predicate Unconditional(segs: seq<string>) {
    segs == [] || (!Conditional(segs[0]) && !(|segs| > 2 && segs[0] == "action" && segs[1] == "payload"))
  }

  const NO_REQUEST := Request("", "", Custom, "", map[])
  const BARE := Inputs(NO_REQUEST, 0, AllowAction, None, [], None, None, None)

  /** Accepted unconditional paths are exactly the ones every context provides. */
  lemma {:induction false} AlwaysProvided(segs: seq<string>)
    ensures Accepts(segs) && Unconditional(segs) <==> forall i :: ProvidedBy(i, segs)
  {
    if Accepts(segs) && Unconditional(segs) {
      forall i ensures ProvidedBy(i, segs) {
        AcceptedProvided(i, segs);
      }
    } else if forall i :: ProvidedBy(i, segs) {
      assert ProvidedBy(BARE, segs);
      ProvidedAccepted(BARE, segs);
    }
  }

  lemma {:induction false} AcceptedProvided(i: Inputs, segs: seq<string>)
    requires Accepts(segs) && Unconditional(segs)
    ensures ProvidedBy(i, segs)
  {
    if |segs| == 2 {
      assert segs[1..] == [segs[1]] && segs[1..][1..] == [];
    } else if |segs| == 1 {
      assert segs[1..] == [];
    }
  }

  /** Every request and configuration has a context. */
  lemma ContextExists(i: Inputs) returns (ctx: Json)
    ensures IsContext(i, ctx)
  {
    var roots := {"agent", "action", "workspace", "risk", "ml", "usage", "budget"};
    ctx := JObject(map root | root in roots && RootValue(i, root).Some? :: RootValue(i, root).value);
  }

  /**
   Of a loaded program, exactly the unconditional paths are found in every context that is ever
   built: a program whose paths are all unconditional never looks up a missing field.
   */
  lemma {:induction false} LoadedPathsProvided(prog: Program, k: nat)
    requires var paths := ProgramPaths(prog.policies); k < |paths| && AcceptedUpTo(paths, |paths|)
    ensures var path := ProgramPaths(prog.policies)[k];
            Unconditional(path) <==> forall i, ctx :: IsContext(i, ctx) ==> Provides(ctx, path)
  {
    var path := ProgramPaths(prog.policies)[k];
    AlwaysProvided(path);
    forall i, ctx | IsContext(i, ctx) ensures Provides(ctx, path) <==> ProvidedBy(i, path) {
      ProvidedByContext(i, ctx, path);
    }
    if forall i, ctx :: IsContext(i, ctx) ==> Provides(ctx, path) {
      forall i ensures ProvidedBy(i, path) {
        var ctx := ContextExists(i);
        assert Provides(ctx, path);
      }
    }
  }

  /** Only programs all of whose paths are accepted and unconditional find every path in every context. */
  lemma {:induction false} ProgramProvidedExactly(prog: Program)
    ensures var paths := ProgramPaths(prog.policies);
            (forall k :: 0 <= k < |paths| ==> Accepts(paths[k]) && Unconditional(paths[k])) <==>
            (forall i, ctx :: IsContext(i, ctx) ==> forall k :: 0 <= k < |paths| ==> Provides(ctx, paths[k]))
  {
    var paths := ProgramPaths(prog.policies);
    forall k | 0 <= k < |paths|
      ensures Accepts(paths[k]) && Unconditional(paths[k]) <==> forall i :: ProvidedBy(i, paths[k])
    {
      AlwaysProvided(paths[k]);
    }
    forall i, ctx, k | IsContext(i, ctx) && 0 <= k < |paths|
      ensures Provides(ctx, paths[k]) <==> ProvidedBy(i, paths[k])
    {
      ProvidedByContext(i, ctx, paths[k]);
    }
    if forall i, ctx :: IsContext(i, ctx) ==> forall k :: 0 <= k < |paths| ==> Provides(ctx, paths[k]) {
      forall i, k | 0 <= k < |paths| ensures ProvidedBy(i, paths[k]) {
        var ctx := ContextExists(i);
        assert Provides(ctx, paths[k]);
      }
    }
  }

  /** A path some context provides is accepted; the bare context provides only unconditional ones. */
  lemma {:induction false} ProvidedAccepted(i: Inputs, segs: seq<string>)
    requires ProvidedBy(i, segs)
    ensures Accepts(segs)
    ensures i == BARE ==> Unconditional(segs)
  {
    if |segs| >= 2 {
      var v := RootValue(i, segs[0]).value;
      assert segs[1..][0] == segs[1];
      if |segs| > 2 && segs[0] != "ml" {
        assert segs[1..][1..][0] == segs[2];
        assert Provides(v.fields[segs[1]], segs[1..][1..]);
      }
    }
  }

  /** A JSON object that has every key of the path. */
  function Nested(segs: seq<string>): (j: Json)
    ensures Provides(j, segs)
    ensures segs != [] ==> j.JObject?
  {
    if segs == [] then JNull else JObject(map[segs[0] := Nested(segs[1..])])
  }

  /** The overlay accepts exactly the paths that some request and configuration provide. */
  lemma {:induction false} AcceptsExactly(segs: seq<string>)
    ensures Accepts(segs) <==> exists i :: ProvidedBy(i, segs)
  {
    if Accepts(segs) {
      AcceptedSomewhere(segs);
    }
    forall i | ProvidedBy(i, segs) ensures Accepts(segs) {
      ProvidedAccepted(i, segs);
    }
  }

  /** Inputs whose context provides an accepted path. */
  function Witness(segs: seq<string>): Inputs
    requires segs != []
  {
    var inner := Nested(segs[1..]);
    var payload := if |segs| > 2 then Nested(segs[2..]).fields else map[];
    Inputs(NO_REQUEST.(payload := payload), 0, AllowAction, None, [], Some(inner), Some(0.0), Some(0.0))
  }

  lemma {:induction false} AcceptedSomewhere(segs: seq<string>)
    requires Accepts(segs)
    ensures exists i :: ProvidedBy(i, segs)
  {
    if segs == [] {
      assert ProvidedBy(BARE, segs);
    } else {
      var i := Witness(segs);
      if Unconditional(segs) {
        AcceptedProvided(i, segs);
      } else if segs[0] == "action" {
        assert segs[1..][0] == segs[1] && segs[1..][1..] == segs[2..];
      } else if |segs| == 2 {
        assert segs[1..][0] == segs[1] && segs[1..][1..] == [];
      }
      assert ProvidedBy(i, segs);
    }
  }
}
