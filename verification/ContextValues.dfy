/** What a policy reads under each path of the schema, in every context the host builds. */
module ContextValues {
  import opened Outcomes
  import opened Ast
  import opened CoreTypes
  import opened Values
  import opened Overlay

  lemma {:induction false} WalkOne(j: Json, key: string)
    ensures Walk(j, [key]) == if j.JObject? && key in j.fields then j.fields[key] else JNull
  {
    assert [key][1..] == [];
  }

  lemma {:induction false} WalkMore(j: Json, key: string, rest: seq<string>)
    ensures Walk(j, [key] + rest) == Walk(Walk(j, [key]), rest)
  {
    assert ([key] + rest)[1..] == rest;
    WalkOne(j, key);
    if rest != [] && !(j.JObject? && key in j.fields) {
      assert Walk(JNull, rest) == JNull;
    }
  }

  lemma {:induction false} WalkTwo(j: Json, first: string, second: string)
    ensures Walk(j, [first, second]) == Walk(Walk(j, [first]), [second])
  {
    assert [first, second] == [first] + [second];
    WalkMore(j, first, [second]);
  }

  /** The subtree under a root key; null when the context has none. */
  lemma {:induction false} RootWalk(i: Inputs, ctx: Json, root: string)
    requires IsContext(i, ctx)
    ensures Walk(ctx, [root]) == if RootValue(i, root).Some? then RootValue(i, root).value else JNull
  {
    WalkOne(ctx, root);
    assert RootValue(i, root) == if root in ctx.fields then Some(ctx.fields[root]) else None;
  }

  lemma {:induction false} FieldWalk(i: Inputs, ctx: Json, root: string, key: string)
    requires IsContext(i, ctx)
    ensures Walk(ctx, [root, key]) == if RootValue(i, root).Some? then Walk(RootValue(i, root).value, [key]) else JNull
  {
    WalkTwo(ctx, root, key);
    RootWalk(i, ctx, root);
    WalkOne(JNull, key);
  }

  lemma {:induction false} AgentValues(i: Inputs, ctx: Json)
    requires IsContext(i, ctx)
    ensures Walk(ctx, ["agent", "id"]) == JStr(i.request.agentId)
    ensures Walk(ctx, ["agent", "framework"]) == JStr(i.request.framework)
  {
    FieldWalk(i, ctx, "agent", "id");
    FieldWalk(i, ctx, "agent", "framework");
    WalkOne(AgentObject(i.request), "id");
    WalkOne(AgentObject(i.request), "framework");
  }

  lemma {:induction false} ActionValues(i: Inputs, ctx: Json)
    requires IsContext(i, ctx)
    ensures Walk(ctx, ["action", "kind"]) ==
            match i.request.actionType
            case Shell => JStr("shell")
            case FileRead => JStr("file_read")
            case FileWrite => JStr("file_write")
            case Http => JStr("http")
            case DbQuery => JStr("db_query")
            case Email => JStr("email")
            case Custom => JStr("custom")
    ensures Walk(ctx, ["action", "tool_name"]) == JStr(i.request.toolName)
    ensures Walk(ctx, ["action", "payload"]) == JObject(i.request.payload)
  {
    FieldWalk(i, ctx, "action", "kind");
    FieldWalk(i, ctx, "action", "tool_name");
    FieldWalk(i, ctx, "action", "payload");
    WalkOne(ActionObject(i.request), "kind");
    WalkOne(ActionObject(i.request), "tool_name");
    WalkOne(ActionObject(i.request), "payload");
  }

  /** Below the payload a policy reads what the request carries. */
  lemma {:induction false} PayloadValues(i: Inputs, ctx: Json, segs: seq<string>)
    requires IsContext(i, ctx)
    ensures Walk(ctx, ["action", "payload"] + segs) == Walk(JObject(i.request.payload), segs)
  {
    assert ["action", "payload"] + segs == ["action"] + (["payload"] + segs);
    WalkMore(ctx, "action", ["payload"] + segs);
    WalkMore(Walk(ctx, ["action"]), "payload", segs);
    WalkTwo(ctx, "action", "payload");
    ActionValues(i, ctx);
  }

  lemma {:induction false} WorkspaceValues(i: Inputs, ctx: Json)
    requires IsContext(i, ctx)
    ensures Walk(ctx, ["workspace", "id"]) == JStr(if i.workspaceId.Some? then i.workspaceId.value else "")
    ensures var list := Walk(ctx, ["workspace", "allowlist"]);
            && list.JArray? && |list.xs| == |i.allowlist|
            && forall k :: 0 <= k < |i.allowlist| ==> list.xs[k] == JStr(i.allowlist[k])
  {
    FieldWalk(i, ctx, "workspace", "id");
    FieldWalk(i, ctx, "workspace", "allowlist");
    WalkOne(WorkspaceObject(i), "id");
    WalkOne(WorkspaceObject(i), "allowlist");
  }

  lemma {:induction false} RiskValues(i: Inputs, ctx: Json)
    requires IsContext(i, ctx)
    ensures Walk(ctx, ["risk", "score"]) == JInt(i.riskScore)
    ensures Walk(ctx, ["risk", "decision"]) ==
            match i.decision
            case AllowAction => JStr("allow")
            case ReviewAction => JStr("review")
            case BlockAction => JStr("block")
  {
    FieldWalk(i, ctx, "risk", "score");
    FieldWalk(i, ctx, "risk", "decision");
    WalkOne(RiskObject(i), "score");
    WalkOne(RiskObject(i), "decision");
  }

  /** The conditional roots hold what is configured, or nothing. */
  lemma {:induction false} ConditionalValues(i: Inputs, ctx: Json, segs: seq<string>)
    requires IsContext(i, ctx)
    ensures Walk(ctx, ["ml"] + segs) == if i.mlScores.Some? then Walk(i.mlScores.value, segs) else JNull
    ensures Walk(ctx, ["usage", "session_cost_usd"]) ==
            if i.sessionCost.Some? then JFloat(i.sessionCost.value) else JNull
    ensures Walk(ctx, ["budget", "limit"]) == if i.budgetLimit.Some? then JFloat(i.budgetLimit.value) else JNull
  {
    WalkMore(ctx, "ml", segs);
    RootWalk(i, ctx, "ml");
    assert Walk(JNull, segs) == JNull;
    FieldWalk(i, ctx, "usage", "session_cost_usd");
    FieldWalk(i, ctx, "budget", "limit");
    if i.sessionCost.Some? {
      WalkOne(RootValue(i, "usage").value, "session_cost_usd");
    }
    if i.budgetLimit.Some? {
      WalkOne(RootValue(i, "budget").value, "limit");
    }
  }

  /** The context has no other roots, and its own objects no other fields. */
  lemma {:induction false} NothingElse(i: Inputs, ctx: Json, segs: seq<string>)
    requires IsContext(i, ctx) && segs != [] && Provides(ctx, segs)
    ensures segs[0] in {"agent", "action", "workspace", "risk", "ml", "usage", "budget"}
    ensures |segs| > 1 && segs[0] == "agent" ==> segs[1..] == ["id"] || segs[1..] == ["framework"]
    ensures |segs| > 1 && segs[0] == "action" ==>
              segs[1] == "payload" || segs[1..] == ["kind"] || segs[1..] == ["tool_name"]
    ensures |segs| > 1 && segs[0] == "workspace" ==> segs[1..] == ["id"] || segs[1..] == ["allowlist"]
    ensures |segs| > 1 && segs[0] == "risk" ==> segs[1..] == ["score"] || segs[1..] == ["decision"]
    ensures |segs| > 1 && segs[0] == "usage" ==> segs[1..] == ["session_cost_usd"]
    ensures |segs| > 1 && segs[0] == "budget" ==> segs[1..] == ["limit"]
  {
    ProvidedByContext(i, ctx, segs);
    ProvidedAccepted(i, segs);
    assert |segs| == 2 ==> segs[1..] == [segs[1]];
  }
}
