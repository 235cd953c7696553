/** The digest of a workspace policy, taken over a canonical order of its lists. */
module PolicyHash {
  import opened CoreTypes
  import opened Outcomes
  import opened StableSort
  import opened Strings

  datatype ToolPolicy = ToolPolicy(
    toolName: string,
    allowedActionTypes: seq<ActionType>,
    maxDecision: Decision,
    requiresHumanReview: bool,
    destinationFields: seq<string>)

  datatype WorkspacePolicy = WorkspacePolicy(
    workspaceId: string,
    tenantId: Option<string>,
    allowedProtocols: seq<ProtocolKind>,
    tools: seq<ToolPolicy>,
    allowedDomains: seq<string>,
    thresholdBlock: nat,
    thresholdReview: nat)

  function ProtocolName(k: ProtocolKind): string {
    match k
    case Mcp => "Mcp"
    case Acp => "Acp"
    case A2a => "A2a"
    case HttpFunction => "HttpFunction"
    case Unknown => "Unknown"
  }

  function ActionName(a: ActionType): string {
    match a
    case Shell => "Shell"
    case FileRead => "FileRead"
    case FileWrite => "FileWrite"
    case Http => "Http"
    case DbQuery => "DbQuery"
    case Email => "Email"
    case Custom => "Custom"
  }

  lemma ProtocolNamesDiffer(x: ProtocolKind, y: ProtocolKind)
    requires ProtocolName(x) == ProtocolName(y)
    ensures x == y
  {
    var a, b := ProtocolName(x), ProtocolName(y);
    assert |a| == |b| && a[0] == b[0] && (|a| > 1 ==> a[1] == b[1]);
  }

  lemma ActionNamesDiffer(x: ActionType, y: ActionType)
    requires ActionName(x) == ActionName(y)
    ensures x == y
  {
    var a, b := ActionName(x), ActionName(y);
    assert |a| == |b| && a[0] == b[0] && (|a| > 1 ==> a[1] == b[1]);
  }

  const TOOL_NAME: ToolPolicy -> string := (t: ToolPolicy) => t.toolName
  const ITSELF: string -> string := (s: string) => s

  // ---- canonical form ----

  function CanonicalTool(t: ToolPolicy): (c: ToolPolicy)
    ensures c.toolName == t.toolName
  {
    t.(allowedActionTypes := SortBy(t.allowedActionTypes, ActionName),
       destinationFields := SortBy(t.destinationFields, ITSELF))
  }

  function CanonicalTools(tools: seq<ToolPolicy>): (c: seq<ToolPolicy>)
    ensures |c| == |tools|
    ensures forall i :: 0 <= i < |c| ==> c[i] == CanonicalTool(tools[i])
  {
    if tools == [] then [] else [CanonicalTool(tools[0])] + CanonicalTools(tools[1..])
  }

  function Canonical(p: WorkspacePolicy): WorkspacePolicy {
    p.(allowedDomains := SortBy(p.allowedDomains, ITSELF),
       allowedProtocols := SortBy(p.allowedProtocols, ProtocolName),
       tools := CanonicalTools(SortBy(p.tools, TOOL_NAME)))
  }

  // ---- the canonical order ----

  /** Protocols in the alphabetical order of their names. */
  function ProtocolRank(k: ProtocolKind): nat {
    match k
    case A2a => 0
    case Acp => 1
    case HttpFunction => 2
    case Mcp => 3
    case Unknown => 4
  }

  function ActionRank(a: ActionType): nat {
    match a
    case Custom => 0
    case DbQuery => 1
    case Email => 2
    case FileRead => 3
    case FileWrite => 4
    case Http => 5
    case Shell => 6
  }

  lemma {:induction false} ProtocolOrder(x: ProtocolKind, y: ProtocolKind)
    ensures Leq(ProtocolName(x), ProtocolName(y)) <==> ProtocolRank(x) <= ProtocolRank(y)
  {
    LeqTotal(ProtocolName(x), ProtocolName(y));
  }

  lemma {:induction false} ActionOrder(x: ActionType, y: ActionType)
    ensures Leq(ActionName(x), ActionName(y)) <==> ActionRank(x) <= ActionRank(y)
  {
    LeqTotal(ActionName(x), ActionName(y));
    assert "FileRead" == "File" + "Read" && "FileWrite" == "File" + "Write";
    LeqAfter("File", "Read", "Write");
    LeqAfter("File", "Write", "Read");
  }

  /** The canonical form lists everything in ascending order. */
  lemma {:induction false} CanonicalAscends(p: WorkspacePolicy, i: nat, j: nat)
    requires i < j
    ensures var c := Canonical(p);
            && (j < |c.allowedDomains| ==> Leq(c.allowedDomains[i], c.allowedDomains[j]))
            && (j < |c.allowedProtocols| ==> ProtocolRank(c.allowedProtocols[i]) <= ProtocolRank(c.allowedProtocols[j]))
            && (j < |c.tools| ==> Leq(c.tools[i].toolName, c.tools[j].toolName))
  {
    var c := Canonical(p);
    if j < |c.allowedDomains| {
      SortAscends(p.allowedDomains, ITSELF, i, j);
    }
    if j < |c.allowedProtocols| {
      SortAscends(p.allowedProtocols, ProtocolName, i, j);
      ProtocolOrder(c.allowedProtocols[i], c.allowedProtocols[j]);
    }
    if j < |c.tools| {
      SortAscends(p.tools, TOOL_NAME, i, j);
    }
  }

  /** And so does each of its tools. */
  lemma {:induction false} ToolAscends(t: ToolPolicy, i: nat, j: nat)
    requires i < j
    ensures var c := CanonicalTool(t);
            && (j < |c.destinationFields| ==> Leq(c.destinationFields[i], c.destinationFields[j]))
            && (j < |c.allowedActionTypes| ==> ActionRank(c.allowedActionTypes[i]) <= ActionRank(c.allowedActionTypes[j]))
  {
    var c := CanonicalTool(t);
    if j < |c.destinationFields| {
      SortAscends(t.destinationFields, ITSELF, i, j);
    }
    if j < |c.allowedActionTypes| {
      SortAscends(t.allowedActionTypes, ActionName, i, j);
      ActionOrder(c.allowedActionTypes[i], c.allowedActionTypes[j]);
    }
  }

  /** Sorts the lists of a copy of the policy, then digests its serialization. */
  method WorkspacePolicyHash(policy: WorkspacePolicy, digest: WorkspacePolicy -> string) returns (hash: string)
    ensures hash == digest(Canonical(policy))
  {
    var p := policy;
    p := p.(allowedDomains := SortBy(p.allowedDomains, ITSELF));
    p := p.(allowedProtocols := SortBy(p.allowedProtocols, ProtocolName));
    var tools := SortBy(p.tools, TOOL_NAME);
    ghost var sorted := tools;
    for i := 0 to |tools|
      invariant |tools| == |sorted|
      invariant forall k :: 0 <= k < i ==> tools[k] == CanonicalTool(sorted[k])
      invariant forall k :: i <= k < |tools| ==> tools[k] == sorted[k]
    {
      var t := tools[i];
      t := t.(allowedActionTypes := SortBy(t.allowedActionTypes, ActionName));
      t := t.(destinationFields := SortBy(t.destinationFields, ITSELF));
      tools := tools[i := t];
    }
    assert tools == CanonicalTools(sorted);
    return digest(p.(tools := tools));
  }

  // ---- policies that differ only in the order of their lists ----

  predicate SameTool(t: ToolPolicy, u: ToolPolicy) {
    && t.toolName == u.toolName
    && t.maxDecision == u.maxDecision
    && t.requiresHumanReview == u.requiresHumanReview
    && multiset(t.allowedActionTypes) == multiset(u.allowedActionTypes)
    && multiset(t.destinationFields) == multiset(u.destinationFields)
  }

  /** The tools of a and b can be paired off so that each pair is the same tool. */
  ghost predicate Pairing(a: seq<ToolPolicy>, b: seq<ToolPolicy>) {
    if a == [] then b == []
    else exists i {:trigger b[i]} :: 0 <= i < |b| && SameTool(a[0], b[i]) && Pairing(a[1..], b[..i] + b[i + 1..])
  }

  predicate SameSettings(p: WorkspacePolicy, q: WorkspacePolicy) {
    && p.workspaceId == q.workspaceId
    && p.tenantId == q.tenantId
    && p.thresholdBlock == q.thresholdBlock
    && p.thresholdReview == q.thresholdReview
    && multiset(p.allowedProtocols) == multiset(q.allowedProtocols)
    && multiset(p.allowedDomains) == multiset(q.allowedDomains)
  }

  ghost predicate Reordered(p: WorkspacePolicy, q: WorkspacePolicy) {
    SameSettings(p, q) && Pairing(p.tools, q.tools)
  }

  /** Tools that share a name are the same tool; vacuous when names are pairwise distinct. */
  predicate NamesDetermineTools(p: WorkspacePolicy) {
    forall i, j :: 0 <= i < |p.tools| && 0 <= j < |p.tools| && p.tools[i].toolName == p.tools[j].toolName
                   ==> SameTool(p.tools[i], p.tools[j])
  }

  lemma SameToolExactly(t: ToolPolicy, u: ToolPolicy)
    ensures CanonicalTool(t) == CanonicalTool(u) <==> SameTool(t, u)
  {
    forall x, y | ActionName(x) == ActionName(y) ensures x == y {
      ActionNamesDiffer(x, y);
    }
    SortIdentifiesPermutations(t.allowedActionTypes, u.allowedActionTypes, ActionName);
    SortIdentifiesPermutations(t.destinationFields, u.destinationFields, ITSELF);
  }

  lemma {:induction false} CanonicalKeyed(tools: seq<ToolPolicy>, k: string)
    ensures Keyed(CanonicalTools(tools), TOOL_NAME, k) == CanonicalTools(Keyed(tools, TOOL_NAME, k))
  {
    if tools != [] {
      CanonicalKeyed(tools[1..], k);
      assert CanonicalTools(tools)[1..] == CanonicalTools(tools[1..]);
    }
  }

  lemma {:induction false} CanonicalSorted(tools: seq<ToolPolicy>)
    requires SortedBy(tools, TOOL_NAME)
    ensures SortedBy(CanonicalTools(tools), TOOL_NAME)
  {
    if tools != [] {
      CanonicalSorted(tools[1..]);
      assert CanonicalTools(tools)[1..] == CanonicalTools(tools[1..]);
    }
  }

  /** Canonicalising before or after the sort is the same. */
  lemma {:induction false} CanonicalCommutes(tools: seq<ToolPolicy>)
    ensures CanonicalTools(SortBy(tools, TOOL_NAME)) == SortBy(CanonicalTools(tools), TOOL_NAME)
  {
    var late, early := CanonicalTools(SortBy(tools, TOOL_NAME)), SortBy(CanonicalTools(tools), TOOL_NAME);
    SortIsSorted(tools, TOOL_NAME);
    CanonicalSorted(SortBy(tools, TOOL_NAME));
    SortIsSorted(CanonicalTools(tools), TOOL_NAME);
    forall k ensures Keyed(late, TOOL_NAME, k) == Keyed(early, TOOL_NAME, k) {
      CanonicalKeyed(SortBy(tools, TOOL_NAME), k);
      CanonicalKeyed(tools, k);
      SortStable(tools, TOOL_NAME, k);
      SortStable(CanonicalTools(tools), TOOL_NAME, k);
    }
    SortedUnique(late, early, TOOL_NAME);
  }

  lemma {:induction false} WithoutAt<T>(s: seq<T>, i: nat)
    requires i < |s|
    ensures multiset(s) == multiset{s[i]} + multiset(s[..i] + s[i + 1..])
  {
    assert s == s[..i] + [s[i]] + s[i + 1..];
  }

  lemma {:induction false} CanonicalWithout(tools: seq<ToolPolicy>, i: nat)
    requires i < |tools|
    ensures CanonicalTools(tools[..i] + tools[i + 1..]) == CanonicalTools(tools)[..i] + CanonicalTools(tools)[i + 1..]
  {
  }

  lemma {:induction false} CancelMember<T>(x: T, a: multiset<T>, b: multiset<T>)
    ensures multiset{x} + a == multiset{x} + b <==> a == b
  {
    if multiset{x} + a == multiset{x} + b {
      assert multiset{x} + a - multiset{x} == a && multiset{x} + b - multiset{x} == b;
    }
  }

  /** Removing one tool that both sides have keeps whether they hold the same tools. */
  lemma {:induction false} RemoveBoth(a: seq<ToolPolicy>, b: seq<ToolPolicy>, i: nat)
    requires a != [] && i < |b| && SameTool(a[0], b[i])
    ensures multiset(CanonicalTools(a[1..])) == multiset(CanonicalTools(b[..i] + b[i + 1..]))
            <==> multiset(CanonicalTools(a)) == multiset(CanonicalTools(b))
  {
    var ca, cb := CanonicalTools(a), CanonicalTools(b);
    assert ca == [ca[0]] + CanonicalTools(a[1..]);
    SameToolExactly(a[0], b[i]);
    CanonicalWithout(b, i);
    WithoutAt(cb, i);
    CancelMember(ca[0], multiset(CanonicalTools(a[1..])), multiset(CanonicalTools(b[..i] + b[i + 1..])));
  }

  lemma {:induction false} MemberFound(a: seq<ToolPolicy>, b: seq<ToolPolicy>) returns (i: nat)
    requires a != [] && multiset(CanonicalTools(a)) == multiset(CanonicalTools(b))
    ensures i < |b| && SameTool(a[0], b[i])
  {
    var ca, cb := CanonicalTools(a), CanonicalTools(b);
    assert ca[0] in multiset(ca);
    assert ca[0] in cb;
    i :| i < |cb| && cb[i] == ca[0];
    SameToolExactly(a[0], b[i]);
  }

  lemma {:induction false} PairingExactly(a: seq<ToolPolicy>, b: seq<ToolPolicy>)
    ensures Pairing(a, b) <==> multiset(CanonicalTools(a)) == multiset(CanonicalTools(b))
    decreases a
  {
    if a == [] {
      assert b != [] ==> CanonicalTools(b)[0] in multiset(CanonicalTools(b));
    } else {
      forall i: nat | i < |b| && SameTool(a[0], b[i])
        ensures Pairing(a[1..], b[..i] + b[i + 1..]) <==> multiset(CanonicalTools(a)) == multiset(CanonicalTools(b))
      {
        PairingExactly(a[1..], b[..i] + b[i + 1..]);
        RemoveBoth(a, b, i);
      }
      if multiset(CanonicalTools(a)) == multiset(CanonicalTools(b)) {
        var i := MemberFound(a, b);
        assert Pairing(a[1..], b[..i] + b[i + 1..]);
      }
    }
  }

  // ---- what the canonical form identifies ----

  lemma SettingsExactly(p: WorkspacePolicy, q: WorkspacePolicy)
    ensures Canonical(p).(tools := []) == Canonical(q).(tools := []) <==> SameSettings(p, q)
  {
    forall x, y | ProtocolName(x) == ProtocolName(y) ensures x == y {
      ProtocolNamesDiffer(x, y);
    }
    SortIdentifiesPermutations(p.allowedProtocols, q.allowedProtocols, ProtocolName);
    SortIdentifiesPermutations(p.allowedDomains, q.allowedDomains, ITSELF);
  }

  /** For all policies: canonical forms agree exactly when, name by name, so do the tools in order. */
  lemma CanonicalExactly(p: WorkspacePolicy, q: WorkspacePolicy)
    ensures Canonical(p) == Canonical(q) <==>
            SameSettings(p, q) && SameByKey(CanonicalTools(p.tools), CanonicalTools(q.tools), TOOL_NAME)
  {
    SettingsExactly(p, q);
    CanonicalCommutes(p.tools);
    CanonicalCommutes(q.tools);
    SortIdentifies(CanonicalTools(p.tools), CanonicalTools(q.tools), TOOL_NAME);
  }

  /** Lossless: policies with one canonical form differ only in the order of their lists. */
  lemma CanonicalLossless(p: WorkspacePolicy, q: WorkspacePolicy)
    requires Canonical(p) == Canonical(q)
    ensures Reordered(p, q)
  {
    CanonicalExactly(p, q);
    SameByKeyMembers(CanonicalTools(p.tools), CanonicalTools(q.tools), TOOL_NAME);
    PairingExactly(p.tools, q.tools);
  }

  lemma NamesDetermineCanonical(p: WorkspacePolicy)
    requires NamesDetermineTools(p)
    ensures KeysDetermine(CanonicalTools(p.tools), TOOL_NAME)
  {
    var c := CanonicalTools(p.tools);
    forall i, j | 0 <= i < |c| && 0 <= j < |c| && TOOL_NAME(c[i]) == TOOL_NAME(c[j]) ensures c[i] == c[j] {
      SameToolExactly(p.tools[i], p.tools[j]);
    }
  }

  /** Order-blind: reordering the lists of such a policy does not change its canonical form. */
  lemma CanonicalOrderBlind(p: WorkspacePolicy, q: WorkspacePolicy)
    requires NamesDetermineTools(p) && Reordered(p, q)
    ensures Canonical(p) == Canonical(q)
  {
    NamesDetermineCanonical(p);
    PairingExactly(p.tools, q.tools);
    MembersSameByKey(CanonicalTools(p.tools), CanonicalTools(q.tools), TOOL_NAME);
    CanonicalExactly(p, q);
  }

  function ToFront(p: WorkspacePolicy, i: nat): WorkspacePolicy
    requires i < |p.tools|
  {
    p.(tools := [p.tools[i]] + (p.tools[..i] + p.tools[i + 1..]))
  }

  lemma ToFrontReorders(p: WorkspacePolicy, i: nat)
    requires i < |p.tools|
    ensures Reordered(p, ToFront(p, i))
  {
    var c, d := CanonicalTools(p.tools), CanonicalTools(ToFront(p, i).tools);
    CanonicalWithout(p.tools, i);
    WithoutAt(c, i);
    assert d == [c[i]] + (c[..i] + c[i + 1..]);
    PairingExactly(p.tools, ToFront(p, i).tools);
  }

  ghost predicate OrderBlind(p: WorkspacePolicy) {
    forall q :: Reordered(p, q) ==> Canonical(q) == Canonical(p)
  }

  /** The digest ignores order exactly for policies whose same-named tools are the same tool. */
  lemma OrderBlindExactly(p: WorkspacePolicy)
    ensures OrderBlind(p) <==> NamesDetermineTools(p)
  {
    if NamesDetermineTools(p) {
      forall q | Reordered(p, q) ensures Canonical(q) == Canonical(p) {
        CanonicalOrderBlind(p, q);
      }
    }
    if OrderBlind(p) {
      forall i, j | 0 <= i < |p.tools| && 0 <= j < |p.tools| && p.tools[i].toolName == p.tools[j].toolName
        ensures SameTool(p.tools[i], p.tools[j])
      {
        ToFrontReorders(p, i);
        ToFrontReorders(p, j);
        FrontToolsAgree(ToFront(p, i), ToFront(p, j));
      }
    }
  }

  lemma FrontToolsAgree(p: WorkspacePolicy, q: WorkspacePolicy)
    requires Canonical(p) == Canonical(q)
    requires p.tools != [] && q.tools != [] && p.tools[0].toolName == q.tools[0].toolName
    ensures SameTool(p.tools[0], q.tools[0])
  {
    CanonicalExactly(p, q);
    var k, c, d := p.tools[0].toolName, CanonicalTools(p.tools), CanonicalTools(q.tools);
    assert Keyed(c, TOOL_NAME, k) == Keyed(d, TOOL_NAME, k);
    assert Keyed(c, TOOL_NAME, k)[0] == c[0] && Keyed(d, TOOL_NAME, k)[0] == d[0];
    SameToolExactly(p.tools[0], q.tools[0]);
  }

  /** Swapping two same-named tools with different decisions is a reordering the digest notices. */
  lemma DuplicateNamesNoticed(p: WorkspacePolicy, t: ToolPolicy, u: ToolPolicy)
    requires p.tools == [t, u] && t.toolName == u.toolName && t.maxDecision != u.maxDecision
    ensures Reordered(p, ToFront(p, 1)) && Canonical(p) != Canonical(ToFront(p, 1))
  {
    ToFrontReorders(p, 1);
    if Canonical(p) == Canonical(ToFront(p, 1)) {
      FrontToolsAgree(p, ToFront(p, 1));
    }
  }

  /** With an injective digest, two such policies share a hash exactly when one reorders the other. */
  lemma HashExactly(p: WorkspacePolicy, q: WorkspacePolicy, digest: WorkspacePolicy -> string)
    requires forall x, y :: digest(x) == digest(y) ==> x == y
    requires NamesDetermineTools(p)
    ensures digest(Canonical(p)) == digest(Canonical(q)) <==> Reordered(p, q)
  {
    if digest(Canonical(p)) == digest(Canonical(q)) {
      CanonicalLossless(p, q);
    }
    if Reordered(p, q) {
      CanonicalOrderBlind(p, q);
    }
  }
}
