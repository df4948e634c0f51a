/** Lowering as a compiler pass: a committed contract and its frozen inputs become a graph of
    executable nodes with artifact bindings. */
module Lowering {
  import opened Prelude
  import opened Ordering
  import opened Contracts
  import opened Canonical
  import opened Digests
  import opened Validation
  import Spec = SpecCheck

  // ---- Frozen inputs ------------------------------------------------------------------

  datatype Runnable = Runnable(image: string, command: seq<string>, args: seq<string>)

  datatype Decision = Allow | Deny | UnknownDecision

  datatype Input = Input(runID: string, revision: Revision, submittedAt: Spec.Timestamp, requesterID: string,
                         traceID: string, tools: map<string, ToolFunctionDecl>, runnables: map<string, Runnable>,
                         authorization: Decision)

  /** The frozen declarations as a resolver; lowering consults no assets. */
  function ResolversOf(tools: map<string, ToolFunctionDecl>): Resolvers {
    Resolvers(h => if h in tools then Some(tools[h]) else None, (a, b, c) => None)
  }

  function VerifyBody(sha: Hash, rev: Revision, c: Contract, text: string): (r: Result<Contract>)
    ensures r.Ok? ==> r.value == c && VersionsOK(c) && rev.canonicalBody == text
                      && rev.contractDigest == DigestCanonical(sha, text)
  {
    if rev.semVersion != ContractVersionV1 || rev.canonVersion != ContractVersionV1 || !VersionsOK(c) then
      Err(UnsupportedVersion)
    else if text != rev.canonicalBody then Err(Integrity)
    else if DigestCanonical(sha, text) != rev.contractDigest then Err(Integrity)
    else Ok(c)
  }

  /** The revision is an exact v1 revision whose contract re-canonicalizes to the stored
      body and digest. */
  function VerifyRevision(sha: Hash, rev: Revision): (r: Result<Contract>)
    ensures r.Ok? ==> VersionsOK(r.value) && rev.contract == Some(r.value)
                      && rev.canonicalBody == CanonicalText(r.value)
                      && rev.contractDigest == DigestCanonical(sha, CanonicalText(r.value))
  {
    if rev.pipelineID == "" || rev.revisionID == "" then Err(MissingFrozenInput)
    else if rev.contract.None? then Err(Integrity)
    else VerifyBody(sha, rev, rev.contract.value, CanonicalText(rev.contract.value))
  }

  ghost predicate InProfile(c: Contract) {
    && (forall n :: n in c.nodes ==> n.toolProfile.None? && n.params == [])
    && c.bindings == [] && c.slots == []
  }

  /** The contract feature behind a refusal by the profile check. */
  ghost predicate ProfileReport(c: Contract, code: Code) {
    || (code == UnsupportedCapability && exists n :: n in c.nodes && n.toolProfile.Some?)
    || (code == NotRepresentable && (c.bindings != [] || c.slots != [] || exists n :: n in c.nodes && n.params != []))
  }

  method CheckProfile(c: Contract) returns (r: Option<Code>)
    ensures r.None? <==> InProfile(c)
    ensures r.Some? ==> ProfileReport(c, r.value)
  {
    for i := 0 to |c.nodes|
      invariant forall n :: n in c.nodes[..i] ==> n.toolProfile.None? && n.params == []
    {
      TakeNext(c.nodes, i);
      if c.nodes[i].toolProfile.Some? {
        assert c.nodes[i] in c.nodes;
        return Some(UnsupportedCapability);
      }
      if |c.nodes[i].params| > 0 {
        assert c.nodes[i] in c.nodes;
        return Some(NotRepresentable);
      }
    }
    TakeAll(c.nodes);
    if |c.bindings| > 0 || |c.slots| > 0 { return Some(NotRepresentable); }
    r := None;
  }

  /** Everything the caller froze, before any node is looked at. */
  ghost predicate FrozenOK(sha: Hash, input: Input, c: Contract) {
    && input.runID != "" && input.submittedAt.Instant?
    && VerifyRevision(sha, input.revision) == Ok(c) && InProfile(c)
    && input.authorization == Allow
  }

  /** What is wrong with a revision that verification refuses. */
  ghost predicate RevisionReport(sha: Hash, rev: Revision, code: Code) {
    || (code == MissingFrozenInput && (rev.pipelineID == "" || rev.revisionID == ""))
    || (code == UnsupportedVersion && (rev.semVersion != ContractVersionV1 || rev.canonVersion != ContractVersionV1
                                       || (rev.contract.Some? && !VersionsOK(rev.contract.value))))
    || (code == Integrity && (rev.contract.None? || CanonicalText(rev.contract.value) != rev.canonicalBody
                              || DigestCanonical(sha, rev.canonicalBody) != rev.contractDigest))
  }

  /** The violation behind a refusal of the frozen input. */
  ghost predicate FrozenReport(sha: Hash, input: Input, code: Code) {
    || (code == MissingFrozenInput && (input.runID == "" || input.submittedAt.ZeroTime?))
    || (code == InvalidFrozenInput && input.submittedAt.Unencodable?)
    || RevisionReport(sha, input.revision, code)
    || (input.revision.contract.Some? && ProfileReport(input.revision.contract.value, code))
    || (code == AuthorizationDenied && input.authorization == Deny)
    || (code == AuthorizationUnknown && input.authorization == UnknownDecision)
  }

  /** What an intact v1 revision is. */
  predicate RevisionIntact(sha: Hash, rev: Revision) {
    && rev.pipelineID != "" && rev.revisionID != "" && rev.contract.Some?
    && rev.semVersion == ContractVersionV1 && rev.canonVersion == ContractVersionV1 && VersionsOK(rev.contract.value)
    && CanonicalText(rev.contract.value) == rev.canonicalBody
    && DigestCanonical(sha, rev.canonicalBody) == rev.contractDigest
  }

  /** Verification passes exactly the intact revisions, with the contract they carry, and a
      refusal's code names a defect that is there. */
  lemma VerifyExact(sha: Hash, rev: Revision)
    ensures VerifyRevision(sha, rev).Ok? <==> RevisionIntact(sha, rev)
    ensures VerifyRevision(sha, rev).Ok? ==> VerifyRevision(sha, rev).value == rev.contract.value
    ensures VerifyRevision(sha, rev).Err? ==> RevisionReport(sha, rev, VerifyRevision(sha, rev).code)
  {
    if VerifyRevision(sha, rev).Err? { RevisionRefused(sha, rev); }
  }

  lemma RevisionRefused(sha: Hash, rev: Revision)
    requires VerifyRevision(sha, rev).Err?
    ensures RevisionReport(sha, rev, VerifyRevision(sha, rev).code)
  {
  }

  method CheckFrozen(sha: Hash, input: Input) returns (r: Result<Contract>)
    ensures r.Ok? <==> exists c :: FrozenOK(sha, input, c)
    ensures r.Ok? ==> FrozenOK(sha, input, r.value)
    ensures r.Err? ==> FrozenReport(sha, input, r.code)
  {
    if input.runID == "" { return Err(MissingFrozenInput); }
    var time := Spec.CheckTimestamp(input.submittedAt);
    if time.Some? { return Err(time.value); }
    var c := VerifyRevision(sha, input.revision);
    if c.Err? {
      RevisionRefused(sha, input.revision);
      return c;
    }
    var profile := CheckProfile(c.value);
    if profile.Some? { return Err(profile.value); }
    if input.authorization == Deny { return Err(AuthorizationDenied); }
    if input.authorization != Allow { return Err(AuthorizationUnknown); }
    assert FrozenOK(sha, input, c.value);
    r := c;
  }

  // ---- What a node and an edge are lowered to -----------------------------------------

  predicate Runs(input: Input, n: Node) {
    n.casHash in input.runnables && Spec.PinnedImage(input.runnables[n.casHash].image)
  }

  ghost predicate NodesLowerable(input: Input, nodes: seq<Node>) {
    && NoDuplicates(NodeIDs(nodes))
    && forall n :: n in nodes ==> n.nodeID != "" && n.casHash in input.tools && Runs(input, n)
  }

  function RequiredAt(decls: Decls, node: string, name: string): bool {
    node in decls && name in decls[node].inputs && decls[node].inputs[name].required
  }

  function BindingOf(decls: Decls, e: DirectEdge): Spec.ArtifactBinding {
    Spec.ArtifactBinding(e.toPort, e.toPort, e.fromNode, e.fromPort, RequiredAt(decls, e.toNode, e.toPort))
  }

  /** The bindings of one consumer: one for each of its incoming edges, in edge order. */
  function BindingsFor(decls: Decls, edges: seq<DirectEdge>, id: string): seq<Spec.ArtifactBinding> {
    if edges == [] then []
    else
      var n := |edges| - 1;
      var before := BindingsFor(decls, edges[..n], id);
      if edges[n].toNode == id then before + [BindingOf(decls, edges[n])] else before
  }

  /** The dependency pairs in edge order, each once. */
  function GraphEdges(edges: seq<DirectEdge>): seq<seq<string>> {
    if edges == [] then []
    else
      var n := |edges| - 1;
      var before := GraphEdges(edges[..n]);
      var pair := [edges[n].fromNode, edges[n].toNode];
      if pair in before then before else before + [pair]
  }

  /** A node resolved against its pin, before any edge is bound to it. */
  ghost function BareNode(input: Input, n: Node): Spec.SpecNode
    requires n.casHash in input.tools && n.casHash in input.runnables
  {
    var decl, run := input.tools[n.casHash], input.runnables[n.casHash];
    Spec.SpecNode(n.nodeID, run.image, run.command, run.args, Listing(decl.inputs.Keys), Listing(decl.outputs.Keys), [])
  }

  ghost predicate IsBare(input: Input, n: Node, s: Spec.SpecNode) {
    n.casHash in input.tools && n.casHash in input.runnables && s == BareNode(input, n)
  }

  ghost function NodeOf(input: Input, decls: Decls, n: Node, edges: seq<DirectEdge>): Spec.SpecNode
    requires n.casHash in input.tools && n.casHash in input.runnables
  {
    BareNode(input, n).(bindings := BindingsFor(decls, edges, n.nodeID))
  }

  ghost function NodesFor(input: Input, decls: Decls, nodes: seq<Node>, edges: seq<DirectEdge>): (r: seq<Spec.SpecNode>)
    requires NodesLowerable(input, nodes)
    ensures |r| == |nodes| && forall i :: 0 <= i < |nodes| ==> r[i] == NodeOf(input, decls, nodes[i], edges)
  {
    seq(|nodes|, i requires 0 <= i < |nodes| => assert nodes[i] in nodes; NodeOf(input, decls, nodes[i], edges))
  }

  function Metadata(rev: Revision): map<string, string> {
    map[Spec.KeyPipelineID := rev.pipelineID, Spec.KeyRevisionID := rev.revisionID,
        Spec.KeyContractDigest := rev.contractDigest]
  }

  function Header(input: Input, nodes: seq<Spec.SpecNode>, edges: seq<seq<string>>): Spec.RunSpec {
    Spec.RunSpec(input.runID, input.submittedAt, Spec.FailFast, input.requesterID, input.traceID, nodes, edges,
                 Spec.MaxAttemptsV1, Metadata(input.revision))
  }

  ghost function SpecOf(input: Input, decls: Decls, c: Contract): Spec.RunSpec
    requires NodesLowerable(input, Sort(c.nodes, NodeKey))
  {
    var edges := Sort(c.edges, EdgeKey);
    Header(input, NodesFor(input, decls, Sort(c.nodes, NodeKey), edges), GraphEdges(edges))
  }

  function SourceOf(e: DirectEdge): Port { Port(e.fromNode, e.fromPort) }

  /** No output port feeds more than one input. */
  ghost predicate NoFanOut(edges: seq<DirectEdge>) { NoDuplicates(Map(SourceOf, edges)) }

  ghost predicate EdgesLowerable(decls: Decls, edges: seq<DirectEdge>) {
    && (forall e :: e in edges ==> EdgeOK(decls, e))
    && NoFanOut(edges) && NoDuplicates(EdgeTargets(edges))
  }

  ghost predicate LinksLowerable(decls: Decls, edges: seq<DirectEdge>) {
    EdgesLowerable(decls, edges) && NoneMissing(decls, multiset(EdgeTargets(edges)))
  }

  /** The result of a successful lowering, and when there is one. */
  ghost predicate LoweredBy(sha: Hash, input: Input, c: Contract, decls: Decls, spec: Spec.RunSpec) {
    var nodes := Sort(c.nodes, NodeKey);
    && FrozenOK(sha, input, c)
    && NodesLowerable(input, nodes) && Pinned(nodes, ResolversOf(input.tools), decls)
    && LinksLowerable(decls, Sort(c.edges, EdgeKey))
    && spec == SpecOf(input, decls, c) && Spec.SpecOK(spec)
  }

  ghost predicate LoweredTo(sha: Hash, input: Input, spec: Spec.RunSpec) {
    exists c, decls :: LoweredBy(sha, input, c, decls, spec)
  }

  // ---- The nodes ----------------------------------------------------------------------

  type Index = map<string, nat>

  ghost predicate IndexOf(index: Index, nodes: seq<Node>) {
    && (forall i :: 0 <= i < |nodes| ==> nodes[i].nodeID in index && index[nodes[i].nodeID] == i)
    && (forall id :: id in index ==> index[id] < |nodes| && nodes[index[id]].nodeID == id)
  }

  datatype Resolved = Resolved(decls: Decls, index: Index, nodes: seq<Spec.SpecNode>)

  lemma IndexNew(index: Index, nodes: seq<Node>, i: nat)
    requires i < |nodes| && IndexOf(index, nodes[..i])
    ensures nodes[i].nodeID in index <==> nodes[i].nodeID in NodeIDs(nodes)[..i]
  {
    var id := nodes[i].nodeID;
    if id in index { assert NodeIDs(nodes)[..i][index[id]] == id; }
    if id in NodeIDs(nodes)[..i] {
      var j :| 0 <= j < i && NodeIDs(nodes)[..i][j] == id;
      assert nodes[..i][j].nodeID == id;
    }
  }

  /** One node resolved against its exact pin. */
  method ResolveNode(input: Input, n: Node) returns (r: Result<Spec.SpecNode>)
    requires n.nodeID != ""
    ensures r.Ok? <==> n.casHash in input.tools && Runs(input, n)
    ensures r.Ok? ==> IsBare(input, n, r.value)
    ensures r.Err? ==> r.code == if n.casHash in input.tools then RunnableUnresolved else ToolFunctionUnresolved
  {
    if n.casHash !in input.tools { return Err(ToolFunctionUnresolved); }
    if n.casHash !in input.runnables { return Err(RunnableUnresolved); }
    var decl, run := input.tools[n.casHash], input.runnables[n.casHash];
    if !Spec.PinnedImage(run.image) { return Err(RunnableUnresolved); }
    var inputs := SortedKeys(decl.inputs);
    var outputs := SortedKeys(decl.outputs);
    r := Ok(Spec.SpecNode(n.nodeID, run.image, run.command, run.args, inputs, outputs, []));
  }

  ghost predicate ResolvedOK(input: Input, nodes: seq<Node>, r: Resolved) {
    && NodesLowerable(input, nodes)
    && Pinned(nodes, ResolversOf(input.tools), r.decls)
    && IndexOf(r.index, nodes)
    && |r.nodes| == |nodes| && forall j :: 0 <= j < |nodes| ==> IsBare(input, nodes[j], r.nodes[j])
  }

  lemma LowerableNext(input: Input, nodes: seq<Node>, i: nat, index: Index)
    requires i < |nodes| && NodesLowerable(input, nodes[..i]) && IndexOf(index, nodes[..i])
    requires nodes[i].nodeID != "" && nodes[i].nodeID !in index && nodes[i].casHash in input.tools && Runs(input, nodes[i])
    ensures NodesLowerable(input, nodes[..i+1])
  {
    assert NodeIDs(nodes)[..i] == NodeIDs(nodes[..i]) && NodeIDs(nodes)[..i+1] == NodeIDs(nodes[..i+1]);
    TakeNext(nodes, i);
    NextIsNew(NodeIDs(nodes), i);
    IndexNew(index, nodes, i);
  }

  lemma IndexNext(index: Index, nodes: seq<Node>, i: nat)
    requires i < |nodes| && IndexOf(index, nodes[..i]) && nodes[i].nodeID !in index
    ensures IndexOf(index[nodes[i].nodeID := i], nodes[..i+1])
  {
    TakeNext(nodes, i);
  }

  lemma ResolvedNext(input: Input, nodes: seq<Node>, i: nat, r: Resolved, node: Spec.SpecNode)
    requires i < |nodes| && ResolvedOK(input, nodes[..i], r)
    requires nodes[i].nodeID != "" && nodes[i].nodeID !in r.index && Runs(input, nodes[i]) && IsBare(input, nodes[i], node)
    ensures var id := nodes[i].nodeID;
            ResolvedOK(input, nodes[..i+1], Resolved(r.decls[id := input.tools[nodes[i].casHash]], r.index[id := i], r.nodes + [node]))
  {
    LowerableNext(input, nodes, i, r.index);
    IndexNext(r.index, nodes, i);
    IndexNew(r.index, nodes, i);
    PinnedKeys(nodes, i, ResolversOf(input.tools), r.decls, nodes[i].nodeID);
    PinnedNext(nodes, i, ResolversOf(input.tools), r.decls, input.tools[nodes[i].casHash]);
  }

  /** The node behind a refusal. */
  ghost predicate LowerNodesReport(input: Input, nodes: seq<Node>, code: Code) {
    || (code == InvalidContract && exists n :: n in nodes && n.nodeID == "")
    || (code == Duplicate && !NoDuplicates(NodeIDs(nodes)))
    || (code == ToolFunctionUnresolved && exists n :: n in nodes && n.casHash !in input.tools)
    || (code == RunnableUnresolved && exists n :: n in nodes && !Runs(input, n))
  }

  lemma NodeRefused(input: Input, nodes: seq<Node>, i: nat, r: Resolved, code: Code)
    requires i < |nodes| && ResolvedOK(input, nodes[..i], r)
    requires || (code == InvalidContract && nodes[i].nodeID == "")
             || (code == Duplicate && nodes[i].nodeID in r.index)
             || (code == ToolFunctionUnresolved && nodes[i].casHash !in input.tools)
             || (code == RunnableUnresolved && !Runs(input, nodes[i]))
    ensures !NodesLowerable(input, nodes) && LowerNodesReport(input, nodes, code)
  {
    assert nodes[i] in nodes;
    assert NodeIDs(nodes)[..i] == NodeIDs(nodes[..i]);
    NextIsNew(NodeIDs(nodes), i);
    IndexNew(r.index, nodes, i);
  }

  method LowerNodes(input: Input, nodes: seq<Node>) returns (r: Result<Resolved>)
    ensures r.Ok? <==> NodesLowerable(input, nodes)
    ensures r.Ok? ==> ResolvedOK(input, nodes, r.value)
    ensures r.Err? ==> LowerNodesReport(input, nodes, r.code)
  {
    var done := Resolved(map[], map[], []);
    for i := 0 to |nodes|
      invariant ResolvedOK(input, nodes[..i], done)
    {
      var n := nodes[i];
      if n.nodeID == "" || n.nodeID in done.index {
        var code := if n.nodeID == "" then InvalidContract else Duplicate;
        NodeRefused(input, nodes, i, done, code);
        return Err(code);
      }
      var node := ResolveNode(input, n);
      if node.Err? {
        NodeRefused(input, nodes, i, done, node.code);
        return Err(node.code);
      }
      ResolvedNext(input, nodes, i, done, node.value);
      done := Resolved(done.decls[n.nodeID := input.tools[n.casHash]], done.index[n.nodeID := i], done.nodes + [node.value]);
    }
    TakeAll(nodes);
    r := Ok(done);
  }

  // ---- The edges ----------------------------------------------------------------------

  /** Appending one edge appends one binding, at its consumer and nowhere else. */
  lemma NodesNext(input: Input, decls: Decls, nodes: seq<Node>, index: Index, edges: seq<DirectEdge>, i: nat)
    requires NodesLowerable(input, nodes) && IndexOf(index, nodes) && i < |edges| && edges[i].toNode in index
    ensures var before := NodesFor(input, decls, nodes, edges[..i]);
            var k := index[edges[i].toNode];
            NodesFor(input, decls, nodes, edges[..i+1])
            == before[k := before[k].(bindings := before[k].bindings + [BindingOf(decls, edges[i])])]
  {
    TakeNext(edges, i);
    assert edges[..i+1][..i] == edges[..i];
    var after := NodesFor(input, decls, nodes, edges[..i+1]);
    var before := NodesFor(input, decls, nodes, edges[..i]);
    forall j | 0 <= j < |nodes| && j != index[edges[i].toNode] ensures after[j] == before[j] {
      assert nodes[j].nodeID != edges[i].toNode;
    }
  }

  lemma GraphNext(edges: seq<DirectEdge>, i: nat)
    requires i < |edges|
    ensures var pair := [edges[i].fromNode, edges[i].toNode];
            var before := GraphEdges(edges[..i]);
            GraphEdges(edges[..i+1]) == if pair in before then before else before + [pair]
  {
    assert edges[..i+1][..i] == edges[..i];
  }

  lemma PinnedIndexed(nodes: seq<Node>, res: Resolvers, decls: Decls, index: Index, id: string)
    requires Pinned(nodes, res, decls) && IndexOf(index, nodes)
    ensures id in decls <==> id in index
  {
    if id in decls {
      var n :| n in nodes && n.nodeID == id;
      var i :| 0 <= i < |nodes| && nodes[i] == n;
    }
    if id in index { assert nodes[index[id]] in nodes; }
  }

  /** One edge against the declarations and the ports already used. */
  method CheckEdge(decls: Decls, e: DirectEdge, consumed: set<Port>, bound: set<Port>) returns (r: Option<Code>)
    ensures r.None? <==> EdgeOK(decls, e) && SourceOf(e) !in consumed && EdgeTarget(e) !in bound
    ensures r.Some? ==> || EdgeFault(decls, e) == r
                        || (r.value == NotRepresentable && SourceOf(e) in consumed)
                        || (r.value == ProviderConflict && EdgeTarget(e) in bound)
  {
    var fault := EdgeFault(decls, e);
    if fault.Some? { return fault; }
    if SourceOf(e) in consumed { return Some(NotRepresentable); }
    if EdgeTarget(e) in bound { return Some(ProviderConflict); }
    r := None;
  }

  /** The edges so far are lowerable; the next one keeps it so, or the list is not. */
  lemma EdgesNext(decls: Decls, edges: seq<DirectEdge>, i: nat)
    requires i < |edges| && EdgesLowerable(decls, edges[..i])
    ensures var ok := EdgeOK(decls, edges[i]) && SourceOf(edges[i]) !in Map(SourceOf, edges[..i])
                      && EdgeTarget(edges[i]) !in EdgeTargets(edges[..i]);
            if ok then EdgesLowerable(decls, edges[..i+1]) else !EdgesLowerable(decls, edges)
    ensures SourceOf(edges[i]) in Map(SourceOf, edges[..i]) ==> !NoFanOut(edges)
    ensures EdgeTarget(edges[i]) in EdgeTargets(edges[..i]) ==> !NoDuplicates(EdgeTargets(edges))
  {
    var sources, targets := Map(SourceOf, edges), EdgeTargets(edges);
    assert sources[..i] == Map(SourceOf, edges[..i]) && sources[..i+1] == Map(SourceOf, edges[..i+1]);
    assert targets[..i] == EdgeTargets(edges[..i]) && targets[..i+1] == EdgeTargets(edges[..i+1]);
    TakeNext(edges, i);
    NextIsNew(sources, i);
    NextIsNew(targets, i);
    assert edges[i] in edges;
  }

  lemma PortsNext(edges: seq<DirectEdge>, i: nat)
    requires i < |edges|
    ensures Map(SourceOf, edges[..i+1]) == Map(SourceOf, edges[..i]) + [SourceOf(edges[i])]
    ensures EdgeTargets(edges[..i+1]) == EdgeTargets(edges[..i]) + [EdgeTarget(edges[i])]
  {
  }

  /** The edge or the pair of edges behind a refusal. */
  ghost predicate LowerEdgesReport(decls: Decls, edges: seq<DirectEdge>, code: Code) {
    || (exists e :: e in edges && EdgeFault(decls, e) == Some(code))
    || (code == NotRepresentable && !NoFanOut(edges))
    || (code == ProviderConflict && !NoDuplicates(EdgeTargets(edges)))
  }

  /** Which output ports feed an input, which inputs are fed, and whether that is allowed. */
  method UsePorts(decls: Decls, edges: seq<DirectEdge>) returns (r: Result<set<Port>>)
    ensures r.Ok? <==> EdgesLowerable(decls, edges)
    ensures r.Ok? ==> forall p :: p in r.value <==> p in EdgeTargets(edges)
    ensures r.Err? ==> LowerEdgesReport(decls, edges, r.code)
  {
    var consumed: set<Port>, bound: set<Port> := {}, {};
    for i := 0 to |edges|
      invariant EdgesLowerable(decls, edges[..i])
      invariant forall p :: p in consumed <==> p in Map(SourceOf, edges[..i])
      invariant forall p :: p in bound <==> p in EdgeTargets(edges[..i])
    {
      var e := edges[i];
      EdgesNext(decls, edges, i);
      PortsNext(edges, i);
      var fault := CheckEdge(decls, e, consumed, bound);
      if fault.Some? {
        assert e in edges;
        return Err(fault.value);
      }
      consumed, bound := consumed + {SourceOf(e)}, bound + {EdgeTarget(e)};
    }
    TakeAll(edges);
    r := Ok(bound);
  }

  /** Each edge is the one source of both its dependency pair and its consumer's binding. */
  method EmitEdges(input: Input, nodes: seq<Node>, from: Resolved, edges: seq<DirectEdge>)
    returns (out: seq<Spec.SpecNode>, graph: seq<seq<string>>)
    requires ResolvedOK(input, nodes, from)
    requires forall e :: e in edges ==> e.toNode in from.index
    ensures NodesLowerable(input, nodes) && out == NodesFor(input, from.decls, nodes, edges) && graph == GraphEdges(edges)
  {
    out, graph := from.nodes, [];
    assert out == NodesFor(input, from.decls, nodes, []);
    var seen: set<seq<string>> := {};
    for i := 0 to |edges|
      invariant forall p :: p in seen <==> p in graph
      invariant out == NodesFor(input, from.decls, nodes, edges[..i]) && graph == GraphEdges(edges[..i])
    {
      var e := edges[i];
      assert e in edges;
      NodesNext(input, from.decls, nodes, from.index, edges, i);
      GraphNext(edges, i);
      var k := from.index[e.toNode];
      out := out[k := out[k].(bindings := out[k].bindings + [BindingOf(from.decls, e)])];
      var pair := [e.fromNode, e.toNode];
      if pair !in seen {
        seen := seen + {pair};
        graph := graph + [pair];
      }
    }
    TakeAll(edges);
  }

  /** The pass over the nodes' inputs: no required one may be left without a provider. */
  method CheckRequired(decls: Decls, nodes: seq<Spec.SpecNode>, bound: set<Port>, ghost targets: seq<Port>)
    returns (r: Option<Code>)
    requires forall p :: p in bound <==> p in targets
    requires forall n :: n in nodes ==> n.nodeID in decls && forall x :: x in n.inputs <==> x in decls[n.nodeID].inputs
    requires forall id :: id in decls ==> exists n :: n in nodes && n.nodeID == id
    ensures r.None? <==> NoneMissing(decls, multiset(targets))
    ensures r.Some? ==> r.value == ProviderMissing
  {
    for i := 0 to |nodes|
      invariant forall n, name :: n in nodes[..i] && RequiredAt(decls, n.nodeID, name) ==> Port(n.nodeID, name) in bound
    {
      var n := nodes[i];
      assert n in nodes;
      TakeNext(nodes, i);
      for j := 0 to |n.inputs|
        invariant forall name :: name in n.inputs[..j] && RequiredAt(decls, n.nodeID, name) ==> Port(n.nodeID, name) in bound
      {
        var name := n.inputs[j];
        TakeNext(n.inputs, j);
        if RequiredAt(decls, n.nodeID, name) && Port(n.nodeID, name) !in bound {
          assert Port(n.nodeID, name) !in multiset(targets);
          return Some(ProviderMissing);
        }
      }
      TakeAll(n.inputs);
    }
    TakeAll(nodes);
    forall id, name | RequiredAt(decls, id, name) ensures Port(id, name) in multiset(targets) {
      var n :| n in nodes && n.nodeID == id;
      assert Port(n.nodeID, name) in bound;
    }
    r := None;
  }

  lemma NodesListed(input: Input, decls: Decls, nodes: seq<Node>, edges: seq<DirectEdge>)
    requires NodesLowerable(input, nodes) && Pinned(nodes, ResolversOf(input.tools), decls)
    ensures var out := NodesFor(input, decls, nodes, edges);
            && (forall n :: n in out ==> n.nodeID in decls && forall x :: x in n.inputs <==> x in decls[n.nodeID].inputs)
            && (forall id :: id in decls ==> exists n :: n in out && n.nodeID == id)
  {
    var out := NodesFor(input, decls, nodes, edges);
    forall n | n in out ensures n.nodeID in decls && forall x :: x in n.inputs <==> x in decls[n.nodeID].inputs {
      var i :| 0 <= i < |out| && out[i] == n;
      assert nodes[i] in nodes;
    }
    forall id | id in decls ensures exists n :: n in out && n.nodeID == id {
      var m :| m in nodes && m.nodeID == id;
      var i :| 0 <= i < |nodes| && nodes[i] == m;
      assert out[i] in out && out[i].nodeID == id;
    }
  }

  // ---- The pass -----------------------------------------------------------------------

  ghost predicate GraphLowerable(input: Input, c: Contract, decls: Decls) {
    && Pinned(Sort(c.nodes, NodeKey), ResolversOf(input.tools), decls)
    && LinksLowerable(decls, Sort(c.edges, EdgeKey))
  }

  lemma GraphDecided(input: Input, c: Contract, decls: Decls)
    requires Pinned(Sort(c.nodes, NodeKey), ResolversOf(input.tools), decls)
    requires !LinksLowerable(decls, Sort(c.edges, EdgeKey))
    ensures forall other :: !GraphLowerable(input, c, other)
  {
    forall other ensures !GraphLowerable(input, c, other) {
      if Pinned(Sort(c.nodes, NodeKey), ResolversOf(input.tools), other) {
        PinnedUnique(Sort(c.nodes, NodeKey), ResolversOf(input.tools), decls, other);
      }
    }
  }

  lemma TargetsIndexed(input: Input, nodes: seq<Node>, decls: Decls, index: Index, edges: seq<DirectEdge>)
    requires Pinned(nodes, ResolversOf(input.tools), decls) && IndexOf(index, nodes) && EdgesLowerable(decls, edges)
    ensures forall e :: e in edges ==> e.toNode in index
  {
    forall e | e in edges ensures e.toNode in index {
      PinnedIndexed(nodes, ResolversOf(input.tools), decls, index, e.toNode);
    }
  }

  /** The violation behind a refusal of the nodes or links. */
  ghost predicate GraphReport(input: Input, c: Contract, decls: Decls, code: Code) {
    || LowerNodesReport(input, Sort(c.nodes, NodeKey), code)
    || (Pinned(Sort(c.nodes, NodeKey), ResolversOf(input.tools), decls) && LowerEdgesReport(decls, Sort(c.edges, EdgeKey), code))
    || (Pinned(Sort(c.nodes, NodeKey), ResolversOf(input.tools), decls)
        && code == ProviderMissing && !NoneMissing(decls, multiset(EdgeTargets(Sort(c.edges, EdgeKey)))))
  }

  lemma ReportCodes(sha: Hash, input: Input, c: Contract, decls: Decls)
    ensures !FrozenReport(sha, input, SameSourceViolation) && !GraphReport(input, c, decls, SameSourceViolation)
  {
  }

  /** The nodes and links of a contract in its sorted order. */
  method LowerGraph(input: Input, c: Contract) returns (r: Result<Spec.RunSpec>, ghost decls: Decls)
    ensures r.Ok? ==> NodesLowerable(input, Sort(c.nodes, NodeKey)) && GraphLowerable(input, c, decls)
                      && r.value == SpecOf(input, decls, c)
    ensures r.Err? ==> !NodesLowerable(input, Sort(c.nodes, NodeKey)) || forall other :: !GraphLowerable(input, c, other)
    ensures r.Err? ==> GraphReport(input, c, decls, r.code)
  {
    decls := map[];
    var nodes, edges := Sort(c.nodes, NodeKey), Sort(c.edges, EdgeKey);
    var resolved := LowerNodes(input, nodes);
    if resolved.Err? { return Err(resolved.code), map[]; }
    decls := resolved.value.decls;
    var bound := UsePorts(resolved.value.decls, edges);
    if bound.Err? {
      GraphDecided(input, c, decls);
      return Err(bound.code), decls;
    }
    TargetsIndexed(input, nodes, decls, resolved.value.index, edges);
    var out, graph := EmitEdges(input, nodes, resolved.value, edges);
    NodesListed(input, decls, nodes, edges);
    var required := CheckRequired(resolved.value.decls, out, bound.value, EdgeTargets(edges));
    if required.Some? {
      GraphDecided(input, c, decls);
      return Err(required.value), decls;
    }
    r := Ok(Header(input, out, graph));
  }
}
