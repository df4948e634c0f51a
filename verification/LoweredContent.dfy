/** What a lowered specification says, read off the frozen input: the nodes and what they
    execute, their ports and bindings, and the frozen data of the run. */
module LoweredContent {
  import opened Prelude
  import opened Ordering
  import opened Contracts
  import opened Canonical
  import opened CanonicalOrder
  import opened Digests
  import opened Validation
  import opened Lowering
  import opened LoweringLaws
  import opened LoweringEdges
  import Spec = SpecCheck

  // ---- Nodes --------------------------------------------------------------------------

  /** s executes exactly what node m is pinned to, and has exactly the declared ports. */
  ghost predicate Executes(input: Input, m: Node, s: Spec.SpecNode) {
    && s.nodeID == m.nodeID
    && m.casHash in input.runnables && m.casHash in input.tools
    && s.image == input.runnables[m.casHash].image
    && s.command == input.runnables[m.casHash].command
    && s.args == input.runnables[m.casHash].args
    && NamesOnce(s.inputs, input.tools[m.casHash].inputs.Keys)
    && NamesOnce(s.outputs, input.tools[m.casHash].outputs.Keys)
  }

  /** The list holds exactly these names, in increasing order. */
  ghost predicate NamesOnce(list: seq<string>, names: set<string>) {
    && (forall x :: x in list <==> x in names)
    && (forall i, j :: 0 <= i < j < |list| ==> Before(list[i], list[j]))
  }

  /** The contract of the frozen revision. */
  function FrozenContract(input: Input): Contract
    requires input.revision.contract.Some?
  {
    input.revision.contract.value
  }

  lemma FrozenIs(sha: Hash, input: Input, spec: Spec.RunSpec) returns (decls: Decls, c: Contract)
    requires LoweredTo(sha, input, spec)
    ensures input.revision.contract.Some? && c == FrozenContract(input) && FrozenOK(sha, input, c)
    ensures var nodes, edges := Sort(c.nodes, NodeKey), Sort(c.edges, EdgeKey);
            && NodesLowerable(input, nodes) && Pinned(nodes, ResolversOf(input.tools), decls) && LinksLowerable(decls, edges)
            && spec.nodes == NodesFor(input, decls, nodes, edges) && spec.edges == GraphEdges(edges)
            && spec == Header(input, spec.nodes, spec.edges)
  {
    var c', d :| LoweredBy(sha, input, c', d, spec);
    decls, c := d, c';
  }

  lemma ListingNames(names: set<string>)
    ensures NamesOnce(Listing(names), names)
  {
    var list := Listing(names);
    forall i, j | 0 <= i < j < |list| ensures Before(list[i], list[j]) { BeforeMeans(list[i], list[j]); }
  }

  lemma NodeExecutes(input: Input, decls: Decls, m: Node, edges: seq<DirectEdge>)
    requires m.casHash in input.tools && m.casHash in input.runnables
    ensures Executes(input, m, NodeOf(input, decls, m, edges))
  {
    ListingNames(input.tools[m.casHash].inputs.Keys);
    ListingNames(input.tools[m.casHash].outputs.Keys);
  }

  lemma NodesExecute(input: Input, decls: Decls, nodes: seq<Node>, edges: seq<DirectEdge>)
    requires NodesLowerable(input, nodes)
    ensures var out := NodesFor(input, decls, nodes, edges);
            |out| == |nodes| && forall i :: 0 <= i < |nodes| ==> Executes(input, nodes[i], out[i])
  {
    forall i | 0 <= i < |nodes| ensures Executes(input, nodes[i], NodesFor(input, decls, nodes, edges)[i]) {
      assert nodes[i] in nodes;
      NodeExecutes(input, decls, nodes[i], edges);
    }
  }

  lemma EachExecutes(input: Input, nodes: seq<Node>, out: seq<Spec.SpecNode>)
    requires |out| == |nodes| && forall i :: 0 <= i < |nodes| ==> Executes(input, nodes[i], out[i])
    ensures forall s :: s in out ==> exists m :: m in nodes && Executes(input, m, s)
    ensures forall m :: m in nodes ==> exists s :: s in out && Executes(input, m, s)
  {
    forall m | m in nodes ensures exists s :: s in out && Executes(input, m, s) {
      var i :| 0 <= i < |nodes| && nodes[i] == m;
      assert out[i] in out;
    }
  }

  /** The nodes of the specification are those of the contract, and each executes what its node
      is pinned to. */
  lemma LoweredNodesExecute(sha: Hash, input: Input, spec: Spec.RunSpec)
    requires LoweredTo(sha, input, spec)
    ensures input.revision.contract.Some? && |spec.nodes| == |FrozenContract(input).nodes|
    ensures forall s :: s in spec.nodes ==> exists m :: m in FrozenContract(input).nodes && Executes(input, m, s)
    ensures forall m :: m in FrozenContract(input).nodes ==> exists s :: s in spec.nodes && Executes(input, m, s)
  {
    var decls, c := FrozenIs(sha, input, spec);
    var nodes, edges := Sort(c.nodes, NodeKey), Sort(c.edges, EdgeKey);
    NodesExecute(input, decls, nodes, edges);
    EachExecutes(input, nodes, spec.nodes);
    SortMembers(c.nodes, NodeKey);
  }

  lemma ListedInOrder(nodes: seq<Spec.SpecNode>)
    requires StrictlySorted(Spec.SpecIDs(nodes))
    ensures forall i, j :: 0 <= i < j < |nodes| ==> Before(nodes[i].nodeID, nodes[j].nodeID)
  {
    var ids := Spec.SpecIDs(nodes);
    forall i, j | 0 <= i < j < |nodes| ensures Before(nodes[i].nodeID, nodes[j].nodeID) {
      assert ids[i] == nodes[i].nodeID && ids[j] == nodes[j].nodeID;
      BeforeMeans(ids[i], ids[j]);
    }
  }

  lemma LoweredIsFrozen(sha: Hash, input: Input, spec: Spec.RunSpec) returns (c: Contract)
    requires LoweredTo(sha, input, spec)
    ensures FrozenOK(sha, input, c)
  {
    var decls, frozen := FrozenIs(sha, input, spec);
    c := frozen;
  }

  /** They stand in the order of their ids, one each. */
  lemma LoweredNodesInOrder(sha: Hash, input: Input, spec: Spec.RunSpec)
    requires LoweredTo(sha, input, spec)
    ensures forall i, j :: 0 <= i < j < |spec.nodes| ==> Before(spec.nodes[i].nodeID, spec.nodes[j].nodeID)
  {
    var c := LoweredIsFrozen(sha, input, spec);
    LoweringPreservesEdges(sha, input, c, spec);
    ListedInOrder(spec.nodes);
  }

  // ---- Bindings -----------------------------------------------------------------------

  /** The binding carries edge e into its consumer: named after the input it fills, drawn from
      the producer's output, and required exactly if the consumer's declaration says so. */
  ghost predicate Carries(input: Input, c: Contract, e: DirectEdge, b: Spec.ArtifactBinding) {
    && b.bindingName == e.toPort && b.childInput == e.toPort && b.producer == e.fromNode && b.output == e.fromPort
    && exists m :: m in c.nodes && m.nodeID == e.toNode && m.casHash in input.tools && e.toPort in input.tools[m.casHash].inputs
                   && b.required == input.tools[m.casHash].inputs[e.toPort].required
  }

  lemma {:induction false} BindingsCarry(decls: Decls, edges: seq<DirectEdge>, id: string, b: Spec.ArtifactBinding)
    requires b in BindingsFor(decls, edges, id)
    ensures exists e :: e in edges && e.toNode == id && b == BindingOf(decls, e)
  {
    var n := |edges| - 1;
    if b in BindingsFor(decls, edges[..n], id) {
      BindingsCarry(decls, edges[..n], id, b);
      var e :| e in edges[..n] && e.toNode == id && b == BindingOf(decls, e);
      assert e in edges;
    } else {
      assert edges[n] in edges;
    }
  }

  lemma BindingCarries(input: Input, c: Contract, decls: Decls, e: DirectEdge)
    requires Pinned(c.nodes, ResolversOf(input.tools), decls) && EdgeOK(decls, e)
    ensures Carries(input, c, e, BindingOf(decls, e))
  {
    var m :| m in c.nodes && m.nodeID == e.toNode;
    assert ResolversOf(input.tools).tools(m.casHash) == Some(decls[e.toNode]);
  }

  /** Every binding of a node carries an edge of the contract into it. */
  lemma LoweredBindingsCarry(sha: Hash, input: Input, spec: Spec.RunSpec, s: Spec.SpecNode, b: Spec.ArtifactBinding)
      returns (e: DirectEdge)
    requires LoweredTo(sha, input, spec) && s in spec.nodes && b in s.bindings
    ensures input.revision.contract.Some?
    ensures e in FrozenContract(input).edges && e.toNode == s.nodeID && Carries(input, FrozenContract(input), e, b)
  {
    var decls, c := FrozenIs(sha, input, spec);
    var nodes, edges := Sort(c.nodes, NodeKey), Sort(c.edges, EdgeKey);
    SpecNodeShape(input, decls, nodes, edges, s);
    BindingsCarry(decls, edges, s.nodeID, b);
    e :| e in edges && e.toNode == s.nodeID && b == BindingOf(decls, e);
    SortMembers(c.edges, EdgeKey);
    SortMembers(c.nodes, NodeKey);
    BindingCarries(input, c, decls, e);
  }

  // ---- The run ------------------------------------------------------------------------

  /** The frozen data of the input, and the provenance of its revision. */
  ghost predicate RunOf(input: Input, spec: Spec.RunSpec) {
    && spec.runID == input.runID && spec.submittedAt == input.submittedAt
    && spec.requesterID == input.requesterID && spec.traceID == input.traceID
    && spec.failureMode == "fail-fast" && spec.maxAttempts == 1
    && spec.metadata.Keys == {"pipelinestore.pipelineId", "pipelinestore.pipelineRevisionId",
                              "pipelinestore.pipelineContractDigest"}
    && spec.metadata["pipelinestore.pipelineId"] == input.revision.pipelineID
    && spec.metadata["pipelinestore.pipelineRevisionId"] == input.revision.revisionID
    && spec.metadata["pipelinestore.pipelineContractDigest"] == input.revision.contractDigest
  }

  lemma HeaderIsRun(input: Input, nodes: seq<Spec.SpecNode>, edges: seq<seq<string>>)
    ensures RunOf(input, Header(input, nodes, edges))
  {
    KeysDiffer();
  }

  /** The frozen data of the run is the input's own. */
  lemma LoweredRun(sha: Hash, input: Input, spec: Spec.RunSpec)
    requires LoweredTo(sha, input, spec)
    ensures RunOf(input, spec)
  {
    var decls, c := FrozenIs(sha, input, spec);
    HeaderIsRun(input, spec.nodes, spec.edges);
  }

  lemma KeysDiffer()
    ensures Spec.KeyPipelineID != Spec.KeyRevisionID && Spec.KeyRevisionID != Spec.KeyContractDigest
    ensures Spec.KeyPipelineID != Spec.KeyContractDigest
  {
    assert |Spec.KeyPipelineID| == 24 && |Spec.KeyRevisionID| == 32 && |Spec.KeyContractDigest| == 36;
  }

  // ---- The graph ----------------------------------------------------------------------

  lemma {:induction false} PairsAre(edges: seq<DirectEdge>, pair: seq<string>)
    ensures pair in GraphEdges(edges) <==> exists e :: e in edges && pair == [e.fromNode, e.toNode]
  {
    if edges != [] {
      var n := |edges| - 1;
      PairsAre(edges[..n], pair);
      TakeNext(edges, n);
      TakeAll(edges);
    }
  }

  /** The pairs stand in the order of the edges they first come from. */
  lemma {:induction false} PairsInOrder(edges: seq<DirectEdge>)
    requires forall i, j :: 0 <= i < j < |edges| ==> !Before(edges[j].fromNode, edges[i].fromNode)
    ensures var pairs := GraphEdges(edges);
            && (forall p :: p in pairs ==> |p| == 2)
            && (forall i, j :: 0 <= i < j < |pairs| ==> pairs[i] != pairs[j] && !Before(pairs[j][0], pairs[i][0]))
  {
    if edges != [] {
      var n := |edges| - 1;
      PairsInOrder(edges[..n]);
      var before, pair := GraphEdges(edges[..n]), [edges[n].fromNode, edges[n].toNode];
      forall i | 0 <= i < |before| ensures !Before(pair[0], before[i][0]) {
        PairsAre(edges[..n], before[i]);
        var e :| e in edges[..n] && before[i] == [e.fromNode, e.toNode];
        var k :| 0 <= k < n && edges[..n][k] == e;
        assert edges[k] == e;
      }
    }
  }

  lemma SourcesInOrder(edges: seq<DirectEdge>, r: seq<DirectEdge>)
    requires r == Sort(edges, EdgeKey)
    ensures forall i, j :: 0 <= i < j < |r| ==> !Before(r[j].fromNode, r[i].fromNode)
  {
    EdgesInOrder(edges);
    forall i, j | 0 <= i < j < |r| ensures !Before(r[j].fromNode, r[i].fromNode) { assert !EdgeBefore(r[j], r[i]); }
  }

  /** The graph's edges are exactly the pairs of nodes that a contract edge joins, from producer to
      consumer, each once, in the order of the producers. */
  ghost predicate GraphOf(c: Contract, pairs: seq<seq<string>>) {
    && (forall p :: p in pairs <==> exists e :: e in c.edges && p == [e.fromNode, e.toNode])
    && (forall p :: p in pairs ==> |p| == 2)
    && (forall i, j :: 0 <= i < j < |pairs| ==> pairs[i] != pairs[j] && !Before(pairs[j][0], pairs[i][0]))
  }

  lemma GraphIs(c: Contract)
    ensures GraphOf(c, GraphEdges(Sort(c.edges, EdgeKey)))
  {
    var edges := Sort(c.edges, EdgeKey);
    SourcesInOrder(c.edges, edges);
    PairsInOrder(edges);
    SortMembers(c.edges, EdgeKey);
    forall p ensures p in GraphEdges(edges) <==> exists e :: e in c.edges && p == [e.fromNode, e.toNode] { PairsAre(edges, p); }
  }

  lemma LoweredGraph(sha: Hash, input: Input, spec: Spec.RunSpec)
    requires LoweredTo(sha, input, spec)
    ensures input.revision.contract.Some? && GraphOf(FrozenContract(input), spec.edges)
  {
    var decls, c := FrozenIs(sha, input, spec);
    GraphIs(c);
  }

  /** The bindings of a node are in the order of producer, output and input. */
  ghost predicate BindingsOrdered(bindings: seq<Spec.ArtifactBinding>) {
    forall i, j :: 0 <= i < j < |bindings| ==> !DrawsBefore(bindings[j], bindings[i])
  }

  ghost predicate DrawsBefore(x: Spec.ArtifactBinding, y: Spec.ArtifactBinding) {
    || Before(x.producer, y.producer)
    || (x.producer == y.producer && Before(x.output, y.output))
    || (x.producer == y.producer && x.output == y.output && Before(x.childInput, y.childInput))
  }

  lemma {:induction false} BindingsKeepOrder(decls: Decls, edges: seq<DirectEdge>, id: string)
    requires forall i, j :: 0 <= i < j < |edges| ==> !EdgeBefore(edges[j], edges[i])
    ensures BindingsOrdered(BindingsFor(decls, edges, id))
  {
    if edges != [] {
      var n := |edges| - 1;
      BindingsKeepOrder(decls, edges[..n], id);
      var before, b := BindingsFor(decls, edges[..n], id), BindingOf(decls, edges[n]);
      forall i | 0 <= i < |before| ensures edges[n].toNode == id ==> !DrawsBefore(b, before[i]) {
        BindingsCarry(decls, edges[..n], id, before[i]);
        var e :| e in edges[..n] && e.toNode == id && before[i] == BindingOf(decls, e);
        var k :| 0 <= k < n && edges[..n][k] == e;
        assert edges[k] == e && !EdgeBefore(edges[n], edges[k]);
      }
    }
  }

  lemma LoweredBindingsInOrder(sha: Hash, input: Input, spec: Spec.RunSpec, s: Spec.SpecNode)
    requires LoweredTo(sha, input, spec) && s in spec.nodes
    ensures BindingsOrdered(s.bindings)
  {
    var decls, c := FrozenIs(sha, input, spec);
    var nodes, edges := Sort(c.nodes, NodeKey), Sort(c.edges, EdgeKey);
    SpecNodeShape(input, decls, nodes, edges, s);
    EdgesInOrder(c.edges);
    BindingsKeepOrder(decls, edges, s.nodeID);
  }
}
