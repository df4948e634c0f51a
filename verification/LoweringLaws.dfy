/** What lowering preserves, and how it agrees with commit validation. */
module LoweringLaws {
  import opened Prelude
  import opened Ordering
  import opened Contracts
  import opened Cycles
  import opened Canonical
  import opened Digests
  import opened Validation
  import opened ValidationOrder
  import opened Lowering
  import Spec = SpecCheck

  // ---- What stands in the bindings and in the graph -----------------------------------

  lemma {:induction false} BindingMembers(decls: Decls, edges: seq<DirectEdge>, id: string, b: Spec.ArtifactBinding)
    ensures b in BindingsFor(decls, edges, id) <==> exists e :: e in edges && e.toNode == id && b == BindingOf(decls, e)
  {
    if edges != [] {
      var n := |edges| - 1;
      BindingMembers(decls, edges[..n], id, b);
      TakeNext(edges, n);
      TakeAll(edges);
    }
  }

  lemma {:induction false} BindingNamesDistinct(decls: Decls, edges: seq<DirectEdge>, id: string)
    requires NoDuplicates(EdgeTargets(edges))
    ensures NoDuplicates(Spec.Names(BindingsFor(decls, edges, id)))
  {
    if edges != [] {
      var n := |edges| - 1;
      var before := BindingsFor(decls, edges[..n], id);
      assert EdgeTargets(edges)[..n] == EdgeTargets(edges[..n]);
      forall i, j | 0 <= i < j < n ensures EdgeTargets(edges[..n])[i] != EdgeTargets(edges[..n])[j] {
        assert EdgeTargets(edges)[i] != EdgeTargets(edges)[j];
      }
      BindingNamesDistinct(decls, edges[..n], id);
      if edges[n].toNode == id {
        assert Spec.Names(before + [BindingOf(decls, edges[n])]) == Spec.Names(before) + [edges[n].toPort];
        if edges[n].toPort in Spec.Names(before) {
          NameTaken(decls, edges, id, n);
        }
      }
    }
  }

  lemma NameTaken(decls: Decls, edges: seq<DirectEdge>, id: string, n: nat)
    requires n < |edges| && edges[n].toNode == id
    requires edges[n].toPort in Spec.Names(BindingsFor(decls, edges[..n], id))
    ensures !NoDuplicates(EdgeTargets(edges))
  {
    var before := BindingsFor(decls, edges[..n], id);
    var k :| 0 <= k < |before| && Spec.Names(before)[k] == edges[n].toPort;
    BindingMembers(decls, edges[..n], id, before[k]);
    var e :| e in edges[..n] && e.toNode == id && before[k] == BindingOf(decls, e);
    var i :| 0 <= i < n && edges[..n][i] == e;
    assert EdgeTargets(edges)[i] == EdgeTargets(edges)[n];
  }

  lemma {:induction false} GraphMembers(edges: seq<DirectEdge>)
    ensures forall p :: p in GraphEdges(edges) <==> exists e :: e in edges && p == [e.fromNode, e.toNode]
    ensures NoDuplicates(GraphEdges(edges))
  {
    if edges != [] {
      var n := |edges| - 1;
      GraphMembers(edges[..n]);
      TakeNext(edges, n);
      TakeAll(edges);
      forall p ensures p in GraphEdges(edges) <==> exists e :: e in edges && p == [e.fromNode, e.toNode] {
        assert p in GraphEdges(edges) <==> p in GraphEdges(edges[..n]) || p == [edges[n].fromNode, edges[n].toNode];
      }
    }
  }

  /** Graph edges are exactly the node-pair projection of the direct edges, without repeats. */
  lemma GraphIsProjection(edges: seq<DirectEdge>)
    ensures Spec.Pairs(GraphEdges(edges)) == Dependencies(edges)
    ensures NoDuplicates(GraphEdges(edges))
  {
    GraphMembers(edges);
    forall x ensures x in Spec.Pairs(GraphEdges(edges)) <==> x in Dependencies(edges) {
      if x in Spec.Pairs(GraphEdges(edges)) {
        var p :| p in GraphEdges(edges) && |p| == 2 && (p[0], p[1]) == x;
        var e :| e in edges && p == [e.fromNode, e.toNode];
      }
      if x in Dependencies(edges) {
        var e :| e in edges && (e.fromNode, e.toNode) == x;
        assert [e.fromNode, e.toNode] in GraphEdges(edges);
      }
    }
  }

  lemma FanOutFreeIsRepeatFree(edges: seq<DirectEdge>)
    requires NoFanOut(edges)
    ensures NoDuplicates(edges)
  {
    forall i, j | 0 <= i < j < |edges| ensures edges[i] != edges[j] {
      assert Map(SourceOf, edges)[i] != Map(SourceOf, edges)[j];
    }
  }

  // ---- Same source --------------------------------------------------------------------

  /** A lowerable graph, in whatever order its lists are. */
  ghost predicate Lowers(input: Input, decls: Decls, nodes: seq<Node>, edges: seq<DirectEdge>) {
    && NodesLowerable(input, nodes) && Pinned(nodes, ResolversOf(input.tools), decls) && EdgesLowerable(decls, edges)
  }

  ghost function SpecFor(input: Input, decls: Decls, nodes: seq<Node>, edges: seq<DirectEdge>): Spec.RunSpec
    requires NodesLowerable(input, nodes)
  {
    Header(input, NodesFor(input, decls, nodes, edges), GraphEdges(edges))
  }

  lemma NodeInSpec(input: Input, decls: Decls, nodes: seq<Node>, edges: seq<DirectEdge>, id: string) returns (n: Spec.SpecNode)
    requires NodesLowerable(input, nodes) && Pinned(nodes, ResolversOf(input.tools), decls) && id in decls
    ensures n in NodesFor(input, decls, nodes, edges) && n.nodeID == id && n.bindings == BindingsFor(decls, edges, id)
    ensures forall x :: (x in n.inputs <==> x in decls[id].inputs) && (x in n.outputs <==> x in decls[id].outputs)
  {
    var m :| m in nodes && m.nodeID == id;
    var i :| 0 <= i < |nodes| && nodes[i] == m;
    n := NodesFor(input, decls, nodes, edges)[i];
  }

  lemma SpecNodeShape(input: Input, decls: Decls, nodes: seq<Node>, edges: seq<DirectEdge>, n: Spec.SpecNode)
    requires NodesLowerable(input, nodes) && Pinned(nodes, ResolversOf(input.tools), decls)
    requires n in NodesFor(input, decls, nodes, edges)
    ensures n.nodeID in decls && n.nodeID != "" && n.bindings == BindingsFor(decls, edges, n.nodeID)
    ensures Spec.PinnedImage(n.image)
    ensures forall x :: x in n.inputs <==> x in decls[n.nodeID].inputs
  {
    var i :| 0 <= i < |nodes| && NodesFor(input, decls, nodes, edges)[i] == n;
    assert nodes[i] in nodes;
  }

  lemma EdgeHasEnds(input: Input, decls: Decls, nodes: seq<Node>, edges: seq<DirectEdge>, e: DirectEdge)
    returns (producer: Spec.SpecNode, consumer: Spec.SpecNode)
    requires Lowers(input, decls, nodes, edges) && e in edges
    ensures producer in NodesFor(input, decls, nodes, edges) && consumer in NodesFor(input, decls, nodes, edges)
    ensures producer.nodeID == e.fromNode && e.fromPort in producer.outputs
    ensures consumer.nodeID == e.toNode && e.toPort in consumer.inputs
    ensures BindingOf(decls, e) in consumer.bindings
    ensures [e.fromNode, e.toNode] in GraphEdges(edges)
  {
    assert EdgeOK(decls, e);
    producer := NodeInSpec(input, decls, nodes, edges, e.fromNode);
    consumer := NodeInSpec(input, decls, nodes, edges, e.toNode);
    BindingMembers(decls, edges, e.toNode, BindingOf(decls, e));
    GraphMembers(edges);
  }

  /** Every binding comes from one edge. */
  lemma EdgeOfBinding(input: Input, decls: Decls, nodes: seq<Node>, edges: seq<DirectEdge>, n: Spec.SpecNode,
                      b: Spec.ArtifactBinding) returns (e: DirectEdge)
    requires NodesLowerable(input, nodes) && Pinned(nodes, ResolversOf(input.tools), decls)
    requires n in NodesFor(input, decls, nodes, edges) && b in n.bindings
    ensures e in edges && e.toNode == n.nodeID && b == BindingOf(decls, e)
  {
    SpecNodeShape(input, decls, nodes, edges, n);
    BindingMembers(decls, edges, n.nodeID, b);
    e :| e in edges && e.toNode == n.nodeID && b == BindingOf(decls, e);
  }

  lemma BindingDerives(input: Input, decls: Decls, nodes: seq<Node>, edges: seq<DirectEdge>, n: Spec.SpecNode,
                       b: Spec.ArtifactBinding)
    requires Lowers(input, decls, nodes, edges) && n in NodesFor(input, decls, nodes, edges) && b in n.bindings
    ensures Spec.Derives(SpecFor(input, decls, nodes, edges), n, b)
  {
    var e := EdgeOfBinding(input, decls, nodes, edges, n, b);
    var p, m := EdgeHasEnds(input, decls, nodes, edges, e);
    SpecNodeShape(input, decls, nodes, edges, n);
    SpecNodeShape(input, decls, nodes, edges, m);
  }

  lemma EdgeCarried(input: Input, decls: Decls, nodes: seq<Node>, edges: seq<DirectEdge>, p: seq<string>)
    requires Lowers(input, decls, nodes, edges) && p in GraphEdges(edges)
    ensures Spec.Carried(SpecFor(input, decls, nodes, edges), p)
  {
    GraphMembers(edges);
    var e :| e in edges && p == [e.fromNode, e.toNode];
    var producer, consumer := EdgeHasEnds(input, decls, nodes, edges, e);
    assert BindingOf(decls, e).producer == p[0] && consumer.nodeID == p[1];
  }

  /** The spec lowering builds always has one consistent source, so the checker can never
      answer SAME_SOURCE_VIOLATION on it. */
  lemma LoweredSameSource(input: Input, decls: Decls, nodes: seq<Node>, edges: seq<DirectEdge>)
    requires Lowers(input, decls, nodes, edges)
    ensures Spec.SameSource(SpecFor(input, decls, nodes, edges))
  {
    var s := SpecFor(input, decls, nodes, edges);
    forall n | n in s.nodes ensures NoDuplicates(Spec.Names(n.bindings)) {
      SpecNodeShape(input, decls, nodes, edges, n);
      BindingNamesDistinct(decls, edges, n.nodeID);
    }
    forall n, b | n in s.nodes && b in n.bindings ensures Spec.Derives(s, n, b) {
      BindingDerives(input, decls, nodes, edges, n, b);
    }
    forall p | p in s.edges ensures Spec.Carried(s, p) { EdgeCarried(input, decls, nodes, edges, p); }
  }

  // ---- Which lowered specs the checker accepts ----------------------------------------

  ghost predicate PortsNamed(edges: seq<DirectEdge>) {
    forall e :: e in edges ==> e.fromPort != "" && e.toPort != ""
  }

  lemma LoweredNodesOK(input: Input, decls: Decls, nodes: seq<Node>, edges: seq<DirectEdge>)
    requires NodesLowerable(input, nodes) && Pinned(nodes, ResolversOf(input.tools), decls)
    ensures Spec.SpecNodesOK(NodesFor(input, decls, nodes, edges))
    ensures Spec.SpecIDs(NodesFor(input, decls, nodes, edges)) == NodeIDs(nodes)
  {
    var out := NodesFor(input, decls, nodes, edges);
    assert Spec.SpecIDs(out) == NodeIDs(nodes);
    forall n | n in out ensures n.nodeID != "" && Spec.PinnedImage(n.image) { SpecNodeShape(input, decls, nodes, edges, n); }
  }

  lemma SelfLoopIsCycle(edges: Edges, v: string)
    requires (v, v) in edges
    ensures OnCycle(edges, v)
  {
    assert WalkBetween(edges, [v, v], v, v);
  }

  lemma IDListed(nodes: seq<Node>, res: Resolvers, decls: Decls, id: string)
    requires Pinned(nodes, res, decls) && id in decls
    ensures id in NodeIDs(nodes)
  {
    var n :| n in nodes && n.nodeID == id;
    MapMember(NodeIDOf, nodes, n);
  }

  lemma LoweredEdgesOK(input: Input, decls: Decls, nodes: seq<Node>, edges: seq<DirectEdge>)
    requires Lowers(input, decls, nodes, edges) && Acyclic(Dependencies(edges))
    ensures Spec.SpecEdgesOK(NodeIDs(nodes), GraphEdges(edges))
  {
    GraphMembers(edges);
    forall p | p in GraphEdges(edges) ensures Spec.SpecEdgeOK(NodeIDs(nodes), p) {
      var e :| e in edges && p == [e.fromNode, e.toNode];
      assert EdgeOK(decls, e);
      IDListed(nodes, ResolversOf(input.tools), decls, e.fromNode);
      IDListed(nodes, ResolversOf(input.tools), decls, e.toNode);
      assert (e.fromNode, e.toNode) in Dependencies(edges);
      if e.fromNode == e.toNode { SelfLoopIsCycle(Dependencies(edges), e.fromNode); }
    }
  }

  lemma SpecFilled(input: Input, decls: Decls, nodes: seq<Node>, edges: seq<DirectEdge>)
    requires Lowers(input, decls, nodes, edges)
    ensures Spec.AllFilled(NodesFor(input, decls, nodes, edges)) <==> PortsNamed(edges)
  {
    var out := NodesFor(input, decls, nodes, edges);
    if PortsNamed(edges) {
      forall n, b | n in out && b in n.bindings ensures Spec.Filled(b) {
        var e := EdgeOfBinding(input, decls, nodes, edges, n, b);
        var p, m := EdgeHasEnds(input, decls, nodes, edges, e);
        SpecNodeShape(input, decls, nodes, edges, p);
      }
    }
    if Spec.AllFilled(out) {
      forall e | e in edges ensures e.fromPort != "" && e.toPort != "" {
        var p, n := EdgeHasEnds(input, decls, nodes, edges, e);
        assert Spec.Filled(BindingOf(decls, e));
      }
    }
  }

  lemma FrozenNames(sha: Hash, input: Input, c: Contract)
    requires HashLike(sha) && FrozenOK(sha, input, c)
    ensures input.revision.pipelineID != "" && input.revision.revisionID != "" && input.revision.contractDigest != ""
  {
    assert HexDigest(DigestCanonical(sha, CanonicalText(c)));
  }

  lemma MetadataFilled(rev: Revision)
    requires rev.pipelineID != "" && rev.revisionID != "" && rev.contractDigest != ""
    ensures Spec.MetadataOK(Metadata(rev))
  {
    assert |Spec.KeyPipelineID| == 24 && |Spec.KeyRevisionID| == 32 && |Spec.KeyContractDigest| == 36;
    assert Metadata(rev).Keys == {Spec.KeyPipelineID, Spec.KeyRevisionID, Spec.KeyContractDigest};
  }

  /** The checker accepts a lowered spec exactly if there is a node, every edge names its
      ports, and the dependencies have no cycle. */
  lemma CheckerAccepts(sha: Hash, input: Input, c: Contract, decls: Decls, nodes: seq<Node>, edges: seq<DirectEdge>)
    requires HashLike(sha) && FrozenOK(sha, input, c) && Lowers(input, decls, nodes, edges)
    ensures Spec.SpecOK(SpecFor(input, decls, nodes, edges)) <==>
            nodes != [] && PortsNamed(edges) && Acyclic(Dependencies(edges))
  {
    FrozenNames(sha, input, c);
    MetadataFilled(input.revision);
    LoweredNodesOK(input, decls, nodes, edges);
    GraphIsProjection(edges);
    if Acyclic(Dependencies(edges)) { LoweredEdgesOK(input, decls, nodes, edges); }
    SpecFilled(input, decls, nodes, edges);
    LoweredSameSource(input, decls, nodes, edges);
  }
}
