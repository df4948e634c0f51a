/** Meaning preservation of lowering: the edges read back from the bindings are the
    contract's edges, and the order in which a contract was written does not show. */
module LoweringEdges {
  import opened Prelude
  import opened Ordering
  import opened Contracts
  import opened Cycles
  import opened Canonical
  import opened Digests
  import opened Validation
  import opened Lowering
  import opened LoweringLaws
  import opened LoweringPass
  import Spec = SpecCheck

  // ---- Reading the edges back ---------------------------------------------------------

  function EdgeBack(id: string): Spec.ArtifactBinding -> DirectEdge {
    (b: Spec.ArtifactBinding) => DirectEdge(b.producer, b.output, id, b.childInput)
  }

  /** The edges a lowered graph stands for, one for each binding. */
  function ReadBack(nodes: seq<Spec.SpecNode>): seq<DirectEdge> {
    if nodes == [] then []
    else
      var n := |nodes| - 1;
      ReadBack(nodes[..n]) + Map(EdgeBack(nodes[n].nodeID), nodes[n].bindings)
  }

  lemma {:induction false} BindingsReadBack(decls: Decls, edges: seq<DirectEdge>, id: string, e: DirectEdge)
    ensures multiset(Map(EdgeBack(id), BindingsFor(decls, edges, id)))[e] == if e.toNode == id then multiset(edges)[e] else 0
  {
    if edges != [] {
      var n := |edges| - 1;
      BindingsReadBack(decls, edges[..n], id, e);
      assert edges == edges[..n] + [edges[n]];
      var before := BindingsFor(decls, edges[..n], id);
      if edges[n].toNode == id {
        assert Map(EdgeBack(id), before + [BindingOf(decls, edges[n])]) == Map(EdgeBack(id), before) + [edges[n]];
      }
    }
  }

  /** Each node carries the bindings of its own id. */
  ghost predicate BoundBy(decls: Decls, edges: seq<DirectEdge>, out: seq<Spec.SpecNode>) {
    forall n :: n in out ==> n.bindings == BindingsFor(decls, edges, n.nodeID)
  }

  lemma {:induction false} NodesReadBack(decls: Decls, edges: seq<DirectEdge>, out: seq<Spec.SpecNode>, e: DirectEdge)
    requires BoundBy(decls, edges, out) && NoDuplicates(Spec.SpecIDs(out))
    ensures multiset(ReadBack(out))[e] == if e.toNode in Spec.SpecIDs(out) then multiset(edges)[e] else 0
  {
    if out != [] {
      var n := |out| - 1;
      var ids := Spec.SpecIDs(out);
      assert Spec.SpecIDs(out[..n]) == ids[..n];
      NodesReadBack(decls, edges, out[..n], e);
      BindingsReadBack(decls, edges, out[n].nodeID, e);
      TakeNext(ids, n);
      TakeAll(ids);
      NextIsNew(ids, n);
    }
  }

  lemma EdgesReadBack(input: Input, decls: Decls, nodes: seq<Node>, edges: seq<DirectEdge>)
    requires Lowers(input, decls, nodes, edges)
    ensures multiset(ReadBack(NodesFor(input, decls, nodes, edges))) == multiset(edges)
  {
    var out := NodesFor(input, decls, nodes, edges);
    assert BoundBy(decls, edges, out) by {
      forall n | n in out ensures n.bindings == BindingsFor(decls, edges, n.nodeID) {
        SpecNodeShape(input, decls, nodes, edges, n);
      }
    }
    LoweredNodesOK(input, decls, nodes, edges);
    forall e ensures multiset(ReadBack(out))[e] == multiset(edges)[e] {
      NodesReadBack(decls, edges, out, e);
      if e in edges {
        assert EdgeOK(decls, e);
        IDListed(nodes, ResolversOf(input.tools), decls, e.toNode);
      }
    }
  }

  lemma LoweredParts(sha: Hash, input: Input, c: Contract, spec: Spec.RunSpec) returns (decls: Decls)
    requires FrozenOK(sha, input, c) && LoweredTo(sha, input, spec)
    ensures Lowers(input, decls, Sort(c.nodes, NodeKey), Sort(c.edges, EdgeKey))
    ensures spec == SpecFor(input, decls, Sort(c.nodes, NodeKey), Sort(c.edges, EdgeKey))
  {
    var c', d :| LoweredBy(sha, input, c', d, spec);
    decls := d;
  }

  lemma SortMembers<T>(s: seq<T>, key: T -> seq<string>)
    ensures forall x :: x in Sort(s, key) <==> x in s
  {
    forall x ensures x in Sort(s, key) <==> x in s {
      assert x in Sort(s, key) <==> x in multiset(Sort(s, key));
      assert x in s <==> x in multiset(s);
    }
  }

  /** Lowering preserves the edges: read back from the bindings they are exactly the
      contract's, each once; the graph's edges are their node pairs, each once; and the
      nodes are the contract's in id order. */
  lemma LoweringPreservesEdges(sha: Hash, input: Input, c: Contract, spec: Spec.RunSpec)
    requires FrozenOK(sha, input, c) && LoweredTo(sha, input, spec)
    ensures multiset(ReadBack(spec.nodes)) == multiset(c.edges) && NoDuplicates(ReadBack(spec.nodes))
    ensures Spec.Pairs(spec.edges) == Dependencies(c.edges) && NoDuplicates(spec.edges)
    ensures Lists(Spec.SpecIDs(spec.nodes), set n | n in c.nodes :: n.nodeID)
  {
    var nodes, edges := Sort(c.nodes, NodeKey), Sort(c.edges, EdgeKey);
    var decls := LoweredParts(sha, input, c, spec);
    EdgesReadBack(input, decls, nodes, edges);
    FanOutFreeIsRepeatFree(edges);
    SameDuplicates(edges, ReadBack(spec.nodes));
    GraphIsProjection(edges);
    SortMembers(c.edges, EdgeKey);
    LoweredNodesOK(input, decls, nodes, edges);
    SortedIDs(c.nodes);
  }

  lemma SortedIDs(nodes: seq<Node>)
    requires NoDuplicates(NodeIDs(Sort(nodes, NodeKey)))
    ensures Lists(NodeIDs(Sort(nodes, NodeKey)), set n | n in nodes :: n.nodeID)
  {
    var r := Sort(nodes, NodeKey);
    SortSorted(nodes, NodeKey);
    SortMembers(nodes, NodeKey);
    forall i, j | 0 <= i < j < |r| ensures Less(NodeIDs(r)[i], NodeIDs(r)[j]) {
      assert !LessKeys(NodeKey(r[j]), NodeKey(r[i]));
      assert NodeIDs(r)[i] != NodeIDs(r)[j];
      LessTotal(NodeIDs(r)[i], NodeIDs(r)[j]);
    }
    forall x ensures x in NodeIDs(r) <==> x in (set n | n in nodes :: n.nodeID) {
      if x in NodeIDs(r) { var i :| 0 <= i < |r| && NodeIDs(r)[i] == x; assert r[i] in nodes; }
      if x in (set n | n in nodes :: n.nodeID) { var n :| n in nodes && n.nodeID == x; MapMember(NodeIDOf, r, n); }
    }
  }

  /** An input is required in the spec exactly if its declaration says so. */
  lemma RequiredCarries(sha: Hash, input: Input, c: Contract, spec: Spec.RunSpec, n: Spec.SpecNode, b: Spec.ArtifactBinding)
    requires FrozenOK(sha, input, c) && LoweredTo(sha, input, spec) && n in spec.nodes && b in n.bindings
    ensures exists m :: m in c.nodes && m.nodeID == n.nodeID && m.casHash in input.tools
                        && b.childInput in input.tools[m.casHash].inputs
                        && b.required == input.tools[m.casHash].inputs[b.childInput].required
  {
    var nodes, edges := Sort(c.nodes, NodeKey), Sort(c.edges, EdgeKey);
    var decls := LoweredParts(sha, input, c, spec);
    var e := EdgeOfBinding(input, decls, nodes, edges, n, b);
    assert EdgeOK(decls, e);
    var m :| m in nodes && m.nodeID == n.nodeID;
    SortMembers(c.nodes, NodeKey);
  }

  // ---- Authoring order ----------------------------------------------------------------

  lemma WrittenInProfile(nodes: seq<Node>)
    requires forall n :: n in nodes ==> n.toolProfile.None? && n.params == []
    ensures Map(WrittenNode, Sort(nodes, NodeKey)) == Sort(nodes, NodeKey)
  {
    SortMembers(nodes, NodeKey);
    var r := Sort(nodes, NodeKey);
    forall i | 0 <= i < |r| ensures WrittenNode(r[i]) == r[i] { assert r[i] in r; }
  }

  lemma ProfileAlike(a: Contract, b: Contract)
    requires SameUpToOrder(a, b) && InProfile(a) && NoProfiles(b)
    ensures InProfile(b)
  {
    forall m | m in b.nodes ensures m.params == [] {
      MapMember(FormOf, b.nodes, m);
      assert FormOf(m) in multiset(Map(FormOf, a.nodes));
      var j :| 0 <= j < |a.nodes| && Map(FormOf, a.nodes)[j] == FormOf(m);
      assert a.nodes[j] in a.nodes && |multiset(m.params)| == 0;
    }
    assert |multiset(b.bindings)| == 0 && |multiset(b.slots)| == 0;
  }

  /** The frozen input with its contract decoded in another order. */
  function Rewritten(input: Input, other: Contract): Input {
    input.(revision := input.revision.(contract := Some(other)))
  }

  lemma BodyAlike(sha: Hash, rev: Revision, c: Contract, other: Contract, text: string)
    requires VerifyBody(sha, rev, c, text) == Ok(c) && VersionsOK(other)
    ensures VerifyBody(sha, rev.(contract := Some(other)), other, text) == Ok(other)
  {
  }

  lemma RevisionAlike(sha: Hash, rev: Revision, c: Contract, other: Contract)
    requires VerifyRevision(sha, rev) == Ok(c) && CanonicalText(c) == CanonicalText(other) && VersionsOK(other)
    ensures VerifyRevision(sha, rev.(contract := Some(other))) == Ok(other)
  {
    BodyAlike(sha, rev, c, other, CanonicalText(c));
  }

  lemma SameText(c: Contract, other: Contract)
    requires Sorted(c) == Sorted(other)
    ensures CanonicalText(c) == CanonicalText(other)
  {
  }

  lemma FrozenAlike(sha: Hash, input: Input, c: Contract, other: Contract)
    requires FrozenOK(sha, input, c) && InProfile(other) && SameUpToOrder(c, other) && Sorted(c) == Sorted(other)
    ensures FrozenOK(sha, Rewritten(input, other), other)
  {
    SameText(c, other);
    RevisionAlike(sha, input.revision, c, other);
  }

  lemma NodesRewritten(input: Input, other: Contract, decls: Decls, nodes: seq<Node>, edges: seq<DirectEdge>)
    requires NodesLowerable(input, nodes)
    ensures NodesLowerable(Rewritten(input, other), nodes)
    ensures NodesFor(Rewritten(input, other), decls, nodes, edges) == NodesFor(input, decls, nodes, edges)
  {
    forall n | n in nodes ensures Runs(Rewritten(input, other), n) { assert Runs(input, n); }
  }

  lemma HeaderRewritten(input: Input, other: Contract, nodes: seq<Spec.SpecNode>, edges: seq<seq<string>>)
    ensures Header(Rewritten(input, other), nodes, edges) == Header(input, nodes, edges)
  {
  }

  lemma LoweredAlike(sha: Hash, input: Input, c: Contract, other: Contract, decls: Decls, spec: Spec.RunSpec)
    requires LoweredBy(sha, input, c, decls, spec) && FrozenOK(sha, Rewritten(input, other), other)
    requires Sort(c.nodes, NodeKey) == Sort(other.nodes, NodeKey) && Sort(c.edges, EdgeKey) == Sort(other.edges, EdgeKey)
    ensures LoweredTo(sha, Rewritten(input, other), spec)
  {
    var nodes, edges := Sort(c.nodes, NodeKey), Sort(c.edges, EdgeKey);
    NodesRewritten(input, other, decls, nodes, edges);
    HeaderRewritten(input, other, NodesFor(input, decls, nodes, edges), GraphEdges(edges));
    LoweredWitness(sha, Rewritten(input, other), other, decls, spec);
  }

  lemma DistinctUnsorted(c: Contract)
    requires NoDuplicates(NodeIDs(Sort(c.nodes, NodeKey))) && InProfile(c)
    ensures DistinctNames(c)
  {
    MapPermutation(NodeIDOf, Sort(c.nodes, NodeKey), c.nodes);
    SameDuplicates(NodeIDs(Sort(c.nodes, NodeKey)), NodeIDs(c.nodes));
  }

  /** The lowered spec does not depend on the order in which the contract was written. */
  lemma OrderIndependent(sha: Hash, input: Input, c: Contract, other: Contract, spec: Spec.RunSpec)
    requires FrozenOK(sha, input, c) && LoweredTo(sha, input, spec)
    requires SameUpToOrder(c, other) && NoProfiles(other)
    ensures LoweredTo(sha, Rewritten(input, other), spec)
  {
    var decls :| LoweredBy(sha, input, c, decls, spec);
    DistinctUnsorted(c);
    SortedAlike(c, other);
    ProfileAlike(c, other);
    WrittenInProfile(c.nodes);
    WrittenInProfile(other.nodes);
    FrozenAlike(sha, input, c, other);
    LoweredAlike(sha, input, c, other, decls, spec);
  }
}
