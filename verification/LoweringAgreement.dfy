/** Lowering and commit validation agree: each succeeds on the same contracts, up to the
    conditions only one of them looks at. */
module LoweringAgreement {
  import opened Prelude
  import opened Ordering
  import opened Contracts
  import opened Cycles
  import opened Canonical
  import opened Digests
  import opened Validation
  import opened ValidationOrder
  import opened Lowering
  import opened LoweringLaws
  import opened LoweringPass
  import Spec = SpecCheck

  // ---- Moving between a list and its sort ---------------------------------------------

  lemma NodesPermuted(input: Input, a: seq<Node>, b: seq<Node>)
    requires multiset(a) == multiset(b) && NodesLowerable(input, a)
    ensures NodesLowerable(input, b)
  {
    MapPermutation(NodeIDOf, a, b);
    SameDuplicates(NodeIDs(a), NodeIDs(b));
    SameMembers(a, b);
  }

  lemma PinnedPermuted(a: seq<Node>, b: seq<Node>, res: Resolvers, decls: Decls)
    requires multiset(a) == multiset(b) && Pinned(a, res, decls)
    ensures Pinned(b, res, decls)
  {
    SameMembers(a, b);
    forall id | id in decls ensures exists n :: n in b && n.nodeID == id {
      var n :| n in a && n.nodeID == id;
      assert n in b;
    }
  }

  lemma LinksPermuted(decls: Decls, a: seq<DirectEdge>, b: seq<DirectEdge>)
    requires multiset(a) == multiset(b) && LinksLowerable(decls, a)
    ensures LinksLowerable(decls, b)
  {
    SameMembers(a, b);
    MapPermutation(SourceOf, a, b);
    SameDuplicates(Map(SourceOf, a), Map(SourceOf, b));
    MapPermutation(EdgeTarget, a, b);
    SameDuplicates(EdgeTargets(a), EdgeTargets(b));
  }

  // ---- Node by node and edge by edge --------------------------------------------------

  ghost predicate PinsNamed(nodes: seq<Node>) { forall n :: n in nodes ==> n.casHash != "" }

  ghost predicate AllRun(input: Input, nodes: seq<Node>) { forall n :: n in nodes ==> Runs(input, n) }

  lemma NodesAgree(input: Input, c: Contract)
    requires InProfile(c)
    ensures NodesLowerable(input, c.nodes) && PinsNamed(c.nodes) <==>
            NodesOK(c.nodes, ResolversOf(input.tools)) && AllRun(input, c.nodes)
  {
    forall n | n in c.nodes ensures NodeOK(n, ResolversOf(input.tools)) <==> n.nodeID != "" && n.casHash != "" && n.casHash in input.tools {
      assert ParamNames(n.params) == [];
    }
  }

  lemma TargetsAre(c: Contract)
    requires InProfile(c)
    ensures Targets(c) == multiset(EdgeTargets(c.edges))
  {
    assert BindingTargets(c.bindings) == [] && SlotTargets(c.slots) == [];
  }

  /** If every edge ends at a single-valued input, one provider each means no repetition. */
  lemma ConflictsAreRepeats(decls: Decls, edges: seq<DirectEdge>)
    requires forall e :: e in edges ==> EdgeOK(decls, e)
    ensures NoConflict(decls, multiset(EdgeTargets(edges))) <==> NoDuplicates(EdgeTargets(edges))
  {
    var targets := EdgeTargets(edges);
    forall p | p in multiset(targets) ensures SingleInput(decls, p) {
      var i :| 0 <= i < |targets| && targets[i] == p;
      assert EdgeOK(decls, edges[i]);
    }
    if NoDuplicates(targets) { NoDuplicatesMultiset(targets); }
    if NoConflict(decls, multiset(targets)) {
      assert forall p :: multiset(targets)[p] <= 1;
      MultisetNoDuplicates(targets);
    }
  }

  lemma LinksAgree(c: Contract, res: Resolvers, decls: Decls)
    requires InProfile(c)
    ensures LinksLowerable(decls, c.edges) <==> LinksOK(c, res, decls) && NoFanOut(c.edges)
  {
    TargetsAre(c);
    assert SlotIDs(c.slots) == [];
    if forall e :: e in c.edges ==> EdgeOK(decls, e) { ConflictsAreRepeats(decls, c.edges); }
    if NoFanOut(c.edges) { FanOutFreeIsRepeatFree(c.edges); }
  }

  // ---- The two front doors agree ------------------------------------------------------

  /** What lowering needs and validation does not look at. */
  ghost predicate Lowerable(input: Input, c: Contract) {
    && c.nodes != [] && AllRun(input, c.nodes) && PortsNamed(c.edges) && NoFanOut(c.edges)
  }

  lemma LoweredIsAcceptable(sha: Hash, input: Input, c: Contract, decls: Decls, spec: Spec.RunSpec)
    requires HashLike(sha) && LoweredBy(sha, input, c, decls, spec) && PinsNamed(c.nodes)
    ensures Acceptable(c, ResolversOf(input.tools)) && Lowerable(input, c)
  {
    var nodes, edges := Sort(c.nodes, NodeKey), Sort(c.edges, EdgeKey);
    CheckerAccepts(sha, input, c, decls, nodes, edges);
    NodesPermuted(input, nodes, c.nodes);
    NodesAgree(input, c);
    PinnedPermuted(nodes, c.nodes, ResolversOf(input.tools), decls);
    LinksPermuted(decls, edges, c.edges);
    LinksAgree(c, ResolversOf(input.tools), decls);
    SameDependencies(edges, c.edges);
    SameMembers(edges, c.edges);
    assert VersionsOK(c);
  }

  lemma AcceptableLowers(input: Input, c: Contract) returns (decls: Decls)
    requires InProfile(c) && Acceptable(c, ResolversOf(input.tools)) && Lowerable(input, c)
    ensures Lowers(input, decls, Sort(c.nodes, NodeKey), Sort(c.edges, EdgeKey)) && PinsNamed(c.nodes)
    ensures LinksLowerable(decls, Sort(c.edges, EdgeKey))
  {
    var nodes, edges := Sort(c.nodes, NodeKey), Sort(c.edges, EdgeKey);
    decls :| Pinned(c.nodes, ResolversOf(input.tools), decls) && LinksOK(c, ResolversOf(input.tools), decls);
    NodesAgree(input, c);
    NodesPermuted(input, c.nodes, nodes);
    PinnedPermuted(c.nodes, nodes, ResolversOf(input.tools), decls);
    LinksAgree(c, ResolversOf(input.tools), decls);
    LinksPermuted(decls, c.edges, edges);
  }

  lemma SortedChecks(sha: Hash, input: Input, c: Contract, decls: Decls)
    requires HashLike(sha) && FrozenOK(sha, input, c) && Lowerable(input, c) && Acyclic(Dependencies(c.edges))
    requires Lowers(input, decls, Sort(c.nodes, NodeKey), Sort(c.edges, EdgeKey))
    ensures Spec.SpecOK(SpecFor(input, decls, Sort(c.nodes, NodeKey), Sort(c.edges, EdgeKey)))
  {
    var nodes, edges := Sort(c.nodes, NodeKey), Sort(c.edges, EdgeKey);
    SameDependencies(c.edges, edges);
    SameMembers(c.edges, edges);
    assert nodes != [] && PortsNamed(edges) && Acyclic(Dependencies(edges));
    CheckerAccepts(sha, input, c, decls, nodes, edges);
  }

  lemma GraphIsLowered(sha: Hash, input: Input, c: Contract, decls: Decls) returns (spec: Spec.RunSpec)
    requires FrozenOK(sha, input, c) && Lowers(input, decls, Sort(c.nodes, NodeKey), Sort(c.edges, EdgeKey))
    requires LinksLowerable(decls, Sort(c.edges, EdgeKey))
    requires Spec.SpecOK(SpecFor(input, decls, Sort(c.nodes, NodeKey), Sort(c.edges, EdgeKey)))
    ensures LoweredTo(sha, input, spec)
  {
    spec := SpecOf(input, decls, c);
    LoweredWitness(sha, input, c, decls, spec);
  }

  lemma AcceptableIsLowered(sha: Hash, input: Input, c: Contract) returns (spec: Spec.RunSpec)
    requires HashLike(sha) && FrozenOK(sha, input, c)
    requires Acceptable(c, ResolversOf(input.tools)) && Lowerable(input, c)
    ensures LoweredTo(sha, input, spec) && PinsNamed(c.nodes)
  {
    var decls := AcceptableLowers(input, c);
    SortedChecks(sha, input, c, decls);
    spec := GraphIsLowered(sha, input, c, decls);
  }

  /** For an authorised, intact, in-profile revision: lowering succeeds on a contract whose
      pins are named exactly when validation accepts it under the same declarations and it
      has a node, every pin runs, every edge names its ports and no output fans out. */
  lemma LoweringAgreesWithValidation(sha: Hash, input: Input, c: Contract)
    requires HashLike(sha) && FrozenOK(sha, input, c)
    ensures (exists spec :: LoweredTo(sha, input, spec)) && PinsNamed(c.nodes) <==>
            Acceptable(c, ResolversOf(input.tools)) && Lowerable(input, c)
  {
    if PinsNamed(c.nodes) {
      if spec :| LoweredTo(sha, input, spec) {
        var c', decls :| LoweredBy(sha, input, c', decls, spec);
        LoweredIsAcceptable(sha, input, c, decls, spec);
      }
    }
    if Acceptable(c, ResolversOf(input.tools)) && Lowerable(input, c) {
      var spec := AcceptableIsLowered(sha, input, c);
    }
  }
}
