/** Concrete contracts on which commit validation and lowering differ, one for each condition
    that only one of them looks at. */
module LoweringWitnesses {
  import opened Prelude
  import opened Ordering
  import opened Contracts
  import opened Cycles
  import opened Canonical
  import opened Digests
  import opened Validation
  import opened Lowering
  import opened LoweringLaws
  import opened LoweringPass
  import opened LoweringAgreement
  import Spec = SpecCheck

  // ---- Inputs -------------------------------------------------------------------------

  /** An authorised input that freezes c as its own committed revision. */
  function Frozen(sha: Hash, c: Contract, tools: map<string, ToolFunctionDecl>, runnables: map<string, Runnable>): Input {
    Input("run",
          Revision("pipeline", "revision", DigestCanonical(sha, CanonicalText(c)), ContractVersionV1, ContractVersionV1,
                   CanonicalText(c), Some(c)),
          Spec.Instant(1), "", "", tools, runnables, Allow)
  }

  lemma FrozenIsOK(sha: Hash, c: Contract, tools: map<string, ToolFunctionDecl>, runnables: map<string, Runnable>)
    requires VersionsOK(c) && InProfile(c)
    ensures FrozenOK(sha, Frozen(sha, c, tools, runnables), c)
  {
  }

  function V1(nodes: seq<Node>, edges: seq<DirectEdge>): Contract {
    Contract(ContractVersionV1, ContractVersionV1, nodes, edges, [], [])
  }

  const Pinned64: string := "n@sha256:" + seq(64, i => '0')

  lemma Pinned64IsPinned()
    ensures Spec.PinnedImage(Pinned64)
  {
    assert Pinned64[|Pinned64|-72..|Pinned64|-64] == "@sha256:";
  }

  /** Accepted by validation, refused by lowering, whatever the runnables. */
  ghost predicate OnlyValid(sha: Hash, c: Contract, tools: map<string, ToolFunctionDecl>) {
    && Acceptable(c, ResolversOf(tools))
    && forall runnables ::
         && FrozenOK(sha, Frozen(sha, c, tools, runnables), c)
         && forall spec :: !LoweredTo(sha, Frozen(sha, c, tools, runnables), spec)
  }

  lemma NotLowerable(sha: Hash, c: Contract, tools: map<string, ToolFunctionDecl>)
    requires HashLike(sha) && VersionsOK(c) && InProfile(c) && PinsNamed(c.nodes) && Acceptable(c, ResolversOf(tools))
    requires c.nodes == [] || !PortsNamed(c.edges) || !NoFanOut(c.edges)
    ensures OnlyValid(sha, c, tools)
  {
    forall runnables
      ensures FrozenOK(sha, Frozen(sha, c, tools, runnables), c)
              && forall spec :: !LoweredTo(sha, Frozen(sha, c, tools, runnables), spec)
    {
      FrozenIsOK(sha, c, tools, runnables);
      LoweringAgreesWithValidation(sha, Frozen(sha, c, tools, runnables), c);
    }
  }

  lemma OneEdgeAcyclic(edges: Edges)
    requires forall e :: e in edges ==> e == ("a", "b")
    ensures Acyclic(edges)
  {
    forall v ensures !OnCycle(edges, v) {
      if p :| |p| >= 2 && WalkBetween(edges, p, v, v) {
        assert (p[0], p[1]) in edges;
        assert |p| > 2 ==> (p[1], p[2]) in edges;
      }
    }
  }

  // ---- No nodes -----------------------------------------------------------------------

  /** A contract without nodes is valid and has no lowering. */
  lemma NoNodesOnlyValid(sha: Hash)
    requires HashLike(sha)
    ensures OnlyValid(sha, V1([], []), map[])
  {
    var c := V1([], []);
    var res := ResolversOf(map[]);
    OneEdgeAcyclic(Dependencies(c.edges));
    assert Pinned(c.nodes, res, map[]) && LinksOK(c, res, map[]);
    NotLowerable(sha, c, map[]);
  }

  // ---- Two nodes ----------------------------------------------------------------------

  const Source := Node("a", "h", None, [])
  const Sink := Node("b", "k", None, [])
  const In := InputPort("text", Single, false)
  const Out := OutputPort("text", Single)

  /** The source offers one output, the sink two inputs. */
  function Tools(out: string, first: string, second: string): map<string, ToolFunctionDecl> {
    map["h" := ToolFunctionDecl(map[], map[out := Out], map[]), "k" := ToolFunctionDecl(map[first := In, second := In], map[], map[])]
  }

  function DeclsOf(out: string, first: string, second: string): Decls {
    map["a" := Tools(out, first, second)["h"], "b" := Tools(out, first, second)["k"]]
  }

  lemma TwoNodesPinned(out: string, first: string, second: string)
    ensures var res := ResolversOf(Tools(out, first, second));
            NodesOK([Source, Sink], res) && Pinned([Source, Sink], res, DeclsOf(out, first, second))
  {
    var nodes, res := [Source, Sink], ResolversOf(Tools(out, first, second));
    assert NodeIDs(nodes)[0] == "a" && NodeIDs(nodes)[1] == "b";
    assert ParamNames([]) == [];
    assert nodes[0].nodeID == "a" && nodes[1].nodeID == "b";
    assert Source in nodes && Sink in nodes;
  }

  lemma TwoNodesLinked(decls: Decls, res: Resolvers, edges: seq<DirectEdge>)
    requires NoDuplicates(edges) && NoDuplicates(EdgeTargets(edges)) && (forall e :: e in edges ==> EdgeOK(decls, e))
    requires forall id, name :: id in decls && name in decls[id].inputs ==> !decls[id].inputs[name].required
    ensures LinksOK(V1([Source, Sink], edges), res, decls)
  {
    var c := V1([Source, Sink], edges);
    TargetsAre(c);
    ConflictsAreRepeats(decls, edges);
    assert SlotIDs(c.slots) == [];
  }

  lemma TwoNodesValid(out: string, first: string, second: string, edges: seq<DirectEdge>)
    requires NoDuplicates(edges) && NoDuplicates(EdgeTargets(edges))
    requires forall e :: e in edges ==> EdgeOK(DeclsOf(out, first, second), e) && e.fromNode == "a" && e.toNode == "b"
    ensures Acceptable(V1([Source, Sink], edges), ResolversOf(Tools(out, first, second)))
    ensures PinsNamed([Source, Sink])
  {
    var res := ResolversOf(Tools(out, first, second));
    TwoNodesPinned(out, first, second);
    TwoNodesLinked(DeclsOf(out, first, second), res, edges);
    OneEdgeAcyclic(Dependencies(edges));
    assert Linked(V1([Source, Sink], edges), res);
  }

  lemma TwoNodesOnlyValid(sha: Hash, out: string, first: string, second: string, edges: seq<DirectEdge>)
    requires HashLike(sha) && NoDuplicates(edges) && NoDuplicates(EdgeTargets(edges))
    requires forall e :: e in edges ==> EdgeOK(DeclsOf(out, first, second), e) && e.fromNode == "a" && e.toNode == "b"
    requires !PortsNamed(edges) || !NoFanOut(edges)
    ensures OnlyValid(sha, V1([Source, Sink], edges), Tools(out, first, second))
  {
    var c := V1([Source, Sink], edges);
    TwoNodesValid(out, first, second, edges);
    TwoNodesPlain(edges, c);
    NotLowerable(sha, c, Tools(out, first, second));
  }

  lemma TwoNodesPlain(edges: seq<DirectEdge>, c: Contract)
    requires c == V1([Source, Sink], edges)
    ensures VersionsOK(c) && InProfile(c) && c.nodes == [Source, Sink] && c.edges == edges
  {
  }

  lemma EdgeFits(out: string, first: string, second: string, port: string)
    requires port == first || port == second
    ensures EdgeOK(DeclsOf(out, first, second), DirectEdge("a", out, "b", port))
  {
  }

  function TwoEdges(out: string, first: string, second: string): seq<DirectEdge> {
    [DirectEdge("a", out, "b", first), DirectEdge("a", out, "b", second)]
  }

  lemma TwoEdgesFit(out: string, first: string, second: string)
    requires first != second
    ensures var edges := TwoEdges(out, first, second);
            && NoDuplicates(edges) && NoDuplicates(EdgeTargets(edges)) && !NoFanOut(edges)
            && forall e :: e in edges ==> EdgeOK(DeclsOf(out, first, second), e) && e.fromNode == "a" && e.toNode == "b"
  {
    var edges := TwoEdges(out, first, second);
    EdgeFits(out, first, second, first);
    EdgeFits(out, first, second, second);
    assert EdgeTargets(edges)[0].name == first && EdgeTargets(edges)[1].name == second;
    assert Map(SourceOf, edges)[0] == Map(SourceOf, edges)[1];
  }

  /** One output that feeds two inputs is valid and has no lowering. */
  lemma FanOutOnlyValid(sha: Hash, out: string, first: string, second: string)
    requires HashLike(sha) && first != second
    ensures OnlyValid(sha, V1([Source, Sink], TwoEdges(out, first, second)), Tools(out, first, second))
  {
    TwoEdgesFit(out, first, second);
    TwoNodesOnlyValid(sha, out, first, second, TwoEdges(out, first, second));
  }

  function OneEdge(out: string, port: string): seq<DirectEdge> { [DirectEdge("a", out, "b", port)] }

  lemma OneEdgeFits(out: string, port: string)
    ensures var edges := OneEdge(out, port);
            && NoDuplicates(edges) && NoDuplicates(EdgeTargets(edges))
            && (out == "" || port == "" ==> !PortsNamed(edges))
            && forall e :: e in edges ==> EdgeOK(DeclsOf(out, port, port), e) && e.fromNode == "a" && e.toNode == "b"
  {
    var edges := OneEdge(out, port);
    EdgeFits(out, port, port, port);
    assert edges[0] in edges;
  }

  /** An edge that ends at, or starts from, a port named by the empty string is valid and has
      no lowering. */
  lemma UnnamedPortsOnlyValid(sha: Hash, out: string, port: string)
    requires HashLike(sha) && (out == "" || port == "")
    ensures OnlyValid(sha, V1([Source, Sink], OneEdge(out, port)), Tools(out, port, port))
  {
    OneEdgeFits(out, port);
    TwoNodesOnlyValid(sha, out, port, port, OneEdge(out, port));
  }

  // ---- An empty pin -------------------------------------------------------------------

  const Unpinned := Node("a", "", None, [])

  const EmptyKeyTools: map<string, ToolFunctionDecl> := map["" := ToolFunctionDecl(map[], map[], map[])]

  const EmptyKeyRunnables: map<string, Runnable> := map["" := Runnable(Pinned64, [], [])]

  /** A node with an empty pin has a lowering when a declaration and a runnable are frozen
      under the empty key, and is never valid. */
  lemma EmptyPinOnlyLowered(sha: Hash) returns (spec: Spec.RunSpec)
    requires HashLike(sha)
    ensures var c := V1([Unpinned], []);
            && LoweredTo(sha, Frozen(sha, c, EmptyKeyTools, EmptyKeyRunnables), spec)
            && !Acceptable(c, ResolversOf(EmptyKeyTools))
  {
    var c := V1([Unpinned], []);
    var input := Frozen(sha, c, EmptyKeyTools, EmptyKeyRunnables);
    var decls: Decls := map["a" := EmptyKeyTools[""]];
    FrozenIsOK(sha, c, EmptyKeyTools, EmptyKeyRunnables);
    OneNodeLowers(input, decls);
    OneEdgeAcyclic(Dependencies([]));
    CheckerAccepts(sha, input, c, decls, [Unpinned], []);
    spec := SpecOf(input, decls, c);
    LoweredWitness(sha, input, c, decls, spec);
    assert !NodeOK(c.nodes[0], ResolversOf(EmptyKeyTools));
  }

  lemma OneNodeLowers(input: Input, decls: Decls)
    requires input.tools == EmptyKeyTools && input.runnables == EmptyKeyRunnables && decls == map["a" := EmptyKeyTools[""]]
    ensures Sort([Unpinned], NodeKey) == [Unpinned] && Sort([], EdgeKey) == []
    ensures Lowers(input, decls, [Unpinned], []) && LinksLowerable(decls, [])
  {
    Pinned64IsPinned();
    SortIdempotent([Unpinned], NodeKey);
    assert Runs(input, Unpinned);
    assert Unpinned in [Unpinned];
    assert EdgeTargets([]) == [] && Map(SourceOf, []) == [];
  }
}
