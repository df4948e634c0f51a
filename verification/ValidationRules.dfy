/** The published rules of commit validation, written out on the contract and the resolvers
    alone, and the proof that validation decides exactly these. */
module ValidationRules {
  import opened Prelude
  import opened Ordering
  import opened Contracts
  import opened Cycles
  import opened Validation

  // ---- Ports as the resolvers declare them --------------------------------------------

  /** The tool function that a node is pinned to declares this output. */
  ghost predicate Offers(c: Contract, res: Resolvers, node: string, port: string, out: OutputPort) {
    exists n :: n in c.nodes && n.nodeID == node && res.tools(n.casHash).Some?
                && port in res.tools(n.casHash).value.outputs && res.tools(n.casHash).value.outputs[port] == out
  }

  /** The tool function that a node is pinned to declares this input. */
  ghost predicate Takes(c: Contract, res: Resolvers, node: string, port: string, input: InputPort) {
    exists n :: n in c.nodes && n.nodeID == node && res.tools(n.casHash).Some?
                && port in res.tools(n.casHash).value.inputs && res.tools(n.casHash).value.inputs[port] == input
  }

  // ---- The rules ----------------------------------------------------------------------

  /** Every node is named, pinned to a tool function that resolves, selects no tool profile and
      sets each parameter once, to a value that the declaration allows. */
  ghost predicate NodeRule(n: Node, res: Resolvers) {
    && n.nodeID != "" && n.toolProfile == None && n.casHash != "" && res.tools(n.casHash).Some?
    && (forall i, j :: 0 <= i < j < |n.params| ==> n.params[i].name != n.params[j].name)
    && (forall i :: 0 <= i < |n.params| ==>
          var allowed := res.tools(n.casHash).value.parameters;
          && n.params[i].name in allowed
          && (allowed[n.params[i].name] != [] ==> n.params[i].value in allowed[n.params[i].name]))
  }

  /** An edge joins a declared output and a declared input, both SINGLE, of one and the same
      known format. */
  ghost predicate EdgeRule(c: Contract, res: Resolvers, e: DirectEdge) {
    exists out, input ::
      && Offers(c, res, e.fromNode, e.fromPort, out) && Takes(c, res, e.toNode, e.toPort, input)
      && out.cardinality == Single && input.cardinality == Single
      && out.format == input.format && out.format != "" && out.format != "UNKNOWN" && out.format != "UNSPECIFIED"
  }

  /** An asset binding names an asset member that resolves, and joins it in the same way. */
  ghost predicate BindingRule(c: Contract, res: Resolvers, b: AssetBinding) {
    exists member, input ::
      && res.assets(b.assetID, b.assetRevision, b.memberKey) == Some(member) && Takes(c, res, b.toNode, b.toPort, input)
      && member.cardinality == Single && input.cardinality == Single
      && member.format == input.format && member.format != "" && member.format != "UNKNOWN" && member.format != "UNSPECIFIED"
  }

  /** A slot is named and feeds a declared SINGLE input. */
  ghost predicate SlotRule(c: Contract, res: Resolvers, s: InputSlot) {
    s.slotID != "" && exists input :: Takes(c, res, s.toNode, s.toPort, input) && input.cardinality == Single
  }

  /** No input has two providers, of whatever kinds. */
  ghost predicate OneProvider(c: Contract) {
    && (forall i, j :: 0 <= i < j < |c.edges| ==>
          c.edges[i].toNode != c.edges[j].toNode || c.edges[i].toPort != c.edges[j].toPort)
    && (forall i, j :: 0 <= i < j < |c.bindings| ==>
          c.bindings[i].toNode != c.bindings[j].toNode || c.bindings[i].toPort != c.bindings[j].toPort)
    && (forall i, j :: 0 <= i < j < |c.slots| ==>
          c.slots[i].toNode != c.slots[j].toNode || c.slots[i].toPort != c.slots[j].toPort)
    && (forall e, b :: e in c.edges && b in c.bindings ==> e.toNode != b.toNode || e.toPort != b.toPort)
    && (forall e, s :: e in c.edges && s in c.slots ==> e.toNode != s.toNode || e.toPort != s.toPort)
    && (forall b, s :: b in c.bindings && s in c.slots ==> b.toNode != s.toNode || b.toPort != s.toPort)
  }

  /** Something feeds the port. */
  ghost predicate Provided(c: Contract, node: string, port: string) {
    || (exists e :: e in c.edges && e.toNode == node && e.toPort == port)
    || (exists b :: b in c.bindings && b.toNode == node && b.toPort == port)
    || (exists s :: s in c.slots && s.toNode == node && s.toPort == port)
  }

  /** One node directly feeds another. */
  ghost predicate Feeds(c: Contract, a: string, b: string) { exists e :: e in c.edges && e.fromNode == a && e.toNode == b }

  /** A walk along the edges that comes back to where it began. */
  ghost predicate Circle(c: Contract, walk: seq<string>) {
    && |walk| >= 2 && walk[0] == walk[|walk|-1]
    && forall k :: 0 <= k < |walk| - 1 ==> Feeds(c, walk[k], walk[k+1])
  }

  /** No edge, no binding and no slot id is given twice. */
  ghost predicate NothingTwice(c: Contract) {
    && (forall i, j :: 0 <= i < j < |c.edges| ==> c.edges[i] != c.edges[j])
    && (forall i, j :: 0 <= i < j < |c.bindings| ==> c.bindings[i] != c.bindings[j])
    && (forall i, j :: 0 <= i < j < |c.slots| ==> c.slots[i].slotID != c.slots[j].slotID)
  }

  ghost predicate EverythingFits(c: Contract, res: Resolvers) {
    && (forall e :: e in c.edges ==> EdgeRule(c, res, e))
    && (forall b :: b in c.bindings ==> BindingRule(c, res, b))
    && (forall s :: s in c.slots ==> SlotRule(c, res, s))
  }

  /** Every required input is fed. */
  ghost predicate RequiredFed(c: Contract, res: Resolvers) {
    forall node, port, input :: Takes(c, res, node, port, input) && input.required ==> Provided(c, node, port)
  }

  ghost predicate LinkRules(c: Contract, res: Resolvers) {
    NothingTwice(c) && EverythingFits(c, res) && OneProvider(c) && RequiredFed(c, res)
  }

  /** What commit validation asks for. */
  ghost predicate Rules(c: Contract, res: Resolvers) {
    && c.semVersion == "pipelinestore.pipeline-contract.v1" && c.canonVersion == "pipelinestore.pipeline-contract.v1"
    && (forall i, j :: 0 <= i < j < |c.nodes| ==> c.nodes[i].nodeID != c.nodes[j].nodeID)
    && (forall n :: n in c.nodes ==> NodeRule(n, res))
    && LinkRules(c, res)
    && (forall walk :: !Circle(c, walk))
  }

  // ---- The pins -----------------------------------------------------------------------

  lemma NodeMeans(n: Node, res: Resolvers)
    ensures NodeOK(n, res) <==> NodeRule(n, res)
  {
    var names := ParamNames(n.params);
    assert forall i :: 0 <= i < |n.params| ==> names[i] == n.params[i].name;
    if NodeOK(n, res) {
      forall i | 0 <= i < |n.params| ensures ParamOK(res.tools(n.casHash).value, n.params[i]) { assert n.params[i] in n.params; }
    }
  }

  lemma NodesMean(nodes: seq<Node>, res: Resolvers)
    ensures NodesOK(nodes, res) <==> && (forall i, j :: 0 <= i < j < |nodes| ==> nodes[i].nodeID != nodes[j].nodeID)
                                     && (forall n :: n in nodes ==> NodeRule(n, res))
  {
    assert forall i :: 0 <= i < |nodes| ==> NodeIDs(nodes)[i] == nodes[i].nodeID;
    forall n | n in nodes ensures NodeOK(n, res) <==> NodeRule(n, res) { NodeMeans(n, res); }
  }

  lemma {:induction false} PinsExist(nodes: seq<Node>, res: Resolvers) returns (decls: Decls)
    requires NodesOK(nodes, res)
    ensures Pinned(nodes, res, decls)
  {
    decls := map[];
    for i := 0 to |nodes|
      invariant Pinned(nodes[..i], res, decls)
    {
      assert nodes[i] in nodes && NodeIDs(nodes)[i] == nodes[i].nodeID;
      PinnedKeys(nodes, i, res, decls, nodes[i].nodeID);
      PinnedNext(nodes, i, res, decls, res.tools(nodes[i].casHash).value);
      decls := decls[nodes[i].nodeID := res.tools(nodes[i].casHash).value];
    }
    TakeAll(nodes);
  }

  lemma PortsPinned(c: Contract, res: Resolvers, decls: Decls, node: string, port: string)
    requires Pinned(c.nodes, res, decls)
    ensures forall out :: Offers(c, res, node, port, out) <==>
              node in decls && port in decls[node].outputs && decls[node].outputs[port] == out
    ensures forall input :: Takes(c, res, node, port, input) <==>
              node in decls && port in decls[node].inputs && decls[node].inputs[port] == input
  {
    if node in decls {
      var n :| n in c.nodes && n.nodeID == node;
      assert res.tools(n.casHash) == Some(decls[node]);
    }
  }

  // ---- Edges, bindings and slots ------------------------------------------------------

  lemma EdgeMeans(c: Contract, res: Resolvers, decls: Decls, e: DirectEdge)
    requires Pinned(c.nodes, res, decls)
    ensures EdgeOK(decls, e) <==> EdgeRule(c, res, e)
  {
    PortsPinned(c, res, decls, e.fromNode, e.fromPort);
    PortsPinned(c, res, decls, e.toNode, e.toPort);
    if EdgeOK(decls, e) {
      assert Offers(c, res, e.fromNode, e.fromPort, decls[e.fromNode].outputs[e.fromPort]);
      assert Takes(c, res, e.toNode, e.toPort, decls[e.toNode].inputs[e.toPort]);
    }
  }

  lemma BindingMeans(c: Contract, res: Resolvers, decls: Decls, b: AssetBinding)
    requires Pinned(c.nodes, res, decls)
    ensures BindingOK(decls, res, b) <==> BindingRule(c, res, b)
  {
    PortsPinned(c, res, decls, b.toNode, b.toPort);
    if BindingOK(decls, res, b) { assert Takes(c, res, b.toNode, b.toPort, decls[b.toNode].inputs[b.toPort]); }
  }

  lemma SlotMeans(c: Contract, res: Resolvers, decls: Decls, s: InputSlot)
    requires Pinned(c.nodes, res, decls)
    ensures SlotOK(decls, s) <==> SlotRule(c, res, s)
  {
    PortsPinned(c, res, decls, s.toNode, s.toPort);
    if SlotOK(decls, s) { assert Takes(c, res, s.toNode, s.toPort, decls[s.toNode].inputs[s.toPort]); }
  }

  // ---- Providers ----------------------------------------------------------------------

  lemma TargetsInOrder(c: Contract)
    ensures forall i :: 0 <= i < |c.edges| ==> EdgeTargets(c.edges)[i] == Port(c.edges[i].toNode, c.edges[i].toPort)
    ensures forall i :: 0 <= i < |c.bindings| ==>
              BindingTargets(c.bindings)[i] == Port(c.bindings[i].toNode, c.bindings[i].toPort)
    ensures forall i :: 0 <= i < |c.slots| ==> SlotTargets(c.slots)[i] == Port(c.slots[i].toNode, c.slots[i].toPort)
  {
  }

  lemma EdgeProvides(edges: seq<DirectEdge>, p: Port)
    ensures p in EdgeTargets(edges) <==> exists e :: e in edges && e.toNode == p.node && e.toPort == p.name
  {
    if p in EdgeTargets(edges) {
      var i :| 0 <= i < |edges| && EdgeTargets(edges)[i] == p;
      assert edges[i] in edges;
    }
    if e :| e in edges && e.toNode == p.node && e.toPort == p.name { MapMember(EdgeTarget, edges, e); }
  }

  lemma BindingProvides(bindings: seq<AssetBinding>, p: Port)
    ensures p in BindingTargets(bindings) <==> exists b :: b in bindings && b.toNode == p.node && b.toPort == p.name
  {
    if p in BindingTargets(bindings) {
      var i :| 0 <= i < |bindings| && BindingTargets(bindings)[i] == p;
      assert bindings[i] in bindings;
    }
    if b :| b in bindings && b.toNode == p.node && b.toPort == p.name { MapMember(BindingTarget, bindings, b); }
  }

  lemma SlotProvides(slots: seq<InputSlot>, p: Port)
    ensures p in SlotTargets(slots) <==> exists s :: s in slots && s.toNode == p.node && s.toPort == p.name
  {
    if p in SlotTargets(slots) {
      var i :| 0 <= i < |slots| && SlotTargets(slots)[i] == p;
      assert slots[i] in slots;
    }
    if s :| s in slots && s.toNode == p.node && s.toPort == p.name { MapMember(SlotTarget, slots, s); }
  }

  lemma TargetsMean(c: Contract, node: string, port: string)
    ensures Port(node, port) in Targets(c) <==> Provided(c, node, port)
  {
    EdgeProvides(c.edges, Port(node, port));
    BindingProvides(c.bindings, Port(node, port));
    SlotProvides(c.slots, Port(node, port));
  }

  lemma AtMostOnce<T>(s: seq<T>)
    ensures NoDuplicates(s) <==> forall x :: multiset(s)[x] <= 1
  {
    if NoDuplicates(s) { NoDuplicatesMultiset(s); }
    if forall x :: multiset(s)[x] <= 1 { MultisetNoDuplicates(s); }
  }

  lemma ApartMeans(c: Contract)
    ensures OneProvider(c) <==>
              && NoDuplicates(EdgeTargets(c.edges)) && NoDuplicates(BindingTargets(c.bindings)) && NoDuplicates(SlotTargets(c.slots))
              && (forall p :: !(p in EdgeTargets(c.edges) && p in BindingTargets(c.bindings)))
              && (forall p :: !(p in EdgeTargets(c.edges) && p in SlotTargets(c.slots)))
              && (forall p :: !(p in BindingTargets(c.bindings) && p in SlotTargets(c.slots)))
  {
    TargetsInOrder(c);
    forall p: Port
      ensures p in EdgeTargets(c.edges) <==> exists e :: e in c.edges && e.toNode == p.node && e.toPort == p.name
      ensures p in BindingTargets(c.bindings) <==> exists b :: b in c.bindings && b.toNode == p.node && b.toPort == p.name
      ensures p in SlotTargets(c.slots) <==> exists s :: s in c.slots && s.toNode == p.node && s.toPort == p.name
    {
      EdgeProvides(c.edges, p);
      BindingProvides(c.bindings, p);
      SlotProvides(c.slots, p);
    }
  }

  lemma OneProviderMeans(c: Contract)
    ensures OneProvider(c) <==> forall p :: Targets(c)[p] <= 1
  {
    ApartMeans(c);
    AtMostOnce(EdgeTargets(c.edges));
    AtMostOnce(BindingTargets(c.bindings));
    AtMostOnce(SlotTargets(c.slots));
    var e, b, s := multiset(EdgeTargets(c.edges)), multiset(BindingTargets(c.bindings)), multiset(SlotTargets(c.slots));
    assert forall p :: Targets(c)[p] == e[p] + b[p] + s[p];
    assert forall p :: (p in EdgeTargets(c.edges) <==> e[p] > 0) && (p in BindingTargets(c.bindings) <==> b[p] > 0)
                       && (p in SlotTargets(c.slots) <==> s[p] > 0);
  }

  /** Everything that edges, bindings and slots feed is a SINGLE input. */
  ghost predicate AllFit(c: Contract, res: Resolvers, decls: Decls) {
    && (forall e :: e in c.edges ==> EdgeOK(decls, e))
    && (forall b :: b in c.bindings ==> BindingOK(decls, res, b))
    && (forall s :: s in c.slots ==> SlotOK(decls, s))
  }

  lemma ConflictMeans(c: Contract, res: Resolvers, decls: Decls)
    requires AllFit(c, res, decls)
    ensures NoConflict(decls, Targets(c)) <==> OneProvider(c)
  {
    OneProviderMeans(c);
    forall p | p in Targets(c) ensures SingleInput(decls, p) {
      EdgeProvides(c.edges, p);
      BindingProvides(c.bindings, p);
      SlotProvides(c.slots, p);
    }
  }

  lemma MissingMeans(c: Contract, res: Resolvers, decls: Decls)
    requires Pinned(c.nodes, res, decls)
    ensures NoneMissing(decls, Targets(c)) <==> RequiredFed(c, res)
  {
    forall node, port ensures Port(node, port) in Targets(c) <==> Provided(c, node, port) { TargetsMean(c, node, port); }
    forall node, port, input
      ensures Takes(c, res, node, port, input) <==> node in decls && port in decls[node].inputs && decls[node].inputs[port] == input
    {
      PortsPinned(c, res, decls, node, port);
    }
    if !NoneMissing(decls, Targets(c)) {
      var node, port :| node in decls && port in decls[node].inputs && decls[node].inputs[port].required
                        && Port(node, port) !in Targets(c);
      assert Takes(c, res, node, port, decls[node].inputs[port]);
    }
  }

  // ---- Cycles -------------------------------------------------------------------------

  lemma CircleMeans(c: Contract)
    ensures Acyclic(Dependencies(c.edges)) <==> forall walk :: !Circle(c, walk)
  {
    var deps := Dependencies(c.edges);
    assert forall a, b :: (a, b) in deps <==> Feeds(c, a, b);
    forall walk: seq<string> ensures Circle(c, walk) <==> |walk| >= 2 && WalkBetween(deps, walk, walk[0], walk[0]) {
    }
    if !Acyclic(deps) {
      var v :| OnCycle(deps, v);
      var walk :| |walk| >= 2 && WalkBetween(deps, walk, v, v);
      assert Circle(c, walk);
    }
    if walk :| Circle(c, walk) { assert OnCycle(deps, walk[0]); }
  }

  // ---- Validation decides the rules ---------------------------------------------------

  lemma FitMeans(c: Contract, res: Resolvers, decls: Decls)
    requires Pinned(c.nodes, res, decls)
    ensures AllFit(c, res, decls) <==> EverythingFits(c, res)
  {
    forall e ensures EdgeOK(decls, e) <==> EdgeRule(c, res, e) { EdgeMeans(c, res, decls, e); }
    forall b ensures BindingOK(decls, res, b) <==> BindingRule(c, res, b) { BindingMeans(c, res, decls, b); }
    forall s ensures SlotOK(decls, s) <==> SlotRule(c, res, s) { SlotMeans(c, res, decls, s); }
  }

  lemma NothingTwiceMeans(c: Contract)
    ensures NothingTwice(c) <==> NoDuplicates(c.edges) && NoDuplicates(c.bindings) && NoDuplicates(SlotIDs(c.slots))
  {
    assert forall i :: 0 <= i < |c.slots| ==> SlotIDs(c.slots)[i] == c.slots[i].slotID;
  }

  lemma LinksSplit(c: Contract, res: Resolvers, decls: Decls)
    ensures LinksOK(c, res, decls) <==>
              && NoDuplicates(c.edges) && NoDuplicates(c.bindings) && NoDuplicates(SlotIDs(c.slots))
              && AllFit(c, res, decls) && NoConflict(decls, Targets(c)) && NoneMissing(decls, Targets(c))
  {
  }

  lemma LinksMean(c: Contract, res: Resolvers, decls: Decls)
    requires Pinned(c.nodes, res, decls)
    ensures LinksOK(c, res, decls) <==> LinkRules(c, res)
  {
    LinksSplit(c, res, decls);
    NothingTwiceMeans(c);
    FitMeans(c, res, decls);
    MissingMeans(c, res, decls);
    if AllFit(c, res, decls) { ConflictMeans(c, res, decls); }
  }

  lemma LinkedMeans(c: Contract, res: Resolvers)
    requires NodesOK(c.nodes, res)
    ensures Linked(c, res) <==> LinkRules(c, res)
  {
    var decls := PinsExist(c.nodes, res);
    LinksMean(c, res, decls);
    if Linked(c, res) {
      var other :| Pinned(c.nodes, res, other) && LinksOK(c, res, other);
      PinnedUnique(c.nodes, res, decls, other);
    }
  }

  /** Validation accepts exactly the contracts that keep the published rules. */
  lemma AcceptableMeans(c: Contract, res: Resolvers)
    ensures Acceptable(c, res) <==> Rules(c, res)
  {
    NodesMean(c.nodes, res);
    CircleMeans(c);
    if NodesOK(c.nodes, res) { LinkedMeans(c, res); }
  }

  // ---- What each code says ------------------------------------------------------------

  ghost predicate EdgeReason(c: Contract, res: Resolvers, code: Code) {
    match code
    case EdgeInvalid =>
      exists e :: e in c.edges && ((forall out :: !Offers(c, res, e.fromNode, e.fromPort, out))
                                   || (forall input :: !Takes(c, res, e.toNode, e.toPort, input)))
    case CardinalityUnsupported =>
      exists e, out, input :: e in c.edges && Offers(c, res, e.fromNode, e.fromPort, out) && Takes(c, res, e.toNode, e.toPort, input)
                              && (out.cardinality != Single || input.cardinality != Single)
    case Q16Mismatch =>
      exists e, out, input :: e in c.edges && Offers(c, res, e.fromNode, e.fromPort, out) && Takes(c, res, e.toNode, e.toPort, input)
                              && (out.format != input.format || out.format in {"", "UNKNOWN", "UNSPECIFIED"})
    case _ => false
  }

  ghost predicate BindingReason(c: Contract, res: Resolvers, code: Code) {
    match code
    case EdgeInvalid => exists b :: b in c.bindings && forall input :: !Takes(c, res, b.toNode, b.toPort, input)
    case AssetUnresolved => exists b :: b in c.bindings && res.assets(b.assetID, b.assetRevision, b.memberKey) == None
    case CardinalityUnsupported =>
      exists b, m, input :: b in c.bindings && res.assets(b.assetID, b.assetRevision, b.memberKey) == Some(m)
                            && Takes(c, res, b.toNode, b.toPort, input) && (m.cardinality != Single || input.cardinality != Single)
    case Q16Mismatch =>
      exists b, m, input :: b in c.bindings && res.assets(b.assetID, b.assetRevision, b.memberKey) == Some(m)
                            && Takes(c, res, b.toNode, b.toPort, input)
                            && (m.format != input.format || m.format in {"", "UNKNOWN", "UNSPECIFIED"})
    case _ => false
  }

  ghost predicate SlotReason(c: Contract, res: Resolvers, code: Code) {
    match code
    case SlotInvalid => exists s :: s in c.slots && s.slotID == ""
    case EdgeInvalid => exists s :: s in c.slots && forall input :: !Takes(c, res, s.toNode, s.toPort, input)
    case CardinalityUnsupported =>
      exists s, input :: s in c.slots && Takes(c, res, s.toNode, s.toPort, input) && input.cardinality != Single
    case _ => false
  }

  ghost predicate NodeReason(c: Contract, res: Resolvers, code: Code) {
    match code
    case InvalidContract => exists n :: n in c.nodes && n.nodeID == ""
    case UnsupportedCapability => exists n :: n in c.nodes && n.toolProfile != None
    case ToolFunctionUnresolved => exists n :: n in c.nodes && (n.casHash == "" || res.tools(n.casHash) == None)
    case ParameterInvalid =>
      exists n, p :: n in c.nodes && p in n.params && res.tools(n.casHash).Some?
                     && var allowed := res.tools(n.casHash).value.parameters;
                     p.name !in allowed || (allowed[p.name] != [] && p.value !in allowed[p.name])
    case _ => false
  }

  /** Something is given twice that may be given once. */
  ghost predicate RepeatReason(c: Contract, code: Code) {
    match code
    case Duplicate =>
      || (exists i, j :: 0 <= i < j < |c.nodes| && c.nodes[i].nodeID == c.nodes[j].nodeID)
      || (exists n, i, j :: n in c.nodes && 0 <= i < j < |n.params| && n.params[i].name == n.params[j].name)
      || (exists i, j :: 0 <= i < j < |c.edges| && c.edges[i] == c.edges[j])
      || (exists i, j :: 0 <= i < j < |c.bindings| && c.bindings[i] == c.bindings[j])
    case SlotInvalid => exists i, j :: 0 <= i < j < |c.slots| && c.slots[i].slotID == c.slots[j].slotID
    case ProviderConflict => !OneProvider(c)
    case _ => false
  }

  ghost predicate LinkReason(c: Contract, res: Resolvers, code: Code) {
    || EdgeReason(c, res, code) || BindingReason(c, res, code) || SlotReason(c, res, code) || RepeatReason(c, code)
    || (code == ProviderMissing && !RequiredFed(c, res))
  }

  /** What the contract and the resolvers show when validation refuses with this code. */
  ghost predicate Reason(c: Contract, res: Resolvers, code: Code) {
    || NodeReason(c, res, code) || LinkReason(c, res, code)
    || (code == UnsupportedVersion && (c.semVersion != "pipelinestore.pipeline-contract.v1"
                                       || c.canonVersion != "pipelinestore.pipeline-contract.v1"))
    || (code == GraphCycle && exists walk :: Circle(c, walk))
  }

  lemma NodeFaultMeans(c: Contract, res: Resolvers, n: Node, code: Code)
    requires n in c.nodes && NodeFault(n, res) == Some(code)
    ensures NodeReason(c, res, code)
  {
  }

  lemma ParamReportMeans(c: Contract, res: Resolvers, n: Node, p: FixedParameter)
    requires n in c.nodes && res.tools(n.casHash).Some? && p in n.params && !ParamOK(res.tools(n.casHash).value, p)
    ensures NodeReason(c, res, ParameterInvalid)
  {
  }

  lemma NamesRepeat(c: Contract)
    requires !NoDuplicates(NodeIDs(c.nodes)) || exists n :: n in c.nodes && !NoDuplicates(ParamNames(n.params))
    ensures RepeatReason(c, Duplicate)
  {
    if !NoDuplicates(NodeIDs(c.nodes)) {
      var i, j :| 0 <= i < j < |c.nodes| && NodeIDs(c.nodes)[i] == NodeIDs(c.nodes)[j];
      assert c.nodes[i].nodeID == c.nodes[j].nodeID;
    } else {
      var n :| n in c.nodes && !NoDuplicates(ParamNames(n.params));
      var i, j :| 0 <= i < j < |n.params| && ParamNames(n.params)[i] == ParamNames(n.params)[j];
      assert n.params[i].name == n.params[j].name;
    }
  }

  lemma NodesReportMeans(c: Contract, res: Resolvers, code: Code)
    requires NodesReport(c.nodes, res, code)
    ensures NodeReason(c, res, code) || RepeatReason(c, code)
  {
    if n :| n in c.nodes && NodeFault(n, res) == Some(code) {
      NodeFaultMeans(c, res, n, code);
    } else if code == ParameterInvalid {
      var n, p :| n in c.nodes && res.tools(n.casHash).Some? && p in n.params && !ParamOK(res.tools(n.casHash).value, p);
      ParamReportMeans(c, res, n, p);
    } else {
      NamesRepeat(c);
    }
  }

  lemma EdgeFaultMeans(c: Contract, res: Resolvers, decls: Decls, e: DirectEdge, code: Code)
    requires Pinned(c.nodes, res, decls) && e in c.edges && EdgeFault(decls, e) == Some(code)
    ensures EdgeReason(c, res, code)
  {
    PortsPinned(c, res, decls, e.fromNode, e.fromPort);
    PortsPinned(c, res, decls, e.toNode, e.toPort);
    if code != EdgeInvalid {
      assert Offers(c, res, e.fromNode, e.fromPort, decls[e.fromNode].outputs[e.fromPort]);
      assert Takes(c, res, e.toNode, e.toPort, decls[e.toNode].inputs[e.toPort]);
    }
  }

  lemma BindingFaultMeans(c: Contract, res: Resolvers, decls: Decls, b: AssetBinding, code: Code)
    requires Pinned(c.nodes, res, decls) && b in c.bindings && BindingFault(decls, res, b) == Some(code)
    ensures BindingReason(c, res, code)
  {
    PortsPinned(c, res, decls, b.toNode, b.toPort);
    if code != EdgeInvalid { assert Takes(c, res, b.toNode, b.toPort, decls[b.toNode].inputs[b.toPort]); }
  }

  lemma SlotFaultMeans(c: Contract, res: Resolvers, decls: Decls, s: InputSlot, code: Code)
    requires Pinned(c.nodes, res, decls) && s in c.slots && SlotFault(decls, s) == Some(code)
    ensures SlotReason(c, res, code)
  {
    PortsPinned(c, res, decls, s.toNode, s.toPort);
    if code == CardinalityUnsupported { assert Takes(c, res, s.toNode, s.toPort, decls[s.toNode].inputs[s.toPort]); }
  }

  lemma LinksRepeat(c: Contract, decls: Decls, code: Code)
    requires || (code == Duplicate && (!NoDuplicates(c.edges) || !NoDuplicates(c.bindings)))
             || (code == SlotInvalid && !NoDuplicates(SlotIDs(c.slots)))
             || (code == ProviderConflict && !NoConflict(decls, Targets(c)))
    ensures RepeatReason(c, code)
  {
    if code == SlotInvalid {
      var i, j :| 0 <= i < j < |c.slots| && SlotIDs(c.slots)[i] == SlotIDs(c.slots)[j];
      assert c.slots[i].slotID == c.slots[j].slotID;
    } else if code == ProviderConflict {
      OneProviderMeans(c);
    }
  }

  lemma LinksReportMeans(c: Contract, res: Resolvers, decls: Decls, code: Code)
    requires Pinned(c.nodes, res, decls) && LinksReport(c, res, decls, code)
    ensures LinkReason(c, res, code)
  {
    if e :| e in c.edges && EdgeFault(decls, e) == Some(code) {
      EdgeFaultMeans(c, res, decls, e, code);
    } else if b :| b in c.bindings && BindingFault(decls, res, b) == Some(code) {
      BindingFaultMeans(c, res, decls, b, code);
    } else if s :| s in c.slots && SlotFault(decls, s) == Some(code) {
      SlotFaultMeans(c, res, decls, s, code);
    } else if code == ProviderMissing {
      MissingMeans(c, res, decls);
    } else {
      LinksRepeat(c, decls, code);
    }
  }

  /** A refusal is for the reason its code stands for. */
  lemma ReportsMean(c: Contract, res: Resolvers, code: Code)
    requires Reports(c, res, code)
    ensures Reason(c, res, code)
  {
    if NodesReport(c.nodes, res, code) {
      NodesReportMeans(c, res, code);
    } else if decls :| Pinned(c.nodes, res, decls) && LinksReport(c, res, decls, code) {
      LinksReportMeans(c, res, decls, code);
    } else if code == GraphCycle {
      CircleMeans(c);
    }
  }
}
