/** Commit validation of a contract: an order-free statement of what is acceptable, and the
    checking loops proved to decide it. */
module Validation {
  import opened Prelude
  import opened Ordering
  import opened Contracts
  import opened Cycles

  datatype Port = Port(node: string, name: string)

  type Decls = map<string, ToolFunctionDecl>

  // ---- What is acceptable -------------------------------------------------------------

  /** A restricted parameter takes only its exact allowed values. */
  predicate ParamOK(decl: ToolFunctionDecl, p: FixedParameter) {
    p.name in decl.parameters && (decl.parameters[p.name] == [] || p.value in decl.parameters[p.name])
  }

  ghost predicate NodeOK(n: Node, res: Resolvers) {
    && n.nodeID != "" && n.toolProfile.None? && n.casHash != ""
    && res.tools(n.casHash).Some?
    && NoDuplicates(ParamNames(n.params))
    && (forall p :: p in n.params ==> ParamOK(res.tools(n.casHash).value, p))
  }

  ghost predicate NodesOK(nodes: seq<Node>, res: Resolvers) {
    NoDuplicates(NodeIDs(nodes)) && forall n :: n in nodes ==> NodeOK(n, res)
  }

  /** The declaration each node is pinned to. */
  ghost predicate Pinned(nodes: seq<Node>, res: Resolvers, decls: Decls) {
    && (forall n :: n in nodes ==> n.nodeID in decls && res.tools(n.casHash) == Some(decls[n.nodeID]))
    && (forall id :: id in decls ==> exists n :: n in nodes && n.nodeID == id)
  }

  predicate EdgeOK(decls: Decls, e: DirectEdge) {
    && e.fromNode in decls && e.toNode in decls
    && e.fromPort in decls[e.fromNode].outputs && e.toPort in decls[e.toNode].inputs
    && var out := decls[e.fromNode].outputs[e.fromPort];
    && var input := decls[e.toNode].inputs[e.toPort];
    && out.cardinality == Single && input.cardinality == Single && Q16(out.format, input.format)
  }

  predicate BindingOK(decls: Decls, res: Resolvers, b: AssetBinding) {
    && b.toNode in decls && b.toPort in decls[b.toNode].inputs
    && var input := decls[b.toNode].inputs[b.toPort];
    && var member := res.assets(b.assetID, b.assetRevision, b.memberKey);
    && member.Some? && member.value.cardinality == Single && input.cardinality == Single
    && Q16(member.value.format, input.format)
  }

  predicate SlotOK(decls: Decls, s: InputSlot) {
    s.slotID != "" && s.toNode in decls && s.toPort in decls[s.toNode].inputs
    && decls[s.toNode].inputs[s.toPort].cardinality == Single
  }

  function EdgeTarget(e: DirectEdge): Port { Port(e.toNode, e.toPort) }

  function BindingTarget(b: AssetBinding): Port { Port(b.toNode, b.toPort) }

  function SlotTarget(s: InputSlot): Port { Port(s.toNode, s.toPort) }

  function EdgeTargets(edges: seq<DirectEdge>): seq<Port> { Map(EdgeTarget, edges) }

  function BindingTargets(bindings: seq<AssetBinding>): seq<Port> { Map(BindingTarget, bindings) }

  function SlotTargets(slots: seq<InputSlot>): seq<Port> { Map(SlotTarget, slots) }

  /** The input port each provider of the contract feeds, with repetitions. */
  function Targets(c: Contract): multiset<Port> {
    multiset(EdgeTargets(c.edges)) + multiset(BindingTargets(c.bindings)) + multiset(SlotTargets(c.slots))
  }

  predicate SingleInput(decls: Decls, p: Port) {
    p.node in decls && p.name in decls[p.node].inputs && decls[p.node].inputs[p.name].cardinality == Single
  }

  ghost predicate NoConflict(decls: Decls, targets: multiset<Port>) {
    forall p :: p in targets && SingleInput(decls, p) ==> targets[p] == 1
  }

  ghost predicate NoneMissing(decls: Decls, targets: multiset<Port>) {
    forall id, name :: id in decls && name in decls[id].inputs && decls[id].inputs[name].required ==>
      Port(id, name) in targets
  }

  ghost function Dependencies(edges: seq<DirectEdge>): Edges {
    set e | e in edges :: (e.fromNode, e.toNode)
  }

  predicate VersionsOK(c: Contract) {
    c.canonVersion == ContractVersionV1 && c.semVersion == ContractVersionV1
  }

  ghost predicate LinksOK(c: Contract, res: Resolvers, decls: Decls) {
    && NoDuplicates(c.edges) && (forall e :: e in c.edges ==> EdgeOK(decls, e))
    && NoDuplicates(c.bindings) && (forall b :: b in c.bindings ==> BindingOK(decls, res, b))
    && NoDuplicates(SlotIDs(c.slots)) && (forall s :: s in c.slots ==> SlotOK(decls, s))
    && NoConflict(decls, Targets(c))
    && NoneMissing(decls, Targets(c))
  }

  /** Every edge, binding and slot fits the declarations the nodes are pinned to. */
  ghost predicate Linked(c: Contract, res: Resolvers) {
    exists decls :: Pinned(c.nodes, res, decls) && LinksOK(c, res, decls)
  }

  ghost predicate Acceptable(c: Contract, res: Resolvers) {
    && VersionsOK(c)
    && NodesOK(c.nodes, res)
    && Linked(c, res)
    && Acyclic(Dependencies(c.edges))
  }

  lemma PinnedUnique(nodes: seq<Node>, res: Resolvers, a: Decls, b: Decls)
    requires Pinned(nodes, res, a) && Pinned(nodes, res, b)
    ensures a == b
  {
    forall id ensures id in a <==> id in b {
      if id in a { var n :| n in nodes && n.nodeID == id; }
      if id in b { var n :| n in nodes && n.nodeID == id; }
    }
    forall id | id in a ensures a[id] == b[id] {
      var n :| n in nodes && n.nodeID == id;
      assert res.tools(n.casHash) == Some(a[id]) == Some(b[id]);
    }
  }

  // ---- What each error code reports ---------------------------------------------------

  /** The first check an element fails, in the order the program makes them. */
  function NodeFault(n: Node, res: Resolvers): (r: Option<Code>)
    ensures r == Some(InvalidContract) <==> n.nodeID == ""
    ensures r == Some(ToolFunctionUnresolved) ==> n.casHash == "" || res.tools(n.casHash).None?
    ensures r == Some(UnsupportedCapability) ==> n.toolProfile.Some?
    ensures r.Some? ==> r.value == InvalidContract || r.value == UnsupportedCapability || r.value == ToolFunctionUnresolved
  {
    if n.nodeID == "" then Some(InvalidContract)
    else if n.toolProfile.Some? then Some(UnsupportedCapability)
    else if n.casHash == "" || res.tools(n.casHash).None? then Some(ToolFunctionUnresolved)
    else None
  }

  /** Both ends exist as declared ports. */
  predicate EdgePlaced(decls: Decls, e: DirectEdge) {
    && e.fromNode in decls && e.toNode in decls
    && e.fromPort in decls[e.fromNode].outputs && e.toPort in decls[e.toNode].inputs
  }

  function EdgeFault(decls: Decls, e: DirectEdge): (r: Option<Code>)
    ensures r.None? <==> EdgeOK(decls, e)
    ensures r == Some(EdgeInvalid) <==> !EdgePlaced(decls, e)
    ensures r == Some(Q16Mismatch) ==> !Q16(decls[e.fromNode].outputs[e.fromPort].format, decls[e.toNode].inputs[e.toPort].format)
    ensures r.Some? ==> r.value == EdgeInvalid || r.value == CardinalityUnsupported || r.value == Q16Mismatch
  {
    if e.fromNode !in decls || e.toNode !in decls then Some(EdgeInvalid)
    else if e.fromPort !in decls[e.fromNode].outputs || e.toPort !in decls[e.toNode].inputs then Some(EdgeInvalid)
    else
      var out := decls[e.fromNode].outputs[e.fromPort];
      var input := decls[e.toNode].inputs[e.toPort];
      if out.cardinality != Single || input.cardinality != Single then Some(CardinalityUnsupported)
      else if !Q16(out.format, input.format) then Some(Q16Mismatch)
      else None
  }

  function BindingFault(decls: Decls, res: Resolvers, b: AssetBinding): (r: Option<Code>)
    ensures r.None? <==> BindingOK(decls, res, b)
    ensures r == Some(EdgeInvalid) <==> !(b.toNode in decls && b.toPort in decls[b.toNode].inputs)
    ensures r == Some(AssetUnresolved) ==> res.assets(b.assetID, b.assetRevision, b.memberKey).None?
    ensures r == Some(Q16Mismatch) ==>
              var member := res.assets(b.assetID, b.assetRevision, b.memberKey);
              member.Some? && !Q16(member.value.format, decls[b.toNode].inputs[b.toPort].format)
    ensures r.Some? ==> r.value == EdgeInvalid || r.value == AssetUnresolved || r.value == CardinalityUnsupported || r.value == Q16Mismatch
  {
    if b.toNode !in decls || b.toPort !in decls[b.toNode].inputs then Some(EdgeInvalid)
    else
      var input := decls[b.toNode].inputs[b.toPort];
      var member := res.assets(b.assetID, b.assetRevision, b.memberKey);
      if member.None? then Some(AssetUnresolved)
      else if member.value.cardinality != Single || input.cardinality != Single then Some(CardinalityUnsupported)
      else if !Q16(member.value.format, input.format) then Some(Q16Mismatch)
      else None
  }

  function SlotFault(decls: Decls, s: InputSlot): (r: Option<Code>)
    ensures r.None? <==> SlotOK(decls, s)
    ensures r == Some(SlotInvalid) <==> s.slotID == ""
    ensures r == Some(EdgeInvalid) ==> !(s.toNode in decls && s.toPort in decls[s.toNode].inputs)
    ensures r.Some? ==> r.value == SlotInvalid || r.value == EdgeInvalid || r.value == CardinalityUnsupported
  {
    if s.slotID == "" then Some(SlotInvalid)
    else if s.toNode !in decls || s.toPort !in decls[s.toNode].inputs then Some(EdgeInvalid)
    else if decls[s.toNode].inputs[s.toPort].cardinality != Single then Some(CardinalityUnsupported)
    else None
  }

  ghost predicate NodesReport(nodes: seq<Node>, res: Resolvers, code: Code) {
    || (exists n :: n in nodes && NodeFault(n, res) == Some(code))
    || (code == Duplicate && (!NoDuplicates(NodeIDs(nodes)) || exists n :: n in nodes && !NoDuplicates(ParamNames(n.params))))
    || (code == ParameterInvalid && exists n, p :: n in nodes && res.tools(n.casHash).Some? && p in n.params
                                                   && !ParamOK(res.tools(n.casHash).value, p))
  }

  ghost predicate LinksReport(c: Contract, res: Resolvers, decls: Decls, code: Code) {
    || (exists e :: e in c.edges && EdgeFault(decls, e) == Some(code))
    || (exists b :: b in c.bindings && BindingFault(decls, res, b) == Some(code))
    || (exists s :: s in c.slots && SlotFault(decls, s) == Some(code))
    || (code == Duplicate && (!NoDuplicates(c.edges) || !NoDuplicates(c.bindings)))
    || (code == SlotInvalid && !NoDuplicates(SlotIDs(c.slots)))
    || (code == ProviderConflict && !NoConflict(decls, Targets(c)))
    || (code == ProviderMissing && !NoneMissing(decls, Targets(c)))
  }

  /** The violation that stands behind an error code. */
  ghost predicate Reports(c: Contract, res: Resolvers, code: Code) {
    || (code == UnsupportedVersion && !VersionsOK(c))
    || NodesReport(c.nodes, res, code)
    || (exists decls :: Pinned(c.nodes, res, decls) && LinksReport(c, res, decls, code))
    || (code == GraphCycle && !Acyclic(Dependencies(c.edges)))
  }

  // ---- The checking loops -------------------------------------------------------------

  method CheckParams(params: seq<FixedParameter>, decl: ToolFunctionDecl) returns (r: Option<Code>)
    ensures r.None? <==> NoDuplicates(ParamNames(params)) && forall p :: p in params ==> ParamOK(decl, p)
    ensures r.Some? ==> || (r.value == Duplicate && !NoDuplicates(ParamNames(params)))
                        || (r.value == ParameterInvalid && exists p :: p in params && !ParamOK(decl, p))
  {
    var names := ParamNames(params);
    var seen: set<string> := {};
    for i := 0 to |params|
      invariant forall x :: x in seen <==> x in names[..i]
      invariant NoDuplicates(names[..i])
      invariant forall p :: p in params[..i] ==> ParamOK(decl, p)
    {
      var p := params[i];
      TakeNext(params, i);
      TakeNext(names, i);
      NextIsNew(names, i);
      if p.name in seen { return Some(Duplicate); }
      seen := seen + {p.name};
      if !ParamOK(decl, p) { return Some(ParameterInvalid); }
    }
    TakeAll(params);
    TakeAll(names);
    r := None;
  }

  /** One node against its pin; the map entry is made before its parameters are read. */
  method CheckNode(n: Node, res: Resolvers) returns (r: Result<ToolFunctionDecl>)
    ensures r.Ok? <==> NodeOK(n, res)
    ensures r.Ok? ==> res.tools(n.casHash) == Some(r.value)
    ensures r.Err? ==> NodesReport([n], res, r.code)
  {
    assert n in [n];
    var fault := NodeFault(n, res);
    if fault.Some? { return Err(fault.value); }
    var decl := res.tools(n.casHash).value;
    var bad := CheckParams(n.params, decl);
    if bad.Some? { return Err(bad.value); }
    r := Ok(decl);
  }

  lemma ReportLifts(nodes: seq<Node>, n: Node, res: Resolvers, code: Code)
    requires n in nodes && NodesReport([n], res, code)
    ensures NodesReport(nodes, res, code)
  {
    assert NoDuplicates(NodeIDs([n]));
  }

  lemma PinnedNext(nodes: seq<Node>, i: nat, res: Resolvers, decls: Decls, decl: ToolFunctionDecl)
    requires i < |nodes| && Pinned(nodes[..i], res, decls) && nodes[i].nodeID !in decls
    requires res.tools(nodes[i].casHash) == Some(decl)
    ensures Pinned(nodes[..i+1], res, decls[nodes[i].nodeID := decl])
  {
    TakeNext(nodes, i);
    var grown := decls[nodes[i].nodeID := decl];
    forall id | id in grown ensures exists n :: n in nodes[..i+1] && n.nodeID == id {
      if id == nodes[i].nodeID { assert nodes[i] in nodes[..i+1]; }
      else { var n :| n in nodes[..i] && n.nodeID == id; assert n in nodes[..i+1]; }
    }
  }

  /** A node id is in the map exactly if it has been seen. */
  lemma PinnedKeys(nodes: seq<Node>, i: nat, res: Resolvers, decls: Decls, id: string)
    requires i <= |nodes| && Pinned(nodes[..i], res, decls)
    ensures id in decls <==> id in NodeIDs(nodes)[..i]
  {
    if id in decls {
      var n :| n in nodes[..i] && n.nodeID == id;
      var j :| 0 <= j < i && nodes[..i][j] == n;
      assert NodeIDs(nodes)[..i][j] == id;
    }
    if id in NodeIDs(nodes)[..i] {
      var j :| 0 <= j < i && NodeIDs(nodes)[..i][j] == id;
      assert nodes[..i][j] == nodes[j];
      assert nodes[j] in nodes[..i];
    }
  }

  method CheckNodes(nodes: seq<Node>, res: Resolvers) returns (r: Result<Decls>)
    ensures r.Ok? <==> NodesOK(nodes, res)
    ensures r.Ok? ==> Pinned(nodes, res, r.value)
    ensures r.Err? ==> NodesReport(nodes, res, r.code)
  {
    var decls: Decls := map[];
    ghost var ids := NodeIDs(nodes);
    for i := 0 to |nodes|
      invariant forall n :: n in nodes[..i] ==> NodeOK(n, res)
      invariant Pinned(nodes[..i], res, decls)
      invariant NoDuplicates(ids[..i])
    {
      var n := nodes[i];
      assert n in nodes && ids[i] == n.nodeID;
      TakeNext(nodes, i);
      NextIsNew(ids, i);
      PinnedKeys(nodes, i, res, decls, n.nodeID);
      if n.nodeID == "" { return Err(InvalidContract); }
      if n.nodeID in decls { return Err(Duplicate); }
      var pin := CheckNode(n, res);
      if pin.Err? {
        ReportLifts(nodes, n, res, pin.code);
        return Err(pin.code);
      }
      PinnedNext(nodes, i, res, decls, pin.value);
      decls := decls[n.nodeID := pin.value];
    }
    TakeAll(nodes);
    TakeAll(ids);
    r := Ok(decls);
  }

  /** Provider counts as the program keeps them: a port not in the map counts zero. */
  type Counts = map<Port, nat>

  ghost predicate CountsOf(providers: Counts, targets: multiset<Port>) {
    (forall p :: p in providers <==> p in targets) && forall p :: p in providers ==> providers[p] == targets[p]
  }

  /** Counts the i-th port of a list on top of what was counted before the list. */
  method CountNext(providers: Counts, ports: seq<Port>, i: nat, ghost before: multiset<Port>) returns (counted: Counts)
    requires i < |ports| && CountsOf(providers, before + multiset(ports[..i]))
    ensures CountsOf(counted, before + multiset(ports[..i+1]))
  {
    TakeNext(ports, i);
    var p := ports[i];
    counted := providers[p := 1 + if p in providers then providers[p] else 0];
    assert before + multiset(ports[..i+1]) == before + multiset(ports[..i]) + multiset{p};
  }

  method CheckEdges(edges: seq<DirectEdge>, decls: Decls) returns (r: Result<Counts>)
    ensures r.Ok? <==> NoDuplicates(edges) && forall e :: e in edges ==> EdgeOK(decls, e)
    ensures r.Ok? ==> CountsOf(r.value, multiset(EdgeTargets(edges)))
    ensures r.Err? ==> || (r.code == Duplicate && !NoDuplicates(edges))
                       || (exists e :: e in edges && EdgeFault(decls, e) == Some(r.code))
  {
    var providers: Counts := map[];
    var seen: set<DirectEdge> := {};
    for i := 0 to |edges|
      invariant forall e :: e in seen <==> e in edges[..i]
      invariant NoDuplicates(edges[..i])
      invariant forall e :: e in edges[..i] ==> EdgeOK(decls, e)
      invariant CountsOf(providers, multiset{} + multiset(EdgeTargets(edges)[..i]))
    {
      var e := edges[i];
      TakeNext(edges, i);
      NextIsNew(edges, i);
      if e in seen { return Err(Duplicate); }
      seen := seen + {e};
      var fault := EdgeFault(decls, e);
      if fault.Some? { return Err(fault.value); }
      providers := CountNext(providers, EdgeTargets(edges), i, multiset{});
    }
    TakeAll(edges);
    TakeAll(EdgeTargets(edges));
    assert multiset{} + multiset(EdgeTargets(edges)) == multiset(EdgeTargets(edges));
    r := Ok(providers);
  }

  method CheckBindings(bindings: seq<AssetBinding>, decls: Decls, res: Resolvers, before: Counts, ghost targets: multiset<Port>)
    returns (r: Result<Counts>)
    requires CountsOf(before, targets)
    ensures r.Ok? <==> NoDuplicates(bindings) && forall b :: b in bindings ==> BindingOK(decls, res, b)
    ensures r.Ok? ==> CountsOf(r.value, targets + multiset(BindingTargets(bindings)))
    ensures r.Err? ==> || (r.code == Duplicate && !NoDuplicates(bindings))
                       || (exists b :: b in bindings && BindingFault(decls, res, b) == Some(r.code))
  {
    var providers := before;
    var seen: set<AssetBinding> := {};
    for i := 0 to |bindings|
      invariant forall b :: b in seen <==> b in bindings[..i]
      invariant NoDuplicates(bindings[..i])
      invariant forall b :: b in bindings[..i] ==> BindingOK(decls, res, b)
      invariant CountsOf(providers, targets + multiset(BindingTargets(bindings)[..i]))
    {
      var b := bindings[i];
      TakeNext(bindings, i);
      NextIsNew(bindings, i);
      if b in seen { return Err(Duplicate); }
      seen := seen + {b};
      var fault := BindingFault(decls, res, b);
      if fault.Some? { return Err(fault.value); }
      providers := CountNext(providers, BindingTargets(bindings), i, targets);
    }
    TakeAll(bindings);
    TakeAll(BindingTargets(bindings));
    r := Ok(providers);
  }

  method CheckSlots(slots: seq<InputSlot>, decls: Decls, before: Counts, ghost targets: multiset<Port>)
    returns (r: Result<Counts>)
    requires CountsOf(before, targets)
    ensures r.Ok? <==> NoDuplicates(SlotIDs(slots)) && forall s :: s in slots ==> SlotOK(decls, s)
    ensures r.Ok? ==> CountsOf(r.value, targets + multiset(SlotTargets(slots)))
    ensures r.Err? ==> || (r.code == SlotInvalid && !NoDuplicates(SlotIDs(slots)))
                       || (exists s :: s in slots && SlotFault(decls, s) == Some(r.code))
  {
    var providers := before;
    ghost var ids := SlotIDs(slots);
    var seen: set<string> := {};
    for i := 0 to |slots|
      invariant forall id :: id in seen <==> id in ids[..i]
      invariant NoDuplicates(ids[..i])
      invariant forall s :: s in slots[..i] ==> SlotOK(decls, s)
      invariant CountsOf(providers, targets + multiset(SlotTargets(slots)[..i]))
    {
      var s := slots[i];
      assert s in slots && ids[i] == s.slotID;
      TakeNext(slots, i);
      TakeNext(ids, i);
      NextIsNew(ids, i);
      if s.slotID == "" || s.slotID in seen { return Err(SlotInvalid); }
      seen := seen + {s.slotID};
      var fault := SlotFault(decls, s);
      if fault.Some? { return Err(fault.value); }
      providers := CountNext(providers, SlotTargets(slots), i, targets);
    }
    TakeAll(slots);
    TakeAll(ids);
    TakeAll(SlotTargets(slots));
    r := Ok(providers);
  }

  /** Both provider rules, each by one pass over its map in any order. */
  method CheckProviders(decls: Decls, providers: Counts, ghost targets: multiset<Port>) returns (r: Option<Code>)
    requires CountsOf(providers, targets)
    ensures r.None? <==> NoConflict(decls, targets) && NoneMissing(decls, targets)
    ensures r.Some? ==> || (r.value == ProviderConflict && !NoConflict(decls, targets))
                        || (r.value == ProviderMissing && !NoneMissing(decls, targets))
  {
    var refs := providers.Keys;
    while refs != {}
      invariant refs <= providers.Keys
      invariant forall p :: p in providers.Keys - refs && SingleInput(decls, p) ==> targets[p] == 1
      decreases refs
    {
      var p :| p in refs;
      if SingleInput(decls, p) && providers[p] > 1 { return Some(ProviderConflict); }
      assert targets[p] >= 1;
      refs := refs - {p};
    }
    assert NoConflict(decls, targets);
    var ids := decls.Keys;
    while ids != {}
      invariant ids <= decls.Keys
      invariant forall id, name :: id in decls.Keys - ids && name in decls[id].inputs && decls[id].inputs[name].required
                  ==> Port(id, name) in targets
      decreases ids
    {
      var id :| id in ids;
      var names := decls[id].inputs.Keys;
      while names != {}
        invariant names <= decls[id].inputs.Keys
        invariant forall name :: name in decls[id].inputs.Keys - names && decls[id].inputs[name].required
                    ==> Port(id, name) in targets
        decreases names
      {
        var name :| name in names;
        if decls[id].inputs[name].required && Port(id, name) !in providers { return Some(ProviderMissing); }
        names := names - {name};
      }
      ids := ids - {id};
    }
    r := None;
  }

  method DetectCycle(nodes: seq<string>, edges: seq<DirectEdge>) returns (r: Option<string>)
    requires forall e :: e in edges ==> e.fromNode in nodes
    ensures r.None? <==> Acyclic(Dependencies(edges))
    ensures r.Some? ==> OnCycle(Dependencies(edges), r.value)
  {
    var pairs := seq(|edges|, i requires 0 <= i < |edges| => (edges[i].fromNode, edges[i].toNode));
    var adj := BuildAdjacency(pairs);
    assert EdgesOf(adj) == Dependencies(edges) by {
      forall x ensures x in pairs <==> x in Dependencies(edges) {
        if x in pairs { var i :| 0 <= i < |pairs| && pairs[i] == x; assert edges[i] in edges; }
        if x in Dependencies(edges) {
          var e :| e in edges && (e.fromNode, e.toNode) == x;
          var i :| 0 <= i < |edges| && edges[i] == e;
          assert pairs[i] == x;
        }
      }
    }
    r := FindCycle(nodes, adj);
    ListedReachesAll(Dependencies(edges), nodes);
  }

  /** Commit validation: accepts exactly the acceptable contracts, and a refusal's code
      names a violation that is there. */
  method Validate(c: Contract, res: Resolvers) returns (r: Option<Code>)
    ensures r.None? <==> Acceptable(c, res)
    ensures r.Some? ==> Reports(c, res, r.value)
  {
    if c.canonVersion != ContractVersionV1 { return Some(UnsupportedVersion); }
    if c.semVersion != ContractVersionV1 { return Some(UnsupportedVersion); }
    var nodes := CheckNodes(c.nodes, res);
    if nodes.Err? { return Some(nodes.code); }
    var decls := nodes.value;
    var links := CheckLinks(c, res, decls);
    if links.Some? {
      forall other | Pinned(c.nodes, res, other) ensures !LinksOK(c, res, other) { PinnedUnique(c.nodes, res, decls, other); }
      return links;
    }
    EndpointsListed(c, res, decls);
    var cycle := DetectCycle(NodeIDs(c.nodes), c.edges);
    if cycle.Some? { return Some(GraphCycle); }
    r := None;
  }

  lemma EndpointsListed(c: Contract, res: Resolvers, decls: Decls)
    requires Pinned(c.nodes, res, decls) && forall e :: e in c.edges ==> EdgeOK(decls, e)
    ensures forall e :: e in c.edges ==> e.fromNode in NodeIDs(c.nodes)
  {
    forall e | e in c.edges ensures e.fromNode in NodeIDs(c.nodes) {
      var n :| n in c.nodes && n.nodeID == e.fromNode;
      var i :| 0 <= i < |c.nodes| && c.nodes[i] == n;
      assert NodeIDs(c.nodes)[i] == e.fromNode;
    }
  }

  method CheckLinks(c: Contract, res: Resolvers, decls: Decls) returns (r: Option<Code>)
    ensures r.None? <==> LinksOK(c, res, decls)
    ensures r.Some? ==> LinksReport(c, res, decls, r.value)
  {
    var edges := CheckEdges(c.edges, decls);
    if edges.Err? { return Some(edges.code); }
    ghost var t1 := multiset(EdgeTargets(c.edges));
    var bindings := CheckBindings(c.bindings, decls, res, edges.value, t1);
    if bindings.Err? { return Some(bindings.code); }
    ghost var t2 := t1 + multiset(BindingTargets(c.bindings));
    var slots := CheckSlots(c.slots, decls, bindings.value, t2);
    if slots.Err? { return Some(slots.code); }
    r := CheckProviders(decls, slots.value, Targets(c));
  }
}
