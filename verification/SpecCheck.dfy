/** The executable run specification and its independent checker. */
module SpecCheck {
  import opened Prelude
  import opened Ordering
  import opened Cycles

  datatype ArtifactBinding = ArtifactBinding(bindingName: string, childInput: string, producer: string, output: string,
                                             required: bool)

  datatype SpecNode = SpecNode(nodeID: string, image: string, command: seq<string>, args: seq<string>,
                               inputs: seq<string>, outputs: seq<string>, bindings: seq<ArtifactBinding>)

  /** A frozen timestamp: zero, outside what the wire format can carry, or an instant. */
  datatype Timestamp = ZeroTime | Unencodable | Instant(t: int)

  datatype RunSpec = RunSpec(runID: string, submittedAt: Timestamp, failureMode: string, requesterID: string,
                             traceID: string, nodes: seq<SpecNode>, edges: seq<seq<string>>, maxAttempts: int,
                             metadata: map<string, string>)

  const FailFast := "fail-fast"
  const MaxAttemptsV1 := 1
  const KeyPipelineID := "pipelinestore.pipelineId"
  const KeyRevisionID := "pipelinestore.pipelineRevisionId"
  const KeyContractDigest := "pipelinestore.pipelineContractDigest"

  // ---- Pinned images ------------------------------------------------------------------

  predicate LowerHex(c: char) { '0' <= c <= '9' || 'a' <= c <= 'f' }

  predicate NameChar(c: char) {
    c != '@' && c != ' ' && c != '\t' && c != '\n' && c != '\r' && c != '\U{000C}'
  }

  /** `name@sha256:` and 64 lower-case hex digits. */
  predicate PinnedImage(s: string) {
    && |s| > 72
    && s[|s|-72..|s|-64] == "@sha256:"
    && (forall i :: |s| - 64 <= i < |s| ==> LowerHex(s[i]))
    && (forall i :: 0 <= i < |s| - 72 ==> NameChar(s[i]))
  }

  // ---- What a spec must satisfy -------------------------------------------------------

  function SpecIDOf(n: SpecNode): string { n.nodeID }

  function SpecIDs(nodes: seq<SpecNode>): seq<string> { Map(SpecIDOf, nodes) }

  function NameOf(b: ArtifactBinding): string { b.bindingName }

  function Names(bindings: seq<ArtifactBinding>): seq<string> { Map(NameOf, bindings) }

  predicate ProvenanceNamed(m: map<string, string>) {
    && KeyPipelineID in m && m[KeyPipelineID] != ""
    && KeyRevisionID in m && m[KeyRevisionID] != ""
    && KeyContractDigest in m && m[KeyContractDigest] != ""
  }

  predicate MetadataOK(m: map<string, string>) { ProvenanceNamed(m) && |m| == 3 }

  predicate HeaderOK(s: RunSpec) {
    s.runID != "" && s.submittedAt.Instant? && s.failureMode == FailFast && s.maxAttempts == MaxAttemptsV1
    && MetadataOK(s.metadata)
  }

  ghost predicate SpecNodesOK(nodes: seq<SpecNode>) {
    && NoDuplicates(SpecIDs(nodes))
    && forall n :: n in nodes ==> n.nodeID != "" && PinnedImage(n.image)
  }

  predicate SpecEdgeOK(ids: seq<string>, e: seq<string>) {
    |e| == 2 && e[0] != e[1] && e[0] in ids && e[1] in ids
  }

  ghost predicate SpecEdgesOK(ids: seq<string>, edges: seq<seq<string>>) {
    NoDuplicates(edges) && forall e :: e in edges ==> SpecEdgeOK(ids, e)
  }

  ghost function Pairs(edges: seq<seq<string>>): Edges {
    set e | e in edges && |e| == 2 :: (e[0], e[1])
  }

  predicate Filled(b: ArtifactBinding) { b.bindingName != "" && b.producer != "" && b.output != "" }

  ghost predicate AllFilled(nodes: seq<SpecNode>) {
    forall n, b :: n in nodes && b in n.bindings ==> Filled(b)
  }

  /** A binding that derives from one dependency: a declared input of its consumer, a
      declared output of an existing producer, and the edge between the two. */
  ghost predicate Derives(s: RunSpec, n: SpecNode, b: ArtifactBinding) {
    && b.childInput == b.bindingName && b.childInput in n.inputs
    && (exists p :: p in s.nodes && p.nodeID == b.producer && b.output in p.outputs)
    && [b.producer, n.nodeID] in s.edges
  }

  ghost predicate Carried(s: RunSpec, e: seq<string>) {
    |e| == 2 && exists n, b :: n in s.nodes && b in n.bindings && n.nodeID == e[1] && b.producer == e[0]
  }

  /** Edges and bindings come from one consistent source. */
  ghost predicate SameSource(s: RunSpec) {
    && (forall n :: n in s.nodes ==> NoDuplicates(Names(n.bindings)))
    && (forall n, b :: n in s.nodes && b in n.bindings ==> Derives(s, n, b))
    && (forall e :: e in s.edges ==> Carried(s, e))
  }

  ghost predicate SpecOK(s: RunSpec) {
    && HeaderOK(s)
    && s.nodes != [] && SpecNodesOK(s.nodes)
    && SpecEdgesOK(SpecIDs(s.nodes), s.edges)
    && Acyclic(Pairs(s.edges))
    && AllFilled(s.nodes)
    && SameSource(s)
  }

  /** The violation behind each error code. */
  ghost predicate HeaderReport(s: RunSpec, code: Code) {
    || (code == MissingFrozenInput && (s.runID == "" || s.submittedAt.ZeroTime? || !ProvenanceNamed(s.metadata)))
    || (code == InvalidFrozenInput && s.submittedAt.Unencodable?)
    || (code == InvalidContract && (s.failureMode != FailFast || s.maxAttempts != MaxAttemptsV1 || |s.metadata| != 3))
  }

  ghost predicate SpecNodesReport(nodes: seq<SpecNode>, code: Code) {
    || (code == InvalidContract && (nodes == [] || exists n :: n in nodes && n.nodeID == ""))
    || (code == Duplicate && !NoDuplicates(SpecIDs(nodes)))
    || (code == RunnableUnresolved && exists n :: n in nodes && !PinnedImage(n.image))
  }

  ghost predicate SpecEdgesReport(ids: seq<string>, edges: seq<seq<string>>, code: Code) {
    || (code == EdgeInvalid && exists e :: e in edges && !SpecEdgeOK(ids, e))
    || (code == Duplicate && !NoDuplicates(edges))
    || (code == GraphCycle && !Acyclic(Pairs(edges)))
  }

  ghost predicate SpecReport(s: RunSpec, code: Code) {
    || HeaderReport(s, code)
    || SpecNodesReport(s.nodes, code)
    || SpecEdgesReport(SpecIDs(s.nodes), s.edges, code)
    || (code == InvalidContract && !AllFilled(s.nodes))
    || (code == SameSourceViolation && !SameSource(s))
  }

  // ---- The checker --------------------------------------------------------------------

  function CheckTimestamp(t: Timestamp): Option<Code> {
    match t
    case ZeroTime => Some(MissingFrozenInput)
    case Unencodable => Some(InvalidFrozenInput)
    case Instant(_) => None
  }

  function CheckMetadata(m: map<string, string>): (r: Option<Code>)
    ensures r.None? <==> MetadataOK(m)
    ensures r.Some? ==> r.value == if ProvenanceNamed(m) then InvalidContract else MissingFrozenInput
  {
    if KeyPipelineID !in m || m[KeyPipelineID] == "" then Some(MissingFrozenInput)
    else if KeyRevisionID !in m || m[KeyRevisionID] == "" then Some(MissingFrozenInput)
    else if KeyContractDigest !in m || m[KeyContractDigest] == "" then Some(MissingFrozenInput)
    else if |m| != 3 then Some(InvalidContract)
    else None
  }

  function CheckHeader(s: RunSpec): (r: Option<Code>)
    ensures r.None? <==> HeaderOK(s)
    ensures r.Some? ==> HeaderReport(s, r.value)
  {
    if s.runID == "" then Some(MissingFrozenInput)
    else if CheckTimestamp(s.submittedAt).Some? then CheckTimestamp(s.submittedAt)
    else if s.failureMode != FailFast then Some(InvalidContract)
    else if s.maxAttempts != MaxAttemptsV1 then Some(InvalidContract)
    else CheckMetadata(s.metadata)
  }

  type NodeIndex = map<string, SpecNode>

  /** The map from id to node of a list with distinct ids. */
  ghost predicate Indexes(index: NodeIndex, nodes: seq<SpecNode>) {
    && (forall n :: n in nodes ==> n.nodeID in index && index[n.nodeID] == n)
    && (forall id :: id in index ==> index[id] in nodes && index[id].nodeID == id)
  }

  lemma IndexKeys(index: NodeIndex, nodes: seq<SpecNode>, id: string)
    requires Indexes(index, nodes)
    ensures id in index <==> id in SpecIDs(nodes)
  {
    if id in index { MapMember(SpecIDOf, nodes, index[id]); }
    if id in SpecIDs(nodes) {
      var i :| 0 <= i < |nodes| && SpecIDs(nodes)[i] == id;
      assert nodes[i] in nodes;
    }
  }

  method CheckSpecNodes(nodes: seq<SpecNode>) returns (r: Result<NodeIndex>)
    ensures r.Ok? <==> SpecNodesOK(nodes)
    ensures r.Ok? ==> Indexes(r.value, nodes)
    ensures r.Err? ==> SpecNodesReport(nodes, r.code)
  {
    var index: NodeIndex := map[];
    ghost var ids := SpecIDs(nodes);
    for i := 0 to |nodes|
      invariant Indexes(index, nodes[..i])
      invariant NoDuplicates(ids[..i])
      invariant forall n :: n in nodes[..i] ==> n.nodeID != "" && PinnedImage(n.image)
    {
      var n := nodes[i];
      assert n in nodes && SpecIDs(nodes[..i]) == ids[..i];
      TakeNext(nodes, i);
      NextIsNew(ids, i);
      IndexKeys(index, nodes[..i], n.nodeID);
      if n.nodeID == "" { return Err(InvalidContract); }
      if n.nodeID in index { return Err(Duplicate); }
      if !PinnedImage(n.image) { return Err(RunnableUnresolved); }
      index := index[n.nodeID := n];
    }
    TakeAll(nodes);
    TakeAll(ids);
    r := Ok(index);
  }

  type Marks = map<seq<string>, bool>

  method CheckSpecEdges(index: NodeIndex, ghost nodes: seq<SpecNode>, edges: seq<seq<string>>) returns (r: Result<Marks>)
    requires Indexes(index, nodes)
    ensures r.Ok? <==> SpecEdgesOK(SpecIDs(nodes), edges)
    ensures r.Ok? ==> forall e :: (e in r.value <==> e in edges) && (e in r.value ==> !r.value[e])
    ensures r.Err? ==> SpecEdgesReport(SpecIDs(nodes), edges, r.code)
  {
    var marks: Marks := map[];
    for i := 0 to |edges|
      invariant forall e :: e in marks <==> e in edges[..i]
      invariant forall e :: e in marks ==> !marks[e]
      invariant NoDuplicates(edges[..i])
      invariant forall e :: e in edges[..i] ==> SpecEdgeOK(SpecIDs(nodes), e)
    {
      var e := edges[i];
      assert e in edges;
      TakeNext(edges, i);
      NextIsNew(edges, i);
      if |e| != 2 { return Err(EdgeInvalid); }
      IndexKeys(index, nodes, e[0]);
      IndexKeys(index, nodes, e[1]);
      if e[0] == e[1] { return Err(EdgeInvalid); }
      if e[0] !in index || e[1] !in index { return Err(EdgeInvalid); }
      if e in marks { return Err(Duplicate); }
      marks := marks[e := false];
    }
    TakeAll(edges);
    r := Ok(marks);
  }

  method CheckCycle(ids: seq<string>, edges: seq<seq<string>>) returns (r: Option<string>)
    requires forall e :: e in edges ==> SpecEdgeOK(ids, e)
    ensures r.None? <==> Acyclic(Pairs(edges))
    ensures r.Some? ==> OnCycle(Pairs(edges), r.value)
  {
    var pairs := seq(|edges|, i requires 0 <= i < |edges| => assert edges[i] in edges; (edges[i][0], edges[i][1]));
    var adj := BuildAdjacency(pairs);
    assert EdgesOf(adj) == Pairs(edges) by {
      forall x ensures x in pairs <==> x in Pairs(edges) {
        if x in pairs { var i :| 0 <= i < |pairs| && pairs[i] == x; assert edges[i] in edges; }
        if x in Pairs(edges) {
          var e :| e in edges && |e| == 2 && (e[0], e[1]) == x;
          var i :| 0 <= i < |edges| && edges[i] == e;
          assert pairs[i] == x;
        }
      }
    }
    r := FindCycle(ids, adj);
    ListedReachesAll(Pairs(edges), ids);
  }

  /** One binding against the index and the edge set. */
  method CheckBinding(s: RunSpec, index: NodeIndex, marks: Marks, n: SpecNode, b: ArtifactBinding) returns (r: Option<Code>)
    requires Indexes(index, s.nodes) && forall e :: e in marks <==> e in s.edges
    ensures r.None? <==> Derives(s, n, b)
    ensures r.Some? ==> r.value == SameSourceViolation
  {
    if b.childInput != b.bindingName { return Some(SameSourceViolation); }
    if b.childInput !in n.inputs { return Some(SameSourceViolation); }
    if b.producer !in index { return Some(SameSourceViolation); }
    assert forall p :: p in s.nodes && p.nodeID == b.producer ==> p == index[b.producer];
    if b.output !in index[b.producer].outputs { return Some(SameSourceViolation); }
    if [b.producer, n.nodeID] !in marks { return Some(SameSourceViolation); }
    assert index[b.producer] in s.nodes;
    r := None;
  }

  /** The bindings of one consumer; marks the edge of every binding. */
  method CheckConsumer(s: RunSpec, index: NodeIndex, before: Marks, n: SpecNode) returns (r: Result<Marks>)
    requires Indexes(index, s.nodes) && (forall e :: e in before <==> e in s.edges) && n in s.nodes
    ensures r.Ok? <==> NoDuplicates(Names(n.bindings)) && forall b :: b in n.bindings ==> Filled(b) && Derives(s, n, b)
    ensures r.Ok? ==> (forall e :: e in r.value <==> e in s.edges)
    ensures r.Ok? ==> forall e :: e in r.value ==>
              (r.value[e] <==> before[e] || exists b :: b in n.bindings && e == [b.producer, n.nodeID])
    ensures r.Err? ==> || (r.code == InvalidContract && exists b :: b in n.bindings && !Filled(b))
                       || (r.code == SameSourceViolation
                           && (!NoDuplicates(Names(n.bindings)) || exists b :: b in n.bindings && !Derives(s, n, b)))
  {
    var marks := before;
    var seen: set<string> := {};
    ghost var names := Names(n.bindings);
    for i := 0 to |n.bindings|
      invariant forall x :: x in seen <==> x in names[..i]
      invariant NoDuplicates(names[..i])
      invariant forall b :: b in n.bindings[..i] ==> Filled(b) && Derives(s, n, b)
      invariant forall e :: e in marks <==> e in s.edges
      invariant forall e :: e in marks ==>
                  (marks[e] <==> before[e] || exists b :: b in n.bindings[..i] && e == [b.producer, n.nodeID])
    {
      var b := n.bindings[i];
      TakeNext(n.bindings, i);
      TakeNext(names, i);
      NextIsNew(names, i);
      if !Filled(b) { return Err(InvalidContract); }
      if b.bindingName in seen { return Err(SameSourceViolation); }
      seen := seen + {b.bindingName};
      var fault := CheckBinding(s, index, marks, n, b);
      if fault.Some? { return Err(fault.value); }
      marks := marks[[b.producer, n.nodeID] := true];
    }
    TakeAll(n.bindings);
    TakeAll(names);
    r := Ok(marks);
  }

  ghost predicate ConsumerOK(s: RunSpec, n: SpecNode) {
    NoDuplicates(Names(n.bindings)) && forall b :: b in n.bindings ==> Filled(b) && Derives(s, n, b)
  }

  /** Edge e carries a binding of one of the first consumers. */
  ghost predicate MarkedBy(nodes: seq<SpecNode>, e: seq<string>) {
    exists n, b :: n in nodes && b in n.bindings && e == [b.producer, n.nodeID]
  }

  method CheckSpecBindings(s: RunSpec, index: NodeIndex, before: Marks) returns (r: Option<Code>)
    requires Indexes(index, s.nodes) && forall e :: (e in before <==> e in s.edges) && (e in before ==> !before[e])
    requires forall e :: e in s.edges ==> |e| == 2
    ensures r.None? <==> AllFilled(s.nodes) && SameSource(s)
    ensures r.Some? ==> (r.value == InvalidContract && !AllFilled(s.nodes)) || (r.value == SameSourceViolation && !SameSource(s))
  {
    var marks := before;
    for i := 0 to |s.nodes|
      invariant forall n :: n in s.nodes[..i] ==> ConsumerOK(s, n)
      invariant forall e :: e in marks <==> e in s.edges
      invariant forall e :: e in marks ==> (marks[e] <==> MarkedBy(s.nodes[..i], e))
    {
      var n := s.nodes[i];
      TakeNext(s.nodes, i);
      var step := CheckConsumer(s, index, marks, n);
      if step.Err? {
        assert !ConsumerOK(s, n);
        return Some(step.code);
      }
      forall e | e in step.value ensures step.value[e] <==> MarkedBy(s.nodes[..i+1], e) {
        MarkedNext(s.nodes, i, e);
      }
      marks := step.value;
    }
    TakeAll(s.nodes);
    for i := 0 to |s.edges|
      invariant forall e :: e in s.edges[..i] ==> Carried(s, e)
    {
      TakeNext(s.edges, i);
      MarkedIsCarried(s, s.edges[i]);
      if !marks[s.edges[i]] { return Some(SameSourceViolation); }
    }
    TakeAll(s.edges);
    r := None;
  }

  lemma MarkedNext(nodes: seq<SpecNode>, i: nat, e: seq<string>)
    requires i < |nodes|
    ensures MarkedBy(nodes[..i+1], e) <==>
            MarkedBy(nodes[..i], e) || exists b :: b in nodes[i].bindings && e == [b.producer, nodes[i].nodeID]
  {
    TakeNext(nodes, i);
    if b :| b in nodes[i].bindings && e == [b.producer, nodes[i].nodeID] {
      assert nodes[i] in nodes[..i+1];
    }
  }

  lemma MarkedIsCarried(s: RunSpec, e: seq<string>)
    requires |e| == 2
    ensures MarkedBy(s.nodes, e) <==> Carried(s, e)
  {
    if Carried(s, e) {
      var n, b :| n in s.nodes && b in n.bindings && n.nodeID == e[1] && b.producer == e[0];
      assert e == [b.producer, n.nodeID];
    }
  }

  /** The checker accepts exactly the well-formed specs, and a refusal's code names a
      violation that is there; in particular SAME_SOURCE_VIOLATION means that edges and
      bindings disagree. */
  method CheckSpec(s: RunSpec) returns (r: Option<Code>)
    ensures r.None? <==> SpecOK(s)
    ensures r.Some? ==> SpecReport(s, r.value)
  {
    var header := CheckHeader(s);
    if header.Some? { return header; }
    if s.nodes == [] { return Some(InvalidContract); }
    var nodes := CheckSpecNodes(s.nodes);
    if nodes.Err? { return Some(nodes.code); }
    var edges := CheckSpecEdges(nodes.value, s.nodes, s.edges);
    if edges.Err? { return Some(edges.code); }
    var cycle := CheckCycle(SpecIDs(s.nodes), s.edges);
    if cycle.Some? { return Some(GraphCycle); }
    r := CheckSpecBindings(s, nodes.value, edges.value);
  }
}
