/** The rules of an executable specification, written out on the specification alone, and the
    proof that the checker decides exactly these. */
module SpecRules {
  import opened Prelude
  import opened Ordering
  import opened Cycles
  import opened SpecCheck

  // ---- Images -------------------------------------------------------------------------

  predicate HexText(s: string) { forall i :: 0 <= i < |s| ==> '0' <= s[i] <= '9' || 'a' <= s[i] <= 'f' }

  predicate ImageName(s: string) {
    s != "" && forall i :: 0 <= i < |s| ==> s[i] !in {'@', ' ', '\t', '\n', '\r', '\U{000C}'}
  }

  /** A name, the algorithm and 64 lower-case hex digits. */
  ghost predicate ByDigest(image: string) {
    exists name, digest :: image == name + "@sha256:" + digest && ImageName(name) && |digest| == 64 && HexText(digest)
  }

  lemma PinnedParts(s: string) returns (name: string, digest: string)
    requires PinnedImage(s)
    ensures s == name + "@sha256:" + digest && ImageName(name) && |digest| == 64 && HexText(digest)
  {
    name, digest := s[..|s|-72], s[|s|-64..];
    assert s == name + s[|s|-72..|s|-64] + digest;
    assert forall i :: 0 <= i < 64 ==> digest[i] == s[|s| - 64 + i];
  }

  lemma PartsArePinned(name: string, mark: string, digest: string)
    requires ImageName(name) && |digest| == 64 && HexText(digest) && mark == "@sha256:"
    ensures PinnedImage(name + mark + digest)
  {
    var s := name + mark + digest;
    assert |mark| == 8;
    assert s[|s|-72..|s|-64] == mark;
    assert forall i :: |s| - 64 <= i < |s| ==> s[i] == digest[i - (|s| - 64)];
    assert forall i :: 0 <= i < |s| - 72 ==> s[i] == name[i];
  }

  /** An image is pinned exactly if it names its content by digest. */
  lemma PinnedImageMeans(s: string)
    ensures PinnedImage(s) <==> ByDigest(s)
  {
    if PinnedImage(s) { var name, digest := PinnedParts(s); }
    if name, digest :| s == name + "@sha256:" + digest && ImageName(name) && |digest| == 64 && HexText(digest) {
      PartsArePinned(name, "@sha256:", digest);
    }
  }

  // ---- The rules ----------------------------------------------------------------------

  /** The run is identified and dated, stops at the first failure, tries once and carries its
      provenance and nothing else. */
  ghost predicate RunRule(s: RunSpec) {
    && s.runID != "" && s.submittedAt.Instant? && s.failureMode == "fail-fast" && s.maxAttempts == 1
    && s.metadata.Keys == {"pipelinestore.pipelineId", "pipelinestore.pipelineRevisionId", "pipelinestore.pipelineContractDigest"}
    && forall key :: key in s.metadata ==> s.metadata[key] != ""
  }

  /** There are nodes, each named, once, and running an image by digest. */
  ghost predicate NodesRule(nodes: seq<SpecNode>) {
    && nodes != []
    && (forall i, j :: 0 <= i < j < |nodes| ==> nodes[i].nodeID != nodes[j].nodeID)
    && (forall n :: n in nodes ==> n.nodeID != "" && ByDigest(n.image))
  }

  ghost predicate Has(s: RunSpec, id: string) { exists n :: n in s.nodes && n.nodeID == id }

  /** Edges are distinct pairs of different nodes of the graph. */
  ghost predicate EdgesRule(s: RunSpec) {
    && (forall i, j :: 0 <= i < j < |s.edges| ==> s.edges[i] != s.edges[j])
    && (forall e :: e in s.edges ==> |e| == 2 && e[0] != e[1] && Has(s, e[0]) && Has(s, e[1]))
  }

  /** A walk along the edges that comes back to where it began. */
  ghost predicate Circle(s: RunSpec, walk: seq<string>) {
    && |walk| >= 2 && walk[0] == walk[|walk|-1]
    && forall k :: 0 <= k < |walk| - 1 ==> [walk[k], walk[k+1]] in s.edges
  }

  /** A binding is named after the declared input it fills, draws on a declared output of a node
      of the graph, and stands beside the edge from that node. */
  ghost predicate BindingRule(s: RunSpec, n: SpecNode, b: ArtifactBinding) {
    && b.bindingName != "" && b.producer != "" && b.output != ""
    && b.childInput == b.bindingName && b.childInput in n.inputs
    && (exists p :: p in s.nodes && p.nodeID == b.producer && b.output in p.outputs)
    && [b.producer, n.nodeID] in s.edges
  }

  ghost predicate NamesApart(bindings: seq<ArtifactBinding>) {
    forall i, j :: 0 <= i < j < |bindings| ==> bindings[i].bindingName != bindings[j].bindingName
  }

  /** Some binding stands beside the edge. */
  ghost predicate BoundBy(s: RunSpec, e: seq<string>) {
    exists n, b :: n in s.nodes && b in n.bindings && e == [b.producer, n.nodeID]
  }

  ghost predicate BindingsRule(s: RunSpec) {
    && (forall n :: n in s.nodes ==> NamesApart(n.bindings))
    && (forall n, b :: n in s.nodes && b in n.bindings ==> BindingRule(s, n, b))
    && (forall e :: e in s.edges ==> BoundBy(s, e))
  }

  ghost predicate Rules(s: RunSpec) {
    RunRule(s) && NodesRule(s.nodes) && EdgesRule(s) && (forall walk :: !Circle(s, walk)) && BindingsRule(s)
  }

  // ---- The checker decides the rules --------------------------------------------------

  lemma KeysDiffer()
    ensures KeyPipelineID != KeyRevisionID && KeyRevisionID != KeyContractDigest && KeyPipelineID != KeyContractDigest
  {
    assert |KeyPipelineID| == 24 && |KeyRevisionID| == 32 && |KeyContractDigest| == 36;
  }

  lemma ThreeKeys(m: map<string, string>, a: string, b: string, c: string)
    requires a != b && b != c && a != c && a in m && b in m && c in m
    ensures |m| == 3 <==> m.Keys == {a, b, c}
  {
    assert |m.Keys| == |m|;
    assert |{a, b, c}| == 3;
    if |m| == 3 {
      assert {a, b, c} <= m.Keys;
      assert |m.Keys - {a, b, c}| == 0;
    }
  }

  lemma RunMeans(s: RunSpec)
    ensures HeaderOK(s) <==> RunRule(s)
  {
    KeysDiffer();
    var m := s.metadata;
    if KeyPipelineID in m && KeyRevisionID in m && KeyContractDigest in m {
      ThreeKeys(m, KeyPipelineID, KeyRevisionID, KeyContractDigest);
    }
  }

  lemma NodesMean(nodes: seq<SpecNode>)
    ensures nodes != [] && SpecNodesOK(nodes) <==> NodesRule(nodes)
  {
    assert forall i :: 0 <= i < |nodes| ==> SpecIDs(nodes)[i] == nodes[i].nodeID;
    forall n | n in nodes ensures PinnedImage(n.image) <==> ByDigest(n.image) { PinnedImageMeans(n.image); }
  }

  lemma IdsMean(s: RunSpec, id: string)
    ensures id in SpecIDs(s.nodes) <==> Has(s, id)
  {
    if id in SpecIDs(s.nodes) {
      var i :| 0 <= i < |s.nodes| && SpecIDs(s.nodes)[i] == id;
      assert s.nodes[i] in s.nodes;
    }
    if n :| n in s.nodes && n.nodeID == id { MapMember(SpecIDOf, s.nodes, n); }
  }

  lemma EdgesMean(s: RunSpec)
    ensures SpecEdgesOK(SpecIDs(s.nodes), s.edges) <==> EdgesRule(s)
  {
    forall id ensures id in SpecIDs(s.nodes) <==> Has(s, id) { IdsMean(s, id); }
  }

  lemma CirclesMean(s: RunSpec)
    requires forall e :: e in s.edges ==> |e| == 2
    ensures Acyclic(Pairs(s.edges)) <==> forall walk :: !Circle(s, walk)
  {
    var pairs := Pairs(s.edges);
    forall a, b ensures (a, b) in pairs <==> [a, b] in s.edges {
      if (a, b) in pairs {
        var e :| e in s.edges && |e| == 2 && (e[0], e[1]) == (a, b);
        assert e == [a, b];
      }
      if [a, b] in s.edges { assert [a, b][0] == a && [a, b][1] == b; }
    }
    if !Acyclic(pairs) {
      var v :| OnCycle(pairs, v);
      var walk :| |walk| >= 2 && WalkBetween(pairs, walk, v, v);
      assert Circle(s, walk);
    }
    if walk :| Circle(s, walk) {
      assert WalkBetween(pairs, walk, walk[0], walk[0]);
      assert OnCycle(pairs, walk[0]);
    }
  }

  lemma NamesMean(bindings: seq<ArtifactBinding>)
    ensures NoDuplicates(Names(bindings)) <==> NamesApart(bindings)
  {
    assert forall i :: 0 <= i < |bindings| ==> Names(bindings)[i] == bindings[i].bindingName;
  }

  lemma BindingMeans(s: RunSpec, n: SpecNode, b: ArtifactBinding)
    ensures Filled(b) && Derives(s, n, b) <==> BindingRule(s, n, b)
  {
  }

  lemma CarriedMeans(s: RunSpec, e: seq<string>)
    requires |e| == 2
    ensures Carried(s, e) <==> BoundBy(s, e)
  {
    if Carried(s, e) {
      var n, b :| n in s.nodes && b in n.bindings && n.nodeID == e[1] && b.producer == e[0];
      assert e == [b.producer, n.nodeID];
    }
    if BoundBy(s, e) {
      var n, b :| n in s.nodes && b in n.bindings && e == [b.producer, n.nodeID];
      assert e[0] == b.producer && e[1] == n.nodeID;
    }
  }

  lemma BindingsMean(s: RunSpec)
    requires forall e :: e in s.edges ==> |e| == 2
    ensures AllFilled(s.nodes) && SameSource(s) <==> BindingsRule(s)
  {
    forall n | n in s.nodes ensures NoDuplicates(Names(n.bindings)) <==> NamesApart(n.bindings) { NamesMean(n.bindings); }
    forall n, b | n in s.nodes && b in n.bindings ensures Filled(b) && Derives(s, n, b) <==> BindingRule(s, n, b) {
      BindingMeans(s, n, b);
    }
    forall e | e in s.edges ensures Carried(s, e) <==> BoundBy(s, e) { CarriedMeans(s, e); }
  }

  /** The checker accepts exactly the specifications that keep the rules. */
  lemma SpecMeans(s: RunSpec)
    ensures SpecOK(s) <==> Rules(s)
  {
    RunMeans(s);
    NodesMean(s.nodes);
    EdgesMean(s);
    if EdgesRule(s) {
      CirclesMean(s);
      BindingsMean(s);
    }
  }
}
