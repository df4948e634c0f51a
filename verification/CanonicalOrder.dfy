/** What the canonical text is, written out: the order of every list by its own fields, the
    members of every object, and the spelling of every character. */
module CanonicalOrder {
  import opened Prelude
  import opened Ordering
  import opened Contracts
  import opened Json
  import opened Canonical

  // ---- The order of the lists ---------------------------------------------------------

  ghost predicate EdgeBefore(x: DirectEdge, y: DirectEdge) {
    || Before(x.fromNode, y.fromNode)
    || (x.fromNode == y.fromNode && Before(x.fromPort, y.fromPort))
    || (x.fromNode == y.fromNode && x.fromPort == y.fromPort && Before(x.toNode, y.toNode))
    || (x.fromNode == y.fromNode && x.fromPort == y.fromPort && x.toNode == y.toNode && Before(x.toPort, y.toPort))
  }

  ghost predicate BindingBefore(x: AssetBinding, y: AssetBinding) {
    || Before(x.toNode, y.toNode)
    || (x.toNode == y.toNode && Before(x.toPort, y.toPort))
    || (x.toNode == y.toNode && x.toPort == y.toPort && Before(x.assetID, y.assetID))
    || (x.toNode == y.toNode && x.toPort == y.toPort && x.assetID == y.assetID && Before(x.assetRevision, y.assetRevision))
    || (x.toNode == y.toNode && x.toPort == y.toPort && x.assetID == y.assetID && x.assetRevision == y.assetRevision
        && Before(x.memberKey, y.memberKey))
  }

  ghost predicate SlotBefore(x: InputSlot, y: InputSlot) {
    || Before(x.slotID, y.slotID)
    || (x.slotID == y.slotID && Before(x.toNode, y.toNode))
    || (x.slotID == y.slotID && x.toNode == y.toNode && Before(x.toPort, y.toPort))
  }

  ghost predicate NodesOrdered(nodes: seq<Node>) {
    && (forall i, j :: 0 <= i < j < |nodes| ==> !Before(nodes[j].nodeID, nodes[i].nodeID))
    && (forall n :: n in nodes ==> ParamsOrdered(n.params))
  }

  ghost predicate ParamsOrdered(params: seq<FixedParameter>) {
    forall i, j :: 0 <= i < j < |params| ==> !Before(params[j].name, params[i].name)
  }

  /** The lists of the contract as they are written. */
  ghost predicate InOrder(c: Contract) { NodesOrdered(c.nodes) && LinksOrdered(c) }

  ghost predicate LinksOrdered(c: Contract) {
    && (forall i, j :: 0 <= i < j < |c.edges| ==> !EdgeBefore(c.edges[j], c.edges[i]))
    && (forall i, j :: 0 <= i < j < |c.bindings| ==> !BindingBefore(c.bindings[j], c.bindings[i]))
    && (forall i, j :: 0 <= i < j < |c.slots| ==> !SlotBefore(c.slots[j], c.slots[i]))
  }

  lemma LessKeysSteps(a: seq<string>, b: seq<string>)
    requires a != [] && b != []
    ensures LessKeys(a, b) <==> Before(a[0], b[0]) || (a[0] == b[0] && LessKeys(a[1..], b[1..]))
  {
    BeforeMeans(a[0], b[0]);
    if a[0] == b[0] { LessIrreflexive(a[0]); }
  }

  lemma KeysOfOne(a: string, b: string)
    ensures LessKeys([a], [b]) <==> Before(a, b)
  {
    LessKeysSteps([a], [b]);
  }

  lemma EdgeKeysMean(x: DirectEdge, y: DirectEdge)
    ensures LessKeys(EdgeKey(x), EdgeKey(y)) <==> EdgeBefore(x, y)
  {
    var a, b := EdgeKey(x), EdgeKey(y);
    LessKeysSteps(a, b);
    LessKeysSteps(a[1..], b[1..]);
    LessKeysSteps(a[2..], b[2..]);
    LessKeysSteps(a[3..], b[3..]);
    assert a[1..][1..] == a[2..] && b[1..][1..] == b[2..] && a[2..][1..] == a[3..] && b[2..][1..] == b[3..];
  }

  lemma BindingKeysMean(x: AssetBinding, y: AssetBinding)
    ensures LessKeys(BindingKey(x), BindingKey(y)) <==> BindingBefore(x, y)
  {
    var a, b := BindingKey(x), BindingKey(y);
    LessKeysSteps(a, b);
    LessKeysSteps(a[1..], b[1..]);
    LessKeysSteps(a[2..], b[2..]);
    LessKeysSteps(a[3..], b[3..]);
    LessKeysSteps(a[4..], b[4..]);
    assert a[1..][1..] == a[2..] && b[1..][1..] == b[2..] && a[2..][1..] == a[3..] && b[2..][1..] == b[3..];
    assert a[3..][1..] == a[4..] && b[3..][1..] == b[4..];
  }

  lemma SlotKeysMean(x: InputSlot, y: InputSlot)
    ensures LessKeys(SlotKey(x), SlotKey(y)) <==> SlotBefore(x, y)
  {
    var a, b := SlotKey(x), SlotKey(y);
    LessKeysSteps(a, b);
    LessKeysSteps(a[1..], b[1..]);
    LessKeysSteps(a[2..], b[2..]);
    assert a[1..][1..] == a[2..] && b[1..][1..] == b[2..];
  }

  lemma IdsInOrder(nodes: seq<Node>)
    ensures var r := Sort(nodes, NodeKey); forall i, j :: 0 <= i < j < |r| ==> !Before(r[j].nodeID, r[i].nodeID)
  {
    var r := Sort(nodes, NodeKey);
    SortSorted(nodes, NodeKey);
    forall i, j | 0 <= i < j < |r| ensures !Before(r[j].nodeID, r[i].nodeID) { KeysOfOne(r[j].nodeID, r[i].nodeID); }
  }

  lemma NodesInOrder(r: seq<Node>, w: seq<Node>)
    requires w == Map(WrittenNode, r)
    requires forall i, j :: 0 <= i < j < |r| ==> !Before(r[j].nodeID, r[i].nodeID)
    ensures NodesOrdered(w)
  {
    forall n | n in w ensures ParamsOrdered(n.params) {
      var k :| 0 <= k < |w| && w[k] == n;
      ParamsInOrder(r[k].params);
    }
  }

  lemma ParamsInOrder(params: seq<FixedParameter>)
    ensures ParamsOrdered(Sort(params, ParamKey))
  {
    var r := Sort(params, ParamKey);
    SortSorted(params, ParamKey);
    forall i, j | 0 <= i < j < |r| ensures !Before(r[j].name, r[i].name) { KeysOfOne(r[j].name, r[i].name); }
  }

  lemma EdgesInOrder(edges: seq<DirectEdge>)
    ensures var r := Sort(edges, EdgeKey); forall i, j :: 0 <= i < j < |r| ==> !EdgeBefore(r[j], r[i])
  {
    var r := Sort(edges, EdgeKey);
    SortSorted(edges, EdgeKey);
    forall i, j | 0 <= i < j < |r| ensures !EdgeBefore(r[j], r[i]) { EdgeKeysMean(r[j], r[i]); }
  }

  lemma BindingsInOrder(bindings: seq<AssetBinding>)
    ensures var r := Sort(bindings, BindingKey); forall i, j :: 0 <= i < j < |r| ==> !BindingBefore(r[j], r[i])
  {
    var r := Sort(bindings, BindingKey);
    SortSorted(bindings, BindingKey);
    forall i, j | 0 <= i < j < |r| ensures !BindingBefore(r[j], r[i]) { BindingKeysMean(r[j], r[i]); }
  }

  lemma SlotsInOrder(slots: seq<InputSlot>)
    ensures var r := Sort(slots, SlotKey); forall i, j :: 0 <= i < j < |r| ==> !SlotBefore(r[j], r[i])
  {
    var r := Sort(slots, SlotKey);
    SortSorted(slots, SlotKey);
    forall i, j | 0 <= i < j < |r| ensures !SlotBefore(r[j], r[i]) { SlotKeysMean(r[j], r[i]); }
  }

  lemma SortedParts(c: Contract, s: Contract)
    requires s == Sorted(c)
    ensures s.nodes == Map(WrittenNode, Sort(c.nodes, NodeKey)) && s.edges == Sort(c.edges, EdgeKey)
    ensures s.bindings == Sort(c.bindings, BindingKey) && s.slots == Sort(c.slots, SlotKey)
    ensures SameUpToOrder(c, s) && NoProfiles(s)
  {
    SortedKeepsForm(c);
  }

  lemma PartsInOrder(c: Contract, s: Contract)
    requires s.nodes == Map(WrittenNode, Sort(c.nodes, NodeKey)) && s.edges == Sort(c.edges, EdgeKey)
    requires s.bindings == Sort(c.bindings, BindingKey) && s.slots == Sort(c.slots, SlotKey)
    ensures InOrder(s)
  {
    IdsInOrder(c.nodes);
    NodesInOrder(Sort(c.nodes, NodeKey), s.nodes);
    EdgesInOrder(c.edges);
    BindingsInOrder(c.bindings);
    SlotsInOrder(c.slots);
  }

  /** What is written is the contract up to order, without profiles, with every list in the
      order of its own fields. */
  lemma WrittenInOrder(c: Contract)
    ensures InOrder(Sorted(c)) && SameUpToOrder(c, Sorted(c)) && NoProfiles(Sorted(c))
  {
    SortedParts(c, Sorted(c));
    PartsInOrder(c, Sorted(c));
  }

  // ---- Nodes that share an id ---------------------------------------------------------

  /** The nodes with this id, in the order of the list. */
  function Sharing(nodes: seq<Node>, id: string): seq<Node> {
    if nodes == [] then []
    else (if nodes[0].nodeID == id then [nodes[0]] else []) + Sharing(nodes[1..], id)
  }

  lemma {:induction false} SharingAppend(a: seq<Node>, b: seq<Node>, id: string)
    ensures Sharing(a + b, id) == Sharing(a, id) + Sharing(b, id)
  {
    if a == [] {
      assert a + b == b;
    } else {
      assert (a + b)[1..] == a[1..] + b;
      SharingAppend(a[1..], b, id);
    }
  }

  lemma {:induction false} InsertStable(x: Node, s: seq<Node>, id: string)
    requires SortedBy(s, NodeKey)
    ensures Sharing(Insert(x, s, NodeKey), id) == Sharing(s, id) + Sharing([x], id)
  {
    if s == [] {
    } else if LessKeys(NodeKey(x), NodeKey(s[0])) {
      NoneSharing(x, s);
      SharingFront(x, s, id);
    } else {
      InsertStable(x, s[1..], id);
      SharingAppend([s[0]], Insert(x, s[1..], NodeKey), id);
      SharingAppend([s[0]], s[1..], id);
      assert [s[0]] + s[1..] == s;
    }
  }

  lemma SharingFront(x: Node, s: seq<Node>, id: string)
    requires Sharing(s, x.nodeID) == []
    ensures Sharing([x] + s, id) == Sharing(s, id) + Sharing([x], id)
  {
    SharingAppend([x], s, id);
  }

  /** Nothing in a sorted list shares the id of a node that belongs before its first. */
  lemma {:induction false} NoneSharing(x: Node, s: seq<Node>)
    requires SortedBy(s, NodeKey) && s != [] && LessKeys(NodeKey(x), NodeKey(s[0]))
    ensures Sharing(s, x.nodeID) == []
  {
    LessKeysIrreflexive(NodeKey(x));
    if |s| > 1 {
      assert !LessKeys(NodeKey(s[1]), NodeKey(s[0]));
      LessKeysTotal(NodeKey(x), NodeKey(s[1]));
      if LessKeys(NodeKey(s[1]), NodeKey(x)) { LessKeysTransitive(NodeKey(s[1]), NodeKey(x), NodeKey(s[0])); }
      NoneSharing(x, s[1..]);
    }
  }

  /** Nodes that share an id keep the order in which they were authored. */
  lemma {:induction false} NodesKeepOrder(nodes: seq<Node>, id: string)
    ensures Sharing(Sort(nodes, NodeKey), id) == Sharing(nodes, id)
  {
    if nodes != [] {
      var n := |nodes| - 1;
      NodesKeepOrder(nodes[..n], id);
      SortSorted(nodes[..n], NodeKey);
      InsertStable(nodes[n], Sort(nodes[..n], NodeKey), id);
      SharingAppend(nodes[..n], [nodes[n]], id);
      assert nodes == nodes[..n] + [nodes[n]];
    }
  }

  // ---- The text -----------------------------------------------------------------------

  /** One string member, and one list member. */
  function Member(key: string, value: string): string { PrintString(key) + ":" + PrintString(value) }

  function List(key: string, texts: seq<string>): string { PrintString(key) + ":" + ("[" + Commas(texts) + "]") }

  function Commas(texts: seq<string>): string {
    if texts == [] then ""
    else if |texts| == 1 then texts[0]
    else texts[0] + "," + Commas(texts[1..])
  }

  function ParamLayout(p: FixedParameter): string { "{" + (Member("name", p.name) + "," + Member("value", p.value)) + "}" }

  function NodeLayout(n: Node): string {
    "{" + (Member("node_id", n.nodeID) + "," + (Member("tool_function_cas_hash", n.casHash) + ","
      + List("fixed_parameters", Map(ParamLayout, n.params)))) + "}"
  }

  function EdgeLayout(e: DirectEdge): string {
    "{" + (Member("from_node_id", e.fromNode) + "," + (Member("from_output_port", e.fromPort) + ","
      + (Member("to_node_id", e.toNode) + "," + Member("to_input_port", e.toPort)))) + "}"
  }

  function BindingLayout(b: AssetBinding): string {
    "{" + (Member("to_node_id", b.toNode) + "," + (Member("to_input_port", b.toPort) + "," + (Member("asset_id", b.assetID) + ","
      + (Member("asset_revision_id", b.assetRevision) + "," + Member("member_key", b.memberKey))))) + "}"
  }

  function SlotLayout(s: InputSlot): string {
    "{" + (Member("slot_id", s.slotID) + "," + (Member("to_node_id", s.toNode) + "," + Member("to_input_port", s.toPort))) + "}"
  }

  /** The text of a contract with its lists as they stand: six members, the versions first, and
      no space anywhere. */
  function Layout(c: Contract): string {
    "{" + (Member("semantic_derivation_version", c.semVersion) + "," + (Member("canonicalization_version", c.canonVersion) + ","
      + (List("nodes", Map(NodeLayout, c.nodes)) + "," + (List("direct_edges", Map(EdgeLayout, c.edges)) + ","
      + (List("reusable_asset_bindings", Map(BindingLayout, c.bindings)) + ","
      + List("external_input_slots", Map(SlotLayout, c.slots))))))) + "}"
  }

  lemma {:induction false} ItemsCommas<T>(tree: T -> Json, layout: T -> string, xs: seq<T>)
    requires forall x :: x in xs ==> Print(tree(x)) == layout(x)
    ensures PrintItems(Map(tree, xs)) == Commas(Map(layout, xs))
  {
    if xs != [] {
      assert Map(tree, xs)[1..] == Map(tree, xs[1..]) && Map(layout, xs)[1..] == Map(layout, xs[1..]);
      assert xs[0] in xs;
      ItemsCommas(tree, layout, xs[1..]);
    }
  }

  lemma ParamText(p: FixedParameter)
    ensures Print(ParamJson(p)) == ParamLayout(p)
  {
  }

  lemma NodeText(n: Node)
    ensures Print(NodeJson(n)) == NodeLayout(n)
  {
    forall p | p in n.params ensures Print(ParamJson(p)) == ParamLayout(p) { ParamText(p); }
    ItemsCommas(ParamJson, ParamLayout, n.params);
    NodeTextIs(n);
  }

  lemma EdgeText(e: DirectEdge)
    ensures Print(EdgeJson(e)) == EdgeLayout(e)
  {
    assert WriteEdge(e) == EdgeLayout(e);
  }

  lemma BindingText(b: AssetBinding)
    ensures Print(BindingJson(b)) == BindingLayout(b)
  {
    assert WriteBinding(b) == BindingLayout(b);
  }

  lemma SlotText(s: InputSlot)
    ensures Print(SlotJson(s)) == SlotLayout(s)
  {
    assert WriteSlot(s) == SlotLayout(s);
  }

  /** The canonical text is the layout of the ordered contract. */
  lemma CanonicalIsLayout(c: Contract)
    ensures CanonicalText(c) == Layout(Sorted(c))
  {
    var s := Sorted(c);
    forall n | n in s.nodes ensures Print(NodeJson(n)) == NodeLayout(n) { NodeText(n); }
    forall e | e in s.edges ensures Print(EdgeJson(e)) == EdgeLayout(e) { EdgeText(e); }
    forall b | b in s.bindings ensures Print(BindingJson(b)) == BindingLayout(b) { BindingText(b); }
    forall t | t in s.slots ensures Print(SlotJson(t)) == SlotLayout(t) { SlotText(t); }
    ItemsCommas(NodeJson, NodeLayout, s.nodes);
    ItemsCommas(EdgeJson, EdgeLayout, s.edges);
    ItemsCommas(BindingJson, BindingLayout, s.bindings);
    ItemsCommas(SlotJson, SlotLayout, s.slots);
    ContractTextIs(s);
  }

  // ---- Characters ---------------------------------------------------------------------

  /** A control character without a short spelling: \\u and four lower-case hex digits. */
  predicate UnicodeEscape(text: string, unit: nat) {
    && |text| == 6 && text[0] == '\\' && text[1] == 'u' && Hex4(text[2..]) == Some(unit)
    && forall i :: 2 <= i < 6 ==> '0' <= text[i] <= '9' || 'a' <= text[i] <= 'f'
  }

  /** How each character is spelled: quote, backslash and five control characters by a short
      escape, the other control characters and the two line separators by their code unit, and
      everything else, whatever the script, as itself. */
  lemma EscapeMeans(c: char)
    ensures c == '\"' ==> Escape(c) == "\\\""
    ensures c == '\\' ==> Escape(c) == "\\\\"
    ensures c == '\U{0008}' ==> Escape(c) == "\\b"
    ensures c == '\U{000C}' ==> Escape(c) == "\\f"
    ensures c == '\n' ==> Escape(c) == "\\n"
    ensures c == '\r' ==> Escape(c) == "\\r"
    ensures c == '\t' ==> Escape(c) == "\\t"
    ensures c < ' ' && c !in {'\U{0008}', '\U{000C}', '\n', '\r', '\t'} ==> UnicodeEscape(Escape(c), c as nat)
    ensures c == '\U{2028}' || c == '\U{2029}' ==> UnicodeEscape(Escape(c), c as nat)
    ensures c >= ' ' && c !in {'\"', '\\', '\U{2028}', '\U{2029}'} ==> Escape(c) == [c]
  {
    if c < ' ' {
      HexDigitValue(c as nat / 16);
      HexDigitValue(c as nat % 16);
    }
  }
}
