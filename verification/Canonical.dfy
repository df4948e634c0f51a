/** The canonical form of a contract, the strict parser, and the laws that make the canonical
    text the identity of a contract: it reads back, and it is equal exactly for contracts
    that are equal up to the order of their lists. */
module Canonical {
  import opened Prelude
  import opened Ordering
  import opened Contracts
  import opened Json
  import opened Surrogates
  import opened FieldNames

  // ---- Sorting a contract -------------------------------------------------------------

  function ParamKey(p: FixedParameter): seq<string> { [p.name] }

  function NodeKey(n: Node): seq<string> { [n.nodeID] }

  function EdgeKey(e: DirectEdge): seq<string> { [e.fromNode, e.fromPort, e.toNode, e.toPort] }

  function BindingKey(b: AssetBinding): seq<string> {
    [b.toNode, b.toPort, b.assetID, b.assetRevision, b.memberKey]
  }

  function SlotKey(s: InputSlot): seq<string> { [s.slotID, s.toNode, s.toPort] }

  /** A node as it is written: its parameters sorted, the reserved profile key left out. */
  function WrittenNode(n: Node): Node {
    Node(n.nodeID, n.casHash, None, Sort(n.params, ParamKey))
  }

  function Sorted(c: Contract): Contract {
    Contract(c.semVersion, c.canonVersion, Map(WrittenNode, Sort(c.nodes, NodeKey)), Sort(c.edges, EdgeKey),
             Sort(c.bindings, BindingKey), Sort(c.slots, SlotKey))
  }

  // ---- The tree of a contract, in the canonical key order -----------------------------

  function ParamJson(p: FixedParameter): Json {
    Obj([Field("name", Str(p.name)), Field("value", Str(p.value))])
  }

  function NodeJson(n: Node): Json {
    Obj([Field("node_id", Str(n.nodeID)), Field("tool_function_cas_hash", Str(n.casHash)),
         Field("fixed_parameters", Arr(Map(ParamJson, n.params)))])
  }

  function EdgeJson(e: DirectEdge): Json {
    Obj([Field("from_node_id", Str(e.fromNode)), Field("from_output_port", Str(e.fromPort)),
         Field("to_node_id", Str(e.toNode)), Field("to_input_port", Str(e.toPort))])
  }

  function BindingJson(b: AssetBinding): Json {
    Obj([Field("to_node_id", Str(b.toNode)), Field("to_input_port", Str(b.toPort)), Field("asset_id", Str(b.assetID)),
         Field("asset_revision_id", Str(b.assetRevision)), Field("member_key", Str(b.memberKey))])
  }

  function SlotJson(s: InputSlot): Json {
    Obj([Field("slot_id", Str(s.slotID)), Field("to_node_id", Str(s.toNode)), Field("to_input_port", Str(s.toPort))])
  }

  function ContractJson(c: Contract): Json {
    Obj([Field("semantic_derivation_version", Str(c.semVersion)),
         Field("canonicalization_version", Str(c.canonVersion)),
         Field("nodes", Arr(Map(NodeJson, c.nodes))),
         Field("direct_edges", Arr(Map(EdgeJson, c.edges))),
         Field("reusable_asset_bindings", Arr(Map(BindingJson, c.bindings))),
         Field("external_input_slots", Arr(Map(SlotJson, c.slots)))])
  }

  function CanonicalText(c: Contract): string { Print(ContractJson(Sorted(c))) }

  // ---- The writer ---------------------------------------------------------------------

  function StringField(key: string, value: string): string {
    PrintString(key) + ":" + PrintString(value)
  }

  lemma {:induction false} PrintedItemsAppend(items: seq<Json>, item: Json)
    ensures PrintItems(items + [item]) == if items == [] then Print(item) else PrintItems(items) + "," + Print(item)
  {
    if |items| >= 1 {
      assert (items + [item])[1..] == items[1..] + [item];
      PrintedItemsAppend(items[1..], item);
      if |items| > 1 {
        var a, b := Print(items[0]), PrintItems(items[1..]);
        Assoc4(a, ",", b, "," + Print(item));
        Assoc(a + "," + b, ",", Print(item));
        Assoc(b, ",", Print(item));
        Assoc(a, ",", b + "," + Print(item));
        Assoc(a + ",", b, "," + Print(item));
        assert PrintItems(items) == a + "," + b;
      }
    }
  }

  /** The items of a list from front to back, with a comma before every item but the first. */
  method WriteItems<T>(elems: seq<T>, tree: T -> Json, write: T -> string) returns (text: string)
    requires forall x :: x in elems ==> write(x) == Print(tree(x))
    ensures text == PrintItems(Map(tree, elems))
  {
    text := "";
    for i := 0 to |elems|
      invariant text == PrintItems(Map(tree, elems[..i]))
    {
      PrintedItemsAppend(Map(tree, elems[..i]), tree(elems[i]));
      assert Map(tree, elems[..i+1]) == Map(tree, elems[..i]) + [tree(elems[i])];
      if i > 0 { text := text + ","; }
      text := text + write(elems[i]);
    }
    assert elems[..|elems|] == elems;
  }

  function WriteParam(p: FixedParameter): (r: string)
    ensures r == Print(ParamJson(p))
  {
    "{" + (StringField("name", p.name) + "," + StringField("value", p.value)) + "}"
  }

  function WriteEdge(e: DirectEdge): (r: string)
    ensures r == Print(EdgeJson(e))
  {
    Fields4(Field("from_node_id", Str(e.fromNode)), Field("from_output_port", Str(e.fromPort)),
            Field("to_node_id", Str(e.toNode)), Field("to_input_port", Str(e.toPort)));
    "{" + (StringField("from_node_id", e.fromNode) + "," + (StringField("from_output_port", e.fromPort) + ","
      + (StringField("to_node_id", e.toNode) + "," + StringField("to_input_port", e.toPort)))) + "}"
  }

  function WriteBinding(b: AssetBinding): (r: string)
    ensures r == Print(BindingJson(b))
  {
    Fields5(Field("to_node_id", Str(b.toNode)), Field("to_input_port", Str(b.toPort)), Field("asset_id", Str(b.assetID)),
            Field("asset_revision_id", Str(b.assetRevision)), Field("member_key", Str(b.memberKey)));
    "{" + (StringField("to_node_id", b.toNode) + "," + (StringField("to_input_port", b.toPort) + ","
      + (StringField("asset_id", b.assetID) + "," + (StringField("asset_revision_id", b.assetRevision) + ","
      + StringField("member_key", b.memberKey))))) + "}"
  }

  function WriteSlot(s: InputSlot): (r: string)
    ensures r == Print(SlotJson(s))
  {
    Fields3(Field("slot_id", Str(s.slotID)), Field("to_node_id", Str(s.toNode)), Field("to_input_port", Str(s.toPort)));
    "{" + (StringField("slot_id", s.slotID) + "," + (StringField("to_node_id", s.toNode) + ","
      + StringField("to_input_port", s.toPort))) + "}"
  }

  lemma FieldsCons(f: Field, rest: seq<Field>)
    requires rest != []
    ensures PrintFields([f] + rest) == PrintField(f) + "," + PrintFields(rest)
  {
    var fields := [f] + rest;
    assert fields[0] == f && fields[1..] == rest;
    assert PrintFields(fields) == PrintField(fields[0]) + "," + PrintFields(fields[1..]);
  }

  lemma Fields3(a: Field, b: Field, c: Field)
    ensures PrintFields([a, b, c]) == PrintField(a) + "," + (PrintField(b) + "," + PrintField(c))
  {
    FieldsCons(a, [b, c]);
    FieldsCons(b, [c]);
    assert [a] + [b, c] == [a, b, c] && [b] + [c] == [b, c];
  }

  lemma Fields4(a: Field, b: Field, c: Field, d: Field)
    ensures PrintFields([a, b, c, d]) == PrintField(a) + "," + (PrintField(b) + "," + (PrintField(c) + "," + PrintField(d)))
  {
    FieldsCons(a, [b, c, d]);
    Fields3(b, c, d);
    assert [a] + [b, c, d] == [a, b, c, d];
  }

  lemma Fields5(a: Field, b: Field, c: Field, d: Field, e: Field)
    ensures PrintFields([a, b, c, d, e]) ==
            PrintField(a) + "," + (PrintField(b) + "," + (PrintField(c) + "," + (PrintField(d) + "," + PrintField(e))))
  {
    FieldsCons(a, [b, c, d, e]);
    Fields4(b, c, d, e);
    assert [a] + [b, c, d, e] == [a, b, c, d, e];
  }

  lemma Fields6(a: Field, b: Field, c: Field, d: Field, e: Field, f: Field)
    ensures PrintFields([a, b, c, d, e, f]) ==
            PrintField(a) + "," + (PrintField(b) + "," + (PrintField(c) + "," + (PrintField(d) + "," + (PrintField(e) + ","
            + PrintField(f)))))
  {
    FieldsCons(a, [b, c, d, e, f]);
    Fields5(b, c, d, e, f);
    assert [a] + [b, c, d, e, f] == [a, b, c, d, e, f];
  }

  function ListField(key: string, items: string): string {
    PrintString(key) + ":" + ("[" + items + "]")
  }

  lemma FieldTexts(key: string, value: string, items: seq<Json>)
    ensures PrintField(Field(key, Str(value))) == StringField(key, value)
    ensures PrintField(Field(key, Arr(items))) == ListField(key, PrintItems(items))
  {
  }

  function NodeText(n: Node, params: string): string {
    "{" + (StringField("node_id", n.nodeID) + "," + (StringField("tool_function_cas_hash", n.casHash) + ","
      + ListField("fixed_parameters", params))) + "}"
  }

  /** Two string members and a list member, whatever their keys. */
  lemma NodeObject(k0: string, v0: string, k1: string, v1: string, k2: string, items: seq<Json>)
    ensures Print(Obj([Field(k0, Str(v0)), Field(k1, Str(v1)), Field(k2, Arr(items))])) ==
            "{" + (StringField(k0, v0) + "," + (StringField(k1, v1) + "," + ListField(k2, PrintItems(items)))) + "}"
  {
    Fields3(Field(k0, Str(v0)), Field(k1, Str(v1)), Field(k2, Arr(items)));
    FieldTexts(k0, v0, []);
    FieldTexts(k1, v1, []);
    FieldTexts(k2, "", items);
  }

  lemma NodeTextIs(n: Node)
    ensures NodeText(n, PrintItems(Map(ParamJson, n.params))) == Print(NodeJson(n))
  {
    NodeObject("node_id", n.nodeID, "tool_function_cas_hash", n.casHash, "fixed_parameters", Map(ParamJson, n.params));
  }

  method WriteNode(n: Node) returns (text: string)
    ensures text == Print(NodeJson(WrittenNode(n)))
  {
    var params := WriteItems(Sort(n.params, ParamKey), ParamJson, WriteParam);
    NodeTextIs(WrittenNode(n));
    text := NodeText(n, params);
  }

  method WriteNodes(nodes: seq<Node>) returns (text: string)
    ensures text == PrintItems(Map(NodeJson, Map(WrittenNode, nodes)))
  {
    text := "";
    ghost var trees := Map(NodeJson, Map(WrittenNode, nodes));
    for i := 0 to |nodes|
      invariant text == PrintItems(trees[..i])
    {
      PrintedItemsAppend(trees[..i], trees[i]);
      TakeNext(trees, i);
      if i > 0 { text := text + ","; }
      var node := WriteNode(nodes[i]);
      text := text + node;
    }
    TakeAll(trees);
  }

  function ContractText(sem: string, canon: string, nodes: string, edges: string, bindings: string, slots: string): string {
    "{" + (StringField("semantic_derivation_version", sem) + "," + (StringField("canonicalization_version", canon) + ","
      + (ListField("nodes", nodes) + "," + (ListField("direct_edges", edges) + ","
      + (ListField("reusable_asset_bindings", bindings) + "," + ListField("external_input_slots", slots)))))) + "}"
  }

  lemma ContractObject(k0: string, v0: string, k1: string, v1: string, k2: string, a: seq<Json>, k3: string, b: seq<Json>,
                       k4: string, c: seq<Json>, k5: string, d: seq<Json>)
    ensures Print(Obj([Field(k0, Str(v0)), Field(k1, Str(v1)), Field(k2, Arr(a)), Field(k3, Arr(b)), Field(k4, Arr(c)),
                       Field(k5, Arr(d))])) ==
            "{" + (StringField(k0, v0) + "," + (StringField(k1, v1) + "," + (ListField(k2, PrintItems(a)) + ","
            + (ListField(k3, PrintItems(b)) + "," + (ListField(k4, PrintItems(c)) + "," + ListField(k5, PrintItems(d))))))) + "}"
  {
    Fields6(Field(k0, Str(v0)), Field(k1, Str(v1)), Field(k2, Arr(a)), Field(k3, Arr(b)), Field(k4, Arr(c)), Field(k5, Arr(d)));
    FieldTexts(k0, v0, a);
    FieldTexts(k1, v1, a);
    FieldTexts(k2, v0, a);
    FieldTexts(k3, v0, b);
    FieldTexts(k4, v0, c);
    FieldTexts(k5, v0, d);
  }

  lemma ContractTextIs(c: Contract)
    ensures ContractText(c.semVersion, c.canonVersion, PrintItems(Map(NodeJson, c.nodes)), PrintItems(Map(EdgeJson, c.edges)),
                         PrintItems(Map(BindingJson, c.bindings)), PrintItems(Map(SlotJson, c.slots)))
            == Print(ContractJson(c))
  {
    ContractObject("semantic_derivation_version", c.semVersion, "canonicalization_version", c.canonVersion,
                   "nodes", Map(NodeJson, c.nodes), "direct_edges", Map(EdgeJson, c.edges),
                   "reusable_asset_bindings", Map(BindingJson, c.bindings), "external_input_slots", Map(SlotJson, c.slots));
  }

  /** The deterministic rendering of a contract: each list copied, sorted by its key and
      written, between the two version fields and the closing brace. */
  method Canonicalize(c: Contract) returns (text: string)
    ensures text == CanonicalText(c)
  {
    var nodes := WriteNodes(Sort(c.nodes, NodeKey));
    var edges := WriteItems(Sort(c.edges, EdgeKey), EdgeJson, WriteEdge);
    var bindings := WriteItems(Sort(c.bindings, BindingKey), BindingJson, WriteBinding);
    var slots := WriteItems(Sort(c.slots, SlotKey), SlotJson, WriteSlot);
    ContractTextIs(Sorted(c));
    text := ContractText(c.semVersion, c.canonVersion, nodes, edges, bindings, slots);
  }

  // ---- Decoding -----------------------------------------------------------------------

  /** A list in the middle of decoding: its elements, and those that an earlier and longer list
      for the same field has left in its storage. */
  datatype Slice<T> = Slice(now: seq<T>, spare: seq<T>)

  datatype NodeDraft = NodeDraft(nodeID: string, casHash: string, toolProfile: Option<string>, params: Slice<FixedParameter>)

  datatype ContractDraft = ContractDraft(semVersion: string, canonVersion: string, nodes: Slice<NodeDraft>,
                                         edges: Slice<DirectEdge>, bindings: Slice<AssetBinding>, slots: Slice<InputSlot>)

  const ZeroParam := FixedParameter("", "")
  const ZeroNode := NodeDraft("", "", None, Slice([], []))
  const ZeroEdge := DirectEdge("", "", "", "")
  const ZeroBinding := AssetBinding("", "", "", "", "")
  const ZeroSlot := InputSlot("", "", "")
  const ZeroContract := ContractDraft("", "", Slice([], []), Slice([], []), Slice([], []), Slice([], []))

  function FinishedNode(n: NodeDraft): Node { Node(n.nodeID, n.casHash, n.toolProfile, n.params.now) }

  function FinishedContract(c: ContractDraft): Contract {
    Contract(c.semVersion, c.canonVersion, Map(FinishedNode, c.nodes.now), c.edges.now, c.bindings.now, c.slots.now)
  }

  function DecodeString(j: Json): Result<string> {
    if j.Str? then Ok(j.s) else Err(InvalidContract)
  }

  /** The elements of a list in order, each decoded onto the element that stands at its place
      in the storage or, past its end, onto a zero one; the first fault is the answer. */
  function DecodeAll<T>(decode: (T, Json) -> Result<T>, kept: seq<T>, zero: T, items: seq<Json>): (r: Result<seq<T>>)
    ensures r.Ok? ==> |r.value| == |items|
  {
    if items == [] then Ok([])
    else match decode(if kept == [] then zero else kept[0], items[0])
      case Err(code) => Err(code)
      case Ok(x) =>
        (match DecodeAll(decode, if kept == [] then [] else kept[1..], zero, items[1..])
         case Err(code) => Err(code)
         case Ok(xs) => Ok([x] + xs))
  }

  /** A list onto what the field holds. An empty list starts with fresh storage, any other
      keeps what lies beyond it. */
  function DecodeList<T>(decode: (T, Json) -> Result<T>, slice: Slice<T>, zero: T, j: Json): Result<Slice<T>> {
    if !j.Arr? then Err(InvalidContract)
    else
      var kept := slice.now + slice.spare;
      match DecodeAll(decode, kept, zero, j.items)
      case Err(code) => Err(code)
      case Ok(xs) => Ok(Slice(xs, if xs == [] || |kept| <= |xs| then [] else kept[|xs|..]))
  }

  /** Members in document order onto a record: an absent member leaves its field as it is, one
      that stands for no field is refused, and of two that stand for the same field the later
      one is decoded onto the earlier. */
  function DecodeFields<T>(assign: (T, Field) -> Result<T>, fields: seq<Field>, start: T): Result<T> {
    if fields == [] then Ok(start)
    else match assign(start, fields[0])
      case Err(code) => Err(code)
      case Ok(x) => DecodeFields(assign, fields[1..], x)
  }

  function DecodeObject<T>(assign: (T, Field) -> Result<T>, start: T, j: Json): Result<T> {
    if j.Obj? then DecodeFields(assign, j.fields, start) else Err(InvalidContract)
  }

  function WithString<T>(j: Json, put: string -> T): Result<T> {
    match DecodeString(j)
    case Err(code) => Err(code)
    case Ok(s) => Ok(put(s))
  }

  function WithList<T, U>(r: Result<Slice<T>>, put: Slice<T> -> U): Result<U> {
    match r
    case Err(code) => Err(code)
    case Ok(xs) => Ok(put(xs))
  }

  const ParamFields := ["name", "value"]

  function SetParam(p: FixedParameter, f: Field): Result<FixedParameter> {
    var key := FieldOf(f.key, ParamFields);
    if key == "name" then WithString(f.value, s => p.(name := s))
    else if key == "value" then WithString(f.value, s => p.(value := s))
    else Err(UnknownKey)
  }

  function DecodeParam(p: FixedParameter, j: Json): Result<FixedParameter> { DecodeObject(SetParam, p, j) }

  const NodeFields := ["node_id", "tool_function_cas_hash", "tool_profile_digest", "fixed_parameters"]

  function SetNode(n: NodeDraft, f: Field): Result<NodeDraft> {
    var key := FieldOf(f.key, NodeFields);
    if key == "node_id" then WithString(f.value, s => n.(nodeID := s))
    else if key == "tool_function_cas_hash" then WithString(f.value, s => n.(casHash := s))
    else if key == "tool_profile_digest" then WithString(f.value, s => n.(toolProfile := Some(s)))
    else if key == "fixed_parameters" then WithList(DecodeList(DecodeParam, n.params, ZeroParam, f.value), ps => n.(params := ps))
    else Err(UnknownKey)
  }

  function DecodeNode(n: NodeDraft, j: Json): Result<NodeDraft> { DecodeObject(SetNode, n, j) }

  const EdgeFields := ["from_node_id", "from_output_port", "to_node_id", "to_input_port"]

  function SetEdge(e: DirectEdge, f: Field): Result<DirectEdge> {
    var key := FieldOf(f.key, EdgeFields);
    if key == "from_node_id" then WithString(f.value, s => e.(fromNode := s))
    else if key == "from_output_port" then WithString(f.value, s => e.(fromPort := s))
    else if key == "to_node_id" then WithString(f.value, s => e.(toNode := s))
    else if key == "to_input_port" then WithString(f.value, s => e.(toPort := s))
    else Err(UnknownKey)
  }

  function DecodeEdge(e: DirectEdge, j: Json): Result<DirectEdge> { DecodeObject(SetEdge, e, j) }

  const BindingFields := ["to_node_id", "to_input_port", "asset_id", "asset_revision_id", "member_key"]

  function SetBinding(b: AssetBinding, f: Field): Result<AssetBinding> {
    var key := FieldOf(f.key, BindingFields);
    if key == "to_node_id" then WithString(f.value, s => b.(toNode := s))
    else if key == "to_input_port" then WithString(f.value, s => b.(toPort := s))
    else if key == "asset_id" then WithString(f.value, s => b.(assetID := s))
    else if key == "asset_revision_id" then WithString(f.value, s => b.(assetRevision := s))
    else if key == "member_key" then WithString(f.value, s => b.(memberKey := s))
    else Err(UnknownKey)
  }

  function DecodeBinding(b: AssetBinding, j: Json): Result<AssetBinding> { DecodeObject(SetBinding, b, j) }

  const SlotFields := ["slot_id", "to_node_id", "to_input_port"]

  function SetSlot(t: InputSlot, f: Field): Result<InputSlot> {
    var key := FieldOf(f.key, SlotFields);
    if key == "slot_id" then WithString(f.value, s => t.(slotID := s))
    else if key == "to_node_id" then WithString(f.value, s => t.(toNode := s))
    else if key == "to_input_port" then WithString(f.value, s => t.(toPort := s))
    else Err(UnknownKey)
  }

  function DecodeSlot(t: InputSlot, j: Json): Result<InputSlot> { DecodeObject(SetSlot, t, j) }

  const ContractFields := ["semantic_derivation_version", "canonicalization_version", "nodes",
                           "direct_edges", "reusable_asset_bindings", "external_input_slots"]

  function SetContract(c: ContractDraft, f: Field): Result<ContractDraft> {
    var key := FieldOf(f.key, ContractFields);
    if key == "semantic_derivation_version" then WithString(f.value, s => c.(semVersion := s))
    else if key == "canonicalization_version" then WithString(f.value, s => c.(canonVersion := s))
    else if key == "nodes" then WithList(DecodeList(DecodeNode, c.nodes, ZeroNode, f.value), xs => c.(nodes := xs))
    else if key == "direct_edges" then WithList(DecodeList(DecodeEdge, c.edges, ZeroEdge, f.value), xs => c.(edges := xs))
    else if key == "reusable_asset_bindings" then WithList(DecodeList(DecodeBinding, c.bindings, ZeroBinding, f.value), xs => c.(bindings := xs))
    else if key == "external_input_slots" then WithList(DecodeList(DecodeSlot, c.slots, ZeroSlot, f.value), xs => c.(slots := xs))
    else Err(UnknownKey)
  }

  function DecodeContract(j: Json): Result<Contract> {
    match DecodeObject(SetContract, ZeroContract, j)
    case Err(code) => Err(code)
    case Ok(c) => Ok(FinishedContract(c))
  }

  /** Strict parsing of a contract body, on text that is already valid UTF-8: the walk over the
      tokens of the document and of what follows it, then the decoder on the document, then
      its look-ahead. */
  function Parse(text: string): Result<Contract> {
    if !Paired(Tokens(text)) then Err(InvalidContract)
    else match ParseValue(text)
      case Err(code) => Err(code)
      case Ok(p) =>
        if TokenFollows(p.rest) then Err(InvalidContract)
        else match DecodeContract(p.value)
          case Err(code) => Err(code)
          case Ok(c) => if EndsDocument(p.rest) then Ok(c) else Err(InvalidContract)
  }

  method ParseBody(text: string) returns (r: Result<Contract>)
    ensures r == Parse(text)
  {
    var fault := RejectUnpairedSurrogateEscapes(text);
    if fault.Some? { return Err(fault.value); }
    var tree := ParseValue(text);
    if tree.Err? { return Err(tree.code); }
    if TokenFollows(tree.value.rest) { return Err(InvalidContract); }
    r := DecodeContract(tree.value.value);
    if r.Ok? && !EndsDocument(tree.value.rest) { r := Err(InvalidContract); }
  }

  /** Accepted are the documents that decode. */
  lemma ParsedDocument(text: string)
    ensures Parse(text).Ok? <==> Paired(Tokens(text)) && ParseDocument(text).Ok? && DecodeContract(ParseDocument(text).value).Ok?
    ensures Parse(text).Ok? ==> Parse(text) == DecodeContract(ParseDocument(text).value)
  {
    if ParseValue(text).Ok? { TokenIsTrailing(ParseValue(text).value.rest); }
  }

  // ---- Decoding undoes the tree -------------------------------------------------------

  lemma {:induction false} DecodeAllUndoes<T(!new)>(decode: (T, Json) -> Result<T>, zero: T, items: seq<Json>, xs: seq<T>)
    requires |items| == |xs| && forall i :: 0 <= i < |xs| ==> decode(zero, items[i]) == Ok(xs[i])
    ensures DecodeAll(decode, [], zero, items) == Ok(xs)
  {
    if xs != [] {
      assert decode(zero, items[0]) == Ok(xs[0]);
      DecodeAllUndoes(decode, zero, items[1..], xs[1..]);
      assert xs == [xs[0]] + xs[1..];
    }
  }

  lemma DecodeListUndoes<T(!new)>(decode: (T, Json) -> Result<T>, zero: T, items: seq<Json>, xs: seq<T>)
    requires |items| == |xs| && forall i :: 0 <= i < |xs| ==> decode(zero, items[i]) == Ok(xs[i])
    ensures DecodeList(decode, Slice([], []), zero, Arr(items)) == Ok(Slice(xs, []))
  {
    DecodeAllUndoes(decode, zero, items, xs);
    var none: seq<T> := [];
    assert none + none == none;
  }

  /** The states a record goes through, one for each member. */
  ghost predicate Steps<T(!new)>(assign: (T, Field) -> Result<T>, fields: seq<Field>, states: seq<T>) {
    && |states| == |fields| + 1
    && forall i :: 0 <= i < |fields| ==> assign(states[i], fields[i]) == Ok(states[i+1])
  }

  lemma {:induction false} DecodeSteps<T(!new)>(assign: (T, Field) -> Result<T>, fields: seq<Field>, states: seq<T>)
    requires Steps(assign, fields, states)
    ensures DecodeFields(assign, fields, states[0]) == Ok(states[|fields|])
  {
    if fields != [] {
      assert assign(states[0], fields[0]) == Ok(states[1]);
      DecodeSteps(assign, fields[1..], states[1..]);
    }
  }

  lemma ParamUndone(p: FixedParameter)
    ensures DecodeParam(ZeroParam, ParamJson(p)) == Ok(p)
  {
    DecodeSteps(SetParam, ParamJson(p).fields, [ZeroParam, FixedParameter(p.name, ""), p]);
  }

  function DraftNode(n: Node): NodeDraft { NodeDraft(n.nodeID, n.casHash, n.toolProfile, Slice(n.params, [])) }

  lemma NodeUndone(n: Node)
    requires n.toolProfile.None?
    ensures DecodeNode(ZeroNode, NodeJson(n)) == Ok(DraftNode(n))
  {
    var trees := Map(ParamJson, n.params);
    forall i | 0 <= i < |n.params| ensures DecodeParam(ZeroParam, trees[i]) == Ok(n.params[i]) { ParamUndone(n.params[i]); }
    DecodeListUndoes(DecodeParam, ZeroParam, trees, n.params);
    DecodeSteps(SetNode, NodeJson(n).fields,
                [ZeroNode, ZeroNode.(nodeID := n.nodeID), ZeroNode.(nodeID := n.nodeID, casHash := n.casHash), DraftNode(n)]);
  }

  lemma EdgeUndone(e: DirectEdge)
    ensures DecodeEdge(ZeroEdge, EdgeJson(e)) == Ok(e)
  {
    DecodeSteps(SetEdge, EdgeJson(e).fields,
                [ZeroEdge, DirectEdge(e.fromNode, "", "", ""), DirectEdge(e.fromNode, e.fromPort, "", ""),
                 e.(toPort := ""), e]);
  }

  lemma BindingUndone(b: AssetBinding)
    ensures DecodeBinding(ZeroBinding, BindingJson(b)) == Ok(b)
  {
    DecodeSteps(SetBinding, BindingJson(b).fields,
                [ZeroBinding, AssetBinding(b.toNode, "", "", "", ""), AssetBinding(b.toNode, b.toPort, "", "", ""),
                 b.(assetRevision := "", memberKey := ""), b.(memberKey := ""), b]);
  }

  lemma SlotUndone(s: InputSlot)
    ensures DecodeSlot(ZeroSlot, SlotJson(s)) == Ok(s)
  {
    DecodeSteps(SetSlot, SlotJson(s).fields, [ZeroSlot, InputSlot(s.slotID, "", ""), s.(toPort := ""), s]);
  }

  ghost predicate NoProfiles(c: Contract) {
    forall n :: n in c.nodes ==> n.toolProfile.None?
  }

  lemma NodesUndone(nodes: seq<Node>)
    requires forall n :: n in nodes ==> n.toolProfile.None?
    ensures DecodeList(DecodeNode, Slice([], []), ZeroNode, Arr(Map(NodeJson, nodes))) == Ok(Slice(Map(DraftNode, nodes), []))
  {
    var trees, drafts := Map(NodeJson, nodes), Map(DraftNode, nodes);
    forall i | 0 <= i < |nodes| ensures DecodeNode(ZeroNode, trees[i]) == Ok(drafts[i]) { NodeUndone(nodes[i]); }
    DecodeListUndoes(DecodeNode, ZeroNode, trees, drafts);
  }

  lemma EdgesUndone(edges: seq<DirectEdge>)
    ensures DecodeList(DecodeEdge, Slice([], []), ZeroEdge, Arr(Map(EdgeJson, edges))) == Ok(Slice(edges, []))
  {
    var trees := Map(EdgeJson, edges);
    forall i | 0 <= i < |edges| ensures DecodeEdge(ZeroEdge, trees[i]) == Ok(edges[i]) { EdgeUndone(edges[i]); }
    DecodeListUndoes(DecodeEdge, ZeroEdge, trees, edges);
  }

  lemma BindingsUndone(bindings: seq<AssetBinding>)
    ensures DecodeList(DecodeBinding, Slice([], []), ZeroBinding, Arr(Map(BindingJson, bindings))) == Ok(Slice(bindings, []))
  {
    var trees := Map(BindingJson, bindings);
    forall i | 0 <= i < |bindings| ensures DecodeBinding(ZeroBinding, trees[i]) == Ok(bindings[i]) { BindingUndone(bindings[i]); }
    DecodeListUndoes(DecodeBinding, ZeroBinding, trees, bindings);
  }

  lemma SlotsUndone(slots: seq<InputSlot>)
    ensures DecodeList(DecodeSlot, Slice([], []), ZeroSlot, Arr(Map(SlotJson, slots))) == Ok(Slice(slots, []))
  {
    var trees := Map(SlotJson, slots);
    forall i | 0 <= i < |slots| ensures DecodeSlot(ZeroSlot, trees[i]) == Ok(slots[i]) { SlotUndone(slots[i]); }
    DecodeListUndoes(DecodeSlot, ZeroSlot, trees, slots);
  }

  function DraftContract(c: Contract): ContractDraft {
    ContractDraft(c.semVersion, c.canonVersion, Slice(Map(DraftNode, c.nodes), []), Slice(c.edges, []), Slice(c.bindings, []),
                  Slice(c.slots, []))
  }

  lemma DraftFinished(c: Contract)
    ensures FinishedContract(DraftContract(c)) == c
  {
    var nodes := Map(FinishedNode, Map(DraftNode, c.nodes));
    assert nodes == c.nodes by { forall i | 0 <= i < |nodes| ensures nodes[i] == c.nodes[i] { } }
  }

  lemma VersionsSet(d: ContractDraft, f: Field)
    ensures f == Field(ContractFields[0], Str(d.semVersion)) ==> SetContract(d.(semVersion := ""), f) == Ok(d)
    ensures f == Field(ContractFields[1], Str(d.canonVersion)) ==> SetContract(d.(canonVersion := ""), f) == Ok(d)
  {
    if f.key == ContractFields[0] || f.key == ContractFields[1] { assert f.key in ContractFields; }
  }

  lemma GraphSet(c: Contract, d: ContractDraft, f: Field)
    requires NoProfiles(c)
    ensures f == Field(ContractFields[2], Arr(Map(NodeJson, c.nodes))) && d.nodes == Slice(Map(DraftNode, c.nodes), [])
            ==> SetContract(d.(nodes := Slice([], [])), f) == Ok(d)
    ensures f == Field(ContractFields[3], Arr(Map(EdgeJson, c.edges))) && d.edges == Slice(c.edges, [])
            ==> SetContract(d.(edges := Slice([], [])), f) == Ok(d)
  {
    NodesUndone(c.nodes);
    EdgesUndone(c.edges);
    if f.key == ContractFields[2] || f.key == ContractFields[3] { assert f.key in ContractFields; }
  }

  lemma InputsSet(c: Contract, d: ContractDraft, f: Field)
    ensures f == Field(ContractFields[4], Arr(Map(BindingJson, c.bindings))) && d.bindings == Slice(c.bindings, [])
            ==> SetContract(d.(bindings := Slice([], [])), f) == Ok(d)
    ensures f == Field(ContractFields[5], Arr(Map(SlotJson, c.slots))) && d.slots == Slice(c.slots, [])
            ==> SetContract(d.(slots := Slice([], [])), f) == Ok(d)
  {
    BindingsUndone(c.bindings);
    SlotsUndone(c.slots);
    if f.key == ContractFields[4] || f.key == ContractFields[5] { assert f.key in ContractFields; }
  }

  ghost predicate ContractStates(x: seq<ContractDraft>, d: ContractDraft) {
    && |x| == 7 && x[0] == ZeroContract && x[1] == x[0].(semVersion := d.semVersion)
    && x[2] == x[1].(canonVersion := d.canonVersion) && x[3] == x[2].(nodes := d.nodes) && x[4] == x[3].(edges := d.edges)
    && x[5] == x[4].(bindings := d.bindings) && x[6] == x[5].(slots := d.slots)
  }

  lemma ContractSteps(f: seq<Field>, x: seq<ContractDraft>, c: Contract)
    requires NoProfiles(c) && f == ContractJson(c).fields && ContractStates(x, DraftContract(c))
    ensures Steps(SetContract, f, x)
  {
    VersionsSet(x[1], f[0]);
    VersionsSet(x[2], f[1]);
    GraphSet(c, x[3], f[2]);
    GraphSet(c, x[4], f[3]);
    InputsSet(c, x[5], f[4]);
    InputsSet(c, x[6], f[5]);
    assert x[0] == x[1].(semVersion := "") && x[1] == x[2].(canonVersion := "") && x[2] == x[3].(nodes := Slice([], []));
    assert x[3] == x[4].(edges := Slice([], [])) && x[4] == x[5].(bindings := Slice([], []));
    assert x[5] == x[6].(slots := Slice([], []));
  }

  lemma DraftUndone(c: Contract)
    requires NoProfiles(c)
    ensures DecodeFields(SetContract, ContractJson(c).fields, ZeroContract) == Ok(DraftContract(c))
  {
    var d := DraftContract(c);
    var x1 := ZeroContract.(semVersion := d.semVersion);
    var x2 := x1.(canonVersion := d.canonVersion);
    var x3 := x2.(nodes := d.nodes);
    var x4 := x3.(edges := d.edges);
    var x5 := x4.(bindings := d.bindings);
    var x := [ZeroContract, x1, x2, x3, x4, x5, x5.(slots := d.slots)];
    ContractSteps(ContractJson(c).fields, x, c);
    DecodeSteps(SetContract, ContractJson(c).fields, x);
  }

  lemma ContractUndone(c: Contract)
    requires NoProfiles(c)
    ensures DecodeContract(ContractJson(c)) == Ok(c)
  {
    DraftUndone(c);
    DraftFinished(c);
  }

  // ---- The canonical text is plain ----------------------------------------------------

  ghost predicate StringFields(fields: seq<Field>, keys: seq<string>) {
    |fields| == |keys| && forall i :: 0 <= i < |keys| ==> fields[i].key == keys[i] && Plain(fields[i].value)
  }

  lemma {:induction false} DistinctKeysPlain(fields: seq<Field>, keys: seq<string>, seen: set<string>)
    requires StringFields(fields, keys) && NoDuplicates(keys)
    requires forall k :: k in keys ==> k !in seen
    ensures PlainFields(fields, seen)
  {
    if fields != [] {
      assert keys[0] in keys;
      forall k | k in keys[1..] ensures k !in seen + {keys[0]} {
        var i :| 0 <= i < |keys| - 1 && keys[1..][i] == k;
        assert keys[i+1] == k && k in keys;
      }
      DistinctKeysPlain(fields[1..], keys[1..], seen + {keys[0]});
    }
  }

  lemma PlainParam(p: FixedParameter)
    ensures Plain(ParamJson(p))
  {
    DistinctKeysPlain(ParamJson(p).fields, ["name", "value"], {});
  }

  lemma PlainNode(n: Node)
    ensures Plain(NodeJson(n))
  {
    forall i | 0 <= i < |n.params| ensures Plain(Map(ParamJson, n.params)[i]) { PlainParam(n.params[i]); }
    var keys := ["node_id", "tool_function_cas_hash", "fixed_parameters"];
    assert |keys[0]| == 7 && |keys[1]| == 22 && |keys[2]| == 16;
    DistinctKeysPlain(NodeJson(n).fields, keys, {});
  }

  lemma PlainEdge(e: DirectEdge)
    ensures Plain(EdgeJson(e))
  {
    var keys := ["from_node_id", "from_output_port", "to_node_id", "to_input_port"];
    assert |keys[0]| == 12 && |keys[1]| == 16 && |keys[2]| == 10 && |keys[3]| == 13;
    DistinctKeysPlain(EdgeJson(e).fields, keys, {});
  }

  lemma PlainBinding(b: AssetBinding)
    ensures Plain(BindingJson(b))
  {
    var keys := ["to_node_id", "to_input_port", "asset_id", "asset_revision_id", "member_key"];
    assert |keys[0]| == 10 && |keys[1]| == 13 && |keys[2]| == 8 && |keys[3]| == 17 && |keys[4]| == 10;
    assert keys[0][0] == 't' && keys[4][0] == 'm';
    DistinctKeysPlain(BindingJson(b).fields, keys, {});
  }

  lemma PlainSlot(s: InputSlot)
    ensures Plain(SlotJson(s))
  {
    var keys := ["slot_id", "to_node_id", "to_input_port"];
    assert |keys[0]| == 7 && |keys[1]| == 10 && |keys[2]| == 13;
    DistinctKeysPlain(SlotJson(s).fields, keys, {});
  }

  lemma PlainLists(c: Contract)
    ensures Plain(Arr(Map(NodeJson, c.nodes))) && Plain(Arr(Map(EdgeJson, c.edges)))
    ensures Plain(Arr(Map(BindingJson, c.bindings))) && Plain(Arr(Map(SlotJson, c.slots)))
  {
    forall i | 0 <= i < |c.nodes| ensures Plain(Map(NodeJson, c.nodes)[i]) { PlainNode(c.nodes[i]); }
    forall i | 0 <= i < |c.edges| ensures Plain(Map(EdgeJson, c.edges)[i]) { PlainEdge(c.edges[i]); }
    forall i | 0 <= i < |c.bindings| ensures Plain(Map(BindingJson, c.bindings)[i]) { PlainBinding(c.bindings[i]); }
    forall i | 0 <= i < |c.slots| ensures Plain(Map(SlotJson, c.slots)[i]) { PlainSlot(c.slots[i]); }
  }

  lemma PlainContract(c: Contract)
    ensures Plain(ContractJson(c))
  {
    PlainLists(c);
    var keys := ["semantic_derivation_version", "canonicalization_version", "nodes", "direct_edges",
                 "reusable_asset_bindings", "external_input_slots"];
    assert |keys[0]| == 27 && |keys[1]| == 24 && |keys[2]| == 5 && |keys[3]| == 12 && |keys[4]| == 23 && |keys[5]| == 20;
    DistinctKeysPlain(ContractJson(c).fields, keys, {});
  }

  // ---- The canonical text identifies the contract -------------------------------------

  /** Parsing canonical text yields the sorted contract. In particular the re-parse that
      follows canonicalization cannot fail. */
  lemma CanonicalReadsBack(c: Contract)
    ensures Parse(CanonicalText(c)) == Ok(Sorted(c))
  {
    PlainContract(Sorted(c));
    PrintedIsPaired(ContractJson(Sorted(c)));
    PrintReadsBack(ContractJson(Sorted(c)));
    ContractUndone(Sorted(c));
    ParsedDocument(CanonicalText(c));
  }

  lemma WrittenTwice(n: Node)
    ensures WrittenNode(WrittenNode(n)) == WrittenNode(n)
  {
    SortSorted(n.params, ParamKey);
    SortIdempotent(Sort(n.params, ParamKey), ParamKey);
  }

  /** Sorting is done once: the sorted contract has the same canonical text. */
  lemma SortedTwice(c: Contract)
    ensures Sorted(Sorted(c)) == Sorted(c)
    ensures CanonicalText(Sorted(c)) == CanonicalText(c)
  {
    var nodes := Sort(c.nodes, NodeKey);
    var written := Map(WrittenNode, nodes);
    SortSorted(c.nodes, NodeKey);
    assert SortedBy(written, NodeKey) by {
      forall i, j | 0 <= i < j < |written| ensures !LessKeys(NodeKey(written[j]), NodeKey(written[i])) {
        assert !LessKeys(NodeKey(nodes[j]), NodeKey(nodes[i]));
      }
    }
    SortIdempotent(written, NodeKey);
    forall i | 0 <= i < |nodes| ensures Map(WrittenNode, written)[i] == written[i] { WrittenTwice(nodes[i]); }
    assert Map(WrittenNode, written) == written;
    SortSorted(c.edges, EdgeKey);
    SortIdempotent(Sort(c.edges, EdgeKey), EdgeKey);
    SortSorted(c.bindings, BindingKey);
    SortIdempotent(Sort(c.bindings, BindingKey), BindingKey);
    SortSorted(c.slots, SlotKey);
    SortIdempotent(Sort(c.slots, SlotKey), SlotKey);
  }

  /** A node up to the order of its parameters. */
  datatype NodeForm = NodeForm(nodeID: string, casHash: string, params: multiset<FixedParameter>)

  function FormOf(n: Node): NodeForm { NodeForm(n.nodeID, n.casHash, multiset(n.params)) }

  /** Equal up to reordering the four lists and each node's parameters. */
  ghost predicate SameUpToOrder(a: Contract, b: Contract) {
    && a.semVersion == b.semVersion && a.canonVersion == b.canonVersion
    && multiset(Map(FormOf, a.nodes)) == multiset(Map(FormOf, b.nodes))
    && multiset(a.edges) == multiset(b.edges)
    && multiset(a.bindings) == multiset(b.bindings)
    && multiset(a.slots) == multiset(b.slots)
  }

  /** Distinct node ids, and distinct parameter names within each node. */
  ghost predicate DistinctNames(c: Contract) {
    && NoDuplicates(NodeIDs(c.nodes))
    && forall n :: n in c.nodes ==> NoDuplicates(ParamNames(n.params))
  }

  /** Equal canonical text always means equal up to order. */
  lemma CanonicalInjective(a: Contract, b: Contract)
    requires CanonicalText(a) == CanonicalText(b)
    ensures SameUpToOrder(a, b)
  {
    CanonicalReadsBack(a);
    CanonicalReadsBack(b);
    SortedKeepsForm(a);
    SortedKeepsForm(b);
  }

  lemma SortedKeepsForm(c: Contract)
    ensures SameUpToOrder(c, Sorted(c))
  {
    var nodes := Sort(c.nodes, NodeKey);
    MapPermutation(FormOf, c.nodes, nodes);
    forall i | 0 <= i < |nodes| ensures Map(FormOf, Map(WrittenNode, nodes))[i] == Map(FormOf, nodes)[i] {
      assert multiset(Sort(nodes[i].params, ParamKey)) == multiset(nodes[i].params);
    }
    assert Map(FormOf, Map(WrittenNode, nodes)) == Map(FormOf, nodes);
  }

  lemma NamesInjective(params: seq<FixedParameter>)
    requires NoDuplicates(ParamNames(params))
    ensures KeyInjective(params, ParamKey)
  {
    forall p: FixedParameter, q: FixedParameter | ParamKey(p) == ParamKey(q) ensures p.name == q.name {
      assert ParamKey(p)[0] == ParamKey(q)[0];
    }
    DistinctInjective(ParamNameOf, params, ParamKey);
  }

  lemma WrittenInjective(nodes: seq<Node>)
    requires NoDuplicates(NodeIDs(nodes))
    ensures KeyInjective(Map(WrittenNode, nodes), NodeKey)
  {
    assert NodeIDs(Map(WrittenNode, nodes)) == NodeIDs(nodes);
    forall x: Node, y: Node | NodeKey(x) == NodeKey(y) ensures x.nodeID == y.nodeID {
      assert NodeKey(x)[0] == NodeKey(y)[0];
    }
    DistinctInjective(NodeIDOf, Map(WrittenNode, nodes), NodeKey);
  }

  lemma NodesSortAlike(a: seq<Node>, b: seq<Node>)
    requires multiset(Map(FormOf, a)) == multiset(Map(FormOf, b))
    requires NoDuplicates(NodeIDs(a))
    requires forall n :: n in a ==> NoDuplicates(ParamNames(n.params))
    ensures Map(WrittenNode, Sort(a, NodeKey)) == Map(WrittenNode, Sort(b, NodeKey))
  {
    forall x, y | x in a && y in b && FormOf(x) == FormOf(y) ensures WrittenNode(x) == WrittenNode(y) {
      NamesInjective(x.params);
      SortPermutation(x.params, y.params, ParamKey);
    }
    MapFactor(FormOf, WrittenNode, a, b);
    WrittenInjective(a);
    SortPermutation(Map(WrittenNode, a), Map(WrittenNode, b), NodeKey);
    SortMap(WrittenNode, a, NodeKey);
    SortMap(WrittenNode, b, NodeKey);
  }

  lemma KeysWhole(c: Contract)
    ensures KeyInjective(c.edges, EdgeKey) && KeyInjective(c.bindings, BindingKey) && KeyInjective(c.slots, SlotKey)
  {
    forall x, y | x in c.edges && y in c.edges && EdgeKey(x) == EdgeKey(y) ensures x == y {
      assert EdgeKey(x)[0] == EdgeKey(y)[0] && EdgeKey(x)[1] == EdgeKey(y)[1];
      assert EdgeKey(x)[2] == EdgeKey(y)[2] && EdgeKey(x)[3] == EdgeKey(y)[3];
    }
    forall x, y | x in c.bindings && y in c.bindings && BindingKey(x) == BindingKey(y) ensures x == y {
      var k, l := BindingKey(x), BindingKey(y);
      assert k[0] == l[0] && k[1] == l[1] && k[2] == l[2] && k[3] == l[3] && k[4] == l[4];
    }
    forall x, y | x in c.slots && y in c.slots && SlotKey(x) == SlotKey(y) ensures x == y {
      assert SlotKey(x)[0] == SlotKey(y)[0] && SlotKey(x)[1] == SlotKey(y)[1] && SlotKey(x)[2] == SlotKey(y)[2];
    }
  }

  /** Authoring order does not show in the canonical form. */
  lemma SortedAlike(a: Contract, b: Contract)
    requires SameUpToOrder(a, b) && DistinctNames(a)
    ensures Sorted(a) == Sorted(b)
  {
    NodesSortAlike(a.nodes, b.nodes);
    KeysWhole(a);
    SortPermutation(a.edges, b.edges, EdgeKey);
    SortPermutation(a.bindings, b.bindings, BindingKey);
    SortPermutation(a.slots, b.slots, SlotKey);
  }

  /** Canonical bytes identify the contract. */
  lemma CanonicalIdentifies(a: Contract, b: Contract)
    requires DistinctNames(a)
    ensures CanonicalText(a) == CanonicalText(b) <==> SameUpToOrder(a, b)
  {
    if CanonicalText(a) == CanonicalText(b) { CanonicalInjective(a, b); }
    if SameUpToOrder(a, b) { SortedAlike(a, b); }
  }
}
