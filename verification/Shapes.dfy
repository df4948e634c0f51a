/** Which documents the contract decoder accepts, and when it reads a field twice. */
module Shapes {
  import opened Prelude
  import opened Ordering
  import opened Contracts
  import opened Json
  import opened Surrogates
  import opened FieldNames
  import opened Canonical

  // ---- The shape of a contract document -----------------------------------------------

  /** What stands where: a string, a list, or an object with these fields. */
  datatype Shape = Text | ListOf(element: Shape) | Record(names: seq<string>, shapes: seq<Shape>)

  ghost predicate Conforms(j: Json, shape: Shape)
    decreases shape, 0
  {
    match shape
    case Text => j.Str?
    case ListOf(element) => j.Arr? && forall x :: x in j.items ==> Conforms(x, element)
    case Record(names, shapes) => j.Obj? && forall f :: f in j.fields ==> FitsRecord(f, names, shapes)
  }

  /** The member is a field of the record, with a value of that field's shape. */
  ghost predicate FitsRecord(f: Field, names: seq<string>, shapes: seq<Shape>)
    decreases shapes, 1
  {
    exists i :: 0 <= i < |names| && i < |shapes| && names[i] == FieldOf(f.key, names) && Conforms(f.value, shapes[i])
  }

  const ParamShape := Record(ParamFields, [Text, Text])
  const NodeShape := Record(NodeFields, [Text, Text, Text, ListOf(ParamShape)])
  const EdgeShape := Record(EdgeFields, [Text, Text, Text, Text])
  const BindingShape := Record(BindingFields, [Text, Text, Text, Text, Text])
  const SlotShape := Record(SlotFields, [Text, Text, Text])
  const ContractShape := Record(ContractFields, [Text, Text, ListOf(NodeShape), ListOf(EdgeShape), ListOf(BindingShape),
                                                 ListOf(SlotShape)])

  // ---- The decoder accepts exactly the documents of that shape ------------------------

  /** What the decoder starts from does not matter. */
  ghost predicate Decodes<T(!new)>(decode: (T, Json) -> Result<T>, shape: Shape) {
    forall x, j :: decode(x, j).Ok? <==> Conforms(j, shape)
  }

  /** Whether a member is taken does not depend on those before it. */
  ghost predicate Assigns<T(!new)>(assign: (T, Field) -> Result<T>, names: seq<string>, shapes: seq<Shape>) {
    forall x, f :: assign(x, f).Ok? <==> FitsRecord(f, names, shapes)
  }

  lemma {:induction false} ElementsDecode<T(!new)>(decode: (T, Json) -> Result<T>, shape: Shape, kept: seq<T>, zero: T,
                                                   items: seq<Json>)
    requires Decodes(decode, shape)
    ensures DecodeAll(decode, kept, zero, items).Ok? <==> forall x :: x in items ==> Conforms(x, shape)
  {
    if items != [] {
      assert items == [items[0]] + items[1..];
      assert decode(if kept == [] then zero else kept[0], items[0]).Ok? <==> Conforms(items[0], shape);
      ElementsDecode(decode, shape, if kept == [] then [] else kept[1..], zero, items[1..]);
    }
  }

  lemma ListDecodes<T(!new)>(decode: (T, Json) -> Result<T>, shape: Shape, slice: Slice<T>, zero: T, j: Json)
    requires Decodes(decode, shape)
    ensures DecodeList(decode, slice, zero, j).Ok? <==> Conforms(j, ListOf(shape))
  {
    if j.Arr? { ElementsDecode(decode, shape, slice.now + slice.spare, zero, j.items); }
  }

  lemma {:induction false} MembersDecode<T(!new)>(assign: (T, Field) -> Result<T>, names: seq<string>, shapes: seq<Shape>,
                                                  fields: seq<Field>, zero: T)
    requires Assigns(assign, names, shapes)
    ensures DecodeFields(assign, fields, zero).Ok? <==> forall f :: f in fields ==> FitsRecord(f, names, shapes)
  {
    if fields != [] {
      assert fields == [fields[0]] + fields[1..];
      assert assign(zero, fields[0]).Ok? <==> FitsRecord(fields[0], names, shapes);
      if assign(zero, fields[0]).Ok? {
        MembersDecode(assign, names, shapes, fields[1..], assign(zero, fields[0]).value);
      }
    }
  }

  lemma RecordDecodes<T(!new)>(assign: (T, Field) -> Result<T>, names: seq<string>, shapes: seq<Shape>, start: T, j: Json)
    requires Assigns(assign, names, shapes)
    ensures DecodeObject(assign, start, j).Ok? <==> Conforms(j, Record(names, shapes))
  {
    if j.Obj? { MembersDecode(assign, names, shapes, j.fields, start); }
  }

  // ---- No two names of a record are spellings of one another --------------------------

  lemma ParamNamesApart()
    ensures FoldedApart(ParamFields)
  {
    var f := ParamFields;
    assert |f[0]| == 4 && |f[1]| == 5;
  }

  lemma NodeNamesApart()
    ensures FoldedApart(NodeFields)
  {
    var f := NodeFields;
    assert |f[0]| == 7 && |f[1]| == 22 && |f[2]| == 19 && |f[3]| == 16;
  }

  lemma EdgeNamesApart()
    ensures FoldedApart(EdgeFields)
  {
    var f := EdgeFields;
    assert |f[0]| == 12 && |f[1]| == 16 && |f[2]| == 10 && |f[3]| == 13;
  }

  lemma BindingNamesApart()
    ensures FoldedApart(BindingFields)
  {
    var f := BindingFields;
    assert |f[0]| == 10 && |f[1]| == 13 && |f[2]| == 8 && |f[3]| == 17 && |f[4]| == 10;
    assert FoldText(f[0])[0] == 'T' && FoldText(f[4])[0] == 'M';
  }

  lemma SlotNamesApart()
    ensures FoldedApart(SlotFields)
  {
    var f := SlotFields;
    assert |f[0]| == 7 && |f[1]| == 10 && |f[2]| == 13;
  }

  lemma ContractNamesApart()
    ensures FoldedApart(ContractFields)
  {
    var f := ContractFields;
    assert |f[0]| == 27 && |f[1]| == 24 && |f[2]| == 5 && |f[3]| == 12 && |f[4]| == 23 && |f[5]| == 20;
  }

  // ---- Field by field -----------------------------------------------------------------

  /** Where no two names are alike a member fits by the shape at its own name. */
  lemma FitsRecordAt(f: Field, names: seq<string>, shapes: seq<Shape>, i: nat)
    requires i < |names| && |names| == |shapes| && FoldedApart(names) && FieldOf(f.key, names) == names[i]
    ensures FitsRecord(f, names, shapes) <==> Conforms(f.value, shapes[i])
  {
  }

  lemma ParamAssigns()
    ensures Assigns(SetParam, ParamFields, ParamShape.shapes)
  {
    ParamNamesApart();
    forall x, f ensures SetParam(x, f).Ok? <==> FitsRecord(f, ParamFields, ParamShape.shapes) {
      var names, key := ParamFields, FieldOf(f.key, ParamFields);
      if i :| 0 <= i < |names| && key == names[i] { FitsRecordAt(f, names, ParamShape.shapes, i); }
    }
  }

  lemma ParamDecodes()
    ensures Decodes(DecodeParam, ParamShape)
  {
    ParamAssigns();
    forall x, j ensures DecodeParam(x, j).Ok? <==> Conforms(j, ParamShape) {
      RecordDecodes(SetParam, ParamFields, ParamShape.shapes, x, j);
    }
  }

  lemma EdgeMember(e: DirectEdge, f: Field, i: nat)
    requires i < |EdgeFields| && FieldOf(f.key, EdgeFields) == EdgeFields[i]
    ensures SetEdge(e, f).Ok? <==> Conforms(f.value, EdgeShape.shapes[i])
  {
    assert EdgeShape.shapes[i] == Text;
  }

  lemma EdgeUnknown(e: DirectEdge, f: Field)
    requires FieldOf(f.key, EdgeFields) !in EdgeFields
    ensures SetEdge(e, f).Err?
  {
    var names := EdgeFields;
    assert names[0] in names && names[1] in names && names[2] in names && names[3] in names;
  }

  lemma EdgeAssigns()
    ensures Assigns(SetEdge, EdgeFields, EdgeShape.shapes)
  {
    EdgeNamesApart();
    forall e, f ensures SetEdge(e, f).Ok? <==> FitsRecord(f, EdgeFields, EdgeShape.shapes) {
      var names, key := EdgeFields, FieldOf(f.key, EdgeFields);
      if i :| 0 <= i < |names| && key == names[i] {
        EdgeMember(e, f, i);
        FitsRecordAt(f, names, EdgeShape.shapes, i);
      } else {
        EdgeUnknown(e, f);
      }
    }
  }

  lemma EdgeDecodes()
    ensures Decodes(DecodeEdge, EdgeShape)
  {
    EdgeAssigns();
    forall x, j ensures DecodeEdge(x, j).Ok? <==> Conforms(j, EdgeShape) {
      RecordDecodes(SetEdge, EdgeFields, EdgeShape.shapes, x, j);
    }
  }

  lemma BindingMember(b: AssetBinding, f: Field, i: nat)
    requires i < |BindingFields| && FieldOf(f.key, BindingFields) == BindingFields[i]
    ensures SetBinding(b, f).Ok? <==> Conforms(f.value, BindingShape.shapes[i])
  {
    assert BindingShape.shapes[i] == Text;
  }

  lemma BindingUnknown(b: AssetBinding, f: Field)
    requires FieldOf(f.key, BindingFields) !in BindingFields
    ensures SetBinding(b, f).Err?
  {
    var names := BindingFields;
    assert names[0] in names && names[1] in names && names[2] in names && names[3] in names && names[4] in names;
  }

  lemma BindingAssigns()
    ensures Assigns(SetBinding, BindingFields, BindingShape.shapes)
  {
    BindingNamesApart();
    forall b, f ensures SetBinding(b, f).Ok? <==> FitsRecord(f, BindingFields, BindingShape.shapes) {
      var names, key := BindingFields, FieldOf(f.key, BindingFields);
      if i :| 0 <= i < |names| && key == names[i] {
        BindingMember(b, f, i);
        FitsRecordAt(f, names, BindingShape.shapes, i);
      } else {
        BindingUnknown(b, f);
      }
    }
  }

  lemma BindingDecodes()
    ensures Decodes(DecodeBinding, BindingShape)
  {
    BindingAssigns();
    forall x, j ensures DecodeBinding(x, j).Ok? <==> Conforms(j, BindingShape) {
      RecordDecodes(SetBinding, BindingFields, BindingShape.shapes, x, j);
    }
  }

  lemma SlotAssigns()
    ensures Assigns(SetSlot, SlotFields, SlotShape.shapes)
  {
    SlotNamesApart();
    forall x, f ensures SetSlot(x, f).Ok? <==> FitsRecord(f, SlotFields, SlotShape.shapes) {
      var names, key := SlotFields, FieldOf(f.key, SlotFields);
      if i :| 0 <= i < |names| && key == names[i] { FitsRecordAt(f, names, SlotShape.shapes, i); }
    }
  }

  lemma SlotDecodes()
    ensures Decodes(DecodeSlot, SlotShape)
  {
    SlotAssigns();
    forall x, j ensures DecodeSlot(x, j).Ok? <==> Conforms(j, SlotShape) {
      RecordDecodes(SetSlot, SlotFields, SlotShape.shapes, x, j);
    }
  }

  lemma NodeMember(n: NodeDraft, f: Field, i: nat)
    requires i < |NodeFields| && FieldOf(f.key, NodeFields) == NodeFields[i]
    ensures SetNode(n, f).Ok? <==> Conforms(f.value, NodeShape.shapes[i])
  {
    NodeNamesApart();
    assert NoDuplicates(NodeFields);
    if i == 3 {
      ParamDecodes();
      ListDecodes(DecodeParam, ParamShape, n.params, ZeroParam, f.value);
    }
  }

  lemma NodeUnknown(n: NodeDraft, f: Field)
    requires FieldOf(f.key, NodeFields) !in NodeFields
    ensures SetNode(n, f).Err?
  {
    var names := NodeFields;
    assert names[0] in names && names[1] in names && names[2] in names && names[3] in names;
  }

  lemma NodeAssigns()
    ensures Assigns(SetNode, NodeFields, NodeShape.shapes)
  {
    NodeNamesApart();
    forall n, f ensures SetNode(n, f).Ok? <==> FitsRecord(f, NodeFields, NodeShape.shapes) {
      var names, key := NodeFields, FieldOf(f.key, NodeFields);
      if i :| 0 <= i < |names| && key == names[i] {
        NodeMember(n, f, i);
        FitsRecordAt(f, names, NodeShape.shapes, i);
      } else {
        NodeUnknown(n, f);
      }
    }
  }

  lemma NodeDecodes()
    ensures Decodes(DecodeNode, NodeShape)
  {
    NodeAssigns();
    forall x, j ensures DecodeNode(x, j).Ok? <==> Conforms(j, NodeShape) {
      RecordDecodes(SetNode, NodeFields, NodeShape.shapes, x, j);
    }
  }

  lemma ContractMember(c: ContractDraft, f: Field, i: nat)
    requires i < |ContractFields| && FieldOf(f.key, ContractFields) == ContractFields[i]
    ensures SetContract(c, f).Ok? <==> Conforms(f.value, ContractShape.shapes[i])
  {
    ContractNamesApart();
    assert NoDuplicates(ContractFields);
    match i
    case 2 => NodeDecodes(); ListDecodes(DecodeNode, NodeShape, c.nodes, ZeroNode, f.value);
    case 3 => EdgeDecodes(); ListDecodes(DecodeEdge, EdgeShape, c.edges, ZeroEdge, f.value);
    case 4 => BindingDecodes(); ListDecodes(DecodeBinding, BindingShape, c.bindings, ZeroBinding, f.value);
    case 5 => SlotDecodes(); ListDecodes(DecodeSlot, SlotShape, c.slots, ZeroSlot, f.value);
    case _ =>
  }

  lemma ContractUnknown(c: ContractDraft, f: Field)
    requires FieldOf(f.key, ContractFields) !in ContractFields
    ensures SetContract(c, f).Err?
  {
    var names := ContractFields;
    assert names[0] in names && names[1] in names && names[2] in names && names[3] in names && names[4] in names && names[5] in names;
  }

  lemma ContractAssigns()
    ensures Assigns(SetContract, ContractFields, ContractShape.shapes)
  {
    ContractNamesApart();
    forall c, f ensures SetContract(c, f).Ok? <==> FitsRecord(f, ContractFields, ContractShape.shapes) {
      var names, key := ContractFields, FieldOf(f.key, ContractFields);
      if i :| 0 <= i < |names| && key == names[i] {
        ContractMember(c, f, i);
        FitsRecordAt(f, names, ContractShape.shapes, i);
      } else {
        ContractUnknown(c, f);
      }
    }
  }

  lemma ContractDecodes(j: Json)
    ensures DecodeContract(j).Ok? <==> Conforms(j, ContractShape)
  {
    ContractAssigns();
    RecordDecodes(SetContract, ContractFields, ContractShape.shapes, ZeroContract, j);
  }

  /** A body is accepted exactly if its escapes are paired, it is a strict document, and the
      document has the shape of a contract: only known fields at every depth, in any letter
      case and any order, each optional, each with a value of its own shape. */
  lemma AcceptedExactly(text: string)
    ensures Parse(text).Ok?
            <==> Paired(Tokens(text)) && ParseDocument(text).Ok? && Conforms(ParseDocument(text).value, ContractShape)
  {
    ParsedDocument(text);
    if ParseDocument(text).Ok? { ContractDecodes(ParseDocument(text).value); }
  }

  // ---- Fields given twice -------------------------------------------------------------

  function FoldedKey(f: Field): string { FoldText(f.key) }

  /** No record in the document is given one of its fields twice. */
  ghost predicate GivenOnce(j: Json, shape: Shape)
    decreases shape, 0
  {
    match shape
    case Text => true
    case ListOf(element) => j.Arr? ==> forall x :: x in j.items ==> GivenOnce(x, element)
    case Record(names, shapes) =>
      j.Obj? ==>
        && NoDuplicates(Map((f: Field) => FieldOf(f.key, names), j.fields))
        && forall f :: f in j.fields ==> GivenOnceIn(f, names, shapes)
  }

  ghost predicate GivenOnceIn(f: Field, names: seq<string>, shapes: seq<Shape>)
    decreases shapes, 1
  {
    forall i :: 0 <= i < |names| && i < |shapes| && names[i] == FieldOf(f.key, names) ==> GivenOnce(f.value, shapes[i])
  }

  /** No object in the document has two keys that are spellings of one another. */
  ghost predicate KeysApart(j: Json)
    decreases j, 0
  {
    match j
    case Arr(items) => forall x :: x in items ==> KeysApart(x)
    case Obj(fields) => NoDuplicates(Map(FoldedKey, fields)) && forall f :: f in fields ==> KeysApart(f.value)
    case _ => true
  }

  /** No record of the shape has two names that are spellings of one another. */
  ghost predicate NamesApart(shape: Shape)
    decreases shape
  {
    match shape
    case Text => true
    case ListOf(element) => NamesApart(element)
    case Record(names, shapes) =>
      FoldedApart(names) && |names| == |shapes| && forall i :: 0 <= i < |shapes| ==> NamesApart(shapes[i])
  }

  lemma KeysOfRecord(fields: seq<Field>, names: seq<string>, shapes: seq<Shape>)
    requires FoldedApart(names) && forall f :: f in fields ==> FitsRecord(f, names, shapes)
    ensures NoDuplicates(Map((f: Field) => FieldOf(f.key, names), fields)) <==> NoDuplicates(Map(FoldedKey, fields))
  {
    var named, folded := Map((f: Field) => FieldOf(f.key, names), fields), Map(FoldedKey, fields);
    forall i, j | 0 <= i < j < |fields| ensures named[i] == named[j] <==> folded[i] == folded[j] {
      assert fields[i] in fields && fields[j] in fields;
      SameField(fields[i].key, fields[j].key, names);
    }
  }

  lemma {:induction false} GivenOnceExact(j: Json, shape: Shape)
    requires Conforms(j, shape) && NamesApart(shape)
    ensures GivenOnce(j, shape) <==> KeysApart(j)
    decreases shape
  {
    match shape
    case Text =>
    case ListOf(element) =>
      forall x | x in j.items ensures GivenOnce(x, element) <==> KeysApart(x) { GivenOnceExact(x, element); }
    case Record(names, shapes) =>
      KeysOfRecord(j.fields, names, shapes);
      forall f | f in j.fields ensures GivenOnceIn(f, names, shapes) <==> KeysApart(f.value) {
        var i :| 0 <= i < |names| && i < |shapes| && names[i] == FieldOf(f.key, names) && Conforms(f.value, shapes[i]);
        GivenOnceExact(f.value, shapes[i]);
        assert forall k :: 0 <= k < |names| && names[k] == names[i] ==> k == i;
      }
  }

  lemma RecordApart(names: seq<string>, shapes: seq<Shape>)
    requires FoldedApart(names) && |names| == |shapes| && forall s :: s in shapes ==> NamesApart(s)
    ensures NamesApart(Record(names, shapes))
  {
  }

  lemma ShapeApart()
    ensures NamesApart(ContractShape)
  {
    ParamNamesApart();
    NodeNamesApart();
    EdgeNamesApart();
    BindingNamesApart();
    SlotNamesApart();
    ContractNamesApart();
    RecordApart(ParamFields, ParamShape.shapes);
    RecordApart(NodeFields, NodeShape.shapes);
    RecordApart(EdgeFields, EdgeShape.shapes);
    RecordApart(BindingFields, BindingShape.shapes);
    RecordApart(SlotFields, SlotShape.shapes);
    RecordApart(ContractFields, ContractShape.shapes);
  }

  /** The parser promises to refuse repeated keys and never to let a later one win in silence.
      For an accepted body that holds exactly if no object has two keys that differ only in
      letter case. */
  lemma OverwritesExact(text: string)
    requires Parse(text).Ok?
    ensures ParseDocument(text).Ok?
    ensures GivenOnce(ParseDocument(text).value, ContractShape) <==> KeysApart(ParseDocument(text).value)
  {
    AcceptedExactly(text);
    ShapeApart();
    GivenOnceExact(ParseDocument(text).value, ContractShape);
  }

  lemma {:induction false} LastMember<T>(assign: (T, Field) -> Result<T>, fields: seq<Field>, last: Field, zero: T)
    requires DecodeFields(assign, fields, zero).Ok?
    ensures DecodeFields(assign, fields + [last], zero) == assign(DecodeFields(assign, fields, zero).value, last)
  {
    if fields == [] {
      assert fields + [last] == [last];
    } else {
      assert (fields + [last])[1..] == fields[1..] + [last];
      LastMember(assign, fields[1..], last, assign(zero, fields[0]).value);
    }
  }

  /** A contract document with one more member, whose key is no field's exact name. */
  function GivenAgain(c: Contract, key: string, value: Json): Json {
    Obj(ContractJson(c).fields + [Field(key, value)])
  }

  lemma GivenAgainIsPlain(c: Contract, key: string, value: Json)
    requires key !in ContractFields && Plain(value)
    ensures Plain(GivenAgain(c, key, value))
  {
    PlainLists(c);
    ContractNamesApart();
    DistinctKeysPlain(GivenAgain(c, key, value).fields, ContractFields + [key], {});
  }

  /** Its text is read as the contract with that member decoded onto it. */
  lemma GivenAgainParses(c: Contract, key: string, value: Json)
    requires NoProfiles(c) && key !in ContractFields && Plain(value)
    requires SetContract(DraftContract(c), Field(key, value)).Ok?
    ensures Parse(Print(GivenAgain(c, key, value))) == Ok(FinishedContract(SetContract(DraftContract(c), Field(key, value)).value))
  {
    var text := Print(GivenAgain(c, key, value));
    GivenAgainIsPlain(c, key, value);
    PrintedIsPaired(GivenAgain(c, key, value));
    PrintReadsBack(GivenAgain(c, key, value));
    DraftUndone(c);
    LastMember(SetContract, ContractJson(c).fields, Field(key, value), ZeroContract);
    ParsedDocument(text);
  }

  lemma RespelledField(key: string, i: nat)
    requires i < |ContractFields| && FoldText(key) == FoldText(ContractFields[i])
    ensures FieldOf(key, ContractFields) == ContractFields[i]
  {
    ContractNamesApart();
    FieldNamed(key, ContractFields);
    assert ContractFields[i] in ContractFields;
  }

  /** Such a body exists for every contract: the derivation version, given a second time in
      other letter case, is accepted, and the second one stands. */
  lemma RespelledWins(c: Contract, key: string, value: string)
    requires NoProfiles(c) && key !in ContractFields && FoldText(key) == FoldText(ContractFields[0])
    ensures Parse(Print(GivenAgain(c, key, Str(value)))) == Ok(c.(semVersion := value))
  {
    RespelledField(key, 0);
    assert SetContract(DraftContract(c), Field(key, Str(value))) == Ok(DraftContract(c).(semVersion := value));
    GivenAgainParses(c, key, Str(value));
    DraftFinished(c);
  }

  // ---- Lists given twice --------------------------------------------------------------

  /** A node that gives nothing but its id. */
  function OnlyID(id: string): Json { Obj([Field("node_id", Str(id))]) }

  lemma OnlyIDDecodes(n: NodeDraft, id: string)
    ensures DecodeNode(n, OnlyID(id)) == Ok(n.(nodeID := id)) && Plain(Arr([OnlyID(id)]))
  {
    var f := Field("node_id", Str(id));
    assert NodeFields[0] in NodeFields;
    assert SetNode(n, f) == Ok(n.(nodeID := id));
    DecodeSteps(SetNode, [f], [n, n.(nodeID := id)]);
    DistinctKeysPlain([f], ["node_id"], {});
    assert Plain(OnlyID(id));
  }

  lemma OnlyIDsDecode(c: ContractDraft, id: string)
    requires c.nodes.now != []
    ensures DecodeList(DecodeNode, c.nodes, ZeroNode, Arr([OnlyID(id)])).Ok?
    ensures DecodeList(DecodeNode, c.nodes, ZeroNode, Arr([OnlyID(id)])).value.now == [c.nodes.now[0].(nodeID := id)]
  {
    var kept, items := c.nodes.now + c.nodes.spare, [OnlyID(id)];
    OnlyIDDecodes(kept[0], id);
    OneElement(DecodeNode, kept, ZeroNode, items);
  }

  lemma OneElement<T>(decode: (T, Json) -> Result<T>, kept: seq<T>, zero: T, items: seq<Json>)
    requires kept != [] && |items| == 1 && decode(kept[0], items[0]).Ok?
    ensures DecodeAll(decode, kept, zero, items) == Ok([decode(kept[0], items[0]).value])
  {
    assert items[1..] == [];
    var x := decode(kept[0], items[0]).value;
    assert DecodeAll(decode, kept[1..], zero, items[1..]) == Ok([]);
    assert [x] + [] == [x];
  }

  /** And a list that is given again does not replace the first one but is decoded onto its
      elements: one node that gives nothing but an id takes every other field from the first
      node of the first list. */
  lemma RespelledListMerges(c: Contract, key: string, id: string)
    requires NoProfiles(c) && c.nodes != [] && key !in ContractFields && FoldText(key) == FoldText(ContractFields[2])
    ensures Parse(Print(GivenAgain(c, key, Arr([OnlyID(id)])))) == Ok(c.(nodes := [c.nodes[0].(nodeID := id)]))
  {
    var d, value := DraftContract(c), Arr([OnlyID(id)]);
    RespelledField(key, 2);
    OnlyIDDecodes(ZeroNode, id);
    OnlyIDsDecode(d, id);
    var slice := DecodeList(DecodeNode, d.nodes, ZeroNode, value).value;
    assert SetContract(d, Field(key, value)) == Ok(d.(nodes := slice));
    GivenAgainParses(c, key, value);
    DraftFinished(c);
    assert Map(FinishedNode, slice.now) == [c.nodes[0].(nodeID := id)];
  }

  // ---- Keys that meet the conditions --------------------------------------------------

  /** The capital letter is such a spelling. */
  lemma CapitalSpelling()
    ensures var key := "S" + ContractFields[0][1..];
            key !in ContractFields && FoldText(key) == FoldText(ContractFields[0])
    ensures var key := "N" + ContractFields[2][1..];
            key !in ContractFields && FoldText(key) == FoldText(ContractFields[2])
  {
    var f := ContractFields;
    var version, nodes := "S" + f[0][1..], "N" + f[2][1..];
    assert version[0] == 'S' && nodes[0] == 'N';
    assert f[0][0] == 's' && f[1][0] == 'c' && f[2][0] == 'n' && f[3][0] == 'd' && f[4][0] == 'r' && f[5][0] == 'e';
  }
}
