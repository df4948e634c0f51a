/** What the strict walk makes of any JSON text: it reads the value, or reports the first null
    or repeated key in document order, whatever the whitespace and however strings are
    spelled. */
module StrictWalk {
  import opened Prelude
  import opened Json
  import opened Locality

  // ---- The first violation of a tree --------------------------------------------------

  /** In document order: a null where it stands, a repeated key before its value. */
  function Fault(j: Json): Option<Code>
    decreases j, 0
  {
    match j
    case Null => Some(SemanticNull)
    case Scalar(_) => None
    case Str(_) => None
    case Arr(items) => ItemsFault(items)
    case Obj(fields) => FieldsFault(fields, {})
  }

  function ItemsFault(items: seq<Json>): Option<Code>
    decreases items, 1
  {
    if items == [] then None
    else match Fault(items[0])
      case Some(code) => Some(code)
      case None => ItemsFault(items[1..])
  }

  function FieldsFault(fields: seq<Field>, seen: set<string>): Option<Code>
    decreases fields, 1
  {
    if fields == [] then None
    else if fields[0].key in seen then Some(Duplicate)
    else match Fault(fields[0].value)
      case Some(code) => Some(code)
      case None => FieldsFault(fields[1..], seen + {fields[0].key})
  }

  // ---- JSON texts ---------------------------------------------------------------------

  /** A JSON text with its whitespace: a string is kept as written, from behind its opening
      quote to its closing one; `blank` stands in an empty array or object. */
  datatype Laid =
    | LaidNull
    | LaidScalar(text: string)
    | LaidString(raw: string)
    | LaidArray(slots: seq<Slot>, blank: string)
    | LaidObject(members: seq<Member>, blank: string)

  datatype Slot = Slot(before: string, value: Laid, after: string)

  datatype Member = Member(lead: string, raw: string, mid: string, slot: Slot)

  function Text(l: Laid): string
    decreases l, 0
  {
    match l
    case LaidNull => "null"
    case LaidScalar(text) => text
    case LaidString(raw) => [Quote] + raw
    case LaidArray(slots, blank) => "[" + (if slots == [] then blank else SlotsText(slots)) + "]"
    case LaidObject(members, blank) => "{" + (if members == [] then blank else MembersText(members)) + "}"
  }

  function SlotText(s: Slot): string
    decreases s, 1
  {
    s.before + Text(s.value) + s.after
  }

  function SlotsText(slots: seq<Slot>): string
    decreases slots, 2
  {
    if slots == [] then ""
    else if |slots| == 1 then SlotText(slots[0])
    else SlotText(slots[0]) + "," + SlotsText(slots[1..])
  }

  function MemberText(m: Member): string
    decreases m, 2
  {
    m.lead + ([Quote] + m.raw) + m.mid + ":" + SlotText(m.slot)
  }

  function MembersText(members: seq<Member>): string
    decreases members, 3
  {
    if members == [] then ""
    else if |members| == 1 then MemberText(members[0])
    else MemberText(members[0]) + "," + MembersText(members[1..])
  }

  predicate Blank(s: string) { forall i :: 0 <= i < |s| ==> IsSpace(s[i]) }

  /** String content up to and including its closing quote. */
  predicate Content(raw: string) { ParseChars(raw).Ok? && ParseChars(raw).value.rest == "" }

  predicate ScalarText(text: string) {
    TakeScalar(text) == text && (text == "true" || text == "false" || IsNumber(text))
  }

  ghost predicate WellLaid(l: Laid)
    decreases l, 0
  {
    match l
    case LaidNull => true
    case LaidScalar(text) => ScalarText(text)
    case LaidString(raw) => Content(raw)
    case LaidArray(slots, blank) => Blank(blank) && forall i :: 0 <= i < |slots| ==> WellSlot(slots[i])
    case LaidObject(members, blank) => Blank(blank) && forall i :: 0 <= i < |members| ==> WellMember(members[i])
  }

  ghost predicate WellSlot(s: Slot)
    decreases s, 1
  {
    Blank(s.before) && Blank(s.after) && WellLaid(s.value)
  }

  ghost predicate WellMember(m: Member)
    decreases m, 2
  {
    Blank(m.lead) && Content(m.raw) && Blank(m.mid) && WellSlot(m.slot)
  }

  /** What a text stands for. */
  function Tree(l: Laid): Json
    decreases l, 0
  {
    match l
    case LaidNull => Null
    case LaidScalar(text) => Scalar(text)
    case LaidString(raw) => Str(StringOf(raw))
    case LaidArray(slots, _) => Arr(SlotTrees(slots))
    case LaidObject(members, _) => Obj(MemberTrees(members))
  }

  function StringOf(raw: string): string { if ParseChars(raw).Ok? then ParseChars(raw).value.value else "" }

  function SlotTrees(slots: seq<Slot>): seq<Json>
    decreases slots, 1
  {
    if slots == [] then [] else [Tree(slots[0].value)] + SlotTrees(slots[1..])
  }

  function MemberTrees(members: seq<Member>): seq<Field>
    decreases members, 1
  {
    if members == [] then []
    else [Field(StringOf(members[0].raw), Tree(members[0].slot.value))] + MemberTrees(members[1..])
  }

  // ---- Whitespace, words and strings --------------------------------------------------

  predicate Delimited(rest: string) { rest == "" || !ScalarChar(rest[0]) }

  lemma {:induction false} BlankSkipped(blank: string, t: string)
    requires Blank(blank)
    ensures SkipSpace(blank + t) == SkipSpace(t)
  {
    if blank == "" {
      assert blank + t == t;
    } else {
      assert (blank + t)[1..] == blank[1..] + t;
      BlankSkipped(blank[1..], t);
    }
  }

  lemma BlankTo(blank: string, c: char, t: string)
    requires Blank(blank) && !IsSpace(c)
    ensures SkipSpace(blank + ([c] + t)) == [c] + t
  {
    BlankSkipped(blank, [c] + t);
    FirstChar(c, t);
  }

  lemma BlankValue(blank: string, t: string)
    requires Blank(blank)
    ensures ParseValue(blank + t) == ParseValue(t)
  {
    BlankSkipped(blank, t);
  }

  lemma BlankDelimits(blank: string, c: char, t: string)
    requires Blank(blank) && !ScalarChar(c)
    ensures Delimited(blank + ([c] + t))
  {
    var s := blank + ([c] + t);
    if blank != "" { assert s[0] == blank[0]; } else { assert s[0] == c; }
  }

  lemma {:induction false} WordTaken(w: string, rest: string)
    requires TakeScalar(w) == w && Delimited(rest)
    ensures TakeScalar(w + rest) == w
  {
    if w == "" {
      assert w + rest == rest;
    } else {
      assert TakeScalar(w[1..]) == w[1..];
      assert (w + rest)[1..] == w[1..] + rest;
      WordTaken(w[1..], rest);
    }
  }

  /** What the first character of a text decides: white space is skipped, and a value begins only
      with a quote, a bracket, a sign, a digit or one of three letters. */
  lemma FirstCharacter(c: char, t: string)
    ensures c in {' ', '\t', '\n', '\r'} ==> ParseValue([c] + t) == ParseValue(t)
    ensures c !in {' ', '\t', '\n', '\r', '\"', '[', '{', '-', 't', 'f', 'n'} && !('0' <= c <= '9') ==> ParseValue([c] + t).Err?
  {
    var s := [c] + t;
    assert s[0] == c && s[1..] == t;
    if !IsSpace(c) { assert SkipSpace(s) == s; }
    if ScalarChar(c) { assert TakeScalar(s)[0] == c; }
  }

  lemma WordStands(w: string, rest: string)
    requires w != "" && TakeScalar(w) == w && Delimited(rest)
    ensures var s := w + rest; SkipSpace(s) == s && ScalarChar(s[0]) && TakeScalar(s) == w && s[|w|..] == rest
  {
    WordTaken(w, rest);
    assert (w + rest)[0] == w[0];
  }

  lemma NullRefused(rest: string)
    ensures ParseValue("null" + rest) == Err(SemanticNull)
  {
    assert ("null" + rest)[0] == 'n';
  }

  lemma ScalarRead(w: string, rest: string)
    requires ScalarText(w) && Delimited(rest)
    ensures ParseValue(w + rest) == Ok(Parsed(Scalar(w), rest))
  {
    if IsNumber(w) { NumberNotEmpty(w); }
    WordStands(w, rest);
  }

  lemma ContentRead(raw: string, rest: string)
    requires Content(raw)
    ensures ParseChars(raw + rest) == Ok(Parsed(StringOf(raw), rest))
  {
    CharsAppend(raw, rest);
    assert "" + rest == rest;
  }

  lemma StringRead(raw: string, rest: string)
    requires Content(raw)
    ensures ParseValue([Quote] + raw + rest) == Ok(Parsed(Str(StringOf(raw)), rest))
  {
    ContentRead(raw, rest);
    Assoc([Quote], raw, rest);
    FirstChar(Quote, raw + rest);
  }

  // ---- The verdict --------------------------------------------------------------------

  /** The value and what is left, or the first violation. */
  function Verdict<T>(fault: Option<Code>, value: T, rest: string): Result<Parsed<T>> {
    match fault
    case Some(code) => Err(code)
    case None => Ok(Parsed(value, rest))
  }

  lemma EmptyBracket(open: char, blank: string, close: char, rest: string)
    requires (open == '[' && close == ']') || (open == '{' && close == '}')
    requires Blank(blank)
    ensures ParseValue([open] + blank + [close] + rest) == Ok(Parsed(if open == '[' then Arr([]) else Obj([]), rest))
  {
    Assoc4([open], blank, [close], rest);
    BlankTo(blank, close, rest);
    FirstChar(open, blank + ([close] + rest));
    FirstChar(close, rest);
  }

  lemma FullArray(body: string, fault: Option<Code>, items: seq<Json>, rest: string)
    requires SkipSpace(body) != "" && SkipSpace(body)[0] != ']' && ParseItems(body) == Verdict(fault, items, rest)
    ensures ParseValue("[" + body) == Verdict(fault, Arr(items), rest)
  {
    FirstChar('[', body);
  }

  lemma FullObject(body: string, fault: Option<Code>, fields: seq<Field>, rest: string)
    requires SkipSpace(body) != "" && SkipSpace(body)[0] != '}' && ParseFields(body, {}) == Verdict(fault, fields, rest)
    ensures ParseValue("{" + body) == Verdict(fault, Obj(fields), rest)
  {
    FirstChar('{', body);
  }

  /** A value begins with a character that is neither blank nor closes anything. */
  lemma TextStarts(l: Laid)
    requires WellLaid(l)
    ensures Text(l) != "" && !IsSpace(Text(l)[0]) && Text(l)[0] !in {']', '}'}
  {
    match l
    case LaidScalar(text) => if IsNumber(text) { NumberNotEmpty(text); }
    case _ =>
  }

  lemma BlankThenText(blank: string, text: string, more: string)
    requires Blank(blank) && text != "" && !IsSpace(text[0])
    ensures SkipSpace(blank + text + more) == text + more && text + more != "" && (text + more)[0] == text[0]
  {
    Assoc(blank, text, more);
    BlankSkipped(blank, text + more);
  }

  /** Any JSON value text, before anything that does not continue it, is read as its tree or
      refused with the class of its first violation. */
  lemma {:induction false} ValueDecided(l: Laid, rest: string)
    requires WellLaid(l) && Delimited(rest)
    ensures ParseValue(Text(l) + rest) == Verdict(Fault(Tree(l)), Tree(l), rest)
    decreases l, 0
  {
    match l
    case LaidNull => NullRefused(rest);
    case LaidScalar(text) => ScalarRead(text, rest);
    case LaidString(raw) => StringRead(raw, rest);
    case LaidArray(slots, blank) =>
      if slots == [] {
        EmptyBracket('[', blank, ']', rest);
      } else {
        SlotsDecided(slots, rest);
        SlotsStart(slots, "]" + rest);
        Assoc4("[", SlotsText(slots), "]", rest);
        FullArray(SlotsText(slots) + ("]" + rest), ItemsFault(SlotTrees(slots)), SlotTrees(slots), rest);
      }
    case LaidObject(members, blank) =>
      if members == [] {
        EmptyBracket('{', blank, '}', rest);
      } else {
        MembersDecided(members, {}, rest);
        MembersStart(members, "}" + rest);
        Assoc4("{", MembersText(members), "}", rest);
        FullObject(MembersText(members) + ("}" + rest), FieldsFault(MemberTrees(members), {}), MemberTrees(members), rest);
      }
  }

  /** The text of a slot list, split after its first value. */
  lemma SlotsSplit(slots: seq<Slot>, rest: string) returns (tail: string)
    requires slots != []
    ensures SlotsText(slots) + ("]" + rest) == slots[0].before + (Text(slots[0].value) + (slots[0].after + tail))
    ensures tail == if |slots| == 1 then "]" + rest else "," + (SlotsText(slots[1..]) + ("]" + rest))
  {
    var s := slots[0];
    tail := if |slots| == 1 then "]" + rest else "," + (SlotsText(slots[1..]) + ("]" + rest));
    if |slots| > 1 { Assoc4(SlotText(s), ",", SlotsText(slots[1..]), "]" + rest); }
    Assoc4(s.before, Text(s.value), s.after, tail);
  }

  lemma SlotsStart(slots: seq<Slot>, more: string)
    requires slots != [] && WellSlot(slots[0])
    ensures SkipSpace(SlotsText(slots) + more) != "" && SkipSpace(SlotsText(slots) + more)[0] != ']'
  {
    var s := slots[0];
    TextStarts(s.value);
    var after := if |slots| == 1 then s.after + more else s.after + ("," + SlotsText(slots[1..]) + more);
    assert SlotsText(slots) + more == s.before + Text(s.value) + after;
    BlankThenText(s.before, Text(s.value), after);
  }

  /** What the list parser does after its first value. */
  lemma ItemsStep(text: string, blank: string, item: Json, tail: string, more: seq<Json>, fault: Option<Code>, rest: string)
    requires Blank(blank) && ParseValue(text) == Ok(Parsed(item, blank + tail))
    requires if more == [] then tail == "]" + rest && fault == None
             else exists t :: tail == "," + t && ParseItems(t) == Verdict(fault, more, rest)
    ensures ParseItems(text) == Verdict(fault, [item] + more, rest)
  {
    if more == [] {
      BlankTo(blank, ']', rest);
      FirstChar(']', rest);
      assert [item] + more == [item];
    } else {
      var t :| tail == "," + t && ParseItems(t) == Verdict(fault, more, rest);
      BlankTo(blank, ',', t);
      FirstChar(',', t);
    }
  }

  lemma ValueOfSlot(slot: Slot, c: char, more: string)
    requires WellSlot(slot) && !ScalarChar(c)
    requires ParseValue(Text(slot.value) + (slot.after + ([c] + more)))
             == Verdict(Fault(Tree(slot.value)), Tree(slot.value), slot.after + ([c] + more))
    ensures ParseValue(slot.before + (Text(slot.value) + (slot.after + ([c] + more))))
            == Verdict(Fault(Tree(slot.value)), Tree(slot.value), slot.after + ([c] + more))
  {
    BlankValue(slot.before, Text(slot.value) + (slot.after + ([c] + more)));
  }

  lemma SlotTreesCons(slots: seq<Slot>)
    requires slots != []
    ensures SlotTrees(slots) == [Tree(slots[0].value)] + SlotTrees(slots[1..])
    ensures SlotTrees(slots)[1..] == SlotTrees(slots[1..]) && (|slots| > 1 <==> SlotTrees(slots[1..]) != [])
    ensures Fault(Tree(slots[0].value)).None? ==> ItemsFault(SlotTrees(slots)) == ItemsFault(SlotTrees(slots[1..]))
    ensures Fault(Tree(slots[0].value)).Some? ==> ItemsFault(SlotTrees(slots)) == Fault(Tree(slots[0].value))
  {
  }

  lemma {:induction false} SlotsDecided(slots: seq<Slot>, rest: string)
    requires slots != [] && forall i :: 0 <= i < |slots| ==> WellSlot(slots[i])
    ensures ParseItems(SlotsText(slots) + ("]" + rest)) == Verdict(ItemsFault(SlotTrees(slots)), SlotTrees(slots), rest)
    decreases slots, 1
  {
    var s := slots[0];
    var tail := SlotsSplit(slots, rest);
    var c, more := tail[0], tail[1..];
    assert tail == [c] + more;
    BlankDelimits(s.after, c, more);
    ValueDecided(s.value, s.after + tail);
    ValueOfSlot(s, c, more);
    SlotTreesCons(slots);
    if Fault(Tree(s.value)).None? {
      if |slots| > 1 { SlotsDecided(slots[1..], rest); }
      ItemsStep(SlotsText(slots) + ("]" + rest), s.after, Tree(s.value), tail, SlotTrees(slots[1..]),
                ItemsFault(SlotTrees(slots[1..])), rest);
    }
  }

  /** The text of a member list, split after its first value. */
  lemma MembersSplit(members: seq<Member>, rest: string) returns (value: string, tail: string)
    requires members != []
    ensures var m := members[0];
            && MembersText(members) + ("}" + rest) == m.lead + ([Quote] + (m.raw + (m.mid + (":" + value))))
            && value == m.slot.before + (Text(m.slot.value) + (m.slot.after + tail))
    ensures tail == if |members| == 1 then "}" + rest else "," + (MembersText(members[1..]) + ("}" + rest))
  {
    var m := members[0];
    var s := m.slot;
    tail := if |members| == 1 then "}" + rest else "," + (MembersText(members[1..]) + ("}" + rest));
    value := s.before + (Text(s.value) + (s.after + tail));
    if |members| > 1 { Assoc4(MemberText(m), ",", MembersText(members[1..]), "}" + rest); }
    assert MembersText(members) + ("}" + rest) == MemberText(m) + tail;
    Assoc4(s.before, Text(s.value), s.after, tail);
    Assoc4(m.lead + ([Quote] + m.raw) + m.mid, ":", SlotText(s), tail);
    Assoc4(m.lead, [Quote] + m.raw, m.mid, ":" + value);
    Assoc([Quote], m.raw, m.mid + (":" + value));
  }

  lemma MembersStart(members: seq<Member>, more: string)
    requires members != [] && WellMember(members[0])
    ensures SkipSpace(MembersText(members) + more) != "" && SkipSpace(MembersText(members) + more)[0] != '}'
  {
    var m := members[0];
    var key := m.lead + ([Quote] + m.raw);
    var after := MembersHead(members, key);
    Assoc(key, after, more);
    BlankThenText(m.lead, [Quote] + m.raw, after + more);
  }

  lemma MembersHead(members: seq<Member>, key: string) returns (after: string)
    requires members != [] && key == members[0].lead + ([Quote] + members[0].raw)
    ensures MembersText(members) == key + after
  {
    var m := members[0];
    var tail := m.mid + ":" + SlotText(m.slot);
    assert MemberText(m) == key + tail;
    if |members| == 1 {
      after := tail;
    } else {
      after := tail + "," + MembersText(members[1..]);
      assert MembersText(members) == MemberText(m) + "," + MembersText(members[1..]);
    }
  }

  /** What the member parser makes of a key, and of the value's verdict. */
  lemma MemberKey(text: string, seen: set<string>, m: Member, value: string)
    requires WellMember(m) && text == m.lead + ([Quote] + (m.raw + (m.mid + (":" + value))))
    ensures var s := SkipSpace(text);
            && s != "" && s[0] == Quote && ParseChars(s[1..]) == Ok(Parsed(StringOf(m.raw), m.mid + (":" + value)))
            && SkipSpace(m.mid + (":" + value)) == ":" + value && (":" + value)[1..] == value
  {
    BlankTo(m.lead, Quote, m.raw + (m.mid + (":" + value)));
    FirstChar(Quote, m.raw + (m.mid + (":" + value)));
    ContentRead(m.raw, m.mid + (":" + value));
    BlankTo(m.mid, ':', value);
    FirstChar(':', value);
  }

  lemma MemberRefused(text: string, seen: set<string>, m: Member, value: string, code: Code)
    requires WellMember(m) && text == m.lead + ([Quote] + (m.raw + (m.mid + (":" + value))))
    requires if StringOf(m.raw) in seen then code == Duplicate else ParseValue(value) == Err(code)
    ensures ParseFields(text, seen) == Err(code)
  {
    MemberKey(text, seen, m, value);
  }

  lemma MemberStep(text: string, seen: set<string>, m: Member, value: string, tree: Json, tail: string, more: seq<Field>,
                   fault: Option<Code>, rest: string)
    requires WellMember(m) && text == m.lead + ([Quote] + (m.raw + (m.mid + (":" + value)))) && StringOf(m.raw) !in seen
    requires ParseValue(value) == Ok(Parsed(tree, m.slot.after + tail))
    requires if more == [] then tail == "}" + rest && fault == None
             else exists t :: tail == "," + t && ParseFields(t, seen + {StringOf(m.raw)}) == Verdict(fault, more, rest)
    ensures ParseFields(text, seen) == Verdict(fault, [Field(StringOf(m.raw), tree)] + more, rest)
  {
    MemberKey(text, seen, m, value);
    var field := Field(StringOf(m.raw), tree);
    if more == [] {
      BlankTo(m.slot.after, '}', rest);
      FirstChar('}', rest);
      assert [field] + more == [field];
    } else {
      var t :| tail == "," + t && ParseFields(t, seen + {StringOf(m.raw)}) == Verdict(fault, more, rest);
      BlankTo(m.slot.after, ',', t);
      FirstChar(',', t);
    }
  }

  lemma MemberTreesCons(members: seq<Member>, seen: set<string>)
    requires members != []
    ensures var key, tree := StringOf(members[0].raw), Tree(members[0].slot.value);
            && MemberTrees(members) == [Field(key, tree)] + MemberTrees(members[1..])
            && (|members| > 1 <==> MemberTrees(members[1..]) != [])
            && FieldsFault(MemberTrees(members), seen)
               == if key in seen then Some(Duplicate)
                  else if Fault(tree).Some? then Fault(tree)
                  else FieldsFault(MemberTrees(members[1..]), seen + {key})
  {
    assert MemberTrees(members)[1..] == MemberTrees(members[1..]);
  }

  lemma {:induction false} MembersDecided(members: seq<Member>, seen: set<string>, rest: string)
    requires members != [] && forall i :: 0 <= i < |members| ==> WellMember(members[i])
    ensures ParseFields(MembersText(members) + ("}" + rest), seen)
            == Verdict(FieldsFault(MemberTrees(members), seen), MemberTrees(members), rest)
    decreases members, 1
  {
    var m := members[0];
    assert WellMember(m) && WellSlot(m.slot) && WellLaid(m.slot.value);
    var key, tree := StringOf(m.raw), Tree(m.slot.value);
    var text := MembersText(members) + ("}" + rest);
    var value, tail := MembersSplit(members, rest);
    var c, more := tail[0], tail[1..];
    assert tail == [c] + more;
    BlankDelimits(m.slot.after, c, more);
    ValueDecided(m.slot.value, m.slot.after + tail);
    ValueOfSlot(m.slot, c, more);
    MemberTreesCons(members, seen);
    if key in seen || Fault(tree).Some? {
      MemberRefused(text, seen, m, value, FieldsFault(MemberTrees(members), seen).value);
    } else {
      if |members| > 1 { MembersDecided(members[1..], seen + {key}, rest); }
      MemberStep(text, seen, m, value, tree, tail, MemberTrees(members[1..]),
                 FieldsFault(MemberTrees(members[1..]), seen + {key}), rest);
    }
  }

  /** Any JSON document, with any whitespace and spelling, is read as its tree if it holds no
      null and no repeated key, and is otherwise refused with the class of the first of
      these. */
  lemma DocumentDecided(document: Slot)
    requires WellSlot(document)
    ensures ParseDocument(SlotText(document))
            == match Fault(Tree(document.value)) case None => Ok(Tree(document.value)) case Some(code) => Err(code)
  {
    var l := document.value;
    assert Delimited(document.after) by { if document.after != "" { assert IsSpace(document.after[0]); } }
    Assoc(document.before, Text(l), document.after);
    BlankValue(document.before, Text(l) + document.after);
    ValueDecided(l, document.after);
    BlankSkipped(document.after, "");
    assert document.after + "" == document.after;
  }
}
