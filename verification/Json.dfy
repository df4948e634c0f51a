/** The strict JSON of contract bodies: printing without whitespace, and a parser that makes
    the null and duplicate-key checks in document order (string grammar of section 7 of
    RFC 8259). */
module Json {
  import opened Prelude

  datatype Field = Field(key: string, value: Json)

  /** Scalar is a number or a boolean, kept as its text; no contract field takes one. */
  datatype Json = Null | Scalar(text: string) | Str(s: string) | Arr(items: seq<Json>) | Obj(fields: seq<Field>)

  // ---- Escapes ------------------------------------------------------------------------

  function HexDigit(d: nat): char
    requires d < 16
  {
    "0123456789abcdef"[d]
  }

  function HexValue(c: char): (r: Option<nat>)
    ensures r.Some? ==> r.value < 16
  {
    if '0' <= c <= '9' then Some((c - '0') as nat)
    else if 'a' <= c <= 'f' then Some((c - 'a') as nat + 10)
    else if 'A' <= c <= 'F' then Some((c - 'A') as nat + 10)
    else None
  }

  function Hex2(a: char, b: char): (r: Option<nat>)
    ensures r.Some? ==> r.value < 256
  {
    if HexValue(a).None? || HexValue(b).None? then None else Some(HexValue(a).value * 16 + HexValue(b).value)
  }

  /** The code unit written by the first four characters, if they are hex digits. */
  function Hex4(s: string): (r: Option<nat>)
    ensures r.Some? ==> |s| >= 4 && r.value < 0x10000
  {
    if |s| < 4 then None
    else
      var high, low := Hex2(s[0], s[1]), Hex2(s[2], s[3]);
      if high.None? || low.None? then None else Some(high.value * 256 + low.value)
  }

  predicate HighSurrogate(n: nat) { 0xD800 <= n <= 0xDBFF }

  predicate LowSurrogate(n: nat) { 0xDC00 <= n <= 0xDFFF }

  /** A code unit on its own; a lone surrogate becomes the replacement character. */
  function UnitChar(n: nat): char
    requires n < 0x10000
  {
    if HighSurrogate(n) || LowSurrogate(n) then '\U{FFFD}' else n as char
  }

  function PairChar(high: nat, low: nat): char
    requires HighSurrogate(high) && LowSurrogate(low)
  {
    (0x10000 + (high - 0xD800) * 0x400 + (low - 0xDC00)) as char
  }

  const Quote := '\"'
  const Backslash := '\\'

  /** The canonical spelling of one character inside a string. */
  function Escape(c: char): string {
    if c == Quote then [Backslash, Quote]
    else if c == Backslash then [Backslash, Backslash]
    else if c == '\U{0008}' then "\\b"
    else if c == '\U{000C}' then "\\f"
    else if c == '\n' then "\\n"
    else if c == '\r' then "\\r"
    else if c == '\t' then "\\t"
    else if c < ' ' then "\\u00" + [HexDigit(c as nat / 16), HexDigit(c as nat % 16)]
    else if c == '\U{2028}' then "\\u2028"
    else if c == '\U{2029}' then "\\u2029"
    else [c]
  }

  function EscapeAll(s: string): string {
    if s == [] then [] else Escape(s[0]) + EscapeAll(s[1..])
  }

  function PrintString(s: string): string { [Quote] + EscapeAll(s) + [Quote] }

  // ---- Printing -----------------------------------------------------------------------

  function Print(j: Json): string
    decreases j, 0
  {
    match j
    case Null => "null"
    case Scalar(text) => text
    case Str(s) => PrintString(s)
    case Arr(items) => "[" + PrintItems(items) + "]"
    case Obj(fields) => "{" + PrintFields(fields) + "}"
  }

  function PrintItems(items: seq<Json>): string
    decreases items, 1
  {
    if items == [] then ""
    else if |items| == 1 then Print(items[0])
    else Print(items[0]) + "," + PrintItems(items[1..])
  }

  function PrintField(f: Field): string
    decreases f, 1
  {
    PrintString(f.key) + ":" + Print(f.value)
  }

  function PrintFields(fields: seq<Field>): string
    decreases fields, 2
  {
    if fields == [] then ""
    else if |fields| == 1 then PrintField(fields[0])
    else PrintField(fields[0]) + "," + PrintFields(fields[1..])
  }

  // ---- Parsing ------------------------------------------------------------------------

  datatype Parsed<+T> = Parsed(value: T, rest: string)

  predicate IsSpace(c: char) { c == ' ' || c == '\t' || c == '\n' || c == '\r' }

  function SkipSpace(s: string): (r: string)
    ensures |r| <= |s|
  {
    if s != [] && IsSpace(s[0]) then SkipSpace(s[1..]) else s
  }

  function SimpleEscape(c: char): Option<char> {
    match c
    case '\"' => Some('\"')
    case '\\' => Some('\\')
    case '/' => Some('/')
    case 'b' => Some('\U{0008}')
    case 'f' => Some('\U{000C}')
    case 'n' => Some('\n')
    case 'r' => Some('\r')
    case 't' => Some('\t')
    case _ => None
  }

  /** The character an escape stands for and the text after it; s starts at the backslash. */
  function ParseEscape(s: string): (r: Result<Parsed<char>>)
    requires s != [] && s[0] == Backslash
    ensures r.Ok? ==> |r.value.rest| < |s|
  {
    if |s| < 2 then Err(InvalidContract)
    else if s[1] != 'u' then
      match SimpleEscape(s[1])
      case Some(c) => Ok(Parsed(c, s[2..]))
      case None => Err(InvalidContract)
    else match Hex4(s[2..])
      case None => Err(InvalidContract)
      case Some(n) =>
        if HighSurrogate(n) && |s| >= 8 && s[6] == Backslash && s[7] == 'u' && Hex4(s[8..]).Some?
           && LowSurrogate(Hex4(s[8..]).value)
        then Ok(Parsed(PairChar(n, Hex4(s[8..]).value), s[12..]))
        else Ok(Parsed(UnitChar(n), s[6..]))
  }

  /** The rest of a string after its opening quote. */
  function ParseChars(s: string): (r: Result<Parsed<string>>)
    ensures r.Ok? ==> |r.value.rest| < |s|
  {
    if s == [] then Err(InvalidContract)
    else if s[0] == Quote then Ok(Parsed("", s[1..]))
    else if s[0] == Backslash then
      match ParseEscape(s)
      case Err(code) => Err(code)
      case Ok(e) =>
        (match ParseChars(e.rest)
         case Err(code) => Err(code)
         case Ok(tail) => Ok(Parsed([e.value] + tail.value, tail.rest)))
    else if s[0] < ' ' then Err(InvalidContract)
    else match ParseChars(s[1..])
      case Err(code) => Err(code)
      case Ok(tail) => Ok(Parsed([s[0]] + tail.value, tail.rest))
  }

  predicate IsDigit(c: char) { '0' <= c <= '9' }

  predicate ScalarChar(c: char) {
    IsDigit(c) || 'a' <= c <= 'z' || 'A' <= c <= 'Z' || c == '+' || c == '-' || c == '.'
  }

  function TakeScalar(s: string): (r: string)
    ensures r <= s
  {
    if s != [] && ScalarChar(s[0]) then [s[0]] + TakeScalar(s[1..]) else ""
  }

  predicate AllDigits(s: string) { forall i :: 0 <= i < |s| ==> IsDigit(s[i]) }

  function TakeDigits(s: string): (r: string)
    ensures r <= s
  {
    if s != [] && IsDigit(s[0]) then [s[0]] + TakeDigits(s[1..]) else ""
  }

  /** A sign, digits without a leading zero, and what may follow them. */
  predicate IsNumber(s: string) {
    var t := if s != "" && s[0] == '-' then s[1..] else s;
    var whole := TakeDigits(t);
    whole != "" && (whole[0] == '0' ==> |whole| == 1) && IsFraction(t[|whole|..])
  }

  predicate IsFraction(s: string) {
    if s != "" && s[0] == '.' then
      var digits := TakeDigits(s[1..]);
      digits != "" && (s[1..][|digits|..] == "" || IsExponent(s[1..][|digits|..]))
    else s == "" || IsExponent(s)
  }

  predicate IsExponent(s: string) {
    && |s| > 1 && (s[0] == 'e' || s[0] == 'E')
    && var digits := if s[1] == '+' || s[1] == '-' then s[2..] else s[1..];
    digits != "" && AllDigits(digits)
  }

  /** One value and the text after it. An explicit null is refused where it stands, as soon as
      its four letters are read. */
  function ParseValue(text: string): (r: Result<Parsed<Json>>)
    ensures r.Ok? ==> |r.value.rest| < |text|
    decreases |text|, 0
  {
    var s := SkipSpace(text);
    if s == [] then Err(InvalidContract)
    else if s[0] == Quote then
      match ParseChars(s[1..])
      case Err(code) => Err(code)
      case Ok(p) => Ok(Parsed(Str(p.value), p.rest))
    else if s[0] == '[' then
      var t := SkipSpace(s[1..]);
      if t != [] && t[0] == ']' then Ok(Parsed(Arr([]), t[1..]))
      else match ParseItems(s[1..])
        case Err(code) => Err(code)
        case Ok(p) => Ok(Parsed(Arr(p.value), p.rest))
    else if s[0] == '{' then
      var t := SkipSpace(s[1..]);
      if t != [] && t[0] == '}' then Ok(Parsed(Obj([]), t[1..]))
      else match ParseFields(s[1..], {})
        case Err(code) => Err(code)
        case Ok(p) => Ok(Parsed(Obj(p.value), p.rest))
    else if "null" <= s then Err(SemanticNull)
    else
      var word := TakeScalar(s);
      if word == "true" || word == "false" || IsNumber(word) then
        assert word != "" by { if IsNumber(word) { NumberNotEmpty(word); } }
        Ok(Parsed(Scalar(word), s[|word|..]))
      else Err(InvalidContract)
  }

  lemma NumberNotEmpty(s: string)
    requires IsNumber(s)
    ensures s != ""
  {
  }

  /** One or more comma-separated values and the closing bracket. */
  function ParseItems(s: string): (r: Result<Parsed<seq<Json>>>)
    ensures r.Ok? ==> |r.value.rest| < |s|
    decreases |s|, 1
  {
    match ParseValue(s)
    case Err(code) => Err(code)
    case Ok(p) =>
      var t := SkipSpace(p.rest);
      if t != [] && t[0] == ']' then Ok(Parsed([p.value], t[1..]))
      else if t != [] && t[0] == ',' then
        match ParseItems(t[1..])
        case Err(code) => Err(code)
        case Ok(q) => Ok(Parsed([p.value] + q.value, q.rest))
      else Err(InvalidContract)
  }

  /** One or more members and the closing brace. A key that was seen before is refused as
      soon as it is read. */
  function ParseFields(text: string, seen: set<string>): (r: Result<Parsed<seq<Field>>>)
    ensures r.Ok? ==> |r.value.rest| < |text|
    decreases |text|, 1
  {
    var s := SkipSpace(text);
    if s == [] || s[0] != Quote then Err(InvalidContract)
    else match ParseChars(s[1..])
      case Err(code) => Err(code)
      case Ok(k) =>
        if k.value in seen then Err(Duplicate)
        else
          var colon := SkipSpace(k.rest);
          if colon == [] || colon[0] != ':' then Err(InvalidContract)
          else match ParseValue(colon[1..])
            case Err(code) => Err(code)
            case Ok(v) =>
              var field := Field(k.value, v.value);
              var t := SkipSpace(v.rest);
              if t != [] && t[0] == '}' then Ok(Parsed([field], t[1..]))
              else if t != [] && t[0] == ',' then
                match ParseFields(t[1..], seen + {k.value})
                case Err(code) => Err(code)
                case Ok(q) => Ok(Parsed([field] + q.value, q.rest))
              else Err(InvalidContract)
  }

  /** What may follow the value of a document. A stray closing bracket does not count as
      trailing data, whatever comes after it: the token reader fails on it, which ends the
      strict walk without a fault, and the decoder's look-ahead takes it for the end of an
      enclosing value. */
  predicate EndsDocument(rest: string) {
    var t := SkipSpace(rest);
    t == "" || t[0] == ']' || t[0] == '}'
  }

  /** Whether the token reader delivers a token from the text after a document. It reads no
      further than the token, so a number or a word counts however it goes on. */
  predicate TokenFollows(rest: string) {
    var t := SkipSpace(rest);
    && t != ""
    && (t[0] == '[' || t[0] == '{' || "null" <= t || "true" <= t || "false" <= t || NumberFollows(t)
        || (t[0] == Quote && ParseChars(t[1..]).Ok?))
  }

  /** A number begins here that the scanner reads to an end. */
  predicate NumberFollows(s: string) {
    var t := if s != "" && s[0] == '-' then s[1..] else s;
    && t != "" && IsDigit(t[0])
    && FractionFollows(if t[0] == '0' then t[1..] else t[|TakeDigits(t)|..])
  }

  predicate FractionFollows(s: string) {
    if s != "" && s[0] == '.' then |s| > 1 && IsDigit(s[1]) && ExponentFollows(s[1..][|TakeDigits(s[1..])|..])
    else ExponentFollows(s)
  }

  predicate ExponentFollows(s: string) {
    if s != "" && (s[0] == 'e' || s[0] == 'E') then
      var t := if |s| > 1 && (s[1] == '+' || s[1] == '-') then s[2..] else s[1..];
      t != "" && IsDigit(t[0])
    else true
  }

  /** Text from which a token is read does not end a document. */
  lemma TokenIsTrailing(rest: string)
    ensures TokenFollows(rest) ==> !EndsDocument(rest)
  {
  }

  /** A whole document: one value and what may follow it. */
  function ParseDocument(text: string): Result<Json> {
    match ParseValue(text)
    case Err(code) => Err(code)
    case Ok(p) => if EndsDocument(p.rest) then Ok(p.value) else Err(InvalidContract)
  }

  // ---- What a parsed document never holds ---------------------------------------------

  /** No null anywhere, and no object with a repeated key. */
  ghost predicate Strict(j: Json)
    decreases j, 0
  {
    match j
    case Null => false
    case Scalar(_) => true
    case Str(_) => true
    case Arr(items) => forall i :: 0 <= i < |items| ==> Strict(items[i])
    case Obj(fields) => StrictFields(fields, {})
  }

  ghost predicate StrictFields(fields: seq<Field>, seen: set<string>)
    decreases fields, 1
  {
    fields == [] || (fields[0].key !in seen && Strict(fields[0].value) && StrictFields(fields[1..], seen + {fields[0].key}))
  }

  /** Nulls and repeated keys are refused at any depth. */
  lemma {:induction false} ParsedIsStrict(text: string)
    ensures ParseValue(text).Ok? ==> Strict(ParseValue(text).value.value)
    decreases |text|, 0
  {
    var s := SkipSpace(text);
    if s != [] && s[0] == '[' { ItemsAreStrict(s[1..]); }
    if s != [] && s[0] == '{' { FieldsAreStrict(s[1..], {}); }
  }

  lemma {:induction false} ItemsAreStrict(s: string)
    ensures ParseItems(s).Ok? ==> forall i :: 0 <= i < |ParseItems(s).value.value| ==> Strict(ParseItems(s).value.value[i])
    decreases |s|, 1
  {
    ParsedIsStrict(s);
    if ParseValue(s).Ok? {
      var t := SkipSpace(ParseValue(s).value.rest);
      if t != [] && t[0] == ',' { ItemsAreStrict(t[1..]); }
    }
  }

  lemma {:induction false} FieldsAreStrict(text: string, seen: set<string>)
    ensures ParseFields(text, seen).Ok? ==> StrictFields(ParseFields(text, seen).value.value, seen)
    decreases |text|, 1
  {
    var s := SkipSpace(text);
    if ParseFields(text, seen).Ok? {
      var k := ParseChars(s[1..]).value;
      var colon := SkipSpace(k.rest);
      ParsedIsStrict(colon[1..]);
      var t := SkipSpace(ParseValue(colon[1..]).value.rest);
      if t[0] == ',' { FieldsAreStrict(t[1..], seen + {k.value}); }
    }
  }

  // ---- Printing and parsing back ------------------------------------------------------

  /** The trees the printer is used on: strings, arrays, and objects with distinct keys. */
  ghost predicate Plain(j: Json)
    decreases j, 0
  {
    match j
    case Null => false
    case Scalar(_) => false
    case Str(_) => true
    case Arr(items) => forall i :: 0 <= i < |items| ==> Plain(items[i])
    case Obj(fields) => PlainFields(fields, {})
  }

  ghost predicate PlainFields(fields: seq<Field>, seen: set<string>)
    decreases fields, 1
  {
    fields == [] || (fields[0].key !in seen && Plain(fields[0].value) && PlainFields(fields[1..], seen + {fields[0].key}))
  }

  lemma HexDigitValue(d: nat)
    requires d < 16
    ensures HexValue(HexDigit(d)) == Some(d)
  {
  }

  lemma ControlReadsBack(c: char, rest: string)
    requires c < ' ' && |Escape(c)| == 6
    ensures Hex4((Escape(c) + rest)[2..]) == Some(c as nat)
  {
    var s := (Escape(c) + rest)[2..];
    assert s[0] == '0' && s[1] == '0' && s[2] == HexDigit(c as nat / 16) && s[3] == HexDigit(c as nat % 16);
    HexDigitValue(c as nat / 16);
    HexDigitValue(c as nat % 16);
  }

  lemma SeparatorReadsBack(c: char, rest: string)
    requires c == '\U{2028}' || c == '\U{2029}'
    ensures Hex4((Escape(c) + rest)[2..]) == Some(c as nat)
  {
    var s := (Escape(c) + rest)[2..];
    assert s[0] == '2' && s[1] == '0' && s[2] == '2' && s[3] == (if c == '\U{2028}' then '8' else '9');
  }

  /** Reading one escaped character back. */
  lemma EscapeReadsBack(c: char, rest: string)
    requires Escape(c) != [c]
    ensures Escape(c)[0] == Backslash
    ensures ParseEscape(Escape(c) + rest) == Ok(Parsed(c, rest))
  {
    var s := Escape(c) + rest;
    if |Escape(c)| == 2 {
      assert s[2..] == rest;
    } else {
      assert s[6..] == rest;
      if c < ' ' { ControlReadsBack(c, rest); } else { SeparatorReadsBack(c, rest); }
    }
  }

  // Concatenation is re-associated by hand: the solver is slow to find it.

  lemma Assoc(a: string, b: string, c: string)
    ensures (a + b) + c == a + (b + c)
  {
  }

  lemma Assoc4(a: string, b: string, c: string, d: string)
    ensures ((a + b) + c) + d == a + ((b + c) + d) == a + (b + (c + d))
  {
    Assoc(a, b, c);
    Assoc(a, b + c, d);
    Assoc(b, c, d);
  }

  lemma FirstChar(c: char, s: string)
    ensures ([c] + s)[0] == c && ([c] + s)[1..] == s
  {
  }

  /** A character that needs no escape is read as itself. */
  lemma LiteralStep(c: char, text: string, tail: string, t: string, rest: string)
    requires Escape(c) == [c] && text == [c] + tail && ParseChars(tail) == Ok(Parsed(t, rest))
    ensures ParseChars(text) == Ok(Parsed([c] + t, rest))
  {
    FirstChar(c, tail);
  }

  lemma EscapeStep(c: char, text: string, tail: string, t: string, rest: string)
    requires Escape(c) != [c] && text == Escape(c) + tail && ParseChars(tail) == Ok(Parsed(t, rest))
    ensures ParseChars(text) == Ok(Parsed([c] + t, rest))
  {
    EscapeReadsBack(c, tail);
    assert text[0] == Backslash;
  }

  lemma {:induction false} CharsReadBack(t: string, rest: string)
    ensures ParseChars(EscapeAll(t) + ([Quote] + rest)) == Ok(Parsed(t, rest))
  {
    var close := [Quote] + rest;
    if t == [] {
      assert EscapeAll(t) + close == close;
      FirstChar(Quote, rest);
    } else {
      CharsReadBack(t[1..], rest);
      Assoc(Escape(t[0]), EscapeAll(t[1..]), close);
      var text, tail := EscapeAll(t) + close, EscapeAll(t[1..]) + close;
      if Escape(t[0]) == [t[0]] { LiteralStep(t[0], text, tail, t[1..], rest); }
      else { EscapeStep(t[0], text, tail, t[1..], rest); }
      assert t == [t[0]] + t[1..];
    }
  }

  lemma StringReadsBack(t: string, rest: string)
    ensures (PrintString(t) + rest)[0] == Quote
    ensures ParseChars((PrintString(t) + rest)[1..]) == Ok(Parsed(t, rest))
  {
    CharsReadBack(t, rest);
    Assoc4([Quote], EscapeAll(t), [Quote], rest);
    FirstChar(Quote, EscapeAll(t) + ([Quote] + rest));
  }

  /** Printed values start with a character that is not whitespace and closes nothing. */
  lemma PrintStarts(j: Json)
    requires Plain(j)
    ensures Print(j) != "" && Print(j)[0] in {Quote, '[', '{'}
  {
  }

  lemma ArrayStep(items: seq<Json>, body: string, rest: string)
    requires items == [] ==> body == "]" + rest
    requires items != [] ==> body != "" && body[0] in {Quote, '[', '{'} && ParseItems(body) == Ok(Parsed(items, rest))
    ensures ParseValue("[" + body) == Ok(Parsed(Arr(items), rest))
  {
    FirstChar('[', body);
    if items == [] { FirstChar(']', rest); }
  }

  lemma ObjectStep(fields: seq<Field>, body: string, rest: string)
    requires fields == [] ==> body == "}" + rest
    requires fields != [] ==> body != "" && body[0] == Quote && ParseFields(body, {}) == Ok(Parsed(fields, rest))
    ensures ParseValue("{" + body) == Ok(Parsed(Obj(fields), rest))
  {
    FirstChar('{', body);
    if fields == [] { FirstChar('}', rest); }
  }

  lemma {:induction false} ValueReadsBack(j: Json, rest: string)
    requires Plain(j)
    ensures ParseValue(Print(j) + rest) == Ok(Parsed(j, rest))
    decreases j, 0
  {
    match j
    case Str(t) => StringReadsBack(t, rest);
    case Arr(items) =>
      var body := PrintItems(items) + ("]" + rest);
      Assoc4("[", PrintItems(items), "]", rest);
      if items == [] { assert body == "]" + rest; }
      else { ItemsReadBack(items, rest); ItemsStart(items); }
      ArrayStep(items, body, rest);
    case Obj(fields) =>
      var body := PrintFields(fields) + ("}" + rest);
      Assoc4("{", PrintFields(fields), "}", rest);
      if fields == [] { assert body == "}" + rest; }
      else { FieldsReadBack(fields, {}, rest); FieldsStart(fields); }
      ObjectStep(fields, body, rest);
  }

  lemma ItemsStart(items: seq<Json>)
    requires items != [] && forall i :: 0 <= i < |items| ==> Plain(items[i])
    ensures PrintItems(items) != "" && PrintItems(items)[0] in {Quote, '[', '{'}
  {
    PrintStarts(items[0]);
  }

  lemma FieldsStart(fields: seq<Field>)
    requires fields != []
    ensures PrintFields(fields) != "" && PrintFields(fields)[0] == Quote
  {
  }

  /** One item, then the closing bracket or a comma and the other items. */
  lemma ItemStep(text: string, item: Json, tail: string, more: seq<Json>, rest: string)
    requires ParseValue(text) == Ok(Parsed(item, tail))
    requires if more == [] then tail == "]" + rest
             else exists t :: tail == "," + t && ParseItems(t) == Ok(Parsed(more, rest))
    ensures ParseItems(text) == Ok(Parsed([item] + more, rest))
  {
    if more == [] {
      FirstChar(']', rest);
      assert [item] + more == [item];
    } else {
      var t :| tail == "," + t && ParseItems(t) == Ok(Parsed(more, rest));
      FirstChar(',', t);
    }
  }

  lemma {:induction false} ItemsReadBack(items: seq<Json>, rest: string)
    requires items != [] && forall i :: 0 <= i < |items| ==> Plain(items[i])
    ensures ParseItems(PrintItems(items) + ("]" + rest)) == Ok(Parsed(items, rest))
    decreases items, 1
  {
    var text := PrintItems(items) + ("]" + rest);
    ItemsText(items, rest);
    assert items == [items[0]] + items[1..];
    if |items| == 1 {
      ValueReadsBack(items[0], "]" + rest);
      ItemStep(text, items[0], "]" + rest, [], rest);
    } else {
      var t := PrintItems(items[1..]) + ("]" + rest);
      ItemsReadBack(items[1..], rest);
      ValueReadsBack(items[0], "," + t);
      ItemStep(text, items[0], "," + t, items[1..], rest);
    }
  }

  /** The text of a list, split after its first item. */
  lemma ItemsText(items: seq<Json>, rest: string)
    requires items != []
    ensures |items| == 1 ==> PrintItems(items) + ("]" + rest) == Print(items[0]) + ("]" + rest)
    ensures |items| > 1 ==> PrintItems(items) + ("]" + rest)
                            == Print(items[0]) + ("," + (PrintItems(items[1..]) + ("]" + rest)))
  {
    if |items| > 1 { Assoc4(Print(items[0]), ",", PrintItems(items[1..]), "]" + rest); }
  }

  /** One member, then the closing brace or a comma and the other members. */
  lemma FieldStep(text: string, seen: set<string>, f: Field, value: string, tail: string, more: seq<Field>, rest: string)
    requires text != "" && text[0] == Quote && ParseChars(text[1..]) == Ok(Parsed(f.key, ":" + value))
    requires f.key !in seen && ParseValue(value) == Ok(Parsed(f.value, tail))
    requires if more == [] then tail == "}" + rest
             else exists t :: tail == "," + t && ParseFields(t, seen + {f.key}) == Ok(Parsed(more, rest))
    ensures ParseFields(text, seen) == Ok(Parsed([f] + more, rest))
  {
    assert f == Field(f.key, f.value);
    FirstChar(':', value);
    if more == [] {
      LastFieldStep(text, seen, f, value, rest);
      assert [f] + more == [f];
    } else {
      var t :| tail == "," + t && ParseFields(t, seen + {f.key}) == Ok(Parsed(more, rest));
      NextFieldStep(text, seen, f, value, t, more, rest);
    }
  }

  lemma LastFieldStep(text: string, seen: set<string>, f: Field, value: string, rest: string)
    requires text != "" && text[0] == Quote && ParseChars(text[1..]) == Ok(Parsed(f.key, ":" + value))
    requires f.key !in seen && ParseValue(value) == Ok(Parsed(f.value, "}" + rest))
    ensures ParseFields(text, seen) == Ok(Parsed([Field(f.key, f.value)], rest))
  {
    FirstChar(':', value);
    FirstChar('}', rest);
  }

  lemma NextFieldStep(text: string, seen: set<string>, f: Field, value: string, t: string, more: seq<Field>, rest: string)
    requires text != "" && text[0] == Quote && ParseChars(text[1..]) == Ok(Parsed(f.key, ":" + value))
    requires f.key !in seen && ParseValue(value) == Ok(Parsed(f.value, "," + t))
    requires ParseFields(t, seen + {f.key}) == Ok(Parsed(more, rest))
    ensures ParseFields(text, seen) == Ok(Parsed([Field(f.key, f.value)] + more, rest))
  {
    FirstChar(':', value);
    FirstChar(',', t);
  }

  lemma FieldText(f: Field, tail: string)
    ensures PrintField(f) + tail == PrintString(f.key) + (":" + (Print(f.value) + tail))
  {
    Assoc4(PrintString(f.key), ":", Print(f.value), tail);
  }

  /** The text of a member list, split after its first member. */
  lemma FieldsText(fields: seq<Field>, rest: string)
    requires fields != []
    ensures |fields| == 1 ==> PrintFields(fields) + ("}" + rest) == PrintField(fields[0]) + ("}" + rest)
    ensures |fields| > 1 ==> PrintFields(fields) + ("}" + rest)
                             == PrintField(fields[0]) + ("," + (PrintFields(fields[1..]) + ("}" + rest)))
  {
    if |fields| > 1 { Assoc4(PrintField(fields[0]), ",", PrintFields(fields[1..]), "}" + rest); }
  }

  /** One member read back, given that what follows it is. */
  lemma MemberReadsBack(text: string, seen: set<string>, f: Field, tail: string, more: seq<Field>, rest: string)
    requires text == PrintField(f) + tail && f.key !in seen && ParseValue(Print(f.value) + tail) == Ok(Parsed(f.value, tail))
    requires if more == [] then tail == "}" + rest
             else exists t :: tail == "," + t && ParseFields(t, seen + {f.key}) == Ok(Parsed(more, rest))
    ensures ParseFields(text, seen) == Ok(Parsed([f] + more, rest))
  {
    FieldText(f, tail);
    StringReadsBack(f.key, ":" + (Print(f.value) + tail));
    FieldStep(text, seen, f, Print(f.value) + tail, tail, more, rest);
  }

  lemma {:induction false} FieldsReadBack(fields: seq<Field>, seen: set<string>, rest: string)
    requires fields != [] && PlainFields(fields, seen)
    ensures ParseFields(PrintFields(fields) + ("}" + rest), seen) == Ok(Parsed(fields, rest))
    decreases fields, 1
  {
    var f, text := fields[0], PrintFields(fields) + ("}" + rest);
    FieldsText(fields, rest);
    assert fields == [f] + fields[1..];
    if |fields| == 1 {
      ValueReadsBack(f.value, "}" + rest);
      MemberReadsBack(text, seen, f, "}" + rest, [], rest);
    } else {
      var t := PrintFields(fields[1..]) + ("}" + rest);
      FieldsReadBack(fields[1..], seen + {f.key}, rest);
      ValueReadsBack(f.value, "," + t);
      MemberReadsBack(text, seen, f, "," + t, fields[1..], rest);
    }
  }

  /** Printing a plain tree and parsing the text gives the tree back. */
  lemma PrintReadsBack(j: Json)
    requires Plain(j)
    ensures ParseDocument(Print(j)) == Ok(j)
  {
    PrintedThenRest(j, "");
    assert Print(j) + "" == Print(j);
  }

  /** Printed text followed by other text reads back exactly if that text may follow. */
  lemma PrintedThenRest(j: Json, rest: string)
    requires Plain(j)
    ensures ParseDocument(Print(j) + rest) == if EndsDocument(rest) then Ok(j) else Err(InvalidContract)
  {
    ValueReadsBack(j, rest);
  }
}
