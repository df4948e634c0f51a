/** The parser looks no further than it reads: text after a value does not change how the
    value is read. */
module Locality {
  import opened Prelude
  import opened Json

  // ---- Text after what is read stays behind -------------------------------------------

  lemma DropInside(s: string, x: string, k: nat)
    requires k <= |s|
    ensures (s + x)[k..] == s[k..] + x
  {
  }

  lemma {:induction false} SpaceAppend(s: string, x: string)
    requires SkipSpace(s) != ""
    ensures SkipSpace(s + x) == SkipSpace(s) + x
  {
    DropInside(s, x, 1);
    if IsSpace(s[0]) { SpaceAppend(s[1..], x); }
  }

  lemma {:induction false} ScalarAppend(s: string, x: string)
    requires |TakeScalar(s)| < |s|
    ensures TakeScalar(s + x) == TakeScalar(s)
  {
    DropInside(s, x, 1);
    if ScalarChar(s[0]) { ScalarAppend(s[1..], x); }
  }

  lemma HexAppend(s: string, x: string, k: nat)
    requires k <= |s| && Hex4(s[k..]).Some?
    ensures Hex4((s + x)[k..]) == Hex4(s[k..])
  {
    DropInside(s, x, k);
  }

  /** An escape whose remainder reads as string content does not look beyond it. */
  lemma EscapeAppend(s: string, x: string)
    requires s != "" && s[0] == Backslash && ParseEscape(s).Ok? && ParseChars(ParseEscape(s).value.rest).Ok?
    ensures ParseEscape(s + x) == Ok(Parsed(ParseEscape(s).value.value, ParseEscape(s).value.rest + x))
  {
    assert (s + x)[0] == s[0] && (s + x)[1] == s[1];
    DropInside(s, x, 2);
    if s[1] == 'u' {
      HexAppend(s, x, 2);
      DropInside(s, x, 6);
      if |s| >= 8 && s[6] == Backslash && s[7] == 'u' && Hex4(s[8..]).Some? {
        HexAppend(s, x, 8);
        DropInside(s, x, 12);
      } else {
        NoUnitAfter(s, ParseEscape(s).value.rest);
      }
    }
  }

  /** If the remainder reads as string content and no unit escape stands at its front, none
      can be completed by more text. */
  lemma NoUnitAfter(s: string, rest: string)
    requires |s| >= 6 && rest == s[6..] && ParseChars(rest).Ok?
    requires !(|s| >= 8 && s[6] == Backslash && s[7] == 'u' && Hex4(s[8..]).Some?)
    ensures |s| >= 7 && (s[6] == Backslash ==> |s| >= 8 && s[7] != 'u')
  {
    if rest[0] == Backslash {
      assert ParseEscape(rest).Ok?;
      assert rest[2..] == s[8..];
    }
  }

  lemma {:induction false} CharsAppend(s: string, x: string)
    requires ParseChars(s).Ok?
    ensures ParseChars(s + x) == Ok(Parsed(ParseChars(s).value.value, ParseChars(s).value.rest + x))
  {
    DropInside(s, x, 1);
    assert (s + x)[0] == s[0];
    if s[0] == Backslash {
      EscapeAppend(s, x);
      CharsAppend(ParseEscape(s).value.rest, x);
    } else if s[0] != Quote {
      CharsAppend(s[1..], x);
    }
  }

  /** A scalar at the very end of a text could be continued; nothing else could. */
  predicate Closed(p: Parsed<Json>) { p.value.Scalar? ==> p.rest != "" }

  lemma ScalarValueAppend(text: string, x: string)
    requires ParseValue(text).Ok? && ParseValue(text).value.value.Scalar? && Closed(ParseValue(text).value)
    ensures ParseValue(text + x) == Ok(Parsed(ParseValue(text).value.value, ParseValue(text).value.rest + x))
  {
    var s := SkipSpace(text);
    SpaceAppend(text, x);
    ScalarAppend(s, x);
    DropInside(s, x, |TakeScalar(s)|);
    assert (s + x)[0] == s[0];
  }

  /** The first character after whitespace is the same, now or with more text behind. */
  lemma NextAppend(s: string, x: string)
    requires s != "" && SkipSpace(s) != ""
    ensures SkipSpace(s + x) != "" && SkipSpace(s + x)[0] == SkipSpace(s)[0] && SkipSpace(s + x)[1..] == SkipSpace(s)[1..] + x
  {
    SpaceAppend(s, x);
    DropInside(SkipSpace(s), x, 1);
  }

  lemma {:induction false} ValueAppend(text: string, x: string)
    requires ParseValue(text).Ok? && Closed(ParseValue(text).value)
    ensures ParseValue(text + x) == Ok(Parsed(ParseValue(text).value.value, ParseValue(text).value.rest + x))
    decreases |text|, 0
  {
    var s := SkipSpace(text);
    if s[0] == Quote {
      StringValueAppend(text, x);
    } else if s[0] == '[' {
      if ParseItems(s[1..]).Ok? { ItemsAppend(s[1..], x); }
      ArrayValueAppend(text, x);
    } else if s[0] == '{' {
      if ParseFields(s[1..], {}).Ok? { FieldsAppend(s[1..], {}, x); }
      ObjectValueAppend(text, x);
    } else {
      ScalarValueAppend(text, x);
    }
  }

  lemma StringValueAppend(text: string, x: string)
    requires ParseValue(text).Ok? && SkipSpace(text)[0] == Quote
    ensures ParseValue(text + x) == Ok(Parsed(ParseValue(text).value.value, ParseValue(text).value.rest + x))
  {
    SpaceAppend(text, x);
    DropInside(SkipSpace(text), x, 1);
    CharsAppend(SkipSpace(text)[1..], x);
  }

  lemma ArrayValueAppend(text: string, x: string)
    requires ParseValue(text).Ok? && SkipSpace(text)[0] == '['
    requires var s := SkipSpace(text)[1..];
             ParseItems(s).Ok? ==> ParseItems(s + x) == Ok(Parsed(ParseItems(s).value.value, ParseItems(s).value.rest + x))
    ensures ParseValue(text + x) == Ok(Parsed(ParseValue(text).value.value, ParseValue(text).value.rest + x))
  {
    var s := SkipSpace(text);
    SpaceAppend(text, x);
    DropInside(s, x, 1);
    ItemsNotBlank(s[1..]);
    NextAppend(s[1..], x);
  }

  lemma ItemsNotBlank(s: string)
    ensures ParseItems(s).Ok? ==> SkipSpace(s) != ""
    ensures forall seen :: ParseFields(s, seen).Ok? ==> SkipSpace(s) != ""
  {
    if ParseItems(s).Ok? { assert ParseValue(s).Ok?; }
  }

  lemma ObjectValueAppend(text: string, x: string)
    requires ParseValue(text).Ok? && SkipSpace(text)[0] == '{'
    requires var s := SkipSpace(text)[1..];
             ParseFields(s, {}).Ok? ==>
               ParseFields(s + x, {}) == Ok(Parsed(ParseFields(s, {}).value.value, ParseFields(s, {}).value.rest + x))
    ensures ParseValue(text + x) == Ok(Parsed(ParseValue(text).value.value, ParseValue(text).value.rest + x))
  {
    var s := SkipSpace(text);
    SpaceAppend(text, x);
    DropInside(s, x, 1);
    ItemsNotBlank(s[1..]);
    NextAppend(s[1..], x);
  }

  lemma {:induction false} ItemsAppend(s: string, x: string)
    requires ParseItems(s).Ok?
    ensures ParseItems(s + x) == Ok(Parsed(ParseItems(s).value.value, ParseItems(s).value.rest + x))
    decreases |s|, 1
  {
    var p := ParseValue(s).value;
    var t := SkipSpace(p.rest);
    ValueAppend(s, x);
    SpaceAppend(p.rest, x);
    DropInside(t, x, 1);
    if t[0] != ']' { ItemsAppend(t[1..], x); }
  }

  /** The text of the value of the first member. */
  function MemberValue(text: string): string
    requires var s := SkipSpace(text);
             s != "" && ParseChars(s[1..]).Ok? && SkipSpace(ParseChars(s[1..]).value.rest) != ""
  {
    SkipSpace(ParseChars(SkipSpace(text)[1..]).value.rest)[1..]
  }

  lemma MemberAppend(text: string, seen: set<string>, x: string)
    requires ParseFields(text, seen).Ok?
    ensures var s, s' := SkipSpace(text), SkipSpace(text + x);
            && s' != "" && s'[0] == Quote && ParseChars(s'[1..]).Ok?
            && ParseChars(s'[1..]).value.value == ParseChars(s[1..]).value.value
            && SkipSpace(ParseChars(s'[1..]).value.rest) != "" && SkipSpace(ParseChars(s'[1..]).value.rest)[0] == ':'
            && MemberValue(text + x) == MemberValue(text) + x
  {
    var s := SkipSpace(text);
    var k := ParseChars(s[1..]).value;
    SpaceAppend(text, x);
    DropInside(s, x, 1);
    CharsAppend(s[1..], x);
    NextAppend(k.rest, x);
  }

  lemma {:induction false} FieldsAppend(text: string, seen: set<string>, x: string)
    requires ParseFields(text, seen).Ok?
    ensures ParseFields(text + x, seen) == Ok(Parsed(ParseFields(text, seen).value.value, ParseFields(text, seen).value.rest + x))
    decreases |text|, 1
  {
    MemberAppend(text, seen, x);
    var k := ParseChars(SkipSpace(text)[1..]).value;
    var v := ParseValue(MemberValue(text)).value;
    var t := SkipSpace(v.rest);
    ValueAppend(MemberValue(text), x);
    SpaceAppend(v.rest, x);
    DropInside(t, x, 1);
    if t[0] != '}' { FieldsAppend(t[1..], seen + {k.value}, x); }
  }

  // ---- Where an object ends -----------------------------------------------------------

  predicate IsSuffix(r: string, s: string) { |r| <= |s| && s[|s| - |r|..] == r }

  lemma SuffixStep(r: string, s: string, k: nat)
    requires k <= |s| && IsSuffix(r, s[k..])
    ensures IsSuffix(r, s)
  {
  }

  lemma SuffixTransitive(a: string, b: string, c: string)
    requires IsSuffix(a, b) && IsSuffix(b, c)
    ensures IsSuffix(a, c)
  {
    SuffixStep(a, c, |c| - |b|);
  }

  lemma {:induction false} SpaceSuffix(s: string)
    ensures IsSuffix(SkipSpace(s), s)
  {
    if s != [] && IsSpace(s[0]) {
      SpaceSuffix(s[1..]);
      SuffixStep(SkipSpace(s), s, 1);
    }
  }

  lemma SpaceThenSuffix(r: string, s: string)
    requires SkipSpace(s) != "" && IsSuffix(r, SkipSpace(s)[1..])
    ensures IsSuffix(r, s)
  {
    SpaceSuffix(s);
    SuffixStep(r, SkipSpace(s), 1);
    SuffixTransitive(r, SkipSpace(s), s);
  }

  lemma {:induction false} CharsSuffix(s: string)
    ensures ParseChars(s).Ok? ==> IsSuffix(ParseChars(s).value.rest, s)
  {
    if ParseChars(s).Ok? && s[0] != Quote {
      var k := if s[0] == Backslash then |s| - |ParseEscape(s).value.rest| else 1;
      assert s[0] == Backslash ==> ParseEscape(s).value.rest == s[k..];
      CharsSuffix(s[k..]);
      SuffixStep(ParseChars(s).value.rest, s, k);
    }
  }

  lemma {:induction false} ValueSuffix(text: string)
    ensures ParseValue(text).Ok? ==> IsSuffix(ParseValue(text).value.rest, text)
    decreases |text|, 0
  {
    if ParseValue(text).Ok? {
      var s, r := SkipSpace(text), ParseValue(text).value.rest;
      if s[0] == Quote {
        CharsSuffix(s[1..]);
        SpaceThenSuffix(r, text);
      } else if s[0] == '[' || s[0] == '{' {
        if s[0] == '[' { ItemsSuffix(s[1..]); } else { FieldsSuffix(s[1..], {}); }
        BracketSuffix(text);
      } else {
        SpaceSuffix(text);
        SuffixTransitive(r, s, text);
      }
    }
  }

  lemma BracketSuffix(text: string)
    requires ParseValue(text).Ok? && SkipSpace(text)[0] in {'[', '{'}
    requires ParseItems(SkipSpace(text)[1..]).Ok? ==> IsSuffix(ParseItems(SkipSpace(text)[1..]).value.rest, SkipSpace(text)[1..])
    requires ParseFields(SkipSpace(text)[1..], {}).Ok? ==>
               IsSuffix(ParseFields(SkipSpace(text)[1..], {}).value.rest, SkipSpace(text)[1..])
    ensures IsSuffix(ParseValue(text).value.rest, text)
  {
    var inside, r := SkipSpace(text)[1..], ParseValue(text).value.rest;
    if SkipSpace(inside) != "" && r == SkipSpace(inside)[1..] { SpaceThenSuffix(r, inside); }
    SpaceThenSuffix(r, text);
  }

  lemma {:induction false} ItemsSuffix(s: string)
    ensures ParseItems(s).Ok? ==> IsSuffix(ParseItems(s).value.rest, s)
    decreases |s|, 1
  {
    if ParseItems(s).Ok? {
      var p, r := ParseValue(s).value.rest, ParseItems(s).value.rest;
      ValueSuffix(s);
      if SkipSpace(p)[0] != ']' { ItemsSuffix(SkipSpace(p)[1..]); }
      SpaceThenSuffix(r, p);
      SuffixTransitive(r, p, s);
    }
  }

  /** A member list ends in a closing brace, just before what is left. */
  predicate EndsAtBrace(r: string, s: string) { IsSuffix(r, s) && |r| < |s| && s[|s| - |r| - 1] == '}' }

  lemma EndsLater(r: string, t: string, s: string)
    requires EndsAtBrace(r, t) && IsSuffix(t, s)
    ensures EndsAtBrace(r, s)
  {
    SuffixTransitive(r, t, s);
    assert t[|t| - |r| - 1] == s[|s| - |r| - 1];
  }

  /** The text after one member's value lies within the member list. */
  lemma MemberSuffix(text: string, seen: set<string>)
    requires ParseFields(text, seen).Ok?
    ensures var s := SkipSpace(text);
            var k := ParseChars(s[1..]).value;
            var v := ParseValue(SkipSpace(k.rest)[1..]).value;
            IsSuffix(SkipSpace(v.rest), text)
    decreases |text|, 0
  {
    var s := SkipSpace(text);
    var k := ParseChars(s[1..]).value;
    var colon := SkipSpace(k.rest);
    var v := ParseValue(colon[1..]).value;
    ValueSuffix(colon[1..]);
    SpaceThenSuffix(v.rest, k.rest);
    CharsSuffix(s[1..]);
    SuffixTransitive(v.rest, k.rest, s[1..]);
    SpaceThenSuffix(v.rest, text);
    SpaceSuffix(v.rest);
    SuffixTransitive(SkipSpace(v.rest), v.rest, text);
  }

  lemma {:induction false} FieldsSuffix(text: string, seen: set<string>)
    ensures ParseFields(text, seen).Ok? ==> EndsAtBrace(ParseFields(text, seen).value.rest, text)
    decreases |text|, 1
  {
    if ParseFields(text, seen).Ok? {
      var r := ParseFields(text, seen).value.rest;
      var k := ParseChars(SkipSpace(text)[1..]).value;
      var t := SkipSpace(ParseValue(SkipSpace(k.rest)[1..]).value.rest);
      MemberSuffix(text, seen);
      if t[0] != '}' {
        FieldsSuffix(t[1..], seen + {k.value});
        SuffixStep(t[1..], t, 1);
        EndsLater(r, t[1..], t);
      }
      EndsLater(r, t, text);
    }
  }

  lemma InsideEnds(text: string)
    requires ParseValue(text).Ok? && ParseValue(text).value.value.Obj?
    ensures SkipSpace(text) != "" && EndsAtBrace(ParseValue(text).value.rest, SkipSpace(text)[1..])
  {
    var inside := SkipSpace(text)[1..];
    if SkipSpace(inside) != "" && SkipSpace(inside)[0] == '}' {
      SpaceSuffix(inside);
      EndsLater(SkipSpace(inside)[1..], SkipSpace(inside), inside);
    } else {
      FieldsSuffix(inside, {});
    }
  }

  /** The text of an object ends in a closing brace. */
  lemma ObjectEnds(text: string)
    requires ParseValue(text).Ok? && ParseValue(text).value.value.Obj?
    ensures EndsAtBrace(ParseValue(text).value.rest, text)
  {
    var s := SkipSpace(text);
    InsideEnds(text);
    SpaceSuffix(text);
    SuffixStep(s[1..], s, 1);
    SuffixTransitive(s[1..], s, text);
    EndsLater(ParseValue(text).value.rest, s[1..], text);
  }
}
