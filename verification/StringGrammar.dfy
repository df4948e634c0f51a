/** The strings of a document, written out piece by piece (section 7 of RFC 8259): what the
    parser reads is exactly this grammar. */
module StringGrammar {
  import opened Prelude
  import opened Json

  // ---- Hex digits ---------------------------------------------------------------------

  /** c is the hex digit of value d, in either case. */
  predicate DigitIs(c: char, d: int) {
    || (0 <= d < 10 && c as int == '0' as int + d)
    || (10 <= d < 16 && (c as int == 'a' as int + (d - 10) || c as int == 'A' as int + (d - 10)))
  }

  /** Four hex digits and the code unit they write. */
  ghost predicate CodeUnit(hex: string, n: int) {
    |hex| == 4 && exists a, b, c, d :: DigitIs(hex[0], a) && DigitIs(hex[1], b) && DigitIs(hex[2], c) && DigitIs(hex[3], d)
                                       && n == 0x1000 * a + 0x100 * b + 0x10 * c + d
  }

  lemma DigitMeans(c: char, d: nat)
    ensures HexValue(c) == Some(d) <==> DigitIs(c, d)
  {
  }

  lemma DigitOf(c: char) returns (d: nat)
    requires HexValue(c).Some?
    ensures DigitIs(c, d) && HexValue(c) == Some(d)
  {
    d := HexValue(c).value;
    DigitMeans(c, d);
  }

  lemma UnitIsWritten(s: string)
    requires Hex4(s).Some?
    ensures |s| >= 4 && CodeUnit(s[..4], Hex4(s).value)
  {
    var a := DigitOf(s[0]);
    var b := DigitOf(s[1]);
    var c := DigitOf(s[2]);
    var d := DigitOf(s[3]);
    var hex := s[..4];
    assert hex[0] == s[0] && hex[1] == s[1] && hex[2] == s[2] && hex[3] == s[3];
    assert Hex4(s).value == (a * 16 + b) * 256 + (c * 16 + d);
  }

  lemma DigitsAreRead(s: string, a: int, b: int, c: int, d: int)
    requires |s| >= 4 && DigitIs(s[0], a) && DigitIs(s[1], b) && DigitIs(s[2], c) && DigitIs(s[3], d)
    ensures Hex4(s) == Some(0x1000 * a + 0x100 * b + 0x10 * c + d)
  {
    DigitMeans(s[0], a);
    DigitMeans(s[1], b);
    DigitMeans(s[2], c);
    DigitMeans(s[3], d);
  }

  lemma UnitIsRead(s: string, n: int)
    requires |s| >= 4 && CodeUnit(s[..4], n)
    ensures n >= 0 && Hex4(s) == Some(n)
  {
    var hex := s[..4];
    assert hex[0] == s[0] && hex[1] == s[1] && hex[2] == s[2] && hex[3] == s[3];
    var a, b, c, d :| DigitIs(hex[0], a) && DigitIs(hex[1], b) && DigitIs(hex[2], c) && DigitIs(hex[3], d)
                      && n == 0x1000 * a + 0x100 * b + 0x10 * c + d;
    DigitsAreRead(s, a, b, c, d);
  }

  // ---- Pieces -------------------------------------------------------------------------

  /** One character of a string as it may be written: itself, a short escape, a code unit, or
      two code units for one character. */
  datatype Piece = Plain(c: char) | Short(letter: char) | Unit(hex: string) | Pair(high: string, low: string)

  function PieceText(p: Piece): string {
    match p
    case Plain(c) => [c]
    case Short(letter) => "\\" + [letter]
    case Unit(hex) => UnitText(hex)
    case Pair(high, low) => UnitText(high) + UnitText(low)
  }

  function UnitText(hex: string): string { ['\\', 'u'] + hex }

  /** The piece is written properly and stands for c. A code unit of the surrogate range on its
      own stands for the replacement character. */
  ghost predicate Stands(p: Piece, c: char) {
    match p
    case Plain(x) => x >= ' ' && x != '\"' && x != '\\' && c == x
    case Short(letter) =>
      || (letter == '\"' && c == '\"') || (letter == '\\' && c == '\\') || (letter == '/' && c == '/')
      || (letter == 'b' && c == '\U{0008}') || (letter == 'f' && c == '\U{000C}')
      || (letter == 'n' && c == '\n') || (letter == 'r' && c == '\r') || (letter == 't' && c == '\t')
    case Unit(hex) => exists n :: CodeUnit(hex, n) && c as int == if 0xD800 <= n <= 0xDFFF then 0xFFFD else n
    case Pair(high, low) =>
      exists h, l :: CodeUnit(high, h) && CodeUnit(low, l) && 0xD800 <= h <= 0xDBFF && 0xDC00 <= l <= 0xDFFF
                     && c as int == 0x10000 + (h - 0xD800) * 0x400 + (l - 0xDC00)
  }

  ghost predicate WritesHigh(p: Piece) { p.Unit? && exists n :: CodeUnit(p.hex, n) && 0xD800 <= n <= 0xDBFF }

  ghost predicate WritesLow(p: Piece) { p.Unit? && exists n :: CodeUnit(p.hex, n) && 0xDC00 <= n <= 0xDFFF }

  function Text(pieces: seq<Piece>): string {
    if pieces == [] then "" else PieceText(pieces[0]) + Text(pieces[1..])
  }

  /** The pieces stand for the characters, and no two units make a pair. */
  ghost predicate Writes(pieces: seq<Piece>, chars: string) {
    && |pieces| == |chars| && (forall i :: 0 <= i < |pieces| ==> Stands(pieces[i], chars[i]))
    && forall i :: 0 <= i < |pieces| - 1 ==> !(WritesHigh(pieces[i]) && WritesLow(pieces[i+1]))
  }

  lemma UnitOf(hex: string, n: int)
    requires CodeUnit(hex, n)
    ensures n >= 0 && Hex4(hex) == Some(n)
  {
    assert hex[..4] == hex;
    UnitIsRead(hex, n);
  }

  lemma UnitThen(hex: string, rest: string)
    requires |hex| == 4
    ensures Hex4(hex + rest) == Hex4(hex)
  {
  }

  // ---- Pieces are read ----------------------------------------------------------------

  /** A code unit is written at the front of s. */
  predicate UnitAt(s: string, n: int) { |s| >= 6 && s[0] == '\\' && s[1] == 'u' && Hex4(s[2..]) == Some(n) }

  lemma UnitStands(hex: string, n: int, rest: string)
    requires CodeUnit(hex, n)
    ensures n >= 0 && UnitAt(UnitText(hex) + rest, n) && (UnitText(hex) + rest)[6..] == rest
  {
    UnitOf(hex, n);
    UnitThen(hex, rest);
    assert (UnitText(hex) + rest)[2..] == hex + rest;
  }

  /** A low surrogate escape comes next. */
  ghost predicate LowFollows(rest: string) { exists n :: UnitAt(rest, n) && 0xDC00 <= n <= 0xDFFF }

  lemma ShortReads(letter: char, c: char, rest: string)
    requires Stands(Short(letter), c)
    ensures ParseEscape("\\" + [letter] + rest) == Ok(Parsed(c, rest))
  {
    assert ("\\" + [letter] + rest)[2..] == rest;
  }

  lemma UnitEscape(s: string, n: int, c: char)
    requires UnitAt(s, n) && n >= 0 && c as int == if 0xD800 <= n <= 0xDFFF then 0xFFFD else n
    requires 0xD800 <= n <= 0xDBFF ==> !LowFollows(s[6..])
    ensures ParseEscape(s) == Ok(Parsed(c, s[6..]))
  {
    if |s| >= 12 && s[6] == '\\' && s[7] == 'u' && Hex4(s[8..]).Some? {
      assert s[6..][2..] == s[8..];
      assert UnitAt(s[6..], Hex4(s[8..]).value);
    }
  }

  lemma UnitReads(hex: string, c: char, rest: string)
    requires Stands(Unit(hex), c) && (WritesHigh(Unit(hex)) ==> !LowFollows(rest))
    ensures ParseEscape(UnitText(hex) + rest) == Ok(Parsed(c, rest))
  {
    var n :| CodeUnit(hex, n) && c as int == if 0xD800 <= n <= 0xDFFF then 0xFFFD else n;
    UnitStands(hex, n, rest);
    UnitEscape(UnitText(hex) + rest, n, c);
  }

  lemma PairEscape(s: string, h: int, l: int, c: char)
    requires UnitAt(s, h) && UnitAt(s[6..], l) && 0xD800 <= h <= 0xDBFF && 0xDC00 <= l <= 0xDFFF
    requires c as int == 0x10000 + (h - 0xD800) * 0x400 + (l - 0xDC00)
    ensures ParseEscape(s) == Ok(Parsed(c, s[12..]))
  {
    assert s[6..][2..] == s[8..] && s[6] == s[6..][0] && s[7] == s[6..][1];
  }

  lemma PairReads(high: string, low: string, c: char, rest: string)
    requires Stands(Pair(high, low), c)
    ensures ParseEscape(UnitText(high) + (UnitText(low) + rest)) == Ok(Parsed(c, rest))
  {
    var h, l :| CodeUnit(high, h) && CodeUnit(low, l) && 0xD800 <= h <= 0xDBFF && 0xDC00 <= l <= 0xDFFF
                && c as int == 0x10000 + (h - 0xD800) * 0x400 + (l - 0xDC00);
    var tail := UnitText(low) + rest;
    var s := UnitText(high) + tail;
    UnitStands(high, h, tail);
    UnitStands(low, l, rest);
    assert s[12..] == s[6..][6..];
    PairEscape(s, h, l, c);
  }

  /** Reading goes on behind a piece with its character in front. */
  function Prepend(c: char, r: Result<Parsed<string>>): Result<Parsed<string>> {
    match r
    case Err(code) => Err(code)
    case Ok(p) => Ok(Parsed([c] + p.value, p.rest))
  }

  lemma EscapeSteps(s: string, c: char, rest: string)
    requires s != "" && s[0] == '\\' && ParseEscape(s) == Ok(Parsed(c, rest))
    ensures ParseChars(s) == Prepend(c, ParseChars(rest))
  {
  }

  lemma PieceReads(p: Piece, c: char, rest: string)
    requires Stands(p, c) && (WritesHigh(p) ==> !LowFollows(rest))
    ensures ParseChars(PieceText(p) + rest) == Prepend(c, ParseChars(rest))
  {
    var s := PieceText(p) + rest;
    match p
    case Plain(x) => assert s[0] == x && s[1..] == rest;
    case Short(letter) =>
      ShortReads(letter, c, rest);
      EscapeSteps(s, c, rest);
    case Unit(hex) =>
      UnitReads(hex, c, rest);
      EscapeSteps(s, c, rest);
    case Pair(high, low) =>
      PairReads(high, low, c, rest);
      Assoc(UnitText(high), UnitText(low), rest);
      EscapeSteps(s, c, rest);
  }

  /** A piece that writes no low unit does not begin like one. */
  lemma NoLowAhead(p: Piece, c: char, rest: string)
    requires Stands(p, c) && !WritesLow(p)
    ensures !LowFollows(PieceText(p) + rest)
  {
    match p
    case Plain(x) => assert (PieceText(p) + rest)[0] == x;
    case Short(letter) => assert (PieceText(p) + rest)[1] == letter;
    case Unit(hex) => NoLowUnit(hex, c, rest);
    case Pair(high, low) =>
      HighFirst(high, low, c, rest);
      Assoc(UnitText(high), UnitText(low), rest);
  }

  lemma NoLowUnit(hex: string, c: char, rest: string)
    requires Stands(Unit(hex), c) && !WritesLow(Unit(hex))
    ensures !LowFollows(UnitText(hex) + rest)
  {
    var n :| CodeUnit(hex, n) && c as int == if 0xD800 <= n <= 0xDFFF then 0xFFFD else n;
    UnitStands(hex, n, rest);
  }

  lemma HighFirst(high: string, low: string, c: char, rest: string)
    requires Stands(Pair(high, low), c)
    ensures !LowFollows(UnitText(high) + (UnitText(low) + rest))
  {
    var h, l :| CodeUnit(high, h) && CodeUnit(low, l) && 0xD800 <= h <= 0xDBFF && 0xDC00 <= l <= 0xDFFF
                && c as int == 0x10000 + (h - 0xD800) * 0x400 + (l - 0xDC00);
    UnitStands(high, h, UnitText(low) + rest);
  }

  lemma WritesTail(pieces: seq<Piece>, chars: string)
    requires Writes(pieces, chars) && pieces != []
    ensures Writes(pieces[1..], chars[1..]) && Stands(pieces[0], chars[0])
    ensures |pieces| > 1 && WritesHigh(pieces[0]) ==> Stands(pieces[1], chars[1]) && !WritesLow(pieces[1])
  {
  }

  lemma TextThen(pieces: seq<Piece>, end: string)
    requires pieces != []
    ensures Text(pieces) + end == PieceText(pieces[0]) + (Text(pieces[1..]) + end)
  {
    Assoc(PieceText(pieces[0]), Text(pieces[1..]), end);
  }

  lemma NextIsNoLow(pieces: seq<Piece>, chars: string, end: string)
    requires |pieces| == |chars| && (pieces != [] ==> Stands(pieces[0], chars[0]) && !WritesLow(pieces[0]))
    requires end != "" && end[0] == Quote
    ensures !LowFollows(Text(pieces) + end)
  {
    if pieces == [] {
      assert Text(pieces) + end == end;
    } else {
      TextThen(pieces, end);
      NoLowAhead(pieces[0], chars[0], Text(pieces[1..]) + end);
    }
  }

  lemma {:induction false} StringReadsTo(pieces: seq<Piece>, chars: string, end: string, rest: string)
    requires Writes(pieces, chars) && end == [Quote] + rest
    ensures ParseChars(Text(pieces) + end) == Ok(Parsed(chars, rest))
  {
    if pieces == [] {
      assert Text(pieces) + end == end && end[1..] == rest;
    } else {
      WritesTail(pieces, chars);
      TextThen(pieces, end);
      StringReadsTo(pieces[1..], chars[1..], end, rest);
      if WritesHigh(pieces[0]) { NextIsNoLow(pieces[1..], chars[1..], end); }
      PieceReads(pieces[0], chars[0], Text(pieces[1..]) + end);
      assert [chars[0]] + chars[1..] == chars;
    }
  }

  /** Every string that is written in pieces is read as the characters they stand for. */
  lemma StringReads(pieces: seq<Piece>, chars: string, rest: string)
    requires Writes(pieces, chars)
    ensures ParseChars(Text(pieces) + ([Quote] + rest)) == Ok(Parsed(chars, rest))
  {
    StringReadsTo(pieces, chars, [Quote] + rest, rest);
  }

  // ---- What is read is pieces ---------------------------------------------------------

  lemma UnitParts(s: string) returns (hex: string)
    requires |s| >= 2 && s[0] == '\\' && s[1] == 'u' && Hex4(s[2..]).Some?
    ensures CodeUnit(hex, Hex4(s[2..]).value) && s == UnitText(hex) + s[6..]
  {
    UnitIsWritten(s[2..]);
    hex := s[2..][..4];
    assert s[2..6] == hex;
    assert s == s[..2] + s[2..6] + s[6..];
  }

  lemma PairParts(s: string) returns (p: Piece)
    requires |s| >= 8 && s[0] == '\\' && s[1] == 'u' && s[6] == '\\' && s[7] == 'u'
    requires Hex4(s[2..]).Some? && Hex4(s[8..]).Some?
    requires HighSurrogate(Hex4(s[2..]).value) && LowSurrogate(Hex4(s[8..]).value)
    ensures |s| >= 12 && s == PieceText(p) + s[12..] && p.Pair?
    ensures Stands(p, PairChar(Hex4(s[2..]).value, Hex4(s[8..]).value))
  {
    var high := UnitParts(s);
    assert s[6..][2..] == s[8..] && s[6..][6..] == s[12..];
    var low := UnitParts(s[6..]);
    p := Pair(high, low);
    Assoc(UnitText(high), UnitText(low), s[12..]);
  }

  lemma LoneParts(s: string) returns (p: Piece)
    requires |s| >= 2 && s[0] == '\\' && s[1] == 'u' && Hex4(s[2..]).Some?
    ensures |s| >= 6 && s == PieceText(p) + s[6..] && p.Unit? && CodeUnit(p.hex, Hex4(s[2..]).value)
    ensures Stands(p, UnitChar(Hex4(s[2..]).value))
  {
    var hex := UnitParts(s);
    p := Unit(hex);
  }

  lemma EscapeParses(s: string) returns (p: Piece)
    requires s != "" && s[0] == '\\' && ParseEscape(s).Ok?
    ensures s == PieceText(p) + ParseEscape(s).value.rest && Stands(p, ParseEscape(s).value.value)
    ensures WritesHigh(p) ==> !LowFollows(ParseEscape(s).value.rest)
  {
    if s[1] != 'u' {
      p := Short(s[1]);
      assert s == "\\" + [s[1]] + s[2..];
    } else if |s| >= 8 && s[6] == '\\' && s[7] == 'u' && HighSurrogate(Hex4(s[2..]).value) && Hex4(s[8..]).Some?
              && LowSurrogate(Hex4(s[8..]).value) {
      p := PairParts(s);
    } else {
      p := LoneParts(s);
      NotPaired(s, p);
    }
  }

  /** A high unit that is read on its own has no low unit behind it. */
  lemma NotPaired(s: string, p: Piece)
    requires |s| >= 6 && Hex4(s[2..]).Some? && p.Unit? && CodeUnit(p.hex, Hex4(s[2..]).value)
    requires !(|s| >= 8 && s[6] == '\\' && s[7] == 'u' && HighSurrogate(Hex4(s[2..]).value) && Hex4(s[8..]).Some?
               && LowSurrogate(Hex4(s[8..]).value))
    ensures WritesHigh(p) ==> !LowFollows(s[6..])
  {
    if WritesHigh(p) {
      var n :| CodeUnit(p.hex, n) && 0xD800 <= n <= 0xDBFF;
      UnitOf(p.hex, n);
      UnitOf(p.hex, Hex4(s[2..]).value);
      if |s| >= 12 { assert s[6..][2..] == s[8..] && s[6..][0] == s[6] && s[6..][1] == s[7]; }
    }
  }

  lemma LowAhead(p: Piece, rest: string)
    requires WritesLow(p)
    ensures LowFollows(PieceText(p) + rest)
  {
    var n :| CodeUnit(p.hex, n) && 0xDC00 <= n <= 0xDFFF;
    UnitStands(p.hex, n, rest);
  }

  lemma WritesCons(p: Piece, c: char, pieces: seq<Piece>, chars: string)
    requires Stands(p, c) && Writes(pieces, chars)
    requires pieces != [] && WritesHigh(p) ==> !WritesLow(pieces[0])
    ensures Writes([p] + pieces, [c] + chars)
  {
  }

  lemma ConsPieces(p: Piece, c: char, pieces: seq<Piece>, chars: string, s: string, rest: string, end: string)
    requires Stands(p, c) && Writes(pieces, chars) && rest == Text(pieces) + end && s == PieceText(p) + rest
    requires WritesHigh(p) ==> !LowFollows(rest)
    ensures Writes([p] + pieces, [c] + chars) && s == Text([p] + pieces) + end
  {
    if pieces != [] {
      TextThen(pieces, end);
      if WritesLow(pieces[0]) { LowAhead(pieces[0], Text(pieces[1..]) + end); }
    }
    WritesCons(p, c, pieces, chars);
    TextThen([p] + pieces, end);
    assert ([p] + pieces)[1..] == pieces;
  }

  lemma PlainParses(s: string)
    requires s != "" && s[0] != Quote && s[0] != '\\' && ParseChars(s).Ok?
    ensures Stands(Plain(s[0]), s[0]) && s == PieceText(Plain(s[0])) + s[1..]
    ensures ParseChars(s) == Prepend(s[0], ParseChars(s[1..]))
  {
  }

  /** And every string that is read is written in pieces: nothing else is accepted. */
  lemma {:induction false} StringParses(s: string) returns (pieces: seq<Piece>)
    requires ParseChars(s).Ok?
    ensures Writes(pieces, ParseChars(s).value.value) && s == Text(pieces) + ([Quote] + ParseChars(s).value.rest)
    decreases |s|
  {
    if s[0] == Quote {
      pieces := [];
      assert s == [Quote] + s[1..];
    } else {
      var p, c, rest;
      if s[0] == '\\' {
        p := EscapeParses(s);
        c, rest := ParseEscape(s).value.value, ParseEscape(s).value.rest;
        EscapeSteps(s, c, rest);
      } else {
        PlainParses(s);
        p, c, rest := Plain(s[0]), s[0], s[1..];
      }
      var tail := StringParses(rest);
      ConsPieces(p, c, tail, ParseChars(rest).value.value, s, rest, [Quote] + ParseChars(rest).value.rest);
      pieces := [p] + tail;
    }
  }
}
