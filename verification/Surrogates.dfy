/** The scan that refuses unpaired surrogate escapes before a body is decoded. The program
    counts the parity of backslash runs; the reference reads one escape at a time (sections
    7 and 8.2 of RFC 8259). */
module Surrogates {
  import opened Prelude
  import opened Json

  // ---- The reference: tokens, then pairing --------------------------------------------

  /** A character, an escape with one letter, a `\u` without four hex digits, a code unit,
      or a backslash that ends the text. */
  datatype Token = Char(c: char) | Simple(c: char) | Malformed | Unit(n: nat) | Dangling

  datatype Read = Read(token: Token, size: nat)

  function NextToken(s: string): (r: Read)
    requires s != []
    ensures 1 <= r.size <= |s|
  {
    if s[0] != Backslash then Read(Char(s[0]), 1)
    else if |s| == 1 then Read(Dangling, 1)
    else if s[1] != 'u' then Read(Simple(s[1]), 2)
    else match Hex4(s[2..])
      case None => Read(Malformed, 2)
      case Some(n) => Read(Unit(n), 6)
  }

  function Tokens(s: string): seq<Token> {
    if s == [] then [] else [NextToken(s).token] + Tokens(s[NextToken(s).size..])
  }

  predicate High(t: Token) { t.Unit? && HighSurrogate(t.n) }

  predicate Low(t: Token) { t.Unit? && LowSurrogate(t.n) }

  /** Every high surrogate is directly followed by a low one, and no other low one stands. */
  predicate Paired(tokens: seq<Token>) {
    && (forall i :: 0 <= i < |tokens| && High(tokens[i]) ==> i + 1 < |tokens| && Low(tokens[i+1]))
    && (forall i :: 0 <= i < |tokens| && Low(tokens[i]) ==> i > 0 && High(tokens[i-1]))
  }

  /** The same, read from the left. */
  predicate PairedFrom(tokens: seq<Token>) {
    tokens == [] ||
    if High(tokens[0]) then |tokens| > 1 && Low(tokens[1]) && PairedFrom(tokens[2..])
    else !Low(tokens[0]) && PairedFrom(tokens[1..])
  }

  lemma PairedTail(tokens: seq<Token>, n: nat)
    requires n <= |tokens| && Paired(tokens) && (n < |tokens| ==> !Low(tokens[n]))
    ensures Paired(tokens[n..])
  {
    var t := tokens[n..];
    forall i | 0 <= i < |t| && High(t[i]) ensures i + 1 < |t| && Low(t[i+1]) { assert High(tokens[n+i]); }
    forall i | 0 <= i < |t| && Low(t[i]) ensures i > 0 && High(t[i-1]) { assert Low(tokens[n+i]); }
  }

  lemma {:induction false} PairedIff(tokens: seq<Token>)
    ensures PairedFrom(tokens) <==> Paired(tokens)
  {
    if tokens != [] {
      var n := if High(tokens[0]) then 2 else 1;
      if Paired(tokens) {
        assert n == 2 ==> Low(tokens[1]);
        PairedTail(tokens, n);
        PairedIff(tokens[n..]);
      } else if n <= |tokens| {
        PairedIff(tokens[n..]);
        if PairedFrom(tokens) { PairedPrepend(tokens, n); }
      }
    }
  }

  lemma PairedPrepend(tokens: seq<Token>, n: nat)
    requires tokens != [] && n == (if High(tokens[0]) then 2 else 1) && n <= |tokens|
    requires !Low(tokens[0]) && (n == 2 ==> Low(tokens[1])) && Paired(tokens[n..])
    ensures Paired(tokens)
  {
    var t := tokens[n..];
    forall i | 0 <= i < |tokens| && High(tokens[i]) ensures i + 1 < |tokens| && Low(tokens[i+1]) {
      if i >= n { assert High(t[i-n]); }
    }
    forall i | 0 <= i < |tokens| && Low(tokens[i]) ensures i > 0 && High(tokens[i-1]) {
      if i >= n { assert Low(t[i-n]); }
    }
  }

  /** The reference verdict on a text. */
  predicate WellPaired(s: string) { PairedFrom(Tokens(s)) }

  // ---- The scanner's moves ------------------------------------------------------------

  predicate Backslashes(s: string, i: nat, j: nat) {
    j <= |s| && forall k :: i <= k < j ==> s[k] == Backslash
  }

  /** An even run of backslashes is escaped backslashes. */
  lemma {:induction false} EvenRun(s: string, i: nat, n: nat)
    requires Backslashes(s, i, i + 2 * n)
    ensures WellPaired(s[i..]) <==> WellPaired(s[i+2*n..])
    decreases n
  {
    if n > 0 {
      assert NextToken(s[i..]) == Read(Simple(Backslash), 2);
      StepOver(s[i..]);
      assert s[i..][2..] == s[i+2..];
      EvenRun(s, i + 2, n - 1);
      assert i + 2 + 2 * (n - 1) == i + 2 * n;
    }
  }

  /** Anything but a surrogate escape can be stepped over. */
  lemma StepOver(s: string)
    requires s != [] && !High(NextToken(s).token) && !Low(NextToken(s).token)
    ensures WellPaired(s) <==> WellPaired(s[NextToken(s).size..])
  {
    assert Tokens(s)[1..] == Tokens(s[NextToken(s).size..]);
  }

  lemma StepOverPair(s: string)
    requires s != [] && High(NextToken(s).token)
    ensures var t := s[NextToken(s).size..];
            WellPaired(s) <==> t != [] && Low(NextToken(t).token) && WellPaired(t[NextToken(t).size..])
  {
    var t := s[NextToken(s).size..];
    assert Tokens(s)[1..] == Tokens(t);
    if t != [] {
      assert Tokens(s)[2..] == Tokens(t)[1..] == Tokens(t[NextToken(t).size..]);
    }
  }

  // ---- The scanner --------------------------------------------------------------------

  function HexFold(s: string): (v: Option<nat>) {
    if s == [] then Some(0)
    else
      var head, last := HexFold(s[..|s|-1]), HexValue(s[|s|-1]);
      if head.None? || last.None? then None else Some(head.value * 16 + last.value)
  }

  lemma FoldIsHex4(s: string)
    requires |s| >= 4
    ensures HexFold(s[..4]) == Hex4(s)
  {
    assert s[..4][..3] == s[..3] && s[..3][..2] == s[..2] && s[..2][..1] == s[..1] && s[..1][..0] == [];
    var a, b, c, d := HexValue(s[0]), HexValue(s[1]), HexValue(s[2]), HexValue(s[3]);
    assert HexFold(s[..1]) == a;
    assert HexFold(s[..2]) == Hex2(s[0], s[1]);
  }

  lemma FoldAt(data: string, at: nat)
    requires at + 4 <= |data|
    ensures HexFold(data[at..at+4]) == Hex4(data[at..])
  {
    FoldIsHex4(data[at..]);
    assert data[at..][..4] == data[at..at+4];
  }

  lemma {:induction false} FoldFails(s: string, k: nat)
    requires k < |s| && HexValue(s[k]).None?
    ensures HexFold(s).None?
  {
    if k < |s| - 1 { FoldFails(s[..|s|-1], k); }
  }

  /** Exactly four hex digits starting at data[at]. */
  method ParseHex4(data: string, at: nat) returns (r: Option<nat>)
    requires at <= |data|
    ensures r == Hex4(data[at..])
  {
    if at + 4 > |data| { return None; }
    var v := 0;
    for k := 0 to 4
      invariant HexFold(data[at..at+k]) == Some(v)
    {
      var d := HexValue(data[at+k]);
      if d.None? {
        FoldFails(data[at..at+4], k);
        FoldAt(data, at);
        return None;
      }
      v := v * 16 + d.value;
      assert data[at..at+k+1][..k] == data[at..at+k];
    }
    FoldAt(data, at);
    r := Some(v);
  }

  /** Stays in bounds, terminates, and refuses exactly the texts the reference refuses. */
  method RejectUnpairedSurrogateEscapes(data: string) returns (r: Option<Code>)
    ensures r.None? <==> Paired(Tokens(data))
    ensures r.Some? ==> r.value == InvalidContract
  {
    PairedIff(Tokens(data));
    var i := 0;
    assert data[0..] == data;
    while i < |data|
      invariant i <= |data|
      invariant WellPaired(data) <==> WellPaired(data[i..])
    {
      if data[i] != Backslash {
        StepOver(data[i..]);
        assert data[i..][1..] == data[i+1..];
        i := i + 1;
        continue;
      }
      var next := ScanRun(data, i);
      if next.None? { return Some(InvalidContract); }
      i := next.value;
    }
    assert data[i..] == [];
    r := None;
  }

  /** A whole run of backslashes from data[i], with the escape it introduces if its length
      is odd. */
  method ScanRun(data: string, i: nat) returns (next: Option<nat>)
    requires i < |data| && data[i] == Backslash
    ensures next.None? ==> !WellPaired(data[i..])
    ensures next.Some? ==> i < next.value <= |data| && (WellPaired(data[i..]) <==> WellPaired(data[next.value..]))
  {
    var j := RunEnd(data, i);
    ghost var half := (j - i) / 2;
    EvenRun(data, i, half);
    if (j - i) % 2 == 0 {
      assert i + 2 * half == j;
      return Some(j);
    }
    assert i + 2 * half == j - 1;
    next := ScanEscape(data, j);
  }

  method RunEnd(data: string, i: nat) returns (j: nat)
    requires i < |data| && data[i] == Backslash
    ensures i < j <= |data| && Backslashes(data, i, j) && (j < |data| ==> data[j] != Backslash)
  {
    j := i;
    while j < |data| && data[j] == Backslash
      invariant i <= j <= |data| && Backslashes(data, i, j)
    {
      j := j + 1;
    }
  }

  /** The escape whose type character stands at data[j], after an odd run: where to go on,
      or None for an unpaired surrogate. */
  method ScanEscape(data: string, j: nat) returns (next: Option<nat>)
    requires 0 < j <= |data| && data[j-1] == Backslash && (j < |data| ==> data[j] != Backslash)
    ensures next.None? ==> !WellPaired(data[j-1..])
    ensures next.Some? ==> j <= next.value <= |data| && (WellPaired(data[j-1..]) <==> WellPaired(data[next.value..]))
  {
    ghost var esc := data[j-1..];
    if j >= |data| || data[j] != 'u' {
      StepOver(esc);
      if j < |data| {
        StepOver(data[j..]);
        assert esc[2..] == data[j..][1..];
      } else {
        assert esc[1..] == data[j..];
      }
      return Some(j);
    }
    assert esc[2..] == data[j+1..];
    var cu := ParseHex4(data, j + 1);
    if cu.None? {
      StepOver(esc);
      return Some(j + 1);
    }
    assert NextToken(esc) == Read(Unit(cu.value), 6) && esc[6..] == data[j+5..];
    if HighSurrogate(cu.value) {
      StepOverPair(esc);
      var paired := LowFollows(data, j + 5);
      return if paired then Some(j + 11) else None;
    } else if LowSurrogate(cu.value) {
      return None;
    }
    StepOver(esc);
    next := Some(j + 5);
  }

  /** Whether a low surrogate escape stands at data[at]. */
  method LowFollows(data: string, at: nat) returns (b: bool)
    requires at <= |data|
    ensures b <==> at < |data| && Low(NextToken(data[at..]).token)
    ensures b ==> NextToken(data[at..]).size == 6 && at + 6 <= |data| && data[at..][6..] == data[at+6..]
  {
    if at + 1 < |data| && data[at] == Backslash && data[at+1] == 'u' {
      var lo := ParseHex4(data, at + 2);
      assert data[at..][2..] == data[at+2..];
      if lo.Some? && LowSurrogate(lo.value) {
        assert data[at..][6..] == data[at+6..];
        return true;
      }
    }
    b := false;
  }

  // ---- Canonical text always passes ---------------------------------------------------

  /** Text that leaves the verdict to what follows it. */
  ghost predicate Neutral(a: string) {
    forall rest: string :: WellPaired(a + rest) <==> WellPaired(rest)
  }

  lemma NeutralConcat(a: string, b: string)
    requires Neutral(a) && Neutral(b)
    ensures Neutral(a + b)
  {
    forall rest: string ensures WellPaired((a + b) + rest) <==> WellPaired(rest) {
      Assoc(a, b, rest);
      assert WellPaired(a + (b + rest)) <==> WellPaired(b + rest);
    }
  }

  lemma NeutralChar(c: char)
    requires c != Backslash
    ensures Neutral([c])
  {
    forall rest: string ensures WellPaired([c] + rest) <==> WellPaired(rest) {
      StepOver([c] + rest);
      assert ([c] + rest)[1..] == rest;
    }
  }

  lemma NeutralEscape(c: char)
    ensures Neutral(Escape(c))
  {
    if Escape(c) == [c] {
      NeutralChar(c);
    } else {
      forall rest: string ensures WellPaired(Escape(c) + rest) <==> WellPaired(rest) {
        var s := Escape(c) + rest;
        if |Escape(c)| == 2 {
          assert s[2..] == rest;
        } else {
          assert s[6..] == rest;
          if c < ' ' { ControlReadsBack(c, rest); } else { SeparatorReadsBack(c, rest); }
        }
        StepOver(s);
      }
    }
  }

  lemma NeutralEmpty()
    ensures Neutral("")
  {
    forall rest: string ensures WellPaired("" + rest) <==> WellPaired(rest) { assert "" + rest == rest; }
  }

  lemma {:induction false} NeutralEscapes(s: string)
    ensures Neutral(EscapeAll(s))
  {
    if s == [] {
      NeutralEmpty();
    } else {
      NeutralEscape(s[0]);
      NeutralEscapes(s[1..]);
      NeutralConcat(Escape(s[0]), EscapeAll(s[1..]));
    }
  }

  lemma NeutralString(s: string)
    ensures Neutral(PrintString(s))
  {
    NeutralChar(Quote);
    NeutralEscapes(s);
    NeutralConcat([Quote], EscapeAll(s));
    NeutralConcat([Quote] + EscapeAll(s), [Quote]);
  }

  lemma NeutralAround(open: char, body: string, close: char)
    requires open != Backslash && close != Backslash && Neutral(body)
    ensures Neutral([open] + body + [close])
  {
    NeutralChar(open);
    NeutralChar(close);
    NeutralConcat([open], body);
    NeutralConcat([open] + body, [close]);
  }

  lemma NeutralBetween(a: string, sep: char, b: string)
    requires sep != Backslash && Neutral(a) && Neutral(b)
    ensures Neutral(a + [sep] + b)
  {
    NeutralChar(sep);
    NeutralConcat(a, [sep]);
    NeutralConcat(a + [sep], b);
  }

  lemma {:induction false} NeutralValue(j: Json)
    requires Plain(j)
    ensures Neutral(Print(j))
    decreases j, 0
  {
    match j
    case Str(s) => NeutralString(s);
    case Arr(items) =>
      NeutralItems(items);
      NeutralAround('[', PrintItems(items), ']');
    case Obj(fields) =>
      NeutralFields(fields, {});
      NeutralAround('{', PrintFields(fields), '}');
  }

  lemma {:induction false} NeutralItems(items: seq<Json>)
    requires forall i :: 0 <= i < |items| ==> Plain(items[i])
    ensures Neutral(PrintItems(items))
    decreases items, 1
  {
    if items == [] {
      NeutralEmpty();
    } else {
      NeutralValue(items[0]);
      if |items| > 1 {
        NeutralItems(items[1..]);
        NeutralBetween(Print(items[0]), ',', PrintItems(items[1..]));
      }
    }
  }

  lemma {:induction false} NeutralFields(fields: seq<Field>, seen: set<string>)
    requires PlainFields(fields, seen)
    ensures Neutral(PrintFields(fields))
    decreases fields, 1
  {
    if fields == [] {
      NeutralEmpty();
    } else {
      NeutralString(fields[0].key);
      NeutralValue(fields[0].value);
      NeutralBetween(PrintString(fields[0].key), ':', Print(fields[0].value));
      if |fields| > 1 {
        NeutralFields(fields[1..], seen + {fields[0].key});
        NeutralBetween(PrintField(fields[0]), ',', PrintFields(fields[1..]));
      }
    }
  }

  /** Printed text leaves the scanner's verdict to what follows it. */
  lemma PrintedIsNeutral(j: Json, rest: string)
    requires Plain(j)
    ensures Paired(Tokens(Print(j) + rest)) <==> Paired(Tokens(rest))
  {
    NeutralValue(j);
    PairedIff(Tokens(Print(j) + rest));
    PairedIff(Tokens(rest));
    assert WellPaired(Print(j) + rest) <==> WellPaired(rest);
  }

  /** The scanner never refuses what the canonical printer writes. */
  lemma PrintedIsPaired(j: Json)
    requires Plain(j)
    ensures Paired(Tokens(Print(j)))
  {
    PrintedIsNeutral(j, "");
    assert Print(j) + "" == Print(j);
  }

  lemma CharIsPaired(c: char)
    requires c != Backslash
    ensures Paired(Tokens([c]))
  {
    NeutralChar(c);
    PairedIff(Tokens([c]));
    assert [c] + "" == [c];
    assert WellPaired([c] + "") <==> WellPaired("");
  }
}
