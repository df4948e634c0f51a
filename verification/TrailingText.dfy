/** What the strict parser makes of text after a contract, for every body it accepts. */
module TrailingText {
  import opened Prelude
  import opened Contracts
  import opened Json
  import opened Surrogates
  import opened Locality
  import opened Canonical

  // ---- The scanner over a body and what follows it ------------------------------------

  predicate EndsInBrace(s: string) { s != "" && s[|s|-1] == '}' }

  /** No token of a text that ends in a brace reaches beyond it. */
  lemma TokenInside(s: string, x: string)
    requires EndsInBrace(s)
    ensures NextToken(s + x) == NextToken(s)
    ensures High(NextToken(s).token) ==> NextToken(s).size < |s|
  {
    assert (s + x)[0] == s[0];
    if s[0] == Backslash {
      assert |s| > 1 && (s + x)[1] == s[1];
      if s[1] == 'u' {
        assert (s + x)[2..] == s[2..] + x;
        HexInside(s[2..], x);
      }
    }
  }

  lemma HexInside(s: string, x: string)
    requires EndsInBrace(s)
    ensures Hex4(s + x) == Hex4(s)
    ensures Hex4(s).Some? ==> |s| > 4
  {
    var k := |s| - 1;
    assert HexValue((s + x)[k]).None? && HexValue(s[k]).None?;
  }

  lemma TokensStep(s: string, t: Token, rest: string)
    requires s != "" && NextToken(s).token == t && rest == s[NextToken(s).size..]
    ensures Tokens(s) == [t] + Tokens(rest)
  {
  }

  lemma TokensFront(s: string, x: string)
    requires EndsInBrace(s)
    ensures var n, t := NextToken(s).size, NextToken(s).token;
            Tokens(s) == [t] + Tokens(s[n..]) && Tokens(s + x) == [t] + Tokens(s[n..] + x)
  {
    TokenInside(s, x);
    var n, t := NextToken(s).size, NextToken(s).token;
    assert (s + x)[n..] == s[n..] + x;
    TokensStep(s, t, s[n..]);
    TokensStep(s + x, t, s[n..] + x);
  }

  lemma Reassociate(t: Token, a: seq<Token>, b: seq<Token>)
    ensures [t] + (a + b) == ([t] + a) + b
    ensures a == [] ==> ([t] + a)[|a|] == t
    ensures a != [] ==> ([t] + a)[|a|] == a[|a|-1]
  {
  }

  lemma {:induction false} TokensSplit(s: string, x: string)
    requires EndsInBrace(s)
    ensures Tokens(s + x) == Tokens(s) + Tokens(x)
  {
    TokensFront(s, x);
    var t, rest := NextToken(s).token, s[NextToken(s).size..];
    if rest == "" {
      assert rest + x == x;
    } else {
      TokensSplit(rest, x);
    }
    Reassociate(t, Tokens(rest), Tokens(x));
  }

  /** The last token is not half a pair. */
  predicate EndsSettled(tokens: seq<Token>) { tokens != [] && !High(tokens[|tokens|-1]) }

  lemma {:induction false} TokensEndSettled(s: string)
    requires EndsInBrace(s)
    ensures EndsSettled(Tokens(s))
  {
    TokensFront(s, "");
    TokenInside(s, "");
    var t, rest := NextToken(s).token, s[NextToken(s).size..];
    if rest != "" { TokensEndSettled(rest); }
    Reassociate(t, Tokens(rest), []);
  }

  /** Pairing is decided part by part if the first part does not end in a high surrogate. */
  lemma PairedParts(a: seq<Token>, b: seq<Token>)
    requires EndsSettled(a)
    ensures Paired(a + b) <==> Paired(a) && Paired(b)
  {
    var c := a + b;
    if Paired(c) {
      forall i | 0 <= i < |a| && High(a[i]) ensures i + 1 < |a| && Low(a[i+1]) {
        assert High(c[i]) && c[i+1] == a[i+1];
      }
      forall i | 0 <= i < |a| && Low(a[i]) ensures i > 0 && High(a[i-1]) {
        assert Low(c[i]) && (i > 0 ==> c[i-1] == a[i-1]);
      }
      assert c[|a|-1] == a[|a|-1];
      PairedTail(c, |a|);
      assert c[|a|..] == b;
    }
  }

  // ---- The parser over a body and what follows it -------------------------------------

  lemma AcceptedIsObject(body: string)
    requires Parse(body).Ok?
    ensures ParseValue(body).Ok? && ParseValue(body).value.value.Obj?
    ensures Paired(Tokens(body)) && Parse(body) == DecodeContract(ParseValue(body).value.value)
  {
  }

  /** Text after any accepted body: the whole is read as the same contract exactly if its
      escapes are paired and what now stands after the value may end a document; otherwise
      it is refused. */
  lemma TrailingData(body: string, rest: string)
    requires Parse(body).Ok?
    ensures ParseValue(body).Ok?
    ensures Parse(body + rest)
            == if Paired(Tokens(body + rest)) && EndsDocument(ParseValue(body).value.rest + rest) then Parse(body)
               else Err(InvalidContract)
  {
    AcceptedIsObject(body);
    ValueAppend(body, rest);
    TokenIsTrailing(ParseValue(body).value.rest + rest);
  }

  /** The body ends where its contract ends. */
  predicate EndsAtContract(body: string) { ParseValue(body).Ok? && ParseValue(body).value.rest == "" }

  lemma PairedAfterBrace(body: string, rest: string)
    requires EndsInBrace(body) && Paired(Tokens(body))
    ensures Paired(Tokens(body + rest)) <==> Paired(Tokens(rest))
  {
    TokensSplit(body, rest);
    TokensEndSettled(body);
    PairedParts(Tokens(body), Tokens(rest));
  }

  lemma ContractEndsInBrace(body: string)
    requires Parse(body).Ok? && EndsAtContract(body)
    ensures EndsInBrace(body) && Paired(Tokens(body))
  {
    AcceptedIsObject(body);
    ObjectEnds(body);
    assert body[|body|-1] == '}';
  }

  lemma {:induction false} SpacesSkipped(blank: string, t: string)
    requires forall i :: 0 <= i < |blank| ==> IsSpace(blank[i])
    ensures SkipSpace(blank + t) == SkipSpace(t)
  {
    if blank == "" {
      assert blank + t == t;
    } else {
      assert (blank + t)[1..] == blank[1..] + t;
      SpacesSkipped(blank[1..], t);
    }
  }

  lemma {:induction false} SpacesOf(s: string) returns (blank: string)
    ensures s == blank + SkipSpace(s) && (forall i :: 0 <= i < |blank| ==> IsSpace(blank[i]))
    ensures SkipSpace(s) != "" ==> !IsSpace(SkipSpace(s)[0])
  {
    if s != "" && IsSpace(s[0]) {
      var more := SpacesOf(s[1..]);
      blank := [s[0]] + more;
      Assoc([s[0]], more, SkipSpace(s));
      assert s == [s[0]] + s[1..];
      assert SkipSpace(s) == SkipSpace(s[1..]);
    } else {
      blank := "";
    }
  }

  /** Spaces, tabs and line ends, and then nothing or a closing bracket. */
  ghost predicate Ends(rest: string) {
    exists blank, tail :: rest == blank + tail && (forall i :: 0 <= i < |blank| ==> blank[i] in {' ', '\t', '\n', '\r'})
                          && (tail == "" || tail[0] == ']' || tail[0] == '}')
  }

  lemma EndsMeans(rest: string)
    ensures EndsDocument(rest) <==> Ends(rest)
  {
    if EndsDocument(rest) {
      var blank := SpacesOf(rest);
      assert rest == blank + SkipSpace(rest);
    }
    if blank, tail :| rest == blank + tail && (forall i :: 0 <= i < |blank| ==> blank[i] in {' ', '\t', '\n', '\r'})
                      && (tail == "" || tail[0] == ']' || tail[0] == '}') {
      SpacesSkipped(blank, tail);
    }
  }

  /** After the contract itself the condition is on the added text alone: its escapes are
      paired, and it is blank or its first character that is not blank closes a bracket. */
  lemma TrailingDataExact(body: string, rest: string)
    requires Parse(body).Ok? && EndsAtContract(body)
    ensures Parse(body + rest) == if Paired(Tokens(rest)) && EndsDocument(rest) then Parse(body) else Err(InvalidContract)
  {
    ContractEndsInBrace(body);
    PairedAfterBrace(body, rest);
    TrailingData(body, rest);
    assert "" + rest == rest;
  }

  /** So strict parsing accepts a stray closing bracket after any contract, although trailing
      data is documented as refused. */
  lemma StrayBracketAccepted(body: string, closer: char)
    requires Parse(body).Ok? && EndsAtContract(body) && (closer == ']' || closer == '}')
    ensures Parse(body + [closer]) == Parse(body)
  {
    CharIsPaired(closer);
    TrailingDataExact(body, [closer]);
  }

  /** The canonical text is one such body. */
  lemma CanonicalTrailing(c: Contract, rest: string)
    ensures Parse(CanonicalText(c) + rest)
            == if Paired(Tokens(rest)) && EndsDocument(rest) then Ok(Sorted(c)) else Err(InvalidContract)
  {
    CanonicalReadsBack(c);
    CanonicalEnds(c);
    TrailingDataExact(CanonicalText(c), rest);
  }

  lemma CanonicalEnds(c: Contract)
    ensures EndsAtContract(CanonicalText(c))
  {
    PlainContract(Sorted(c));
    ValueReadsBack(ContractJson(Sorted(c)), "");
    assert Print(ContractJson(Sorted(c))) + "" == Print(ContractJson(Sorted(c)));
  }
}
