/** Index predicates and column definitions, read from the tokens of a stored schema text. */
module SqlPredicates {
  import opened Prelude
  import opened SqlText

  const Open := Token("(", Punct)
  const Close := Token(")", Punct)
  const Comma := Token(",", Punct)
  const WhereWord := Token("where", Word)

  // ---- Parentheses --------------------------------------------------------------------

  function Delta(t: Token): int { if t == Open then 1 else if t == Close then -1 else 0 }

  function Depth(toks: seq<Token>): int {
    if toks == [] then 0 else Depth(toks[..|toks|-1]) + Delta(toks[|toks|-1])
  }

  /** Never closes more than it opened, and closes everything. */
  ghost predicate Balanced(toks: seq<Token>) {
    Depth(toks) == 0 && forall k :: 0 <= k <= |toks| ==> Depth(toks[..k]) >= 0
  }

  /** The test the program makes: between a first "(" and a last ")" the depth never returns
      to zero. */
  ghost predicate Enclosing(toks: seq<Token>) {
    |toks| >= 2 && toks[0] == Open && toks[|toks|-1] == Close && forall k :: 0 < k < |toks| ==> Depth(toks[..k]) != 0
  }

  function Wrap(toks: seq<Token>): seq<Token> { [Open] + toks + [Close] }

  function Inside(toks: seq<Token>): seq<Token>
    requires |toks| >= 2
  {
    toks[1..|toks|-1]
  }

  ghost function Strip(toks: seq<Token>): seq<Token>
    decreases |toks|
  {
    if Enclosing(toks) then Strip(Inside(toks)) else toks
  }

  lemma {:induction false} DepthAppend(a: seq<Token>, b: seq<Token>)
    ensures Depth(a + b) == Depth(a) + Depth(b)
  {
    if b == [] {
      assert a + b == a;
    } else {
      var n := |b| - 1;
      assert (a + b)[..|a + b|-1] == a + b[..n];
      DepthAppend(a, b[..n]);
    }
  }

  lemma DepthOne(t: Token)
    ensures Depth([t]) == Delta(t)
  {
    assert [t][..0] == [];
  }

  /** The depth inside one more layer. */
  lemma WrapDepth(p: seq<Token>, k: nat)
    requires 0 < k <= |p| + 1
    ensures Depth(Wrap(p)[..k]) == 1 + Depth(p[..k-1])
  {
    assert Wrap(p)[..k] == [Open] + p[..k-1];
    DepthOne(Open);
    DepthAppend([Open], p[..k-1]);
  }

  lemma WrapBalanced(p: seq<Token>)
    requires Balanced(p)
    ensures Balanced(Wrap(p)) && Enclosing(Wrap(p)) && Inside(Wrap(p)) == p
  {
    var w := Wrap(p);
    forall k | 0 < k < |w| ensures Depth(w[..k]) > 0 { WrapDepth(p, k); }
    assert w[..|w|-1] == [Open] + p && w[..|w|] == w;
    WrapDepth(p, |w| - 1);
    assert p[..|p|] == p && w[..0] == [];
  }

  /** Balanced tokens in one pair of parentheses. */
  ghost predicate Wrapped(toks: seq<Token>) { exists p :: Balanced(p) && toks == Wrap(p) }

  /** On balanced input the program's test recognises exactly a balanced list in one pair of
      parentheses. */
  lemma EnclosingIffWrapped(toks: seq<Token>)
    requires Balanced(toks)
    ensures Enclosing(toks) <==> Wrapped(toks)
  {
    if Enclosing(toks) {
      var p := Inside(toks);
      assert toks == Wrap(p);
      InsideBalanced(toks);
    }
    if Wrapped(toks) {
      var p :| Balanced(p) && toks == Wrap(p);
      WrapBalanced(p);
    }
  }

  lemma InsideBalanced(toks: seq<Token>)
    requires Balanced(toks) && Enclosing(toks)
    ensures Balanced(Inside(toks))
  {
    var p := Inside(toks);
    assert toks == Wrap(p);
    forall k | 0 <= k <= |p| ensures Depth(p[..k]) >= 0 { WrapDepth(p, k + 1); assert Depth(toks[..k+1]) > 0; }
    assert toks[..|toks|-1] == Wrap(p)[..|p|+1] && p[..|p|] == p;
    WrapDepth(p, |p| + 1);
  }

  // ---- Stripping ----------------------------------------------------------------------

  /** One more pair of parentheses around balanced tokens makes no difference. */
  lemma StripWrap(p: seq<Token>)
    requires Balanced(p)
    ensures Strip(Wrap(p)) == Strip(p)
  {
    WrapBalanced(p);
  }

  function Layers(n: nat, core: seq<Token>): seq<Token> {
    if n == 0 then core else Wrap(Layers(n - 1, core))
  }

  lemma {:induction false} LayersBalanced(n: nat, core: seq<Token>)
    requires Balanced(core)
    ensures Balanced(Layers(n, core)) && Strip(Layers(n, core)) == Strip(core)
  {
    if n > 0 {
      LayersBalanced(n - 1, core);
      WrapBalanced(Layers(n - 1, core));
    }
  }

  /** Stripping balanced tokens removes some number of whole layers, and what is left is
      balanced and not in parentheses as a whole. */
  lemma {:induction false} StripRemovesLayers(toks: seq<Token>) returns (n: nat)
    requires Balanced(toks)
    ensures toks == Layers(n, Strip(toks)) && Balanced(Strip(toks))
    ensures !Wrapped(Strip(toks))
    decreases |toks|
  {
    EnclosingIffWrapped(toks);
    if Enclosing(toks) {
      InsideBalanced(toks);
      var m := StripRemovesLayers(Inside(toks));
      assert toks == Wrap(Inside(toks));
      n := m + 1;
    } else {
      n := 0;
    }
  }

  /** And that is the only such core: stripping removes exactly the enclosing layers. */
  lemma StripIsTheCore(toks: seq<Token>, n: nat, core: seq<Token>)
    requires toks == Layers(n, core) && Balanced(core) && !Wrapped(core)
    ensures Strip(toks) == core
  {
    LayersBalanced(n, core);
    EnclosingIffWrapped(core);
  }

  lemma {:induction false} StripIdempotent(toks: seq<Token>)
    ensures Strip(Strip(toks)) == Strip(toks)
    decreases |toks|
  {
    if Enclosing(toks) { StripIdempotent(Inside(toks)); }
  }

  /** Decides whether one pair of parentheses encloses everything. */
  method IsEnclosing(toks: seq<Token>) returns (b: bool)
    ensures b <==> Enclosing(toks)
  {
    if |toks| < 2 || toks[0] != Open || toks[|toks|-1] != Close { return false; }
    var depth := 0;
    for i := 0 to |toks|
      invariant depth == Depth(toks[..i])
      invariant forall k :: 0 < k <= i && k < |toks| ==> Depth(toks[..k]) != 0
    {
      assert toks[..i+1][..i] == toks[..i];
      if toks[i] == Open { depth := depth + 1; }
      else if toks[i] == Close { depth := depth - 1; }
      if depth == 0 && i < |toks| - 1 {
        assert Depth(toks[..i+1]) == 0;
        return false;
      }
    }
    b := true;
  }

  method StripOuterParens(toks: seq<Token>) returns (r: seq<Token>)
    ensures r == Strip(toks)
  {
    r := toks;
    var enclosing := IsEnclosing(r);
    while enclosing
      invariant Strip(r) == Strip(toks) && (enclosing <==> Enclosing(r))
      decreases |r|
    {
      r := Inside(r);
      enclosing := IsEnclosing(r);
    }
  }

  // ---- Index predicates ---------------------------------------------------------------

  /** What stands after the first WHERE outside all parentheses. */
  function AfterWhere(toks: seq<Token>, depth: int): Option<seq<Token>> {
    if toks == [] then None
    else if depth == 0 && toks[0] == WhereWord then Some(toks[1..])
    else AfterWhere(toks[1..], depth + Delta(toks[0]))
  }

  ghost function PredicateOf(ddl: string): Result<seq<Token>> {
    match Tokenize(ddl)
    case Err(code) => Err(code)
    case Ok(toks) =>
      match AfterWhere(toks, 0)
      case None => Err(Fault)
      case Some(rest) => Ok(Strip(rest))
  }

  method FindWhere(toks: seq<Token>) returns (r: Option<seq<Token>>)
    ensures r == AfterWhere(toks, 0)
  {
    var depth := 0;
    ghost var rest := toks;
    for i := 0 to |toks|
      invariant rest == toks[i..] && AfterWhere(rest, depth) == AfterWhere(toks, 0)
    {
      assert rest[1..] == toks[i+1..];
      if toks[i] == Open { depth := depth + 1; }
      else if toks[i] == Close { depth := depth - 1; }
      else if depth == 0 && toks[i] == WhereWord { return Some(toks[i+1..]); }
      rest := rest[1..];
    }
    r := None;
  }

  method IndexPredicate(ddl: string) returns (r: Result<seq<Token>>)
    ensures r == PredicateOf(ddl)
  {
    var toks := SqlTokens(ddl);
    if toks.Err? { return Err(toks.code); }
    var found := FindWhere(toks.value);
    if found.None? { return Err(Fault); }
    var p := StripOuterParens(found.value);
    r := Ok(p);
  }

  /** How many parentheses stand open after the first k tokens. */
  function OpenAfter(toks: seq<Token>, k: nat): int
    requires k <= |toks|
  {
    if k == 0 then 0
    else OpenAfter(toks, k - 1) + if toks[k-1] == Token("(", Punct) then 1 else if toks[k-1] == Token(")", Punct) then -1 else 0
  }

  /** The first bare word `where` with no parenthesis open before it. */
  predicate FirstWhere(toks: seq<Token>, k: int) {
    0 <= k < |toks| && toks[k] == Token("where", Word) && OpenAfter(toks, k) == 0
    && forall j :: 0 <= j < k ==> !(toks[j] == Token("where", Word) && OpenAfter(toks, j) == 0)
  }

  lemma {:induction false} WhereFound(toks: seq<Token>, k: nat)
    requires k <= |toks| && forall j :: 0 <= j < k ==> !(toks[j] == Token("where", Word) && OpenAfter(toks, j) == 0)
    ensures match AfterWhere(toks[k..], OpenAfter(toks, k))
            case Some(rest) => exists i :: FirstWhere(toks, i) && rest == toks[i+1..]
            case None => forall i :: !FirstWhere(toks, i)
    decreases |toks| - k
  {
    if k < |toks| {
      assert toks[k..][0] == toks[k] && toks[k..][1..] == toks[k+1..];
      if toks[k] == Token("where", Word) && OpenAfter(toks, k) == 0 { assert FirstWhere(toks, k); }
      else { WhereFound(toks, k + 1); }
    }
  }

  lemma WhereIsFound(toks: seq<Token>)
    ensures match AfterWhere(toks, 0)
            case Some(rest) => exists i :: FirstWhere(toks, i) && rest == toks[i+1..]
            case None => forall i :: !FirstWhere(toks, i)
  {
    WhereFound(toks, 0);
    assert toks[0..] == toks;
  }

  /** The predicate of a text is what follows its first top-level WHERE, stripped. */
  lemma PredicateMeans(ddl: string, toks: seq<Token>)
    requires Tokenize(ddl) == Ok(toks)
    ensures PredicateOf(ddl).Ok? <==> exists k :: FirstWhere(toks, k)
    ensures forall k :: FirstWhere(toks, k) ==> PredicateOf(ddl) == Ok(Strip(toks[k+1..]))
  {
    WhereIsFound(toks);
    forall i, j | FirstWhere(toks, i) && FirstWhere(toks, j) ensures i == j { OneFirst(toks, i, j); }
  }

  lemma OneFirst(toks: seq<Token>, i: int, j: int)
    requires FirstWhere(toks, i) && FirstWhere(toks, j)
    ensures i == j
  {
    assert !(i < j) && !(j < i);
  }

  /** No WHERE outside parentheses. */
  ghost predicate NoTopWhere(head: seq<Token>) {
    forall i :: 0 <= i < |head| && head[i] == WhereWord ==> Depth(head[..i]) != 0
  }

  lemma AfterStep(t: Token, rest: seq<Token>, depth: int)
    requires !(depth == 0 && t == WhereWord)
    ensures AfterWhere([t] + rest, depth) == AfterWhere(rest, depth + Delta(t))
  {
    assert ([t] + rest)[1..] == rest;
  }

  lemma SplitHead(head: seq<Token>, k: nat, rest: seq<Token>)
    requires k < |head|
    ensures head[k..] + rest == [head[k]] + (head[k+1..] + rest)
    ensures Depth(head[..k+1]) == Depth(head[..k]) + Delta(head[k])
  {
    assert head[..k+1] == head[..k] + [head[k]];
    DepthAppend(head[..k], [head[k]]);
    DepthOne(head[k]);
  }

  lemma {:induction false} AfterHead(head: seq<Token>, k: nat, rest: seq<Token>)
    requires k <= |head| && NoTopWhere(head)
    ensures AfterWhere(head[k..] + rest, Depth(head[..k])) == AfterWhere(rest, Depth(head))
    decreases |head| - k
  {
    if k == |head| {
      assert head[k..] + rest == rest && head[..k] == head;
    } else {
      AfterHead(head, k + 1, rest);
      SplitHead(head, k, rest);
      AfterStep(head[k], head[k+1..] + rest, Depth(head[..k]));
    }
  }

  /** The predicate of an index does not depend on how its text is written, nor on how many
      parentheses enclose the whole predicate. */
  lemma PredicateIgnoresSpelling(ws: seq<Written>, head: seq<Token>, n: nat, core: seq<Token>)
    requires WellWritten(ws) && TokensOf(ws) == head + ([WhereWord] + Layers(n, core))
    requires NoTopWhere(head) && Depth(head) == 0 && Balanced(core)
    ensures PredicateOf(Render(ws)) == Ok(Strip(core))
  {
    RenderingReadsBack(ws);
    var rest := [WhereWord] + Layers(n, core);
    AfterHead(head, 0, rest);
    assert head[0..] + rest == head + rest && head[..0] == [];
    assert rest[1..] == Layers(n, core);
    LayersBalanced(n, core);
  }

  // ---- Comparing tokens ---------------------------------------------------------------

  /** The same token for comparison: a quoted identifier equals the bare word, but never a
      string literal or punctuation of the same text. */
  predicate SameToken(a: Token, b: Token) {
    a.text == b.text && (a.cls == Literal <==> b.cls == Literal) && (a.cls == Punct <==> b.cls == Punct)
  }

  ghost predicate SameTokens(a: seq<Token>, b: seq<Token>) {
    |a| == |b| && forall i :: 0 <= i < |a| ==> SameToken(a[i], b[i])
  }

  /** That is: the same text, both names, both literals or both punctuation. */
  lemma SameTokenMeans(a: Token, b: Token)
    ensures SameToken(a, b) <==>
              && a.text == b.text
              && match a.cls
                 case Word => b.cls == Word || b.cls == Quoted
                 case Quoted => b.cls == Word || b.cls == Quoted
                 case Literal => b.cls == Literal
                 case Punct => b.cls == Punct
  {
  }

  method EqualTokens(a: seq<Token>, b: seq<Token>) returns (r: bool)
    ensures r <==> SameTokens(a, b)
  {
    if |a| != |b| { return false; }
    for i := 0 to |a|
      invariant forall k :: 0 <= k < i ==> SameToken(a[k], b[k])
    {
      if !SameToken(a[i], b[i]) { return false; }
    }
    r := true;
  }

  // ---- Column definitions -------------------------------------------------------------

  type Definitions = map<string, seq<Token>>

  /** Keyed by the first token; the first definition of a name stands. */
  function Defined(defs: Definitions, elem: seq<Token>): Definitions {
    if elem == [] || elem[0].text in defs then defs else defs[elem[0].text := elem[1..]]
  }

  function DefinedAll(defs: Definitions, elems: seq<seq<Token>>): Definitions
    decreases |elems|
  {
    if elems == [] then defs else DefinedAll(Defined(defs, elems[0]), elems[1..])
  }

  /** The first element of this name in the list, if there is one. */
  predicate FirstNamed(elems: seq<seq<Token>>, name: string, i: int) {
    0 <= i < |elems| && elems[i] != [] && elems[i][0].text == name
    && forall j :: 0 <= j < i ==> elems[j] == [] || elems[j][0].text != name
  }

  lemma {:induction false} DefinitionsMean(defs: Definitions, elems: seq<seq<Token>>, name: string)
    ensures name in DefinedAll(defs, elems) <==> name in defs || exists i :: FirstNamed(elems, name, i)
    ensures name in defs ==> DefinedAll(defs, elems)[name] == defs[name]
    ensures name !in defs ==> forall i :: FirstNamed(elems, name, i) ==> DefinedAll(defs, elems)[name] == elems[i][1..]
    decreases |elems|
  {
    if elems != [] {
      DefinitionsMean(Defined(defs, elems[0]), elems[1..], name);
      forall i | i > 0 && FirstNamed(elems, name, i) ensures FirstNamed(elems[1..], name, i - 1) {
        forall j | 0 <= j < i - 1 ensures elems[1..][j] == [] || elems[1..][j][0].text != name {
          assert elems[1..][j] == elems[j+1];
        }
      }
      if elems[0] == [] || elems[0][0].text != name {
        forall i | FirstNamed(elems[1..], name, i) ensures FirstNamed(elems, name, i + 1) {
          forall j | 0 <= j < i + 1 ensures elems[j] == [] || elems[j][0].text != name {
            if j > 0 { assert elems[j] == elems[1..][j-1]; }
          }
        }
      } else {
        assert FirstNamed(elems, name, 0);
      }
    }
  }

  /** The state of the scan between two tokens. */
  datatype Scan = Scan(depth: int, elem: seq<Token>, defs: Definitions, done: bool)

  function ScanToken(s: Scan, t: Token): Scan {
    if s.done then s
    else
      var depth := s.depth + Delta(t);
      if t == Open && depth == 1 then s.(depth := depth)
      else if t == Close && depth == 0 then Scan(0, [], Defined(s.defs, s.elem), true)
      else if t == Comma && depth == 1 then s.(elem := [], defs := Defined(s.defs, s.elem))
      else if depth >= 1 then s.(depth := depth, elem := s.elem + [t])
      else s.(depth := depth)
  }

  function ScanAll(s: Scan, toks: seq<Token>): Scan
    decreases |toks|
  {
    if toks == [] then s else ScanAll(ScanToken(s, toks[0]), toks[1..])
  }

  const ScanStart := Scan(0, [], map[], false)

  method ColumnDefinitions(toks: seq<Token>) returns (defs: Definitions)
    ensures defs == ScanAll(ScanStart, toks).defs
  {
    defs := map[];
    var depth, elem := 0, [];
    assert toks[0..] == toks;
    for i := 0 to |toks|
      invariant ScanAll(Scan(depth, elem, defs, false), toks[i..]) == ScanAll(ScanStart, toks)
    {
      assert toks[i..][1..] == toks[i+1..];
      var t := toks[i];
      if t == Open {
        depth := depth + 1;
        if depth == 1 { continue; }
      } else if t == Close {
        depth := depth - 1;
        if depth == 0 {
          ScanDone(Scan(0, [], Defined(defs, elem), true), toks[i+1..]);
          defs := Defined(defs, elem);
          return;
        }
      } else if depth == 1 && t == Comma {
        defs, elem := Defined(defs, elem), [];
        continue;
      }
      if depth >= 1 { elem := elem + [t]; }
    }
  }

  lemma {:induction false} ScanDone(s: Scan, toks: seq<Token>)
    requires s.done
    ensures ScanAll(s, toks) == s
  {
    if toks != [] { ScanDone(s, toks[1..]); }
  }

  lemma {:induction false} ScanAppend(s: Scan, a: seq<Token>, b: seq<Token>)
    ensures ScanAll(s, a + b) == ScanAll(ScanAll(s, a), b)
    decreases |a|
  {
    if a == [] {
      assert a + b == b;
    } else {
      assert (a + b)[1..] == a[1..] + b;
      ScanAppend(ScanToken(s, a[0]), a[1..], b);
    }
  }

  /** One element of the definition list: balanced, with commas only inside parentheses. */
  ghost predicate Element(e: seq<Token>) {
    Balanced(e) && forall i :: 0 <= i < |e| && e[i] == Comma ==> Depth(e[..i]) != 0
  }

  function Joined(elems: seq<seq<Token>>): seq<Token> {
    if elems == [] then []
    else if |elems| == 1 then elems[0]
    else elems[0] + ([Comma] + Joined(elems[1..]))
  }

  /** Inside an element a token is collected. */
  lemma ScanInside(depth: int, elem: seq<Token>, defs: Definitions, t: Token)
    requires depth >= 1 && depth + Delta(t) >= 1 && !(t == Comma && depth == 1)
    ensures ScanToken(Scan(depth, elem, defs, false), t) == Scan(depth + Delta(t), elem + [t], defs, false)
  {
  }

  lemma {:induction false} ScanElement(e: seq<Token>, k: nat, defs: Definitions)
    requires Element(e) && k <= |e|
    ensures ScanAll(Scan(1, [], defs, false), e[..k]) == Scan(1 + Depth(e[..k]), e[..k], defs, false)
  {
    if k > 0 {
      var before, t := e[..k-1], e[k-1];
      ScanElement(e, k - 1, defs);
      assert e[..k] == before + [t];
      DepthAppend(before, [t]);
      DepthOne(t);
      ScanAppend(Scan(1, [], defs, false), before, [t]);
      ScanOne(Scan(1 + Depth(before), before, defs, false), t);
      assert Depth(before) >= 0 && Depth(e[..k]) >= 0;
      ScanInside(1 + Depth(before), before, defs, t);
    }
  }

  lemma ScanOne(s: Scan, t: Token)
    ensures ScanAll(s, [t]) == ScanToken(s, t)
  {
    assert [t][1..] == [];
  }

  lemma ScanTo(e: seq<Token>, t: Token, rest: seq<Token>, defs: Definitions)
    requires Element(e)
    ensures ScanAll(Scan(1, [], defs, false), e + ([t] + rest)) == ScanAll(ScanToken(Scan(1, e, defs, false), t), rest)
  {
    ScanElement(e, |e|, defs);
    assert e[..|e|] == e;
    ScanAppend(Scan(1, [], defs, false), e, [t] + rest);
    ScanAppend(Scan(1, e, defs, false), [t], rest);
    ScanOne(Scan(1, e, defs, false), t);
  }

  lemma {:induction false} ScanElements(elems: seq<seq<Token>>, defs: Definitions, tail: seq<Token>)
    requires elems != [] && forall i :: 0 <= i < |elems| ==> Element(elems[i])
    ensures ScanAll(Scan(1, [], defs, false), Joined(elems) + ([Close] + tail)).defs == DefinedAll(defs, elems)
    decreases |elems|
  {
    var e := elems[0];
    if |elems| == 1 {
      ScanTo(e, Close, tail, defs);
      ScanDone(Scan(0, [], Defined(defs, e), true), tail);
      assert elems[1..] == [];
    } else {
      var rest := Joined(elems[1..]) + ([Close] + tail);
      assert Joined(elems) + ([Close] + tail) == e + ([Comma] + rest);
      ScanTo(e, Comma, rest, defs);
      ScanElements(elems[1..], Defined(defs, e), tail);
    }
  }

  /** Nothing is collected before the list opens. */
  lemma {:induction false} ScanHead(head: seq<Token>)
    requires Open !in head && Close !in head
    ensures ScanAll(ScanStart, head) == ScanStart
  {
    if head != [] { ScanHead(head[1..]); }
  }

  /** The definitions of a CREATE TABLE text are its list elements under their first tokens,
      the first of a name standing, whatever follows the list. */
  lemma DefinitionsOfList(head: seq<Token>, elems: seq<seq<Token>>, tail: seq<Token>)
    requires Open !in head && Close !in head
    requires elems != [] && forall i :: 0 <= i < |elems| ==> Element(elems[i])
    ensures ScanAll(ScanStart, head + ([Open] + (Joined(elems) + ([Close] + tail)))).defs == DefinedAll(map[], elems)
  {
    var list := Joined(elems) + ([Close] + tail);
    ScanHead(head);
    ScanAppend(ScanStart, head, [Open] + list);
    ScanAppend(ScanStart, [Open], list);
    ScanOne(ScanStart, Open);
    ScanElements(elems, map[], tail);
  }
}
