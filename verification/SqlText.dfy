/** The SQL tokenizer behind the schema comparison: two spellings of one expression give the
    same tokens. Text is characters; a byte of 0x80 or more belongs to a non-ASCII character,
    which is a word character either way. */
module SqlText {
  import opened Prelude

  /** Word is an unquoted keyword or identifier, Quoted a quoted identifier. */
  datatype Class = Word | Quoted | Literal | Punct

  datatype Token = Token(text: string, cls: Class)

  predicate IsBlank(c: char) {
    c == ' ' || c == '\t' || c == '\n' || c == '\r' || c == '\U{000C}' || c == '\U{000B}'
  }

  predicate IsWordChar(c: char) {
    c == '_' || c == '$' || c >= '\U{0080}' || 'a' <= c <= 'z' || 'A' <= c <= 'Z' || '0' <= c <= '9'
  }

  function LowerChar(c: char): char { if 'A' <= c <= 'Z' then (c as int + 32) as char else c }

  function Lower(s: string): (r: string)
    ensures |r| == |s| && forall i :: 0 <= i < |s| ==> r[i] == LowerChar(s[i])
  {
    seq(|s|, i requires 0 <= i < |s| => LowerChar(s[i]))
  }

  // ---- One lexeme ---------------------------------------------------------------------

  /** Where the line ends. */
  function LineWidth(s: string): (n: nat)
    ensures n <= |s|
  {
    if s == "" || s[0] == '\n' then 0 else 1 + LineWidth(s[1..])
  }

  /** Just past the first comment closer. */
  function BlockWidth(s: string): (n: Option<nat>)
    ensures n.Some? ==> 0 < n.value <= |s|
  {
    if |s| < 2 then None
    else if s[0] == '*' && s[1] == '/' then Some(2)
    else match BlockWidth(s[1..])
      case None => None
      case Some(n) => Some(n + 1)
  }

  /** Just past the closer of a quoted run; a doubled closer is escaped, except that ']' has
      no escape. */
  function QuoteWidth(s: string, closer: char): (n: Option<nat>)
    ensures n.Some? ==> 0 < n.value <= |s|
  {
    if s == "" then None
    else if s[0] != closer then
      match QuoteWidth(s[1..], closer)
      case None => None
      case Some(n) => Some(n + 1)
    else if closer != ']' && |s| > 1 && s[1] == closer then
      match QuoteWidth(s[2..], closer)
      case None => None
      case Some(n) => Some(n + 2)
    else Some(1)
  }

  /** The content of a quoted run with each doubled closer read as one. */
  function Unquote(s: string, closer: char): string {
    if s == "" then ""
    else if closer != ']' && s[0] == closer && |s| > 1 then [s[0]] + Unquote(s[2..], closer)
    else [s[0]] + Unquote(s[1..], closer)
  }

  function WordWidth(s: string): (n: nat)
    ensures n <= |s|
  {
    if s == "" || !IsWordChar(s[0]) then 0 else 1 + WordWidth(s[1..])
  }

  datatype Lexeme = Skip(width: nat) | Emit(token: Token, width: nat) | Unterminated

  function Operator(s: string): (t: Lexeme)
    requires s != ""
    ensures t.Emit? && 0 < t.width <= |s|
  {
    var two := if |s| > 1 then s[..2] else s;
    if two == "<>" || two == "<=" || two == ">=" || two == "||" || two == "<<" || two == ">>" then Emit(Token(two, Punct), 2)
    else if two == "!=" then Emit(Token("<>", Punct), 2)
    else if two == "==" then Emit(Token("=", Punct), 2)
    else Emit(Token(s[..1], Punct), 1)
  }

  function CloserOf(c: char): char { if c == '[' then ']' else c }

  predicate StartsLine(s: string) { |s| > 1 && s[0] == '-' && s[1] == '-' }

  predicate StartsBlock(s: string) { |s| > 1 && s[0] == '/' && s[1] == '*' }

  predicate IsQuote(c: char) { c == '"' || c == '`' || c == '[' }

  function CommentLexeme(s: string): (r: Lexeme)
    requires |s| > 1
    ensures r.Unterminated? || (r.Skip? && 0 < r.width <= |s|)
  {
    match BlockWidth(s[2..])
    case None => Unterminated
    case Some(n) => Skip(2 + n)
  }

  function LiteralLexeme(s: string): (r: Lexeme)
    requires s != ""
    ensures r.Unterminated? || (r.Emit? && 0 < r.width <= |s|)
  {
    match QuoteWidth(s[1..], '\'')
    case None => Unterminated
    case Some(n) => Emit(Token(s[..1+n], Literal), 1 + n)
  }

  function QuotedLexeme(s: string, closer: char): (r: Lexeme)
    requires s != ""
    ensures r.Unterminated? || (r.Emit? && 0 < r.width <= |s|)
  {
    match QuoteWidth(s[1..], closer)
    case None => Unterminated
    case Some(n) => Emit(Token(Lower(Unquote(s[1..n], closer)), Quoted), 1 + n)
  }

  /** What stands at the front of s: trivia, a token, or a run that never closes. */
  function Lex(s: string): (r: Lexeme)
    requires s != ""
    ensures !r.Unterminated? ==> 0 < r.width <= |s|
  {
    if IsBlank(s[0]) then Skip(1)
    else if StartsLine(s) then Skip(2 + LineWidth(s[2..]))
    else if StartsBlock(s) then CommentLexeme(s)
    else if s[0] == '\'' then LiteralLexeme(s)
    else if IsQuote(s[0]) then QuotedLexeme(s, CloserOf(s[0]))
    else if IsWordChar(s[0]) then Emit(Token(Lower(s[..WordWidth(s)]), Word), WordWidth(s))
    else Operator(s)
  }

  /** The tokens of a text, without its whitespace and comments. */
  function Tokenize(s: string): Result<seq<Token>>
    decreases |s|
  {
    if s == "" then Ok([])
    else match Lex(s)
      case Unterminated => Err(Fault)
      case Skip(n) => Tokenize(s[n..])
      case Emit(t, n) =>
        match Tokenize(s[n..])
        case Err(code) => Err(code)
        case Ok(ts) => Ok([t] + ts)
  }

  // ---- The index-driven loops ---------------------------------------------------------

  method LineEnd(text: string, i: nat) returns (end: nat)
    requires i <= |text|
    ensures end == i + LineWidth(text[i..])
  {
    end := i;
    while end < |text| && text[end] != '\n'
      invariant i <= end <= |text| && end - i + LineWidth(text[end..]) == LineWidth(text[i..])
    {
      assert text[end..][1..] == text[end+1..];
      end := end + 1;
    }
  }

  method CommentEnd(text: string, i: nat) returns (end: Option<nat>)
    requires i <= |text|
    ensures match BlockWidth(text[i..])
            case None => end.None?
            case Some(n) => end == Some(i + n)
  {
    var j := i;
    while j + 1 < |text| && (text[j] != '*' || text[j+1] != '/')
      invariant i <= j <= |text|
      invariant match BlockWidth(text[j..])
                case None => BlockWidth(text[i..]).None?
                case Some(n) => BlockWidth(text[i..]) == Some(j - i + n)
    {
      assert text[j..][1..] == text[j+1..];
      j := j + 1;
    }
    if j + 1 >= |text| { return None; }
    end := Some(j + 2);
  }

  method QuotedEnd(text: string, start: nat, closer: char) returns (end: Option<nat>)
    requires start < |text|
    ensures match QuoteWidth(text[start+1..], closer)
            case None => end.None?
            case Some(n) => end == Some(start + 1 + n)
  {
    var i := start + 1;
    while i < |text|
      invariant start < i <= |text|
      invariant match QuoteWidth(text[i..], closer)
                case None => QuoteWidth(text[start+1..], closer).None?
                case Some(n) => QuoteWidth(text[start+1..], closer) == Some(i - start - 1 + n)
    {
      assert text[i..][1..] == text[i+1..];
      if text[i] != closer {
        i := i + 1;
        continue;
      }
      if closer != ']' && i + 1 < |text| && text[i+1] == closer {
        assert text[i..][2..] == text[i+2..];
        i := i + 2;
        continue;
      }
      return Some(i + 1);
    }
    end := None;
  }

  method UnquoteRun(s: string, closer: char) returns (name: string)
    ensures name == Unquote(s, closer)
  {
    name := "";
    var j := 0;
    assert s[0..] == s;
    while j < |s|
      invariant j <= |s| && name + Unquote(s[j..], closer) == Unquote(s, closer)
    {
      var width := if closer != ']' && s[j] == closer && j + 1 < |s| then 2 else 1;
      assert s[j..][width..] == s[j+width..];
      assert name + [s[j]] + Unquote(s[j+width..], closer) == name + ([s[j]] + Unquote(s[j+width..], closer));
      name := name + [s[j]];
      j := j + width;
    }
  }

  method WordEnd(text: string, i: nat) returns (end: nat)
    requires i <= |text|
    ensures end == i + WordWidth(text[i..])
  {
    end := i;
    while end < |text| && IsWordChar(text[end])
      invariant i <= end <= |text| && end - i + WordWidth(text[end..]) == WordWidth(text[i..])
    {
      assert text[end..][1..] == text[end+1..];
      end := end + 1;
    }
  }

  /** One step of the tokenizer at position i. */
  method LexAt(text: string, i: nat) returns (r: Lexeme)
    requires i < |text|
    ensures r == Lex(text[i..])
  {
    var s := text[i..];
    var c := text[i];
    if IsBlank(c) { return Skip(1); }
    if i + 1 < |text| && c == '-' && text[i+1] == '-' {
      var end := LineEnd(text, i + 2);
      assert s[2..] == text[i+2..];
      return Skip(end - i);
    }
    if i + 1 < |text| && c == '/' && text[i+1] == '*' {
      var end := CommentEnd(text, i + 2);
      assert s[2..] == text[i+2..];
      if end.None? { return Unterminated; }
      return Skip(end.value - i);
    }
    assert s[1..] == text[i+1..];
    if c == '\'' {
      var end := QuotedEnd(text, i, '\'');
      if end.None? { return Unterminated; }
      assert text[i..end.value] == s[..end.value - i];
      return Emit(Token(text[i..end.value], Literal), end.value - i);
    }
    if IsQuote(c) {
      var end := QuotedEnd(text, i, CloserOf(c));
      if end.None? { return Unterminated; }
      var name := UnquoteRun(text[i+1..end.value - 1], CloserOf(c));
      assert text[i+1..end.value - 1] == s[1..end.value - i - 1];
      return Emit(Token(Lower(name), Quoted), end.value - i);
    }
    if IsWordChar(c) {
      var end := WordEnd(text, i);
      assert text[i..end] == s[..end - i];
      return Emit(Token(Lower(text[i..end]), Word), end - i);
    }
    r := Operator(s);
  }

  function Behind(out: seq<Token>, rest: Result<seq<Token>>): Result<seq<Token>> {
    match rest
    case Err(code) => Err(code)
    case Ok(ts) => Ok(out + ts)
  }

  method SqlTokens(text: string) returns (r: Result<seq<Token>>)
    ensures r == Tokenize(text)
  {
    var out: seq<Token> := [];
    var i := 0;
    ghost var rest := text;
    BehindNothing(Tokenize(text));
    while i < |text|
      invariant i <= |text| && rest == text[i..] && Behind(out, Tokenize(rest)) == Tokenize(text)
    {
      var step := LexAt(text, i);
      StepBehind(out, rest, step);
      if step.Unterminated? { return Err(Fault); }
      rest := rest[step.width..];
      if step.Emit? { out := out + [step.token]; }
      i := i + step.width;
    }
    BehindEnd(out, rest);
    r := Ok(out);
  }

  lemma BehindEnd(out: seq<Token>, rest: string)
    requires rest == ""
    ensures Behind(out, Tokenize(rest)) == Ok(out)
  {
    assert out + [] == out;
  }

  lemma StepBehind(out: seq<Token>, s: string, step: Lexeme)
    requires s != "" && step == Lex(s)
    ensures step.Unterminated? ==> Behind(out, Tokenize(s)) == Err(Fault)
    ensures step.Skip? ==> Behind(out, Tokenize(s)) == Behind(out, Tokenize(s[step.width..]))
    ensures step.Emit? ==> Behind(out, Tokenize(s)) == Behind(out + [step.token], Tokenize(s[step.width..]))
  {
    if step.Emit? {
      var rest := Tokenize(s[step.width..]);
      if rest.Ok? { assert out + ([step.token] + rest.value) == out + [step.token] + rest.value; }
    }
  }

  lemma BehindNothing(r: Result<seq<Token>>)
    ensures Behind([], r) == r
  {
    if r.Ok? { assert [] + r.value == r.value; }
  }

  // ---- Spellings ----------------------------------------------------------------------

  function Doubled(s: string, q: char): string {
    if s == "" then "" else (if s[0] == q then [q, q] else [s[0]]) + Doubled(s[1..], q)
  }

  /** s between quotes, with each quote inside it doubled. */
  function Quote(s: string, q: char): string { [q] + Doubled(s, q) + [q] }

  predicate AllWordChars(s: string) { forall i :: 0 <= i < |s| ==> IsWordChar(s[i]) }

  predicate SpellsOperator(text: string, sp: string) {
    || (sp == text && (sp == "<>" || sp == "<=" || sp == ">=" || sp == "||" || sp == "<<" || sp == ">>"))
    || (sp == "!=" && text == "<>") || (sp == "==" && text == "=")
    || (sp == text && |sp| == 1 && !IsBlank(sp[0]) && !IsWordChar(sp[0]) && sp[0] != '\'' && !IsQuote(sp[0]))
  }

  /** The ways to write a token: any case for a word, any of three quotings for a quoted
      identifier, two spellings for two of the operators. */
  ghost predicate Spells(t: Token, sp: string) {
    match t.cls
    case Word => sp != "" && AllWordChars(sp) && t.text == Lower(sp)
    case Literal => t.text == sp && exists body :: sp == Quote(body, '\'')
    case Quoted => exists name :: t.text == Lower(name)
                                  && (sp == Quote(name, '"') || sp == Quote(name, '`') || (']' !in name && sp == "[" + name + "]"))
    case Punct => SpellsOperator(t.text, sp)
  }

  /** Nothing follows, or whitespace does. */
  predicate Apart(rest: string) { rest == "" || IsBlank(rest[0]) }

  lemma {:induction false} WordRun(sp: string, rest: string)
    requires AllWordChars(sp) && Apart(rest)
    ensures WordWidth(sp + rest) == |sp|
  {
    if sp == "" {
      assert sp + rest == rest;
    } else {
      WordRun(sp[1..], rest);
      assert (sp + rest)[1..] == sp[1..] + rest;
    }
  }

  lemma {:induction false} QuoteRun(s: string, q: char, rest: string)
    requires q != ']' && (rest == "" || rest[0] != q)
    ensures QuoteWidth(Doubled(s, q) + ([q] + rest), q) == Some(|Doubled(s, q)| + 1)
  {
    var text := Doubled(s, q) + ([q] + rest);
    if s == "" {
      assert text == [q] + rest;
    } else {
      QuoteRun(s[1..], q, rest);
      var more := Doubled(s[1..], q) + ([q] + rest);
      if s[0] == q { assert text == [q, q] + more && text[2..] == more; }
      else { assert text == [s[0]] + more && text[1..] == more; }
    }
  }

  lemma {:induction false} UnquoteDoubled(s: string, q: char)
    requires q != ']'
    ensures Unquote(Doubled(s, q), q) == s
  {
    if s != "" {
      UnquoteDoubled(s[1..], q);
      var d := Doubled(s, q);
      if s[0] == q { assert d[2..] == Doubled(s[1..], q); } else { assert d[1..] == Doubled(s[1..], q); }
    }
  }

  lemma {:induction false} BracketRun(name: string, rest: string)
    requires ']' !in name
    ensures QuoteWidth(name + ("]" + rest), ']') == Some(|name| + 1)
    ensures Unquote(name, ']') == name
  {
    if name == "" {
      assert name + ("]" + rest) == "]" + rest;
    } else {
      BracketRun(name[1..], rest);
      assert (name + ("]" + rest))[1..] == name[1..] + ("]" + rest);
    }
  }

  lemma QuoteParts(d: string, q: char, rest: string)
    ensures var s := [q] + d + [q] + rest;
            s[0] == q && s[1..] == d + ([q] + rest) && s[1..|d|+1] == d && s[..|d|+2] == [q] + d + [q]
  {
  }

  lemma QuotedAt(s: string, closer: char, d: string)
    requires |s| > |d| && QuoteWidth(s[1..], closer) == Some(|d| + 1) && s[1..|d|+1] == d
    ensures QuotedLexeme(s, closer) == Emit(Token(Lower(Unquote(d, closer)), Quoted), |d| + 2)
  {
  }

  lemma LexQuoted(name: string, q: char, rest: string)
    requires (q == '"' || q == '`') && Apart(rest)
    ensures Lex(Quote(name, q) + rest) == Emit(Token(Lower(name), Quoted), |Quote(name, q)|)
  {
    var d := Doubled(name, q);
    QuoteRun(name, q, rest);
    UnquoteDoubled(name, q);
    QuoteParts(d, q, rest);
    QuotedAt([q] + d + [q] + rest, q, d);
  }

  lemma LexLiteral(body: string, rest: string)
    requires Apart(rest)
    ensures Lex(Quote(body, '\'') + rest) == Emit(Token(Quote(body, '\''), Literal), |Quote(body, '\'')|)
  {
    QuoteRun(body, '\'', rest);
    QuoteParts(Doubled(body, '\''), '\'', rest);
  }

  lemma LexBracketed(name: string, rest: string)
    requires ']' !in name
    ensures Lex("[" + name + "]" + rest) == Emit(Token(Lower(name), Quoted), |name| + 2)
  {
    var s := "[" + name + "]" + rest;
    BracketRun(name, rest);
    assert s[1..] == name + ("]" + rest);
    assert s[1..|name|+1] == name;
  }

  lemma LexWord(sp: string, rest: string)
    requires sp != "" && AllWordChars(sp) && Apart(rest)
    ensures Lex(sp + rest) == Emit(Token(Lower(sp), Word), |sp|)
  {
    WordRun(sp, rest);
    assert (sp + rest)[..|sp|] == sp;
    assert (sp + rest)[0] == sp[0];
  }

  lemma LexOperator(text: string, sp: string, rest: string)
    requires SpellsOperator(text, sp) && Apart(rest)
    ensures Lex(sp + rest) == Emit(Token(text, Punct), |sp|)
  {
    var s := sp + rest;
    assert s[0] == sp[0];
    if |sp| == 1 {
      assert |s| > 1 ==> IsBlank(s[1]);
      assert s[..1] == sp;
    } else {
      assert s[..2] == sp;
    }
  }

  /** Any spelling of a token, set apart from what follows, is read as that token. */
  lemma LexSpelling(t: Token, sp: string, rest: string)
    requires Spells(t, sp) && Apart(rest)
    ensures sp != "" && Lex(sp + rest) == Emit(t, |sp|)
  {
    match t.cls
    case Word => LexWord(sp, rest);
    case Literal =>
      var body :| sp == Quote(body, '\'');
      LexLiteral(body, rest);
    case Quoted =>
      var name :| t.text == Lower(name)
                  && (sp == Quote(name, '"') || sp == Quote(name, '`') || (']' !in name && sp == "[" + name + "]"));
      if sp == Quote(name, '"') { LexQuoted(name, '"', rest); }
      else if sp == Quote(name, '`') { LexQuoted(name, '`', rest); }
      else { LexBracketed(name, rest); }
    case Punct => LexOperator(t.text, sp, rest);
  }

  // ---- Gaps ---------------------------------------------------------------------------

  datatype Trivia = Blank(c: char) | LineComment(body: string) | BlockComment(body: string)

  predicate TriviaOK(t: Trivia) {
    match t
    case Blank(c) => IsBlank(c)
    case LineComment(body) => '\n' !in body
    case BlockComment(body) => forall k :: 0 <= k < |body| - 1 ==> !(body[k] == '*' && body[k+1] == '/')
  }

  function TriviaText(t: Trivia): string {
    match t
    case Blank(c) => [c]
    case LineComment(body) => "--" + body + "\n"
    case BlockComment(body) => "/*" + body + "*/"
  }

  type Gap = seq<Trivia>

  function GapText(g: Gap): string {
    if g == [] then "" else TriviaText(g[0]) + GapText(g[1..])
  }

  predicate GapOK(g: Gap) { forall i :: 0 <= i < |g| ==> TriviaOK(g[i]) }

  lemma {:induction false} LineRun(body: string, rest: string)
    requires '\n' !in body
    ensures LineWidth(body + ("\n" + rest)) == |body|
  {
    if body == "" {
      assert body + ("\n" + rest) == "\n" + rest;
    } else {
      LineRun(body[1..], rest);
      assert (body + ("\n" + rest))[1..] == body[1..] + ("\n" + rest);
    }
  }

  lemma {:induction false} BlockRun(body: string, rest: string)
    requires TriviaOK(BlockComment(body))
    ensures BlockWidth(body + ("*/" + rest)) == Some(|body| + 2)
  {
    var s := body + ("*/" + rest);
    if body == "" {
      assert s == "*/" + rest;
    } else {
      forall k | 0 <= k < |body[1..]| - 1 ensures !(body[1..][k] == '*' && body[1..][k+1] == '/') {
        assert body[1..][k] == body[k+1] && body[1..][k+1] == body[k+1+1];
      }
      BlockRun(body[1..], rest);
      assert s[1..] == body[1..] + ("*/" + rest);
      assert s[0] == body[0] && (|body| > 1 ==> s[1] == body[1]) && (|body| == 1 ==> s[1] == '*');
    }
  }

  lemma LineSkips(body: string, rest: string)
    requires '\n' !in body
    ensures Tokenize("--" + body + "\n" + rest) == Tokenize(rest)
  {
    var s := "--" + body + "\n" + rest;
    LineRun(body, rest);
    assert s[2..] == body + ("\n" + rest);
    assert s[2 + |body|..] == "\n" + rest;
    assert ("\n" + rest)[1..] == rest;
  }

  lemma BlockSkips(body: string, rest: string)
    requires TriviaOK(BlockComment(body))
    ensures Tokenize("/*" + body + "*/" + rest) == Tokenize(rest)
  {
    var s := "/*" + body + "*/" + rest;
    BlockRun(body, rest);
    assert s[2..] == body + ("*/" + rest);
    assert s[2 + (|body| + 2)..] == rest;
  }

  lemma TriviaSkips(t: Trivia, rest: string)
    requires TriviaOK(t)
    ensures Tokenize(TriviaText(t) + rest) == Tokenize(rest)
  {
    match t
    case Blank(c) => assert ([c] + rest)[1..] == rest;
    case LineComment(body) => LineSkips(body, rest);
    case BlockComment(body) => BlockSkips(body, rest);
  }

  lemma {:induction false} GapSkips(g: Gap, rest: string)
    requires GapOK(g)
    ensures Tokenize(GapText(g) + rest) == Tokenize(rest)
  {
    if g == [] {
      assert GapText(g) + rest == rest;
    } else {
      GapSkips(g[1..], rest);
      TriviaSkips(g[0], GapText(g[1..]) + rest);
      assert GapText(g) + rest == TriviaText(g[0]) + (GapText(g[1..]) + rest);
    }
  }

  // ---- Rendering ----------------------------------------------------------------------

  /** A token as written, with the gap after it. */
  datatype Written = Written(token: Token, spelling: string, gap: Gap)

  /** Each token is spelled properly and each gap begins with whitespace; only after the last
      token may there be none. */
  ghost predicate WellWritten(ws: seq<Written>) {
    forall i :: 0 <= i < |ws| ==>
      && Spells(ws[i].token, ws[i].spelling) && GapOK(ws[i].gap)
      && if ws[i].gap == [] then i == |ws| - 1 else ws[i].gap[0].Blank?
  }

  function Render(ws: seq<Written>): string {
    if ws == [] then "" else ws[0].spelling + (GapText(ws[0].gap) + Render(ws[1..]))
  }

  function TokensOf(ws: seq<Written>): seq<Token> {
    if ws == [] then [] else [ws[0].token] + TokensOf(ws[1..])
  }

  /** However a token list is written, with whatever case, quoting, whitespace and comments,
      it is read back. */
  lemma {:induction false} RenderingReadsBack(ws: seq<Written>)
    requires WellWritten(ws)
    ensures Tokenize(Render(ws)) == Ok(TokensOf(ws))
  {
    if ws != [] {
      var w := ws[0];
      var rest := GapText(w.gap) + Render(ws[1..]);
      RenderingReadsBack(ws[1..]);
      GapSkips(w.gap, Render(ws[1..]));
      assert Apart(rest) by {
        if w.gap == [] { assert ws[1..] == []; } else { assert GapText(w.gap)[0] == w.gap[0].c; }
      }
      LexSpelling(w.token, w.spelling, rest);
      assert (w.spelling + rest)[|w.spelling|..] == rest;
    }
  }

  /** Leading trivia does not show either. */
  lemma LeadingGap(lead: Gap, ws: seq<Written>)
    requires GapOK(lead) && WellWritten(ws)
    ensures Tokenize(GapText(lead) + Render(ws)) == Ok(TokensOf(ws))
  {
    GapSkips(lead, Render(ws));
    RenderingReadsBack(ws);
  }

  lemma OneToken(s: string, t: Token)
    requires s != "" && Lex(s) == Emit(t, |s|)
    ensures Tokenize(s) == Ok([t])
  {
    var rest := s[|s|..];
    TokenizeNothing(rest);
    assert Tokenize(s) == Behind([t], Tokenize(rest));
    assert [t] + [] == [t];
  }

  lemma TokenizeNothing(s: string)
    requires s == ""
    ensures Tokenize(s) == Ok([])
  {
  }

  /** What each single character is: whitespace, a word in lower case, the start of a quoted run
      that does not end, or an operator. */
  lemma OneCharacter(c: char)
    ensures c in {' ', '\t', '\n', '\r', '\U{000B}', '\U{000C}'} ==> Tokenize([c]) == Ok([])
    ensures 'a' <= c <= 'z' || '0' <= c <= '9' || c == '_' || c == '$' || c >= '\U{0080}' ==>
              Tokenize([c]) == Ok([Token([c], Word)])
    ensures 'A' <= c <= 'Z' ==> Tokenize([c]) == Ok([Token([('a' as int + (c as int - 'A' as int)) as char], Word)])
    ensures c in {'\'', '\"', '`', '['} ==> Tokenize([c]).Err?
    ensures (c < '\U{0080}' && !('a' <= c <= 'z') && !('A' <= c <= 'Z') && !('0' <= c <= '9')
             && c !in {' ', '\t', '\n', '\r', '\U{000B}', '\U{000C}', '_', '$', '\'', '\"', '`', '['}) ==>
              Tokenize([c]) == Ok([Token([c], Punct)])
  {
    var s := [c];
    TokenizeNothing(s[1..]);
    if IsWordChar(c) {
      assert WordWidth(s[1..]) == 0 && s[..1] == s;
      assert Lower(s) == [LowerChar(c)];
      OneToken(s, Token(Lower(s), Word));
    } else if !IsBlank(c) && c != '\'' && !IsQuote(c) {
      assert s[..1] == s;
      OneToken(s, Token(s, Punct));
    }
  }

  /** Quoting any name with doubled closers is undone up to ASCII case, and a string literal
      keeps its exact body. */
  lemma QuotingReadsBack(name: string, q: char)
    requires q == '"' || q == '`'
    ensures Tokenize(Quote(name, q)) == Ok([Token(Lower(name), Quoted)])
    ensures Tokenize(Quote(name, '\'')) == Ok([Token(Quote(name, '\''), Literal)])
  {
    LexQuoted(name, q, "");
    LexLiteral(name, "");
    assert Quote(name, q) + "" == Quote(name, q) && Quote(name, '\'') + "" == Quote(name, '\'');
    OneToken(Quote(name, q), Token(Lower(name), Quoted));
    OneToken(Quote(name, '\''), Token(Quote(name, '\''), Literal));
  }

  /** Different bodies give different literals. */
  lemma LiteralsDistinct(a: string, b: string)
    requires Quote(a, '\'') == Quote(b, '\'')
    ensures a == b
  {
    UnquoteDoubled(a, '\'');
    UnquoteDoubled(b, '\'');
    assert Doubled(a, '\'') == Quote(a, '\'')[1..|Quote(a, '\'')| - 1];
    assert Doubled(b, '\'') == Quote(b, '\'')[1..|Quote(b, '\'')| - 1];
  }
}
