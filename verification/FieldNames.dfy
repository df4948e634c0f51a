/** How the JSON decoder finds the field a key stands for: the field of exactly that name, or
    else the first field whose name is the key in other letter case. */
module FieldNames {
  import opened Ordering

  /** The upper-case form of an ASCII letter. Two further characters, the long s and the Kelvin
      sign, count as spellings of S and K; no other fold reaches ASCII. */
  function FoldChar(c: char): char {
    if 'a' <= c <= 'z' then (c as int - 'a' as int + 'A' as int) as char
    else if c == '\U{017F}' then 'S'
    else if c == '\U{212A}' then 'K'
    else c
  }

  /** Two characters fold alike exactly if they are the same, or the two cases of one ASCII letter,
      or among the three spellings of S or of K. */
  lemma FoldMeans(a: char, b: char)
    ensures FoldChar(a) == FoldChar(b) <==>
              || a == b
              || ('a' <= a <= 'z' && b as int == 'A' as int + (a as int - 'a' as int))
              || ('a' <= b <= 'z' && a as int == 'A' as int + (b as int - 'a' as int))
              || (a in {'s', 'S', '\U{017F}'} && b in {'s', 'S', '\U{017F}'})
              || (a in {'k', 'K', '\U{212A}'} && b in {'k', 'K', '\U{212A}'})
  {
  }

  function FoldText(s: string): string { seq(|s|, i requires 0 <= i < |s| => FoldChar(s[i])) }

  function FoldedField(key: string, names: seq<string>): string {
    if names == [] then key
    else if FoldText(names[0]) == FoldText(key) then names[0]
    else FoldedField(key, names[1..])
  }

  /** The name of the field; a key that stands for none is left as it is. */
  function FieldOf(key: string, names: seq<string>): string {
    if key in names then key else FoldedField(key, names)
  }

  lemma {:induction false} FoldedFieldNames(key: string, names: seq<string>)
    ensures FoldedField(key, names) == key || FoldedField(key, names) in names
    ensures FoldText(FoldedField(key, names)) == FoldText(key)
    ensures (exists n :: n in names && FoldText(n) == FoldText(key)) ==> FoldedField(key, names) in names
  {
    if names != [] && FoldText(names[0]) != FoldText(key) { FoldedFieldNames(key, names[1..]); }
  }

  /** A key stands for a field exactly if it is a spelling of the field's name. */
  lemma FieldNamed(key: string, names: seq<string>)
    ensures FieldOf(key, names) in names <==> exists n :: n in names && FoldText(n) == FoldText(key)
    ensures FoldText(FieldOf(key, names)) == FoldText(key)
    ensures key in names ==> FieldOf(key, names) == key
  {
    FoldedFieldNames(key, names);
  }

  /** No two names are spellings of one another. */
  ghost predicate FoldedApart(names: seq<string>) {
    forall i, j :: 0 <= i < j < |names| ==> FoldText(names[i]) != FoldText(names[j])
  }

  /** Two keys stand for the same field exactly if they are spellings of one another. */
  lemma SameField(a: string, b: string, names: seq<string>)
    requires FoldedApart(names) && FieldOf(a, names) in names && FieldOf(b, names) in names
    ensures FieldOf(a, names) == FieldOf(b, names) <==> FoldText(a) == FoldText(b)
  {
    FieldNamed(a, names);
    FieldNamed(b, names);
  }
}
