/** The string order, key tuples and sorting used wherever the program sorts a list. */
module Ordering {

  // ---- Lexicographic order on strings -------------------------------------------------

  predicate Less(a: string, b: string) {
    b != [] && (a == [] || a[0] < b[0] || (a[0] == b[0] && Less(a[1..], b[1..])))
  }

  lemma {:induction false} LessIrreflexive(a: string)
    ensures !Less(a, a)
  {
    if a != [] { LessIrreflexive(a[1..]); }
  }

  lemma {:induction false} LessTransitive(a: string, b: string, c: string)
    requires Less(a, b) && Less(b, c)
    ensures Less(a, c)
  {
    if a != [] && a[0] == b[0] == c[0] { LessTransitive(a[1..], b[1..], c[1..]); }
  }

  lemma {:induction false} LessTotal(a: string, b: string)
    ensures a == b || Less(a, b) || Less(b, a)
  {
    if a != [] && b != [] && a[0] == b[0] {
      LessTotal(a[1..], b[1..]);
      assert a == [a[0]] + a[1..] && b == [b[0]] + b[1..];
    }
  }

  /** The order written out: a is a proper prefix of b, or the first characters in which the
      two differ decide. */
  ghost predicate Before(a: string, b: string) {
    exists k :: 0 <= k <= |a| && k <= |b| && a[..k] == b[..k] && FirstDifference(a, b, k)
  }

  predicate FirstDifference(a: string, b: string, k: nat)
    requires k <= |a| && k <= |b|
  {
    if k == |a| then k < |b| else k < |b| && a[k] < b[k]
  }

  lemma {:induction false} LessIsBefore(a: string, b: string) returns (k: nat)
    requires Less(a, b)
    ensures k <= |a| && k <= |b| && a[..k] == b[..k] && FirstDifference(a, b, k)
  {
    if a == [] || a[0] < b[0] {
      k := 0;
    } else {
      var i := LessIsBefore(a[1..], b[1..]);
      k := i + 1;
      assert a[..k] == [a[0]] + a[1..][..i] && b[..k] == [b[0]] + b[1..][..i];
    }
  }

  lemma {:induction false} BeforeIsLess(a: string, b: string, k: nat)
    requires k <= |a| && k <= |b| && a[..k] == b[..k] && FirstDifference(a, b, k)
    ensures Less(a, b)
  {
    if k > 0 {
      assert a[..k][0] == a[0] && b[..k][0] == b[0];
      assert a[1..][..k-1] == a[..k][1..] && b[1..][..k-1] == b[..k][1..];
      BeforeIsLess(a[1..], b[1..], k - 1);
    }
  }

  lemma BeforeMeans(a: string, b: string)
    ensures Less(a, b) <==> Before(a, b)
  {
    if Less(a, b) {
      var k := LessIsBefore(a, b);
      assert a[..k] == b[..k];
    }
    if k :| 0 <= k <= |a| && k <= |b| && a[..k] == b[..k] && FirstDifference(a, b, k) { BeforeIsLess(a, b, k); }
  }

  // ---- Key tuples ---------------------------------------------------------------------

  /** Compares two key tuples by their first differing component. */
  predicate LessKeys(a: seq<string>, b: seq<string>) {
    a != [] && b != [] &&
    if a[0] != b[0] then Less(a[0], b[0]) else LessKeys(a[1..], b[1..])
  }

  lemma {:induction false} LessKeysIrreflexive(a: seq<string>)
    ensures !LessKeys(a, a)
  {
    if a != [] { LessKeysIrreflexive(a[1..]); }
  }

  lemma {:induction false} LessKeysTransitive(a: seq<string>, b: seq<string>, c: seq<string>)
    requires LessKeys(a, b) && LessKeys(b, c)
    ensures LessKeys(a, c)
  {
    if a[0] == b[0] == c[0] {
      LessKeysTransitive(a[1..], b[1..], c[1..]);
    } else if a[0] != b[0] && b[0] != c[0] {
      LessTransitive(a[0], b[0], c[0]);
      LessIrreflexive(c[0]);
    }
  }

  lemma {:induction false} LessKeysTotal(a: seq<string>, b: seq<string>)
    requires |a| == |b|
    ensures a == b || LessKeys(a, b) || LessKeys(b, a)
  {
    if a != [] {
      LessTotal(a[0], b[0]);
      LessKeysTotal(a[1..], b[1..]);
      assert a == [a[0]] + a[1..] && b == [b[0]] + b[1..];
    }
  }

  // ---- Stable sorting by key ----------------------------------------------------------

  /** Every key produced by `key` has the same length, as every sort in the program has. */
  ghost predicate Uniform<T(!new)>(key: T -> seq<string>) {
    forall x, y :: |key(x)| == |key(y)|
  }

  ghost predicate SortedBy<T>(s: seq<T>, key: T -> seq<string>) {
    forall i, j :: 0 <= i < j < |s| ==> !LessKeys(key(s[j]), key(s[i]))
  }

  /** Places x after the elements whose key is not greater. */
  function Insert<T>(x: T, s: seq<T>, key: T -> seq<string>): (r: seq<T>)
    ensures multiset(r) == multiset([x]) + multiset(s)
  {
    if s == [] then [x]
    else
      assert s == [s[0]] + s[1..];
      if LessKeys(key(x), key(s[0])) then [x] + s
      else [s[0]] + Insert(x, s[1..], key)
  }

  function Sort<T>(s: seq<T>, key: T -> seq<string>): (r: seq<T>)
    ensures multiset(r) == multiset(s)
    ensures |r| == |s|
  {
    if s == [] then []
    else
      var n := |s| - 1;
      assert s == s[..n] + [s[n]];
      var r := Insert(s[n], Sort(s[..n], key), key);
      assert |r| == |multiset(r)| == |multiset(s)|;
      r
  }

  lemma {:induction false} InsertSorted<T(!new)>(x: T, s: seq<T>, key: T -> seq<string>)
    requires SortedBy(s, key)
    ensures SortedBy(Insert(x, s, key), key)
  {
    if s == [] {
    } else if LessKeys(key(x), key(s[0])) {
      forall j | 0 <= j < |s| ensures !LessKeys(key(s[j]), key(x)) {
        if LessKeys(key(s[j]), key(x)) { LessKeysTransitive(key(s[j]), key(x), key(s[0])); LessKeysIrreflexive(key(s[0])); }
      }
    } else {
      InsertSorted(x, s[1..], key);
      var r := Insert(x, s[1..], key);
      forall j | 0 <= j < |r| ensures !LessKeys(key(r[j]), key(s[0])) {
        assert r[j] in multiset(r);
        assert r[j] == x || r[j] in s[1..];
      }
    }
  }

  lemma {:induction false} SortSorted<T(!new)>(s: seq<T>, key: T -> seq<string>)
    ensures SortedBy(Sort(s, key), key)
  {
    if s != [] {
      var n := |s| - 1;
      var r := Sort(s[..n], key);
      SortSorted(s[..n], key);
      InsertSorted(s[n], r, key);
      assert Sort(s, key) == Insert(s[n], r, key);
    }
  }

  /** Keys tell the elements of s apart. */
  ghost predicate KeyInjective<T>(s: seq<T>, key: T -> seq<string>) {
    forall x, y :: x in s && y in s && key(x) == key(y) ==> x == y
  }

  lemma {:induction false} HeadIsLeast<T(!new)>(a: seq<T>, b: seq<T>, key: T -> seq<string>)
    requires a != [] && multiset(a) == multiset(b) && SortedBy(a, key)
    ensures b != [] && !LessKeys(key(b[0]), key(a[0]))
  {
    assert a[0] in multiset(b);
    assert b[0] in multiset(a);
    var j :| 0 <= j < |a| && a[j] == b[0];
    LessKeysIrreflexive(key(a[0]));
  }

  lemma SameHead<T(!new)>(a: seq<T>, b: seq<T>, key: T -> seq<string>)
    requires Uniform(key) && SortedBy(a, key) && SortedBy(b, key)
    requires a != [] && multiset(a) == multiset(b) && KeyInjective(a, key)
    ensures b != [] && a[0] == b[0]
  {
    HeadIsLeast(a, b, key);
    HeadIsLeast(b, a, key);
    LessKeysTotal(key(a[0]), key(b[0]));
    assert b[0] in multiset(a);
  }

  lemma TailMultiset<T>(s: seq<T>)
    requires s != []
    ensures multiset(s[1..]) == multiset(s) - multiset{s[0]}
  {
    assert s == [s[0]] + s[1..];
  }

  /** A sorted list is determined by its elements when the key tells them apart. */
  lemma {:induction false} SortedUnique<T(!new)>(a: seq<T>, b: seq<T>, key: T -> seq<string>)
    requires Uniform(key) && SortedBy(a, key) && SortedBy(b, key)
    requires multiset(a) == multiset(b) && KeyInjective(a, key)
    ensures a == b
  {
    if a == [] {
      assert |multiset(b)| == 0;
    } else {
      SameHead(a, b, key);
      TailMultiset(a);
      TailMultiset(b);
      TailSorted(a, key);
      TailSorted(b, key);
      SortedUnique(a[1..], b[1..], key);
      HeadAndTail(a, b);
    }
  }

  lemma TailSorted<T(!new)>(s: seq<T>, key: T -> seq<string>)
    requires s != []
    ensures SortedBy(s, key) ==> SortedBy(s[1..], key)
    ensures KeyInjective(s, key) ==> KeyInjective(s[1..], key)
  {
    assert s == [s[0]] + s[1..];
  }

  lemma HeadAndTail<T>(a: seq<T>, b: seq<T>)
    requires a != [] && b != [] && a[0] == b[0] && a[1..] == b[1..]
    ensures a == b
  {
    assert a == [a[0]] + a[1..] && b == [b[0]] + b[1..];
  }

  /** Sorting does not see the order in which the list was written. */
  lemma SortPermutation<T(!new)>(a: seq<T>, b: seq<T>, key: T -> seq<string>)
    requires Uniform(key) && multiset(a) == multiset(b) && KeyInjective(a, key)
    ensures Sort(a, key) == Sort(b, key)
  {
    SortSorted(a, key);
    SortSorted(b, key);
    forall x, y | x in Sort(a, key) && y in Sort(a, key) && key(x) == key(y) ensures x == y {
      assert x in multiset(a) && y in multiset(a);
    }
    SortedUnique(Sort(a, key), Sort(b, key), key);
  }

  /** A sorted list is its own sort. */
  lemma {:induction false} SortIdempotent<T(!new)>(s: seq<T>, key: T -> seq<string>)
    requires SortedBy(s, key)
    ensures Sort(s, key) == s
  {
    if s != [] {
      var n := |s| - 1;
      SortIdempotent(s[..n], key);
      InsertLast(s[n], s[..n], key);
    }
  }

  lemma {:induction false} InsertLast<T(!new)>(x: T, s: seq<T>, key: T -> seq<string>)
    requires forall i :: 0 <= i < |s| ==> !LessKeys(key(x), key(s[i]))
    ensures Insert(x, s, key) == s + [x]
  {
    if s != [] { InsertLast(x, s[1..], key); }
  }

  // ---- Mapping a list -----------------------------------------------------------------

  function Map<T, U>(f: T -> U, s: seq<T>): (r: seq<U>)
    ensures |r| == |s| && forall i :: 0 <= i < |s| ==> r[i] == f(s[i])
  {
    seq(|s|, i requires 0 <= i < |s| => f(s[i]))
  }

  lemma MapMember<T, U>(f: T -> U, s: seq<T>, x: T)
    requires x in s
    ensures f(x) in Map(f, s)
  {
    var i :| 0 <= i < |s| && s[i] == x;
    assert Map(f, s)[i] == f(x);
  }

  /** s without its j-th element. */
  function Without<T>(s: seq<T>, j: nat): (r: seq<T>)
    requires j < |s|
    ensures |r| == |s| - 1 && multiset(s) == multiset(r) + multiset{s[j]}
    ensures forall x :: x in r ==> x in s
  {
    assert s == s[..j] + [s[j]] + s[j+1..];
    s[..j] + s[j+1..]
  }

  lemma MapWithout<T, U>(f: T -> U, s: seq<T>, j: nat)
    requires j < |s|
    ensures multiset(Map(f, s)) == multiset(Map(f, Without(s, j))) + multiset{f(s[j])}
  {
    assert Map(f, Without(s, j)) == Without(Map(f, s), j);
  }

  /** If g looks at no more than f does, lists that agree through f up to order agree
      through g up to order. */
  lemma {:induction false} MapFactor<T, U, V>(f: T -> U, g: T -> V, a: seq<T>, b: seq<T>)
    requires multiset(Map(f, a)) == multiset(Map(f, b))
    requires forall x, y :: x in a && y in b && f(x) == f(y) ==> g(x) == g(y)
    ensures multiset(Map(g, a)) == multiset(Map(g, b))
    decreases |a|
  {
    if a == [] {
      assert |multiset(Map(f, b))| == 0;
    } else {
      var j := FindImage(f, b, f(a[0]), multiset(Map(f, a)));
      MapWithout(f, a, 0);
      MapWithout(f, b, j);
      Cancel(multiset(Map(f, Without(a, 0))), multiset(Map(f, Without(b, j))), f(a[0]));
      MapFactor(f, g, Without(a, 0), Without(b, j));
      MapWithout(g, a, 0);
      MapWithout(g, b, j);
    }
  }

  lemma FindImage<T, U>(f: T -> U, b: seq<T>, y: U, images: multiset<U>) returns (j: nat)
    requires y in images && images == multiset(Map(f, b))
    ensures j < |b| && f(b[j]) == y
  {
    assert y in Map(f, b);
    j :| 0 <= j < |b| && Map(f, b)[j] == y;
  }

  lemma Cancel<T>(a: multiset<T>, b: multiset<T>, x: T)
    requires a + multiset{x} == b + multiset{x}
    ensures a == b
  {
    forall y ensures a[y] == b[y] {
      assert (a + multiset{x})[y] == (b + multiset{x})[y];
    }
  }

  /** Distinct images tell elements apart, and so do keys that determine the images. */
  lemma DistinctInjective<T(!new), U>(g: T -> U, s: seq<T>, key: T -> seq<string>)
    requires NoDuplicates(Map(g, s))
    requires forall x, y :: x in s && y in s && key(x) == key(y) ==> g(x) == g(y)
    ensures KeyInjective(s, key)
  {
    forall x, y | x in s && y in s && key(x) == key(y) ensures x == y {
      var i :| 0 <= i < |s| && s[i] == x;
      var j :| 0 <= j < |s| && s[j] == y;
      assert Map(g, s)[i] == Map(g, s)[j];
    }
  }

  lemma {:induction false} InsertMap<T(!new)>(f: T -> T, x: T, s: seq<T>, key: T -> seq<string>)
    requires forall y :: key(f(y)) == key(y)
    ensures Insert(f(x), Map(f, s), key) == Map(f, Insert(x, s, key))
  {
    if s == [] {
      assert Map(f, [x]) == [f(x)];
    } else {
      assert Map(f, s)[1..] == Map(f, s[1..]);
      if LessKeys(key(x), key(s[0])) {
        MapCons(f, x, s);
      } else {
        InsertMap(f, x, s[1..], key);
        MapCons(f, s[0], Insert(x, s[1..], key));
      }
    }
  }

  lemma MapCons<T, U>(f: T -> U, x: T, s: seq<T>)
    ensures Map(f, [x] + s) == [f(x)] + Map(f, s)
  {
  }

  /** A rewriting that keeps keys can be done before or after sorting. */
  lemma {:induction false} SortMap<T(!new)>(f: T -> T, s: seq<T>, key: T -> seq<string>)
    requires forall y :: key(f(y)) == key(y)
    ensures Sort(Map(f, s), key) == Map(f, Sort(s, key))
  {
    if s != [] {
      var n := |s| - 1;
      assert Map(f, s)[..n] == Map(f, s[..n]);
      SortMap(f, s[..n], key);
      InsertMap(f, s[n], Sort(s[..n], key), key);
    }
  }

  lemma MapPermutation<T, V>(g: T -> V, a: seq<T>, b: seq<T>)
    requires multiset(a) == multiset(b)
    ensures multiset(Map(g, a)) == multiset(Map(g, b))
  {
    var id := (x: T) => x;
    assert Map(id, a) == a && Map(id, b) == b;
    MapFactor(id, g, a, b);
  }

  lemma SameDuplicates<T>(a: seq<T>, b: seq<T>)
    requires multiset(a) == multiset(b) && NoDuplicates(a)
    ensures NoDuplicates(b)
  {
    NoDuplicatesMultiset(a);
    MultisetNoDuplicates(b);
  }

  // ---- Sorted listings of a set of identifiers ----------------------------------------

  function IdKey(id: string): seq<string> { [id] }

  ghost predicate StrictlySorted(s: seq<string>) {
    forall i, j :: 0 <= i < j < |s| ==> Less(s[i], s[j])
  }

  ghost predicate NoDuplicates<T>(s: seq<T>) {
    forall i, j :: 0 <= i < j < |s| ==> s[i] != s[j]
  }

  /** One more element of a list read from the front. */
  lemma TakeNext<T>(s: seq<T>, i: nat)
    requires i < |s|
    ensures s[..i+1] == s[..i] + [s[i]]
    ensures forall x :: x in s[..i+1] <==> x in s[..i] || x == s[i]
  {
  }

  /** The list so far stays free of duplicates exactly if the next element is new. */
  lemma NextIsNew<T>(s: seq<T>, i: nat)
    requires i < |s| && NoDuplicates(s[..i])
    ensures NoDuplicates(s[..i+1]) <==> s[i] !in s[..i]
    ensures s[i] in s[..i] ==> !NoDuplicates(s)
  {
    if s[i] in s[..i] {
      var j :| 0 <= j < i && s[..i][j] == s[i];
      assert s[..i+1][j] == s[..i+1][i] && s[j] == s[i];
    }
  }

  lemma TakeAll<T>(s: seq<T>)
    ensures s[..|s|] == s
  {
  }

  /** s lists exactly the members of ids, each once, in increasing order. */
  ghost predicate Lists(s: seq<string>, ids: set<string>) {
    StrictlySorted(s) && forall x :: x in s <==> x in ids
  }

  lemma SortLists(s: seq<string>, ids: set<string>)
    requires NoDuplicates(s) && forall x :: x in s <==> x in ids
    ensures Lists(Sort(s, IdKey), ids)
  {
    var r := Sort(s, IdKey);
    SortSorted(s, IdKey);
    forall x ensures x in r <==> x in ids {
      assert x in r <==> x in multiset(r);
      assert x in s <==> x in multiset(s);
    }
    NoDuplicatesMultiset(s);
    MultisetNoDuplicates(r);
    forall i, j | 0 <= i < j < |r| ensures Less(r[i], r[j]) {
      LessTotal(r[i], r[j]);
      assert !LessKeys(IdKey(r[j]), IdKey(r[i]));
    }
  }

  lemma {:induction false} NoDuplicatesMultiset<T>(s: seq<T>)
    requires NoDuplicates(s)
    ensures forall x :: multiset(s)[x] <= 1
  {
    if s != [] {
      assert s == [s[0]] + s[1..];
      NoDuplicatesMultiset(s[1..]);
      assert s[0] !in s[1..];
    }
  }

  lemma {:induction false} MultisetNoDuplicates<T>(s: seq<T>)
    requires forall x :: multiset(s)[x] <= 1
    ensures NoDuplicates(s)
  {
    if s != [] {
      TailMultiset(s);
      MultisetNoDuplicates(s[1..]);
      assert s[0] !in multiset(s[1..]);
    }
  }

  /** The listing of a set is unique. */
  lemma {:induction false} ListsUnique(a: seq<string>, b: seq<string>, ids: set<string>)
    requires Lists(a, ids) && Lists(b, ids)
    ensures a == b
    decreases |a|
  {
    EmptyListing(a, ids);
    EmptyListing(b, ids);
    if a != [] {
      assert a[0] in b;
      assert b[0] in a;
      LessIrreflexive(a[0]);
      if a[0] != b[0] {
        var i :| 0 <= i < |b| && b[i] == a[0];
        var j :| 0 <= j < |a| && a[j] == b[0];
        LessTransitive(a[0], b[0], a[0]);
      }
      var rest := ids - {a[0]};
      forall x ensures x in a[1..] <==> x in rest {
        TailMember(a, x);
      }
      forall x ensures x in b[1..] <==> x in rest {
        TailMember(b, x);
      }
      ListsUnique(a[1..], b[1..], rest);
      assert a == [a[0]] + a[1..] && b == [b[0]] + b[1..];
    }
  }

  lemma EmptyListing(s: seq<string>, ids: set<string>)
    requires Lists(s, ids)
    ensures s == [] <==> ids == {}
  {
    if s != [] { assert s[0] in ids; }
  }

  lemma TailMember(s: seq<string>, x: string)
    requires s != [] && StrictlySorted(s)
    ensures x in s[1..] <==> x in s && x != s[0]
  {
    LessIrreflexive(s[0]);
    if x in s && x != s[0] {
      var i :| 0 <= i < |s| && s[i] == x;
      assert s[1..][i-1] == x;
    }
  }

  lemma {:induction false} ListingExists(ids: set<string>) returns (s: seq<string>)
    ensures NoDuplicates(s) && forall x :: x in s <==> x in ids
  {
    if ids == {} {
      s := [];
    } else {
      var x :| x in ids;
      var rest := ListingExists(ids - {x});
      s := [x] + rest;
    }
  }

  lemma SortedListingExists(ids: set<string>)
    ensures exists s :: Lists(s, ids)
  {
    var s := ListingExists(ids);
    SortLists(s, ids);
  }

  ghost function Listing(ids: set<string>): (s: seq<string>)
    ensures Lists(s, ids)
  {
    SortedListingExists(ids);
    var s :| Lists(s, ids);
    s
  }

  /** The keys of a map in increasing order, collected in any order and sorted. */
  method SortedKeys<V>(m: map<string, V>) returns (keys: seq<string>)
    ensures keys == Listing(m.Keys)
  {
    var found: seq<string> := [];
    var rest := m.Keys;
    while rest != {}
      invariant NoDuplicates(found) && rest <= m.Keys
      invariant forall k :: k in found <==> k in m.Keys - rest
      decreases rest
    {
      var k :| k in rest;
      assert k !in found;
      rest := rest - {k};
      found := found + [k];
    }
    SortLists(found, m.Keys);
    keys := Sort(found, IdKey);
    ListsUnique(keys, Listing(m.Keys), m.Keys);
  }
}
