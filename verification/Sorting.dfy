/**
 Stable sorting by a string key, and what makes its result independent of the order of the input.

 Rust compares strings byte by byte; on UTF-8 that is the order of the scalar values used here.
 */
module Sorting {

  /** Lexicographic order. */
  predicate LexLe(a: string, b: string) {
    a == "" || (b != "" && (a[0] < b[0] || (a[0] == b[0] && LexLe(a[1..], b[1..]))))
  }

  lemma {:induction false} LexReflexive(a: string)
    ensures LexLe(a, a)
  {
    if a != "" { LexReflexive(a[1..]); }
  }

  lemma {:induction false} LexTotal(a: string, b: string)
    ensures LexLe(a, b) || LexLe(b, a)
  {
    if a != "" && b != "" && a[0] == b[0] { LexTotal(a[1..], b[1..]); }
  }

  lemma {:induction false} LexAntisymmetric(a: string, b: string)
    requires LexLe(a, b) && LexLe(b, a)
    ensures a == b
  {
    if a != "" && b != "" {
      LexAntisymmetric(a[1..], b[1..]);
      assert a == [a[0]] + a[1..] && b == [b[0]] + b[1..];
    }
  }

  lemma {:induction false} LexTransitive(a: string, b: string, c: string)
    requires LexLe(a, b) && LexLe(b, c)
    ensures LexLe(a, c)
  {
    if a != "" && a[0] == b[0] && b[0] == c[0] { LexTransitive(a[1..], b[1..], c[1..]); }
  }

  // ---------------------------------------------------------------- Stable sort

  /** `x` goes in front of the first element whose key is not smaller. */
  function Insert<T>(x: T, sorted: seq<T>, key: T -> string): seq<T> {
    if sorted == [] || LexLe(key(x), key(sorted[0])) then [x] + sorted
    else [sorted[0]] + Insert(x, sorted[1..], key)
  }

  /** `sort_by_key`: stable, equal keys keep their order. */
  function SortBy<T>(items: seq<T>, key: T -> string): seq<T> {
    if items == [] then [] else Insert(items[0], SortBy(items[1..], key), key)
  }

  ghost predicate SortedBy<T>(s: seq<T>, key: T -> string) {
    forall i, j :: 0 <= i < j < |s| ==> LexLe(key(s[i]), key(s[j]))
  }

  lemma {:induction false} InsertMultiset<T>(x: T, sorted: seq<T>, key: T -> string)
    ensures multiset(Insert(x, sorted, key)) == multiset([x]) + multiset(sorted)
    decreases |sorted|
  {
    if sorted != [] && !LexLe(key(x), key(sorted[0])) {
      InsertMultiset(x, sorted[1..], key);
      assert sorted == [sorted[0]] + sorted[1..];
    }
  }

  ghost predicate IsLeast<T>(x: T, s: seq<T>, key: T -> string) {
    forall j :: 0 <= j < |s| ==> LexLe(key(x), key(s[j]))
  }

  lemma SortedCons<T>(x: T, s: seq<T>, key: T -> string)
    requires SortedBy(s, key) && IsLeast(x, s, key)
    ensures SortedBy([x] + s, key)
  {
  }

  lemma LeastOfInserted<T>(least: T, x: T, s: seq<T>, key: T -> string)
    requires IsLeast(least, s, key) && LexLe(key(least), key(x))
    ensures IsLeast(least, Insert(x, s, key), key)
  {
    var r := Insert(x, s, key);
    InsertMultiset(x, s, key);
    forall j | 0 <= j < |r| ensures LexLe(key(least), key(r[j])) {
      assert r[j] in multiset(r);
      assert r[j] == x || r[j] in s;
    }
  }

  lemma {:induction false} InsertSorted<T>(x: T, sorted: seq<T>, key: T -> string)
    requires SortedBy(sorted, key)
    ensures SortedBy(Insert(x, sorted, key), key)
    decreases |sorted|
  {
    if sorted == [] {
    } else if LexLe(key(x), key(sorted[0])) {
      forall j | 0 <= j < |sorted| ensures LexLe(key(x), key(sorted[j])) {
        if j > 0 { LexTransitive(key(x), key(sorted[0]), key(sorted[j])); }
      }
      SortedCons(x, sorted, key);
    } else {
      LexTotal(key(x), key(sorted[0]));
      SortedTail(sorted, key);
      InsertSorted(x, sorted[1..], key);
      assert IsLeast(sorted[0], sorted[1..], key);
      LeastOfInserted(sorted[0], x, sorted[1..], key);
      SortedCons(sorted[0], Insert(x, sorted[1..], key), key);
    }
  }

  lemma {:induction false} SortFacts<T>(items: seq<T>, key: T -> string)
    ensures SortedBy(SortBy(items, key), key)
    ensures multiset(SortBy(items, key)) == multiset(items)
    decreases |items|
  {
    if items != [] {
      SortFacts(items[1..], key);
      InsertSorted(items[0], SortBy(items[1..], key), key);
      InsertMultiset(items[0], SortBy(items[1..], key), key);
      assert items == [items[0]] + items[1..];
    }
  }

  /** Elements with equal keys are equal. */
  ghost predicate KeyDetermines<T(!new)>(items: multiset<T>, key: T -> string) {
    forall x, y :: x in items && y in items && key(x) == key(y) ==> x == y
  }

  /** A multiset has one sorted arrangement when keys determine elements. */
  lemma {:induction false} SortedUnique<T(!new)>(a: seq<T>, b: seq<T>, key: T -> string)
    requires SortedBy(a, key) && SortedBy(b, key) && multiset(a) == multiset(b)
    requires KeyDetermines(multiset(a), key)
    ensures a == b
    decreases |a|
  {
    assert |a| == |multiset(a)| == |multiset(b)| == |b|;
    if a != [] {
      HeadsAgree(a, b, key);
      TailMultiset(a);
      TailMultiset(b);
      SortedTail(a, key);
      SortedTail(b, key);
      SortedUnique(a[1..], b[1..], key);
    }
  }

  lemma TailMultiset<T>(a: seq<T>)
    requires a != []
    ensures multiset(a[1..]) == multiset(a) - multiset{a[0]}
    ensures a == [a[0]] + a[1..]
  {
    assert a == [a[0]] + a[1..];
  }

  lemma HeadsAgree<T(!new)>(a: seq<T>, b: seq<T>, key: T -> string)
    requires a != [] && b != [] && SortedBy(a, key) && SortedBy(b, key) && multiset(a) == multiset(b)
    requires KeyDetermines(multiset(a), key)
    ensures a[0] == b[0]
  {
    assert a[0] in multiset(b) && b[0] in multiset(a);
    HeadIsLeast(a, b[0], key);
    HeadIsLeast(b, a[0], key);
    LexAntisymmetric(key(a[0]), key(b[0]));
  }

  lemma SortedTail<T>(a: seq<T>, key: T -> string)
    requires a != [] && SortedBy(a, key)
    ensures SortedBy(a[1..], key)
  {
    assert forall i :: 0 <= i < |a[1..]| ==> a[1..][i] == a[i + 1];
  }

  lemma HeadIsLeast<T(!new)>(a: seq<T>, x: T, key: T -> string)
    requires a != [] && SortedBy(a, key) && x in multiset(a)
    ensures LexLe(key(a[0]), key(x))
  {
    var i :| 0 <= i < |a| && a[i] == x;
    LexReflexive(key(x));
  }

  /** Sorting forgets the order of the input. */
  lemma SortForgetsOrder<T(!new)>(a: seq<T>, b: seq<T>, key: T -> string)
    requires multiset(a) == multiset(b) && KeyDetermines(multiset(a), key)
    ensures SortBy(a, key) == SortBy(b, key)
  {
    SortFacts(a, key);
    SortFacts(b, key);
    SortedUnique(SortBy(a, key), SortBy(b, key), key);
  }

  // ---------------------------------------------------------------- Keys of sorted items

  function Map<T, U>(s: seq<T>, f: T -> U): (r: seq<U>)
    ensures |r| == |s|
    ensures forall i :: 0 <= i < |s| ==> r[i] == f(s[i])
  {
    seq(|s|, i requires 0 <= i < |s| => f(s[i]))
  }

  function Self(s: string): string {
    s
  }

  /** `sort` on strings. */
  function Sort(s: seq<string>): seq<string> {
    SortBy(s, Self)
  }

  lemma SortForgetsOrderOfStrings(a: seq<string>, b: seq<string>)
    requires multiset(a) == multiset(b)
    ensures Sort(a) == Sort(b)
  {
    SortForgetsOrder(a, b, Self);
  }

  function Cut<T>(a: seq<T>, i: nat): seq<T>
    requires i < |a|
  {
    a[..i] + a[i + 1..]
  }

  lemma MultisetOfCut<T>(a: seq<T>, i: nat)
    requires i < |a|
    ensures multiset(a) == multiset{a[i]} + multiset(Cut(a, i))
  {
    assert a == a[..i] + [a[i]] + a[i + 1..];
  }

  lemma MapOfCut<T, U>(a: seq<T>, i: nat, f: T -> U)
    requires i < |a|
    ensures multiset(Map(a, f)) == multiset{f(a[i])} + multiset(Map(Cut(a, i), f))
  {
    MultisetOfCut(Map(a, f), i);
    assert Cut(Map(a, f), i) == Map(Cut(a, i), f);
  }

  /** The first element of one arrangement stands somewhere in the other. */
  lemma PlaceOfFirst<T>(a: seq<T>, b: seq<T>) returns (i: nat)
    requires a != [] && multiset(a) == multiset(b)
    ensures i < |b| && b[i] == a[0] && multiset(a[1..]) == multiset(Cut(b, i))
  {
    assert a[0] in multiset(b);
    i :| 0 <= i < |b| && b[i] == a[0];
    MultisetOfCut(b, i);
    TailMultiset(a);
  }

  lemma {:induction false} MapMultiset<T, U>(a: seq<T>, b: seq<T>, f: T -> U)
    requires multiset(a) == multiset(b)
    ensures multiset(Map(a, f)) == multiset(Map(b, f))
    decreases |a|
  {
    if a == [] {
      assert |b| == |multiset(b)| == 0;
    } else {
      var i := PlaceOfFirst(a, b);
      MapMultiset(a[1..], Cut(b, i), f);
      MapOfCut(b, i, f);
      MapOfCut(a, 0, f);
      assert Cut(a, 0) == a[1..];
    }
  }

  /** Sorting pairs once by key gives the keys in sorted order: the same list as sorting the keys alone. */
  lemma KeysOfSortedPairs<T(!new)>(items: seq<T>, other: seq<T>, key: T -> string)
    requires multiset(items) == multiset(other)
    ensures Map(SortBy(items, key), key) == Sort(Map(other, key))
  {
    SortFacts(items, key);
    var sorted := SortBy(items, key);
    MapMultiset(sorted, other, key);
    SortFacts(Map(other, key), Self);
    assert SortedBy(Map(sorted, key), Self);
    SortedUnique(Map(sorted, key), Sort(Map(other, key)), Self);
  }
}
