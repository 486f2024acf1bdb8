/**
 The order in which Rust compares strings: byte by byte in UTF-8.  It is the order of the scalar values.
 */
module ByteOrder {
  import opened Text
  import opened Sorting

  /** `a` is a front part of `b`, or has the smaller byte at the first difference. */
  ghost predicate ByteLe(a: Bytes, b: Bytes) {
    || (|a| <= |b| && b[..|a|] == a)
    || exists i :: 0 <= i < |a| && i < |b| && a[..i] == b[..i] && a[i] < b[i]
  }

  /** In ascending byte order. */
  ghost predicate Ascending(s: seq<string>) {
    forall i, j :: 0 <= i < j < |s| ==> ByteLe(Utf8(s[i]), Utf8(s[j]))
  }

  /** The smaller byte comes at position `i`, behind equal ones. */
  predicate LessAt(a: Bytes, b: Bytes, i: nat) {
    i < |a| && i < |b| && a[..i] == b[..i] && a[i] < b[i]
  }

  lemma LessAtIsLe(a: Bytes, b: Bytes, i: nat)
    requires LessAt(a, b, i)
    ensures ByteLe(a, b) && !ByteLe(b, a)
  {
    assert |b| <= |a| ==> a[..|b|][i] == a[i];
    if j :| 0 <= j < |b| && j < |a| && b[..j] == a[..j] && b[j] < a[j] {
      if j < i { assert a[..i][j] == b[..i][j]; }
      if i < j { assert a[..j][i] == b[..j][i]; }
    }
  }

  lemma LessAtBehind(a: Bytes, b: Bytes, i: nat, x: Bytes, y: Bytes)
    requires LessAt(a, b, i)
    ensures LessAt(a + x, b + y, i)
  {
    assert (a + x)[..i] == a[..i] && (b + y)[..i] == b[..i];
  }

  lemma LeBehind(front: Bytes, a: Bytes, b: Bytes)
    requires ByteLe(a, b)
    ensures ByteLe(front + a, front + b)
  {
    if |a| <= |b| && b[..|a|] == a {
      assert (front + b)[..|front + a|] == front + b[..|a|];
    } else {
      var i :| 0 <= i < |a| && i < |b| && a[..i] == b[..i] && a[i] < b[i];
      var k := |front| + i;
      assert (front + a)[..k] == front + a[..i] && (front + b)[..k] == front + b[..i];
      assert (front + a)[k] < (front + b)[k];
    }
  }

  lemma LeAntisymmetric(a: Bytes, b: Bytes)
    requires ByteLe(a, b) && ByteLe(b, a)
    ensures a == b
  {
    if i :| 0 <= i < |a| && i < |b| && a[..i] == b[..i] && a[i] < b[i] {
      LessAtIsLe(a, b, i);
    } else if j :| 0 <= j < |b| && j < |a| && b[..j] == a[..j] && b[j] < a[j] {
      LessAtIsLe(b, a, j);
    } else {
      assert b[..|a|] == a && a[..|b|] == b;
    }
  }

  /** Comparing two numbers digit by digit in base 64. */
  lemma DigitsOrder(m: nat, n: nat)
    requires m <= n
    ensures m / 64 <= n / 64 && (m / 64 == n / 64 ==> m % 64 - n % 64 == m - n)
  {
  }

  /** The lead bytes of shorter and longer encodings. */
  lemma LeadByte(c: char)
    ensures
      var lead := Utf8Char(c)[0];
      && (|Utf8Char(c)| == 1 <==> lead < 0xC0) && (|Utf8Char(c)| == 2 <==> 0xC0 <= lead < 0xE0)
      && (|Utf8Char(c)| == 3 <==> 0xE0 <= lead < 0xF0)
  {
  }

  lemma WidthGrows(c: char, d: char)
    requires c < d
    ensures |Utf8Char(c)| <= |Utf8Char(d)|
  {
  }

  lemma {:induction false} FirstDifference(a: Bytes, b: Bytes) returns (i: nat)
    requires |a| == |b| && a != b
    ensures i < |a| && a[..i] == b[..i] && a[i] != b[i]
  {
    i := 0;
    if a[0] == b[0] {
      assert a == [a[0]] + a[1..] && b == [b[0]] + b[1..];
      var j := FirstDifference(a[1..], b[1..]);
      i := j + 1;
      assert a[..i] == [a[0]] + a[1..][..j] && b[..i] == [b[0]] + b[1..][..j];
    }
  }

  lemma SameInFront(a: Bytes, b: Bytes, i: nat)
    requires i <= |a| && i <= |b| && a[..i] == b[..i]
    ensures forall k :: 0 <= k < i ==> a[k] == b[k]
  {
    assert forall k :: 0 <= k < i ==> a[..i][k] == a[k] && b[..i][k] == b[k];
  }

  /** The bytes of one width, as digits in base 64 behind a marker in the lead byte. */
  lemma SameWidthOrder(c: char, d: char, i: nat)
    requires c < d && |Utf8Char(c)| == |Utf8Char(d)|
    requires i < |Utf8Char(c)| && Utf8Char(c)[..i] == Utf8Char(d)[..i] && Utf8Char(c)[i] != Utf8Char(d)[i]
    ensures Utf8Char(c)[i] < Utf8Char(d)[i]
  {
    var a, b := Utf8Char(c), Utf8Char(d);
    var m, n := c as int, d as int;
    SameInFront(a, b, i);
    assert (i > 0 ==> a[0] == b[0]) && (i > 1 ==> a[1] == b[1]) && (i > 2 ==> a[2] == b[2]);
    DigitsOrder(m, n);
    DigitsOrder(m / 64, n / 64);
    DigitsOrder(m / 64 / 64, n / 64 / 64);
  }

  /** Of two characters the smaller one has the smaller byte at the first difference of their encodings. */
  lemma CharOrder(c: char, d: char) returns (i: nat)
    requires c < d
    ensures LessAt(Utf8Char(c), Utf8Char(d), i)
  {
    LeadByte(c);
    LeadByte(d);
    WidthGrows(c, d);
    i := 0;
    if |Utf8Char(c)| == |Utf8Char(d)| {
      if Utf8Char(c) == Utf8Char(d) { CharInjective(c, d); }
      i := FirstDifference(Utf8Char(c), Utf8Char(d));
      SameWidthOrder(c, d, i);
    }
  }

  lemma CharInjective(c: char, d: char)
    requires Utf8Char(c) == Utf8Char(d)
    ensures c == d
  {
    DecodeFirstOfChar(c, []);
    DecodeFirstOfChar(d, []);
  }

  lemma {:induction false} LexIsByteLe(a: string, b: string)
    requires LexLe(a, b)
    ensures ByteLe(Utf8(a), Utf8(b))
  {
    if a == "" {
    } else if a[0] == b[0] {
      LexIsByteLe(a[1..], b[1..]);
      LeBehind(Utf8Char(a[0]), Utf8(a[1..]), Utf8(b[1..]));
    } else {
      var i := CharOrder(a[0], b[0]);
      LessAtBehind(Utf8Char(a[0]), Utf8Char(b[0]), i, Utf8(a[1..]), Utf8(b[1..]));
      LessAtIsLe(Utf8(a), Utf8(b), i);
    }
  }

  /** The order of the scalar values is the order of the bytes. */
  lemma LexIsByteOrder(a: string, b: string)
    ensures LexLe(a, b) <==> ByteLe(Utf8(a), Utf8(b))
  {
    LexTotal(a, b);
    if LexLe(a, b) {
      LexIsByteLe(a, b);
    } else {
      LexIsByteLe(b, a);
      if ByteLe(Utf8(a), Utf8(b)) {
        LeAntisymmetric(Utf8(a), Utf8(b));
        Utf8Injective(a, b);
        LexReflexive(a);
      }
    }
  }

  /** Sorting puts strings into ascending byte order, and neither loses nor invents one. */
  lemma SortAscends(s: seq<string>)
    ensures Ascending(Sort(s)) && multiset(Sort(s)) == multiset(s)
  {
    SortFacts(s, Self);
    var sorted := Sort(s);
    forall i, j | 0 <= i < j < |sorted| ensures ByteLe(Utf8(sorted[i]), Utf8(sorted[j])) {
      assert LexLe(Self(sorted[i]), Self(sorted[j]));
      LexIsByteOrder(sorted[i], sorted[j]);
    }
  }
}
