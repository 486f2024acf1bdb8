/**
 Bytes, UTF-8 and the string operations of the Rust standard library that the proxy uses.

 A Rust `String` is modelled as a sequence of Unicode scalar values; its bytes are `Utf8` of it.
 */
module Text {

  datatype Option<+T> = None | Some(value: T)

  type byte = b: int | 0 <= b < 256
  type Bytes = seq<byte>

  // ---------------------------------------------------------------- UTF-8

  /** The UTF-8 encoding of one scalar value (RFC 3629, section 3). */
  function Utf8Char(c: char): (b: Bytes)
    ensures 1 <= |b| <= 4
    ensures c as int < 0x80 <==> b == [c as int]
  {
    var n := c as int;
    if n < 0x80 then [n]
    else
      // the scalar value in base 64
      var n1 := n / 64;
      var n2 := n1 / 64;
      if n < 0x800 then [0xC0 + n1, 0x80 + n % 64]
      else if n < 0x10000 then [0xE0 + n2, 0x80 + n1 % 64, 0x80 + n % 64]
      else [0xF0 + n2 / 64, 0x80 + n2 % 64, 0x80 + n1 % 64, 0x80 + n % 64]
  }

  function Utf8(s: string): Bytes {
    if s == [] then [] else Utf8Char(s[0]) + Utf8(s[1..])
  }

  /** A byte string literal: its ASCII characters, one byte each. */
  function ByteLiteral(s: string): Bytes {
    seq(|s|, i requires 0 <= i < |s| => s[i] as int % 256)
  }

  predicate IsContinuation(b: byte) {
    0x80 <= b < 0xC0
  }

  predicate IsScalar(n: int) {
    0 <= n < 0xD800 || 0xE000 <= n < 0x11_0000
  }

  /** The value of the low six bits of a continuation byte. */
  function Six(b: byte): int {
    b as int - 0x80
  }

  /** The first scalar value of a byte string and its width, or None where the bytes are ill-formed. */
  function DecodeFirst(b: Bytes): (r: Option<(char, nat)>)
    requires |b| > 0
    ensures r.Some? ==> 1 <= r.value.1 <= |b|
  {
    var lead := b[0] as int;
    if lead < 0x80 then Some((lead as char, 1))
    else if 0xC2 <= lead < 0xE0 && |b| >= 2 && IsContinuation(b[1]) then
      Some((((lead - 0xC0) * 64 + Six(b[1])) as char, 2))
    else if 0xE0 <= lead < 0xF0 && |b| >= 3 && IsContinuation(b[1]) && IsContinuation(b[2]) then
      var n := ((lead - 0xE0) * 64 + Six(b[1])) * 64 + Six(b[2]);
      if n >= 0x800 && IsScalar(n) then Some((n as char, 3)) else None
    else if 0xF0 <= lead < 0xF5 && |b| >= 4 && IsContinuation(b[1]) && IsContinuation(b[2]) && IsContinuation(b[3]) then
      var n := (((lead - 0xF0) * 64 + Six(b[1])) * 64 + Six(b[2])) * 64 + Six(b[3]);
      if n >= 0x10000 && IsScalar(n) then Some((n as char, 4)) else None
    else None
  }

  /** `std::str::from_utf8`: the text, or None for ill-formed bytes. */
  function FromUtf8(b: Bytes): Option<string> {
    if b == [] then Some([])
    else match DecodeFirst(b)
      case None => None
      case Some((c, width)) =>
        match FromUtf8(b[width..])
        case None => None
        case Some(rest) => Some([c] + rest)
  }

  lemma DecodeFirstOfChar(c: char, tail: Bytes)
    ensures DecodeFirst(Utf8Char(c) + tail) == Some((c, |Utf8Char(c)|))
  {
    var n := c as int;
    var e := Utf8Char(c);
    var b := e + tail;
    assert forall i :: 0 <= i < |e| ==> b[i] == e[i];
    assert IsScalar(n);
    if 0x80 <= n {
      assert n / 64 * 64 + n % 64 == n;
      assert n / 64 / 64 * 64 + n / 64 % 64 == n / 64;
      assert n / 64 / 64 / 64 * 64 + n / 64 / 64 % 64 == n / 64 / 64;
    }
  }

  /** Every string survives encoding and decoding, so `Utf8` is injective. */
  lemma {:induction false} Utf8RoundTrip(s: string)
    ensures FromUtf8(Utf8(s)) == Some(s)
  {
    if s != [] {
      DecodeFirstOfChar(s[0], Utf8(s[1..]));
      assert Utf8(s)[|Utf8Char(s[0])|..] == Utf8(s[1..]);
      Utf8RoundTrip(s[1..]);
      assert [s[0]] + s[1..] == s;
    }
  }

  lemma Base64(q: nat, r: nat)
    requires r < 64
    ensures (q * 64 + r) / 64 == q && (q * 64 + r) % 64 == r
  {
  }

  lemma TwoBytes(a: nat, b: nat)
    requires 2 <= a < 32 && b < 64
    ensures Utf8Char((a * 64 + b) as char) == [0xC0 + a, 0x80 + b]
  {
    Base64(a, b);
  }

  lemma ThreeBytes(a: nat, b: nat, c: nat)
    requires a < 16 && b < 64 && c < 64
    requires 0x800 <= (a * 64 + b) * 64 + c && IsScalar((a * 64 + b) * 64 + c)
    ensures Utf8Char(((a * 64 + b) * 64 + c) as char) == [0xE0 + a, 0x80 + b, 0x80 + c]
  {
    Base64(a * 64 + b, c);
    Base64(a, b);
  }

  lemma FourBytes(a: nat, b: nat, c: nat, d: nat)
    requires a < 8 && b < 64 && c < 64 && d < 64
    requires 0x10000 <= ((a * 64 + b) * 64 + c) * 64 + d < 0x11_0000
    ensures Utf8Char((((a * 64 + b) * 64 + c) * 64 + d) as char) == [0xF0 + a, 0x80 + b, 0x80 + c, 0x80 + d]
  {
    Base64((a * 64 + b) * 64 + c, d);
    Base64(a * 64 + b, c);
    Base64(a, b);
  }

  /** The bytes of a decoded character are the bytes that were read: overlong and stray forms are refused. */
  lemma FirstOfDecoded(b: Bytes)
    requires |b| > 0 && DecodeFirst(b).Some?
    ensures Utf8Char(DecodeFirst(b).value.0) == b[..DecodeFirst(b).value.1]
  {
    var width := DecodeFirst(b).value.1;
    if width == 2 {
      TwoBytes(b[0] - 0xC0, Six(b[1]));
    } else if width == 3 {
      ThreeBytes(b[0] - 0xE0, Six(b[1]), Six(b[2]));
    } else if width == 4 {
      FourBytes(b[0] - 0xF0, Six(b[1]), Six(b[2]), Six(b[3]));
    }
  }

  lemma Utf8Cons(c: char, s: string)
    ensures Utf8([c] + s) == Utf8Char(c) + Utf8(s)
  {
    assert ([c] + s)[1..] == s;
  }

  lemma CutAt(b: Bytes, i: nat)
    requires i <= |b|
    ensures b[..i] + b[i..] == b
  {
  }

  lemma {:induction false} DecodedIsEncoded(b: Bytes)
    requires FromUtf8(b).Some?
    ensures Utf8(FromUtf8(b).value) == b
  {
    if b != [] {
      FirstOfDecoded(b);
      var (c, width) := DecodeFirst(b).value;
      var rest := FromUtf8(b[width..]).value;
      DecodedIsEncoded(b[width..]);
      Utf8Cons(c, rest);
      CutAt(b, width);
    }
  }

  /** Bytes read as a text exactly when they are its encoding. */
  lemma Utf8Exactly(b: Bytes, s: string)
    ensures FromUtf8(b) == Some(s) <==> b == Utf8(s)
  {
    Utf8RoundTrip(s);
    if FromUtf8(b).Some? { DecodedIsEncoded(b); }
  }

  lemma Utf8Injective(a: string, b: string)
    requires Utf8(a) == Utf8(b)
    ensures a == b
  {
    Utf8RoundTrip(a);
    Utf8RoundTrip(b);
  }

  lemma {:induction false} Utf8Append(a: string, b: string)
    ensures Utf8(a + b) == Utf8(a) + Utf8(b)
  {
    if a == [] {
      assert a + b == b;
    } else {
      assert (a + b)[0] == a[0] && (a + b)[1..] == a[1..] + b;
      Utf8Append(a[1..], b);
    }
  }

  predicate IsAscii(s: string) {
    forall i :: 0 <= i < |s| ==> s[i] as int < 0x80
  }

  /** ASCII text is its own encoding, byte for byte. */
  lemma {:induction false} Utf8OfAscii(s: string)
    requires IsAscii(s)
    ensures |Utf8(s)| == |s|
    ensures forall i :: 0 <= i < |s| ==> Utf8(s)[i] == s[i] as int
  {
    if s != [] {
      Utf8OfAscii(s[1..]);
      assert Utf8(s) == [s[0] as int] + Utf8(s[1..]);
    }
  }

  /** A byte string literal is the encoding of its text. */
  lemma LiteralBytes(s: string)
    requires IsAscii(s)
    ensures Utf8(s) == ByteLiteral(s)
  {
    Utf8OfAscii(s);
  }

  lemma Regrouped<T>(a: seq<T>, b: seq<T>, c: seq<T>)
    ensures a + (b + c) == (a + b) + c
  {
  }

  // ---------------------------------------------------------------- Searching

  predicate StartsWith<T(==)>(s: seq<T>, prefix: seq<T>) {
    |prefix| <= |s| && s[..|prefix|] == prefix
  }

  predicate OccursAt<T(==)>(s: seq<T>, needle: seq<T>, i: int) {
    0 <= i <= |s| - |needle| && s[i..i + |needle|] == needle
  }

  /** `find`: the first occurrence of `needle` at or after `from`. */
  function FindFrom<T(==)>(s: seq<T>, needle: seq<T>, from: nat): (r: Option<nat>)
    ensures r.Some? ==> from <= r.value && OccursAt(s, needle, r.value)
    ensures r.Some? ==> forall j :: from <= j < r.value ==> !OccursAt(s, needle, j)
    ensures r.None? ==> forall j :: from <= j ==> !OccursAt(s, needle, j)
    decreases |s| - from
  {
    if from + |needle| > |s| then None
    else if OccursAt(s, needle, from) then Some(from)
    else FindFrom(s, needle, from + 1)
  }

  function Find<T(==)>(s: seq<T>, needle: seq<T>): (r: Option<nat>)
    ensures r.Some? ==> OccursAt(s, needle, r.value)
    ensures r.Some? ==> forall j :: 0 <= j < r.value ==> !OccursAt(s, needle, j)
    ensures r.None? ==> forall j :: !OccursAt(s, needle, j)
  {
    FindFrom(s, needle, 0)
  }

  /** The first occurrence is unique: any occurrence with none before it is what `Find` returns. */
  lemma FindIs<T>(s: seq<T>, needle: seq<T>, i: nat)
    requires OccursAt(s, needle, i)
    requires forall j :: 0 <= j < i ==> !OccursAt(s, needle, j)
    ensures Find(s, needle) == Some(i)
  {
  }

  // ---------------------------------------------------------------- Splitting and joining on one character

  function IndexOf(s: string, c: char): (i: nat)
    ensures i <= |s|
    ensures c !in s[..i]
    ensures i < |s| <==> c in s
    ensures i < |s| ==> s[i] == c
  {
    if s == [] || s[0] == c then 0
    else
      var rest := IndexOf(s[1..], c);
      assert s == [s[0]] + s[1..];
      assert s[..1 + rest] == [s[0]] + s[1..][..rest];
      1 + rest
  }

  /** `split(c)`: never empty; a string without the separator is one field. */
  function Split(s: string, c: char): (fields: seq<string>)
    ensures |fields| >= 1
    decreases |s|
  {
    var i := IndexOf(s, c);
    if i == |s| then [s] else [s[..i]] + Split(s[i + 1..], c)
  }

  /** `join(c)`. */
  function Join(fields: seq<string>, c: char): string {
    if fields == [] then ""
    else if |fields| == 1 then fields[0]
    else fields[0] + [c] + Join(fields[1..], c)
  }

  predicate FreeOf(fields: seq<string>, c: char) {
    forall i :: 0 <= i < |fields| ==> c !in fields[i]
  }

  lemma {:induction false} IndexOfConcat(a: string, c: char, b: string)
    requires c !in a
    ensures IndexOf(a + [c] + b, c) == |a|
  {
    var s := a + [c] + b;
    if a != [] {
      assert s[0] == a[0] && s[1..] == a[1..] + [c] + b;
      IndexOfConcat(a[1..], c, b);
    }
  }

  lemma IndexOfAbsent(a: string, c: char)
    requires c !in a
    ensures IndexOf(a, c) == |a|
  {
  }

  lemma FreeOfTail(fields: seq<string>, c: char)
    requires |fields| >= 1 && FreeOf(fields, c)
    ensures FreeOf(fields[1..], c)
  {
    forall i | 0 <= i < |fields[1..]| ensures c !in fields[1..][i] {
      assert fields[1..][i] == fields[i + 1];
    }
  }

  lemma SplitAbsent(s: string, c: char)
    requires c !in s
    ensures Split(s, c) == [s]
  {
    IndexOfAbsent(s, c);
  }

  lemma SplitConcat(a: string, c: char, b: string)
    requires c !in a
    ensures Split(a + [c] + b, c) == [a] + Split(b, c)
  {
    var s := a + [c] + b;
    IndexOfConcat(a, c, b);
    assert s[..|a|] == a && s[|a| + 1..] == b;
  }

  /** Splitting undoes joining, for any non-empty list of separator-free fields. */
  lemma {:induction false} SplitJoin(fields: seq<string>, c: char)
    requires |fields| >= 1 && FreeOf(fields, c)
    ensures Split(Join(fields, c), c) == fields
  {
    if |fields| == 1 {
      IndexOfAbsent(fields[0], c);
      assert fields == [fields[0]];
    } else {
      FreeOfTail(fields, c);
      SplitJoin(fields[1..], c);
      SplitConcat(fields[0], c, Join(fields[1..], c));
      assert fields == [fields[0]] + fields[1..];
    }
  }

  /** The fields of a split hold no separator. */
  lemma {:induction false} SplitFreeOf(s: string, c: char)
    ensures FreeOf(Split(s, c), c)
    decreases |s|
  {
    var i := IndexOf(s, c);
    if i < |s| {
      SplitFreeOf(s[i + 1..], c);
      var rest := Split(s[i + 1..], c);
      forall k | 0 <= k < |Split(s, c)| ensures c !in Split(s, c)[k] {
        if k > 0 { assert Split(s, c)[k] == rest[k - 1]; }
      }
    } else {
      assert s[..i] == s;
    }
  }

  /** Joining a longer list: the first part, the separator, the second part. */
  lemma {:induction false} JoinAppend(a: seq<string>, b: seq<string>, c: char)
    requires |a| >= 1 && |b| >= 1
    ensures Join(a + b, c) == Join(a, c) + [c] + Join(b, c)
  {
    if |a| == 1 {
      assert (a + b)[1..] == b;
    } else {
      assert (a + b)[1..] == a[1..] + b;
      JoinAppend(a[1..], b, c);
    }
  }

  lemma {:induction false} JoinFree(fields: seq<string>, c: char, d: char)
    requires FreeOf(fields, d) && c != d
    ensures d !in Join(fields, c)
  {
    if |fields| > 1 {
      FreeOfTail(fields, d);
      JoinFree(fields[1..], c, d);
    }
  }

  // ---------------------------------------------------------------- Trimming

  /** `char::is_whitespace`: the Unicode White_Space property. */
  predicate IsWhitespace(c: char) {
    var n := c as int;
    || 9 <= n <= 13 || n == 0x20 || n == 0x85 || n == 0xA0 || n == 0x1680
    || 0x2000 <= n <= 0x200A || n == 0x2028 || n == 0x2029 || n == 0x202F || n == 0x205F || n == 0x3000
  }

  function TrimStart(s: string): string {
    if s != [] && IsWhitespace(s[0]) then TrimStart(s[1..]) else s
  }

  function TrimEnd(s: string): string {
    if s != [] && IsWhitespace(s[|s| - 1]) then TrimEnd(s[..|s| - 1]) else s
  }

  /** `str::trim`. */
  function Trim(s: string): string {
    TrimEnd(TrimStart(s))
  }

  /** `s[i..j]` is all of `s` but the white space at both ends. */
  ghost predicate IsCore(s: string, i: nat, j: nat) {
    && i <= j <= |s| && (forall k :: 0 <= k < i || j <= k < |s| ==> IsWhitespace(s[k]))
    && (i < j ==> !IsWhitespace(s[i]) && !IsWhitespace(s[j - 1]))
  }

  lemma {:induction false} TrimStartMeans(s: string) returns (i: nat)
    ensures i <= |s| && TrimStart(s) == s[i..] && (i < |s| ==> !IsWhitespace(s[i]))
    ensures forall k :: 0 <= k < i ==> IsWhitespace(s[k])
  {
    i := 0;
    if s != [] && IsWhitespace(s[0]) {
      var rest := TrimStartMeans(s[1..]);
      i := rest + 1;
      assert s[1..][rest..] == s[i..];
      assert forall k :: 1 <= k < |s| ==> s[k] == s[1..][k - 1];
    }
  }

  lemma {:induction false} TrimEndMeans(s: string) returns (j: nat)
    ensures j <= |s| && TrimEnd(s) == s[..j] && (0 < j ==> !IsWhitespace(s[j - 1]))
    ensures forall k :: j <= k < |s| ==> IsWhitespace(s[k])
  {
    j := |s|;
    if s != [] && IsWhitespace(s[|s| - 1]) {
      j := TrimEndMeans(s[..|s| - 1]);
      assert s[..|s| - 1][..j] == s[..j];
      assert forall k :: 0 <= k < |s| - 1 ==> s[k] == s[..|s| - 1][k];
    } else {
      assert s[..j] == s;
    }
  }

  /** Trimming leaves what stands between the white space at both ends. */
  lemma TrimMeans(s: string) returns (i: nat, j: nat)
    ensures IsCore(s, i, j) && Trim(s) == s[i..j]
  {
    i := TrimStartMeans(s);
    var width := TrimEndMeans(s[i..]);
    j := i + width;
    assert s[i..][..width] == s[i..j];
    assert forall k :: 0 <= k < |s| - i ==> s[i..][k] == s[i + k];
    forall k | j <= k < |s| ensures IsWhitespace(s[k]) {
      assert s[i..][k - i] == s[k];
    }
  }

  lemma TrimIsTrimmed(s: string)
    ensures Trim(Trim(s)) == Trim(s)
  {
    var i, j := TrimMeans(s);
    var t := Trim(s);
    if t != [] {
      assert t[0] == s[i] && t[|t| - 1] == s[j - 1];
      assert TrimStart(t) == t;
    }
  }

  lemma {:induction false} TrimStartWithin(s: string, c: char)
    requires c !in s
    ensures c !in TrimStart(s)
  {
    if s != [] && IsWhitespace(s[0]) { TrimStartWithin(s[1..], c); }
  }

  lemma {:induction false} TrimEndWithin(s: string, c: char)
    requires c !in s
    ensures c !in TrimEnd(s)
  {
    if s != [] && IsWhitespace(s[|s| - 1]) { TrimEndWithin(s[..|s| - 1], c); }
  }

  lemma TrimWithin(s: string, c: char)
    requires c !in s
    ensures c !in Trim(s)
  {
    TrimStartWithin(s, c);
    TrimEndWithin(TrimStart(s), c);
  }

  // ---------------------------------------------------------------- Sets

  lemma SubsetSize<T>(a: set<T>, b: set<T>)
    requires a <= b
    ensures |a| <= |b| && (|a| == |b| <==> a == b)
  {
    assert b == a + (b - a);
  }
}
