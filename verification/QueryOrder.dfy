/**
 The canonical query string against AWS Signature Version 4, "Task 1: Create a Canonical Request": the
 encoding is the standard's, byte for byte; the order is, unless one encoded name continues another with a
 character smaller than `=`, because the proxy sorts whole `name=value` fields.
 */
module QueryOrder {
  import opened Text
  import opened Sorting
  import opened ByteOrder
  import opened Query
  import Standard

  // ---------------------------------------------------------------- The encoding

  lemma {:induction false} UriEncodeAppend(a: Bytes, b: Bytes, encodeSlash: bool)
    ensures Standard.UriEncode(a + b, encodeSlash)
         == Standard.UriEncode(a, encodeSlash) + Standard.UriEncode(b, encodeSlash)
  {
    if a == [] {
      assert a + b == b;
    } else {
      assert (a + b)[0] == a[0] && (a + b)[1..] == a[1..] + b;
      UriEncodeAppend(a[1..], b, encodeSlash);
    }
  }

  /** The bytes of a character beyond ASCII. */
  lemma HighBytes(c: char)
    requires c as int >= 0x80
    ensures forall i :: 0 <= i < |Utf8Char(c)| ==> Utf8Char(c)[i] >= 0x80
  {
  }

  lemma {:induction false} PercentIsStandard(bytes: Bytes, encodeSlash: bool)
    requires forall i :: 0 <= i < |bytes| ==> !Standard.IsUnreserved(bytes[i]) && bytes[i] as char != '/'
    ensures PercentAll(bytes) == Standard.UriEncode(bytes, encodeSlash)
  {
    if bytes != [] { PercentIsStandard(bytes[1..], encodeSlash); }
  }

  lemma EncodeByte(b: byte, encodeSlash: bool)
    ensures Standard.UriEncode([b], encodeSlash)
         == if Standard.IsUnreserved(b) || (b as char == '/' && !encodeSlash) then [b as char]
            else ['%', "0123456789ABCDEF"[b / 16], "0123456789ABCDEF"[b % 16]]
  {
  }

  lemma EncodeCharIsStandard(c: char, encodeSlash: bool)
    ensures EncodeChar(c, encodeSlash) == Standard.UriEncode(Utf8Char(c), encodeSlash)
  {
    if c as int < 0x80 {
      EncodeByte(c as int, encodeSlash);
      assert c == '/' ==> c as int == 0x2F;
      assert PercentAll([c as int]) == Percent(c as int);
    } else {
      HighBytes(c);
      PercentIsStandard(Utf8Char(c), encodeSlash);
    }
  }

  /** `uri_encode` is the encoding of the standard, applied to the UTF-8 bytes. */
  lemma {:induction false} EncodedIsStandard(s: string, encodeSlash: bool)
    ensures Encoded(s, encodeSlash) == Standard.UriEncode(Utf8(s), encodeSlash)
  {
    if s != "" {
      EncodedIsStandard(s[1..], encodeSlash);
      EncodeCharIsStandard(s[0], encodeSlash);
      UriEncodeAppend(Utf8Char(s[0]), Utf8(s[1..]), encodeSlash);
    }
  }

  // ---------------------------------------------------------------- The order

  /** `longer` continues `name` with a character smaller than `=`. */
  predicate Continues(name: string, longer: string) {
    |name| < |longer| && longer[..|name|] == name && longer[|name|] < '='
  }

  /** No encoded name continues another one in that way. */
  predicate NamesApart(pairs: seq<Pair>) {
    forall i, j :: 0 <= i < |pairs| && 0 <= j < |pairs| ==>
      !Continues(Encoded(pairs[i].0, true), Encoded(pairs[j].0, true))
  }

  /** How the proxy compares two fields and how the standard does. */
  predicate FieldLe(p: Pair, q: Pair) {
    LexLe(Standard.Field(p), Standard.Field(q))
  }

  lemma PairLeIs(p: Pair, q: Pair)
    ensures Standard.PairLe(p, q) <==> if p.0 == q.0 then LexLe(p.1, q.1) else LexLe(p.0, q.0)
  {
    LexIsByteOrder(p.0, q.0);
    LexIsByteOrder(p.1, q.1);
  }

  lemma FieldParts(p: Pair)
    ensures p.0 == "" ==> Standard.Field(p)[0] == '=' && Standard.Field(p)[1..] == p.1
    ensures p.0 != "" ==> Standard.Field(p)[0] == p.0[0] && Standard.Field(p)[1..] == Standard.Field((p.0[1..], p.1))
  {
    if p.0 != "" { assert p.0 == [p.0[0]] + p.0[1..]; }
  }

  lemma ContinuesBehind(a: string, b: string)
    requires a != "" && b != "" && a[0] == b[0]
    ensures Continues(a, b) <==> Continues(a[1..], b[1..])
  {
    if |a| < |b| {
      assert b[1..][..|a| - 1] == b[..|a|][1..];
      assert a == [a[0]] + a[1..] && b[..|a|] == [b[0]] + b[..|a|][1..];
    }
  }

  /** Where no name continues the other, comparing whole fields compares names, then values. */
  lemma {:induction false} FieldsCompare(p: Pair, q: Pair)
    requires '=' !in p.0 && '=' !in q.0 && !Continues(p.0, q.0) && !Continues(q.0, p.0)
    ensures FieldLe(p, q) <==> if p.0 == q.0 then LexLe(p.1, q.1) else LexLe(p.0, q.0)
    decreases |p.0|
  {
    FieldParts(p);
    FieldParts(q);
    if p.0 != "" && q.0 != "" && p.0[0] == q.0[0] {
      ContinuesBehind(p.0, q.0);
      ContinuesBehind(q.0, p.0);
      FieldsCompare((p.0[1..], p.1), (q.0[1..], q.1));
      assert p.0 == [p.0[0]] + p.0[1..] && q.0 == [q.0[0]] + q.0[1..];
    } else if p.0 == "" && q.0 != "" {
      assert q.0[..0] == p.0;
    } else if p.0 != "" && q.0 == "" {
      assert p.0[..0] == q.0;
    }
  }

  /** Where one does, the longer name comes first. */
  lemma {:induction false} ContinuedFirst(p: Pair, q: Pair)
    requires '=' !in p.0 && '=' !in q.0 && Continues(p.0, q.0)
    ensures !FieldLe(p, q) && LexLe(p.0, q.0) && p.0 != q.0 && !LexLe(q.0, p.0)
    decreases |p.0|
  {
    FieldParts(p);
    FieldParts(q);
    if p.0 != "" {
      assert q.0[0] == q.0[..|p.0|][0];
      ContinuesBehind(p.0, q.0);
      ContinuedFirst((p.0[1..], p.1), (q.0[1..], q.1));
    }
  }

  lemma ParameterIsField(p: Pair)
    ensures Parameter(p) == Standard.Field(Standard.EncodedPair(p))
    ensures '=' !in Standard.EncodedPair(p).0 && Standard.EncodedPair(p).0 == Encoded(p.0, true)
    ensures '&' !in Standard.Field(Standard.EncodedPair(p)) && '\n' !in Standard.Field(Standard.EncodedPair(p))
  {
    EncodedIsStandard(p.0, true);
    EncodedIsStandard(p.1, true);
    EncodedAlphabet(p.0);
    AlphabetExcludes(Encoded(p.0, true));
    ParameterShape(p);
  }

  lemma ParametersAreFields(pairs: seq<Pair>)
    ensures Map(pairs, Parameter) == Map(Map(pairs, Standard.EncodedPair), Standard.Field)
  {
    forall i | 0 <= i < |pairs| ensures Parameter(pairs[i]) == Standard.Field(Standard.EncodedPair(pairs[i])) {
      ParameterIsField(pairs[i]);
    }
  }

  /** The canonical query string consists of the encoded fields, each once per occurrence, in ascending byte order. */
  lemma FieldsAscend(pairs: seq<Pair>)
    requires pairs != []
    ensures
      var fields := Split(CanonicalQuery(pairs), '&');
      && Ascending(fields)
      && multiset(fields) == multiset(Map(Map(pairs, Standard.EncodedPair), Standard.Field))
  {
    SplitCanonical(pairs);
    SortAscends(Map(pairs, Parameter));
    ParametersAreFields(pairs);
  }

  /** A member of an arrangement of the encoded pairs comes from a pair. */
  lemma Source(pairs: seq<Pair>, fields: seq<Pair>, i: nat) returns (k: nat)
    requires multiset(fields) == multiset(Map(pairs, Standard.EncodedPair)) && i < |fields|
    ensures k < |pairs| && fields[i] == Standard.EncodedPair(pairs[k])
  {
    assert fields[i] in multiset(Map(pairs, Standard.EncodedPair));
    k :| 0 <= k < |pairs| && Map(pairs, Standard.EncodedPair)[k] == fields[i];
  }

  lemma Place(pairs: seq<Pair>, fields: seq<Pair>, k: nat) returns (i: nat)
    requires multiset(fields) == multiset(Map(pairs, Standard.EncodedPair)) && k < |pairs|
    ensures i < |fields| && fields[i] == Standard.EncodedPair(pairs[k])
  {
    assert Map(pairs, Standard.EncodedPair)[k] in multiset(fields);
    i :| 0 <= i < |fields| && fields[i] == Standard.EncodedPair(pairs[k]);
  }

  lemma ApartIsInOrder(pairs: seq<Pair>)
    requires NamesApart(pairs)
    ensures Standard.IsQuery(pairs, CanonicalQuery(pairs))
  {
    var encoded := Map(pairs, Standard.EncodedPair);
    var fields := SortBy(encoded, Standard.Field);
    SortFacts(encoded, Standard.Field);
    ParametersAreFields(pairs);
    KeysOfSortedPairs(encoded, encoded, Standard.Field);
    forall i, j | 0 <= i < j < |fields| ensures Standard.PairLe(fields[i], fields[j]) {
      var k := Source(pairs, fields, i);
      var l := Source(pairs, fields, j);
      ParameterIsField(pairs[k]);
      ParameterIsField(pairs[l]);
      FieldsCompare(fields[i], fields[j]);
      PairLeIs(fields[i], fields[j]);
    }
    assert Standard.InOrder(fields, pairs);
  }

  /** Joined fields come apart again. */
  lemma FieldsFromJoin(pairs: seq<Pair>, fields: seq<Pair>)
    requires multiset(fields) == multiset(Map(pairs, Standard.EncodedPair)) && pairs != []
    ensures Split(Join(Map(fields, Standard.Field), '&'), '&') == Map(fields, Standard.Field)
  {
    var i := Place(pairs, fields, 0);
    forall j | 0 <= j < |fields| ensures '&' !in Standard.Field(fields[j]) {
      var k := Source(pairs, fields, j);
      ParameterIsField(pairs[k]);
    }
    SplitJoin(Map(fields, Standard.Field), '&');
  }

  lemma InOrderIsApart(pairs: seq<Pair>, fields: seq<Pair>, i: nat, j: nat)
    requires Standard.InOrder(fields, pairs) && CanonicalQuery(pairs) == Join(Map(fields, Standard.Field), '&')
    requires i < |pairs| && j < |pairs|
    ensures !Continues(Encoded(pairs[i].0, true), Encoded(pairs[j].0, true))
  {
    FieldsFromJoin(pairs, fields);
    SplitCanonical(pairs);
    SortFacts(Map(pairs, Parameter), Self);
    var sorted := Sort(Map(pairs, Parameter));
    assert sorted == Map(fields, Standard.Field);
    var x := Place(pairs, fields, i);
    var y := Place(pairs, fields, j);
    ParameterIsField(pairs[i]);
    ParameterIsField(pairs[j]);
    assert x < y ==> LexLe(Self(sorted[x]), Self(sorted[y]));
    if Continues(Encoded(pairs[i].0, true), Encoded(pairs[j].0, true)) {
      ContinuedFirst(fields[x], fields[y]);
      PairLeIs(fields[y], fields[x]);
    }
  }

  /**
   The canonical query string is the one of the standard if and only if no encoded name continues another
   with a character smaller than `=`: a digit, `-`, `.` or an escape.
   */
  lemma QueryMeetsStandard(pairs: seq<Pair>)
    ensures Standard.IsQuery(pairs, CanonicalQuery(pairs)) <==> NamesApart(pairs)
  {
    if NamesApart(pairs) {
      ApartIsInOrder(pairs);
    }
    if Standard.IsQuery(pairs, CanonicalQuery(pairs)) {
      var fields :| Standard.InOrder(fields, pairs) && CanonicalQuery(pairs) == Join(Map(fields, Standard.Field), '&');
      forall i, j | 0 <= i < |pairs| && 0 <= j < |pairs|
        ensures !Continues(Encoded(pairs[i].0, true), Encoded(pairs[j].0, true))
      {
        InOrderIsApart(pairs, fields, i, j);
      }
    }
  }

  /** `a=1&a-b=2` is in the order of the standard; the proxy signs `a-b=2&a=1`. */
  lemma DashComesFirst()
    ensures !Standard.IsQuery([("a", "1"), ("a-b", "2")], CanonicalQuery([("a", "1"), ("a-b", "2")]))
  {
    var pairs := [("a", "1"), ("a-b", "2")];
    assert Encoded("a", true) == "a" + Encoded("", true);
    assert "a-b"[1..] == "-b" && "-b"[1..] == "b" && "b"[1..] == "";
    assert Encoded("a-b", true) == "a" + ("-" + ("b" + ""));
    assert Continues(Encoded(pairs[0].0, true), Encoded(pairs[1].0, true));
    QueryMeetsStandard(pairs);
  }
}
