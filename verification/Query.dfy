/**
 URI encoding and the canonical query string.

 The canonical string is shown to be a canonical form: it forgets the order of the parameters, it
 determines them, and parsing and canonicalising it again changes nothing.
 */
module Query {
  import opened Text
  import opened Sorting
  import Hex

  /** RFC 3986, section 2.3. */
  predicate IsUnreserved(c: char) {
    'a' <= c <= 'z' || 'A' <= c <= 'Z' || '0' <= c <= '9' || c == '_' || c == '-' || c == '~' || c == '.'
  }

  function UpperDigit(n: nat): (c: char)
    requires n < 16
    ensures Hex.IsHexDigit(c) && Hex.DigitValue(c) == n && c == "0123456789ABCDEF"[n]
  {
    if n < 10 then ('0' as int + n) as char else ('A' as int + n - 10) as char
  }

  /** `%XX`. */
  function Percent(b: byte): (s: string)
    ensures |s| == 3
  {
    ['%', UpperDigit(b as int / 16), UpperDigit(b as int % 16)]
  }

  function PercentAll(bytes: Bytes): string {
    if bytes == [] then "" else Percent(bytes[0]) + PercentAll(bytes[1..])
  }

  function EncodeChar(c: char, encodeSlash: bool): string {
    if IsUnreserved(c) then [c]
    else if c == '/' then (if encodeSlash then "%2F" else "/")
    else PercentAll(Utf8Char(c))
  }

  function Encoded(s: string, encodeSlash: bool): string {
    if s == "" then "" else EncodeChar(s[0], encodeSlash) + Encoded(s[1..], encodeSlash)
  }

  lemma {:induction false} PercentAllAppend(a: Bytes, b: Bytes)
    ensures PercentAll(a + b) == PercentAll(a) + PercentAll(b)
  {
    if a == [] {
      assert a + b == b;
    } else {
      assert (a + b)[0] == a[0] && (a + b)[1..] == a[1..] + b;
      PercentAllAppend(a[1..], b);
      Regrouped(Percent(a[0]), PercentAll(a[1..]), PercentAll(b));
    }
  }

  lemma {:induction false} EncodedAppend(a: string, b: string, encodeSlash: bool)
    ensures Encoded(a + b, encodeSlash) == Encoded(a, encodeSlash) + Encoded(b, encodeSlash)
  {
    if a == "" {
      assert a + b == b;
    } else {
      assert (a + b)[0] == a[0] && (a + b)[1..] == a[1..] + b;
      EncodedAppend(a[1..], b, encodeSlash);
      Regrouped(EncodeChar(a[0], encodeSlash), Encoded(a[1..], encodeSlash), Encoded(b, encodeSlash));
    }
  }

  /** Writes the percent form of each byte of one character. */
  method PushPercent(result: string, bytes: Bytes) returns (longer: string)
    ensures longer == result + PercentAll(bytes)
  {
    longer := result;
    for i := 0 to |bytes|
      invariant longer == result + PercentAll(bytes[..i])
    {
      PercentAllAppend(bytes[..i], [bytes[i]]);
      assert bytes[..i + 1] == bytes[..i] + [bytes[i]];
      assert PercentAll([bytes[i]]) == Percent(bytes[i]) + "";
      longer := longer + Percent(bytes[i]);
    }
    assert bytes[..|bytes|] == bytes;
  }

  lemma EncodedNext(s: string, i: nat, encodeSlash: bool)
    requires i < |s|
    ensures Encoded(s[..i + 1], encodeSlash) == Encoded(s[..i], encodeSlash) + EncodeChar(s[i], encodeSlash)
  {
    EncodedAppend(s[..i], [s[i]], encodeSlash);
    assert s[..i + 1] == s[..i] + [s[i]];
    EncodedOne(s[i], encodeSlash);
  }

  lemma EncodedOne(c: char, encodeSlash: bool)
    ensures Encoded([c], encodeSlash) == EncodeChar(c, encodeSlash)
  {
    assert Encoded([c], encodeSlash) == EncodeChar(c, encodeSlash) + "";
  }

  /** `uri_encode`: fills the result character by character. */
  method UriEncode(s: string, encodeSlash: bool) returns (result: string)
    ensures result == Encoded(s, encodeSlash)
  {
    result := "";
    for i := 0 to |s|
      invariant result == Encoded(s[..i], encodeSlash)
    {
      var c := s[i];
      EncodedNext(s, i, encodeSlash);
      if IsUnreserved(c) {
        result := result + [c];
      } else if c == '/' && encodeSlash {
        result := result + "%2F";
      } else if c == '/' {
        result := result + "/";
      } else {
        result := PushPercent(result, Utf8Char(c));
      }
    }
    assert s[..|s|] == s;
  }

  // ---------------------------------------------------------------- Decoding

  /** Percent-decoding (RFC 3986, section 2.1) of form data: `+` is a space, a stray `%` is itself. */
  function FormDecode(s: string): Bytes {
    if s == "" then []
    else if s[0] == '%' && |s| >= 3 && Hex.IsHexDigit(s[1]) && Hex.IsHexDigit(s[2]) then
      [Hex.DigitValue(s[1]) * 16 + Hex.DigitValue(s[2])] + FormDecode(s[3..])
    else if s[0] == '+' then [0x20] + FormDecode(s[1..])
    else Utf8Char(s[0]) + FormDecode(s[1..])
  }

  lemma DecodePercent(b: byte, tail: string)
    ensures FormDecode(Percent(b) + tail) == [b] + FormDecode(tail)
  {
    var s := Percent(b) + tail;
    assert s[3..] == tail;
  }

  lemma {:induction false} DecodePercentAll(bytes: Bytes, rest: string)
    ensures FormDecode(PercentAll(bytes) + rest) == bytes + FormDecode(rest)
  {
    if bytes == [] {
      assert PercentAll(bytes) + rest == rest;
    } else {
      Regrouped(Percent(bytes[0]), PercentAll(bytes[1..]), rest);
      DecodePercent(bytes[0], PercentAll(bytes[1..]) + rest);
      DecodePercentAll(bytes[1..], rest);
      Regrouped([bytes[0]], bytes[1..], FormDecode(rest));
      assert bytes == [bytes[0]] + bytes[1..];
    }
  }

  lemma DecodeChar(c: char, encodeSlash: bool, rest: string)
    ensures FormDecode(EncodeChar(c, encodeSlash) + rest) == Utf8Char(c) + FormDecode(rest)
  {
    var s := EncodeChar(c, encodeSlash) + rest;
    if IsUnreserved(c) || (c == '/' && !encodeSlash) {
      assert s == [c] + rest && s[1..] == rest;
    } else if c == '/' {
      assert s[3..] == rest;
    } else {
      DecodePercentAll(Utf8Char(c), rest);
    }
  }

  /** Percent-decoding undoes `uri_encode` on every string. */
  lemma {:induction false} EncodeRoundTrip(s: string, encodeSlash: bool)
    ensures FormDecode(Encoded(s, encodeSlash)) == Utf8(s)
  {
    if s != "" {
      DecodeChar(s[0], encodeSlash, Encoded(s[1..], encodeSlash));
      EncodeRoundTrip(s[1..], encodeSlash);
    }
  }

  /** The encoder's alphabet: unreserved characters, hex digits among them, and `%`. */
  predicate InAlphabet(s: string) {
    forall i :: 0 <= i < |s| ==> IsUnreserved(s[i]) || s[i] == '%'
  }

  lemma {:induction false} PercentAllAlphabet(bytes: Bytes)
    ensures InAlphabet(PercentAll(bytes))
  {
    if bytes != [] { PercentAllAlphabet(bytes[1..]); }
  }

  lemma {:induction false} EncodedAlphabet(s: string)
    ensures InAlphabet(Encoded(s, true))
  {
    if s != "" {
      PercentAllAlphabet(Utf8Char(s[0]));
      EncodedAlphabet(s[1..]);
    }
  }

  lemma AlphabetExcludes(s: string)
    requires InAlphabet(s)
    ensures '&' !in s && '=' !in s && '+' !in s && '/' !in s && '\n' !in s
  {
  }

  // ---------------------------------------------------------------- The canonical query string

  type Pair = (string, string)

  function Parameter(p: Pair): string {
    Encoded(p.0, true) + "=" + Encoded(p.1, true)
  }

  /** `canonical_query_string` of the decoded query pairs of a URL. */
  function CanonicalQuery(pairs: seq<Pair>): string {
    Join(Sort(Map(pairs, Parameter)), '&')
  }

  lemma ParameterShape(p: Pair)
    ensures '&' !in Parameter(p) && '\n' !in Parameter(p) && Parameter(p) != ""
    ensures IndexOf(Parameter(p), '=') == |Encoded(p.0, true)|
    ensures Parameter(p)[..|Encoded(p.0, true)|] == Encoded(p.0, true)
    ensures Parameter(p)[|Encoded(p.0, true)| + 1..] == Encoded(p.1, true)
  {
    EncodedAlphabet(p.0);
    EncodedAlphabet(p.1);
    AlphabetExcludes(Encoded(p.0, true));
    AlphabetExcludes(Encoded(p.1, true));
    IndexOfConcat(Encoded(p.0, true), '=', Encoded(p.1, true));
  }

  /** Reading one `name=value` field: `lossy` decodes bytes to text, replacing what is ill-formed. */
  function ReadParameter(lossy: Bytes -> string, field: string): Pair {
    var eq := IndexOf(field, '=');
    (lossy(FormDecode(field[..eq])), if eq < |field| then lossy(FormDecode(field[eq + 1..])) else lossy([]))
  }

  /** `query_pairs`: the application/x-www-form-urlencoded parser of the WHATWG URL standard, section 5.1. */
  function QueryPairs(lossy: Bytes -> string, query: string): seq<Pair> {
    ReadFields(lossy, Split(query, '&'))
  }

  function ReadFields(lossy: Bytes -> string, fields: seq<string>): seq<Pair>
    decreases |fields|
  {
    if fields == [] then []
    else if fields[0] == "" then ReadFields(lossy, fields[1..])
    else [ReadParameter(lossy, fields[0])] + ReadFields(lossy, fields[1..])
  }

  /** Lossy decoding is exact on well-formed bytes. */
  ghost predicate ExactOnText(lossy: Bytes -> string) {
    forall s: string :: lossy(Utf8(s)) == s
  }

  lemma ReadOwnParameter(lossy: Bytes -> string, p: Pair)
    requires ExactOnText(lossy)
    ensures ReadParameter(lossy, Parameter(p)) == p
  {
    ParameterShape(p);
    EncodeRoundTrip(p.0, true);
    EncodeRoundTrip(p.1, true);
    assert IndexOf(Parameter(p), '=') < |Parameter(p)|;
  }

  /** The canonical string does not depend on the order of the parameters. */
  lemma CanonicalForgetsOrder(a: seq<Pair>, b: seq<Pair>)
    requires multiset(a) == multiset(b)
    ensures CanonicalQuery(a) == CanonicalQuery(b)
  {
    MapMultiset(a, b, Parameter);
    SortForgetsOrderOfStrings(Map(a, Parameter), Map(b, Parameter));
  }

  /** The sorted parameter strings are strings of parameters. */
  lemma SortedAreParameters(pairs: seq<Pair>)
    ensures |Sort(Map(pairs, Parameter))| == |pairs|
    ensures FreeOf(Sort(Map(pairs, Parameter)), '&')
    ensures forall i :: 0 <= i < |pairs| ==> Sort(Map(pairs, Parameter))[i] != ""
  {
    var strings := Map(pairs, Parameter);
    var sorted := Sort(strings);
    SortFacts(strings, Self);
    assert |sorted| == |multiset(sorted)| == |strings|;
    forall i | 0 <= i < |sorted| ensures '&' !in sorted[i] && sorted[i] != "" {
      assert sorted[i] in multiset(strings);
      var j :| 0 <= j < |strings| && strings[j] == sorted[i];
      ParameterShape(pairs[j]);
    }
  }

  /** From the canonical string one gets the sorted parameter strings back. */
  lemma SplitCanonical(pairs: seq<Pair>)
    ensures pairs != [] ==> Split(CanonicalQuery(pairs), '&') == Sort(Map(pairs, Parameter))
    ensures pairs == [] <==> CanonicalQuery(pairs) == ""
  {
    SortedAreParameters(pairs);
    var sorted := Sort(Map(pairs, Parameter));
    if pairs != [] {
      SplitJoin(sorted, '&');
      assert |Join(sorted, '&')| >= |sorted[0]| > 0;
    }
  }

  function ReadBack(field: string): Pair {
    ReadParameter(Exactly, field)
  }

  function Exactly(b: Bytes): string {
    var text := FromUtf8(b);
    if text.Some? then text.value else ""
  }

  lemma ExactlyIsExact()
    ensures ExactOnText(Exactly)
  {
    forall s: string ensures Exactly(Utf8(s)) == s {
      Utf8RoundTrip(s);
    }
  }

  lemma ReadBackAll(pairs: seq<Pair>)
    ensures Map(Map(pairs, Parameter), ReadBack) == pairs
  {
    ExactlyIsExact();
    var strings := Map(pairs, Parameter);
    forall i | 0 <= i < |pairs| ensures ReadBack(strings[i]) == pairs[i] {
      ReadOwnParameter(Exactly, pairs[i]);
    }
  }

  /** Equal canonical strings come from the same parameters, with the same multiplicities. */
  lemma CanonicalDetermines(a: seq<Pair>, b: seq<Pair>)
    ensures CanonicalQuery(a) == CanonicalQuery(b) <==> multiset(a) == multiset(b)
  {
    if multiset(a) == multiset(b) {
      CanonicalForgetsOrder(a, b);
    } else if CanonicalQuery(a) == CanonicalQuery(b) {
      SplitCanonical(a);
      SplitCanonical(b);
      SortFacts(Map(a, Parameter), Self);
      SortFacts(Map(b, Parameter), Self);
      MapMultiset(Map(a, Parameter), Map(b, Parameter), ReadBack);
      ReadBackAll(a);
      ReadBackAll(b);
    }
  }

  lemma {:induction false} ReadFieldsOfParameters(lossy: Bytes -> string, fields: seq<string>)
    requires forall i :: 0 <= i < |fields| ==> fields[i] != ""
    ensures ReadFields(lossy, fields) == Map(fields, f => ReadParameter(lossy, f))
    decreases |fields|
  {
    if fields != [] {
      assert forall i :: 0 <= i < |fields[1..]| ==> fields[1..][i] == fields[i + 1];
      ReadFieldsOfParameters(lossy, fields[1..]);
    }
  }

  /** Parsing the canonical string gives the same parameters, and canonicalising again changes nothing. */
  lemma CanonicalIsStable(lossy: Bytes -> string, pairs: seq<Pair>)
    requires ExactOnText(lossy)
    ensures multiset(QueryPairs(lossy, CanonicalQuery(pairs))) == multiset(pairs)
    ensures CanonicalQuery(QueryPairs(lossy, CanonicalQuery(pairs))) == CanonicalQuery(pairs)
  {
    SplitCanonical(pairs);
    var parsed := QueryPairs(lossy, CanonicalQuery(pairs));
    if pairs == [] {
      assert Split("", '&') == [""];
      assert parsed == [];
    } else {
      SortedAreParameters(pairs);
      ParsedMultiset(lossy, pairs);
    }
    CanonicalForgetsOrder(parsed, pairs);
  }

  lemma ParsedMultiset(lossy: Bytes -> string, pairs: seq<Pair>)
    requires ExactOnText(lossy)
    ensures multiset(ReadFields(lossy, Sort(Map(pairs, Parameter)))) == multiset(pairs)
  {
    var strings := Map(pairs, Parameter);
    var read := f => ReadParameter(lossy, f);
    SortedAreParameters(pairs);
    ReadFieldsOfParameters(lossy, Sort(strings));
    SortFacts(strings, Self);
    MapMultiset(Sort(strings), strings, read);
    forall i | 0 <= i < |pairs| ensures read(strings[i]) == pairs[i] {
      ReadOwnParameter(lossy, pairs[i]);
    }
    assert Map(strings, read) == pairs;
  }
}
