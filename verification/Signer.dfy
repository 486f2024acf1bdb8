/**
 AWS Signature Version 4 request signing: the one-purpose functions, and the fused `sign` that sorts the
 headers and computes the scope only once.
 */
module Signer {
  import opened Text
  import opened Crypto
  import opened Sorting
  import ByteOrder
  import Query
  import SigningKey
  import Standard

  /** The path and the decoded query pairs of a parsed URL. */
  datatype Url = Url(path: string, pairs: seq<Query.Pair>)

  /** `AwsSign`. */
  datatype AwsSign = AwsSign(
    verb: string, url: Url, ts: Timestamp, region: string, accessKey: string, service: string,
    headers: map<string, string>, body: Bytes, payloadOverride: Option<string>)

  // ---------------------------------------------------------------- Iterating over a hash map

  type Item = (string, string)

  function Name(item: Item): string {
    item.0
  }

  /** `items` is one of the orders in which the map can be iterated. */
  ghost predicate IterationOf(items: seq<Item>, m: map<string, string>) {
    && (forall i, j :: 0 <= i < j < |items| ==> items[i].0 != items[j].0)
    && (forall k, v :: (k, v) in items <==> k in m && m[k] == v)
  }

  /** Some iteration order of a map. */
  ghost function SomeItems(m: map<string, string>): (items: seq<Item>)
    ensures IterationOf(items, m)
  {
    if m == map[] then []
    else
      var k :| k in m;
      var rest := SomeItems(m - {k});
      assert forall i :: 0 <= i < |rest| ==> rest[i] in rest && rest[i].0 in m - {k};
      [(k, m[k])] + rest
  }

  /** `into_iter` on a hash map: the entries in an unspecified order. */
  method Iterate(m: map<string, string>) returns (items: seq<Item>)
    ensures IterationOf(items, m)
  {
    items := [];
    var left := m.Keys;
    while left != {}
      invariant left <= m.Keys
      invariant forall i, j :: 0 <= i < j < |items| ==> items[i].0 != items[j].0
      invariant forall k, v :: (k, v) in items <==> k in m && m[k] == v && k !in left
      decreases left
    {
      var k :| k in left;
      assert forall i :: 0 <= i < |items| ==> items[i].0 != k by {
        forall i | 0 <= i < |items| ensures items[i].0 != k {
          assert (items[i].0, items[i].1) in items;
        }
      }
      items := items + [(k, m[k])];
      left := left - {k};
    }
  }

  lemma {:induction false} DistinctCount(items: seq<Item>, x: Item)
    requires forall i, j :: 0 <= i < j < |items| ==> items[i].0 != items[j].0
    ensures multiset(items)[x] == if x in items then 1 else 0
    decreases |items|
  {
    if items != [] {
      assert items == [items[0]] + items[1..];
      assert forall i :: 0 <= i < |items[1..]| ==> items[1..][i] == items[i + 1];
      DistinctCount(items[1..], x);
      assert items[0] !in items[1..];
    }
  }

  lemma SameMembers(a: seq<Item>, b: seq<Item>, m: map<string, string>, x: Item)
    requires IterationOf(a, m) && IterationOf(b, m)
    ensures x in a <==> x in b
    ensures x in a <==> x.0 in m && m[x.0] == x.1
  {
    assert (x.0, x.1) == x;
  }

  /** Any two iteration orders of a map are permutations of each other. */
  lemma IterationsPermute(a: seq<Item>, b: seq<Item>, m: map<string, string>)
    requires IterationOf(a, m) && IterationOf(b, m)
    ensures multiset(a) == multiset(b) && KeyDetermines(multiset(a), Name)
  {
    forall x: Item ensures multiset(a)[x] == multiset(b)[x] {
      DistinctCount(a, x);
      DistinctCount(b, x);
      SameMembers(a, b, m, x);
    }
    forall x: Item, y: Item | x in multiset(a) && y in multiset(a) && Name(x) == Name(y) ensures x == y {
      SameMembers(a, a, m, x);
      SameMembers(a, a, m, y);
    }
  }

  // ---------------------------------------------------------------- One-purpose functions

  function HeaderLine(item: Item): string {
    item.0 + ":" + Trim(item.1)
  }

  /** `canonical_header_string`: sorted by name only. */
  function CanonicalHeaders(items: seq<Item>): string {
    Join(Map(SortBy(items, Name), HeaderLine), '\n')
  }

  /** `signed_header_string`. */
  function SignedHeaders(items: seq<Item>): string {
    Join(Sort(Map(items, Name)), ';')
  }

  const UNSIGNED := "UNSIGNED-PAYLOAD"
  const STREAMING := "STREAMING-AWS4-HMAC-SHA256-PAYLOAD"

  function PayloadLine(c: Primitives, a: AwsSign): string {
    if a.payloadOverride.Some? then a.payloadOverride.value
    else if a.body == ByteLiteral(UNSIGNED) then UNSIGNED
    else if a.body == ByteLiteral(STREAMING) then STREAMING
    else Digest(c, a.body)
  }

  /** `canonical_request`, over one iteration for the header lines and one for the names. */
  function CanonicalRequest(c: Primitives, a: AwsSign, lines: seq<Item>, names: seq<Item>): string {
    Join([a.verb, a.url.path, Query.CanonicalQuery(a.url.pairs), CanonicalHeaders(lines), "",
          SignedHeaders(names), PayloadLine(c, a)], '\n')
  }

  /** `string_to_sign`. */
  function StringToSign(c: Primitives, ts: Timestamp, region: string, canonical: string, service: string): string {
    Join(["AWS4-HMAC-SHA256", Long(ts), ScopeString(ts.date, region, service), Digest(c, Utf8(canonical))], '\n')
  }

  function HeaderValue(accessKey: string, scope: string, signedHeaders: string, signature: string): string {
    "AWS4-HMAC-SHA256 Credential=" + accessKey + "/" + scope + ",SignedHeaders=" + signedHeaders
      + ",Signature=" + signature
  }

  /** The signature assembled from the one-purpose functions. */
  function Signature(c: Primitives, a: AwsSign, key: Bytes, lines: seq<Item>, names: seq<Item>): (s: string)
    ensures |s| == 64
  {
    Mac(c, key, StringToSign(c, a.ts, a.region, CanonicalRequest(c, a, lines, names), a.service))
  }

  /** The header assembled from the one-purpose functions, each iterating over the map on its own. */
  function Assembled(c: Primitives, a: AwsSign, key: Bytes, lines: seq<Item>, names: seq<Item>,
                     names': seq<Item>): string
  {
    HeaderValue(a.accessKey, ScopeString(a.ts.date, a.region, a.service), SignedHeaders(names'),
                Signature(c, a, key, lines, names))
  }

  /** The header, whatever the iteration order. */
  ghost function Auth(c: Primitives, a: AwsSign, key: Bytes): string {
    Assembled(c, a, key, SomeItems(a.headers), SomeItems(a.headers), SomeItems(a.headers))
  }

  function KeyInputs(a: AwsSign, secret: string): SigningKey.Inputs {
    SigningKey.Inputs(a.ts.date, a.region, a.service, secret)
  }

  // ---------------------------------------------------------------- The fused form

  /** The canonical strings do not depend on the iteration order. */
  lemma OrderDoesNotMatter(a: seq<Item>, b: seq<Item>, m: map<string, string>)
    requires IterationOf(a, m) && IterationOf(b, m)
    ensures CanonicalHeaders(a) == CanonicalHeaders(b) && SignedHeaders(a) == SignedHeaders(b)
    ensures Join(Map(SortBy(a, Name), Name), ';') == SignedHeaders(b)
  {
    IterationsPermute(a, b, m);
    SortForgetsOrder(a, b, Name);
    MapMultiset(a, b, Name);
    SortForgetsOrderOfStrings(Map(a, Name), Map(b, Name));
    KeysOfSortedPairs(a, b, Name);
  }

  lemma SignatureForgetsOrder(c: Primitives, a: AwsSign, key: Bytes, l: seq<Item>, n: seq<Item>, l': seq<Item>,
                              n': seq<Item>)
    requires IterationOf(l, a.headers) && IterationOf(n, a.headers) && IterationOf(l', a.headers)
      && IterationOf(n', a.headers)
    ensures Signature(c, a, key, l, n) == Signature(c, a, key, l', n')
    ensures SignedHeaders(n) == SignedHeaders(l')
  {
    OrderDoesNotMatter(l, l', a.headers);
    OrderDoesNotMatter(n, n', a.headers);
    OrderDoesNotMatter(n, l', a.headers);
  }

  // ---------------------------------------------------------------- The form of the standard

  /** The names of the signed headers, sorted. */
  function SortedNames(items: seq<Item>): seq<string> {
    Sort(Map(items, Name))
  }

  lemma NamesAreKeys(items: seq<Item>, m: map<string, string>, name: string)
    requires IterationOf(items, m)
    ensures name in SortedNames(items) <==> name in m
  {
    SortFacts(Map(items, Name), Self);
    assert name in SortedNames(items) <==> name in multiset(SortedNames(items));
    assert name in multiset(Map(items, Name)) <==> name in Map(items, Name);
    if name in m {
      assert (name, m[name]) in items;
      var i :| 0 <= i < |items| && items[i] == (name, m[name]);
      assert Map(items, Name)[i] == name;
    }
    if name in Map(items, Name) {
      var i :| 0 <= i < |items| && Map(items, Name)[i] == name;
      assert (items[i].0, items[i].1) in items;
    }
  }

  lemma {:induction false} SortedKeysIncrease(items: seq<Item>, m: map<string, string>)
    requires IterationOf(items, m)
    ensures forall i, j :: 0 <= i < j < |SortedNames(items)| ==> SortedNames(items)[i] != SortedNames(items)[j]
  {
    SortFacts(items, Name);
    var sorted := SortBy(items, Name);
    KeysOfSortedPairs(items, items, Name);
    assert |multiset(sorted)| == |sorted| && |multiset(items)| == |items|;
    forall i, j | 0 <= i < j < |sorted| ensures sorted[i].0 != sorted[j].0 {
      OnceEach(items, sorted, m, i, j);
    }
  }

  lemma OnceEach(items: seq<Item>, sorted: seq<Item>, m: map<string, string>, i: nat, j: nat)
    requires IterationOf(items, m) && multiset(sorted) == multiset(items) && i < j < |sorted|
    ensures sorted[i].0 != sorted[j].0
  {
    var x, y := sorted[i], sorted[j];
    assert x in multiset(items) && y in multiset(items);
    SameMembers(items, items, m, x);
    SameMembers(items, items, m, y);
    DistinctCount(items, x);
    TwiceThere(sorted, i, j);
  }

  lemma TwiceThere(s: seq<Item>, i: nat, j: nat)
    requires i < j < |s| && multiset(s)[s[i]] <= 1
    ensures s[i] != s[j]
  {
    assert s == s[..j] + s[j..];
    assert s[..j][i] == s[i] && s[j..][0] == s[j];
    assert s[i] in multiset(s[..j]) && s[j] in multiset(s[j..]);
  }

  lemma SortedItemsAreHeaders(a: AwsSign, items: seq<Item>, i: nat)
    requires IterationOf(items, a.headers) && i < |SortBy(items, Name)|
    ensures
      var x := SortBy(items, Name)[i];
      x in items && x.0 in a.headers && a.headers[x.0] == x.1
  {
    SortFacts(items, Name);
    var x := SortBy(items, Name)[i];
    assert x in multiset(items);
    assert (x.0, x.1) in items;
  }

  /** The names of a map's headers, each once, in ascending byte order. */
  ghost predicate NamesInOrder(names: seq<string>, m: map<string, string>) {
    && ByteOrder.Ascending(names) && (forall i, j :: 0 <= i < j < |names| ==> names[i] != names[j])
    && forall n :: n in names <==> n in m
  }

  lemma SortedNamesInOrder(items: seq<Item>, m: map<string, string>)
    requires IterationOf(items, m)
    ensures NamesInOrder(SortedNames(items), m)
  {
    ByteOrder.SortAscends(Map(items, Name));
    SortedKeysIncrease(items, m);
    forall n ensures n in SortedNames(items) <==> n in m {
      NamesAreKeys(items, m, n);
    }
  }

  /** The value of a signed header as its line shows it. */
  function Shown(m: map<string, string>): string -> string {
    n => if n in m then Trim(m[n]) else ""
  }

  lemma {:induction false} LinesOfItems(s: seq<Item>, value: string -> string)
    requires s != [] && forall i :: 0 <= i < |s| ==> value(s[i].0) == Trim(s[i].1)
    ensures Join(Map(s, HeaderLine), '\n') + "\n" == Standard.HeaderLines(Map(s, Name), value)
  {
    var lines, names := Map(s, HeaderLine), Map(s, Name);
    assert names[1..] == Map(s[1..], Name) && lines[1..] == Map(s[1..], HeaderLine);
    if |s| > 1 {
      LinesOfItems(s[1..], value);
      Regrouped(lines[0] + "\n", Join(lines[1..], '\n'), "\n");
    }
  }

  lemma JoinLast(x: string, y: string)
    ensures Join([x, y], '\n') == x + "\n" + y
  {
    assert [x, y][1..] == [y];
  }

  lemma JoinThree(x: string, y: string, z: string)
    ensures Join([x, y, z], '\n') == x + "\n" + y + "\n" + z
  {
    assert [x, y, z][1..] == [y, z];
    JoinLast(y, z);
    Regrouped(x + "\n", y + "\n", z);
    Regrouped(x + "\n", y, "\n");
  }

  lemma JoinFour(a: string, b: string, c: string, d: string)
    ensures Join([a, b, c, d], '\n') == a + "\n" + b + "\n" + c + "\n" + d
  {
    JoinAppend([a, b], [c, d], '\n');
    assert [a, b] + [c, d] == [a, b, c, d];
    JoinLast(a, b);
    JoinLast(c, d);
    Regrouped(a + "\n" + b + "\n", c + "\n", d);
    Regrouped(a + "\n" + b + "\n", c, "\n");
  }

  lemma JoinSeven(a: string, b: string, c: string, d: string, e: string, f: string)
    ensures Join([a, b, c, d, "", e, f], '\n') == a + "\n" + b + "\n" + c + "\n" + (d + "\n") + "\n" + e + "\n" + f
  {
    JoinFour(a, b, c, d);
    JoinThree("", e, f);
    JoinAppend([a, b, c, d], ["", e, f], '\n');
    assert [a, b, c, d] + ["", e, f] == [a, b, c, d, "", e, f];
    var front := a + "\n" + b + "\n" + c + "\n";
    assert Join([a, b, c, d], '\n') == front + d;
    assert Join(["", e, f], '\n') == "\n" + e + "\n" + f;
    Behind(front, d, e, f);
  }

  lemma Behind(front: string, d: string, e: string, f: string)
    ensures front + d + "\n" + ("\n" + e + "\n" + f) == front + (d + "\n") + "\n" + e + "\n" + f
  {
  }

  /** The canonical request, with its fields in place: what the standard prescribes for these headers and this query. */
  lemma CanonicalIsStandard(c: Primitives, a: AwsSign, items: seq<Item>)
    requires IterationOf(items, a.headers) && a.headers != map[]
    ensures CanonicalRequest(c, a, items, items)
         == Standard.CanonicalRequest(a.verb, a.url.path, Query.CanonicalQuery(a.url.pairs), SortedNames(items),
                                      Shown(a.headers), PayloadLine(c, a))
  {
    var sorted := SortBy(items, Name);
    SortFacts(items, Name);
    assert |multiset(sorted)| == |sorted| && |multiset(items)| == |items|;
    var k :| k in a.headers;
    assert (k, a.headers[k]) in items;
    forall i | 0 <= i < |sorted| ensures Shown(a.headers)(sorted[i].0) == Trim(sorted[i].1) {
      SortedItemsAreHeaders(a, items, i);
    }
    LinesOfItems(sorted, Shown(a.headers));
    KeysOfSortedPairs(items, items, Name);
    JoinSeven(a.verb, a.url.path, Query.CanonicalQuery(a.url.pairs), CanonicalHeaders(items), SignedHeaders(items),
              PayloadLine(c, a));
  }

  /** The canonical request and the text to sign, as the standard puts them together from these parts. */
  function StandardRequest(c: Primitives, a: AwsSign, names: seq<string>): string {
    Standard.CanonicalRequest(a.verb, a.url.path, Query.CanonicalQuery(a.url.pairs), names, Shown(a.headers),
                              PayloadLine(c, a))
  }

  function StandardText(c: Primitives, a: AwsSign, names: seq<string>): string {
    Standard.StringToSign(c, a.ts, a.region, a.service, StandardRequest(c, a, names))
  }

  lemma SignatureIsStandard(c: Primitives, a: AwsSign, key: Bytes, items: seq<Item>)
    requires IterationOf(items, a.headers) && a.headers != map[]
    ensures Signature(c, a, key, items, items) == Standard.Signature(c, key, StandardText(c, a, SortedNames(items)))
  {
    CanonicalIsStandard(c, a, items);
    JoinFour("AWS4-HMAC-SHA256", Long(a.ts), ScopeString(a.ts.date, a.region, a.service),
             Digest(c, Utf8(CanonicalRequest(c, a, items, items))));
  }

  /** The header has the form of the standard, over the names in byte order. */
  ghost predicate InStandardForm(c: Primitives, a: AwsSign, key: Bytes, auth: string) {
    exists names :: NamesInOrder(names, a.headers) &&
      auth == Standard.Authorization(a.accessKey, Standard.Scope(a.ts.date, a.region, a.service), names,
                                     Standard.Signature(c, key, StandardText(c, a, names)))
  }

  lemma AssembledIsStandard(c: Primitives, a: AwsSign, key: Bytes, items: seq<Item>)
    requires IterationOf(items, a.headers) && a.headers != map[]
    ensures InStandardForm(c, a, key, Assembled(c, a, key, items, items, items))
  {
    SortedNamesInOrder(items, a.headers);
    SignatureIsStandard(c, a, key, items);
  }

  /** `sign`: sorts once, computes the scope once, and derives both header strings from the same slice. */
  method Sign(a: AwsSign, secret: string, items: seq<Item>, cache: SigningKey.SigningKeyCache) returns (auth: string)
    requires IterationOf(items, a.headers)
    modifies cache
    ensures cache.entries
         == SigningKey.Memo.AfterCall(SigningKey.KeyTable(cache.crypto), old(cache.entries), KeyInputs(a, secret))
    ensures
      var key := SigningKey.Memo.Answer(SigningKey.KeyTable(cache.crypto), old(cache.entries), KeyInputs(a, secret));
      forall lines: seq<Item>, names: seq<Item>, names': seq<Item> ::
        IterationOf(lines, a.headers) && IterationOf(names, a.headers) && IterationOf(names', a.headers) ==>
          auth == Assembled(cache.crypto, a, key, lines, names, names')
    ensures
      var key := SigningKey.Memo.Answer(SigningKey.KeyTable(cache.crypto), old(cache.entries), KeyInputs(a, secret));
      a.headers != map[] ==> InStandardForm(cache.crypto, a, key, auth)
  {
    var scope := ScopeString(a.ts.date, a.region, a.service);
    var sorted := SortBy(items, Name);
    var canonicalHeaders := Join(Map(sorted, HeaderLine), '\n');
    var signedHeaders := Join(Map(sorted, Name), ';');
    var canonical := Join([a.verb, a.url.path, Query.CanonicalQuery(a.url.pairs), canonicalHeaders, "",
                           signedHeaders, PayloadLine(cache.crypto, a)], '\n');
    var text := Join(["AWS4-HMAC-SHA256", Long(a.ts), scope, Digest(cache.crypto, Utf8(canonical))], '\n');
    var key := cache.SigningKey(KeyInputs(a, secret));
    auth := HeaderValue(a.accessKey, scope, signedHeaders, Mac(cache.crypto, key, text));
    OrderDoesNotMatter(items, items, a.headers);
    assert auth == Assembled(cache.crypto, a, key, items, items, items);
    if a.headers != map[] { AssembledIsStandard(cache.crypto, a, key, items); }
    forall lines: seq<Item>, names: seq<Item>, names': seq<Item>
      | IterationOf(lines, a.headers) && IterationOf(names, a.headers) && IterationOf(names', a.headers)
      ensures auth == Assembled(cache.crypto, a, key, lines, names, names')
    {
      SignatureForgetsOrder(cache.crypto, a, key, items, items, lines, names);
      OrderDoesNotMatter(items, names', a.headers);
    }
  }
}
