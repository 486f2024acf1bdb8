/**
 Signer and verifier against AWS Signature Version 4 as `Standard` states it: the verifier computes the
 verdict of the standard, and what the signer sends is authentic to a service that follows the standard.
 */
module Service {
  import opened Text
  import opened Crypto
  import opened Headers
  import opened Signer
  import opened Verifier
  import opened Agreement
  import Authorization
  import ByteOrder
  import ClientHeader
  import Query
  import QueryOrder
  import SigningKey
  import Sorting
  import Standard

  // ---------------------------------------------------------------- Header values

  predicate NoDoubleBlank(s: string) {
    forall i :: 0 <= i < |s| - 1 ==> !(s[i] == ' ' && s[i + 1] == ' ')
  }

  /** The header has one readable value, without sequential blanks inside. */
  predicate Single(h: Headers, name: string) {
    |Texts(h, name)| == 1 && NoDoubleBlank(Trim(Texts(h, name)[0]))
  }

  lemma {:induction false} FoldedFacts(s: string)
    ensures |Standard.Folded(s)| <= |s| && NoDoubleBlank(Standard.Folded(s))
    ensures s != "" ==> Standard.Folded(s) != "" && Standard.Folded(s)[0] == s[0]
    ensures NoDoubleBlank(s) ==> Standard.Folded(s) == s
  {
    if |s| >= 2 && s[0] == ' ' && s[1] == ' ' {
      FoldedFacts(s[1..]);
    } else if s != "" {
      FoldedFacts(s[1..]);
      assert s == [s[0]] + s[1..];
      assert forall i :: 0 <= i < |s[1..]| ==> s[1..][i] == s[i + 1];
    }
  }

  lemma NoDoubleAround(a: string, c: char, b: string)
    requires NoDoubleBlank(a) && NoDoubleBlank(b) && c != ' '
    ensures NoDoubleBlank(a + [c] + b)
  {
  }

  lemma {:induction false} JoinNoDouble(fields: seq<string>)
    requires forall i :: 0 <= i < |fields| ==> NoDoubleBlank(fields[i])
    ensures NoDoubleBlank(Join(fields, ','))
  {
    if |fields| > 1 {
      assert forall i :: 0 <= i < |fields[1..]| ==> fields[1..][i] == fields[i + 1];
      JoinNoDouble(fields[1..]);
      NoDoubleAround(fields[0], ',', Join(fields[1..], ','));
    }
  }

  lemma {:induction false} JoinIsLonger(fields: seq<string>)
    requires fields != []
    ensures |Join(fields, ',')| >= |fields[|fields| - 1]| + |fields| - 1
  {
    if |fields| > 1 { JoinIsLonger(fields[1..]); }
  }

  /** The proxy takes the last value of a name, trimmed: the value of the standard exactly for single values. */
  lemma ValueMeetsStandard(h: Headers, name: string)
    requires Texts(h, name) != []
    ensures Standard.Value(h, name) == Trim(Texts(h, name)[|Texts(h, name)| - 1]) <==> Single(h, name)
  {
    var texts := Texts(h, name);
    var folded := Sorting.Map(texts, Standard.FoldedTrim);
    var last := Trim(texts[|texts| - 1]);
    FoldedFacts(last);
    if |texts| > 1 {
      forall i | 0 <= i < |texts| ensures NoDoubleBlank(folded[i]) {
        FoldedFacts(Trim(texts[i]));
      }
      JoinNoDouble(folded);
      JoinIsLonger(folded);
    }
  }

  /** The lines of the proxy are the lines of the standard, for names with single values. */
  lemma {:induction false} LinesAgree(names: seq<string>, f: string -> string, g: string -> string)
    requires forall i :: 0 <= i < |names| ==> f(names[i]) == g(names[i])
    ensures Standard.HeaderLines(names, f) == Standard.HeaderLines(names, g)
  {
    if names != [] {
      assert forall i :: 0 <= i < |names[1..]| ==> names[1..][i] == names[i + 1];
      LinesAgree(names[1..], f, g);
    }
  }

  lemma ShownIsValue(h: Headers, keep: string -> bool, name: string)
    requires name in Collect(h, keep) && Single(h, name)
    ensures Shown(Collect(h, keep))(name) == Standard.Value(h, name)
  {
    CollectMeans(h, keep, name);
    ValueMeetsStandard(h, name);
    TrimIsTrimmed(Texts(h, name)[0]);
  }

  // ---------------------------------------------------------------- The query of a request

  lemma SortedByField(pairs: seq<Query.Pair>, fields: seq<Query.Pair>)
    requires QueryOrder.NamesApart(pairs) && Standard.InOrder(fields, pairs)
    ensures Sorting.SortedBy(Sorting.Map(fields, Standard.Field), Sorting.Self)
  {
    forall i, j | 0 <= i < j < |fields| ensures QueryOrder.FieldLe(fields[i], fields[j]) {
      var k := QueryOrder.Source(pairs, fields, i);
      var l := QueryOrder.Source(pairs, fields, j);
      QueryOrder.ParameterIsField(pairs[k]);
      QueryOrder.ParameterIsField(pairs[l]);
      QueryOrder.FieldsCompare(fields[i], fields[j]);
      QueryOrder.PairLeIs(fields[i], fields[j]);
    }
  }

  /** The standard's query is unique, and for names apart it is the proxy's. */
  lemma QueryIsUnique(pairs: seq<Query.Pair>, query: string)
    requires QueryOrder.NamesApart(pairs) && Standard.IsQuery(pairs, query)
    ensures query == Query.CanonicalQuery(pairs)
  {
    var fields :| Standard.InOrder(fields, pairs) && query == Join(Sorting.Map(fields, Standard.Field), '&');
    var encoded := Sorting.Map(pairs, Standard.EncodedPair);
    SortedByField(pairs, fields);
    Sorting.MapMultiset(fields, encoded, Standard.Field);
    QueryOrder.ParametersAreFields(pairs);
    Sorting.SortFacts(Sorting.Map(pairs, Query.Parameter), Sorting.Self);
    Sorting.SortedUnique(Sorting.Map(fields, Standard.Field), Sorting.Sort(Sorting.Map(pairs, Query.Parameter)),
                         Sorting.Self);
  }

  // ---------------------------------------------------------------- One name list, one order

  /** Two lists of the same names in ascending byte order, each name once, are equal. */
  lemma OneOrder(names: seq<string>, other: seq<string>)
    requires ByteOrder.Ascending(names) && ByteOrder.Ascending(other)
    requires forall i, j :: 0 <= i < j < |names| ==> names[i] != names[j]
    requires forall i, j :: 0 <= i < j < |other| ==> other[i] != other[j]
    requires forall n :: n in names <==> n in other
    ensures names == other
  {
    AscendingIsSorted(names);
    AscendingIsSorted(other);
    forall n ensures multiset(names)[n] == multiset(other)[n] {
      OnceOrNever(names, n);
      OnceOrNever(other, n);
    }
    Sorting.SortedUnique(names, other, Sorting.Self);
  }

  lemma AscendingIsSorted(names: seq<string>)
    requires ByteOrder.Ascending(names)
    ensures Sorting.SortedBy(names, Sorting.Self)
  {
    forall i, j | 0 <= i < j < |names| ensures Sorting.LexLe(Sorting.Self(names[i]), Sorting.Self(names[j])) {
      ByteOrder.LexIsByteOrder(names[i], names[j]);
    }
  }

  lemma {:induction false} OnceOrNever(names: seq<string>, n: string)
    requires forall i, j :: 0 <= i < j < |names| ==> names[i] != names[j]
    ensures multiset(names)[n] == if n in names then 1 else 0
  {
    if names != [] {
      assert names == [names[0]] + names[1..];
      assert forall i :: 0 <= i < |names[1..]| ==> names[1..][i] == names[i + 1];
      OnceOrNever(names[1..], n);
    }
  }

  // ---------------------------------------------------------------- What a signer signs

  /** Header fields and a query on which the proxy and the standard read the same. */
  ghost predicate Regular(h: Headers, pairs: seq<Query.Pair>, names: seq<string>) {
    QueryOrder.NamesApart(pairs) && forall i :: 0 <= i < |names| ==> Single(h, names[i])
  }

  /** On regular requests a signer over collected headers puts together the canonical request of the standard. */
  lemma RegularIsCanonical(c: Primitives, a: AwsSign, h: Headers, keep: string -> bool, names: seq<string>)
    requires a.headers == Collect(h, keep) && NamesInOrder(names, a.headers) && Regular(h, a.url.pairs, names)
    requires GetText(h, CONTENT) == Some(PayloadLine(c, a))
    ensures Standard.IsCanonical(RequestOf(a, h), names, StandardRequest(c, a, names))
  {
    QueryOrder.QueryMeetsStandard(a.url.pairs);
    forall i | 0 <= i < |names| ensures Shown(a.headers)(names[i]) == Standard.Values(h)(names[i]) {
      ShownIsValue(h, keep, names[i]);
    }
    LinesAgree(names, Shown(a.headers), Standard.Values(h));
  }

  function RequestOf(a: AwsSign, h: Headers): Standard.Request {
    Standard.Request(a.verb, a.url.path, a.url.pairs, h)
  }

  /** And there is no other one. */
  lemma CanonicalIsUnique(c: Primitives, a: AwsSign, h: Headers, keep: string -> bool, names: seq<string>,
                          canonical: string)
    requires a.headers == Collect(h, keep) && NamesInOrder(names, a.headers) && Regular(h, a.url.pairs, names)
    requires GetText(h, CONTENT) == Some(PayloadLine(c, a))
    requires Standard.IsCanonical(RequestOf(a, h), names, canonical)
    ensures canonical == StandardRequest(c, a, names)
  {
    var query :| Standard.IsQuery(a.url.pairs, query) &&
      canonical == Standard.CanonicalRequest(a.verb, a.url.path, query, names, Standard.Values(h), PayloadLine(c, a));
    QueryIsUnique(a.url.pairs, query);
    forall i | 0 <= i < |names| ensures Shown(a.headers)(names[i]) == Standard.Values(h)(names[i]) {
      ShownIsValue(h, keep, names[i]);
    }
    LinesAgree(names, Shown(a.headers), Standard.Values(h));
  }

  // ---------------------------------------------------------------- The verifier computes the standard's verdict

  /** The list in the header selects exactly the listed headers. */
  lemma ListedNames(h: Headers, names: seq<string>)
    requires Standard.IsNameList(names, h)
    ensures NamesInOrder(names, Collect(h, Listed(names)))
  {
    forall n ensures n in names <==> n in Collect(h, Listed(names)) {
      CollectMeans(h, Listed(names), n);
    }
  }

  /** The names that the verifier's own signer sorts are the client's list. */
  lemma OwnList(a: AwsSign, names: seq<string>)
    requires NamesInOrder(names, a.headers)
    ensures SortedNames(SomeItems(a.headers)) == names
  {
    SortedNamesInOrder(SomeItems(a.headers), a.headers);
    OneOrder(SortedNames(SomeItems(a.headers)), names);
  }

  /** A request whose header was made for this account, over these names, with this signature. */
  ghost predicate Claims(lib: Libraries, m: Message, who: Standard.Account, ts: Timestamp, names: seq<string>,
                         signature: string, auth: string)
  {
    && Standard.IsAuthorization(auth, who.accessKey, Standard.Scope(ts.date, who.region, "s3"), names, signature)
    && Standard.IsNameList(names, m.headers) && Authorization.AreNames(names) && '=' !in signature
    && GetText(m.headers, "x-amz-date") == Some(ts.date + "T" + ts.clock + "Z") && lib.readTime(Long(ts)) == Some(ts)
    && GetText(m.headers, "x-amz-content-sha256").Some?
  }

  /** The request under the URL that the verifier reconstructs. */
  function RequestAt(m: Message, url: Url): Standard.Request {
    Standard.Request(m.verb, url.path, url.pairs, m.headers)
  }

  lemma ClaimOfStandard(lib: Libraries, m: Message, who: Standard.Account, ts: Timestamp, names: seq<string>,
                        signature: string, auth: string, uri: string)
    requires Claims(lib, m, who, ts, names, signature, auth) && Carried(who.accessKey, who.region) && Arrives(uri, m)
    ensures ReadClaim(lib, m, auth)
         == Done(Some(Claim(who.accessKey, signature, who.region, "s3", ts, uri,
                            GetText(m.headers, "x-amz-content-sha256").value, names)))
  {
    assert Authorization.IsPlain(ts.date, "s3");
    ClientHeader.HeaderReads(auth, who.accessKey, ts.date, who.region, "s3", names, signature);
    ReadClaimIs(lib, m, auth, Claim(who.accessKey, signature, who.region, "s3", ts, uri,
                                    GetText(m.headers, "x-amz-content-sha256").value, names));
  }

  /** The payload line that the verifier signs is the content hash header. */
  lemma ClaimedPayload(c: Primitives, m: Message, claim: Claim, url: Url)
    ensures PayloadLine(c, ClaimedSigner(m, claim, url)) == claim.content
  {
    assert |UNSIGNED| == 16 && |STREAMING| == 34;
  }

  /** The signature the verifier computes, in the words of the standard. */
  lemma ComputedSignature(c: Primitives, a: AwsSign, key: Bytes, names: seq<string>)
    requires NamesInOrder(names, a.headers) && Authorization.AreNames(names)
    requires Carried(a.accessKey, a.region) && a.service == "s3"
    ensures Authorization.ParseSignature(Auth(c, a, key)) == Some(Standard.Signature(c, key, StandardText(c, a, names)))
  {
    OwnList(a, names);
    assert names[0] in a.headers;
    SignatureIsStandard(c, a, key, SomeItems(a.headers));
    OwnHeaderReadsBack(c, a, key);
    AuthIsBuilt(c, a, key);
  }

  /** The signature of the standard is the one over the proxy's text. */
  lemma SignatureIsUnique(c: Primitives, a: AwsSign, h: Headers, keep: string -> bool, names: seq<string>,
                          who: Standard.Account, signature: string)
    requires a.headers == Collect(h, keep) && a.service == "s3" && a.region == who.region
    requires NamesInOrder(names, a.headers) && Regular(h, a.url.pairs, names)
    requires GetText(h, CONTENT) == Some(PayloadLine(c, a))
    ensures Standard.IsSignature(c, RequestOf(a, h), who, a.ts, names, signature)
       <==> signature == Standard.Signature(c, Standard.SigningKey(c, who.secret, a.ts.date, who.region, "s3"),
                                            StandardText(c, a, names))
  {
    RegularIsCanonical(c, a, h, keep, names);
    forall canonical | Standard.IsCanonical(RequestOf(a, h), names, canonical)
      ensures canonical == StandardRequest(c, a, names)
    {
      CanonicalIsUnique(c, a, h, keep, names, canonical);
    }
  }

  /** The signer that the verifier builds for such a request. */
  function SignerFor(m: Message, who: Standard.Account, ts: Timestamp, names: seq<string>, url: Url): AwsSign
    requires GetText(m.headers, CONTENT).Some?
  {
    var (body, override) := PayloadOf(GetText(m.headers, CONTENT).value);
    AwsSign(m.verb, url, ts, who.region, who.accessKey, "s3", Collect(m.headers, Listed(names)), body, override)
  }

  lemma VerdictIsComparison(lib: Libraries, c: Primitives, m: Message, who: Standard.Account, ts: Timestamp,
                            names: seq<string>, signature: string, auth: string, uri: string,
                            keyFor: SigningKey.Inputs -> Bytes)
    requires Claims(lib, m, who, ts, names, signature, auth) && Carried(who.accessKey, who.region)
    requires Arrives(uri, m) && lib.urlOf(uri).Some?
    ensures Verdict(lib, c, m, auth, who.secret, keyFor)
         == Compared(c, SignerFor(m, who, ts, names, lib.urlOf(uri).value), signature, who.secret, keyFor)
    ensures PayloadLine(c, SignerFor(m, who, ts, names, lib.urlOf(uri).value)) == GetText(m.headers, CONTENT).value
  {
    ClaimOfStandard(lib, m, who, ts, names, signature, auth, uri);
    ClaimedPayload(c, m, Claim(who.accessKey, signature, who.region, "s3", ts, uri,
                               GetText(m.headers, CONTENT).value, names), lib.urlOf(uri).value);
  }

  /** The comparison that the verifier makes, for a signer over listed headers. */
  lemma ComparedIsStandard(c: Primitives, a: AwsSign, h: Headers, names: seq<string>, who: Standard.Account,
                           signature: string, keyFor: SigningKey.Inputs -> Bytes)
    requires a.headers == Collect(h, Listed(names)) && a.service == "s3" && a.region == who.region
    requires a.accessKey == who.accessKey && Carried(who.accessKey, who.region)
    requires Standard.IsNameList(names, h) && Authorization.AreNames(names) && Regular(h, a.url.pairs, names)
    requires GetText(h, CONTENT) == Some(PayloadLine(c, a))
    requires keyFor(KeyInputs(a, who.secret)) == SigningKey.Derive(c, KeyInputs(a, who.secret))
    ensures Compared(c, a, signature, who.secret, keyFor)
         == Done(Standard.IsSignature(c, RequestOf(a, h), who, a.ts, names, signature))
  {
    ListedNames(h, names);
    ComputedSignature(c, a, keyFor(KeyInputs(a, who.secret)), names);
    SigningKey.DeriveIsStandard(c, KeyInputs(a, who.secret));
    SignatureIsUnique(c, a, h, Listed(names), names, who, signature);
  }

  /**
   The verifier follows the standard: for every request under an Authorization header of the standard's
   form, the verdict is whether the signature in it is the account's signature of this request.  The key may
   come from any function that derives it for this account, the URL is that of the request as it arrives.
   */
  lemma VerdictIsStandard(lib: Libraries, c: Primitives, m: Message, who: Standard.Account, ts: Timestamp,
                          names: seq<string>, signature: string, auth: string, uri: string,
                          keyFor: SigningKey.Inputs -> Bytes)
    requires Claims(lib, m, who, ts, names, signature, auth) && Carried(who.accessKey, who.region)
    requires Arrives(uri, m) && lib.urlOf(uri).Some? && Regular(m.headers, lib.urlOf(uri).value.pairs, names)
    requires
      var x := SigningKey.Inputs(ts.date, who.region, "s3", who.secret);
      keyFor(x) == SigningKey.Derive(c, x)
    ensures Verdict(lib, c, m, auth, who.secret, keyFor)
         == Done(Standard.IsSignature(c, RequestAt(m, lib.urlOf(uri).value), who, ts, names, signature))
  {
    VerdictIsComparison(lib, c, m, who, ts, names, signature, auth, uri, keyFor);
    ComparedIsStandard(c, SignerFor(m, who, ts, names, lib.urlOf(uri).value), m.headers, names, who, signature, keyFor);
  }
}
