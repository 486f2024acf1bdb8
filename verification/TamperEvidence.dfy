/**
 What an accepted signature says about the request that carries it.
 */
module TamperEvidence {
  import opened Text
  import opened Crypto
  import opened Headers
  import opened Signer
  import opened Verifier
  import opened Agreement
  import Authorization
  import Coverage
  import Hex
  import SigningKey

  predicate TextsAreVisible(h: Headers) {
    forall i :: 0 <= i < |h| && h[i].text.Some? ==> IsVisible(h[i].text.value)
  }

  /** What the HTTP and URL libraries guarantee of every request and every parsed URL. */
  ghost predicate WellFormed(lib: Libraries, m: Message) {
    && '\n' !in m.verb && AllNames(m.headers, Authorization.IsName) && TextsAreVisible(m.headers)
    && forall u: string :: lib.urlOf(u).Some? ==> '\n' !in lib.urlOf(u).value.path
  }

  lemma {:induction false} CollectedAreLineFree(h: Headers, keep: string -> bool)
    requires TextsAreVisible(h)
    ensures forall k :: k in Collect(h, keep) ==> '\n' !in Collect(h, keep)[k]
    decreases |h|
  {
    if h != [] {
      var last := h[|h| - 1];
      CollectedAreLineFree(h[..|h| - 1], keep);
      if last.text.Some? {
        assert IsVisible(last.text.value);
        TrimWithin(last.text.value, '\n');
      }
    }
  }

  lemma {:induction false} GetTextIsVisible(h: Headers, name: string)
    requires TextsAreVisible(h) && GetText(h, name).Some?
    ensures IsVisible(GetText(h, name).value)
  {
    if h[0].name != name { GetTextIsVisible(h[1..], name); }
  }

  lemma {:induction false} RemoveTexts(h: Headers, name: string)
    requires TextsAreVisible(h)
    ensures TextsAreVisible(Remove(h, name))
  {
    if h != [] { RemoveTexts(h[1..], name); }
  }

  lemma {:induction false} InsertTexts(h: Headers, name: string, text: Option<string>)
    requires TextsAreVisible(h) && (text.Some? ==> IsVisible(text.value))
    ensures TextsAreVisible(Insert(h, name, text))
  {
    if h != [] {
      if h[0].name == name { RemoveTexts(h[1..], name); } else { InsertTexts(h[1..], name, text); }
    }
  }

  /** A signer built from kept headers of a well-formed request has no line break in any part. */
  lemma CollectedSignerIsLineFree(a: AwsSign, h: Headers, keep: string -> bool)
    requires a.headers == Collect(h, keep) && AllNames(h, Authorization.IsName) && TextsAreVisible(h)
    requires '\n' !in a.verb && '\n' !in a.url.path && (a.payloadOverride.Some? ==> '\n' !in a.payloadOverride.value)
    ensures Coverage.LineFree(a)
  {
    CollectNames(h, keep, Authorization.IsName);
    CollectedAreLineFree(h, keep);
    forall k | k in a.headers ensures '\n' !in k && ':' !in k && '\n' !in Trim(a.headers[k]) {
      assert Authorization.IsName(k);
      TrimWithin(a.headers[k], '\n');
    }
  }

  lemma LongIsVisible(now: Timestamp)
    ensures IsVisible(Long(now))
  {
    VisibleAppend(now.date + "T" + now.clock, "Z");
  }

  lemma EmptyHashIsVisible()
    ensures IsVisible(EMPTY_SHA256)
  {
    VisibleAppend("e3b0c44298fc1c149afbf4c8996fb924", "27ae41e4649b934ca495991b7852b855");
  }

  lemma MarkersAreVisible()
    ensures IsVisible(UNSIGNED) && IsVisible(STREAMING)
  {
  }

  lemma VisibleIsLineFree(s: string)
    requires IsVisible(s)
    ensures '\n' !in s
  {
  }

  lemma SentIsLineFree(lib: Libraries, sent: Message, account: Account, now: Timestamp)
    requires WellFormed(lib, sent) && account.Complete() && lib.urlOf(sent.uri).Some?
    ensures Coverage.LineFree(OwnSigner(sent, lib.urlOf(sent.uri).value, account, now))
  {
    var dated := Dated(sent.headers, now);
    var payload := PayloadHash(sent.verb, dated);
    LongIsVisible(now);
    EmptyHashIsVisible();
    MarkersAreVisible();
    RemoveTexts(sent.headers, AUTHORIZATION);
    InsertTexts(Remove(sent.headers, AUTHORIZATION), DATE, Some(Long(now)));
    if GetText(dated, CONTENT).Some? { GetTextIsVisible(dated, CONTENT); }
    VisibleIsLineFree(payload);
    InsertTexts(dated, CONTENT, Some(payload));
    PreparedNames(sent.verb, sent.headers, now);
    CollectedSignerIsLineFree(OwnSigner(sent, lib.urlOf(sent.uri).value, account, now),
                              Prepared(sent.verb, sent.headers, now), Whitelisted);
  }

  lemma ContentOfClaim(lib: Libraries, m: Message, auth: string, claim: Claim)
    requires ReadClaim(lib, m, auth) == Done(Some(claim))
    ensures GetText(m.headers, CONTENT) == Some(claim.content)
  {
  }

  lemma OverrideIsLineFree(content: string)
    requires IsVisible(content)
    ensures PayloadOf(content).1.Some? ==> '\n' !in PayloadOf(content).1.value
  {
    VisibleIsLineFree(content);
    MarkersAreVisible();
    VisibleIsLineFree(STREAMING);
  }

  lemma ClaimedIsLineFree(lib: Libraries, received: Message, auth: string, claim: Claim)
    requires WellFormed(lib, received) && lib.urlOf(claim.uri).Some?
    requires ReadClaim(lib, received, auth) == Done(Some(claim))
    ensures Coverage.LineFree(ClaimedSigner(received, claim, lib.urlOf(claim.uri).value))
  {
    ContentOfClaim(lib, received, auth, claim);
    GetTextIsVisible(received.headers, CONTENT);
    OverrideIsLineFree(claim.content);
    CollectedSignerIsLineFree(ClaimedSigner(received, claim, lib.urlOf(claim.uri).value), received.headers,
                              Listed(claim.names));
  }

  // ---------------------------------------------------------------- From equal signatures to equal requests

  /** The keyed hash does not collide on these two inputs. */
  predicate MacTells(c: Primitives, k: Bytes, text: string, k': Bytes, text': string) {
    c.hmac(k, Utf8(text)) == c.hmac(k', Utf8(text')) ==> k == k' && Utf8(text) == Utf8(text')
  }

  /** The hash does not collide on these two inputs. */
  predicate DigestTells(c: Primitives, text: string, text': string) {
    c.sha256(Utf8(text)) == c.sha256(Utf8(text')) ==> Utf8(text) == Utf8(text')
  }

  lemma EqualMacs(c: Primitives, k: Bytes, text: string, k': Bytes, text': string)
    requires Mac(c, k, text) == Mac(c, k', text') && MacTells(c, k, text, k', text')
    ensures k == k' && text == text'
  {
    Hex.EncodeInjective(c.hmac(k, Utf8(text)), c.hmac(k', Utf8(text')));
    Utf8Injective(text, text');
  }

  lemma EqualDigests(c: Primitives, text: string, text': string)
    requires Digest(c, Utf8(text)) == Digest(c, Utf8(text')) && DigestTells(c, text, text')
    ensures text == text'
  {
    Hex.EncodeInjective(c.sha256(Utf8(text)), c.sha256(Utf8(text')));
    Utf8Injective(text, text');
  }

  lemma FourLines(a: string, b: string, d: string, e: string)
    ensures Join([a, b, d, e], '\n') == a + ['\n'] + (b + ['\n'] + (d + ['\n'] + e))
  {
    assert [d, e][1..] == [e] && Join([e], '\n') == e;
    assert Join([d, e], '\n') == d + ['\n'] + e;
    assert [b, d, e][1..] == [d, e];
    assert Join([b, d, e], '\n') == b + ['\n'] + (d + ['\n'] + e);
    assert [a, b, d, e][1..] == [b, d, e];
  }

  lemma HeadAndTail(head: string, b: string, d: string, e: string, b': string, d': string, e': string)
    requires |b| == |b'| && |e| == |e'|
    requires head + ['\n'] + (b + ['\n'] + (d + ['\n'] + e)) == head + ['\n'] + (b' + ['\n'] + (d' + ['\n'] + e'))
    ensures b == b' && d == d' && e == e'
  {
    CutTail(head + ['\n'], b + ['\n'] + (d + ['\n'] + e), head + ['\n'], b' + ['\n'] + (d' + ['\n'] + e'));
    CutTail(b + ['\n'], d + ['\n'] + e, b' + ['\n'], d' + ['\n'] + e');
    assert b == (b + ['\n'])[..|b|] && b' == (b' + ['\n'])[..|b'|];
    assert |d| == |d'|;
    CutTail(d + ['\n'], e, d' + ['\n'], e');
    assert d == (d + ['\n'])[..|d|] && d' == (d' + ['\n'])[..|d'|];
  }

  lemma CutTail(a: string, s: string, b: string, t: string)
    requires a + s == b + t && |a| == |b|
    ensures a == b && s == t
  {
    assert (a + s)[..|a|] == a && (b + t)[..|b|] == b;
    assert (a + s)[|a|..] == s && (b + t)[|b|..] == t;
  }

  /** A string to sign determines its time, its scope and the digest of the canonical request. */
  lemma StringToSignDetermines(c: Primitives, ts: Timestamp, region: string, canonical: string, service: string,
                               ts': Timestamp, region': string, canonical': string, service': string)
    requires StringToSign(c, ts, region, canonical, service) == StringToSign(c, ts', region', canonical', service')
    ensures ts == ts' && ScopeString(ts.date, region, service) == ScopeString(ts'.date, region', service')
    ensures Digest(c, Utf8(canonical)) == Digest(c, Utf8(canonical'))
  {
    FourLines("AWS4-HMAC-SHA256", Long(ts), ScopeString(ts.date, region, service), Digest(c, Utf8(canonical)));
    FourLines("AWS4-HMAC-SHA256", Long(ts'), ScopeString(ts'.date, region', service'), Digest(c, Utf8(canonical')));
    HeadAndTail("AWS4-HMAC-SHA256", Long(ts), ScopeString(ts.date, region, service), Digest(c, Utf8(canonical)),
                Long(ts'), ScopeString(ts'.date, region', service'), Digest(c, Utf8(canonical')));
    LongRoundTrip(ts);
    LongRoundTrip(ts');
  }

  function Canonical(c: Primitives, a: AwsSign, items: seq<Item>): string {
    CanonicalRequest(c, a, items, items)
  }

  function ToSign(c: Primitives, a: AwsSign, items: seq<Item>): string {
    StringToSign(c, a.ts, a.region, Canonical(c, a, items), a.service)
  }

  /** The parts of two requests that a signature ties together. */
  predicate SameSignedParts(c: Primitives, a: AwsSign, b: AwsSign) {
    && a.verb == b.verb && a.url.path == b.url.path && multiset(a.url.pairs) == multiset(b.url.pairs)
    && a.headers.Keys == b.headers.Keys && (forall k :: k in a.headers ==> Trim(a.headers[k]) == Trim(b.headers[k]))
    && PayloadLine(c, a) == PayloadLine(c, b) && a.ts == b.ts
  }

  /** Equal signatures of two signers tie their requests together. */
  lemma EqualSignatures(c: Primitives, a: AwsSign, k: Bytes, items: seq<Item>, b: AwsSign, k': Bytes, items': seq<Item>)
    requires Coverage.LineFree(a) && Coverage.LineFree(b) && IterationOf(items, a.headers)
      && IterationOf(items', b.headers)
    requires Signature(c, a, k, items, items) == Signature(c, b, k', items', items')
    requires MacTells(c, k, ToSign(c, a, items), k', ToSign(c, b, items'))
    requires DigestTells(c, Canonical(c, a, items), Canonical(c, b, items'))
    ensures k == k' && SameSignedParts(c, a, b)
  {
    EqualMacs(c, k, ToSign(c, a, items), k', ToSign(c, b, items'));
    StringToSignDetermines(c, a.ts, a.region, Canonical(c, a, items), a.service, b.ts, b.region,
                           Canonical(c, b, items'), b.service);
    EqualDigests(c, Canonical(c, a, items), Canonical(c, b, items'));
    Coverage.CanonicalRequestCovers(c, a, b, items, items');
  }

  // ---------------------------------------------------------------- The accepted request is the signed request

  /** The claim of any request under a signed header names the signer's account, headers and signature. */
  lemma ClaimOfOwnHeader(lib: Libraries, c: Primitives, a: AwsSign, key: Bytes, received: Message, claim: Claim)
    requires Carried(a.accessKey, a.region) && a.service == "s3"
      && Authorization.AreNames(SortedNames(SomeItems(a.headers)))
    requires ReadClaim(lib, received, Auth(c, a, key)) == Done(Some(claim))
    ensures
      var items := SomeItems(a.headers);
      && claim.accessKey == a.accessKey && claim.region == a.region && claim.service == "s3"
      && claim.names == SortedNames(items) && claim.signature == Signature(c, a, key, items, items)
  {
    OwnHeaderReadsBack(c, a, key);
    AuthIsBuilt(c, a, key);
  }

  /** The URL of the claim is that of the request as it arrived. */
  lemma ClaimArrives(lib: Libraries, received: Message, auth: string, claim: Claim)
    requires ReadClaim(lib, received, auth) == Done(Some(claim))
    ensures Arrives(claim.uri, received)
  {
    ArrivesIsFound(claim.uri, received);
  }

  /** The verifier finds the signature in the header it builds for itself. */
  lemma OwnSignatureIsFound(c: Primitives, b: AwsSign, key: Bytes, ok: seq<string>)
    requires Carried(b.accessKey, b.region) && b.service == "s3" && Authorization.AreNames(ok)
    requires forall k :: k in b.headers ==> k in ok
    ensures
      var items := SomeItems(b.headers);
      Authorization.ParseSignature(Auth(c, b, key)) == Some(Signature(c, b, key, items, items))
  {
    var items := SomeItems(b.headers);
    var names := SortedNames(items);
    var credential := Authorization.Credential(b.accessKey, b.ts.date, b.region, "s3");
    forall i | 0 <= i < |names| ensures '=' !in names[i] {
      NamesAreKeys(items, b.headers, names[i]);
      assert Authorization.IsName(names[i]);
    }
    JoinFree(names, ';', '=');
    SignatureIsHex(c, b, key, items);
    Authorization.MarksAreMarks();
    Authorization.DigitsOnly(b.ts.date);
    Authorization.CredentialLacks(b.accessKey, b.ts.date, b.region, "s3", Authorization.SIGNATURE);
    AuthIsBuilt(c, b, key);
    Authorization.BuiltGrouping(b.accessKey, b.ts.date, b.region, "s3", names, Signature(c, b, key, items, items));
    Authorization.SignatureField(credential, Join(names, ';'), Signature(c, b, key, items, items));
  }

  /**
   Whatever request arrives under the Authorization header of a signed one, under whatever secret it is
   checked: if it is accepted, and the hashes do not collide on the two texts at hand, then it has the
   signed method, path, query parameters, signed headers, payload hash and time.  The URL compared is that of
   the request as it arrived.
   */
  lemma AcceptedIsUnchanged(lib: Libraries, c: Primitives, sent: Message, account: Account, now: Timestamp, key: Bytes,
                            received: Message, claim: Claim, secret: string, keyFor: SigningKey.Inputs -> Bytes)
    requires WellFormed(lib, sent) && WellFormed(lib, received)
    requires account.Complete() && Carried(account.accessKey.value, account.region.value) && lib.urlOf(sent.uri).Some?
    requires
      var a := OwnSigner(sent, lib.urlOf(sent.uri).value, account, now);
      && ReadClaim(lib, received, Auth(c, a, key)) == Done(Some(claim)) && lib.urlOf(claim.uri).Some?
      && Verdict(lib, c, received, Auth(c, a, key), secret, keyFor) == Done(true)
    requires
      var a := OwnSigner(sent, lib.urlOf(sent.uri).value, account, now);
      var b := ClaimedSigner(received, claim, lib.urlOf(claim.uri).value);
      var items, items' := SomeItems(a.headers), SomeItems(b.headers);
      && MacTells(c, key, ToSign(c, a, items), keyFor(KeyInputs(b, secret)), ToSign(c, b, items'))
      && DigestTells(c, Canonical(c, a, items), Canonical(c, b, items'))
    ensures
      var a := OwnSigner(sent, lib.urlOf(sent.uri).value, account, now);
      var b := ClaimedSigner(received, claim, lib.urlOf(claim.uri).value);
      SameSignedParts(c, a, b) && key == keyFor(KeyInputs(b, secret)) && Arrives(claim.uri, received)
  {
    var a := OwnSigner(sent, lib.urlOf(sent.uri).value, account, now);
    var b := ClaimedSigner(received, claim, lib.urlOf(claim.uri).value);
    var items, items' := SomeItems(a.headers), SomeItems(b.headers);
    var key' := keyFor(KeyInputs(b, secret));
    OwnSignerSigns(sent, lib.urlOf(sent.uri).value, account, now);
    SignedNames(a, Prepared(sent.verb, sent.headers, now), items);
    ClaimOfOwnHeader(lib, c, a, key, received, claim);
    ClaimArrives(lib, received, Auth(c, a, key), claim);
    CollectKeepsKept(received.headers, Listed(claim.names));
    OwnSignatureIsFound(c, b, key', claim.names);
    SentIsLineFree(lib, sent, account, now);
    ClaimedIsLineFree(lib, received, Auth(c, a, key), claim);
    EqualSignatures(c, a, key, items, b, key', items');
  }
}
