/**
 What the signer sends is authentic to a storage service that follows the standard, and announces a payload
 hash that admits the body.
 */
module Authentic {
  import opened Text
  import opened Crypto
  import opened Headers
  import opened Signer
  import opened Verifier
  import opened Agreement
  import opened Service
  import Authorization
  import Hex
  import QueryOrder
  import SigningKey
  import Standard

  // ---------------------------------------------------------------- The headers that are signed

  /** The headers that the proxy signs wherever they have a readable value. */
  predicate IsSigned(name: string) {
    || Standard.MustBeSigned(name) || name == "content-length" || name == "content-encoding"
    || name == "transfer-encoding" || name == "range" || name == "expect"
  }

  lemma SignedAreWhitelisted(name: string)
    ensures IsSigned(name) <==> Whitelisted(name)
  {
    assert |"x-amz-"| == 6;
  }

  /** The signed names are those of the readable whitelisted headers. */
  lemma SignedNamesAre(h: Headers, names: seq<string>)
    requires NamesInOrder(names, Collect(h, Whitelisted))
    ensures forall name :: name in names <==> IsSigned(name) && Texts(h, name) != []
    ensures Standard.IsNameList(names, h)
  {
    forall name ensures name in names <==> IsSigned(name) && Texts(h, name) != [] {
      CollectMeans(h, Whitelisted, name);
      SignedAreWhitelisted(name);
    }
  }

  /** Every header that is signed has one readable value, without sequential blanks. */
  ghost predicate SingleValues(h: Headers) {
    forall name :: IsSigned(name) && Texts(h, name) != [] ==> Single(h, name)
  }

  // ---------------------------------------------------------------- Any signer

  lemma AuthIsStandard(c: Primitives, a: AwsSign, key: Bytes)
    requires a.headers != map[] && a.service == "s3"
    ensures
      var names := SortedNames(SomeItems(a.headers));
      && NamesInOrder(names, a.headers)
      && Auth(c, a, key) == Standard.Authorization(a.accessKey, Standard.Scope(a.ts.date, a.region, "s3"), names,
                                                   Standard.Signature(c, key, StandardText(c, a, names)))
  {
    SortedNamesInOrder(SomeItems(a.headers), a.headers);
    SignatureIsStandard(c, a, key, SomeItems(a.headers));
  }

  /** A signer over these headers, whose payload line is the announced one, sends an authentic request. */
  lemma SignerIsAuthentic(c: Primitives, a: AwsSign, who: Standard.Account, key: Bytes, h: Headers)
    requires a.service == "s3" && a.region == who.region && a.accessKey == who.accessKey
    requires a.headers == Collect(h, Whitelisted) && key == SigningKey.Derive(c, KeyInputs(a, who.secret))
    requires GetText(h, AUTHORIZATION) == Some(Auth(c, a, key)) && GetText(h, CONTENT) == Some(PayloadLine(c, a))
    requires GetText(h, DATE) == Some(Long(a.ts)) && QueryOrder.NamesApart(a.url.pairs) && SingleValues(h)
    ensures Standard.Authentic(c, RequestOf(a, h), who, a.ts, SortedNames(SomeItems(a.headers)))
    ensures forall name :: name in SortedNames(SomeItems(a.headers)) <==> IsSigned(name) && Texts(h, name) != []
  {
    var names := SortedNames(SomeItems(a.headers));
    assert Whitelisted(DATE);
    CollectHas(h, DATE, Whitelisted);
    AuthIsStandard(c, a, key);
    SignedNamesAre(h, names);
    var signature := Standard.Signature(c, key, StandardText(c, a, names));
    OwnSignatureIsStandard(c, a, who, key, h, names);
    IsAuthentic(c, RequestOf(a, h), who, a.ts, names, signature);
  }

  lemma OwnSignatureIsStandard(c: Primitives, a: AwsSign, who: Standard.Account, key: Bytes, h: Headers,
                               names: seq<string>)
    requires a.service == "s3" && a.region == who.region && a.headers == Collect(h, Whitelisted)
    requires key == SigningKey.Derive(c, KeyInputs(a, who.secret)) && GetText(h, CONTENT) == Some(PayloadLine(c, a))
    requires NamesInOrder(names, a.headers) && QueryOrder.NamesApart(a.url.pairs) && SingleValues(h)
    ensures Standard.IsSignature(c, RequestOf(a, h), who, a.ts, names,
                                 Standard.Signature(c, key, StandardText(c, a, names)))
  {
    SignedNamesAre(h, names);
    SigningKey.DeriveIsStandard(c, KeyInputs(a, who.secret));
    SignatureIsUnique(c, a, h, Whitelisted, names, who, Standard.Signature(c, key, StandardText(c, a, names)));
  }

  lemma IsAuthentic(c: Primitives, r: Standard.Request, who: Standard.Account, ts: Timestamp, names: seq<string>,
                    signature: string)
    requires Standard.IsNameList(names, r.headers) && Standard.IsSignature(c, r, who, ts, names, signature)
    requires forall name :: name in names <==> IsSigned(name) && Texts(r.headers, name) != []
    requires GetText(r.headers, DATE) == Some(Long(ts))
    requires GetText(r.headers, AUTHORIZATION)
          == Some(Standard.Authorization(who.accessKey, Standard.Scope(ts.date, who.region, "s3"), names, signature))
    ensures Standard.Authentic(c, r, who, ts, names)
  {
  }

  // ---------------------------------------------------------------- `sign_request`

  /** Text without blanks has no sequential ones. */
  lemma BlankFree(s: string)
    requires ' ' !in s
    ensures NoDoubleBlank(Trim(s))
  {
    TrimWithin(s, ' ');
  }

  lemma LongIsBlankFree(now: Timestamp)
    ensures ' ' !in Long(now)
  {
    assert ' ' !in now.date && ' ' !in now.clock;
  }

  lemma DefaultsAreBlankFree()
    ensures ' ' !in UNSIGNED && ' ' !in EMPTY_SHA256
  {
    assert ' ' !in "e3b0c44298fc1c149afbf4c8996fb924" && ' ' !in "27ae41e4649b934ca495991b7852b855";
  }

  /** The payload hash is the client's only value, or a default without blanks. */
  lemma PayloadIsSingle(verb: string, h: Headers)
    requires SingleValues(h)
    ensures NoDoubleBlank(Trim(PayloadHash(verb, h)))
  {
    if GetText(h, CONTENT).Some? {
      GetTextIsText(h, CONTENT);
      ContentIsSigned();
    } else {
      DefaultsAreBlankFree();
      BlankFree(PayloadHash(verb, h));
    }
  }

  lemma ContentIsSigned()
    ensures IsSigned(CONTENT)
  {
    SignedAreWhitelisted(CONTENT);
    assert Whitelisted(CONTENT);
  }

  lemma DatedValues(h: Headers, now: Timestamp)
    requires SingleValues(h)
    ensures SingleValues(Dated(h, now))
  {
    forall name | IsSigned(name) && Texts(Dated(h, now), name) != [] ensures Single(Dated(h, now), name) {
      TextsAfterRemove(h, AUTHORIZATION, name);
      TextsAfterInsert(Remove(h, AUTHORIZATION), DATE, Long(now), name);
      LongIsBlankFree(now);
      BlankFree(Long(now));
    }
  }

  lemma PreparedValues(verb: string, h: Headers, now: Timestamp)
    requires SingleValues(h)
    ensures SingleValues(Prepared(verb, h, now))
  {
    var dated := Dated(h, now);
    DatedValues(h, now);
    PayloadIsSingle(verb, dated);
    forall name | IsSigned(name) && Texts(Prepared(verb, h, now), name) != []
      ensures Single(Prepared(verb, h, now), name)
    {
      TextsAfterInsert(dated, CONTENT, PayloadHash(verb, dated), name);
    }
  }

  /** The Authorization header adds nothing to the signed headers. */
  lemma SignedValues(prepared: Headers, auth: string)
    requires SingleValues(prepared)
    ensures SingleValues(Insert(prepared, AUTHORIZATION, Some(auth)))
    ensures Collect(Insert(prepared, AUTHORIZATION, Some(auth)), Whitelisted) == Collect(prepared, Whitelisted)
  {
    AuthorizationIsNotSigned();
    CollectIgnoresInsert(prepared, AUTHORIZATION, Some(auth), Whitelisted);
    SignedAreWhitelisted(AUTHORIZATION);
    forall name | IsSigned(name) && Texts(Insert(prepared, AUTHORIZATION, Some(auth)), name) != []
      ensures Single(Insert(prepared, AUTHORIZATION, Some(auth)), name)
    {
      TextsAfterInsert(prepared, AUTHORIZATION, auth, name);
    }
  }

  /** Any signer over prepared headers, with its own header added. */
  lemma PreparedIsAuthentic(c: Primitives, a: AwsSign, who: Standard.Account, key: Bytes, prepared: Headers)
    requires Signs(a, prepared) && a.region == who.region && a.accessKey == who.accessKey
    requires key == SigningKey.Derive(c, KeyInputs(a, who.secret))
    requires GetText(prepared, CONTENT) == Some(PayloadLine(c, a))
    requires QueryOrder.NamesApart(a.url.pairs) && SingleValues(prepared)
    ensures
      var h := Insert(prepared, AUTHORIZATION, Some(Auth(c, a, key)));
      SignedAndAuthentic(c, RequestOf(a, h), who, a.ts)
  {
    var h := Insert(prepared, AUTHORIZATION, Some(Auth(c, a, key)));
    SignedValues(prepared, Auth(c, a, key));
    GetAfterInsert(prepared, AUTHORIZATION, Some(Auth(c, a, key)), AUTHORIZATION);
    GetAfterInsert(prepared, AUTHORIZATION, Some(Auth(c, a, key)), DATE);
    GetAfterInsert(prepared, AUTHORIZATION, Some(Auth(c, a, key)), CONTENT);
    SignerIsAuthentic(c, a, who, key, h);
  }

  /** The request is authentic over exactly those of its headers that the proxy signs. */
  ghost predicate SignedAndAuthentic(c: Primitives, r: Standard.Request, who: Standard.Account, ts: Timestamp) {
    exists names :: Standard.Authentic(c, r, who, ts, names)
      && forall name :: name in names <==> IsSigned(name) && Texts(r.headers, name) != []
  }

  /**
   `sign_request` makes requests authentic: for every request of an account that a header can show, whose
   signed headers have single values and whose parameter names stand apart.
   */
  lemma SignedIsAuthentic(lib: Libraries, c: Primitives, sent: Message, account: Account, now: Timestamp,
                          keyFor: SigningKey.Inputs -> Bytes, headers: Headers)
    requires account.Complete() && Carried(account.accessKey.value, account.region.value)
    requires AllNames(sent.headers, Authorization.IsName)
    requires keyFor(AccountInputs(account, now)) == SigningKey.Derive(c, AccountInputs(account, now))
    requires Signed(lib, c, sent, account, now, keyFor) == Done(headers)
    requires QueryOrder.NamesApart(lib.urlOf(sent.uri).value.pairs) && SingleValues(sent.headers)
    ensures
      var url := lib.urlOf(sent.uri).value;
      SignedAndAuthentic(c, Standard.Request(sent.verb, url.path, url.pairs, headers), Principal(account), now)
  {
    var a := OwnSigner(sent, lib.urlOf(sent.uri).value, account, now);
    var key := keyFor(AccountInputs(account, now));
    var prepared := Prepared(sent.verb, sent.headers, now);
    OwnSignerSigns(sent, a.url, account, now);
    SignedNames(a, prepared, SomeItems(a.headers));
    OwnHeaderReadsBack(c, a, key);
    PreparedTexts(sent.verb, sent.headers, now);
    PreparedValues(sent.verb, sent.headers, now);
    PreparedIsAuthentic(c, a, Principal(account), key, prepared);
  }

  function Principal(account: Account): Standard.Account
    requires account.Complete()
  {
    Standard.Account(account.accessKey.value, account.secretKey.value, account.region.value)
  }

  /** The same with the process-wide key cache in whatever state colon-free callers have left it. */
  lemma SignedIsAuthenticThroughCache(lib: Libraries, c: Primitives, sent: Message, account: Account, now: Timestamp,
                                      ops: seq<SigningKey.Memo.MapOp<SigningKey.Inputs>>, headers: Headers)
    requires account.Complete() && Carried(account.accessKey.value, account.region.value)
      && ':' !in account.region.value
    requires SigningKey.Memo.StoresWithin(ops, SigningKey.ColonFreeFamily())
    requires AllNames(sent.headers, Authorization.IsName)
    requires Signed(lib, c, sent, account, now, KeysOf(c, CacheAfter(c, ops))) == Done(headers)
    requires QueryOrder.NamesApart(lib.urlOf(sent.uri).value.pairs) && SingleValues(sent.headers)
    ensures
      var url := lib.urlOf(sent.uri).value;
      SignedAndAuthentic(c, Standard.Request(sent.verb, url.path, url.pairs, headers), Principal(account), now)
  {
    SigningKey.ColonFreeAnswers(c, ops, AccountInputs(account, now));
    SignedIsAuthentic(lib, c, sent, account, now, KeysOf(c, CacheAfter(c, ops)), headers);
  }

  // ---------------------------------------------------------------- The announced payload hash

  lemma SignedContent(lib: Libraries, c: Primitives, sent: Message, account: Account, now: Timestamp,
                      keyFor: SigningKey.Inputs -> Bytes, headers: Headers)
    requires Signed(lib, c, sent, account, now, keyFor) == Done(headers)
    ensures GetText(headers, CONTENT) == Some(PayloadHash(sent.verb, Dated(sent.headers, now)))
    ensures GetText(Dated(sent.headers, now), CONTENT) == GetText(sent.headers, CONTENT)
  {
    var a := OwnSigner(sent, lib.urlOf(sent.uri).value, account, now);
    var auth := Auth(c, a, keyFor(KeyInputs(a, account.secretKey.value)));
    PreparedTexts(sent.verb, sent.headers, now);
    GetAfterInsert(Prepared(sent.verb, sent.headers, now), AUTHORIZATION, ToText(auth), CONTENT);
    GetAfterInsert(Remove(sent.headers, AUTHORIZATION), DATE, Some(Long(now)), CONTENT);
    GetAfterRemove(sent.headers, AUTHORIZATION, CONTENT);
  }

  /**
   What a service that checks the body finds announced: the client's own hash where there is one; otherwise
   nothing to check, except for GET, HEAD and DELETE, where it is the digest of the empty body that such a
   request has.  So every upload is admitted, and a read exactly when its body hashes like the empty one.
   */
  lemma BodyIsAdmitted(lib: Libraries, c: Primitives, sent: Message, account: Account, now: Timestamp,
                       keyFor: SigningKey.Inputs -> Bytes, headers: Headers, body: Bytes)
    requires Signed(lib, c, sent, account, now, keyFor) == Done(headers) && Digest(c, []) == EMPTY_SHA256
    ensures
      var supplied := GetText(sent.headers, "x-amz-content-sha256");
      var announced := GetText(headers, "x-amz-content-sha256");
      var bodiless := sent.verb == "GET" || sent.verb == "HEAD" || sent.verb == "DELETE";
      && announced.Some?
      && (supplied.Some? ==> announced == supplied)
      && (supplied.None? ==> announced.value == if bodiless then Digest(c, []) else "UNSIGNED-PAYLOAD")
      && (supplied.None? ==>
            (Standard.Admits(c, announced.value, body) <==> !bodiless || c.sha256(body) == c.sha256([])))
  {
    SignedContent(lib, c, sent, account, now, keyFor, headers);
    assert |UNSIGNED| == 16 && |Digest(c, [])| == 64;
    if Digest(c, body) == Digest(c, []) { Hex.EncodeInjective(c.sha256(body), c.sha256([])); }
  }
}
