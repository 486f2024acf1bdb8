/**
 The signer and the verifier agree: what `sign_request` signs, `signature_is_valid_for_request` accepts;
 and what it accepts under such a signature is the request that was signed, short of a hash collision.
 */
module Agreement {
  import opened Text
  import opened Crypto
  import opened Headers
  import opened Signer
  import opened Verifier
  import Authorization
  import Hex
  import SigningKey

  // ---------------------------------------------------------------- The signed names

  /** A header with readable text is collected. */
  lemma {:induction false} CollectHas(h: Headers, name: string, keep: string -> bool)
    requires GetText(h, name).Some? && keep(name)
    ensures name in Collect(h, keep)
  {
    assert h == [h[0]] + h[1..];
    CollectAppend([h[0]], h[1..], keep);
    if h[0].name == name {
      assert [h[0]][..0] == [];
      assert name in Collect([h[0]], keep);
    } else {
      CollectHas(h[1..], name, keep);
    }
  }

  lemma AuthorizationIsNotSigned()
    ensures !Whitelisted(AUTHORIZATION)
  {
    assert |AUTHORIZATION| == 13;
    assert AUTHORIZATION[..|"x-amz-"|][0] == 'a' && "x-amz-"[0] == 'x';
  }

  /** The names that the verifier lists select the headers that were signed. */
  lemma ListedCollectsTheSame(prepared: Headers, text: Option<string>, names: seq<string>)
    requires forall n :: n in names <==> n in Collect(prepared, Whitelisted)
    ensures Collect(Insert(prepared, AUTHORIZATION, text), Listed(names)) == Collect(prepared, Whitelisted)
  {
    CollectKeepsKept(prepared, Whitelisted);
    AuthorizationIsNotSigned();
    CollectIgnoresInsert(prepared, AUTHORIZATION, text, Listed(names));
    CollectWithin(prepared, Whitelisted, Listed(names));
  }

  lemma PreparedTexts(verb: string, h: Headers, now: Timestamp)
    ensures GetText(Prepared(verb, h, now), DATE) == Some(Long(now))
    ensures GetText(Prepared(verb, h, now), CONTENT) == Some(PayloadHash(verb, Dated(h, now)))
  {
    var dated := Dated(h, now);
    var payload := PayloadHash(verb, dated);
    GetAfterInsert(Remove(h, AUTHORIZATION), DATE, Some(Long(now)), DATE);
    GetAfterInsert(dated, CONTENT, Some(payload), DATE);
    GetAfterInsert(dated, CONTENT, Some(payload), CONTENT);
  }

  predicate IsDashed(s: string) {
    s != "" && forall i :: 0 <= i < |s| ==> 'a' <= s[i] <= 'z' || '0' <= s[i] <= '9' || s[i] == '-'
  }

  lemma DashedIsName(s: string)
    requires IsDashed(s)
    ensures Authorization.IsName(s)
  {
  }

  lemma OwnNamesAreNames()
    ensures Authorization.IsName(AUTHORIZATION) && Authorization.IsName(DATE) && Authorization.IsName(CONTENT)
  {
    assert IsDashed(AUTHORIZATION);
    assert IsDashed(DATE);
    assert IsDashed(CONTENT);
    DashedIsName(AUTHORIZATION);
    DashedIsName(DATE);
    DashedIsName(CONTENT);
  }

  lemma PreparedNames(verb: string, h: Headers, now: Timestamp)
    requires AllNames(h, Authorization.IsName)
    ensures AllNames(Prepared(verb, h, now), Authorization.IsName)
  {
    OwnNamesAreNames();
    RemoveNames(h, AUTHORIZATION, Authorization.IsName);
    InsertNames(Remove(h, AUTHORIZATION), DATE, Some(Long(now)), Authorization.IsName);
    InsertNames(Dated(h, now), CONTENT, Some(PayloadHash(verb, Dated(h, now))), Authorization.IsName);
  }

  /** The signer `a` signs the whitelisted ones of these headers, whose date is its own. */
  predicate Signs(a: AwsSign, prepared: Headers) {
    && a.headers == Collect(prepared, Whitelisted) && AllNames(prepared, Authorization.IsName)
    && GetText(prepared, DATE) == Some(Long(a.ts)) && a.service == "s3"
  }

  /** The names of the signed headers: at least the date, and all of them well-formed. */
  lemma SignedNames(a: AwsSign, prepared: Headers, items: seq<Item>)
    requires Signs(a, prepared) && IterationOf(items, a.headers)
    ensures Authorization.AreNames(SortedNames(items))
    ensures forall n :: n in SortedNames(items) <==> n in a.headers
  {
    assert Whitelisted(DATE);
    CollectHas(prepared, DATE, Whitelisted);
    NamesAreKeys(items, a.headers, DATE);
    CollectNames(prepared, Whitelisted, Authorization.IsName);
    forall n ensures n in SortedNames(items) <==> n in a.headers {
      NamesAreKeys(items, a.headers, n);
    }
  }

  lemma OwnSignerSigns(m: Message, url: Url, account: Account, now: Timestamp)
    requires account.Complete() && AllNames(m.headers, Authorization.IsName)
    ensures Signs(OwnSigner(m, url, account, now), Prepared(m.verb, m.headers, now))
  {
    PreparedNames(m.verb, m.headers, now);
    PreparedTexts(m.verb, m.headers, now);
  }

  // ---------------------------------------------------------------- The two signers

  /** The signer with its payload line as the verifier builds it from the content hash header. */
  function WithContent(a: AwsSign, content: string): AwsSign {
    var (body, override) := PayloadOf(content);
    a.(body := body, payloadOverride := override)
  }

  /** Signers that differ only in how they carry the same payload line sign alike. */
  lemma SameSignature(c: Primitives, a: AwsSign, content: string, key: Bytes, items: seq<Item>)
    requires PayloadLine(c, a) == PayloadLine(c, WithContent(a, content))
    ensures Signature(c, WithContent(a, content), key, items, items) == Signature(c, a, key, items, items)
  {
  }

  /** An access key and region that survive in the header, and are text a header can carry. */
  ghost predicate Carried(accessKey: string, region: string) {
    && accessKey != "" && Authorization.Component(accessKey) && Authorization.Component(region)
    && IsVisible(accessKey) && IsVisible(region)
  }

  /** Ordinary accounts are carried: visible text without slashes and equals signs. */
  lemma OrdinaryAccountsAreCarried(accessKey: string, region: string)
    requires accessKey != "" && IsVisible(accessKey) && IsVisible(region)
    requires '/' !in accessKey && '=' !in accessKey && '/' !in region && '=' !in region
    ensures Carried(accessKey, region)
  {
    Authorization.MarksAreMarks();
    Authorization.NoEqualsLacks(accessKey, Authorization.SIGNATURE);
    Authorization.NoEqualsLacks(accessKey, Authorization.SIGNED);
    Authorization.NoEqualsLacks(region, Authorization.SIGNATURE);
    Authorization.NoEqualsLacks(region, Authorization.SIGNED);
  }

  lemma VisibleAppend(a: string, b: string)
    requires IsVisible(a) && IsVisible(b)
    ensures IsVisible(a + b)
  {
  }

  lemma {:induction false} VisibleJoin(fields: seq<string>)
    requires forall i :: 0 <= i < |fields| ==> IsVisible(fields[i])
    ensures IsVisible(Join(fields, ';'))
  {
    if |fields| > 1 {
      assert forall i :: 0 <= i < |fields[1..]| ==> fields[1..][i] == fields[i + 1];
      VisibleJoin(fields[1..]);
    }
  }

  lemma VisibleHeader(accessKey: string, date: string, region: string, names: seq<string>, signature: string)
    requires IsVisible(accessKey) && IsVisible(region) && IsDecimal(date) && Authorization.AreNames(names)
      && Hex.IsLowerHex(signature)
    ensures IsVisible(Authorization.Built(accessKey, date, region, "s3", names, signature))
  {
    VisibleJoin(names);
    VisibleLiterals();
    VisibleScope(date, region);
    VisibleFour("AWS4-HMAC-SHA256 Credential=", accessKey, "/", ScopeString(date, region, "s3"));
    VisibleFour(",SignedHeaders=", Join(names, ';'), ",Signature=", signature);
    VisibleAppend("AWS4-HMAC-SHA256 Credential=" + accessKey + "/" + ScopeString(date, region, "s3"),
                  ",SignedHeaders=" + Join(names, ';') + ",Signature=" + signature);
    Eightfold("AWS4-HMAC-SHA256 Credential=", accessKey, "/", ScopeString(date, region, "s3"),
              ",SignedHeaders=", Join(names, ';'), ",Signature=", signature);
  }

  lemma VisibleLiterals()
    ensures IsVisible("AWS4-HMAC-SHA256 Credential=") && IsVisible("/")
    ensures IsVisible(",SignedHeaders=") && IsVisible(",Signature=")
    ensures IsVisible("s3") && IsVisible("/aws4_request")
  {
  }

  lemma VisibleScope(date: string, region: string)
    requires IsDecimal(date) && IsVisible(region)
    ensures IsVisible(ScopeString(date, region, "s3"))
  {
    VisibleLiterals();
    VisibleFour(date, "/", region, "/");
    VisibleAppend("s3", "/aws4_request");
    VisibleAppend(date + "/" + region + "/", "s3" + "/aws4_request");
    assert ScopeString(date, region, "s3") == date + "/" + region + "/" + ("s3" + "/aws4_request");
  }

  lemma VisibleFour(a: string, b: string, d: string, e: string)
    requires IsVisible(a) && IsVisible(b) && IsVisible(d) && IsVisible(e)
    ensures IsVisible(a + b + d + e)
  {
    VisibleAppend(a, b);
    VisibleAppend(a + b, d);
    VisibleAppend(a + b + d, e);
  }

  lemma Eightfold(a: string, b: string, c: string, d: string, e: string, f: string, g: string, h: string)
    ensures a + b + c + d + e + f + g + h == (a + b + c + d) + (e + f + g + h)
  {
  }

  // ---------------------------------------------------------------- What one signs, the other accepts

  lemma AuthIsBuilt(c: Primitives, a: AwsSign, key: Bytes)
    ensures
      var items := SomeItems(a.headers);
      Auth(c, a, key) == Authorization.Built(a.accessKey, a.ts.date, a.region, a.service, SortedNames(items),
                                             Signature(c, a, key, items, items))
  {
  }

  lemma LowerHexHasNoEquals(s: string)
    requires Hex.IsLowerHex(s)
    ensures '=' !in s
  {
  }

  lemma SignatureIsHex(c: Primitives, a: AwsSign, key: Bytes, items: seq<Item>)
    ensures Hex.IsLowerHex(Signature(c, a, key, items, items)) && '=' !in Signature(c, a, key, items, items)
  {
    LowerHexHasNoEquals(Signature(c, a, key, items, items));
  }

  /** Every field of a header made by a signer over a prepared request reads back. */
  lemma OwnHeaderReadsBack(c: Primitives, a: AwsSign, key: Bytes)
    requires Carried(a.accessKey, a.region) && a.service == "s3"
    requires Authorization.AreNames(SortedNames(SomeItems(a.headers)))
    ensures
      var items := SomeItems(a.headers);
      && Authorization.ReadsBack(a.accessKey, a.ts.date, a.region, "s3", SortedNames(items),
                                 Signature(c, a, key, items, items))
      && IsVisible(Auth(c, a, key)) && IsHeaderValue(Auth(c, a, key))
  {
    var items := SomeItems(a.headers);
    var signature := Signature(c, a, key, items, items);
    SignatureIsHex(c, a, key, items);
    AuthIsBuilt(c, a, key);
    assert Authorization.IsPlain(a.ts.date, "s3");
    Authorization.HeaderRoundTrip(a.accessKey, a.ts.date, a.region, "s3", SortedNames(items), signature);
    VisibleHeader(a.accessKey, a.ts.date, a.region, SortedNames(items), signature);
  }

  /** The request with this URL arrives as `m`: with the URL as its target, or with its path and a host header. */
  predicate Arrives(uri: string, m: Message) {
    if m.uri != "" && m.uri[0] == '/' then
      GetText(m.headers, "host").Some? && uri == "https://" + GetText(m.headers, "host").value + m.uri
    else uri == m.uri
  }

  /** The verifier finds the URL of the request that arrives. */
  lemma ArrivesIsFound(uri: string, m: Message)
    ensures Arrives(uri, m) <==> FullUri(m) == Some(uri)
  {
    if m.uri != "" { assert m.uri[..1] == [m.uri[0]]; }
  }

  /** The request as the other end receives it. */
  predicate Delivered(prepared: Headers, auth: string, verb: string, uri: string, received: Message) {
    && received.verb == verb && Arrives(uri, received)
    && received.headers == Insert(prepared, AUTHORIZATION, Some(auth))
  }

  lemma ReadClaimIs(lib: Libraries, m: Message, auth: string, claim: Claim)
    requires Authorization.ParseToken(auth) == Some(claim.accessKey) && claim.accessKey != ""
    requires Authorization.ParseSignature(auth) == Some(claim.signature)
      && Authorization.ParseSignedHeaders(auth) == Some(claim.names)
    requires
      var scope := Authorization.ParseCredentialScope(auth);
      scope.Some? && scope.value.region == claim.region && scope.value.service == claim.service
    requires GetText(m.headers, DATE) == Some(Long(claim.ts)) && lib.readTime(Long(claim.ts)) == Some(claim.ts)
    requires GetText(m.headers, CONTENT) == Some(claim.content) && Arrives(claim.uri, m)
    ensures ReadClaim(lib, m, auth) == Done(Some(claim))
  {
    ArrivesIsFound(claim.uri, m);
  }

  /** The verifier reads from a signed request what the signer put there. */
  lemma ClaimIsRead(lib: Libraries, c: Primitives, a: AwsSign, key: Bytes, prepared: Headers, content: string,
                    uri: string, received: Message)
    requires Signs(a, prepared) && Carried(a.accessKey, a.region)
    requires GetText(prepared, CONTENT) == Some(content) && lib.readTime(Long(a.ts)) == Some(a.ts)
    requires Delivered(prepared, Auth(c, a, key), a.verb, uri, received)
    ensures
      var items := SomeItems(a.headers);
      ReadClaim(lib, received, Auth(c, a, key))
        == Done(Some(Claim(a.accessKey, Signature(c, a, key, items, items), a.region, "s3", a.ts, uri, content,
                           SortedNames(items))))
  {
    var auth := Auth(c, a, key);
    var items := SomeItems(a.headers);
    SignedNames(a, prepared, items);
    OwnHeaderReadsBack(c, a, key);
    AuthIsBuilt(c, a, key);
    GetAfterInsert(prepared, AUTHORIZATION, Some(auth), DATE);
    GetAfterInsert(prepared, AUTHORIZATION, Some(auth), CONTENT);
    ReadClaimIs(lib, received, auth,
                Claim(a.accessKey, Signature(c, a, key, items, items), a.region, "s3", a.ts, uri, content,
                      SortedNames(items)));
  }

  /** The signer that the verifier builds is the original one, up to the payload line. */
  lemma ClaimedSignerIs(a: AwsSign, prepared: Headers, auth: string, uri: string, received: Message, claim: Claim)
    requires Signs(a, prepared) && Delivered(prepared, auth, a.verb, uri, received)
    requires claim.accessKey == a.accessKey && claim.region == a.region && claim.service == "s3" && claim.ts == a.ts
    requires claim.names == SortedNames(SomeItems(a.headers))
    ensures ClaimedSigner(received, claim, a.url) == WithContent(a, claim.content)
  {
    SignedNames(a, prepared, SomeItems(a.headers));
    ListedCollectsTheSame(prepared, Some(auth), claim.names);
  }

  /**
   The verdict on a header made by a signer, under any secret: the signature, computed with the verifier's
   key and the payload line of the content hash header, against the one in the header.
   */
  lemma VerdictOnOwnHeader(lib: Libraries, c: Primitives, a: AwsSign, key: Bytes, prepared: Headers, content: string,
                           uri: string, received: Message, secret: string, keyFor: SigningKey.Inputs -> Bytes)
    requires Signs(a, prepared) && Carried(a.accessKey, a.region)
    requires GetText(prepared, CONTENT) == Some(content) && lib.readTime(Long(a.ts)) == Some(a.ts)
    requires Delivered(prepared, Auth(c, a, key), a.verb, uri, received) && lib.urlOf(uri) == Some(a.url)
    ensures
      var items := SomeItems(a.headers);
      Verdict(lib, c, received, Auth(c, a, key), secret, keyFor)
        == Done(Signature(c, WithContent(a, content), keyFor(KeyInputs(a, secret)), items, items)
                == Signature(c, a, key, items, items))
  {
    var items := SomeItems(a.headers);
    var claim :=
      Claim(a.accessKey, Signature(c, a, key, items, items), a.region, "s3", a.ts, uri, content, SortedNames(items));
    ClaimIsRead(lib, c, a, key, prepared, content, uri, received);
    ClaimedSignerIs(a, prepared, Auth(c, a, key), uri, received, claim);
    SignedNames(a, prepared, items);
    OwnHeaderReadsBack(c, WithContent(a, content), keyFor(KeyInputs(a, secret)));
    AuthIsBuilt(c, WithContent(a, content), keyFor(KeyInputs(a, secret)));
  }

  /** Under the same key and the same payload line, the verdict is acceptance. */
  lemma OwnHeaderIsAccepted(lib: Libraries, c: Primitives, a: AwsSign, key: Bytes, prepared: Headers, content: string,
                            uri: string, received: Message, secret: string, keyFor: SigningKey.Inputs -> Bytes)
    requires Signs(a, prepared) && Carried(a.accessKey, a.region) && key == keyFor(KeyInputs(a, secret))
    requires GetText(prepared, CONTENT) == Some(content) && lib.readTime(Long(a.ts)) == Some(a.ts)
    requires lib.urlOf(uri) == Some(a.url) && PayloadLine(c, a) == PayloadLine(c, WithContent(a, content))
    requires Delivered(prepared, Auth(c, a, key), a.verb, uri, received)
    ensures Verdict(lib, c, received, Auth(c, a, key), secret, keyFor) == Done(true)
  {
    VerdictOnOwnHeader(lib, c, a, key, prepared, content, uri, received, secret, keyFor);
    SameSignature(c, a, content, key, SomeItems(a.headers));
  }

  /** A signed request carries its readable header behind the headers that were signed. */
  lemma SignedIsDelivered(lib: Libraries, c: Primitives, sent: Message, received: Message, account: Account,
                          now: Timestamp, keyFor: SigningKey.Inputs -> Bytes)
    requires account.Complete() && Carried(account.accessKey.value, account.region.value)
    requires AllNames(sent.headers, Authorization.IsName)
    requires received.verb == sent.verb && Arrives(sent.uri, received)
    requires Signed(lib, c, sent, account, now, keyFor) == Done(received.headers)
    ensures
      var a := OwnSigner(sent, lib.urlOf(sent.uri).value, account, now);
      var auth := Auth(c, a, keyFor(KeyInputs(a, account.secretKey.value)));
      var prepared := Prepared(sent.verb, sent.headers, now);
      && Signs(a, prepared) && Delivered(prepared, auth, a.verb, sent.uri, received)
      && GetText(received.headers, AUTHORIZATION) == Some(auth)
  {
    var a := OwnSigner(sent, lib.urlOf(sent.uri).value, account, now);
    var key := keyFor(KeyInputs(a, account.secretKey.value));
    var prepared := Prepared(sent.verb, sent.headers, now);
    OwnSignerSigns(sent, a.url, account, now);
    SignedNames(a, prepared, SomeItems(a.headers));
    OwnHeaderReadsBack(c, a, key);
    GetAfterInsert(prepared, AUTHORIZATION, Some(Auth(c, a, key)), AUTHORIZATION);
  }

  /** What the signing key of a complete account is derived from. */
  function AccountInputs(account: Account, now: Timestamp): SigningKey.Inputs
    requires account.Complete()
  {
    SigningKey.Inputs(now.date, account.region.value, "s3", account.secretKey.value)
  }

  /**
   Signer and verifier agree: under one secret, every request that `sign_request` signs is accepted, for
   every access key and region that the header can carry and every two ways of deriving keys that agree on
   this account.
   */
  lemma SignedIsAccepted(lib: Libraries, c: Primitives, sent: Message, received: Message, account: Account,
                         now: Timestamp, keyFor: SigningKey.Inputs -> Bytes, keyFor': SigningKey.Inputs -> Bytes)
    requires account.Complete() && Carried(account.accessKey.value, account.region.value)
    requires keyFor(AccountInputs(account, now)) == keyFor'(AccountInputs(account, now))
    requires AllNames(sent.headers, Authorization.IsName)
    requires lib.readTime(Long(now)) == Some(now)
    requires received.verb == sent.verb && Arrives(sent.uri, received)
    requires Signed(lib, c, sent, account, now, keyFor) == Done(received.headers)
    ensures
      var auth := GetText(received.headers, AUTHORIZATION);
      auth.Some? && Verdict(lib, c, received, auth.value, account.secretKey.value, keyFor') == Done(true)
  {
    var a := OwnSigner(sent, lib.urlOf(sent.uri).value, account, now);
    SignedIsDelivered(lib, c, sent, received, account, now, keyFor);
    PreparedTexts(sent.verb, sent.headers, now);
    OwnHeaderIsAccepted(lib, c, a, keyFor(AccountInputs(account, now)), Prepared(sent.verb, sent.headers, now),
                        PayloadHash(sent.verb, Dated(sent.headers, now)), sent.uri, received, account.secretKey.value,
                        keyFor');
  }

  /**
   The same with the process-wide key cache at both ends, in whatever states different threads have left it:
   the request is accepted when the account's region has no colon and everybody who stored keys was colon-free.
   */
  lemma SignedIsAcceptedThroughCaches(lib: Libraries, c: Primitives, sent: Message, received: Message, account: Account,
                                      now: Timestamp, ops: seq<SigningKey.Memo.MapOp<SigningKey.Inputs>>,
                                      ops': seq<SigningKey.Memo.MapOp<SigningKey.Inputs>>)
    requires account.Complete() && Carried(account.accessKey.value, account.region.value)
      && ':' !in account.region.value
    requires SigningKey.Memo.StoresWithin(ops, SigningKey.ColonFreeFamily())
    requires SigningKey.Memo.StoresWithin(ops', SigningKey.ColonFreeFamily())
    requires AllNames(sent.headers, Authorization.IsName)
    requires lib.readTime(Long(now)) == Some(now)
    requires received.verb == sent.verb && Arrives(sent.uri, received)
    requires Signed(lib, c, sent, account, now, KeysOf(c, CacheAfter(c, ops))) == Done(received.headers)
    ensures
      var auth := GetText(received.headers, AUTHORIZATION);
      auth.Some?
        && Verdict(lib, c, received, auth.value, account.secretKey.value, KeysOf(c, CacheAfter(c, ops'))) == Done(true)
  {
    CachesAgree(c, ops, ops', AccountInputs(account, now));
    SignedIsAccepted(lib, c, sent, received, account, now, KeysOf(c, CacheAfter(c, ops)),
                     KeysOf(c, CacheAfter(c, ops')));
  }

  /** The entries of the key cache after stores and evictions in this order. */
  function CacheAfter(c: Primitives, ops: seq<SigningKey.Memo.MapOp<SigningKey.Inputs>>): map<string, Bytes> {
    SigningKey.Memo.Interleaved(SigningKey.KeyTable(c), map[], ops)
  }

  lemma CachesAgree(c: Primitives, ops: seq<SigningKey.Memo.MapOp<SigningKey.Inputs>>,
                    ops': seq<SigningKey.Memo.MapOp<SigningKey.Inputs>>, x: SigningKey.Inputs)
    requires x.Valid() && x.ColonFree()
    requires SigningKey.Memo.StoresWithin(ops, SigningKey.ColonFreeFamily())
    requires SigningKey.Memo.StoresWithin(ops', SigningKey.ColonFreeFamily())
    ensures KeysOf(c, CacheAfter(c, ops))(x) == KeysOf(c, CacheAfter(c, ops'))(x)
  {
    SigningKey.ColonFreeAnswers(c, ops, x);
    SigningKey.ColonFreeAnswers(c, ops', x);
  }

  // ---------------------------------------------------------------- When signing succeeds

  lemma HeaderValueAppend(a: string, b: string)
    ensures IsHeaderValue(a + b) <==> IsHeaderValue(a) && IsHeaderValue(b)
  {
    if IsHeaderValue(a + b) {
      forall i | 0 <= i < |a| ensures IsHeaderValue([a[i]]) {
        assert (a + b)[i] == a[i];
      }
      forall i | 0 <= i < |b| ensures IsHeaderValue([b[i]]) {
        assert (a + b)[|a| + i] == b[i];
      }
      HeaderValueByCharacter(a);
      HeaderValueByCharacter(b);
    }
  }

  lemma HeaderValueByCharacter(s: string)
    ensures IsHeaderValue(s) <==> forall i :: 0 <= i < |s| ==> IsHeaderValue([s[i]])
  {
    assert forall i :: 0 <= i < |s| ==> [s[i]][0] == s[i];
  }

  lemma VisibleIsHeaderValue(s: string)
    requires IsVisible(s)
    ensures IsHeaderValue(s)
  {
  }

  lemma DecimalIsVisible(s: string)
    requires IsDecimal(s)
    ensures IsVisible(s)
  {
  }

  lemma HexIsVisible(s: string)
    requires Hex.IsLowerHex(s)
    ensures IsVisible(s)
  {
  }

  /** The credential is a header value when the access key and the region are. */
  lemma CredentialIsHeaderValue(accessKey: string, date: string, region: string)
    requires IsDecimal(date)
    ensures IsHeaderValue(accessKey + "/" + ScopeString(date, region, "s3"))
        <==> IsHeaderValue(accessKey) && IsHeaderValue(region)
  {
    var tail := "/s3/aws4_request";
    TailIsHeaderValue();
    DecimalIsVisible(date);
    VisibleIsHeaderValue(date);
    HeaderValueAppend(region, tail);
    HeaderValueAppend("/" + date + "/", region + tail);
    HeaderValueAppend("/" + date, "/");
    HeaderValueAppend("/", date);
    HeaderValueAppend(accessKey, "/" + date + "/" + (region + tail));
    CredentialParts(accessKey, date, region);
  }

  lemma TailIsHeaderValue()
    ensures IsHeaderValue("/s3/aws4_request") && IsHeaderValue("/")
  {
  }

  lemma CredentialParts(accessKey: string, date: string, region: string)
    ensures accessKey + "/" + ScopeString(date, region, "s3")
         == accessKey + ("/" + date + "/" + (region + "/s3/aws4_request"))
  {
    assert "/s3/aws4_request" == "/" + "s3" + "/aws4_request";
  }

  /** The whole header is a header value when the access key and the region are. */
  lemma BuiltIsHeaderValue(accessKey: string, date: string, region: string, names: seq<string>, signature: string)
    requires IsDecimal(date) && Authorization.AreNames(names) && Hex.IsLowerHex(signature)
    ensures
      IsHeaderValue(Authorization.Built(accessKey, date, region, "s3", names, signature))
      <==> IsHeaderValue(accessKey) && IsHeaderValue(region)
  {
    var credential := accessKey + "/" + ScopeString(date, region, "s3");
    var prefix := "AWS4-HMAC-SHA256 Credential=";
    var rest := ",SignedHeaders=" + Join(names, ';') + ",Signature=" + signature;
    VisibleLiterals();
    VisibleJoin(names);
    HexIsVisible(signature);
    VisibleFour(",SignedHeaders=", Join(names, ';'), ",Signature=", signature);
    VisibleIsHeaderValue(prefix);
    VisibleIsHeaderValue(rest);
    CredentialIsHeaderValue(accessKey, date, region);
    HeaderValueAppend(prefix + credential, rest);
    HeaderValueAppend(prefix, credential);
    Eightfold(prefix, accessKey, "/", ScopeString(date, region, "s3"), ",SignedHeaders=", Join(names, ';'),
              ",Signature=", signature);
    Regrouped(prefix, accessKey + "/", ScopeString(date, region, "s3"));
    Regrouped(prefix, accessKey, "/");
  }

  /** Signing succeeds exactly for complete accounts whose parts a header may hold, on parsable targets. */
  lemma SigningSucceeds(lib: Libraries, c: Primitives, m: Message, account: Account, now: Timestamp,
                        keyFor: SigningKey.Inputs -> Bytes)
    requires AllNames(m.headers, Authorization.IsName)
    ensures
      Signed(lib, c, m, account, now, keyFor).Done?
      <==>
      && account.Complete() && lib.urlOf(m.uri).Some?
      && IsHeaderValue(account.accessKey.value) && IsHeaderValue(account.region.value)
  {
    if account.Complete() && lib.urlOf(m.uri).Some? {
      var a := OwnSigner(m, lib.urlOf(m.uri).value, account, now);
      var key := keyFor(KeyInputs(a, account.secretKey.value));
      var items := SomeItems(a.headers);
      OwnSignerSigns(m, a.url, account, now);
      SignedNames(a, Prepared(m.verb, m.headers, now), items);
      SignatureIsHex(c, a, key, items);
      AuthIsBuilt(c, a, key);
      BuiltIsHeaderValue(a.accessKey, a.ts.date, a.region, SortedNames(items), Signature(c, a, key, items, items));
    }
  }
}
