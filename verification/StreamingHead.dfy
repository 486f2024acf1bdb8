/**
 The head of a streaming upload and its body together: the seed signature, the verdict on the head, and
 the chunk chain that starts from it.
 */
module StreamingHead {
  import opened Text
  import opened Crypto
  import opened Headers
  import opened Signer
  import opened Verifier
  import opened Agreement
  import Authentic
  import Authorization
  import Backend
  import ChunkFrame
  import Coverage
  import Hex
  import QueryOrder
  import Service
  import SigningKey
  import Standard
  import Streaming
  import TamperEvidence
  import Transcoding

  lemma StreamingSignerSigns(m: Message, url: Url, region: string, accessKey: string, ts: Timestamp)
    requires AllNames(m.headers, Authorization.IsName)
    ensures Signs(StreamingSigner(m, url, region, accessKey, ts), StreamingPrepared(m.headers, ts))
    ensures GetText(StreamingPrepared(m.headers, ts), CONTENT) == GetText(m.headers, CONTENT)
  {
    OwnNamesAreNames();
    InsertNames(m.headers, DATE, Some(Long(ts)), Authorization.IsName);
    GetAfterInsert(m.headers, DATE, Some(Long(ts)), DATE);
    GetAfterInsert(m.headers, DATE, Some(Long(ts)), CONTENT);
  }

  lemma MarkersDiffer()
    ensures UNSIGNED != STREAMING && ByteLiteral(UNSIGNED) != ByteLiteral(STREAMING)
  {
    assert |UNSIGNED| == 16 && |STREAMING| == 34;
  }

  /** The payload line of the streaming signer is the marker, whatever the content hash header says. */
  lemma StreamingPayloadLine(c: Primitives, a: AwsSign, content: string)
    requires a.body == ByteLiteral(STREAMING) && a.payloadOverride == None
    ensures PayloadLine(c, a) == STREAMING
    ensures PayloadLine(c, WithContent(a, content)) == content
  {
    MarkersDiffer();
  }

  /** The seed is the signature of the re-signed head. */
  lemma SeedIsSignature(lib: Libraries, c: Primitives, sent: Message, region: string, accessKey: string, secret: string,
                        ts: Timestamp, keyFor: SigningKey.Inputs -> Bytes, headers: Headers)
    requires Carried(accessKey, region) && AllNames(sent.headers, Authorization.IsName)
    requires Resigned(lib, c, sent, region, accessKey, secret, ts, keyFor) == Done(headers)
    ensures
      var a := StreamingSigner(sent, lib.urlOf(sent.uri).value, region, accessKey, ts);
      var key := keyFor(KeyInputs(a, secret));
      var items := SomeItems(a.headers);
      && GetText(headers, AUTHORIZATION) == Some(Auth(c, a, key))
      && headers == Insert(StreamingPrepared(sent.headers, ts), AUTHORIZATION, Some(Auth(c, a, key)))
      && SeedOf(headers) == Some(Signature(c, a, key, items, items))
  {
    var a := StreamingSigner(sent, lib.urlOf(sent.uri).value, region, accessKey, ts);
    var key := keyFor(KeyInputs(a, secret));
    var prepared := StreamingPrepared(sent.headers, ts);
    StreamingSignerSigns(sent, a.url, region, accessKey, ts);
    SignedNames(a, prepared, SomeItems(a.headers));
    OwnHeaderReadsBack(c, a, key);
    AuthIsBuilt(c, a, key);
    GetAfterInsert(prepared, AUTHORIZATION, Some(Auth(c, a, key)), AUTHORIZATION);
  }

  /** What the key of an upload is derived from. */
  function UploadInputs(ts: Timestamp, region: string, secret: string): SigningKey.Inputs {
    SigningKey.Inputs(ts.date, region, "s3", secret)
  }

  /** A re-signed head is accepted when its content hash header holds the marker and both ends agree on the key. */
  lemma ResignedIsAccepted(lib: Libraries, c: Primitives, sent: Message, region: string, accessKey: string,
                           secret: string, ts: Timestamp, keyFor: SigningKey.Inputs -> Bytes,
                           keyFor': SigningKey.Inputs -> Bytes, received: Message)
    requires keyFor(UploadInputs(ts, region, secret)) == keyFor'(UploadInputs(ts, region, secret))
    requires Carried(accessKey, region) && AllNames(sent.headers, Authorization.IsName)
    requires Resigned(lib, c, sent, region, accessKey, secret, ts, keyFor) == Done(received.headers)
    requires lib.readTime(Long(ts)) == Some(ts) && received.verb == sent.verb && Arrives(sent.uri, received)
    requires GetText(sent.headers, CONTENT) == Some(STREAMING)
    ensures
      var auth := GetText(received.headers, AUTHORIZATION);
      auth.Some? && Verdict(lib, c, received, auth.value, secret, keyFor') == Done(true)
  {
    var a := StreamingSigner(sent, lib.urlOf(sent.uri).value, region, accessKey, ts);
    var prepared := StreamingPrepared(sent.headers, ts);
    SeedIsSignature(lib, c, sent, region, accessKey, secret, ts, keyFor, received.headers);
    StreamingSignerSigns(sent, a.url, region, accessKey, ts);
    StreamingPayloadLine(c, a, STREAMING);
    OwnHeaderIsAccepted(lib, c, a, keyFor(KeyInputs(a, secret)), prepared, STREAMING, sent.uri, received, secret,
                        keyFor');
  }

  lemma StreamingValues(h: Headers, ts: Timestamp)
    requires Authentic.SingleValues(h)
    ensures Authentic.SingleValues(StreamingPrepared(h, ts))
  {
    forall name | Authentic.IsSigned(name) && Texts(StreamingPrepared(h, ts), name) != []
      ensures Service.Single(StreamingPrepared(h, ts), name)
    {
      TextsAfterInsert(h, DATE, Long(ts), name);
      Authentic.LongIsBlankFree(ts);
      Authentic.BlankFree(Long(ts));
    }
  }

  /** A re-signed head that announces the marker is authentic to a service that follows the standard. */
  lemma ResignedIsAuthentic(lib: Libraries, c: Primitives, sent: Message, region: string, accessKey: string,
                            secret: string, ts: Timestamp, keyFor: SigningKey.Inputs -> Bytes, headers: Headers)
    requires keyFor(UploadInputs(ts, region, secret)) == SigningKey.Derive(c, UploadInputs(ts, region, secret))
    requires Carried(accessKey, region) && AllNames(sent.headers, Authorization.IsName)
    requires Resigned(lib, c, sent, region, accessKey, secret, ts, keyFor) == Done(headers)
    requires GetText(sent.headers, CONTENT) == Some(STREAMING)
    requires QueryOrder.NamesApart(lib.urlOf(sent.uri).value.pairs) && Authentic.SingleValues(sent.headers)
    ensures
      var url := lib.urlOf(sent.uri).value;
      Authentic.SignedAndAuthentic(c, Standard.Request(sent.verb, url.path, url.pairs, headers),
                                   Standard.Account(accessKey, secret, region), ts)
  {
    var a := StreamingSigner(sent, lib.urlOf(sent.uri).value, region, accessKey, ts);
    SeedIsSignature(lib, c, sent, region, accessKey, secret, ts, keyFor, headers);
    StreamingSignerSigns(sent, a.url, region, accessKey, ts);
    StreamingPayloadLine(c, a, STREAMING);
    StreamingValues(sent.headers, ts);
    Authentic.PreparedIsAuthentic(c, a, Standard.Account(accessKey, secret, region),
                                  keyFor(UploadInputs(ts, region, secret)), StreamingPrepared(sent.headers, ts));
  }

  lemma StreamingSignerIsLineFree(lib: Libraries, m: Message, region: string, accessKey: string, ts: Timestamp,
                                  content: string)
    requires TamperEvidence.WellFormed(lib, m) && lib.urlOf(m.uri).Some? && GetText(m.headers, CONTENT) == Some(content)
    ensures
      var a := StreamingSigner(m, lib.urlOf(m.uri).value, region, accessKey, ts);
      Coverage.LineFree(a) && Coverage.LineFree(WithContent(a, content))
  {
    var a := StreamingSigner(m, lib.urlOf(m.uri).value, region, accessKey, ts);
    var prepared := StreamingPrepared(m.headers, ts);
    TamperEvidence.LongIsVisible(ts);
    TamperEvidence.InsertTexts(m.headers, DATE, Some(Long(ts)));
    StreamingSignerSigns(m, a.url, region, accessKey, ts);
    TamperEvidence.GetTextIsVisible(m.headers, CONTENT);
    TamperEvidence.VisibleIsLineFree(content);
    TamperEvidence.CollectedSignerIsLineFree(a, prepared, Whitelisted);
    TamperEvidence.CollectedSignerIsLineFree(WithContent(a, content), prepared, Whitelisted);
  }

  /**
   Exactly which re-signed heads are accepted: those whose content hash header holds the very marker that
   was signed.  For every other marker, such as the trailer variants, the head is signed for one payload
   line and announces another.
   */
  lemma ResignedAcceptedExactly(lib: Libraries, c: Primitives, sent: Message, region: string, accessKey: string,
                                secret: string, ts: Timestamp, keyFor: SigningKey.Inputs -> Bytes, received: Message,
                                content: string)
    requires Carried(accessKey, region) && TamperEvidence.WellFormed(lib, sent)
    requires Resigned(lib, c, sent, region, accessKey, secret, ts, keyFor) == Done(received.headers)
    requires lib.readTime(Long(ts)) == Some(ts) && received.verb == sent.verb && Arrives(sent.uri, received)
    requires GetText(sent.headers, CONTENT) == Some(content)
    requires
      var a := StreamingSigner(sent, lib.urlOf(sent.uri).value, region, accessKey, ts);
      var b := WithContent(a, content);
      var key := keyFor(KeyInputs(a, secret));
      var items := SomeItems(a.headers);
      && TamperEvidence.MacTells(c, key, TamperEvidence.ToSign(c, a, items), key, TamperEvidence.ToSign(c, b, items))
      && TamperEvidence.DigestTells(c, TamperEvidence.Canonical(c, a, items), TamperEvidence.Canonical(c, b, items))
    ensures
      var auth := GetText(received.headers, AUTHORIZATION);
      auth.Some? && (Verdict(lib, c, received, auth.value, secret, keyFor) == Done(true) <==> content == STREAMING)
  {
    var a := StreamingSigner(sent, lib.urlOf(sent.uri).value, region, accessKey, ts);
    var b := WithContent(a, content);
    var key := keyFor(KeyInputs(a, secret));
    var items := SomeItems(a.headers);
    SeedIsSignature(lib, c, sent, region, accessKey, secret, ts, keyFor, received.headers);
    StreamingSignerSigns(sent, a.url, region, accessKey, ts);
    StreamingPayloadLine(c, a, content);
    VerdictOnOwnHeader(lib, c, a, key, StreamingPrepared(sent.headers, ts), content, sent.uri, received, secret,
                       keyFor);
    if content == STREAMING {
      SameSignature(c, a, content, key, items);
    } else if Signature(c, b, key, items, items) == Signature(c, a, key, items, items) {
      StreamingSignerIsLineFree(lib, sent, region, accessKey, ts, content);
      TamperEvidence.EqualSignatures(c, a, key, items, b, key, items);
    }
  }

  lemma BodyIsRead(c: Primitives, key: Bytes, secret: string, ts: Timestamp, region: string, seed: string,
                   body: Backend.ClientBody, calls: Transcoding.Calls, last: Bytes)
    requires key == SigningKey.Derive(c, SigningKey.Inputs(ts.date, region, "s3", secret))
      && Digest(c, []) == EMPTY_SHA256
    requires body.Valid() && |body.OnWire()| < Hex.WORD && Transcoding.Received(calls) + last == body.OnWire()
    ensures
      Backend.Decode(Backend.ReaderOf(Backend.Account(c, secret, ts, region)), seed,
                     Transcoding.UploadOutput(Streaming.Upload(c, key, ts, region), ChunkFrame.CHUNK_PARSER, seed,
                                              calls, last))
      == Some(Backend.Payloads(body.chunks))
  {
    Backend.TranscodingPreservesMeaning(Streaming.Upload(c, key, ts, region), Backend.Account(c, secret, ts, region),
                                        seed, body, calls, last);
  }

  /**
   The backend accepts the head it received, and reads exactly the client's payloads from the body that the
   proxy sends under `key`, starting from the signature in that head.
   */
  ghost predicate IsRead(lib: Libraries, c: Primitives, region: string, secret: string, ts: Timestamp,
                         keyFor: SigningKey.Inputs -> Bytes, key: Bytes, received: Message, body: Backend.ClientBody,
                         calls: Transcoding.Calls, last: Bytes)
  {
    match GetText(received.headers, AUTHORIZATION)
    case None => false
    case Some(auth) =>
      var seed := SeedOf(received.headers);
      var u := Streaming.Upload(c, key, ts, region);
      && seed.Some? && Verdict(lib, c, received, auth, secret, keyFor) == Done(true)
      && Backend.Decode(Backend.ReaderOf(Backend.Account(c, secret, ts, region)), seed.value,
                        Transcoding.UploadOutput(u, ChunkFrame.CHUNK_PARSER, seed.value, calls, last))
         == Some(Backend.Payloads(body.chunks))
  }

  /** The head as re-signed and delivered, with the marker in its content hash header. */
  ghost predicate IsSent(lib: Libraries, c: Primitives, sent: Message, region: string, accessKey: string,
                         secret: string, ts: Timestamp, keyFor: SigningKey.Inputs -> Bytes, received: Message)
  {
    match Resigned(lib, c, sent, region, accessKey, secret, ts, keyFor)
    case Failed => false
    case Panicked => false
    case Done(headers) =>
      && received.headers == headers && received.verb == sent.verb && Arrives(sent.uri, received)
      && Carried(accessKey, region) && AllNames(sent.headers, Authorization.IsName)
      && lib.readTime(Long(ts)) == Some(ts) && GetText(sent.headers, CONTENT) == Some(STREAMING)
  }

  /** The calls and the last call bring in a well-formed body. */
  predicate Delivers(body: Backend.ClientBody, calls: Transcoding.Calls, last: Bytes) {
    body.Valid() && |body.OnWire()| < Hex.WORD && Transcoding.Received(calls) + last == body.OnWire()
  }

  /**
   A whole upload: the backend accepts the re-signed head, and reads the client's payloads from the body,
   starting from the signature in that head, however the client's bytes were cut.  The head is signed with
   one key function, checked with another, and the body is signed with `key`; all three are the derivation
   for this account.
   */
  lemma UploadIsAccepted(lib: Libraries, c: Primitives, sent: Message, region: string, accessKey: string,
                         secret: string, ts: Timestamp, keyFor: SigningKey.Inputs -> Bytes,
                         keyFor': SigningKey.Inputs -> Bytes, key: Bytes, received: Message, body: Backend.ClientBody,
                         calls: Transcoding.Calls, last: Bytes)
    requires IsSent(lib, c, sent, region, accessKey, secret, ts, keyFor, received)
    requires
      var x := UploadInputs(ts, region, secret);
      keyFor(x) == keyFor'(x) == key == SigningKey.Derive(c, x)
    requires Digest(c, []) == EMPTY_SHA256 && Delivers(body, calls, last)
    ensures IsRead(lib, c, region, secret, ts, keyFor', key, received, body, calls, last)
  {
    SeedIsSignature(lib, c, sent, region, accessKey, secret, ts, keyFor, received.headers);
    ResignedIsAccepted(lib, c, sent, region, accessKey, secret, ts, keyFor, keyFor', received);
    BodyIsRead(c, key, secret, ts, region, SeedOf(received.headers).value, body, calls, last);
  }

  /** The operations on the key cache before each of the three moments at which it is asked. */
  datatype Caches = Caches(head: seq<SigningKey.Memo.MapOp<SigningKey.Inputs>>,
                           verifier: seq<SigningKey.Memo.MapOp<SigningKey.Inputs>>,
                           body: seq<SigningKey.Memo.MapOp<SigningKey.Inputs>>)
  {
    ghost predicate ColonFree() {
      && SigningKey.Memo.StoresWithin(head, SigningKey.ColonFreeFamily())
      && SigningKey.Memo.StoresWithin(verifier, SigningKey.ColonFreeFamily())
      && SigningKey.Memo.StoresWithin(body, SigningKey.ColonFreeFamily())
    }
  }

  lemma CachesDerive(c: Primitives, caches: Caches, ts: Timestamp, region: string, secret: string)
    requires ':' !in region && caches.ColonFree()
    ensures
      var x := UploadInputs(ts, region, secret);
      && KeysOf(c, CacheAfter(c, caches.head))(x) == SigningKey.Derive(c, x)
      && KeysOf(c, CacheAfter(c, caches.verifier))(x) == SigningKey.Derive(c, x)
      && KeysOf(c, CacheAfter(c, caches.body))(x) == SigningKey.Derive(c, x)
  {
    var x := UploadInputs(ts, region, secret);
    SigningKey.ColonFreeAnswers(c, caches.head, x);
    SigningKey.ColonFreeAnswers(c, caches.verifier, x);
    SigningKey.ColonFreeAnswers(c, caches.body, x);
  }

  /**
   The same with the process-wide key cache at every point, in whatever states other threads have left it, for
   an account whose region has no colon.
   */
  lemma UploadIsAcceptedThroughCaches(lib: Libraries, c: Primitives, sent: Message, region: string, accessKey: string,
                                      secret: string, ts: Timestamp, caches: Caches, received: Message,
                                      body: Backend.ClientBody, calls: Transcoding.Calls, last: Bytes)
    requires ':' !in region && caches.ColonFree()
    requires IsSent(lib, c, sent, region, accessKey, secret, ts, KeysOf(c, CacheAfter(c, caches.head)), received)
    requires Digest(c, []) == EMPTY_SHA256 && Delivers(body, calls, last)
    ensures
      IsRead(lib, c, region, secret, ts, KeysOf(c, CacheAfter(c, caches.verifier)),
             KeysOf(c, CacheAfter(c, caches.body))(UploadInputs(ts, region, secret)), received, body, calls, last)
  {
    var x := UploadInputs(ts, region, secret);
    CachesDerive(c, caches, ts, region, secret);
    UploadIsAccepted(lib, c, sent, region, accessKey, secret, ts, KeysOf(c, CacheAfter(c, caches.head)),
                     KeysOf(c, CacheAfter(c, caches.verifier)), KeysOf(c, CacheAfter(c, caches.body))(x),
                     received, body, calls, last);
  }
}
