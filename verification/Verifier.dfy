/**
 Signing a request in place and verifying the signature a request carries.

 The two ends build their canonical requests from different data: the signer from its own configuration
 and a list of header names it forwards, the verifier from what it reads out of the Authorization header.
 What one signs, the other accepts; and what it accepts is what was signed, short of a hash collision.
 */
module Verifier {
  import opened Text
  import opened Crypto
  import opened Headers
  import opened Signer
  import Authorization
  import SigningKey

  /** What the libraries do: parsing a URL and a `%Y%m%dT%H%M%SZ` time. */
  datatype Libraries = Libraries(urlOf: string -> Option<Url>, readTime: string -> Option<Timestamp>)

  /** A call returns, fails with an error, or panics. */
  datatype Outcome<+T> = Done(value: T) | Failed | Panicked

  /** The credentials of a bucket configuration. */
  datatype Account = Account(region: Option<string>, accessKey: Option<string>, secretKey: Option<string>) {
    predicate Complete() {
      region.Some? && accessKey.Some? && secretKey.Some?
    }
  }

  datatype Message = Message(verb: string, uri: string, headers: Headers)

  const DATE := "x-amz-date"

  const CONTENT := "x-amz-content-sha256"

  // ---------------------------------------------------------------- Signing

  /** The headers a re-signed request signs. */
  predicate Whitelisted(name: string) {
    || name == "host" || StartsWith(name, "x-amz-")
    || name in ["content-length", "content-encoding", "transfer-encoding", "range", "expect"]
  }

  predicate IsRead(verb: string) {
    verb == "GET" || verb == "HEAD" || verb == "DELETE"
  }

  /** The payload hash: the client's own, or a default by method. */
  function PayloadHash(verb: string, h: Headers): string {
    match GetText(h, CONTENT)
    case Some(text) => text
    case None => if IsRead(verb) then EMPTY_SHA256 else UNSIGNED
  }

  function Dated(h: Headers, now: Timestamp): Headers {
    Insert(Remove(h, AUTHORIZATION), DATE, Some(Long(now)))
  }

  /** The headers that are about to be signed. */
  function Prepared(verb: string, h: Headers, now: Timestamp): Headers {
    Insert(Dated(h, now), CONTENT, Some(PayloadHash(verb, Dated(h, now))))
  }

  function BodyFor(payload: string): Bytes {
    if payload == EMPTY_SHA256 then []
    else if payload in [UNSIGNED, "STREAMING-UNSIGNED-PAYLOAD-TRAILER", STREAMING] then ByteLiteral(payload)
    else []
  }

  /** The signer that `sign_request` builds. */
  function OwnSigner(m: Message, url: Url, account: Account, now: Timestamp): AwsSign
    requires account.Complete()
  {
    var prepared := Prepared(m.verb, m.headers, now);
    var payload := PayloadHash(m.verb, Dated(m.headers, now));
    AwsSign(m.verb, url, now, account.region.value, account.accessKey.value, "s3",
            Collect(prepared, Whitelisted), BodyFor(payload), Some(payload))
  }

  /** `sign_request` on values: the new headers. */
  ghost function Signed(lib: Libraries, c: Primitives, m: Message, account: Account, now: Timestamp,
                        keyFor: SigningKey.Inputs -> Bytes): Outcome<Headers>
  {
    if !account.Complete() then Failed
    else
      match lib.urlOf(m.uri)
      case None => Panicked
      case Some(url) =>
        var a := OwnSigner(m, url, account, now);
        var auth := Auth(c, a, keyFor(KeyInputs(a, account.secretKey.value)));
        if IsHeaderValue(auth) then Done(Insert(Prepared(m.verb, m.headers, now), AUTHORIZATION, ToText(auth)))
        else Failed
  }

  // ---------------------------------------------------------------- Signing the head of a streaming upload

  function StreamingPrepared(h: Headers, ts: Timestamp): Headers {
    Insert(h, DATE, Some(Long(ts)))
  }

  /** The signer that `resign_streaming_request` builds: the marker is its body, not an override. */
  function StreamingSigner(m: Message, url: Url, region: string, accessKey: string, ts: Timestamp): AwsSign {
    AwsSign(m.verb, url, ts, region, accessKey, "s3",
            Collect(StreamingPrepared(m.headers, ts), Whitelisted), ByteLiteral(STREAMING), None)
  }

  /** `resign_streaming_request` on values. */
  ghost function Resigned(lib: Libraries, c: Primitives, m: Message, region: string, accessKey: string, secret: string,
                          ts: Timestamp, keyFor: SigningKey.Inputs -> Bytes): Outcome<Headers>
  {
    match lib.urlOf(m.uri)
    case None => Panicked
    case Some(url) =>
      var a := StreamingSigner(m, url, region, accessKey, ts);
      var auth := Auth(c, a, keyFor(KeyInputs(a, secret)));
      if IsHeaderValue(auth) then Done(Insert(StreamingPrepared(m.headers, ts), AUTHORIZATION, ToText(auth)))
      else Failed
  }

  /** The seed of the chunk chain: the signature in the request's own Authorization header. */
  function SeedOf(h: Headers): Option<string> {
    match GetText(h, AUTHORIZATION)
    case None => None
    case Some(auth) => Authorization.ParseSignature(auth)
  }

  // ---------------------------------------------------------------- Verifying

  /** The body and the payload override that stand for the content hash header. */
  function PayloadOf(content: string): (Bytes, Option<string>) {
    if content == UNSIGNED then (ByteLiteral(UNSIGNED), None)
    else if content == STREAMING then (ByteLiteral(STREAMING), Some(STREAMING))
    else ([], Some(content))
  }

  /** The URL as the client saw it, when it can be told. */
  function FullUri(m: Message): Option<string> {
    if !StartsWith(m.uri, "/") then Some(m.uri)
    else match GetText(m.headers, "host")
      case None => None
      case Some(host) => Some("https://" + host + m.uri)
  }

  function Listed(names: seq<string>): string -> bool {
    name => name in names
  }

  /** What the verifier reads from the request and its Authorization header. */
  datatype Claim = Claim(accessKey: string, signature: string, region: string, service: string, ts: Timestamp,
                         uri: string, content: string, names: seq<string>)

  /** Reading the claim; the empty access key is refused before anything else is read. */
  function ReadClaim(lib: Libraries, m: Message, auth: string): Outcome<Option<Claim>> {
    var accessKey := Authorization.ParseToken(auth);
    if accessKey.None? then Failed
    else if accessKey.value == "" then Done(None)
    else
      var signature := Authorization.ParseSignature(auth);
      var scope := Authorization.ParseCredentialScope(auth);
      var date := GetText(m.headers, DATE);
      if signature.None? || scope.None? || date.None? then Failed
      else
        var ts := lib.readTime(date.value);
        var content := GetText(m.headers, CONTENT);
        var uri := FullUri(m);
        var names := Authorization.ParseSignedHeaders(auth);
        if ts.None? || content.None? || uri.None? || names.None? then Failed
        else Done(Some(Claim(accessKey.value, signature.value, scope.value.region, scope.value.service, ts.value,
                             uri.value, content.value, names.value)))
  }

  /** The signer the verifier builds from the claim: exactly the headers the client lists. */
  function ClaimedSigner(m: Message, claim: Claim, url: Url): AwsSign {
    var (body, override) := PayloadOf(claim.content);
    AwsSign(m.verb, url, claim.ts, claim.region, claim.accessKey, claim.service,
            Collect(m.headers, Listed(claim.names)), body, override)
  }

  function OrEmpty(s: Option<string>): string {
    if s.Some? then s.value else ""
  }

  /** `signature_is_valid_for_request` on values. */
  ghost function Verdict(lib: Libraries, c: Primitives, m: Message, auth: string, secret: string,
                         keyFor: SigningKey.Inputs -> Bytes): Outcome<bool>
  {
    match ReadClaim(lib, m, auth)
    case Failed => Failed
    case Panicked => Panicked
    case Done(None) => Done(false)
    case Done(Some(claim)) =>
      match lib.urlOf(claim.uri)
      case None => Panicked
      case Some(url) =>
        Compared(c, ClaimedSigner(m, claim, url), claim.signature, secret, keyFor)
  }

  /** The signature of the signer, read back from its own header, against the one provided. */
  ghost function Compared(c: Primitives, a: AwsSign, provided: string, secret: string,
                          keyFor: SigningKey.Inputs -> Bytes): Outcome<bool>
  {
    Done(OrEmpty(Authorization.ParseSignature(Auth(c, a, keyFor(KeyInputs(a, secret))))) == provided)
  }

  // ---------------------------------------------------------------- The two methods

  /** The keys a cache hands out at one moment. */
  function KeysOf(c: Primitives, entries: map<string, Bytes>): SigningKey.Inputs -> Bytes {
    x => SigningKey.Memo.Answer(SigningKey.KeyTable(c), entries, x)
  }

  /** The entries of the cache after one request to it. */
  function KeysAfter(c: Primitives, entries: map<string, Bytes>, x: SigningKey.Inputs): map<string, Bytes> {
    SigningKey.Memo.AfterCall(SigningKey.KeyTable(c), entries, x)
  }

  /** The body that `sign_request` hands to the signer: the marker itself, or nothing. */
  method BodyBytes(payload: string) returns (body: Bytes)
    ensures body == BodyFor(payload)
  {
    body := [];
    if payload == "UNSIGNED-PAYLOAD" {
      body := ByteLiteral("UNSIGNED-PAYLOAD");
    } else if payload == "STREAMING-UNSIGNED-PAYLOAD-TRAILER" {
      body := ByteLiteral("STREAMING-UNSIGNED-PAYLOAD-TRAILER");
    } else if payload == "STREAMING-AWS4-HMAC-SHA256-PAYLOAD" {
      body := ByteLiteral("STREAMING-AWS4-HMAC-SHA256-PAYLOAD");
    }
  }

  class RequestHeader {
    const verb: string
    const uri: string
    var headers: Headers

    constructor (m: Message)
      ensures View() == m
    {
      verb, uri, headers := m.verb, m.uri, m.headers;
    }

    function View(): Message
      reads this
    {
      Message(verb, uri, headers)
    }

    /** `sign_request`. */
    method SignRequest(lib: Libraries, account: Account, now: Timestamp, cache: SigningKey.SigningKeyCache)
      returns (r: Outcome<()>)
      modifies this, cache
      ensures
        var signed := Signed(lib, cache.crypto, old(View()), account, now, KeysOf(cache.crypto, old(cache.entries)));
        && (r.Done? <==> signed.Done?) && (r.Failed? <==> signed.Failed?)
        && (r.Done? ==> headers == signed.value)
      ensures !account.Complete() ==> headers == old(headers)
      ensures account.Complete() && !r.Done? ==> headers == Prepared(verb, old(headers), now)
      ensures
        cache.entries == if account.Complete() && lib.urlOf(uri).Some?
                         then KeysAfter(cache.crypto, old(cache.entries),
                                        KeyInputs(OwnSigner(old(View()), lib.urlOf(uri).value, account, now),
                                                  account.secretKey.value))
                         else old(cache.entries)
    {
      if account.region.None? || account.accessKey.None? || account.secretKey.None? {
        return Failed;
      }
      headers := Remove(headers, AUTHORIZATION);
      headers := Insert(headers, DATE, Some(Long(now)));
      var supplied := GetText(headers, CONTENT);
      var payload;
      if supplied.Some? {
        payload := supplied.value;
      } else if verb in ["GET", "HEAD", "DELETE"] {
        payload := EMPTY_SHA256;
      } else {
        payload := "UNSIGNED-PAYLOAD";
      }
      headers := Insert(headers, CONTENT, Some(payload));
      var body := BodyBytes(payload);
      var url := lib.urlOf(uri);
      if url.None? {
        return Panicked;
      }
      var a := AwsSign(verb, url.value, now, account.region.value, account.accessKey.value, "s3",
                       Collect(headers, Whitelisted), body, Some(payload));
      var items := Iterate(a.headers);
      var auth := Sign(a, account.secretKey.value, items, cache);
      if !IsHeaderValue(auth) {
        return Failed;
      }
      headers := Insert(headers, AUTHORIZATION, ToText(auth));
      r := Done(());
    }

    /** `resign_streaming_request`: sets the date and the Authorization header. */
    method ResignStreaming(region: string, accessKey: string, secret: string, ts: Timestamp, lib: Libraries,
                           cache: SigningKey.SigningKeyCache)
      returns (r: Outcome<()>)
      modifies this, cache
      ensures
        var resigned := Resigned(lib, cache.crypto, old(View()), region, accessKey, secret, ts,
                                 KeysOf(cache.crypto, old(cache.entries)));
        && (r.Done? <==> resigned.Done?) && (r.Failed? <==> resigned.Failed?)
        && (r.Done? ==> headers == resigned.value)
      ensures !r.Done? ==> headers == StreamingPrepared(old(headers), ts)
      ensures
        cache.entries == if lib.urlOf(uri).Some?
                         then KeysAfter(cache.crypto, old(cache.entries),
                                        KeyInputs(StreamingSigner(old(View()), lib.urlOf(uri).value, region, accessKey,
                                                                  ts), secret))
                         else old(cache.entries)
    {
      headers := Insert(headers, DATE, Some(Long(ts)));
      var url := lib.urlOf(uri);
      if url.None? {
        return Panicked;
      }
      var a := AwsSign(verb, url.value, ts, region, accessKey, "s3", Collect(headers, Whitelisted),
                       ByteLiteral(STREAMING), None);
      var items := Iterate(a.headers);
      var auth := Sign(a, secret, items, cache);
      if !IsHeaderValue(auth) {
        return Failed;
      }
      headers := Insert(headers, AUTHORIZATION, ToText(auth));
      r := Done(());
    }

    /** `signature_is_valid_for_request`. */
    method SignatureIsValid(auth: string, secret: string, lib: Libraries, cache: SigningKey.SigningKeyCache)
      returns (r: Outcome<bool>)
      modifies cache
      ensures r == Verdict(lib, cache.crypto, View(), auth, secret, KeysOf(cache.crypto, old(cache.entries)))
      ensures
        var claim := ReadClaim(lib, View(), auth);
        cache.entries == if claim.Done? && claim.value.Some? && lib.urlOf(claim.value.value.uri).Some?
                         then KeysAfter(cache.crypto, old(cache.entries),
                                        KeyInputs(ClaimedSigner(View(), claim.value.value,
                                                                lib.urlOf(claim.value.value.uri).value), secret))
                         else old(cache.entries)
    {
      var accessKey := Authorization.ParseToken(auth);
      if accessKey.None? {
        return Failed;
      } else if accessKey.value == "" {
        return Done(false);
      }
      var provided := Authorization.ParseSignature(auth);
      var scope := Authorization.ParseCredentialScope(auth);
      var date := GetText(headers, "x-amz-date");
      if provided.None? || scope.None? || date.None? {
        return Failed;
      }
      var ts := lib.readTime(date.value);
      var content := GetText(headers, "x-amz-content-sha256");
      if ts.None? || content.None? {
        return Failed;
      }
      var body, override := [], Some(content.value);
      if content.value == "UNSIGNED-PAYLOAD" {
        body, override := ByteLiteral("UNSIGNED-PAYLOAD"), None;
      } else if content.value == STREAMING {
        body := ByteLiteral(STREAMING);
      }
      var fullUrl := FullUrl();
      var names := Authorization.ParseSignedHeaders(auth);
      if fullUrl.None? || names.None? {
        return Failed;
      }
      r := SignatureIsValidCore(provided.value, scope.value.region, scope.value.service, ts.value, fullUrl.value,
                                override,
                                accessKey.value, secret, names.value, body, lib, cache);
    }

    /** The URL as the client saw it, from the target or with the host header. */
    method FullUrl() returns (r: Option<string>)
      ensures r == FullUri(View())
    {
      if uri == "" || uri[0] != '/' {
        return Some(uri);
      }
      assert uri[..1] == "/";
      var host := GetText(headers, "host");
      if host.None? {
        return None;
      }
      r := Some("https://" + host.value + uri);
    }

    /** `signature_is_valid_core`: signs the headers the client lists, and compares. */
    method SignatureIsValidCore(provided: string, region: string, service: string, ts: Timestamp, fullUrl: string,
                                override: Option<string>, accessKey: string, secret: string, names: seq<string>,
                                body: Bytes, lib: Libraries, cache: SigningKey.SigningKeyCache)
      returns (r: Outcome<bool>)
      modifies cache
      ensures lib.urlOf(fullUrl).None? ==> r == Panicked && cache.entries == old(cache.entries)
      ensures lib.urlOf(fullUrl).Some? ==>
        var a := AwsSign(verb, lib.urlOf(fullUrl).value, ts, region, accessKey, service,
                         Collect(headers, Listed(names)), body, override);
        && r == Compared(cache.crypto, a, provided, secret, KeysOf(cache.crypto, old(cache.entries)))
        && cache.entries == KeysAfter(cache.crypto, old(cache.entries), KeyInputs(a, secret))
    {
      var url := lib.urlOf(fullUrl);
      if url.None? {
        return Panicked;
      }
      var a := AwsSign(verb, url.value, ts, region, accessKey, service, Collect(headers, Listed(names)), body,
                       override);
      var items := Iterate(a.headers);
      var own := Sign(a, secret, items, cache);
      var computed := Authorization.ParseSignature(own);
      r := Done((if computed.Some? then computed.value else "") == provided);
    }
  }
}
