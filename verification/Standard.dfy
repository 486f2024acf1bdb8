/**
 AWS Signature Version 4 as a storage service reads it: "Signature Calculations for the Authorization Header:
 Transferring Payload in a Single Chunk", tasks 1 to 3, and for repeated headers "Create a signed AWS API
 request", step 1.  Nothing here refers to the proxy.
 */
module Standard {
  import opened Text
  import opened Crypto
  import opened Headers
  import opened ByteOrder
  import Hex
  import Sorting

  // ---------------------------------------------------------------- URI encoding

  predicate IsUnreserved(b: byte) {
    || 'a' as int <= b <= 'z' as int || 'A' as int <= b <= 'Z' as int || '0' as int <= b <= '9' as int
    || b as char in "-._~"
  }

  /** `UriEncode`, byte by byte: every byte that is not unreserved is `%` and two upper-case digits. */
  function UriEncode(bytes: Bytes, encodeSlash: bool): string {
    if bytes == [] then ""
    else
      var b := bytes[0];
      (if IsUnreserved(b) || (b as char == '/' && !encodeSlash) then [b as char]
       else ['%', "0123456789ABCDEF"[b / 16], "0123456789ABCDEF"[b % 16]]) + UriEncode(bytes[1..], encodeSlash)
  }

  // ---------------------------------------------------------------- The canonical query string

  type Pair = (string, string)

  function EncodedPair(p: Pair): Pair {
    (UriEncode(Utf8(p.0), true), UriEncode(Utf8(p.1), true))
  }

  function Field(p: Pair): string {
    p.0 + "=" + p.1
  }

  /** By the encoded name, and by the encoded value where the names are the same. */
  ghost predicate PairLe(p: Pair, q: Pair) {
    if p.0 == q.0 then ByteLe(Utf8(p.1), Utf8(q.1)) else ByteLe(Utf8(p.0), Utf8(q.0))
  }

  /** The encoded parameters in the order of the standard. */
  ghost predicate InOrder(fields: seq<Pair>, pairs: seq<Pair>) {
    && multiset(fields) == multiset(Sorting.Map(pairs, EncodedPair))
    && forall i, j :: 0 <= i < j < |fields| ==> PairLe(fields[i], fields[j])
  }

  ghost predicate IsQuery(pairs: seq<Pair>, query: string) {
    exists fields :: InOrder(fields, pairs) && query == Join(Sorting.Map(fields, Field), '&')
  }

  // ---------------------------------------------------------------- The canonical headers

  /** Sequential blanks become one. */
  function Folded(s: string): string {
    if |s| >= 2 && s[0] == ' ' && s[1] == ' ' then Folded(s[1..])
    else if s == "" then ""
    else [s[0]] + Folded(s[1..])
  }

  function FoldedTrim(s: string): string {
    Folded(Trim(s))
  }

  /** The values of a header, trimmed and folded, separated by commas. */
  function Value(h: Headers, name: string): string {
    Join(Sorting.Map(Texts(h, name), FoldedTrim), ',')
  }

  /** One line for every signed header, each with its line end. */
  function HeaderLines(names: seq<string>, value: string -> string): string {
    if names == [] then "" else names[0] + ":" + value(names[0]) + "\n" + HeaderLines(names[1..], value)
  }

  // ---------------------------------------------------------------- The signature

  function CanonicalRequest(verb: string, path: string, query: string, names: seq<string>, value: string -> string,
                            payload: string): string
  {
    verb + "\n" + path + "\n" + query + "\n" + HeaderLines(names, value) + "\n" + Join(names, ';') + "\n" + payload
  }

  function Scope(date: string, region: string, service: string): string {
    date + "/" + region + "/" + service + "/aws4_request"
  }

  function StringToSign(c: Primitives, ts: Timestamp, region: string, service: string, canonical: string): string {
    "AWS4-HMAC-SHA256" + "\n" + (ts.date + "T" + ts.clock + "Z") + "\n" + Scope(ts.date, region, service) + "\n"
      + Hex.Encode(c.sha256(Utf8(canonical)))
  }

  /** Each text keyed by the tag of the one before it. */
  function Tagged(c: Primitives, key: Bytes, texts: seq<string>): Bytes
    decreases |texts|
  {
    if texts == [] then key else Tagged(c, c.hmac(key, Utf8(texts[0])), texts[1..])
  }

  function SigningKey(c: Primitives, secret: string, date: string, region: string, service: string): Bytes {
    Tagged(c, Utf8("AWS4" + secret), [date, region, service, "aws4_request"])
  }

  function Signature(c: Primitives, key: Bytes, text: string): string {
    Hex.Encode(c.hmac(key, Utf8(text)))
  }

  function Authorization(accessKey: string, scope: string, names: seq<string>, signature: string): string {
    "AWS4-HMAC-SHA256 Credential=" + accessKey + "/" + scope + ",SignedHeaders=" + Join(names, ';')
      + ",Signature=" + signature
  }

  /** The same with a blank behind each comma. */
  function SpacedAuthorization(accessKey: string, scope: string, names: seq<string>, signature: string): string {
    "AWS4-HMAC-SHA256 Credential=" + accessKey + "/" + scope + ", SignedHeaders=" + Join(names, ';')
      + ", Signature=" + signature
  }

  /** Both forms are in use. */
  predicate IsAuthorization(auth: string, accessKey: string, scope: string, names: seq<string>, signature: string) {
    || auth == Authorization(accessKey, scope, names, signature)
    || auth == SpacedAuthorization(accessKey, scope, names, signature)
  }

  // ---------------------------------------------------------------- A request and its Authorization header

  /** A request as it arrives: its method, its URL's path and decoded parameters, and its header fields. */
  datatype Request = Request(verb: string, path: string, pairs: seq<Pair>, headers: Headers)

  datatype Account = Account(accessKey: string, secret: string, region: string)

  function Values(h: Headers): string -> string {
    name => Value(h, name)
  }

  /** The canonical request over these headers, with the payload hash that the request announces. */
  ghost predicate IsCanonical(r: Request, names: seq<string>, canonical: string) {
    var payload := GetText(r.headers, "x-amz-content-sha256");
    && payload.Some?
    && exists query :: IsQuery(r.pairs, query) &&
         canonical == CanonicalRequest(r.verb, r.path, query, names, Values(r.headers), payload.value)
  }

  /** The signature of the account for the request at this time, over these headers. */
  ghost predicate IsSignature(c: Primitives, r: Request, who: Account, ts: Timestamp, names: seq<string>,
                              signature: string)
  {
    exists canonical :: IsCanonical(r, names, canonical) &&
      signature == Signature(c, SigningKey(c, who.secret, ts.date, who.region, "s3"),
                             StringToSign(c, ts, who.region, "s3", canonical))
  }

  /** A list of header names to sign: each once, in ascending byte order, and each with a value. */
  ghost predicate IsNameList(names: seq<string>, h: Headers) {
    && Ascending(names) && (forall i, j :: 0 <= i < j < |names| ==> names[i] != names[j])
    && forall i :: 0 <= i < |names| ==> Texts(h, names[i]) != []
  }

  /** The host and every `x-amz-` header have to be signed. */
  predicate MustBeSigned(name: string) {
    name == "host" || (|name| >= 6 && name[..6] == "x-amz-")
  }

  /** The request carries the Authorization header of this account over these names. */
  ghost predicate Authentic(c: Primitives, r: Request, who: Account, ts: Timestamp, names: seq<string>) {
    && IsNameList(names, r.headers)
    && (forall name :: MustBeSigned(name) && Texts(r.headers, name) != [] ==> name in names)
    && GetText(r.headers, "x-amz-date") == Some(ts.date + "T" + ts.clock + "Z")
    && exists signature :: IsSignature(c, r, who, ts, names, signature) &&
         GetText(r.headers, "authorization")
           == Some(Authorization(who.accessKey, Scope(ts.date, who.region, "s3"), names, signature))
  }

  /** The announced payload hash admits this body. */
  predicate Admits(c: Primitives, payload: string, body: Bytes) {
    payload == "UNSIGNED-PAYLOAD" || payload == Hex.Encode(c.sha256(body))
  }
}
