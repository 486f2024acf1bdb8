/**
 Where a request goes upstream: the peer it is sent to, and the rewritten authority, path and query.
 */
module Upstream {
  import opened Text
  import opened Headers
  import opened ConfigStore
  import opened PathSplit

  // ---------------------------------------------------------------- Peer and authority

  function Style(config: Option<Config>): string {
    if config.Some? && config.value.style.Some? then config.value.style.value else "virtual"
  }

  /** The host of the bucket's storage service. */
  function Base(config: Option<Config>, cosEndpoint: string): string {
    if config.Some? then config.value.host else cosEndpoint
  }

  function HostFor(bucket: string, config: Option<Config>, cosEndpoint: string): string {
    if config.Some? && Style(config) == "path" then config.value.host else bucket + "." + Base(config, cosEndpoint)
  }

  datatype Peer = Peer(host: string, port: nat, tls: bool)

  /** `upstream_peer`. */
  function PeerFor(bucket: string, config: Option<Config>, cosEndpoint: string): Peer {
    Peer(HostFor(bucket, config, cosEndpoint),
         if config.Some? then config.value.port else 443,
         if config.Some? && config.value.tls.Some? then config.value.tls.value else true)
  }

  function Decimal(n: nat): string {
    (if n < 10 then "" else Decimal(n / 10)) + [('0' as int + n % 10) as char]
  }

  function WithPort(host: string, port: nat): string {
    if port == 443 then host else host + ":" + Decimal(port)
  }

  /** The authority, which is also the new host header. */
  function AuthorityFor(bucket: string, config: Option<Config>, cosEndpoint: string): string {
    match config
    case Some(cfg) =>
      var host := if Style(config) == "path" then cfg.host else bucket + "." + cfg.host;
      if cfg.port == 443 then host else host + ":" + Decimal(cfg.port)
    case None => bucket + "." + cosEndpoint
  }

  // ---------------------------------------------------------------- The port as text

  predicate IsNumber(s: string) {
    s != "" && forall i :: 0 <= i < |s| ==> '0' <= s[i] <= '9'
  }

  /** The number that decimal digits denote, read from the left. */
  function Number(digits: string, before: nat): nat
    requires forall i :: 0 <= i < |digits| ==> '0' <= digits[i] <= '9'
  {
    if digits == "" then before
    else Number(digits[1..], 10 * before + (digits[0] as int - '0' as int))
  }

  lemma {:induction false} NumberOfMore(digits: string, last: char, before: nat)
    requires forall i :: 0 <= i < |digits| ==> '0' <= digits[i] <= '9'
    requires '0' <= last <= '9'
    ensures forall i :: 0 <= i < |digits + [last]| ==> '0' <= (digits + [last])[i] <= '9'
    ensures Number(digits + [last], before) == 10 * Number(digits, before) + (last as int - '0' as int)
  {
    if digits != "" {
      assert (digits + [last])[1..] == digits[1..] + [last];
      NumberOfMore(digits[1..], last, 10 * before + (digits[0] as int - '0' as int));
    } else {
      assert (digits + [last])[1..] == "";
    }
  }

  /** The digits of a number, read from the left, give it back, and only zero starts with a zero. */
  lemma {:induction false} DecimalReads(n: nat)
    ensures IsNumber(Decimal(n)) && Number(Decimal(n), 0) == n
    ensures Decimal(n)[0] == '0' <==> n == 0
  {
    var last := ('0' as int + n % 10) as char;
    if n < 10 {
      assert Decimal(n) == [last];
      assert [last][1..] == "";
    } else {
      DecimalReads(n / 10);
      NumberOfMore(Decimal(n / 10), last, 0);
    }
  }

  /** The place of the last colon, or None. */
  function LastColon(s: string): (r: Option<nat>)
    ensures r.Some? ==> r.value < |s| && s[r.value] == ':' && ':' !in s[r.value + 1..]
    ensures r.None? ==> ':' !in s
  {
    if s == "" then None
    else
      match LastColon(s[1..])
      case Some(i) => (assert s[1..][i + 1..] == s[i + 2..]; Some(i + 1))
      case None => if s[0] == ':' then Some(0) else (assert s == [s[0]] + s[1..]; None)
  }

  /** An authority as it is read: cut at its last colon, with port 443 where there is none. */
  function ReadAuthority(authority: string): Option<(string, nat)> {
    match LastColon(authority)
    case None => Some((authority, 443))
    case Some(i) =>
      if IsNumber(authority[i + 1..]) then Some((authority[..i], Number(authority[i + 1..], 0))) else None
  }

  lemma LastColonIs(host: string, port: string)
    requires ':' !in port
    ensures LastColon(host + ":" + port) == Some(|host|)
  {
    assert (host + ":" + port)[|host| + 1..] == port;
    LastColonAt(host + ":" + port, |host|);
  }

  lemma {:induction false} LastColonAt(s: string, i: nat)
    requires i < |s| && s[i] == ':' && ':' !in s[i + 1..]
    ensures LastColon(s) == Some(i)
  {
    if i > 0 {
      assert s[1..][i..] == s[i + 1..] && s[1..][i - 1] == ':';
      LastColonAt(s[1..], i - 1);
    }
  }

  /** A printed authority reads back its host and port, unless it is left without its port and the host has a colon. */
  lemma AuthorityReadsBack(host: string, port: nat)
    ensures ReadAuthority(WithPort(host, port)) == Some((host, port)) <==> port != 443 || ':' !in host
  {
    if port != 443 {
      var digits := Decimal(port);
      var authority := host + ":" + digits;
      DecimalReads(port);
      LastColonIs(host, digits);
      assert authority[..|host|] == host && authority[|host| + 1..] == digits;
    } else if ':' in host {
      assert LastColon(host).Some?;
      assert |host[..LastColon(host).value]| < |host|;
    }
  }

  /** The authority names exactly the host and the port of the peer, for hosts without a colon. */
  lemma AuthorityNamesPeer(bucket: string, config: Option<Config>, cosEndpoint: string)
    requires ':' !in bucket && ':' !in Base(config, cosEndpoint)
    ensures
      var peer := PeerFor(bucket, config, cosEndpoint);
      ReadAuthority(AuthorityFor(bucket, config, cosEndpoint)) == Some((peer.host, peer.port))
  {
    AuthorityReadsBack(HostFor(bucket, config, cosEndpoint), PeerFor(bucket, config, cosEndpoint).port);
  }

  /**
   Where requests go by default: to the bucket's own host under the configured or the global endpoint, over
   TLS, with the path as it is; "path" names the host alone and puts the bucket into the path.
   */
  lemma Defaults(bucket: string, config: Option<Config>, cosEndpoint: string, path: string)
    ensures
      var peer := PeerFor(bucket, config, cosEndpoint);
      var target := UpstreamPath(Style(config), bucket, path);
      match config
      case None => peer == Peer(bucket + "." + cosEndpoint, 443, true) && target == path
      case Some(cfg) =>
        && peer.port == cfg.port && (peer.tls <==> cfg.tls != Some(false))
        && (cfg.style == None || cfg.style == Some("virtual") ==>
              peer.host == bucket + "." + cfg.host && target == path)
        && (cfg.style == Some("path") ==>
              peer.host == cfg.host && target == "/" + bucket + (if path == "/" then "" else path))
  {
    assert "/" + bucket + "" == "/" + bucket;
  }

  /**
   In every run of concurrent requests: the peer chosen from one reading of the shared configuration and
   the authority written from any later reading name the same host and port.
   */
  lemma PeerMeetsAuthority(initial: map<string, Config>, events: seq<Event>, more: seq<Event>, bucket: string,
                           cosEndpoint: string)
    ensures
      var peer := PeerFor(bucket, Run(Start(initial), events).Find(bucket), cosEndpoint);
      AuthorityFor(bucket, Run(Start(initial), events + more).Find(bucket), cosEndpoint)
        == WithPort(peer.host, peer.port)
  {
    RunKeeps(initial, Start(initial), events);
    RunKeeps(initial, Start(initial), events + more);
    var first, later := Run(Start(initial), events), Run(Start(initial), events + more);
    if bucket in initial {
      assert first.store[bucket].Bare() == later.store[bucket].Bare();
    }
  }

  /** The same for a request's own cached copy and its second reading. */
  lemma CachedPeerMeetsAuthority(initial: map<string, Config>, events: seq<Event>, id: nat, cosEndpoint: string)
    requires Run(Start(initial), events).StageOf(id).Routed?
    ensures
      var stage := Run(Start(initial), events).StageOf(id);
      var peer := PeerFor(stage.bucket, Some(stage.copy), cosEndpoint);
      AuthorityFor(stage.bucket, stage.current, cosEndpoint) == WithPort(peer.host, peer.port)
  {
    RunKeeps(initial, Start(initial), events);
    var stage := Run(Start(initial), events).StageOf(id);
    assert StageOk(initial, Run(Start(initial), events).store, stage);
    assert stage.copy.Bare() == stage.current.value.Bare();
  }

  // ---------------------------------------------------------------- The path

  /** The rewritten path: the object path for virtual hosting, bucket and path otherwise. */
  function UpstreamPath(style: string, bucket: string, path: string): string {
    if style == "virtual" then path
    else if path == "/" then "/" + bucket
    else "/" + bucket + path
  }

  /** The bucket and object path a storage service at `base` finds in a host and path. */
  function Addressed(base: string, host: string, path: string): Option<(string, string)> {
    if host == base then
      if path == "" || path[0] != '/' then None
      else
        var i := IndexOf(path[1..], '/');
        Some((path[1..][..i], if i == |path| - 1 then "/" else path[1..][i..]))
    else if |host| > |base| + 1 && host[|host| - |base| - 1..] == "." + base then
      Some((host[..|host| - |base| - 1], path))
    else None
  }

  lemma AddressedByPath(base: string, bucket: string, path: string)
    requires bucket != "" && '/' !in bucket
    ensures path == "" ==> Addressed(base, base, "/" + bucket + path) == Some((bucket, "/"))
    ensures path != "" && path[0] == '/' ==> Addressed(base, base, "/" + bucket + path) == Some((bucket, path))
    ensures path != "" && path[0] != '/' ==>
      var a := Addressed(base, base, "/" + bucket + path);
      a.Some? && a.value.0 != bucket
  {
    var whole := "/" + bucket + path;
    var inner := bucket + path;
    assert whole[1..] == inner;
    if path == "" {
      assert inner == bucket;
      IndexOfAbsent(bucket, '/');
    } else if path[0] == '/' {
      assert inner == bucket + ['/'] + path[1..];
      IndexOfConcat(bucket, '/', path[1..]);
      assert inner[|bucket|..] == path;
    } else {
      var i := IndexOf(inner, '/');
      forall k | 0 <= k <= |bucket| ensures inner[k] != '/' {
        if k < |bucket| { assert inner[k] == bucket[k]; }
      }
      assert |inner[..i]| == i > |bucket|;
    }
  }

  lemma AddressedByHost(base: string, bucket: string, path: string)
    requires bucket != ""
    ensures Addressed(base, bucket + "." + base, path) == Some((bucket, path))
  {
    var host := bucket + "." + base;
    assert host[|host| - |base| - 1..] == "." + base;
    assert host[..|host| - |base| - 1] == bucket;
  }

  /** A path-style target for the path that `parse_path` found: right exactly when the path was right. */
  lemma PathStyleAddress(base: string, input: string)
    requires IsPath(input) && ParsePath(input).Parts?
    ensures
      var target := UpstreamPath("path", Bucket(input), ParsePath(input).path);
      Addressed(base, base, target) == Some((Bucket(input), ObjectPath(input))) <==> FirstIsReal(input)
  {
    SplitExactly(input);
    var bucket, path := Bucket(input), ParsePath(input).path;
    if !FirstIsReal(input) { WrongSplitIsLonger(input); }
    if path == "/" {
      AddressedByPath(base, bucket, "");
      assert "/" + bucket + "" == "/" + bucket;
    } else {
      AddressedByPath(base, bucket, path);
    }
  }

  /** Is the style one of those for which host and path are computed alike? */
  predicate KnownStyle(style: string) {
    style == "path" || style == "virtual"
  }

  lemma OtherStyleAddress(base: string, style: string, input: string)
    requires IsPath(input) && ParsePath(input).Parts? && !KnownStyle(style)
    ensures
      var bucket := Bucket(input);
      Addressed(base, bucket + "." + base, UpstreamPath(style, bucket, ParsePath(input).path))
        != Some((bucket, ObjectPath(input)))
  {
    var bucket, path := Bucket(input), ParsePath(input).path;
    AddressedByHost(base, bucket, UpstreamPath(style, bucket, path));
    SplitExactly(input);
    if !FirstIsReal(input) { WrongSplitIsLonger(input); }
  }

  /**
   The rewrite keeps the addressed object if and only if the path was split at its own slash and the style
   is "path" or "virtual" (the default); any other style names the bucket twice.
   */
  lemma RewriteKeepsObject(config: Option<Config>, cosEndpoint: string, input: string)
    requires IsPath(input) && ParsePath(input).Parts?
    ensures
      var bucket := Bucket(input);
      Addressed(Base(config, cosEndpoint), HostFor(bucket, config, cosEndpoint),
                UpstreamPath(Style(config), bucket, ParsePath(input).path))
        == Some((bucket, ObjectPath(input)))
      <==> FirstIsReal(input) && KnownStyle(Style(config))
  {
    var bucket, path, base, style := Bucket(input), ParsePath(input).path, Base(config, cosEndpoint), Style(config);
    SplitExactly(input);
    if style == "path" {
      PathStyleAddress(base, input);
    } else if style == "virtual" {
      AddressedByHost(base, bucket, path);
    } else {
      OtherStyleAddress(base, style, input);
    }
  }

  /** Path style reproduces the request path, except that the root of a bucket loses its trailing slash. */
  lemma PathStyleReproduces(input: string)
    requires IsPath(input) && FirstIsReal(input)
    ensures
      ParsePath(input).Parts? &&
      UpstreamPath("path", Bucket(input), ParsePath(input).path)
        == if Remainder(input) == "" then "/" + Bucket(input) else input
  {
    SplitExactly(input);
    PathStyleOf(Bucket(input), ObjectPath(input));
    if Remainder(input) != "" {
      RemainderOccurs(input);
      Regrouped("/" + Bucket(input), "/", Remainder(input));
    }
  }

  lemma PathStyleOf(bucket: string, path: string)
    ensures UpstreamPath("path", bucket, path) == if path == "/" then "/" + bucket else "/" + bucket + path
  {
  }

  // ---------------------------------------------------------------- The query of a presigned URL

  predicate IsSigningField(field: string) {
    StartsWith(field, "X-Amz-")
  }

  /** `filter`: the fields that are kept, in order. */
  function Kept(fields: seq<string>, drop: string -> bool): seq<string> {
    if fields == [] then []
    else if drop(fields[0]) then Kept(fields[1..], drop)
    else [fields[0]] + Kept(fields[1..], drop)
  }

  /** The query without the signing parameters; an empty one is dropped altogether. */
  function Cleaned(query: Option<string>): Option<string> {
    var q := if query.Some? then query.value else "";
    var cleaned := Join(Kept(Split(q, '&'), IsSigningField), '&');
    if cleaned == "" then None else Some(cleaned)
  }

  /** `part` arises from `whole` by leaving out elements. */
  ghost predicate IsSubsequence(part: seq<string>, whole: seq<string>)
    decreases |whole|
  {
    part == [] || (whole != [] && (IsSubsequence(part, whole[1..])
                                   || (part[0] == whole[0] && IsSubsequence(part[1..], whole[1..]))))
  }

  /** Exactly the dropped elements are gone, and the others keep their order and number. */
  lemma {:induction false} KeptFacts(fields: seq<string>, drop: string -> bool)
    ensures IsSubsequence(Kept(fields, drop), fields)
    ensures forall f :: multiset(Kept(fields, drop))[f] == if drop(f) then 0 else multiset(fields)[f]
  {
    if fields != [] {
      KeptFacts(fields[1..], drop);
      assert fields == [fields[0]] + fields[1..];
      if !drop(fields[0]) {
        assert Kept(fields, drop)[1..] == Kept(fields[1..], drop);
      }
    }
  }

  lemma {:induction false} KeptFree(fields: seq<string>, drop: string -> bool, c: char)
    requires FreeOf(fields, c)
    ensures FreeOf(Kept(fields, drop), c)
  {
    if fields != [] {
      FreeOfTail(fields, c);
      KeptFree(fields[1..], drop, c);
    }
  }

  /**
   Cleaning a query: the fields of the result are those of the original that do not start with `X-Amz-`,
   in their order; no query is left exactly when they amount to nothing.
   */
  lemma CleanedFields(q: string)
    ensures
      var kept := Kept(Split(q, '&'), IsSigningField);
      && (Cleaned(Some(q)).None? <==> kept == [] || kept == [""])
      && (Cleaned(Some(q)).Some? ==> Split(Cleaned(Some(q)).value, '&') == kept)
      && IsSubsequence(kept, Split(q, '&'))
      && forall f :: multiset(kept)[f] == if |f| >= 6 && f[..6] == "X-Amz-" then 0 else multiset(Split(q, '&'))[f]
  {
    var kept := Kept(Split(q, '&'), IsSigningField);
    KeptFacts(Split(q, '&'), IsSigningField);
    assert |"X-Amz-"| == 6;
    SplitFreeOf(q, '&');
    KeptFree(Split(q, '&'), IsSigningField, '&');
    if kept != [] {
      SplitJoin(kept, '&');
      assert Split("", '&') == [""];
    }
  }

  // ---------------------------------------------------------------- The request in place

  function QueryPart(query: Option<string>): string {
    if query.Some? && query.value != "" then "?" + query.value else ""
  }

  /** What the HTTP library accepts: a path and query as a URI, an authority, a path and query behind one. */
  datatype UriRules = UriRules(uri: string -> bool, authority: string -> bool, target: string -> bool)

  /** A request target; one that is only a path with a query has no scheme and no authority. */
  datatype Uri = Uri(scheme: Option<string>, authority: Option<string>, path: string, query: Option<string>)

  datatype Rewritten = Failed | Panicked | To(authority: string, target: string)

  /** The query that goes upstream. */
  function UpstreamQuery(presigned: bool, query: Option<string>): Option<string> {
    if presigned then Cleaned(query) else query
  }

  /** The new authority and the new path with its query, or the step that refuses them. */
  function RewriteOf(rules: UriRules, presigned: bool, path: string, query: Option<string>, store: map<string, Config>,
                     cosEndpoint: string): Rewritten
  {
    var q := UpstreamQuery(presigned, query);
    if presigned && !rules.uri(path + QueryPart(q)) then Failed
    else
      match ParsePath(path)
      case Invalid => Failed
      case Panics => Panicked
      case Parts(bucket, inner) =>
        var config := if bucket in store then Some(store[bucket]) else None;
        var authority := AuthorityFor(bucket, config, cosEndpoint);
        var target := UpstreamPath(Style(config), bucket, inner) + QueryPart(q);
        if !rules.authority(authority) then Failed
        else if !rules.target(target) then Panicked
        else To(authority, target)
  }

  /** Is the cleaned target of a presigned request refused? */
  predicate TargetRefused(rules: UriRules, presigned: bool, uri: Uri) {
    presigned && !rules.uri(uri.path + QueryPart(Cleaned(uri.query)))
  }

  /** The target before it is replaced: a presigned one keeps its path and its cleaned query only. */
  function TargetBefore(presigned: bool, uri: Uri): Uri {
    if presigned then Uri(None, None, uri.path, Cleaned(uri.query)) else uri
  }

  /** The headers before the new host is written. */
  function HeadersBefore(presigned: bool, headers: Headers): Headers {
    Remove(if presigned then Remove(headers, AUTHORIZATION) else headers, ENCODING)
  }

  const ENCODING := "accept-encoding"
  const HOST := "host"

  /** The upstream request header: its target and its header fields. */
  class UpstreamRequest {
    var uri: Uri
    var headers: Headers

    constructor (uri: Uri, headers: Headers)
      ensures this.uri == uri && this.headers == headers
    {
      this.uri, this.headers := uri, headers;
    }

    /**
     Removes the Authorization header and the signing parameters of a presigned URL; a target that is no
     longer valid is an error, and stays.
     */
    method CleanPresigned(rules: UriRules) returns (ok: bool)
      modifies this
      ensures ok == !TargetRefused(rules, true, old(uri))
      ensures uri == if ok then TargetBefore(true, old(uri)) else old(uri)
      ensures headers == Remove(old(headers), AUTHORIZATION)
    {
      var q := if uri.query.Some? then uri.query.value else "";
      var cleaned := Join(Kept(Split(q, '&'), IsSigningField), '&');
      headers := Remove(headers, AUTHORIZATION);
      var newPathAndQuery := if cleaned == "" then uri.path else uri.path + "?" + cleaned;
      Regrouped(uri.path, "?", cleaned);
      assert uri.path + "" == uri.path;
      ok := rules.uri(newPathAndQuery);
      if ok {
        uri := Uri(None, None, uri.path, if cleaned == "" then None else Some(cleaned));
      }
    }

    /** `upstream_request_filter` up to the new host header: where the request will go. */
    method Rewrite(rules: UriRules, presigned: bool, store: Store, cosEndpoint: string) returns (r: Rewritten)
      modifies this
      ensures r == RewriteOf(rules, presigned, old(uri).path, old(uri).query, store.entries, cosEndpoint)
      ensures r.To? ==>
        && uri.scheme == Some("https") && uri.authority == Some(r.authority)
        && uri.path + QueryPart(uri.query) == r.target
        && uri.query != Some("") && QueryPart(uri.query) == QueryPart(UpstreamQuery(presigned, old(uri).query))
        && headers == Insert(HeadersBefore(presigned, old(headers)), HOST, ToText(r.authority))
      ensures TargetRefused(rules, presigned, old(uri))
           ==> uri == old(uri) && headers == Remove(old(headers), AUTHORIZATION)
      ensures !r.To? && !TargetRefused(rules, presigned, old(uri)) ==>
        uri == TargetBefore(presigned, old(uri)) && headers == HeadersBefore(presigned, old(headers))
    {
      if presigned {
        var ok := CleanPresigned(rules);
        if !ok {
          return Failed;
        }
      }
      headers := Remove(headers, ENCODING);
      var parsed := ParsePath(uri.path);
      if parsed.Invalid? {
        return Failed;
      } else if parsed.Panics? {
        return Panicked;
      }
      var bucket := parsed.bucket;
      var config := if bucket in store.entries then Some(store.entries[bucket]) else None;
      var newPath := UpstreamPath(Style(config), bucket, parsed.path);
      var newAuthority := AuthorityFor(bucket, config, cosEndpoint);
      if !rules.authority(newAuthority) {
        return Failed;
      } else if !rules.target(newPath + QueryPart(uri.query)) {
        return Panicked;
      }
      r := To(newAuthority, newPath + QueryPart(uri.query));
      uri := Uri(Some("https"), Some(newAuthority), newPath, if uri.query == Some("") then None else uri.query);
      headers := Insert(headers, HOST, ToText(newAuthority));
    }
  }

  /** The header fields that the rewrite is not about, in order. */
  function Untouched(presigned: bool, h: Headers): Headers {
    if h == [] then []
    else if h[0].name in {ENCODING, HOST} || (presigned && h[0].name == AUTHORIZATION) then Untouched(presigned, h[1..])
    else [h[0]] + Untouched(presigned, h[1..])
  }

  lemma {:induction false} UntouchedByRemove(presigned: bool, h: Headers, name: string)
    requires name in {ENCODING, HOST} || (presigned && name == AUTHORIZATION)
    ensures Untouched(presigned, Remove(h, name)) == Untouched(presigned, h)
  {
    if h != [] {
      UntouchedByRemove(presigned, h[1..], name);
      if h[0].name != name { assert Remove(h, name)[1..] == Remove(h[1..], name); }
    }
  }

  lemma {:induction false} UntouchedByInsert(presigned: bool, h: Headers, text: Option<string>)
    ensures Untouched(presigned, Insert(h, HOST, text)) == Untouched(presigned, h)
  {
    if h != [] {
      if h[0].name == HOST {
        UntouchedByRemove(presigned, h[1..], HOST);
        assert Insert(h, HOST, text)[1..] == Remove(h[1..], HOST);
      } else {
        UntouchedByInsert(presigned, h[1..], text);
        assert Insert(h, HOST, text)[1..] == Insert(h[1..], HOST, text);
      }
    }
  }

  /**
   Of the header fields exactly these change: the first host is the new one, no encoding is accepted any more,
   a presigned request loses its Authorization header; all others keep their order, number and values.
   */
  lemma RewrittenHeaders(presigned: bool, h: Headers, authority: string)
    ensures
      var after := Insert(HeadersBefore(presigned, h), HOST, ToText(authority));
      && (IsVisible(authority) ==> GetText(after, HOST) == Some(authority))
      && Get(after, ENCODING).None?
      && Get(after, AUTHORIZATION) == (if presigned then None else Get(h, AUTHORIZATION))
      && Untouched(presigned, after) == Untouched(presigned, h)
  {
    var cleaned := if presigned then Remove(h, AUTHORIZATION) else h;
    var before := Remove(cleaned, ENCODING);
    forall name | name in {HOST, ENCODING, AUTHORIZATION}
      ensures Get(Insert(before, HOST, ToText(authority)), name)
           == if name == HOST then Some(Header(HOST, ToText(authority)))
              else if name == ENCODING then None
              else if presigned then None else Get(h, AUTHORIZATION)
    {
      GetAfterInsert(before, HOST, ToText(authority), name);
      GetAfterRemove(cleaned, ENCODING, name);
      GetAfterRemove(h, AUTHORIZATION, name);
    }
    UntouchedByInsert(presigned, before, ToText(authority));
    UntouchedByRemove(presigned, cleaned, ENCODING);
    if presigned { UntouchedByRemove(presigned, h, AUTHORIZATION); }
  }

  /**
   A well-split request is rewritten exactly when the HTTP library accepts the texts; then it keeps its query,
   goes to its bucket's host and port, and, in a known style, addresses the same object.
   */
  lemma RewriteKeepsEverything(rules: UriRules, presigned: bool, path: string, query: Option<string>,
                               store: map<string, Config>, cosEndpoint: string)
    requires IsPath(path) && FirstIsReal(path)
    ensures
      var bucket, q := Bucket(path), UpstreamQuery(presigned, query);
      var config := if bucket in store then Some(store[bucket]) else None;
      var authority := WithPort(HostFor(bucket, config, cosEndpoint), if config.Some? then config.value.port else 443);
      var newPath := UpstreamPath(Style(config), bucket, ObjectPath(path));
      && RewriteOf(rules, presigned, path, query, store, cosEndpoint)
         == (if presigned && !rules.uri(path + QueryPart(q)) then Failed
             else if !rules.authority(authority) then Failed
             else if !rules.target(newPath + QueryPart(q)) then Panicked
             else To(authority, newPath + QueryPart(q)))
      && (KnownStyle(Style(config)) ==>
            Addressed(Base(config, cosEndpoint), HostFor(bucket, config, cosEndpoint), newPath)
              == Some((bucket, ObjectPath(path))))
  {
    SplitExactly(path);
    var config := if Bucket(path) in store then Some(store[Bucket(path)]) else None;
    RewriteKeepsObject(config, cosEndpoint, path);
  }
}
