/**
 The derived signing key and its process-wide cache.

 The cache is addressed by one string, `date:region:service:secret`.  It is transparent exactly for
 families of inputs on which that string is injective; regions and services without a colon are one.
 */
module SigningKey {
  import opened Text
  import opened Crypto
  import Memo
  import Standard

  datatype Inputs = Inputs(date: string, region: string, service: string, secret: string) {
    predicate Valid() {
      |date| == 8 && IsDecimal(date)
    }

    predicate ColonFree() {
      ':' !in region && ':' !in service
    }
  }

  /** Four chained keyed hashes. */
  function Chain(c: Primitives, secret: Bytes, date: Bytes, region: Bytes, service: Bytes, terminator: Bytes): Tag {
    var dateKey := c.hmac(secret, date);
    var regionKey := c.hmac(dateKey, region);
    var serviceKey := c.hmac(regionKey, service);
    c.hmac(serviceKey, terminator)
  }

  /** The derivation of AWS Signature Version 4: secret, date, region, service, terminator. */
  function Derive(c: Primitives, x: Inputs): Tag {
    Chain(c, Utf8("AWS4" + x.secret), Utf8(x.date), Utf8(x.region), Utf8(x.service), ByteLiteral("aws4_request"))
  }

  lemma TaggedIsChain(c: Primitives, key: Bytes, date: string, region: string, service: string, end: string)
    requires IsAscii(end)
    ensures Standard.Tagged(c, key, [date, region, service, end])
         == Chain(c, key, Utf8(date), Utf8(region), Utf8(service), ByteLiteral(end))
  {
    LiteralBytes(end);
    var dateKey := c.hmac(key, Utf8(date));
    var regionKey := c.hmac(dateKey, Utf8(region));
    OneMoreTag(c, key, date, [region, service, end]);
    OneMoreTag(c, dateKey, region, [service, end]);
    OneMoreTag(c, regionKey, service, [end]);
    OneMoreTag(c, c.hmac(regionKey, Utf8(service)), end, []);
    assert [date] + [region, service, end] == [date, region, service, end];
    assert [region] + [service, end] == [region, service, end];
    assert [service] + [end] == [service, end] && [end] + [] == [end];
  }

  lemma OneMoreTag(c: Primitives, key: Bytes, text: string, texts: seq<string>)
    ensures Standard.Tagged(c, key, [text] + texts) == Standard.Tagged(c, c.hmac(key, Utf8(text)), texts)
  {
    assert ([text] + texts)[1..] == texts;
  }

  /** Derivation as the standard writes it. */
  lemma DeriveIsStandard(c: Primitives, x: Inputs)
    ensures Derive(c, x) == Standard.SigningKey(c, x.secret, x.date, x.region, x.service)
  {
    TaggedIsChain(c, Utf8("AWS4" + x.secret), x.date, x.region, x.service, "aws4_request");
  }

  function CacheKey(x: Inputs): string {
    x.date + (":" + (x.region + ":" + (x.service + ":" + x.secret)))
  }

  function Retained(entries: map<string, Bytes>, date: string): map<string, Bytes> {
    map k | k in entries && StartsWith(k, date) :: entries[k]
  }

  lemma RetainedIsKept(c: Primitives, entries: map<string, Bytes>, x: Inputs)
    ensures Retained(entries, x.date) == map k | k in entries && KeyTable(c).keep(x, k) :: entries[k]
  {
  }

  /** The cache as a memo table: a miss evicts every entry that does not start with its own date. */
  function KeyTable(c: Primitives): Memo.Table<Inputs, Bytes> {
    Memo.Table(CacheKey, x => Derive(c, x), (x: Inputs, k: string) => StartsWith(k, x.date))
  }

  /** A miss in terms of the two operations of the program: retain, then insert. */
  lemma MissStores(c: Primitives, entries: map<string, Bytes>, x: Inputs)
    requires CacheKey(x) !in entries
    ensures Memo.AfterCall(KeyTable(c), entries, x) == Retained(entries, x.date)[CacheKey(x) := Derive(c, x)]
    ensures Memo.Answer(KeyTable(c), entries, x) == Derive(c, x)
  {
    RetainedIsKept(c, entries, x);
  }

  /** The derivation as the program runs it, one tag after the other. */
  method DeriveKey(crypto: Primitives, x: Inputs) returns (key: Bytes)
    ensures key == Derive(crypto, x)
  {
    var secret := "AWS4" + x.secret;
    key := crypto.hmac(Utf8(secret), Utf8(x.date));
    key := crypto.hmac(key, Utf8(x.region));
    key := crypto.hmac(key, Utf8(x.service));
    key := crypto.hmac(key, ByteLiteral("aws4_request"));
  }

  /** `SIGNING_KEY_CACHE` with the function that reads and fills it. */
  class SigningKeyCache {
    const crypto: Primitives
    var entries: map<string, Bytes>

    constructor (crypto: Primitives)
      ensures this.crypto == crypto && entries == map[]
    {
      this.crypto := crypto;
      entries := map[];
    }

    /** `signing_key`: a hit returns a copy; a miss derives, evicts every other date and stores. */
    method SigningKey(x: Inputs) returns (key: Bytes)
      modifies this
      ensures key == Memo.Answer(KeyTable(crypto), old(entries), x)
      ensures entries == Memo.AfterCall(KeyTable(crypto), old(entries), x)
    {
      var cacheKey := CacheKey(x);
      if cacheKey in entries {
        key := entries[cacheKey];
        return;
      }
      key := DeriveKey(crypto, x);
      MissStores(crypto, entries, x);
      Retain(x.date);
      entries := entries[cacheKey := key];
    }

    /** `retain(|k, _| k.starts_with(&date_str))`. */
    method Retain(date: string)
      modifies this
      ensures entries == Retained(old(entries), date)
    {
      entries := map k | k in entries && StartsWith(k, date) :: entries[k];
    }
  }

  lemma DateOfKey(x: Inputs)
    requires x.Valid()
    ensures |CacheKey(x)| >= 8 && CacheKey(x)[..8] == x.date
  {
  }

  /** After a miss the cache holds nothing stored for another date. */
  lemma MissLeavesOneDate(c: Primitives, entries: map<string, Bytes>, x: Inputs, y: Inputs)
    requires x.Valid() && y.Valid() && CacheKey(x) !in entries
    requires CacheKey(y) in Memo.AfterCall(KeyTable(c), entries, x)
    ensures y.date == x.date
  {
    DateOfKey(x);
    DateOfKey(y);
    assert CacheKey(y) == CacheKey(x) || StartsWith(CacheKey(y), x.date);
  }

  // ---------------------------------------------------------------- A primitive that separates two inputs

  function Mark(n: byte): (t: Tag)
    ensures t[0] == n
  {
    [n] + seq(31, _ => 0)
  }

  /** The first byte of the next tag, from the first byte of the key and two tests of the message. */
  function NextMark(first: byte, isRegion: bool, isService: bool): byte {
    if first == 65 then 1
    else if first == 1 then (if isRegion then 2 else 3)
    else if first == 2 && isService then 4
    else if first == 2 || first == 3 then 5
    else if first == 4 then 6
    else 7
  }

  /** A keyed function that tells the region and the service of `a` from every other pair. */
  function Telling(a: Inputs, k: Bytes, m: Bytes): Tag {
    Mark(NextMark(if |k| == 0 then 0 else k[0], m == Utf8(a.region), m == Utf8(a.service)))
  }

  function Distinguishing(a: Inputs): Primitives {
    Primitives((k: Bytes, m: Bytes) => Telling(a, k, m), (d: Bytes) => Mark(0))
  }

  lemma SecretKeyStart(secret: string)
    ensures |Utf8("AWS4" + secret)| > 0 && Utf8("AWS4" + secret)[0] == 65
  {
    assert ("AWS4" + secret)[0] == 'A';
  }

  lemma EqualTextEqualBytes(s: string, t: string)
    ensures Utf8(s) == Utf8(t) <==> s == t
  {
    if Utf8(s) == Utf8(t) { Utf8Injective(s, t); }
  }

  lemma ChainUnderDistinguishing(a: Inputs, secret: Bytes, date: Bytes, region: Bytes, service: Bytes,
                                 terminator: Bytes)
    requires |secret| > 0 && secret[0] == 65
    ensures Chain(Distinguishing(a), secret, date, region, service, terminator)[0]
         == if region == Utf8(a.region) && service == Utf8(a.service) then 6 else 7
  {
  }

  lemma DeriveUnderDistinguishing(a: Inputs, b: Inputs)
    ensures Derive(Distinguishing(a), b)[0] == if b.region == a.region && b.service == a.service then 6 else 7
  {
    SecretKeyStart(b.secret);
    EqualTextEqualBytes(b.region, a.region);
    EqualTextEqualBytes(b.service, a.service);
    ChainUnderDistinguishing(a, Utf8("AWS4" + b.secret), Utf8(b.date), Utf8(b.region), Utf8(b.service),
                             ByteLiteral("aws4_request"));
  }

  lemma SameKeySameDate(a: Inputs, b: Inputs)
    requires a.Valid() && b.Valid() && CacheKey(a) == CacheKey(b)
    ensures a.date == b.date
    ensures a.region + ":" + (a.service + ":" + a.secret) == b.region + ":" + (b.service + ":" + b.secret)
  {
    DateOfKey(a);
    DateOfKey(b);
    assert CacheKey(a)[9..] == a.region + ":" + (a.service + ":" + a.secret);
    assert CacheKey(b)[9..] == b.region + ":" + (b.service + ":" + b.secret);
  }

  lemma SameHeadSameTail(head: string, s: string, t: string)
    requires head + s == head + t
    ensures s == t
  {
    assert (head + s)[|head|..] == s && (head + t)[|head|..] == t;
  }

  lemma SamePairSameInputs(a: Inputs, b: Inputs)
    requires a.Valid() && b.Valid() && CacheKey(a) == CacheKey(b) && a.region == b.region && a.service == b.service
    ensures a == b
  {
    SameKeySameDate(a, b);
    SameHeadSameTail(a.region + ":", a.service + ":" + a.secret, b.service + ":" + b.secret);
    SameHeadSameTail(a.service + ":", a.secret, b.secret);
  }

  lemma CollisionDerivesApart(a: Inputs, b: Inputs)
    requires a.Valid() && b.Valid() && a != b && CacheKey(a) == CacheKey(b)
    ensures Derive(Distinguishing(a), a) != Derive(Distinguishing(a), b)
  {
    if a.region == b.region && a.service == b.service {
      SamePairSameInputs(a, b);
    } else {
      DeriveUnderDistinguishing(a, a);
      DeriveUnderDistinguishing(a, b);
    }
  }

  // ---------------------------------------------------------------- When the cache is transparent

  ghost predicate AllValid(family: iset<Inputs>) {
    forall x :: x in family ==> x.Valid()
  }

  /**
   The cache agrees with the derivation for every primitive, every earlier run and every caller of a
   family if and only if the family's cache keys are distinct.
   */
  lemma TransparentIffInjective(family: iset<Inputs>)
    requires AllValid(family)
    ensures (forall c: Primitives :: Memo.Transparent(KeyTable(c), family)) <==> Memo.Injective(CacheKey, family)
  {
    if Memo.Injective(CacheKey, family) {
      forall c: Primitives ensures Memo.Transparent(KeyTable(c), family) {
        Memo.InjectiveIsTransparent(KeyTable(c), family);
      }
    } else {
      var a, b :| a in family && b in family && CacheKey(a) == CacheKey(b) && a != b;
      CollisionDerivesApart(a, b);
      Memo.CollisionIsVisible(KeyTable(Distinguishing(a)), family, a, b);
    }
  }

  lemma FieldsBeforeColon(a: string, s: string, b: string, t: string)
    requires ':' !in a && ':' !in b && a + ":" + s == b + ":" + t
    ensures a == b && s == t
  {
    IndexOfConcat(a, ':', s);
    IndexOfConcat(b, ':', t);
    var whole := a + ":" + s;
    assert whole[..|a|] == a && whole[..|b|] == b;
    SameHeadSameTail(a + ":", s, t);
  }

  /** Inputs with a date of eight digits and no colon in the region or the service. */
  ghost function ColonFreeFamily(): iset<Inputs> {
    iset x: Inputs | x.Valid() && x.ColonFree()
  }

  /** Regions and services without a colon never collide. */
  lemma ColonFreeIsInjective()
    ensures Memo.Injective(CacheKey, ColonFreeFamily())
  {
    forall x: Inputs, y: Inputs | x in ColonFreeFamily() && y in ColonFreeFamily() && CacheKey(x) == CacheKey(y)
      ensures x == y
    {
      SameKeySameDate(x, y);
      FieldsBeforeColon(x.region, x.service + ":" + x.secret, y.region, y.service + ":" + y.secret);
      FieldsBeforeColon(x.service, x.secret, y.service, y.secret);
    }
  }

  /**
   In every order of stores and evictions by callers with colon-free regions and services, every value
   handed out is the derivation of its own inputs.
   */
  lemma ColonFreeAnswers(c: Primitives, ops: seq<Memo.MapOp<Inputs>>, x: Inputs)
    requires x in ColonFreeFamily() && Memo.StoresWithin(ops, ColonFreeFamily())
    ensures Memo.Answer(KeyTable(c), Memo.Interleaved(KeyTable(c), map[], ops), x) == Derive(c, x)
  {
    ColonFreeIsInjective();
    Memo.InterleavedStaysSound(KeyTable(c), ColonFreeFamily(), map[], ops);
    assert Memo.Answer(KeyTable(c), Memo.Interleaved(KeyTable(c), map[], ops), x) == KeyTable(c).value(x);
  }

  /** With a colon in the region, two accounts share one cache entry. */
  lemma ColonCollides()
    ensures
      var a := Inputs("20250101", "eu:x", "s3", "k");
      var b := Inputs("20250101", "eu", "x", "s3:k");
      a.Valid() && b.Valid() && a != b && b.ColonFree() && CacheKey(a) == CacheKey(b)
  {
    var a := Inputs("20250101", "eu:x", "s3", "k");
    var b := Inputs("20250101", "eu", "x", "s3:k");
    assert a.region + ":" + (a.service + ":" + a.secret) == b.region + ":" + (b.service + ":" + b.secret);
    assert a.region == "eu:x" && b.region == "eu";
  }
}
