/**
 The cryptographic primitives and the clock formats, as parameters of everything that signs.

 HMAC-SHA256 and SHA-256 are arbitrary functions to 32-byte values: every result of this project
 holds whatever they compute.
 */
module Crypto {
  import opened Text
  import Hex

  type Tag = t: Bytes | |t| == 32 witness seq(32, _ => 0)

  /** hmac(key, message) and sha256(data). */
  datatype Primitives = Primitives(hmac: (Bytes, Bytes) -> Tag, sha256: Bytes -> Tag)

  /** The hex digest of a byte string. */
  function Digest(c: Primitives, data: Bytes): (s: string)
    ensures |s| == 64 && Hex.IsLowerHex(s)
  {
    Hex.Encode(c.sha256(data))
  }

  /** The hex HMAC of a text under a key. */
  function Mac(c: Primitives, key: Bytes, text: string): (s: string)
    ensures |s| == 64 && Hex.IsLowerHex(s)
  {
    Hex.Encode(c.hmac(key, Utf8(text)))
  }

  /** SHA-256 of the empty string, a literal of the source. */
  const EMPTY_SHA256 := "e3b0c44298fc1c149afbf4c8996fb924" + "27ae41e4649b934ca495991b7852b855"

  predicate IsDecimal(s: string) {
    forall i :: 0 <= i < |s| ==> '0' <= s[i] <= '9'
  }

  datatype RawTimestamp = Timestamp(date: string, clock: string)

  /** A UTC instant at second granularity: `YYYYMMDD` and `hhmmss`. */
  type Timestamp = t: RawTimestamp | |t.date| == 8 && IsDecimal(t.date) && |t.clock| == 6 && IsDecimal(t.clock)
    witness RawTimestamp.Timestamp("19700101", "000000")

  /** `%Y%m%dT%H%M%SZ`. */
  function Long(t: Timestamp): (s: string)
    ensures |s| == 16
  {
    t.date + "T" + t.clock + "Z"
  }

  /** Reading `%Y%m%dT%H%M%SZ` back. */
  function ParseLong(s: string): Option<Timestamp> {
    if |s| == 16 && IsDecimal(s[..8]) && s[8] == 'T' && IsDecimal(s[9..15]) && s[15] == 'Z'
    then Some(RawTimestamp.Timestamp(s[..8], s[9..15]))
    else None
  }

  /** `scope_string`: the credential scope. */
  function ScopeString(date: string, region: string, service: string): string {
    date + "/" + region + "/" + service + "/aws4_request"
  }

  lemma LongRoundTrip(t: Timestamp)
    ensures ParseLong(Long(t)) == Some(t)
  {
    var s := Long(t);
    assert s[..8] == t.date && s[9..15] == t.clock;
  }
}
