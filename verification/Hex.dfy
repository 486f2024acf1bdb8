/**
 Hexadecimal text: `hex::encode` for digests, `{:x}` and `usize::from_str_radix(_, 16)` for chunk lengths.
 */
module Hex {
  import opened Text

  /** One more than the largest `usize` of a 64-bit target. */
  const WORD: nat := 0x1_0000_0000_0000_0000

  function Digit(n: nat): (c: char)
    requires n < 16
    ensures IsHexDigit(c) && DigitValue(c) == n && c == "0123456789abcdef"[n]
  {
    if n < 10 then ('0' as int + n) as char else ('a' as int + n - 10) as char
  }

  predicate IsHexDigit(c: char) {
    '0' <= c <= '9' || 'a' <= c <= 'f' || 'A' <= c <= 'F'
  }

  function DigitValue(c: char): (n: nat)
    requires IsHexDigit(c)
    ensures n < 16
  {
    if c <= '9' then c as int - '0' as int
    else if c <= 'F' then c as int - 'A' as int + 10
    else c as int - 'a' as int + 10
  }

  predicate IsLowerHex(s: string) {
    forall i :: 0 <= i < |s| ==> '0' <= s[i] <= '9' || 'a' <= s[i] <= 'f'
  }

  predicate AllHex(s: string) {
    forall i :: 0 <= i < |s| ==> IsHexDigit(s[i])
  }

  // ---------------------------------------------------------------- Digests

  /** `hex::encode`. */
  function Encode(b: Bytes): (s: string)
    ensures |s| == 2 * |b|
    ensures IsLowerHex(s)
  {
    if b == [] then "" else [Digit(b[0] as int / 16), Digit(b[0] as int % 16)] + Encode(b[1..])
  }

  lemma {:induction false} EncodeAppend(a: Bytes, b: Bytes)
    ensures Encode(a + b) == Encode(a) + Encode(b)
  {
    if a == [] {
      assert a + b == b;
    } else {
      assert (a + b)[0] == a[0] && (a + b)[1..] == a[1..] + b;
      EncodeAppend(a[1..], b);
      Regrouped([Digit(a[0] as int / 16), Digit(a[0] as int % 16)], Encode(a[1..]), Encode(b));
    }
  }

  /** Every byte stands as two lower-case digits in its place, the high one first. */
  lemma EncodeDigits(front: Bytes, b: byte, back: Bytes)
    ensures Encode(front + [b] + back) == Encode(front) + [Digit(b / 16), Digit(b % 16)] + Encode(back)
  {
    EncodeAppend(front + [b], back);
    EncodeAppend(front, [b]);
    EncodeOne(b);
  }

  lemma EncodeOne(b: byte)
    ensures Encode([b]) == [Digit(b / 16), Digit(b % 16)]
  {
    assert [b][1..] == [];
  }

  lemma {:induction false} EncodeInjective(a: Bytes, b: Bytes)
    requires Encode(a) == Encode(b)
    ensures a == b
  {
    assert |a| == |b|;
    if a != [] {
      assert Encode(a)[0] == Encode(b)[0] && Encode(a)[1] == Encode(b)[1];
      assert DigitValue(Encode(a)[0]) == a[0] as int / 16 && DigitValue(Encode(a)[1]) == a[0] as int % 16;
      assert DigitValue(Encode(b)[0]) == b[0] as int / 16 && DigitValue(Encode(b)[1]) == b[0] as int % 16;
      assert a[0] == b[0];
      assert Encode(a)[2..] == Encode(a[1..]) && Encode(b)[2..] == Encode(b[1..]);
      EncodeInjective(a[1..], b[1..]);
      assert a == [a[0]] + a[1..] && b == [b[0]] + b[1..];
    }
  }

  // ---------------------------------------------------------------- Lengths

  /** `format!("{:x}", n)`. */
  function Print(n: nat): (s: string)
    ensures |s| >= 1 && IsLowerHex(s)
  {
    if n < 16 then [Digit(n)] else Print(n / 16) + [Digit(n % 16)]
  }

  /** The number a string of hexadecimal digits denotes. */
  function Value(s: string): nat
    requires AllHex(s)
  {
    if s == [] then 0 else 16 * Value(s[..|s| - 1]) + DigitValue(s[|s| - 1])
  }

  lemma {:induction false} ValuePrint(n: nat)
    ensures AllHex(Print(n)) && Value(Print(n)) == n
  {
    if n >= 16 {
      ValuePrint(n / 16);
      assert Print(n)[..|Print(n)| - 1] == Print(n / 16);
    }
  }

  /** `usize::from_str_radix(s, 16)`: an optional '+', at least one digit, and a value that fits the word. */
  function ParseUsize(s: string): (r: Option<nat>)
    ensures r.Some? ==> r.value < WORD
  {
    var digits := if |s| >= 1 && s[0] == '+' then s[1..] else s;
    if digits == [] || !AllHex(digits) then None
    else if Value(digits) >= WORD then None
    else Some(Value(digits))
  }

  /** Any digit string of either case, leading zeros included, parses to its value while that value fits. */
  lemma ParseDigits(digits: string)
    requires digits != [] && AllHex(digits) && Value(digits) < WORD
    ensures ParseUsize(Trim(digits)) == Some(Value(digits))
  {
    DigitsAreTrimmed(digits);
    assert IsHexDigit(digits[0]);
  }

  lemma DigitsAreTrimmed(digits: string)
    requires digits != [] && AllHex(digits)
    ensures Trim(digits) == digits
  {
    assert IsHexDigit(digits[0]) && IsHexDigit(digits[|digits| - 1]);
    assert TrimStart(digits) == digits;
  }

  /** Lengths survive printing and parsing exactly when they fit the machine word. */
  lemma ParsePrint(n: nat)
    ensures ParseUsize(Trim(Print(n))) == if n < WORD then Some(n) else None
  {
    ValuePrint(n);
    var s := Print(n);
    DigitsAreTrimmed(s);
    assert IsHexDigit(s[0]);
  }
}
