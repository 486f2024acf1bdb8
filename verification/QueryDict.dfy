/**
 The query dictionary handed to the validator: a parser combinator over the remaining input, and what it
 means field by field.
 */
module QueryDict {
  import opened Text
  import opened Sorting
  import Hex
  import Query

  /** Percent-decoding (RFC 3986, section 2.1): a stray `%` and a `+` are themselves. */
  function PercentDecode(s: string): Bytes {
    if s == "" then []
    else if s[0] == '%' && |s| >= 3 && Hex.IsHexDigit(s[1]) && Hex.IsHexDigit(s[2]) then
      [Hex.DigitValue(s[1]) * 16 + Hex.DigitValue(s[2])] + PercentDecode(s[3..])
    else Utf8Char(s[0]) + PercentDecode(s[1..])
  }

  /** `decode_segment`: None where the decoded bytes are not text. */
  function DecodeSegment(s: string): Option<string> {
    FromUtf8(PercentDecode(s))
  }

  type Decoder = string -> Option<string>

  /** Up to the next `&`, or everything; the rest starts at the `&`. */
  function UpToAnd(input: string): (string, string) {
    var i := IndexOf(input, '&');
    (input[..i], input[i..])
  }

  /** A pair, when both parts could be decoded. */
  function PairOf(key: Option<string>, value: Option<string>): Option<Query.Pair> {
    if key.None? || value.None? then None else Some((key.value, value.value))
  }

  function WithRest(pair: Option<Query.Pair>, rest: string): Option<(Query.Pair, string)> {
    if pair.None? then None else Some((pair.value, rest))
  }

  /** `key_value_pair` on the remaining input. */
  function KeyValuePair(decode: Decoder, input: string): Option<(Query.Pair, string)> {
    var eq, amp := IndexOf(input, '='), IndexOf(input, '&');
    if eq < |input| && (amp == |input| || eq < amp) then
      var (field, rest) := UpToAnd(input[eq + 1..]);
      WithRest(PairOf(decode(input[..eq]), decode(field)), rest)
    else
      var (field, rest) := UpToAnd(input);
      WithRest(PairOf(decode(field), Some("")), rest)
  }

  lemma KeyValueShrinks(decode: Decoder, input: string)
    ensures
      var r := KeyValuePair(decode, input);
      r.Some? ==> |r.value.1| <= |input| && (r.value.1 == "" || r.value.1[0] == '&')
  {
  }

  /** The elements behind the first one: a separator, then an element; at a failure the rest is left unread. */
  function More(decode: Decoder, input: string): (seq<Query.Pair>, string)
    decreases |input|
  {
    if input == "" || input[0] != '&' then ([], input)
    else
      match KeyValuePair(decode, input[1..])
      case None => ([], input)
      case Some((pair, rest)) =>
        KeyValueShrinks(decode, input[1..]);
        var (pairs, left) := More(decode, rest);
        ([pair] + pairs, left)
  }

  /** `separated_list0(char('&'), key_value_pair)`: it never fails. */
  function ParsePairs(decode: Decoder, input: string): (seq<Query.Pair>, string) {
    match KeyValuePair(decode, input)
    case None => ([], input)
    case Some((pair, rest)) =>
      var (pairs, left) := More(decode, rest);
      ([pair] + pairs, left)
  }

  /** Collecting into a hash map: the last value of a key stays. */
  function Collected(pairs: seq<Query.Pair>): map<string, string> {
    if pairs == [] then map[]
    else Collected(pairs[..|pairs| - 1])[pairs[|pairs| - 1].0 := pairs[|pairs| - 1].1]
  }

  /** `parse_query`. */
  function ParseQuery(decode: Decoder, input: string): map<string, string> {
    Collected(ParsePairs(decode, input).0)
  }

  // ---------------------------------------------------------------- Field by field

  /** One field: split at its first `=`, or a bare key with an empty value. */
  function ReadField(decode: Decoder, field: string): Option<Query.Pair> {
    var eq := IndexOf(field, '=');
    if eq == |field| then PairOf(decode(field), Some("")) else PairOf(decode(field[..eq]), decode(field[eq + 1..]))
  }

  /** The fields in front of the first that cannot be decoded. */
  function ReadUntilBad(decode: Decoder, fields: seq<string>): seq<Query.Pair>
    decreases |fields|
  {
    if fields == [] || ReadField(decode, fields[0]).None? then []
    else [ReadField(decode, fields[0]).value] + ReadUntilBad(decode, fields[1..])
  }

  lemma IndexOfAt(s: string, c: char, i: nat)
    requires i <= |s| && c !in s[..i] && (i < |s| ==> s[i] == c)
    ensures IndexOf(s, c) == i
  {
    if i < |s| {
      assert s == s[..i] + [c] + s[i + 1..];
      IndexOfConcat(s[..i], c, s[i + 1..]);
    } else {
      assert s[..i] == s;
    }
  }

  /** An `=` in front of the `&` is the first one of the field, and the value ends where the field ends. */
  lemma EqualsInField(input: string, eq: nat, amp: nat)
    requires eq < amp <= |input| && input[eq] == '=' && '=' !in input[..eq]
    requires '&' !in input[..amp] && (amp < |input| ==> input[amp] == '&')
    ensures IndexOf(input[..amp], '=') == eq
    ensures IndexOf(input[eq + 1..], '&') == amp - eq - 1
  {
    assert input[..amp][..eq] == input[..eq];
    IndexOfAt(input[..amp], '=', eq);
    ValueEnd(input, eq, amp);
  }

  lemma ValueEnd(input: string, eq: nat, amp: nat)
    requires eq < amp <= |input| && '&' !in input[..amp] && (amp < |input| ==> input[amp] == '&')
    ensures IndexOf(input[eq + 1..], '&') == amp - eq - 1
  {
    var behind := input[eq + 1..];
    forall k | 0 <= k < amp - eq - 1 ensures behind[k] != '&' {
      assert behind[k] == input[..amp][eq + 1 + k];
    }
    IndexOfAt(behind, '&', amp - eq - 1);
  }

  lemma NoEqualsInField(input: string, eq: nat, amp: nat)
    requires amp <= eq <= |input| && '=' !in input[..eq]
    ensures IndexOf(input[..amp], '=') == amp
  {
    forall k | 0 <= k < amp ensures input[..amp][k] != '=' {
      assert input[..amp][k] == input[..eq][k];
    }
    IndexOfAbsent(input[..amp], '=');
  }

  lemma PairWithValue(decode: Decoder, input: string, eq: nat, amp: nat)
    requires eq == IndexOf(input, '=') < amp == IndexOf(input, '&')
    ensures KeyValuePair(decode, input) == WithRest(ReadField(decode, input[..amp]), input[amp..])
  {
    var field := input[..amp];
    EqualsInField(input, eq, amp);
    ValueOfField(input, eq, amp);
    CutField(input, eq, amp);
    FieldWithValue(decode, field, eq);
    PairFrom(decode, input, eq, amp, input[eq + 1..amp]);
  }

  lemma PairFrom(decode: Decoder, input: string, eq: nat, amp: nat, value: string)
    requires eq == IndexOf(input, '=') < amp == IndexOf(input, '&')
    requires UpToAnd(input[eq + 1..]) == (value, input[amp..])
    ensures KeyValuePair(decode, input) == WithRest(PairOf(decode(input[..eq]), decode(value)), input[amp..])
  {
  }

  lemma FieldWithValue(decode: Decoder, field: string, eq: nat)
    requires eq == IndexOf(field, '=') < |field|
    ensures ReadField(decode, field) == PairOf(decode(field[..eq]), decode(field[eq + 1..]))
  {
  }

  lemma CutField(input: string, eq: nat, amp: nat)
    requires eq < amp <= |input|
    ensures input[..amp][..eq] == input[..eq] && input[..amp][eq + 1..] == input[eq + 1..amp]
  {
  }

  lemma ValueOfField(input: string, eq: nat, amp: nat)
    requires eq < amp <= |input| && IndexOf(input[eq + 1..], '&') == amp - eq - 1
    ensures UpToAnd(input[eq + 1..]) == (input[eq + 1..amp], input[amp..])
  {
    assert input[eq + 1..amp] == input[eq + 1..][..amp - eq - 1];
    assert input[eq + 1..][amp - eq - 1..] == input[amp..];
  }

  lemma PairWithoutValue(decode: Decoder, input: string, eq: nat, amp: nat)
    requires amp == IndexOf(input, '&') <= eq == IndexOf(input, '=')
    ensures KeyValuePair(decode, input) == WithRest(ReadField(decode, input[..amp]), input[amp..])
  {
    NoEqualsInField(input, eq, amp);
    FieldWithoutValue(decode, input[..amp]);
  }

  lemma FieldWithoutValue(decode: Decoder, field: string)
    requires IndexOf(field, '=') == |field|
    ensures ReadField(decode, field) == PairOf(decode(field), Some(""))
  {
  }

  /** The `=` that the parser looks for in the remaining input is the one of the first field, or there is none in it. */
  lemma PairIsField(decode: Decoder, input: string, amp: nat)
    requires amp == IndexOf(input, '&')
    ensures KeyValuePair(decode, input) == WithRest(ReadField(decode, input[..amp]), input[amp..])
  {
    var eq := IndexOf(input, '=');
    if eq < amp {
      PairWithValue(decode, input, eq, amp);
    } else {
      PairWithoutValue(decode, input, eq, amp);
    }
  }

  lemma NothingBehind(input: string)
    ensures input[..|input|] == input && input[|input|..] == ""
  {
  }

  lemma SeparatorFirst(input: string, amp: nat)
    requires amp < |input| && input[amp] == '&'
    ensures input[amp..] == "&" + input[amp + 1..]
    ensures input[..amp] + ['&'] + input[amp + 1..] == input
  {
  }

  /** The fields behind the first, given how the parser reads what follows it. */
  lemma FieldThenRest(decode: Decoder, field: string, fields: seq<string>, later: seq<Query.Pair>)
    requires later == ReadUntilBad(decode, fields)
    ensures ReadUntilBad(decode, [field] + fields) == OneThen(ReadField(decode, field), later)
  {
    assert ([field] + fields)[1..] == fields;
  }

  function OneThen(pair: Option<Query.Pair>, later: seq<Query.Pair>): seq<Query.Pair> {
    if pair.None? then [] else [pair.value] + later
  }

  lemma MoreStep(decode: Decoder, input: string)
    ensures More(decode, "&" + input).0 == ParsePairs(decode, input).0
  {
    assert ("&" + input)[1..] == input;
  }

  lemma {:induction false} MoreReadsFields(decode: Decoder, input: string)
    ensures More(decode, "&" + input).0 == ReadUntilBad(decode, Split(input, '&'))
    decreases |input|, 1
  {
    MoreStep(decode, input);
    ParseReadsFields(decode, input);
  }

  /**
   The parser over the remaining input reads the query field by field: each split at its own first `=`,
   all fields in front of the first one whose escapes are not text; that one and all later ones are dropped.
   */
  lemma {:induction false} ParseReadsFields(decode: Decoder, input: string)
    ensures ParsePairs(decode, input).0 == ReadUntilBad(decode, Split(input, '&'))
    decreases |input|, 0
  {
    var amp := IndexOf(input, '&');
    PairIsField(decode, input, amp);
    ParseOne(decode, input, input[..amp], input[amp..]);
    if amp < |input| {
      MoreReadsFields(decode, input[amp + 1..]);
      ReadsOn(decode, input, amp);
    } else {
      ReadsLast(decode, input);
    }
  }

  lemma ParseOne(decode: Decoder, input: string, field: string, rest: string)
    requires KeyValuePair(decode, input) == WithRest(ReadField(decode, field), rest)
    ensures ParsePairs(decode, input).0 == OneThen(ReadField(decode, field), More(decode, rest).0)
  {
  }

  lemma ReadsOn(decode: Decoder, input: string, amp: nat)
    requires amp < |input| && input[amp] == '&' && '&' !in input[..amp]
    requires More(decode, "&" + input[amp + 1..]).0 == ReadUntilBad(decode, Split(input[amp + 1..], '&'))
    ensures ReadUntilBad(decode, Split(input, '&'))
         == OneThen(ReadField(decode, input[..amp]), More(decode, input[amp..]).0)
  {
    var fields := Split(input[amp + 1..], '&');
    SeparatorFirst(input, amp);
    SplitConcat(input[..amp], '&', input[amp + 1..]);
    FieldThenRest(decode, input[..amp], fields, ReadUntilBad(decode, fields));
  }

  lemma ReadsLast(decode: Decoder, input: string)
    requires '&' !in input[..|input|]
    ensures ReadUntilBad(decode, Split(input, '&'))
         == OneThen(ReadField(decode, input[..|input|]), More(decode, input[|input|..]).0)
  {
    NothingBehind(input);
    SplitAbsent(input, '&');
    assert [input] + [] == [input];
    FieldThenRest(decode, input, [], []);
  }

  // ---------------------------------------------------------------- What decoding leaves alone

  /** A part decodes to a text exactly when its bytes are the encoding of that text; anything else is no text. */
  lemma DecodesExactly(s: string, text: string)
    ensures DecodeSegment(s) == Some(text) <==> PercentDecode(s) == Utf8(text)
  {
    Utf8Exactly(PercentDecode(s), text);
  }

  predicate HasEscape(s: string, i: nat) {
    i + 2 < |s| && s[i] == '%' && Hex.IsHexDigit(s[i + 1]) && Hex.IsHexDigit(s[i + 2])
  }

  /** Text without a complete escape is taken as it is: stray percent signs, and plus signs. */
  lemma {:induction false} DecodePlain(s: string)
    requires forall i :: 0 <= i < |s| ==> !HasEscape(s, i)
    ensures DecodeSegment(s) == Some(s)
  {
    PlainBytes(s);
    Utf8RoundTrip(s);
  }

  lemma {:induction false} PlainBytes(s: string)
    requires forall i :: 0 <= i < |s| ==> !HasEscape(s, i)
    ensures PercentDecode(s) == Utf8(s)
  {
    if s != "" {
      assert !HasEscape(s, 0);
      forall i | 0 <= i < |s[1..]| ensures !HasEscape(s[1..], i) {
        assert !HasEscape(s, i + 1);
      }
      PlainBytes(s[1..]);
    }
  }

  /** A plus sign as form data means it. */
  function PlusToBlank(s: string): string {
    if s == "" then "" else [if s[0] == '+' then ' ' else s[0]] + PlusToBlank(s[1..])
  }

  lemma PlusToBlankTail(s: string)
    requires s != ""
    ensures PlusToBlank(s) != "" && PlusToBlank(s)[1..] == PlusToBlank(s[1..])
  {
  }

  lemma PlusToBlankThird(s: string)
    requires |s| >= 3
    ensures |PlusToBlank(s)| >= 3 && PlusToBlank(s)[3..] == PlusToBlank(s[3..])
  {
    PlusToBlankTail(s);
    PlusToBlankTail(s[1..]);
    PlusToBlankTail(s[1..][1..]);
    assert s[1..][1..][1..] == s[3..];
    assert PlusToBlank(s)[1..][1..][1..] == PlusToBlank(s)[3..];
  }

  lemma {:induction false} PlusLength(s: string)
    ensures |PlusToBlank(s)| == |s|
    ensures forall i :: 0 <= i < |s| ==> PlusToBlank(s)[i] == if s[i] == '+' then ' ' else s[i]
  {
    if s != "" { PlusLength(s[1..]); }
  }

  /** The two decoders differ in the plus sign alone. */
  lemma {:induction false} FormIsPlusToBlank(s: string)
    ensures Query.FormDecode(s) == PercentDecode(PlusToBlank(s))
  {
    if s != "" {
      var t := PlusToBlank(s);
      PlusLength(s);
      if s[0] == '%' && |s| >= 3 && Hex.IsHexDigit(s[1]) && Hex.IsHexDigit(s[2]) {
        PlusToBlankThird(s);
        FormIsPlusToBlank(s[3..]);
      } else {
        assert t[1..] == PlusToBlank(s[1..]);
        FormIsPlusToBlank(s[1..]);
      }
    }
  }

  // ---------------------------------------------------------------- Encoded parameters

  lemma {:induction false} DecodersAgree(s: string)
    requires '+' !in s
    ensures PercentDecode(s) == Query.FormDecode(s)
  {
    if s != "" {
      if s[0] == '%' && |s| >= 3 && Hex.IsHexDigit(s[1]) && Hex.IsHexDigit(s[2]) {
        DecodersAgree(s[3..]);
      } else {
        DecodersAgree(s[1..]);
      }
    }
  }

  lemma DecodeEncoded(s: string)
    ensures DecodeSegment(Query.Encoded(s, true)) == Some(s)
  {
    Query.EncodedAlphabet(s);
    Query.AlphabetExcludes(Query.Encoded(s, true));
    DecodersAgree(Query.Encoded(s, true));
    Query.EncodeRoundTrip(s, true);
    Utf8RoundTrip(s);
  }

  lemma ReadParameter(p: Query.Pair)
    ensures ReadField(DecodeSegment, Query.Parameter(p)) == Some(p)
  {
    Query.ParameterShape(p);
    DecodeEncoded(p.0);
    DecodeEncoded(p.1);
    assert IndexOf(Query.Parameter(p), '=') < |Query.Parameter(p)|;
  }

  lemma {:induction false} ReadParameters(pairs: seq<Query.Pair>)
    ensures ReadUntilBad(DecodeSegment, Map(pairs, Query.Parameter)) == pairs
    decreases |pairs|
  {
    if pairs != [] {
      ReadParameter(pairs[0]);
      ReadParameters(pairs[1..]);
      MapCons(pairs, Query.Parameter);
      FieldThenRest(DecodeSegment, Query.Parameter(pairs[0]), Map(pairs[1..], Query.Parameter), pairs[1..]);
      assert pairs == [pairs[0]] + pairs[1..];
    }
  }

  lemma MapCons<T, U>(s: seq<T>, f: T -> U)
    requires s != []
    ensures Map(s, f) == [f(s[0])] + Map(s[1..], f)
  {
  }

  /** Parsing undoes printing: an encoded list of parameters gives back the parameters, in order. */
  lemma EncodedParametersRoundTrip(pairs: seq<Query.Pair>)
    requires pairs != []
    ensures ParsePairs(DecodeSegment, Join(Map(pairs, Query.Parameter), '&')).0 == pairs
  {
    var fields := Map(pairs, Query.Parameter);
    forall i | 0 <= i < |fields| ensures '&' !in fields[i] {
      Query.ParameterShape(pairs[i]);
    }
    SplitJoin(fields, '&');
    ParseReadsFields(DecodeSegment, Join(fields, '&'));
    ReadParameters(pairs);
  }

  /** The empty query is not an empty dictionary: it has one entry, the empty key. */
  lemma EmptyQueryHasOneEntry()
    ensures ParseQuery(DecodeSegment, "") == map["" := ""]
  {
    assert PercentDecode("") == [] && FromUtf8([]) == Some("");
    assert ParsePairs(DecodeSegment, "").0 == [("", "")];
    assert [("", "")][..0] == [];
  }

  // ---------------------------------------------------------------- The dictionary

  /** The fields up to the i-th can all be read, and that one reads as the pair (k, v). */
  predicate ReadsAs(decode: Decoder, fields: seq<string>, i: nat, k: string, v: string) {
    i < |fields| && Readable(decode, fields, i) && ReadField(decode, fields[i]) == Some((k, v))
  }

  predicate Readable(decode: Decoder, fields: seq<string>, i: nat)
    requires i < |fields|
  {
    forall j :: 0 <= j <= i ==> ReadField(decode, fields[j]).Some?
  }

  /** Is no later readable field one of this key? */
  predicate LastOf(decode: Decoder, fields: seq<string>, i: nat, k: string) {
    forall j :: i < j < |fields| && Readable(decode, fields, j) ==> ReadField(decode, fields[j]).value.0 != k
  }

  lemma {:induction false} ReadUntilBadMeans(decode: Decoder, fields: seq<string>, i: nat)
    ensures i < |ReadUntilBad(decode, fields)| <==> i < |fields| && Readable(decode, fields, i)
    ensures i < |ReadUntilBad(decode, fields)| ==>
      Some(ReadUntilBad(decode, fields)[i]) == ReadField(decode, fields[i])
    decreases |fields|
  {
    if fields != [] && ReadField(decode, fields[0]).Some? && i > 0 {
      var rest := fields[1..];
      ReadUntilBadMeans(decode, rest, i - 1);
      if i < |fields| {
        assert Readable(decode, fields, i) <==> Readable(decode, rest, i - 1) by {
          assert forall j :: 1 <= j < |fields| ==> fields[j] == rest[j - 1];
          if Readable(decode, rest, i - 1) {
            forall j | 0 <= j <= i ensures ReadField(decode, fields[j]).Some? {
              if j > 0 { assert fields[j] == rest[j - 1]; }
            }
          }
        }
      }
    }
  }

  /** The i-th pair is the last one of its key. */
  predicate LastPair(pairs: seq<Query.Pair>, i: nat) {
    i < |pairs| && forall j :: i < j < |pairs| ==> pairs[j].0 != pairs[i].0
  }

  /** Collecting keeps the last value of every key. */
  lemma {:induction false} LastIsCollected(pairs: seq<Query.Pair>, i: nat)
    requires LastPair(pairs, i)
    ensures pairs[i].0 in Collected(pairs) && Collected(pairs)[pairs[i].0] == pairs[i].1
    decreases |pairs|
  {
    if i < |pairs| - 1 {
      var front := pairs[..|pairs| - 1];
      assert front[i] == pairs[i] && forall j :: i < j < |front| ==> front[j] == pairs[j];
      LastIsCollected(front, i);
    }
  }

  /** Whatever is collected is the last pair of its key. */
  lemma {:induction false} CollectedIsLast(pairs: seq<Query.Pair>, k: string) returns (i: nat)
    requires k in Collected(pairs)
    ensures LastPair(pairs, i) && pairs[i] == (k, Collected(pairs)[k])
    decreases |pairs|
  {
    i := |pairs| - 1;
    if pairs[i].0 != k {
      var front := pairs[..i];
      i := CollectedIsLast(front, k);
      assert front[i] == pairs[i] && forall j :: i < j < |front| ==> front[j] == pairs[j];
    }
  }

  /** Two ways to say that a pair is the last one of its key: in the list of pairs that were read, and in the fields. */
  lemma LastReadIsLast(decode: Decoder, fields: seq<string>, i: nat, k: string, v: string)
    ensures
      var pairs := ReadUntilBad(decode, fields);
      LastPair(pairs, i) && pairs[i] == (k, v) <==> ReadsAs(decode, fields, i, k, v) && LastOf(decode, fields, i, k)
  {
    var pairs := ReadUntilBad(decode, fields);
    ReadUntilBadMeans(decode, fields, i);
    forall j: nat
      ensures j < |pairs| <==> j < |fields| && Readable(decode, fields, j)
      ensures j < |pairs| ==> Some(pairs[j]) == ReadField(decode, fields[j])
    {
      ReadUntilBadMeans(decode, fields, j);
    }
  }

  /**
   The dictionary: a key has a value exactly when some field in front of the first unreadable one reads as
   that pair and no later one of them has the same key.
   */
  lemma DictionaryMeans(decode: Decoder, input: string, k: string, v: string)
    ensures k in ParseQuery(decode, input) && ParseQuery(decode, input)[k] == v
       <==> exists i: nat :: ReadsAs(decode, Split(input, '&'), i, k, v) && LastOf(decode, Split(input, '&'), i, k)
  {
    var fields := Split(input, '&');
    var pairs := ReadUntilBad(decode, fields);
    ParseReadsFields(decode, input);
    if i: nat :| ReadsAs(decode, fields, i, k, v) && LastOf(decode, fields, i, k) {
      LastReadIsLast(decode, fields, i, k, v);
      LastIsCollected(pairs, i);
    }
    if k in Collected(pairs) && Collected(pairs)[k] == v {
      var i := CollectedIsLast(pairs, k);
      LastReadIsLast(decode, fields, i, k, v);
    }
  }

  /** Encoded parameters with distinct names become exactly the dictionary from each name to its value. */
  lemma EncodedDictionary(pairs: seq<Query.Pair>)
    requires pairs != [] && forall i, j :: 0 <= i < j < |pairs| ==> pairs[i].0 != pairs[j].0
    ensures
      var dictionary := ParseQuery(DecodeSegment, Join(Map(pairs, Query.Parameter), '&'));
      && (forall i :: 0 <= i < |pairs| ==> pairs[i].0 in dictionary && dictionary[pairs[i].0] == pairs[i].1)
      && forall k :: k in dictionary ==> exists i :: 0 <= i < |pairs| && pairs[i].0 == k
  {
    EncodedParametersRoundTrip(pairs);
    var dictionary := Collected(pairs);
    forall i | 0 <= i < |pairs| ensures pairs[i].0 in dictionary && dictionary[pairs[i].0] == pairs[i].1 {
      LastIsCollected(pairs, i);
    }
    forall k | k in dictionary ensures exists i :: 0 <= i < |pairs| && pairs[i].0 == k {
      var i := CollectedIsLast(pairs, k);
      assert pairs[i].0 == k;
    }
  }

  lemma CollectedNothing(pairs: seq<Query.Pair>)
    ensures Collected(pairs) == map[] <==> pairs == []
  {
    if pairs != [] {
      assert pairs[|pairs| - 1].0 in Collected(pairs);
    }
  }

  /** The dictionary is empty if and only if the first field, which every query has, cannot be read. */
  lemma EmptyDictionaryExactly(decode: Decoder, input: string)
    ensures ParseQuery(decode, input) == map[] <==> ReadField(decode, Split(input, '&')[0]).None?
  {
    ParseReadsFields(decode, input);
    CollectedNothing(ParsePairs(decode, input).0);
  }
}
