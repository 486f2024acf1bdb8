/**
 Reading the `Authorization` header back: the access key, the credential scope, the signed header names
 and the signature.
 */
module Authorization {
  import opened Text
  import opened Crypto
  import Headers
  import Signer

  const PREFIX := "AWS4-HMAC-SHA256 Credential="

  /** `take_until` on one character: None where it does not occur. */
  function Before(s: string, c: char): Option<string> {
    var i := IndexOf(s, c);
    if i == |s| then None else Some(s[..i])
  }

  /** `parse_token_from_header`. */
  function ParseToken(header: string): Option<string> {
    if StartsWith(header, PREFIX) then Before(header[|PREFIX|..], '/') else None
  }

  datatype Scope = Scope(remaining: string, region: string, service: string)

  /** What follows the first `c`, when there is one. */
  function After(s: string, c: char): Option<string> {
    var i := IndexOf(s, c);
    if i == |s| then None else Some(s[i + 1..])
  }

  /** The region and service of `<key>/<date>/<region>/<service>/aws4_request`. */
  function ReadScope(s: string, terminator: string): Option<Scope> {
    var afterKey := After(s, '/');
    if afterKey.None? then None
    else
      var afterDate := After(afterKey.value, '/');
      if afterDate.None? then None
      else
        var rest := afterDate.value;
        var i := IndexOf(rest, '/');
        if i == |rest| then None
        else
          var tail := rest[i + 1..];
          match Find(tail, terminator)
          case None => None
          case Some(n) => Some(Scope(tail[n + |terminator|..], rest[..i], tail[..n]))
  }

  /** `parse_credential_scope`. */
  function ParseCredentialScope(input: string): Option<Scope> {
    match Find(input, "Credential=")
    case None => None
    case Some(i) => ReadScope(input[i + |"Credential="|..], "/aws4_request")
  }

  /** `split(mark).nth(1)`: from the first mark to the second, or to the end. */
  function SecondPiece(s: string, mark: string): Option<string> {
    match Find(s, mark)
    case None => None
    case Some(i) =>
      var rest := s[i + |mark|..];
      match Find(rest, mark)
      case None => Some(rest)
      case Some(j) => Some(rest[..j])
  }

  /** The signature field. */
  function ParseSignature(header: string): Option<string> {
    SecondPiece(header, "Signature=")
  }

  /** The list of signed header names: up to the next comma, split at semicolons. */
  function ParseSignedHeaders(header: string): Option<seq<string>> {
    match SecondPiece(header, "SignedHeaders=")
    case None => None
    case Some(piece) => Some(Split(Split(piece, ',')[0], ';'))
  }

  // ---------------------------------------------------------------- Marks that end in their only `=`

  /** `word` followed by an equals sign, of which `word` has none. */
  predicate IsMark(mark: string) {
    |mark| >= 2 && mark[|mark| - 1] == '=' && '=' !in mark[..|mark| - 1]
  }

  ghost predicate Lacks(s: string, mark: string) {
    forall j :: !OccursAt(s, mark, j)
  }

  lemma NoEqualsLacks(s: string, mark: string)
    requires IsMark(mark) && '=' !in s
    ensures Lacks(s, mark)
  {
    forall j ensures !OccursAt(s, mark, j) {
      if 0 <= j <= |s| - |mark| {
        assert s[j..j + |mark|][|mark| - 1] == s[j + |mark| - 1];
      }
    }
  }

  /** Equal stretches of two texts hold the same occurrences. */
  lemma OccursIn(s: string, t: string, mark: string, j: int, d: int)
    requires OccursAt(s, mark, j) && 0 <= j - d <= |t| - |mark|
    requires forall k :: j <= k < j + |mark| ==> s[k] == t[k - d]
    ensures OccursAt(t, mark, j - d)
  {
    forall k | 0 <= k < |mark| ensures t[j - d..j - d + |mark|][k] == mark[k] {
      assert t[j - d..j - d + |mark|][k] == t[j - d + k] == s[j + k] == s[j..j + |mark|][k];
    }
  }

  lemma OccursMeans(s: string, mark: string, j: int, k: nat)
    requires OccursAt(s, mark, j) && k < |mark|
    ensures s[j + k] == mark[k]
  {
    assert s[j..j + |mark|][k] == s[j + k];
  }

  /** A character foreign to the mark separates its occurrences. */
  lemma LacksAround(a: string, c: char, b: string, mark: string)
    requires Lacks(a, mark) && Lacks(b, mark) && c !in mark && |mark| > 0
    ensures Lacks(a + [c] + b, mark)
  {
    var s := a + [c] + b;
    forall j ensures !OccursAt(s, mark, j) {
      if OccursAt(s, mark, j) { BesideSeparator(a, c, b, mark, j); }
    }
  }

  /** An occurrence lies to the left of a separator, to the right of it, or over it. */
  lemma BesideSeparator(a: string, c: char, b: string, mark: string, j: int)
    requires OccursAt(a + [c] + b, mark, j) && |mark| > 0
    ensures OccursAt(a, mark, j) || OccursAt(b, mark, j - |a| - 1) || (0 <= |a| - j < |mark| && mark[|a| - j] == c)
  {
    var s := a + [c] + b;
    if j + |mark| <= |a| {
      OccursIn(s, a, mark, j, 0);
    } else if j > |a| {
      OccursIn(s, b, mark, j, |a| + 1);
    } else {
      OccursMeans(s, mark, j, |a| - j);
    }
  }

  /** An equals sign after something other than the mark's word starts no new occurrence. */
  lemma LacksAfterEquals(a: string, b: string, mark: string)
    requires IsMark(mark) && Lacks(a, mark) && Lacks(b, mark)
    requires a != "" && a[|a| - 1] != mark[|mark| - 2]
    ensures Lacks(a + "=" + b, mark)
  {
    var s := a + ['='] + b;
    assert s == a + "=" + b;
    forall j ensures !OccursAt(s, mark, j) {
      if OccursAt(s, mark, j) {
        OccursMeans(s, mark, j, |mark| - 2);
        OnlyLastEquals(mark, |a| - j);
        BesideSeparator(a, '=', b, mark, j);
      }
    }
  }

  lemma OnlyLastEquals(mark: string, k: int)
    requires IsMark(mark)
    ensures 0 <= k < |mark| - 1 ==> mark[k] != '='
  {
    if 0 <= k < |mark| - 1 {
      assert mark[k] == mark[..|mark| - 1][k];
    }
  }

  /** The mark's own occurrence is the first one when nothing before it holds a mark. */
  lemma FirstMark(a: string, mark: string, b: string)
    requires IsMark(mark) && Lacks(a, mark)
    ensures Find(a + mark + b, mark) == Some(|a|)
  {
    var s := a + mark + b;
    assert s[|a|..|a| + |mark|] == mark;
    forall j | 0 <= j < |a| ensures !OccursAt(s, mark, j) {
      if j + |mark| <= |a| {
        assert s[j..j + |mark|] == a[j..j + |mark|];
        assert !OccursAt(a, mark, j);
      } else {
        var k := j + |mark| - 1 - |a|;
        assert s[j..j + |mark|][|mark| - 1] == mark[k];
        assert mark[..|mark| - 1][k] == mark[k];
      }
    }
    FindIs(s, mark, |a|);
  }

  lemma SecondPieceIs(a: string, mark: string, b: string)
    requires IsMark(mark) && Lacks(a, mark) && Lacks(b, mark)
    ensures SecondPiece(a + mark + b, mark) == Some(b)
  {
    FirstMark(a, mark, b);
    assert (a + mark + b)[|a| + |mark|..] == b;
    assert Find(b, mark) == None;
  }

  // ---------------------------------------------------------------- The fields of the header that `sign` builds

  const WORD := "AWS4-HMAC-SHA256 Credential"

  const SIGNATURE := "Signature="

  const SIGNED := "SignedHeaders="

  /** A slash-free text in which neither field mark occurs, such as an access key or a region. */
  ghost predicate Component(s: string) {
    '/' !in s && Lacks(s, SIGNATURE) && Lacks(s, SIGNED)
  }

  /** The characters of a header name: none that separates fields of the header. */
  predicate IsName(s: string) {
    s != "" && Headers.IsVisible(s) && ';' !in s && ',' !in s && '=' !in s && ':' !in s
  }

  lemma MarksAreMarks()
    ensures IsMark(SIGNATURE) && IsMark(SIGNED)
    ensures '/' !in SIGNATURE && ',' !in SIGNATURE && '/' !in SIGNED && ',' !in SIGNED
    ensures SIGNATURE[|SIGNATURE| - 2] == 'e' && SIGNED[|SIGNED| - 2] == 's'
    ensures SIGNATURE == "Signature" + "=" && SIGNED == "SignedHeaders" + "="
  {
  }

  lemma WordFacts()
    ensures '=' !in WORD && WORD[|WORD| - 1] == 'l' && PREFIX == WORD + "="
    ensures '=' !in "SignedHeaders" && "SignedHeaders"[12] == 's' && |"SignedHeaders"| == 13
    ensures '=' !in ",Signature" && ",Signature"[9] == 'e' && |",Signature"| == 10
  {
  }

  function Credential(accessKey: string, date: string, region: string, service: string): string {
    accessKey + "/" + ScopeString(date, region, service)
  }

  /** None of the slash-separated parts of a credential holds a mark, so the credential holds none. */
  lemma CredentialLacks(accessKey: string, date: string, region: string, service: string, mark: string)
    requires IsMark(mark) && '/' !in mark
    requires Lacks(accessKey, mark) && Lacks(region, mark) && '=' !in date && '=' !in service
    ensures Lacks(Credential(accessKey, date, region, service), mark)
  {
    NoEqualsLacks(date, mark);
    NoEqualsLacks(service, mark);
    NoEqualsLacks("aws4_request", mark);
    var tail := service + ['/'] + "aws4_request";
    LacksAround(service, '/', "aws4_request", mark);
    LacksAround(region, '/', tail, mark);
    LacksAround(date, '/', region + ['/'] + tail, mark);
    LacksAround(accessKey, '/', date + ['/'] + (region + ['/'] + tail), mark);
    CredentialGrouping(accessKey, date, region, service);
  }

  lemma CredentialGrouping(accessKey: string, date: string, region: string, service: string)
    ensures Credential(accessKey, date, region, service)
         == accessKey + ['/'] + (date + ['/'] + (region + ['/'] + (service + ['/'] + "aws4_request")))
  {
    assert "/aws4_request" == ['/'] + "aws4_request";
  }

  /** The header up to the comma before one of its marks. */
  function Opening(credential: string): string {
    WORD + "=" + credential
  }

  lemma OpeningLacks(credential: string, mark: string)
    requires IsMark(mark) && Lacks(credential, mark) && mark[|mark| - 2] != 'l'
    ensures Lacks(Opening(credential), mark)
  {
    WordFacts();
    NoEqualsLacks(WORD, mark);
    LacksAfterEquals(WORD, credential, mark);
  }

  lemma SignatureGrouping(credential: string, signed: string, signature: string)
    ensures PREFIX + credential + ",SignedHeaders=" + signed + ",Signature=" + signature
         == Opening(credential) + [','] + ("SignedHeaders" + "=" + signed) + [','] + "" + SIGNATURE + signature
  {
    WordFacts();
    MarksAreMarks();
    assert ",SignedHeaders=" == [','] + ("SignedHeaders" + "=");
    assert ",Signature=" == [','] + SIGNATURE;
    Sixfold(Opening(credential), [','], "SignedHeaders" + "=", signed, [','], SIGNATURE, signature);
  }

  lemma Sixfold(a: string, b: string, c: string, d: string, e: string, f: string, g: string)
    ensures a + (b + c) + d + (e + f) + g == a + b + (c + d) + e + "" + f + g
  {
  }

  lemma SignatureField(credential: string, signed: string, signature: string)
    requires Lacks(credential, SIGNATURE) && '=' !in signed && '=' !in signature
    ensures ParseSignature(PREFIX + credential + ",SignedHeaders=" + signed + ",Signature=" + signature)
         == Some(signature)
  {
    MarksAreMarks();
    WordFacts();
    OpeningLacks(credential, SIGNATURE);
    NoEqualsLacks(signed, SIGNATURE);
    NoEqualsLacks("SignedHeaders", SIGNATURE);
    NoEqualsLacks(signature, SIGNATURE);
    NoEqualsLacks("", SIGNATURE);
    LacksAfterEquals("SignedHeaders", signed, SIGNATURE);
    var front := Opening(credential) + [','] + ("SignedHeaders" + "=" + signed);
    LacksAround(Opening(credential), ',', "SignedHeaders" + "=" + signed, SIGNATURE);
    LacksAround(front, ',', "", SIGNATURE);
    SecondPieceIs(front + [','] + "", SIGNATURE, signature);
    SignatureGrouping(credential, signed, signature);
  }

  lemma SignedGrouping(credential: string, signed: string, signature: string)
    ensures PREFIX + credential + ",SignedHeaders=" + signed + ",Signature=" + signature
         == Opening(credential) + [','] + "" + SIGNED + (signed + ",Signature" + "=" + signature)
    ensures signed + ",Signature" + "=" + signature == signed + [','] + (SIGNATURE + signature)
  {
    WordFacts();
    MarksAreMarks();
    assert ",SignedHeaders=" == [','] + SIGNED;
    assert ",Signature=" == ",Signature" + "=";
    assert ",Signature=" == [','] + SIGNATURE;
    Sevenfold(Opening(credential), [','], SIGNED, signed, ",Signature", "=", signature);
    Fourfold(signed, [','], SIGNATURE, signature);
  }

  lemma Sevenfold(a: string, b: string, c: string, d: string, e: string, f: string, g: string)
    ensures a + (b + c) + d + (e + f) + g == a + b + "" + c + (d + e + f + g)
  {
  }

  lemma Fourfold(a: string, b: string, c: string, d: string)
    ensures a + (b + c) + d == a + b + (c + d)
  {
  }

  lemma SignedHeadersPiece(credential: string, signed: string, signature: string)
    requires Lacks(credential, SIGNED) && '=' !in signed && '=' !in signature
    ensures SecondPiece(PREFIX + credential + ",SignedHeaders=" + signed + ",Signature=" + signature, SIGNED)
         == Some(signed + [','] + (SIGNATURE + signature))
  {
    MarksAreMarks();
    WordFacts();
    OpeningLacks(credential, SIGNED);
    NoEqualsLacks("", SIGNED);
    NoEqualsLacks(signed + ",Signature", SIGNED);
    NoEqualsLacks(signature, SIGNED);
    LacksAround(Opening(credential), ',', "", SIGNED);
    LacksAfterEquals(signed + ",Signature", signature, SIGNED);
    SecondPieceIs(Opening(credential) + [','] + "", SIGNED, signed + ",Signature" + "=" + signature);
    SignedGrouping(credential, signed, signature);
  }

  lemma SignedHeadersField(credential: string, names: seq<string>, signature: string)
    requires Lacks(credential, SIGNED) && '=' !in signature
    requires |names| >= 1 && forall i :: 0 <= i < |names| ==> IsName(names[i])
    ensures ParseSignedHeaders(PREFIX + credential + ",SignedHeaders=" + Join(names, ';') + ",Signature=" + signature)
         == Some(names)
  {
    var signed := Join(names, ';');
    JoinFree(names, ';', '=');
    JoinFree(names, ';', ',');
    SignedHeadersPiece(credential, signed, signature);
    SplitConcat(signed, ',', SIGNATURE + signature);
    SplitJoin(names, ';');
  }

  // ---------------------------------------------------------------- The credential

  lemma BeforeIs(a: string, c: char, b: string)
    requires c !in a
    ensures Before(a + [c] + b, c) == Some(a) && After(a + [c] + b, c) == Some(b)
    ensures IndexOf(a + [c] + b, c) == |a|
  {
    IndexOfConcat(a, c, b);
    assert (a + [c] + b)[..|a|] == a && (a + [c] + b)[|a| + 1..] == b;
  }

  /** The terminator cannot start inside a service without a slash. */
  lemma TerminatorFirst(service: string, terminator: string, rest: string)
    requires '/' !in service && |terminator| > 0 && terminator[0] == '/'
    ensures Find(service + terminator + rest, terminator) == Some(|service|)
  {
    var s := service + terminator + rest;
    assert s[|service|..|service| + |terminator|] == terminator;
    forall j | 0 <= j < |service| ensures !OccursAt(s, terminator, j) {
      assert s[j] == service[j];
      if j <= |s| - |terminator| {
        assert s[j..j + |terminator|][0] == s[j];
      }
    }
    FindIs(s, terminator, |service|);
  }

  lemma ScopeField(accessKey: string, date: string, region: string, service: string, terminator: string, rest: string)
    requires '/' !in accessKey && '/' !in date && '/' !in region && '/' !in service
    requires |terminator| > 0 && terminator[0] == '/'
    ensures ReadScope(accessKey + ['/'] + (date + ['/'] + (region + ['/'] + (service + terminator + rest))), terminator)
         == Some(Scope(rest, region, service))
  {
    var tail := service + terminator + rest;
    BeforeIs(accessKey, '/', date + ['/'] + (region + ['/'] + tail));
    BeforeIs(date, '/', region + ['/'] + tail);
    BeforeIs(region, '/', tail);
    TerminatorFirst(service, terminator, rest);
    assert tail[..|service|] == service && tail[|service| + |terminator|..] == rest;
  }

  lemma CredentialSplits(accessKey: string, date: string, region: string, service: string, rest: string)
    ensures Credential(accessKey, date, region, service) + rest
         == accessKey + ['/'] + (date + ['/'] + (region + ['/'] + (service + "/aws4_request" + rest)))
  {
    CredentialGrouping(accessKey, date, region, service);
    assert "/aws4_request" == ['/'] + "aws4_request";
    Nested(accessKey, date, region, service, ['/'], "aws4_request", rest);
  }

  lemma Nested(a: string, b: string, c: string, d: string, bar: string, e: string, rest: string)
    ensures a + bar + (b + bar + (c + bar + (d + bar + e))) + rest
         == a + bar + (b + bar + (c + bar + (d + (bar + e) + rest)))
  {
    Pull(c, bar, d + bar + e, rest);
    Pull(b, bar, c + bar + (d + bar + e), rest);
    Pull(a, bar, b + bar + (c + bar + (d + bar + e)), rest);
    assert d + bar + e + rest == d + (bar + e) + rest;
  }

  lemma Pull(a: string, bar: string, b: string, rest: string)
    ensures a + bar + b + rest == a + bar + (b + rest)
  {
  }

  /** The scope is read from what follows the prefix. */
  lemma ScopeAfterPrefix(s: string)
    ensures ParseCredentialScope(PREFIX + s) == ReadScope(s, "/aws4_request")
  {
    var mark := "Credential=";
    var lead := "AWS4-HMAC-SHA256 ";
    assert IsMark(mark) && '=' !in lead;
    NoEqualsLacks(lead, mark);
    FirstMark(lead, mark, s);
    assert PREFIX == lead + mark;
    assert (PREFIX + s)[|lead| + |mark|..] == s;
  }

  lemma TokenAfterPrefix(s: string)
    ensures ParseToken(PREFIX + s) == Before(s, '/')
  {
    assert (PREFIX + s)[..|PREFIX|] == PREFIX && (PREFIX + s)[|PREFIX|..] == s;
  }

  /** The access key and the region read back exactly when neither contains a slash. */
  lemma SlashDecides(accessKey: string, date: string, region: string, service: string, rest: string)
    requires '/' !in date && '/' !in service
    ensures
      var header := PREFIX + (Credential(accessKey, date, region, service) + rest);
      && ParseToken(header) == Some(accessKey)
      && ParseCredentialScope(header) == Some(Scope(rest, region, service))
      <==> '/' !in accessKey && '/' !in region
  {
    var tail := service + "/aws4_request" + rest;
    var afterDate := region + ['/'] + tail;
    var body := accessKey + ['/'] + (date + ['/'] + afterDate);
    CredentialSplits(accessKey, date, region, service, rest);
    TokenAfterPrefix(body);
    ScopeAfterPrefix(body);
    if '/' !in accessKey {
      BeforeIs(accessKey, '/', date + ['/'] + afterDate);
      if '/' !in region {
        ScopeField(accessKey, date, region, service, "/aws4_request", rest);
      } else {
        SlashInRegion(accessKey, date, region, tail, "/aws4_request");
      }
    } else {
      ShorterBefore(accessKey, date + ['/'] + afterDate);
    }
  }

  lemma ShorterBefore(a: string, b: string)
    requires '/' in a
    ensures IndexOf(a + ['/'] + b, '/') < |a|
  {
    var s := a + ['/'] + b;
    var i :| 0 <= i < |a| && a[i] == '/';
    assert s[i] == '/';
    var n := IndexOf(s, '/');
    forall k | 0 <= k < n ensures s[k] != '/' {
      assert s[k] == s[..n][k];
    }
  }

  lemma SlashInRegion(accessKey: string, date: string, region: string, tail: string, terminator: string)
    requires '/' !in accessKey && '/' !in date && '/' in region
    ensures
      var r := ReadScope(accessKey + ['/'] + (date + ['/'] + (region + ['/'] + tail)), terminator);
      r.Some? ==> r.value.region != region
  {
    BeforeIs(accessKey, '/', date + ['/'] + (region + ['/'] + tail));
    BeforeIs(date, '/', region + ['/'] + tail);
    ShorterBefore(region, tail);
  }

  // ---------------------------------------------------------------- Exactly which components read back

  lemma {:induction false} FindInFront(s: string, mark: string, t: string)
    requires Find(s, mark).Some?
    ensures Find(s + t, mark) == Find(s, mark)
  {
    var i := Find(s, mark).value;
    assert (s + t)[i..i + |mark|] == s[i..i + |mark|];
    forall j | 0 <= j < i ensures !OccursAt(s + t, mark, j) {
      assert (s + t)[j..j + |mark|] == s[j..j + |mark|];
      assert !OccursAt(s, mark, j);
    }
    FindIs(s + t, mark, i);
  }

  /** An earlier mark hides whatever follows the real one. */
  lemma EarlierMarkHides(front: string, mark: string, b: string, b': string)
    requires IsMark(mark) && !Lacks(front, mark)
    ensures SecondPiece(front + mark + b, mark) == SecondPiece(front + mark + b', mark)
  {
    var i := Find(front, mark).value;
    var rest := front[i + |mark|..] + mark;
    assert rest[|rest| - |mark|..|rest|] == mark;
    assert OccursAt(rest, mark, |rest| - |mark|);
    assert Find(rest, mark).Some?;
    PieceInFront(front, mark, b);
    PieceInFront(front, mark, b');
  }

  lemma RestOfFront(front: string, mark: string, b: string, i: nat)
    requires i + |mark| <= |front|
    ensures front + (mark + b) == front + mark + b
    ensures (front + mark + b)[i + |mark|..] == front[i + |mark|..] + mark + b
  {
  }

  lemma PieceIs(s: string, mark: string, i: nat, rest: string, j: nat)
    requires Find(s, mark) == Some(i) && s[i + |mark|..] == rest && Find(rest, mark) == Some(j)
    ensures SecondPiece(s, mark) == Some(rest[..j])
  {
  }

  lemma PieceInFront(front: string, mark: string, b: string)
    requires Find(front, mark).Some? && Find(front[Find(front, mark).value + |mark|..] + mark, mark).Some?
    ensures
      var i := Find(front, mark).value;
      var rest := front[i + |mark|..] + mark;
      SecondPiece(front + mark + b, mark) == Some(rest[..Find(rest, mark).value])
  {
    var i := Find(front, mark).value;
    var rest := front[i + |mark|..] + mark;
    var s := front + mark + b;
    FindInFront(front, mark, mark + b);
    RestOfFront(front, mark, b, i);
    FindInFront(rest, mark, b);
    PieceIs(s, mark, i, rest + b, Find(rest, mark).value);
    assert (rest + b)[..Find(rest, mark).value] == rest[..Find(rest, mark).value];
  }

  lemma OccursWithin(a: string, s: string, b: string, mark: string)
    requires Lacks(a + s + b, mark)
    ensures Lacks(s, mark)
  {
    forall j ensures !OccursAt(s, mark, j) {
      if 0 <= j <= |s| - |mark| {
        assert (a + s + b)[|a| + j..|a| + j + |mark|] == s[j..j + |mark|];
        assert !OccursAt(a + s + b, mark, |a| + j);
      }
    }
  }

  /** Whatever the signature, it reads back: exactly when the credential holds no `Signature=`. */
  lemma SignatureReadsBack(credential: string, signed: string)
    requires '=' !in signed
    ensures (forall s: string :: '=' !in s ==>
               ParseSignature(PREFIX + credential + ",SignedHeaders=" + signed + ",Signature=" + s) == Some(s))
            <==> Lacks(credential, SIGNATURE)
  {
    if Lacks(credential, SIGNATURE) {
      forall s: string | '=' !in s
        ensures ParseSignature(PREFIX + credential + ",SignedHeaders=" + signed + ",Signature=" + s) == Some(s)
      {
        SignatureField(credential, signed, s);
      }
    } else {
      MarksAreMarks();
      WordFacts();
      var front := Opening(credential) + [','] + ("SignedHeaders" + "=" + signed) + [','] + "";
      assert !Lacks(front, SIGNATURE) by {
        var tail := [','] + ("SignedHeaders" + "=" + signed) + [','] + "";
        assert front == WORD + "=" + credential + tail;
        if Lacks(front, SIGNATURE) { OccursWithin(WORD + "=", credential, tail, SIGNATURE); }
      }
      EarlierMarkHides(front, SIGNATURE, "0", "1");
      SignatureGrouping(credential, signed, "0");
      SignatureGrouping(credential, signed, "1");
    }
  }

  // ---------------------------------------------------------------- The whole header

  function Built(accessKey: string, date: string, region: string, service: string, names: seq<string>,
                 signature: string): string
  {
    Signer.HeaderValue(accessKey, ScopeString(date, region, service), Join(names, ';'), signature)
  }

  /** The parsers find the access key, the region, the service, the header names and the signature. */
  predicate ReadsBack(accessKey: string, date: string, region: string, service: string, names: seq<string>,
                      signature: string)
  {
    var header := Built(accessKey, date, region, service, names, signature);
    var scope := ParseCredentialScope(header);
    && ParseToken(header) == Some(accessKey)
    && scope.Some? && scope.value.region == region && scope.value.service == service
    && ParseSignedHeaders(header) == Some(names)
    && ParseSignature(header) == Some(signature)
  }

  predicate AreNames(names: seq<string>) {
    |names| >= 1 && forall i :: 0 <= i < |names| ==> IsName(names[i])
  }

  /** A date of digits and a service such as `s3`. */
  predicate IsPlain(date: string, service: string) {
    IsDecimal(date) && '/' !in service && '=' !in service
  }

  lemma BuiltGrouping(accessKey: string, date: string, region: string, service: string, names: seq<string>,
                      signature: string)
    ensures
      var credential := Credential(accessKey, date, region, service);
      var header := Built(accessKey, date, region, service, names, signature);
      && header == PREFIX + credential + ",SignedHeaders=" + Join(names, ';') + ",Signature=" + signature
      && header == PREFIX + (credential + (",SignedHeaders=" + Join(names, ';') + ",Signature=" + signature))
  {
    var scope := ScopeString(date, region, service);
    Regroup(PREFIX, accessKey, "/", scope, ",SignedHeaders=", Join(names, ';'), ",Signature=", signature);
  }

  lemma Regroup(a: string, b: string, c: string, d: string, e: string, f: string, g: string, h: string)
    ensures a + b + c + d + e + f + g + h == a + (b + c + d) + e + f + g + h
    ensures a + (b + c + d) + e + f + g + h == a + ((b + c + d) + (e + f + g + h))
  {
    assert a + b + c + d == a + (b + c + d);
  }

  lemma DigitsOnly(date: string)
    requires IsDecimal(date)
    ensures '/' !in date && '=' !in date
  {
  }

  /** Print and parse: a header built from delimiter-free components reads back whole. */
  lemma HeaderRoundTrip(accessKey: string, date: string, region: string, service: string, names: seq<string>,
                        signature: string)
    requires Component(accessKey) && Component(region) && IsPlain(date, service)
    requires AreNames(names) && '=' !in signature
    ensures ReadsBack(accessKey, date, region, service, names, signature)
  {
    var credential := Credential(accessKey, date, region, service);
    DigitsOnly(date);
    MarksAreMarks();
    CredentialLacks(accessKey, date, region, service, SIGNATURE);
    CredentialLacks(accessKey, date, region, service, SIGNED);
    BuiltGrouping(accessKey, date, region, service, names, signature);
    JoinFree(names, ';', '=');
    SignatureField(credential, Join(names, ';'), signature);
    SignedHeadersField(credential, names, signature);
    SlashDecides(accessKey, date, region, service, ",SignedHeaders=" + Join(names, ';') + ",Signature=" + signature);
  }

  lemma HiddenNames(credential: string, signed: string, signed': string)
    requires !Lacks(credential, SIGNED)
    ensures ParseSignedHeaders(PREFIX + credential + ",SignedHeaders=" + signed + ",Signature=" + "")
         == ParseSignedHeaders(PREFIX + credential + ",SignedHeaders=" + signed' + ",Signature=" + "")
  {
    MarksAreMarks();
    WordFacts();
    var front := Opening(credential) + [','] + "";
    assert !Lacks(front, SIGNED) by {
      assert front == WORD + "=" + credential + [','];
      if Lacks(front, SIGNED) { OccursWithin(WORD + "=", credential, [','], SIGNED); }
    }
    EarlierMarkHides(front, SIGNED, signed + ",Signature" + "=" + "", signed' + ",Signature" + "=" + "");
    SignedGrouping(credential, signed, "");
    SignedGrouping(credential, signed', "");
  }

  lemma OneName(name: string)
    requires IsName(name)
    ensures AreNames([name]) && Join([name], ';') == name
  {
  }

  lemma NamesNeedNoMark(credential: string)
    requires forall names: seq<string> | AreNames(names) ::
      ParseSignedHeaders(PREFIX + credential + ",SignedHeaders=" + Join(names, ';') + ",Signature=" + "") == Some(names)
    ensures Lacks(credential, SIGNED)
  {
    assert ["a"][0] != ["b"][0];
    OneName("a");
    OneName("b");
    if !Lacks(credential, SIGNED) {
      HiddenNames(credential, "a", "b");
    }
  }

  /** Every header of an account reads back if and only if its access key and region are components. */
  lemma ReadsBackExactly(accessKey: string, date: string, region: string, service: string)
    requires IsPlain(date, service)
    ensures (forall names: seq<string>, signature: string | AreNames(names) && '=' !in signature ::
               ReadsBack(accessKey, date, region, service, names, signature))
            <==> Component(accessKey) && Component(region)
  {
    if Component(accessKey) && Component(region) {
      forall names: seq<string>, signature: string | AreNames(names) && '=' !in signature
        ensures ReadsBack(accessKey, date, region, service, names, signature)
      {
        HeaderRoundTrip(accessKey, date, region, service, names, signature);
      }
    } else if forall names: seq<string>, signature: string | AreNames(names) && '=' !in signature ::
                ReadsBack(accessKey, date, region, service, names, signature) {
      SlashesRead(accessKey, date, region, service);
      MarksRead(accessKey, date, region, service);
    }
  }

  lemma SlashesRead(accessKey: string, date: string, region: string, service: string)
    requires IsPlain(date, service) && ReadsBack(accessKey, date, region, service, ["host"], "")
    ensures '/' !in accessKey && '/' !in region
  {
    DigitsOnly(date);
    var rest := ",SignedHeaders=" + Join(["host"], ';') + ",Signature=" + "";
    BuiltGrouping(accessKey, date, region, service, ["host"], "");
    TokenOrRegion(accessKey, date, region, service, rest);
  }

  /** With the access key and the region read back, neither has a slash. */
  lemma TokenOrRegion(accessKey: string, date: string, region: string, service: string, rest: string)
    requires '/' !in date && '/' !in service
    requires
      var header := PREFIX + (Credential(accessKey, date, region, service) + rest);
      var scope := ParseCredentialScope(header);
      ParseToken(header) == Some(accessKey) && scope.Some? && scope.value.region == region
    ensures '/' !in accessKey && '/' !in region
  {
    var tail := service + "/aws4_request" + rest;
    var body := accessKey + ['/'] + (date + ['/'] + (region + ['/'] + tail));
    CredentialSplits(accessKey, date, region, service, rest);
    TokenAfterPrefix(body);
    ScopeAfterPrefix(body);
    if '/' in accessKey {
      ShorterBefore(accessKey, date + ['/'] + (region + ['/'] + tail));
    } else if '/' in region {
      SlashInRegion(accessKey, date, region, tail, "/aws4_request");
    }
  }

  lemma MarksRead(accessKey: string, date: string, region: string, service: string)
    requires IsPlain(date, service)
    requires forall names: seq<string>, signature: string | AreNames(names) && '=' !in signature ::
      ReadsBack(accessKey, date, region, service, names, signature)
    ensures Lacks(accessKey, SIGNATURE) && Lacks(region, SIGNATURE) && Lacks(accessKey, SIGNED) && Lacks(region, SIGNED)
  {
    var credential := Credential(accessKey, date, region, service);
    assert AreNames(["host"]) && Join(["host"], ';') == "host";
    forall s: string | '=' !in s
      ensures ParseSignature(PREFIX + credential + ",SignedHeaders=" + "host" + ",Signature=" + s) == Some(s)
    {
      BuiltGrouping(accessKey, date, region, service, ["host"], s);
      assert ReadsBack(accessKey, date, region, service, ["host"], s);
    }
    SignatureReadsBack(credential, "host");
    forall names: seq<string> | AreNames(names)
      ensures ParseSignedHeaders(PREFIX + credential + ",SignedHeaders=" + Join(names, ';') + ",Signature=" + "")
           == Some(names)
    {
      BuiltGrouping(accessKey, date, region, service, names, "");
      assert ReadsBack(accessKey, date, region, service, names, "");
    }
    NamesNeedNoMark(credential);
    PartsLack(accessKey, date, region, service, SIGNATURE);
    PartsLack(accessKey, date, region, service, SIGNED);
  }

  lemma PartsLack(accessKey: string, date: string, region: string, service: string, mark: string)
    requires Lacks(Credential(accessKey, date, region, service), mark)
    ensures Lacks(accessKey, mark) && Lacks(region, mark)
  {
    var credential := Credential(accessKey, date, region, service);
    var before, after := accessKey + "/" + date + "/", "/" + service + "/aws4_request";
    assert credential == "" + accessKey + ("/" + ScopeString(date, region, service));
    assert credential == before + region + after;
    OccursWithin("", accessKey, "/" + ScopeString(date, region, service), mark);
    OccursWithin(before, region, after, mark);
  }
}
