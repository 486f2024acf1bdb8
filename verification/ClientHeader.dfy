/**
 The Authorization header as most clients print it, with a blank behind each comma, reads back like the one
 that the proxy prints.
 */
module ClientHeader {
  import opened Text
  import opened Crypto
  import opened Authorization
  import Standard

  /** What is between the credential and the names, and between the names and the signature, taken apart. */
  lemma SpacedGrouping(credential: string, signed: string, signature: string)
    ensures PREFIX + credential + ", SignedHeaders=" + signed + ", Signature=" + signature
         == Opening(credential) + [','] + (" SignedHeaders" + "=" + signed) + [','] + " " + SIGNATURE + signature
  {
    Literals();
    Apart(Opening(credential), [','], " SignedHeaders" + "=", signed, [','], " ", SIGNATURE, signature);
  }

  lemma Literals()
    ensures PREFIX == WORD + "=" && ", SignedHeaders=" == [','] + (" SignedHeaders" + "=")
    ensures ", SignedHeaders=" == [','] + " " + SIGNED && ", Signature=" == [','] + (" " + SIGNATURE)
    ensures ", Signature=" == ", Signature" + "=" && '=' !in ", Signature" && '=' !in " SignedHeaders"
    ensures '=' !in " " && ", Signature"[10] == 'e' && |", Signature"| == 11
    ensures " SignedHeaders"[13] == 's' && |" SignedHeaders"| == 14
  {
  }

  lemma Apart(a: string, b: string, c: string, d: string, e: string, f: string, g: string, h: string)
    ensures a + (b + c) + d + (e + (f + g)) + h == a + b + (c + d) + e + f + g + h
  {
  }

  lemma SpacedSignature(credential: string, signed: string, signature: string)
    requires Lacks(credential, SIGNATURE) && '=' !in signed && '=' !in signature
    ensures ParseSignature(PREFIX + credential + ", SignedHeaders=" + signed + ", Signature=" + signature)
         == Some(signature)
  {
    MarksAreMarks();
    Literals();
    OpeningLacks(credential, SIGNATURE);
    NoEqualsLacks(signed, SIGNATURE);
    NoEqualsLacks(" SignedHeaders", SIGNATURE);
    NoEqualsLacks(signature, SIGNATURE);
    NoEqualsLacks(" ", SIGNATURE);
    LacksAfterEquals(" SignedHeaders", signed, SIGNATURE);
    var front := Opening(credential) + [','] + (" SignedHeaders" + "=" + signed);
    LacksAround(Opening(credential), ',', " SignedHeaders" + "=" + signed, SIGNATURE);
    LacksAround(front, ',', " ", SIGNATURE);
    SecondPieceIs(front + [','] + " ", SIGNATURE, signature);
    SpacedGrouping(credential, signed, signature);
  }

  lemma SpacedSignedGrouping(credential: string, signed: string, signature: string)
    ensures PREFIX + credential + ", SignedHeaders=" + signed + ", Signature=" + signature
         == Opening(credential) + [','] + " " + SIGNED + (signed + ", Signature" + "=" + signature)
    ensures signed + ", Signature" + "=" + signature == signed + [','] + (" " + SIGNATURE + signature)
  {
    Literals();
    Together(Opening(credential), [','], " ", SIGNED, signed, ", Signature", "=", signature);
    assert signed + ([','] + (" " + SIGNATURE)) + signature == signed + [','] + (" " + SIGNATURE + signature);
    assert signed + (", Signature" + "=") + signature == signed + ", Signature" + "=" + signature;
  }

  lemma Together(a: string, b: string, c: string, d: string, e: string, f: string, g: string, h: string)
    ensures a + (b + c + d) + e + (f + g) + h == a + b + c + d + (e + f + g + h)
  {
  }

  lemma SpacedNames(credential: string, names: seq<string>, signature: string)
    requires Lacks(credential, SIGNED) && AreNames(names) && '=' !in signature
    ensures ParseSignedHeaders(PREFIX + credential + ", SignedHeaders=" + Join(names, ';') + ", Signature=" + signature)
         == Some(names)
  {
    var signed := Join(names, ';');
    JoinFree(names, ';', '=');
    JoinFree(names, ';', ',');
    SpacedPiece(credential, signed, signature);
    SplitConcat(signed, ',', " " + SIGNATURE + signature);
    SplitJoin(names, ';');
  }

  lemma SpacedPiece(credential: string, signed: string, signature: string)
    requires Lacks(credential, SIGNED) && '=' !in signed && '=' !in signature
    ensures SecondPiece(PREFIX + credential + ", SignedHeaders=" + signed + ", Signature=" + signature, SIGNED)
         == Some(signed + [','] + (" " + SIGNATURE + signature))
  {
    MarksAreMarks();
    Literals();
    OpeningLacks(credential, SIGNED);
    NoEqualsLacks(" ", SIGNED);
    NoEqualsLacks(signed + ", Signature", SIGNED);
    NoEqualsLacks(signature, SIGNED);
    LacksAround(Opening(credential), ',', " ", SIGNED);
    LacksAfterEquals(signed + ", Signature", signature, SIGNED);
    SecondPieceIs(Opening(credential) + [','] + " ", SIGNED, signed + ", Signature" + "=" + signature);
    SpacedSignedGrouping(credential, signed, signature);
  }

  /** The five fields of a header. */
  predicate Reads(auth: string, accessKey: string, region: string, service: string, names: seq<string>,
                  signature: string)
  {
    var scope := ParseCredentialScope(auth);
    && ParseToken(auth) == Some(accessKey)
    && scope.Some? && scope.value.region == region && scope.value.service == service
    && ParseSignedHeaders(auth) == Some(names) && ParseSignature(auth) == Some(signature)
  }

  lemma SpacedParts(accessKey: string, scope: string, names: string, signature: string)
    ensures PREFIX + accessKey + "/" + scope + ", SignedHeaders=" + names + ", Signature=" + signature
         == PREFIX + (accessKey + "/" + scope) + ", SignedHeaders=" + names + ", Signature=" + signature
    ensures PREFIX + (accessKey + "/" + scope) + ", SignedHeaders=" + names + ", Signature=" + signature
         == PREFIX + ((accessKey + "/" + scope) + (", SignedHeaders=" + names + ", Signature=" + signature))
  {
    Regroup(PREFIX, accessKey, "/", scope, ", SignedHeaders=", names, ", Signature=", signature);
  }

  /** The header with blanks reads back whole. */
  lemma SpacedReads(accessKey: string, date: string, region: string, service: string, names: seq<string>,
                    signature: string)
    requires Component(accessKey) && Component(region) && IsPlain(date, service)
    requires AreNames(names) && '=' !in signature
    ensures Reads(Standard.SpacedAuthorization(accessKey, Standard.Scope(date, region, service), names, signature),
                  accessKey, region, service, names, signature)
  {
    var credential := Credential(accessKey, date, region, service);
    DigitsOnly(date);
    MarksAreMarks();
    CredentialLacks(accessKey, date, region, service, SIGNATURE);
    CredentialLacks(accessKey, date, region, service, SIGNED);
    SpacedParts(accessKey, Standard.Scope(date, region, service), Join(names, ';'), signature);
    JoinFree(names, ';', '=');
    SpacedSignature(credential, Join(names, ';'), signature);
    SpacedNames(credential, names, signature);
    SlashDecides(accessKey, date, region, service, ", SignedHeaders=" + Join(names, ';') + ", Signature=" + signature);
  }

  /** A header of either form reads back whole. */
  lemma HeaderReads(auth: string, accessKey: string, date: string, region: string, service: string, names: seq<string>,
                    signature: string)
    requires Component(accessKey) && Component(region) && IsPlain(date, service)
    requires AreNames(names) && '=' !in signature
    requires Standard.IsAuthorization(auth, accessKey, Standard.Scope(date, region, service), names, signature)
    ensures Reads(auth, accessKey, region, service, names, signature)
  {
    SpacedReads(accessKey, date, region, service, names, signature);
    HeaderRoundTrip(accessKey, date, region, service, names, signature);
  }
}
