/**
 The receiving side: a decoder written from AWS Signature Version 4, "Transferring payload in multiple
 chunks", section "Defining the Chunk Body", and the end-to-end statement about the proxy.
 */
module Backend {
  import opened Text
  import opened Crypto
  import opened Frames
  import opened ChunkFrame
  import opened Streaming
  import opened Transcoding
  import Hex
  import SigningKey
  import Standard

  /** What the backend knows: its own secret, and the timestamp and region of the request header. */
  datatype Account = Account(c: Primitives, secret: string, ts: Timestamp, region: string)

  /** The string to sign of a chunk, line by line as the standard lists it. */
  function ExpectedLines(a: Account, prior: string, payload: Bytes): seq<string> {
    ["AWS4-HMAC-SHA256-PAYLOAD", a.ts.date + "T" + a.ts.clock + "Z", Standard.Scope(a.ts.date, a.region, "s3"), prior,
     Hex.Encode(a.c.sha256([])), Hex.Encode(a.c.sha256(payload))]
  }

  /** The chunk signature as the standard defines it, from freshly computed parts. */
  function ExpectedSignature(a: Account, prior: string, payload: Bytes): string {
    var key := Standard.SigningKey(a.c, a.secret, a.ts.date, a.region, "s3");
    Standard.Signature(a.c, key, Join(ExpectedLines(a, prior, payload), '\n'))
  }

  /** A header line: the announced length and the signature it carries. */
  function ReadLine(line: Bytes): Option<(nat, string)> {
    match FromUtf8(line)
    case None => None
    case Some(text) =>
      var semi := IndexOf(text, ';');
      if semi == 0 || !Hex.AllHex(text[..semi]) || !StartsWith(text[semi..], SIGNATURE_FIELD) then None
      else Some((Hex.Value(text[..semi]), text[semi..][|SIGNATURE_FIELD|..]))
  }

  /** A chunk at the front of a stream: its data, its signature, and the bytes it takes. */
  datatype Chunk = Chunk(payload: Bytes, signature: string, size: nat)

  type Reader = read: (string, Bytes) -> Option<Chunk>
    | forall prior, stream :: read(prior, stream).Some? ==> 0 < read(prior, stream).value.size <= |stream|
    witness (prior: string, stream: Bytes) => None

  /** The data behind a header line that ends at i, with its own line end and under the expected signature. */
  function ReadData(expected: (string, Bytes) -> string, prior: string, stream: Bytes, i: nat, n: nat,
                    signature: string): (r: Option<Chunk>)
    ensures r.Some? ==> 0 < r.value.size <= |stream|
  {
    if i + 2 + n + 2 > |stream| || stream[i + 2 + n..i + 2 + n + 2] != CRLF then None
    else if signature != expected(prior, stream[i + 2..i + 2 + n]) then None
    else Some(Chunk(stream[i + 2..i + 2 + n], signature, i + 2 + n + 2))
  }

  /** One chunk, accepted only under the signature expected after `prior`. */
  function ReadChunk(expected: (string, Bytes) -> string, prior: string, stream: Bytes): (r: Option<Chunk>)
    ensures r.Some? ==> 0 < r.value.size <= |stream|
  {
    match Find(stream, CRLF)
    case None => None
    case Some(i) =>
      match ReadLine(stream[..i])
      case None => None
      case Some((n, signature)) => ReadData(expected, prior, stream, i, n, signature)
  }

  function ExpectedBy(a: Account): (string, Bytes) -> string {
    (prior: string, payload: Bytes) => ExpectedSignature(a, prior, payload)
  }

  function ReaderOf(a: Account): Reader {
    var expected := ExpectedBy(a);
    (prior: string, stream: Bytes) => ReadChunk(expected, prior, stream)
  }

  /**
   Reads a chunked body: every chunk must be accepted after the one before it, the body must end with a
   chunk of length zero, and nothing may follow.  The result is the list of data chunks.
   */
  function Decode(read: Reader, prior: string, stream: Bytes): Option<seq<Bytes>>
    decreases |stream|
  {
    match read(prior, stream)
    case None => None
    case Some(chunk) =>
      var rest := stream[chunk.size..];
      if chunk.payload == [] then (if rest == [] then Some([]) else None)
      else match Decode(read, chunk.signature, rest)
           case None => None
           case Some(payloads) => Some([chunk.payload] + payloads)
  }

  /** The proxy signs under the backend's account, and the literal it uses is SHA-256 of the empty string. */
  ghost predicate Agrees(u: Upload, a: Account) {
    && u.c == a.c && u.ts == a.ts && u.region == a.region
    && u.key == SigningKey.Derive(a.c, SigningKey.Inputs(a.ts.date, a.region, "s3", a.secret))
    && Digest(a.c, []) == EMPTY_SHA256
  }

  lemma JoinSix(a: string, b: string, c: string, d: string, e: string, f: string)
    ensures Join([a, b, c, d, e, f], '\n') == a + "\n" + b + "\n" + c + "\n" + d + "\n" + e + "\n" + f
  {
    assert Join([e, f], '\n') == e + "\n" + f by { assert [e, f][1..] == [f]; }
    assert Join([d, e, f], '\n') == d + "\n" + (e + "\n" + f) by { assert [d, e, f][1..] == [e, f]; }
    assert Join([c, d, e, f], '\n')
      == c + "\n" + (d + "\n" + (e + "\n" + f)) by
    {
      assert [c, d, e, f][1..] == [d, e, f];
    }
    assert [b, c, d, e, f][1..] == [c, d, e, f];
    assert [a, b, c, d, e, f][1..] == [b, c, d, e, f];
  }

  lemma ChunkTextIsLines(time: string, scope: string, prior: string, emptyHash: string, hash: string)
    ensures ChunkText(time, scope, prior, emptyHash, hash)
         == Join(["AWS4-HMAC-SHA256-PAYLOAD", time, scope, prior, emptyHash, hash], '\n')
  {
    JoinSix("AWS4-HMAC-SHA256-PAYLOAD", time, scope, prior, emptyHash, hash);
    assert "AWS4-HMAC-SHA256-PAYLOAD\n" == "AWS4-HMAC-SHA256-PAYLOAD" + "\n";
  }

  lemma ScopeOfS3(date: string, region: string)
    ensures date + "/" + region + "/s3/aws4_request" == ScopeString(date, region, "s3")
  {
    assert "/s3/aws4_request" == "/" + "s3" + "/aws4_request";
  }

  lemma SignaturesAgree(u: Upload, a: Account, prior: string, payload: Bytes)
    requires Agrees(u, a)
    ensures ChunkSignature(u, prior, payload) == ExpectedSignature(a, prior, payload)
  {
    ScopeOfS3(a.ts.date, a.region);
    SigningKey.DeriveIsStandard(a.c, SigningKey.Inputs(a.ts.date, a.region, "s3", a.secret));
    ChunkTextIsLines(Long(a.ts), ScopeString(a.ts.date, a.region, "s3"), prior, Digest(a.c, []), Digest(a.c, payload));
  }

  lemma SplitLine(digits: string, rest: string)
    requires Hex.AllHex(digits)
    ensures
      var text := digits + (";" + rest);
      IndexOf(text, ';') == |digits| && text[..|digits|] == digits && text[|digits|..] == ";" + rest
  {
    forall i | 0 <= i < |digits| ensures digits[i] != ';' {
      assert Hex.IsHexDigit(digits[i]);
    }
    assert digits + (";" + rest) == digits + [';'] + rest;
    IndexOfConcat(digits, ';', rest);
  }

  lemma ReadOwnLine(n: nat, signature: string)
    ensures ReadLine(Utf8(Hex.Print(n) + SIGNATURE_FIELD + signature)) == Some((n, signature))
  {
    var digits := Hex.Print(n);
    var text := digits + SIGNATURE_FIELD + signature;
    Utf8RoundTrip(text);
    Hex.ValuePrint(n);
    FieldFirst(signature);
    Regrouped(digits, SIGNATURE_FIELD, signature);
    SplitLine(digits, (SIGNATURE_FIELD + signature)[1..]);
    ReadLineOf(Utf8(text), text, digits, signature);
  }

  lemma FieldFirst(signature: string)
    ensures SIGNATURE_FIELD + signature == ";" + (SIGNATURE_FIELD + signature)[1..]
  {
    assert (SIGNATURE_FIELD + signature)[0] == ';';
  }

  lemma ReadLineOf(line: Bytes, text: string, digits: string, signature: string)
    requires FromUtf8(line) == Some(text) && digits != "" && Hex.AllHex(digits)
    requires IndexOf(text, ';') == |digits| && text[..|digits|] == digits
      && text[|digits|..] == SIGNATURE_FIELD + signature
    ensures ReadLine(line) == Some((Hex.Value(digits), signature))
  {
    var field := SIGNATURE_FIELD;
    assert (field + signature)[..|field|] == field && (field + signature)[|field|..] == signature;
  }

  /** The pieces of one frame of the proxy, as the decoder cuts them off a stream. */
  lemma CutFrame(payload: Bytes, signature: string, tail: Bytes, stream: Bytes) returns (line: Bytes)
    requires Hex.IsLowerHex(signature) && stream == Frame(payload, signature) + tail
    ensures ReadLine(line) == Some((|payload|, signature))
    ensures |Frame(payload, signature)| == |line| + 2 + |payload| + 2 == |stream| - |tail|
    ensures Find(stream, CRLF) == Some(|line|) && stream[..|line|] == line
    ensures stream[|line| + 2..|line| + 2 + |payload|] == payload
    ensures stream[|line| + 2 + |payload|..|line| + 2 + |payload| + 2] == CRLF
  {
    var text := Hex.Print(|payload|) + SIGNATURE_FIELD + signature;
    line := Utf8(text);
    CleanAsciiHasNoCr(text);
    CleanHasNoCrlf(line);
    ReadOwnLine(|payload|, signature);
    assert Frame(payload, signature) == line + CRLF + payload + CRLF;
    FrameSlices(line, payload, tail, stream);
  }

  lemma FrameSlices(line: Bytes, payload: Bytes, tail: Bytes, stream: Bytes)
    requires stream == line + CRLF + payload + CRLF + tail && !HasCrlf(line)
    ensures Find(stream, CRLF) == Some(|line|) && stream[..|line|] == line
    ensures stream[|line| + 2..|line| + 2 + |payload|] == payload
    ensures stream[|line| + 2 + |payload|..|line| + 2 + |payload| + 2] == CRLF
  {
    Regroup(line, CRLF, payload, tail);
    FindLineEnd(line, payload + CRLF + tail);
    Regrouped(line + CRLF + payload, CRLF, tail);
    MiddleIs(line + CRLF, payload, CRLF + tail);
    MiddleIs(line + CRLF + payload, CRLF, tail);
    StartsWithLine(line, payload, tail);
  }

  lemma MiddleIs(a: Bytes, b: Bytes, c: Bytes)
    ensures (a + b + c)[|a|..|a| + |b|] == b
  {
  }

  lemma StartsWithLine(line: Bytes, payload: Bytes, tail: Bytes)
    ensures (line + CRLF + payload + CRLF + tail)[..|line|] == line
  {
  }

  /** The reader takes the proxy's frame for a payload off the front of a stream. */
  ghost predicate TakesFrame(read: Reader, u: Upload, prior: string, payload: Bytes, tail: Bytes) {
    var s := ChunkSignature(u, prior, payload);
    read(prior, Frame(payload, s) + tail) == Some(Chunk(payload, s, |Frame(payload, s)|))
  }

  /** The reader takes every frame of the proxy's chain, in front of any stream. */
  ghost predicate Follows(read: Reader, u: Upload) {
    && (forall prior :: read(prior, []).None?)
    && (forall prior, payload, tail :: TakesFrame(read, u, prior, payload, tail))
  }

  lemma ReadDataAt(expected: (string, Bytes) -> string, prior: string, stream: Bytes, i: nat, payload: Bytes,
                   signature: string)
    requires i + 2 + |payload| + 2 <= |stream| && stream[i + 2 + |payload|..i + 2 + |payload| + 2] == CRLF
    requires stream[i + 2..i + 2 + |payload|] == payload && signature == expected(prior, payload)
    ensures ReadData(expected, prior, stream, i, |payload|, signature)
         == Some(Chunk(payload, signature, i + 2 + |payload| + 2))
  {
  }

  lemma ReadFrameAt(expected: (string, Bytes) -> string, prior: string, frame: Bytes, line: Bytes, payload: Bytes,
                    signature: string, tail: Bytes)
    requires ReadLine(line) == Some((|payload|, signature)) && |frame| == |line| + 2 + |payload| + 2
    requires Find(frame + tail, CRLF) == Some(|line|) && (frame + tail)[..|line|] == line
    requires (frame + tail)[|line| + 2..|line| + 2 + |payload|] == payload
    requires (frame + tail)[|line| + 2 + |payload|..|line| + 2 + |payload| + 2] == CRLF
    requires signature == expected(prior, payload)
    ensures ReadChunk(expected, prior, frame + tail) == Some(Chunk(payload, signature, |frame|))
  {
    ReadDataAt(expected, prior, frame + tail, |line|, payload, signature);
  }

  lemma ReadSignedFrame(expected: (string, Bytes) -> string, prior: string, payload: Bytes, signature: string,
                        tail: Bytes)
    requires Hex.IsLowerHex(signature) && signature == expected(prior, payload)
    ensures
      ReadChunk(expected, prior, Frame(payload, signature) + tail)
      == Some(Chunk(payload, signature, |Frame(payload, signature)|))
  {
    var frame := Frame(payload, signature);
    var line := CutFrame(payload, signature, tail, frame + tail);
    ReadFrameAt(expected, prior, frame, line, payload, signature, tail);
  }

  lemma SignsAlike(u: Upload, expected: (string, Bytes) -> string, prior: string, payload: Bytes, tail: Bytes)
    requires ChunkSignature(u, prior, payload) == expected(prior, payload)
    ensures
      var s := ChunkSignature(u, prior, payload);
      ReadChunk(expected, prior, Frame(payload, s) + tail) == Some(Chunk(payload, s, |Frame(payload, s)|))
  {
    ReadSignedFrame(expected, prior, payload, ChunkSignature(u, prior, payload), tail);
  }

  lemma BackendFollows(u: Upload, a: Account)
    requires Agrees(u, a)
    ensures Follows(ReaderOf(a), u)
  {
    var read := ReaderOf(a);
    forall prior: string, payload: Bytes, tail: Bytes ensures TakesFrame(read, u, prior, payload, tail) {
      SignaturesAgree(u, a, prior, payload);
      SignsAlike(u, ExpectedBy(a), prior, payload, tail);
    }
    forall prior: string ensures read(prior, []).None? {
    }
  }

  /** What decoding gives when one more chunk stands in front. */
  function Behind(payload: Bytes, later: Option<seq<Bytes>>): Option<seq<Bytes>> {
    if later.None? then None else Some([payload] + later.value)
  }

  lemma DecodeFrame(u: Upload, read: Reader, prior: string, payload: Bytes, tail: Bytes)
    requires Follows(read, u)
    ensures
      var s := ChunkSignature(u, prior, payload);
      Decode(read, prior, Frame(payload, s) + tail)
      == if payload == [] then (if tail == [] then Some([]) else None) else Behind(payload, Decode(read, s, tail))
  {
    var s := ChunkSignature(u, prior, payload);
    assert TakesFrame(read, u, prior, payload, tail);
    BehindFrame(Frame(payload, s), tail);
    DecodeTaken(read, prior, Frame(payload, s), payload, s, tail);
  }

  lemma BehindFrame(frame: Bytes, tail: Bytes)
    ensures (frame + tail)[|frame|..] == tail
  {
  }

  lemma DecodeTaken(read: Reader, prior: string, frame: Bytes, payload: Bytes, signature: string, tail: Bytes)
    requires read(prior, frame + tail) == Some(Chunk(payload, signature, |frame|)) && (frame + tail)[|frame|..] == tail
    ensures Decode(read, prior, frame + tail)
         == if payload == [] then (if tail == [] then Some([]) else None)
           else Behind(payload, Decode(read, signature, tail))
  {
  }

  /** The backend accepts everything the proxy encodes, and reads the same payloads. */
  lemma {:induction false} DecodeEncoded(u: Upload, read: Reader, prior: string, payloads: seq<Bytes>)
    requires Follows(read, u)
    requires forall i :: 0 <= i < |payloads| ==> payloads[i] != []
    ensures Decode(read, prior, Encoded(u, prior, payloads)) == Some(payloads)
    decreases |payloads|
  {
    if payloads == [] {
      DecodeFrame(u, read, prior, [], []);
      EncodedNothing(u, prior);
    } else {
      var s := ChunkSignature(u, prior, payloads[0]);
      var tail := Encoded(u, s, payloads[1..]);
      DecodeEncoded(u, read, s, payloads[1..]);
      DecodeFrame(u, read, prior, payloads[0], tail);
      EncodedFirst(u, prior, payloads);
      FirstAndOthers(payloads);
    }
  }

  lemma FirstAndOthers(payloads: seq<Bytes>)
    requires payloads != []
    ensures [payloads[0]] + payloads[1..] == payloads
  {
  }

  lemma EncodedNothing(u: Upload, prior: string)
    ensures Encoded(u, prior, []) == Frame([], ChunkSignature(u, prior, [])) + []
  {
    var last := Frame([], ChunkSignature(u, prior, []));
    assert last + [] == last && [] + last == last;
  }

  lemma EncodedFirst(u: Upload, prior: string, payloads: seq<Bytes>)
    requires payloads != []
    ensures
      var s := ChunkSignature(u, prior, payloads[0]);
      Encoded(u, prior, payloads) == Frame(payloads[0], s) + Encoded(u, s, payloads[1..])
  {
    var s := ChunkSignature(u, prior, payloads[0]);
    Regrouped(Frame(payloads[0], s), Chained(u, s, payloads[1..]),
          Frame([], ChunkSignature(u, LastSignature(u, s, payloads[1..]), [])));
  }

  /** Without a terminal frame the backend rejects the body. */
  lemma {:induction false} DecodeUnterminated(u: Upload, read: Reader, prior: string, payloads: seq<Bytes>)
    requires Follows(read, u)
    requires forall i :: 0 <= i < |payloads| ==> payloads[i] != []
    ensures Decode(read, prior, Chained(u, prior, payloads)) == None
    decreases |payloads|
  {
    if payloads != [] {
      var s := ChunkSignature(u, prior, payloads[0]);
      DecodeUnterminated(u, read, s, payloads[1..]);
      DecodeFrame(u, read, prior, payloads[0], Chained(u, s, payloads[1..]));
    }
  }

  // ---------------------------------------------------------------- Client bodies

  /** A complete client upload: chunks with data, then a zero-length chunk. */
  datatype ClientBody = ClientBody(chunks: seq<ClientChunk>, terminal: ClientChunk) {
    predicate Valid() {
      && (forall i :: 0 <= i < |chunks| ==> chunks[i].Valid() && chunks[i].data != [])
      && terminal.Valid() && terminal.data == []
    }

    function OnWire(): Bytes {
      Wire(chunks, terminal)
    }
  }

  function Wire(chunks: seq<ClientChunk>, terminal: ClientChunk): Bytes {
    if chunks == [] then terminal.Raw() else chunks[0].Raw() + Wire(chunks[1..], terminal)
  }

  function Payloads(chunks: seq<ClientChunk>): (p: seq<Bytes>)
    ensures |p| == |chunks|
    ensures forall i :: 0 <= i < |chunks| ==> p[i] == chunks[i].data
  {
    if chunks == [] then [] else [chunks[0].data] + Payloads(chunks[1..])
  }

  /** A well-formed body parses to its payloads and one zero-length frame, with nothing left over. */
  lemma {:induction false} WireFrames(take: Parser, chunks: seq<ClientChunk>, terminal: ClientChunk)
    requires ReadsChunks(take) && ClientBody(chunks, terminal).Valid() && |Wire(chunks, terminal)| < Hex.WORD
    ensures AllFrames(take, Wire(chunks, terminal)) == Payloads(chunks) + [[]]
    ensures Leftover(take, Wire(chunks, terminal)) == []
    decreases |chunks|
  {
    if chunks == [] {
      assert terminal.Raw() + [] == terminal.Raw();
      FramesAfter(take, terminal.Raw(), [], []);
    } else {
      var tail := Wire(chunks[1..], terminal);
      WireFrames(take, chunks[1..], terminal);
      FramesAfter(take, chunks[0].Raw(), chunks[0].data, tail);
      Regrouped([chunks[0].data], Payloads(chunks[1..]), [[]]);
    }
  }

  lemma FramesAfter(take: Parser, raw: Bytes, data: Bytes, tail: Bytes)
    requires take(raw + tail) == Whole(data, |raw|)
    ensures AllFrames(take, raw + tail) == [data] + AllFrames(take, tail)
    ensures Leftover(take, raw + tail) == Leftover(take, tail)
  {
    assert (raw + tail)[|raw|..] == tail;
  }

  lemma {:induction false} ZeroLast(payloads: seq<Bytes>)
    requires forall i :: 0 <= i < |payloads| ==> payloads[i] != []
    ensures UpToZero(payloads + [[]]) == payloads + [[]]
    ensures NothingAfterZero(payloads + [[]]) && Data(payloads + [[]]) == payloads
  {
    UpToZeroOfData(payloads);
    DataAppend(payloads, [[]]);
    DataOfData(payloads);
  }

  lemma {:induction false} UpToZeroOfData(payloads: seq<Bytes>)
    requires forall i :: 0 <= i < |payloads| ==> payloads[i] != []
    ensures UpToZero(payloads + [[]]) == payloads + [[]]
  {
    if payloads != [] {
      assert (payloads + [[]])[1..] == payloads[1..] + [[]];
      assert payloads == [payloads[0]] + payloads[1..];
      UpToZeroOfData(payloads[1..]);
      Regrouped([payloads[0]], payloads[1..], [[]]);
    }
  }

  lemma EveryCutEncodesWith(u: Upload, take: Parser, seed: string, body: ClientBody, calls: Calls, last: Bytes)
    requires Stable(take) && ReadsChunks(take)
    requires body.Valid() && |body.OnWire()| < Hex.WORD && Received(calls) + last == body.OnWire()
    ensures UploadOutput(u, take, seed, calls, last) == Encoded(u, seed, Payloads(body.chunks))
  {
    WireFrames(take, body.chunks, body.terminal);
    ZeroLast(Payloads(body.chunks));
    CutDoesNotMatter(u, take, seed, calls, last);
  }

  /**
   For every well-formed client body and every way of cutting it into calls, the output is exactly the
   signed chain over the client's payloads followed by one terminal frame.
   */
  lemma EveryCutEncodes(u: Upload, seed: string, body: ClientBody, calls: Calls, last: Bytes)
    requires body.Valid() && |body.OnWire()| < Hex.WORD && Received(calls) + last == body.OnWire()
    ensures UploadOutput(u, CHUNK_PARSER, seed, calls, last) == Encoded(u, seed, Payloads(body.chunks))
  {
    ChunkParserReads();
    EveryCutEncodesWith(u, CHUNK_PARSER, seed, body, calls, last);
  }

  lemma DecodeOutput(u: Upload, read: Reader, seed: string, payloads: seq<Bytes>, out: Bytes)
    requires Follows(read, u) && out == Encoded(u, seed, payloads)
    requires forall i :: 0 <= i < |payloads| ==> payloads[i] != []
    ensures Decode(read, seed, out) == Some(payloads)
  {
    DecodeEncoded(u, read, seed, payloads);
  }

  lemma PayloadsCarryData(body: ClientBody)
    requires body.Valid()
    ensures forall i :: 0 <= i < |Payloads(body.chunks)| ==> Payloads(body.chunks)[i] != []
  {
  }

  /**
   Transcoding preserves meaning: for every client body and every cut, the backend that knows the account
   accepts every chunk and reads the client's payloads.
   */
  lemma TranscodingPreservesMeaning(u: Upload, a: Account, seed: string, body: ClientBody, calls: Calls, last: Bytes)
    requires Agrees(u, a)
    requires body.Valid() && |body.OnWire()| < Hex.WORD && Received(calls) + last == body.OnWire()
    ensures Decode(ReaderOf(a), seed, UploadOutput(u, CHUNK_PARSER, seed, calls, last)) == Some(Payloads(body.chunks))
  {
    EveryCutEncodes(u, seed, body, calls, last);
    BackendFollows(u, a);
    PayloadsCarryData(body);
    DecodeOutput(u, ReaderOf(a), seed, Payloads(body.chunks), UploadOutput(u, CHUNK_PARSER, seed, calls, last));
  }

  // ---------------------------------------------------------------- A body whose cut matters

  /** `0 CRLF CRLF 1 CRLF A CRLF`: a chunk with data behind the terminal chunk. */
  function LateData(): (ClientChunk, ClientChunk) {
    (ClientChunk("0", "", []), ClientChunk("1", "", [65]))
  }

  lemma LateDataIsValid()
    ensures LateData().0.Valid() && LateData().1.Valid()
    ensures |LateData().0.Raw()| == 5 && |LateData().1.Raw()| == 6
  {
    CleanAsciiHasNoCr("0" + "");
    CleanAsciiHasNoCr("1" + "");
    CleanHasNoCrlf(Utf8("0" + ""));
    CleanHasNoCrlf(Utf8("1" + ""));
    assert "0" + "" == "0" && "1" + "" == "1";
    assert Hex.Value("0"[..0]) == 0 && Hex.Value("1"[..0]) == 0;
    Utf8OfAscii("0");
    Utf8OfAscii("1");
  }

  /** For this body the proxy's output depends on how the connection happened to cut it. */
  lemma LateDataDependsOnTheCut(u: Upload, take: Parser, seed: string)
    requires Stable(take) && ReadsChunks(take)
    ensures !CutsAgree(u, take, seed, LateData().0.Raw() + LateData().1.Raw())
  {
    LateDataIsValid();
    var zero, late := LateData().0.Raw(), LateData().1.Raw();
    assert late + [] == late;
    FramesAfter(take, late, [65], []);
    FramesAfter(take, zero, [], late);
    assert AllFrames(take, zero + late) == [[], [65]];
    assert UpToZero([[], [65]]) == [[]] && [[], [65]][1..] == [[65]];
    assert DataAfterZero([[], [65]]) == Data([[65]]);
    SoundFragmentation(u, take, seed, zero + late);
  }

  /** If the end of the stream arrives in a call without a body, the backend rejects the upload. */
  lemma EndWithoutBodyIsRejected(u: Upload, read: Reader, take: Parser, seed: string, calls: Calls)
    requires Follows(read, u) && Stable(take) && Sound(take, Received(calls))
    ensures
      var s := StateAfter(u, take, On(seed, []), calls);
      Decode(read, seed, OutputOf(u, take, On(seed, []), calls) + Emitted(FilterStep(u, take, s, None, true).body))
        == None
  {
    EndWithoutBody(u, take, seed, calls);
    DecodeUnterminated(u, read, seed, Data(Consumed(take, [], calls)));
    var out := OutputOf(u, take, On(seed, []), calls);
    assert out + [] == out;
  }
}
