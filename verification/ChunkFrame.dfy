/**
 The aws-chunked wire format: the frame printer and the frame parser of the proxy.

 A frame is `<hex length>;chunk-signature=<signature>CRLF<payload>CRLF`.
 */
module ChunkFrame {
  import opened Text
  import opened Frames
  import Hex

  const CRLF: Bytes := [13, 10]
  const SIGNATURE_FIELD := ";chunk-signature="

  predicate HasCrlf(b: Bytes) {
    Find(b, CRLF).Some?
  }

  // ---------------------------------------------------------------- Printing

  /** The bytes of one signed frame. */
  function Frame(payload: Bytes, signature: string): Bytes {
    Utf8(Hex.Print(|payload|) + SIGNATURE_FIELD + signature) + CRLF + payload + CRLF
  }

  /** `build_chunk_frame`: the header line, the payload and the closing CRLF are appended to one buffer. */
  method BuildChunkFrame(payload: Bytes, signature: string) returns (buf: Bytes)
    ensures buf == Frame(payload, signature)
  {
    buf := [];
    buf := buf + Utf8(Hex.Print(|payload|) + SIGNATURE_FIELD + signature + "\r\n");
    Utf8Append(Hex.Print(|payload|) + SIGNATURE_FIELD + signature, "\r\n");
    Utf8OfAscii("\r\n");
    assert Utf8("\r\n") == CRLF;
    buf := buf + payload;
    buf := buf + CRLF;
  }

  // ---------------------------------------------------------------- Parsing

  /** `parse_aws_chunk_header`: (bytes of the header line with its CRLF, announced payload length). */
  function ParseHeader(buf: Bytes): (r: Option<(nat, nat)>)
    ensures r.Some? ==> 2 <= r.value.0 <= |buf| && r.value.1 < Hex.WORD
  {
    match Find(buf, CRLF)
    case None => None
    case Some(crlf) =>
      match FromUtf8(buf[..crlf])
      case None => None
      case Some(header) =>
        match Hex.ParseUsize(Trim(Split(header, ';')[0]))
        case None => None
        case Some(length) => Some((crlf + 2, length))
  }

  /**
   The buffer behind a header that has been read.  `header_len + payload_len + 2` is a sum of machine
   words that wraps around in a release build (no overflow checks): see `WrappedSlicePanics`.
   */
  function TakeAt(buf: Bytes, headerLen: nat, payloadLen: nat): (t: Taken)
    requires 2 <= headerLen <= |buf|
    ensures t.Whole? ==> |t.payload| + 2 < t.size <= |buf|
  {
    var total := headerLen + payloadLen + 2;
    if |buf| < total % Hex.WORD then Wait
    else if total >= Hex.WORD then Overflow
    else Whole(buf[headerLen..headerLen + payloadLen], total)
  }

  /** One turn of the loop of the body filter: what can be taken off the buffer. */
  function Take(buf: Bytes): (t: Taken)
    ensures t.Whole? ==> |t.payload| + 2 < t.size <= |buf|
  {
    match ParseHeader(buf)
    case None => Wait
    case Some((headerLen, payloadLen)) => TakeAt(buf, headerLen, payloadLen)
  }

  /** Once the sum has wrapped, the slice `[header_len..header_len + payload_len]` is out of order or out of range. */
  lemma WrappedSlicePanics(headerLen: nat, payloadLen: nat, bufLen: nat)
    requires headerLen <= bufLen < Hex.WORD / 2 && payloadLen < Hex.WORD
    requires headerLen + payloadLen + 2 >= Hex.WORD
    ensures !(headerLen <= (headerLen + payloadLen) % Hex.WORD <= bufLen)
  {
    var end := headerLen + payloadLen;
    if end >= Hex.WORD {
      assert end % Hex.WORD == end - Hex.WORD;
    } else {
      assert end % Hex.WORD == end;
    }
  }

  // ---------------------------------------------------------------- Stability

  lemma FindInPrefix(buf: Bytes, n: nat, i: nat)
    requires n <= |buf| && Find(buf, CRLF) == Some(i) && i + 2 <= n
    ensures Find(buf[..n], CRLF) == Some(i)
  {
    assert buf[..n][i..i + 2] == buf[i..i + 2];
    forall j | 0 <= j < i ensures !OccursAt(buf[..n], CRLF, j) {
      assert !OccursAt(buf, CRLF, j);
      assert buf[..n][j..j + 2] == buf[j..j + 2];
    }
    FindIs(buf[..n], CRLF, i);
  }

  lemma FindInExtension(buf: Bytes, more: Bytes, i: nat)
    requires Find(buf, CRLF) == Some(i)
    ensures Find(buf + more, CRLF) == Some(i)
  {
    var whole := buf + more;
    assert whole[i..i + 2] == buf[i..i + 2];
    forall j | 0 <= j < i ensures !OccursAt(whole, CRLF, j) {
      assert !OccursAt(buf, CRLF, j);
      assert whole[j..j + 2] == buf[j..j + 2];
    }
    FindIs(whole, CRLF, i);
  }

  /** A header that has been read never changes when bytes arrive after it. */
  lemma ParseHeaderStable(buf: Bytes, more: Bytes)
    requires ParseHeader(buf).Some?
    ensures ParseHeader(buf + more) == ParseHeader(buf)
  {
    var i := Find(buf, CRLF).value;
    FindInExtension(buf, more, i);
    assert (buf + more)[..i] == buf[..i];
  }

  lemma TakeAtStable(buf: Bytes, more: Bytes, h: nat, p: nat)
    requires 2 <= h <= |buf| && !TakeAt(buf, h, p).Wait?
    ensures TakeAt(buf + more, h, p) == TakeAt(buf, h, p)
  {
    if h + p + 2 < Hex.WORD {
      assert (buf + more)[h..h + p] == buf[h..h + p];
    }
  }

  /** A complete frame, or a panic, at the head of the buffer does not depend on what follows it. */
  lemma TakeStable(buf: Bytes, more: Bytes)
    requires !Take(buf).Wait?
    ensures Take(buf + more) == Take(buf)
  {
    ParseHeaderStable(buf, more);
    var (h, p) := ParseHeader(buf).value;
    TakeAtStable(buf, more, h, p);
  }

  lemma ParseHeaderInPrefix(buf: Bytes, n: nat)
    requires ParseHeader(buf).Some? && ParseHeader(buf).value.0 <= n <= |buf|
    ensures ParseHeader(buf[..n]) == ParseHeader(buf)
  {
    var i := Find(buf, CRLF).value;
    FindInPrefix(buf, n, i);
    assert buf[..n][..i] == buf[..i];
  }

  /** The frame's own bytes are enough to take it. */
  lemma TakeAlone(buf: Bytes)
    requires Take(buf).Whole?
    ensures Take(buf[..Take(buf).size]) == Take(buf)
  {
    var (h, p) := ParseHeader(buf).value;
    ParseHeaderInPrefix(buf, Take(buf).size);
    TakeAtAlone(buf, h, p);
  }

  lemma TakeAtAlone(buf: Bytes, h: nat, p: nat)
    requires 2 <= h <= |buf| && TakeAt(buf, h, p).Whole?
    ensures TakeAt(buf[..h + p + 2], h, p) == TakeAt(buf, h, p)
  {
    assert buf[..h + p + 2][h..h + p] == buf[h..h + p];
  }

  // ---------------------------------------------------------------- Frames a client may send

  /**
   A chunk as a client writes it: a hexadecimal length of either case, possibly with leading zeros,
   any chunk extension (the client's signature), and the data.
   */
  datatype ClientChunk = ClientChunk(digits: string, extension: string, data: Bytes) {
    predicate Valid() {
      && digits != "" && Hex.AllHex(digits) && Hex.Value(digits) == |data|
      && (extension == "" || extension[0] == ';')
      && !HasCrlf(Utf8(digits + extension))
    }

    function Raw(): Bytes {
      Utf8(digits + extension) + CRLF + data + CRLF
    }
  }

  lemma FindLineEnd(line: Bytes, rest: Bytes)
    requires !HasCrlf(line)
    ensures Find(line + CRLF + rest, CRLF) == Some(|line|)
  {
    var buf := line + CRLF + rest;
    assert buf[|line|..|line| + 2] == CRLF;
    forall j | 0 <= j < |line| ensures !OccursAt(buf, CRLF, j) {
      if j + 2 <= |line| {
        assert !OccursAt(line, CRLF, j);
        assert buf[j..j + 2] == line[j..j + 2];
      } else {
        assert buf[j..j + 2][1] == buf[|line|] == 13;
      }
    }
    FindIs(buf, CRLF, |line|);
  }

  lemma HexHasNoSemicolon(digits: string)
    requires Hex.AllHex(digits)
    ensures ';' !in digits
  {
    forall i | 0 <= i < |digits| ensures digits[i] != ';' {
      assert Hex.IsHexDigit(digits[i]);
    }
  }

  lemma ExtensionShape(digits: string, extension: string)
    requires extension != "" && extension[0] == ';'
    ensures digits + extension == digits + [';'] + extension[1..]
  {
  }

  lemma DigitsBeforeExtension(digits: string, extension: string)
    requires digits != "" && Hex.AllHex(digits) && (extension == "" || extension[0] == ';')
    ensures Split(digits + extension, ';')[0] == digits
  {
    HexHasNoSemicolon(digits);
    if extension == "" {
      assert digits + extension == digits;
      SplitAbsent(digits, ';');
    } else {
      ExtensionShape(digits, extension);
      SplitConcat(digits, ';', extension[1..]);
    }
  }

  /** The parser reads back the length and the extent of every well-formed chunk, whatever follows it. */
  lemma ParseClientHeader(c: ClientChunk, tail: Bytes)
    requires c.Valid() && |c.data| < Hex.WORD
    ensures ParseHeader(c.Raw() + tail) == Some((|c.Raw()| - |c.data| - 2, |c.data|))
  {
    var text := c.digits + c.extension;
    var rest := c.data + CRLF + tail;
    Regroup(Utf8(text), CRLF, c.data, tail);
    ParseLine(text, rest);
    DigitsBeforeExtension(c.digits, c.extension);
    Hex.ParseDigits(c.digits);
  }

  lemma Regroup<T>(a: seq<T>, b: seq<T>, c: seq<T>, d: seq<T>)
    ensures a + b + c + b + d == a + b + (c + b + d)
  {
  }

  lemma ParseLine(text: string, rest: Bytes)
    requires !HasCrlf(Utf8(text))
    ensures ParseHeader(Utf8(text) + CRLF + rest)
         == match Hex.ParseUsize(Trim(Split(text, ';')[0]))
            case None => None
            case Some(length) => Some((|Utf8(text)| + 2, length))
  {
    var buf := Utf8(text) + CRLF + rest;
    FindLineEnd(Utf8(text), rest);
    assert buf[..|Utf8(text)|] == Utf8(text);
    Utf8RoundTrip(text);
  }

  lemma TakeClient(c: ClientChunk, tail: Bytes)
    requires c.Valid() && |c.Raw()| < Hex.WORD
    ensures Take(c.Raw() + tail) == Whole(c.data, |c.Raw()|)
  {
    var head := Utf8(c.digits + c.extension) + CRLF;
    RawShape(c, head, tail);
    ParseClientHeader(c, tail);
    TakeWithHeader(c.Raw() + tail, head, c.data, tail);
  }

  lemma RawShape(c: ClientChunk, head: Bytes, tail: Bytes)
    requires head == Utf8(c.digits + c.extension) + CRLF
    ensures c.Raw() + tail == head + c.data + (CRLF + tail) && |c.Raw()| == |head| + |c.data| + 2
  {
    RegroupTail(head, c.data, CRLF, tail);
  }

  lemma RegroupTail<T>(a: seq<T>, b: seq<T>, c: seq<T>, d: seq<T>)
    ensures a + b + c + d == a + b + (c + d)
  {
  }

  lemma TakeWithHeader(buf: Bytes, head: Bytes, data: Bytes, tail: Bytes)
    requires buf == head + data + (CRLF + tail) && 2 <= |head| && |head| + |data| + 2 < Hex.WORD
    requires ParseHeader(buf) == Some((|head|, |data|))
    ensures Take(buf) == Whole(data, |head| + |data| + 2)
  {
    TakeAtClient(head, data, tail);
  }

  lemma TakeAtClient(head: Bytes, data: Bytes, tail: Bytes)
    requires 2 <= |head| && |head| + |data| + 2 < Hex.WORD
    ensures TakeAt(head + data + (CRLF + tail), |head|, |data|) == Whole(data, |head| + |data| + 2)
  {
    assert (head + data + (CRLF + tail))[|head|..|head| + |data|] == data;
  }

  /** A parser that takes every well-formed chunk off the front of any stream. */
  ghost predicate ReadsChunks(take: Parser) {
    && take([]).Wait?
    && (forall c: ClientChunk, tail: Bytes :: c.Valid() && |c.Raw()| < Hex.WORD ==>
          take(c.Raw() + tail) == Whole(c.data, |c.Raw()|))
  }

  /** The frame parser of the proxy. */
  const CHUNK_PARSER: Parser := Take

  /** The chunk parser fits the theory of framed streams and reads every well-formed chunk. */
  lemma ChunkParserReads()
    ensures Stable(CHUNK_PARSER) && ReadsChunks(CHUNK_PARSER)
  {
    forall b: Bytes, more: Bytes | !Take(b).Wait? ensures Take(b + more) == Take(b) {
      TakeStable(b, more);
    }
    forall b: Bytes | Take(b).Whole? ensures Take(b[..Take(b).size]) == Take(b) {
      TakeAlone(b);
    }
    forall c: ClientChunk, tail: Bytes | c.Valid() && |c.Raw()| < Hex.WORD
      ensures Take(c.Raw() + tail) == Whole(c.data, |c.Raw()|)
    {
      TakeClient(c, tail);
    }
    assert Take([]).Wait?;
  }

  // ---------------------------------------------------------------- Printer and parser

  predicate IsCleanAscii(s: string) {
    forall i :: 0 <= i < |s| ==> s[i] as int < 0x80 && s[i] != '\r'
  }

  lemma CleanAsciiHasNoCr(s: string)
    requires IsCleanAscii(s)
    ensures 13 !in Utf8(s)
  {
    Utf8OfAscii(s);
  }

  lemma NoCrlfAfterCleanPrefix(clean: Bytes, rest: Bytes)
    requires 13 !in clean && !HasCrlf(rest)
    ensures !HasCrlf(clean + rest)
  {
    var b := clean + rest;
    forall i | 0 <= i <= |b| - 2 ensures !OccursAt(b, CRLF, i) {
      assert b[i..i + 2][0] == b[i];
      if i < |clean| {
        assert clean[i] in clean;
      } else {
        assert !OccursAt(rest, CRLF, i - |clean|);
        assert rest[i - |clean|..i - |clean| + 2] == b[i..i + 2];
      }
    }
  }

  lemma CleanHasNoCrlf(clean: Bytes)
    requires 13 !in clean
    ensures !HasCrlf(clean)
  {
    assert !HasCrlf([]);
    NoCrlfAfterCleanPrefix(clean, []);
    assert clean + [] == clean;
  }

  /** The chunk the proxy writes for a payload under a signature. */
  function OwnChunk(payload: Bytes, signature: string): ClientChunk {
    ClientChunk(Hex.Print(|payload|), SIGNATURE_FIELD + signature, payload)
  }

  lemma OwnPrefixIsClean(digits: string)
    requires Hex.IsLowerHex(digits)
    ensures IsCleanAscii(digits + SIGNATURE_FIELD)
  {
  }

  lemma OwnLineHasNoCrlf(digits: string, signature: string)
    requires Hex.IsLowerHex(digits) && !HasCrlf(Utf8(signature))
    ensures !HasCrlf(Utf8(digits + (SIGNATURE_FIELD + signature)))
  {
    var clean := digits + SIGNATURE_FIELD;
    Regrouped(digits, SIGNATURE_FIELD, signature);
    Utf8Append(clean, signature);
    OwnPrefixIsClean(digits);
    CleanAsciiHasNoCr(clean);
    NoCrlfAfterCleanPrefix(Utf8(clean), Utf8(signature));
  }

  lemma FieldStarts(signature: string)
    ensures SIGNATURE_FIELD + signature != "" && (SIGNATURE_FIELD + signature)[0] == ';'
  {
  }

  /** Every frame the proxy prints, under any CRLF-free signature, is a well-formed chunk. */
  lemma FrameIsWellFormed(payload: Bytes, signature: string)
    requires !HasCrlf(Utf8(signature))
    ensures OwnChunk(payload, signature).Valid()
    ensures OwnChunk(payload, signature).Raw() == Frame(payload, signature)
  {
    var digits := Hex.Print(|payload|);
    Hex.ValuePrint(|payload|);
    OwnLineHasNoCrlf(digits, signature);
    Regrouped(digits, SIGNATURE_FIELD, signature);
    FieldStarts(signature);
  }

  /** The printer and the parser undo each other, whatever bytes follow the frame. */
  lemma FrameRoundTrip(payload: Bytes, signature: string, tail: Bytes)
    requires |payload| < Hex.WORD && !HasCrlf(Utf8(signature))
    ensures
      ParseHeader(Frame(payload, signature) + tail) == Some((|Frame(payload, signature)| - |payload| - 2, |payload|))
  {
    FrameIsWellFormed(payload, signature);
    ParseClientHeader(OwnChunk(payload, signature), tail);
  }
}
