/**
 When the output of an upload depends on how the connection cuts the client's bytes: the exact condition over
 all byte streams, those that announce a length beyond the machine word included.
 */
module Fragmentation {
  import opened Text
  import opened Crypto
  import opened Frames
  import opened ChunkFrame
  import opened Streaming
  import opened Transcoding
  import Backend
  import Hex

  // ---------------------------------------------------------------- Overflow before any frame

  /** In front of an overflow that comes first, no part of the stream holds a frame. */
  lemma NothingBeforeOverflow(take: Parser, buf: Bytes, more: Bytes)
    requires Stable(take) && take(buf + more).Overflow?
    ensures !take(buf).Whole? && Drained(take, buf) == [] && Rest(take, buf) == buf
  {
    if !take(buf).Wait? { assert take(buf + more) == take(buf); }
  }

  lemma {:induction false} PanickedRun(u: Upload, take: Parser, calls: Calls)
    ensures OutputOf(u, take, Panicked, calls) == [] && StateAfter(u, take, Panicked, calls) == Panicked
  {
    if calls != [] {
      PanickedRun(u, take, calls[1..]);
      assert FilterStep(u, take, Panicked, calls[0], false) == Step(Panicked, None);
    }
  }

  /** Such a call sends nothing: it keeps its bytes, or panics. */
  lemma SilentCall(u: Upload, take: Parser, prior: string, buf: Bytes, body: Option<Bytes>, more: Bytes)
    requires Stable(take) && take(buf + Emitted(body) + more).Overflow?
    ensures
      var step := FilterStep(u, take, On(prior, buf), body, false);
      Emitted(step.body) == [] && (step.next == Panicked || step.next == On(prior, buf + Emitted(body)))
  {
    if Emitted(body) == [] {
      assert buf + [] == buf;
    } else {
      var whole := buf + body.value;
      NothingBeforeOverflow(take, whole, more);
      CallConsumes(u, take, prior, buf, body.value, false);
      if take(whole).Overflow? {
        ConsumePanics(u, take, prior, whole, false);
      } else {
        ConsumeSigns(u, take, prior, whole);
      }
    }
  }

  lemma {:induction false} SilentRun(u: Upload, take: Parser, prior: string, buf: Bytes, calls: Calls, more: Bytes)
    requires Stable(take) && take(buf + Received(calls) + more).Overflow?
    ensures OutputOf(u, take, On(prior, buf), calls) == []
    ensures
      var s := StateAfter(u, take, On(prior, buf), calls);
      s == Panicked || s == On(prior, buf + Received(calls))
    decreases |calls|
  {
    if calls == [] {
      assert buf + Received(calls) == buf;
    } else {
      var head, later := Emitted(calls[0]), Received(calls[1..]);
      Regrouped(buf, head, later);
      Regrouped(buf + head, later, more);
      SilentCall(u, take, prior, buf, calls[0], later + more);
      SilentThen(u, take, prior, buf, calls, more);
    }
  }

  lemma SilentThen(u: Upload, take: Parser, prior: string, buf: Bytes, calls: Calls, more: Bytes)
    requires Stable(take) && calls != [] && take(buf + Emitted(calls[0]) + Received(calls[1..]) + more).Overflow?
    requires
      var step := FilterStep(u, take, On(prior, buf), calls[0], false);
      Emitted(step.body) == [] && (step.next == Panicked || step.next == On(prior, buf + Emitted(calls[0])))
    ensures OutputOf(u, take, On(prior, buf), calls) == []
    ensures
      var s := StateAfter(u, take, On(prior, buf), calls);
      s == Panicked || s == On(prior, buf + Emitted(calls[0]) + Received(calls[1..]))
    decreases |calls|, 0
  {
    var step := FilterStep(u, take, On(prior, buf), calls[0], false);
    if step.next == Panicked {
      PanickedRun(u, take, calls[1..]);
    } else {
      SilentRun(u, take, prior, buf + Emitted(calls[0]), calls[1..], more);
    }
  }

  /** Every cut of a stream that overflows first sends nothing at all. */
  lemma SilentUpload(u: Upload, take: Parser, seed: string, calls: Calls, last: Bytes)
    requires Stable(take) && take(Received(calls) + last).Overflow?
    ensures UploadOutput(u, take, seed, calls, last) == []
  {
    var whole := Received(calls) + last;
    assert [] + Received(calls) == Received(calls);
    SilentRun(u, take, seed, [], calls, last);
    var s := StateAfter(u, take, On(seed, []), calls);
    if s.On? {
      CallConsumes(u, take, seed, Received(calls), last, true);
      ConsumePanics(u, take, seed, whole, true);
    }
  }

  // ---------------------------------------------------------------- Overflow behind a frame

  lemma EmptyIsNoOverflow(take: Parser, buf: Bytes)
    requires Stable(take) && take(buf).Whole?
    ensures !take([]).Overflow? && !take([]).Whole?
  {
    assert [] + buf == buf;
    assert !take([]).Wait? ==> take([] + buf) == take([]);
  }

  /** The frames of a stream, one per call, form a sound stream. */
  lemma {:induction false} FramesAreSound(take: Parser, buf: Bytes)
    requires Stable(take) && !take([]).Overflow?
    ensures Sound(take, Received(FrameByFrame(take, buf)))
    decreases |buf|
  {
    if take(buf).Whole? {
      var one, tail := buf[..take(buf).size], buf[take(buf).size..];
      FramesAreSound(take, tail);
      ReceivedCons(one, FrameByFrame(take, tail));
      SoundBehindFrame(take, one, Received(FrameByFrame(take, tail)));
    } else {
      assert Received(FrameByFrame(take, buf)) == [];
    }
  }

  lemma SoundBehindFrame(take: Parser, one: Bytes, tail: Bytes)
    requires Stable(take) && take(one).Whole? && take(one).size == |one| && Sound(take, tail)
    ensures Sound(take, one + tail)
  {
    assert take(one + tail) == take(one);
    assert (one + tail)[|one|..] == tail;
  }

  /** Frame by frame, all data of the stream is sent before the overflow ends the upload. */
  lemma FrameByFrameThenOverflow(u: Upload, take: Parser, seed: string, buf: Bytes)
    requires Stable(take) && !Sound(take, buf) && take(buf).Whole?
    ensures UploadOutput(u, take, seed, FrameByFrame(take, buf), Leftover(take, buf))
         == Chained(u, seed, Data(AllFrames(take, buf)))
  {
    var calls, last := FrameByFrame(take, buf), Leftover(take, buf);
    EmptyIsNoOverflow(take, buf);
    FramesAreSound(take, buf);
    assert [] + Received(calls) == Received(calls);
    RunSigns(u, take, seed, [], calls);
    FrameByFrameConsumesAll(take, buf);
    OverflowingEnd(u, take, LastSignature(u, seed, Data(AllFrames(take, buf))), last);
    NothingBehind(Chained(u, seed, Data(AllFrames(take, buf))));
  }

  lemma NothingBehind(sent: Bytes)
    ensures sent + [] == sent
  {
  }

  lemma OverflowingEnd(u: Upload, take: Parser, prior: string, last: Bytes)
    requires take(last).Overflow?
    ensures FilterStep(u, take, On(prior, []), Some(last), true) == Step(Panicked, None)
  {
    assert [] + last == last;
    assert Drained(take, last) == [] && Rest(take, last) == last;
    CallConsumes(u, take, prior, [], last, true);
    ConsumePanics(u, take, prior, last, true);
  }

  /** In a single call the data up to the first zero-length frame is sent, or nothing if there is none. */
  lemma OneCallThenOverflow(u: Upload, take: Parser, seed: string, buf: Bytes)
    requires !Sound(take, buf)
    ensures
      UploadOutput(u, take, seed, [], buf)
      == if EndsWithZero(Drained(take, buf)) then Encoded(u, seed, Data(UpToZero(AllFrames(take, buf)))) else []
  {
    assert [] + buf == buf;
    CallConsumes(u, take, seed, [], buf, true);
    DrainedIsUpToZero(take, buf);
    if EndsWithZero(Drained(take, buf)) {
      ConsumeSigns(u, take, seed, buf);
      NothingSent(Encoded(u, seed, Data(UpToZero(AllFrames(take, buf)))));
    } else {
      UndrainedOverflow(take, buf);
      ConsumePanics(u, take, seed, buf, true);
    }
  }

  lemma UndrainedOverflow(take: Parser, buf: Bytes)
    requires !Sound(take, buf) && !EndsWithZero(Drained(take, buf))
    ensures take(Rest(take, buf)).Overflow? && Drained(take, buf) == AllFrames(take, buf)
    ensures Data(AllFrames(take, buf)) == AllFrames(take, buf)
  {
    DrainSplits(take, buf);
    DrainIsMaximal(take, buf);
    var drained := Drained(take, buf);
    assert drained + [] == drained;
    forall i | 0 <= i < |drained| ensures drained[i] != [] {
      if i == |drained| - 1 { assert !EndsWithZero(drained); }
    }
    DataOfData(drained);
  }

  /** A frame with data is longer than a terminal frame. */
  lemma TerminalIsShorter(payload: Bytes, a: string, b: string)
    requires payload != [] && |a| == |b| && Hex.IsLowerHex(a) && Hex.IsLowerHex(b)
    ensures |Frame([], a)| < |Frame(payload, b)|
  {
    HeadLength(Hex.Print(0), a);
    HeadLength(Hex.Print(|payload|), b);
    Hex.ValuePrint(0);
    Hex.ValuePrint(|payload|);
  }

  lemma HeadLength(digits: string, signature: string)
    requires Hex.AllHex(digits) && Hex.IsLowerHex(signature)
    ensures |Utf8(digits + SIGNATURE_FIELD + signature)| == |digits| + |SIGNATURE_FIELD| + |signature|
  {
    HexIsAscii(digits);
    FieldIsAscii();
    AsciiAppend(digits, SIGNATURE_FIELD);
    AsciiAppend(digits + SIGNATURE_FIELD, signature);
    Utf8OfAscii(digits + SIGNATURE_FIELD + signature);
  }

  lemma HexIsAscii(digits: string)
    requires Hex.AllHex(digits)
    ensures IsAscii(digits)
  {
    forall i | 0 <= i < |digits| ensures digits[i] as int < 0x80 {
      assert Hex.IsHexDigit(digits[i]);
    }
  }

  lemma FieldIsAscii()
    ensures IsAscii(SIGNATURE_FIELD)
  {
  }

  lemma AsciiAppend(a: string, b: string)
    requires IsAscii(a) && IsAscii(b)
    ensures IsAscii(a + b)
  {
  }

  /** A chain of data frames never is as long as a terminal frame. */
  lemma ChainIsNoTerminal(u: Upload, prior: string, payloads: seq<Bytes>, signature: string)
    requires |signature| == 64 && Hex.IsLowerHex(signature)
    requires forall i :: 0 <= i < |payloads| ==> payloads[i] != []
    ensures |Chained(u, prior, payloads)| != |Frame([], signature)|
  {
    if payloads != [] {
      TerminalIsShorter(payloads[0], signature, ChunkSignature(u, prior, payloads[0]));
    }
  }

  /** An upload up to the zero-length frame and the chain over all data differ in length. */
  lemma EncodedIsNoChain(u: Upload, seed: string, a: seq<Bytes>, b: seq<Bytes>)
    requires forall i :: 0 <= i < |b| ==> b[i] != []
    ensures |Encoded(u, seed, a)| != |Chained(u, seed, a + b)|
  {
    ChainedAppend(u, seed, a, b);
    EncodedEnds(u, seed, a);
    ChainIsNoTerminal(u, LastSignature(u, seed, a), b, ChunkSignature(u, LastSignature(u, seed, a), []));
  }

  lemma OverflowShows(u: Upload, take: Parser, seed: string, body: Bytes)
    requires Stable(take) && !Sound(take, body) && AllFrames(take, body) != []
    ensures !CutsAgree(u, take, seed, body)
  {
    var all := AllFrames(take, body);
    FrameByFrameIsCut(take, body);
    FrameByFrameThenOverflow(u, take, seed, body);
    OneCallThenOverflow(u, take, seed, body);
    if EndsWithZero(Drained(take, body)) {
      DataSplitsAtZero(all);
      EncodedIsNoChain(u, seed, Data(UpToZero(all)), DataAfterZero(all));
    } else {
      UndrainedOverflow(take, body);
      ChainedLength(u, seed, all);
    }
    WholeBody(body);
    TwoCutsDiffer(u, take, seed, body, [], body, FrameByFrame(take, body), Leftover(take, body));
  }

  lemma WholeBody(body: Bytes)
    ensures Received([]) + body == body
  {
  }

  // ---------------------------------------------------------------- The exact condition

  /**
   For every byte stream: the output is independent of how the stream is cut into calls if and only if
   either no announced length overflows and no frame with data follows the first zero-length one, or the
   overflow comes before any frame is complete.
   */
  lemma FragmentationExact(u: Upload, take: Parser, seed: string, body: Bytes)
    requires Stable(take)
    ensures
      CutsAgree(u, take, seed, body)
      <==> if Sound(take, body) then NothingAfterZero(AllFrames(take, body)) else AllFrames(take, body) == []
  {
    if Sound(take, body) {
      SoundFragmentation(u, take, seed, body);
    } else if AllFrames(take, body) == [] {
      forall calls: Calls, last: Bytes, calls': Calls, last': Bytes
        | Received(calls) + last == body && Received(calls') + last' == body
        ensures UploadOutput(u, take, seed, calls, last) == UploadOutput(u, take, seed, calls', last')
      {
        SilentUpload(u, take, seed, calls, last);
        SilentUpload(u, take, seed, calls', last');
      }
    } else {
      OverflowShows(u, take, seed, body);
    }
  }

  /** The same for the proxy's own parser. */
  lemma CutsAgreeExactly(u: Upload, seed: string, body: Bytes)
    ensures
      CutsAgree(u, CHUNK_PARSER, seed, body)
      <==> if Sound(CHUNK_PARSER, body) then NothingAfterZero(AllFrames(CHUNK_PARSER, body))
           else AllFrames(CHUNK_PARSER, body) == []
  {
    ChunkParserReads();
    FragmentationExact(u, CHUNK_PARSER, seed, body);
  }

  // ---------------------------------------------------------------- A body that overflows behind a frame

  /** A header line that announces the largest length of the machine word, and one byte behind it. */
  function LargestLength(): Bytes {
    Utf8(Hex.Print(Hex.WORD - 1)) + CRLF + [88]
  }

  lemma {:induction false} PrintIsShort(n: nat)
    ensures |Hex.Print(n)| <= n / 16 + 2
  {
    if n >= 16 { PrintIsShort(n / 16); }
  }

  lemma LargestHeader()
    ensures
      var digits := Hex.Print(Hex.WORD - 1);
      ParseHeader(LargestLength()) == Some((|digits| + 2, Hex.WORD - 1)) && |LargestLength()| == |digits| + 3
  {
    var digits := Hex.Print(Hex.WORD - 1);
    Hex.ValuePrint(Hex.WORD - 1);
    HexIsAscii(digits);
    Utf8OfAscii(digits);
    HexHasNoCr(digits);
    CleanAsciiHasNoCr(digits);
    CleanHasNoCrlf(Utf8(digits));
    ParseLine(digits, [88]);
    HexHasNoSemicolon(digits);
    SplitAbsent(digits, ';');
    Hex.ParsePrint(Hex.WORD - 1);
  }

  lemma HexHasNoCr(digits: string)
    requires Hex.AllHex(digits)
    ensures IsCleanAscii(digits)
  {
    forall i | 0 <= i < |digits| ensures digits[i] as int < 0x80 && digits[i] != '\r' {
      assert Hex.IsHexDigit(digits[i]);
    }
  }

  lemma LargestSumWraps(h: nat)
    requires h + 1 < Hex.WORD
    ensures (h + (Hex.WORD - 1) + 2) % Hex.WORD == h + 1
  {
  }

  lemma WrappedIsOverflow(buf: Bytes, h: nat, length: nat)
    requires 2 <= h <= |buf| && h + length + 2 >= Hex.WORD && (h + length + 2) % Hex.WORD <= |buf|
    requires ParseHeader(buf) == Some((h, length))
    ensures Take(buf).Overflow?
  {
  }

  lemma LargestLengthOverflows()
    ensures Take(LargestLength()).Overflow?
  {
    var h := |Hex.Print(Hex.WORD - 1)| + 2;
    LargestHeader();
    PrintIsShort(Hex.WORD - 1);
    LargestSumWraps(h);
    WrappedIsOverflow(LargestLength(), h, Hex.WORD - 1);
  }

  /** `1 CRLF A CRLF` and then the largest length: no zero-length chunk, and still the cut decides what is sent. */
  lemma OverflowDependsOnTheCut(u: Upload, seed: string)
    ensures
      var body := ClientChunk("1", "", [65]).Raw() + LargestLength();
      NothingAfterZero(AllFrames(CHUNK_PARSER, body)) && !CutsAgree(u, CHUNK_PARSER, seed, body)
  {
    var chunk := ClientChunk("1", "", [65]);
    var body := chunk.Raw() + LargestLength();
    ChunkParserReads();
    Backend.LateDataIsValid();
    assert CHUNK_PARSER(body) == Whole([65], |chunk.Raw()|);
    Backend.FramesAfter(CHUNK_PARSER, chunk.Raw(), [65], LargestLength());
    LargestLengthOverflows();
    assert AllFrames(CHUNK_PARSER, LargestLength()) == [] && Leftover(CHUNK_PARSER, LargestLength()) == LargestLength();
    OneDataFrame(CHUNK_PARSER, body, [65]);
    CutsAgreeExactly(u, seed, body);
  }

  lemma OneDataFrame(take: Parser, body: Bytes, data: Bytes)
    requires AllFrames(take, body) == [data] + [] && data != []
    ensures AllFrames(take, body) != [] && NothingAfterZero(AllFrames(take, body))
  {
    var all := AllFrames(take, body);
    assert UpToZero(all) == [data];
    assert all[1..] == [];
  }
}
