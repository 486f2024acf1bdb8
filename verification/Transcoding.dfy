/**
 Whole uploads: the output of the body filter over every way of cutting a client body into calls.
 */
module Transcoding {
  import opened Text
  import opened Crypto
  import opened Frames
  import opened ChunkFrame
  import opened Streaming
  import Hex

  /** The calls before the end of the stream; a call may carry no body. */
  type Calls = seq<Option<Bytes>>

  function Received(calls: Calls): Bytes {
    if calls == [] then []
    else (if calls[0].Some? then calls[0].value else []) + Received(calls[1..])
  }

  // ---------------------------------------------------------------- Running the filter

  function StateAfter(u: Upload, take: Parser, s: Session, calls: Calls): Session
    decreases |calls|
  {
    if calls == [] then s else StateAfter(u, take, FilterStep(u, take, s, calls[0], false).next, calls[1..])
  }

  function Emitted(body: Option<Bytes>): Bytes {
    if body.Some? then body.value else []
  }

  function OutputOf(u: Upload, take: Parser, s: Session, calls: Calls): Bytes
    decreases |calls|
  {
    if calls == [] then []
    else
      var step := FilterStep(u, take, s, calls[0], false);
      Emitted(step.body) + OutputOf(u, take, step.next, calls[1..])
  }

  /** Everything the backend receives for an upload whose end-of-stream call carries the body `last`. */
  function UploadOutput(u: Upload, take: Parser, seed: string, calls: Calls, last: Bytes): Bytes {
    OutputOf(u, take, On(seed, []), calls)
    + Emitted(FilterStep(u, take, StateAfter(u, take, On(seed, []), calls), Some(last), true).body)
  }

  // ---------------------------------------------------------------- What the calls consume

  /** The frames consumed by a sequence of calls, and the bytes left in the buffer. */
  function Consumed(take: Parser, buf: Bytes, calls: Calls): seq<Bytes>
    decreases |calls|
  {
    if calls == [] then []
    else if Emitted(calls[0]) == [] then Consumed(take, buf, calls[1..])
    else Drained(take, buf + calls[0].value) + Consumed(take, Rest(take, buf + calls[0].value), calls[1..])
  }

  function Remaining(take: Parser, buf: Bytes, calls: Calls): Bytes
    decreases |calls|
  {
    if calls == [] then buf
    else if Emitted(calls[0]) == [] then Remaining(take, buf, calls[1..])
    else Remaining(take, Rest(take, buf + calls[0].value), calls[1..])
  }

  /** On a sound stream a call never panics. */
  lemma DrainDoesNotPanic(take: Parser, buf: Bytes)
    requires Sound(take, buf)
    ensures !(take(Rest(take, buf)).Overflow? && !EndsWithZero(Drained(take, buf)))
  {
    DrainIsMaximal(take, buf);
    DrainSplits(take, buf);
  }

  lemma RestIsSound(take: Parser, buf: Bytes, more: Bytes)
    requires Stable(take) && Sound(take, buf + more)
    ensures Sound(take, buf) && Sound(take, Rest(take, buf) + more)
  {
    SoundPrefix(take, buf, more);
    DrainSplits(take, buf);
    AllFramesAppend(take, buf, more);
    assert Sound(take, Rest(take, buf));
    AllFramesAppend(take, Rest(take, buf), more);
  }

  /** Bytes are conserved by one call: nothing of what follows is parsed differently. */
  lemma DrainThenMore(take: Parser, buf: Bytes, more: Bytes)
    requires Stable(take) && Sound(take, buf + more)
    ensures AllFrames(take, buf + more) == Drained(take, buf) + AllFrames(take, Rest(take, buf) + more)
    ensures Leftover(take, buf + more) == Leftover(take, Rest(take, buf) + more)
  {
    RestIsSound(take, buf, more);
    var rest := Rest(take, buf);
    DrainSplits(take, buf);
    AllFramesAppend(take, buf, more);
    AllFramesAppend(take, rest, more);
    Regrouped(Drained(take, buf), AllFrames(take, rest), AllFrames(take, Leftover(take, rest) + more));
  }

  /**
   In every state a run can reach: the frames consumed so far and the frames still in the buffer are
   together the frames of all bytes received, and the buffer is a back part of those bytes.
   */
  lemma {:induction false} RunConserves(take: Parser, buf: Bytes, calls: Calls)
    requires Stable(take) && Sound(take, buf + Received(calls))
    ensures AllFrames(take, buf + Received(calls))
         == Consumed(take, buf, calls) + AllFrames(take, Remaining(take, buf, calls))
    ensures Leftover(take, buf + Received(calls)) == Leftover(take, Remaining(take, buf, calls))
    ensures Sound(take, Remaining(take, buf, calls))
    ensures IsBack(buf + Received(calls), Remaining(take, buf, calls))
    decreases |calls|
  {
    if calls == [] {
      assert buf + Received(calls) == buf;
    } else {
      var head := Emitted(calls[0]);
      var later := Received(calls[1..]);
      Regrouped(buf, head, later);
      assert buf + Received(calls) == (buf + head) + later;
      if head == [] {
        assert buf + head == buf;
        RunConserves(take, buf, calls[1..]);
      } else {
        var rest := Rest(take, buf + head);
        RestIsSound(take, buf + head, later);
        DrainThenMore(take, buf + head, later);
        RunConserves(take, rest, calls[1..]);
        Regrouped(Drained(take, buf + head), Consumed(take, rest, calls[1..]),
                  AllFrames(take, Remaining(take, buf, calls)));
        BackOfBack(buf + head, rest, later, Remaining(take, buf, calls));
      }
    }
  }

  predicate IsBack(whole: Bytes, back: Bytes) {
    |back| <= |whole| && whole[|whole| - |back|..] == back
  }

  lemma BackOfBack(whole: Bytes, back: Bytes, more: Bytes, backer: Bytes)
    requires IsBack(whole, back) && IsBack(back + more, backer)
    ensures IsBack(whole + more, backer)
  {
    var w, b := whole + more, back + more;
    assert w[|w| - |b|..] == b;
    assert w[|w| - |backer|..] == b[|b| - |backer|..];
  }

  /** One call on a sound stream: what it sends, and the state it leaves. */
  lemma CallSigns(u: Upload, take: Parser, prior: string, buf: Bytes, body: Bytes)
    requires Sound(take, buf + body)
    ensures
      var data := Data(Drained(take, buf + body));
      && (body != [] ==>
            FilterStep(u, take, On(prior, buf), Some(body), false)
            == Step(On(LastSignature(u, prior, data), Rest(take, buf + body)), Some(Chained(u, prior, data))))
      && FilterStep(u, take, On(prior, buf), Some(body), true) == Step(Off, Some(Encoded(u, prior, data)))
  {
    DrainDoesNotPanic(take, buf + body);
    ConsumeSigns(u, take, prior, buf + body);
    if body != [] { CallConsumes(u, take, prior, buf, body, false); }
    CallConsumes(u, take, prior, buf, body, true);
  }

  lemma ConsumedStep(u: Upload, take: Parser, prior: string, first: seq<Bytes>, later: seq<Bytes>)
    ensures
      var sig := LastSignature(u, prior, Data(first));
      && Chained(u, prior, Data(first + later)) == Chained(u, prior, Data(first)) + Chained(u, sig, Data(later))
      && LastSignature(u, prior, Data(first + later)) == LastSignature(u, sig, Data(later))
      && Encoded(u, prior, Data(first + later)) == Chained(u, prior, Data(first)) + Encoded(u, sig, Data(later))
  {
    DataAppend(first, later);
    ChainedAppend(u, prior, Data(first), Data(later));
    var sig := LastSignature(u, prior, Data(first));
    Regrouped(Chained(u, prior, Data(first)), Chained(u, sig, Data(later)),
          Frame([], ChunkSignature(u, LastSignature(u, sig, Data(later)), [])));
  }

  /** What the filter has sent and signed after a sequence of calls. */
  ghost predicate Signs(u: Upload, take: Parser, prior: string, buf: Bytes, calls: Calls) {
    var data := Data(Consumed(take, buf, calls));
    && OutputOf(u, take, On(prior, buf), calls) == Chained(u, prior, data)
    && StateAfter(u, take, On(prior, buf), calls) == On(LastSignature(u, prior, data), Remaining(take, buf, calls))
  }

  lemma QuietCall(u: Upload, take: Parser, prior: string, buf: Bytes, calls: Calls)
    requires calls != [] && Emitted(calls[0]) == [] && Signs(u, take, prior, buf, calls[1..])
    ensures Signs(u, take, prior, buf, calls)
  {
    var later := OutputOf(u, take, On(prior, buf), calls[1..]);
    assert FilterStep(u, take, On(prior, buf), calls[0], false) == Step(On(prior, buf), None);
    NothingSent(later);
  }

  lemma BusyCall(u: Upload, take: Parser, prior: string, buf: Bytes, calls: Calls)
    requires calls != [] && Emitted(calls[0]) != [] && Sound(take, buf + calls[0].value)
    requires
      var whole := buf + calls[0].value;
      Signs(u, take, LastSignature(u, prior, Data(Drained(take, whole))), Rest(take, whole), calls[1..])
    ensures Signs(u, take, prior, buf, calls)
  {
    var whole := buf + calls[0].value;
    var first, rest := Drained(take, whole), Rest(take, whole);
    var next := On(LastSignature(u, prior, Data(first)), rest);
    CallSigns(u, take, prior, buf, calls[0].value);
    ConsumedStep(u, take, prior, first, Consumed(take, rest, calls[1..]));
    CallThenRest(u, take, On(prior, buf), calls, next, Chained(u, prior, Data(first)));
  }

  lemma CallThenRest(u: Upload, take: Parser, s: Session, calls: Calls, next: Session, out: Bytes)
    requires calls != [] && FilterStep(u, take, s, calls[0], false) == Step(next, Some(out))
    ensures OutputOf(u, take, s, calls) == out + OutputOf(u, take, next, calls[1..])
    ensures StateAfter(u, take, s, calls) == StateAfter(u, take, next, calls[1..])
  {
  }

  /** On a sound stream, that is the signed chain over the consumed data, its last signature, and the rest. */
  lemma {:induction false} RunSigns(u: Upload, take: Parser, prior: string, buf: Bytes, calls: Calls)
    requires Stable(take) && Sound(take, buf + Received(calls))
    ensures
      var data := Data(Consumed(take, buf, calls));
      && OutputOf(u, take, On(prior, buf), calls) == Chained(u, prior, data)
      && StateAfter(u, take, On(prior, buf), calls) == On(LastSignature(u, prior, data), Remaining(take, buf, calls))
    decreases |calls|
  {
    if calls != [] {
      var head := Emitted(calls[0]);
      var later := Received(calls[1..]);
      Regrouped(buf, head, later);
      if head == [] {
        assert buf + head == buf;
        RunSigns(u, take, prior, buf, calls[1..]);
        QuietCall(u, take, prior, buf, calls);
      } else {
        RestIsSound(take, buf + head, later);
        RunSigns(u, take, LastSignature(u, prior, Data(Drained(take, buf + head))), Rest(take, buf + head), calls[1..]);
        BusyCall(u, take, prior, buf, calls);
      }
    }
  }

  /** All frames consumed by the calls and the end-of-stream call. */
  function ConsumedInAll(take: Parser, calls: Calls, last: Bytes): seq<Bytes> {
    Consumed(take, [], calls) + Drained(take, Remaining(take, [], calls) + last)
  }

  /** The output of an upload is the signed chain of the data it consumed, then one terminal frame. */
  lemma UploadSigns(u: Upload, take: Parser, seed: string, calls: Calls, last: Bytes)
    requires Stable(take) && Sound(take, Received(calls) + last)
    ensures UploadOutput(u, take, seed, calls, last) == Encoded(u, seed, Data(ConsumedInAll(take, calls, last)))
  {
    assert [] + Received(calls) == Received(calls);
    SoundPrefix(take, Received(calls), last);
    RunSigns(u, take, seed, [], calls);
    RemainingThenLast(take, calls, last);
    var used := Consumed(take, [], calls);
    var left := Remaining(take, [], calls);
    CallSigns(u, take, LastSignature(u, seed, Data(used)), left, last);
    ConsumedStep(u, take, seed, used, Drained(take, left + last));
  }

  lemma RemainingThenLast(take: Parser, calls: Calls, last: Bytes)
    requires Stable(take) && Sound(take, Received(calls) + last)
    ensures
      var left := Remaining(take, [], calls) + last;
      && Sound(take, left)
      && AllFrames(take, Received(calls) + last) == Consumed(take, [], calls) + AllFrames(take, left)
  {
    var before := Received(calls);
    assert [] + before == before;
    SoundPrefix(take, before, last);
    RunConserves(take, [], calls);
    var left := Remaining(take, [], calls);
    AllFramesAppend(take, before, last);
    AllFramesAppend(take, left, last);
    Regrouped(Consumed(take, [], calls), AllFrames(take, left), AllFrames(take, Leftover(take, left) + last));
  }

  /** The frames an upload consumes are a front part of all its frames, reaching the first zero-length one if any. */
  lemma ConsumedIsFront(take: Parser, calls: Calls, last: Bytes)
    requires Stable(take) && Sound(take, Received(calls) + last)
    ensures
      var all := AllFrames(take, Received(calls) + last);
      var used := ConsumedInAll(take, calls, last);
      var unused := AllFrames(take, Rest(take, Remaining(take, [], calls) + last));
      && all == used + unused
      && (unused == [] || [] in used)
  {
    var left := Remaining(take, [], calls) + last;
    RemainingThenLast(take, calls, last);
    DrainSplits(take, left);
    Regrouped(Consumed(take, [], calls), Drained(take, left), AllFrames(take, Rest(take, left)));
    UnusedBehindZero(take, left, Consumed(take, [], calls));
  }

  lemma UnusedBehindZero(take: Parser, left: Bytes, front: seq<Bytes>)
    ensures AllFrames(take, Rest(take, left)) == [] || [] in front + Drained(take, left)
  {
    DrainIsMaximal(take, left);
    if EndsWithZero(Drained(take, left)) {
      ZeroAtEnd(front, Drained(take, left));
    } else {
      NothingWhole(take, Rest(take, left));
    }
  }

  lemma ZeroAtEnd(front: seq<Bytes>, middle: seq<Bytes>)
    requires EndsWithZero(middle)
    ensures [] in front + middle
  {
    assert (front + middle)[|front| + |middle| - 1] == [];
  }

  lemma NothingWhole(take: Parser, buf: Bytes)
    requires !take(buf).Whole?
    ensures AllFrames(take, buf) == []
  {
  }

  // ---------------------------------------------------------------- Fragmentation

  /**
   If no data stands behind the first zero-length frame, every cut of the stream gives the same output:
   the chain over all its data and one terminal frame.
   */
  lemma CutDoesNotMatter(u: Upload, take: Parser, seed: string, calls: Calls, last: Bytes)
    requires Stable(take) && Sound(take, Received(calls) + last)
    requires NothingAfterZero(AllFrames(take, Received(calls) + last))
    ensures UploadOutput(u, take, seed, calls, last) == Encoded(u, seed, Data(AllFrames(take, Received(calls) + last)))
  {
    UploadSigns(u, take, seed, calls, last);
    ConsumedIsFront(take, calls, last);
    FrontCarriesAll(ConsumedInAll(take, calls, last), AllFrames(take, Rest(take, Remaining(take, [], calls) + last)));
  }

  /** The cut with one frame per call. */
  function FrameByFrame(take: Parser, buf: Bytes): Calls
    decreases |buf|
  {
    if take(buf).Whole? then [Some(buf[..take(buf).size])] + FrameByFrame(take, buf[take(buf).size..]) else []
  }

  lemma SingleFrame(take: Parser, buf: Bytes)
    requires Stable(take) && take(buf).Whole?
    ensures
      var one := buf[..take(buf).size];
      one != [] && Drained(take, one) == [take(buf).payload] && (!take([]).Whole?) && Rest(take, one) == []
  {
    var one := buf[..take(buf).size];
    assert take(one) == take(buf);
    assert one[take(buf).size..] == [];
  }

  lemma ReceivedCons(one: Bytes, calls: Calls)
    ensures Received([Some(one)] + calls) == one + Received(calls)
  {
    assert ([Some(one)] + calls)[1..] == calls;
  }

  lemma FrontAndBack(buf: Bytes, n: nat)
    requires n <= |buf|
    ensures buf[..n] + buf[n..] == buf
  {
  }

  lemma {:induction false} FrameByFrameIsCut(take: Parser, buf: Bytes)
    ensures Received(FrameByFrame(take, buf)) + Leftover(take, buf) == buf
    decreases |buf|
  {
    if take(buf).Whole? {
      var one, tail := buf[..take(buf).size], buf[take(buf).size..];
      FrameByFrameIsCut(take, tail);
      ReceivedCons(one, FrameByFrame(take, tail));
      Regrouped(one, Received(FrameByFrame(take, tail)), Leftover(take, tail));
      FrontAndBack(buf, take(buf).size);
    }
  }

  lemma {:induction false} FrameByFrameConsumesAll(take: Parser, buf: Bytes)
    requires Stable(take)
    ensures Consumed(take, [], FrameByFrame(take, buf)) == AllFrames(take, buf)
    ensures Remaining(take, [], FrameByFrame(take, buf)) == []
    decreases |buf|
  {
    if take(buf).Whole? {
      var one, tail := buf[..take(buf).size], buf[take(buf).size..];
      SingleFrame(take, buf);
      FrameByFrameConsumesAll(take, tail);
      assert FrameByFrame(take, buf)[1..] == FrameByFrame(take, tail);
      assert [] + one == one;
    }
  }

  lemma LeftoverIsDrained(take: Parser, buf: Bytes)
    ensures Drained(take, Leftover(take, buf)) == []
    decreases |buf|
  {
  }

  lemma FrameByFrameUses(take: Parser, buf: Bytes)
    requires Stable(take)
    ensures ConsumedInAll(take, FrameByFrame(take, buf), Leftover(take, buf)) == AllFrames(take, buf)
  {
    FrameByFrameConsumesAll(take, buf);
    LeftoverIsDrained(take, buf);
    assert [] + Leftover(take, buf) == Leftover(take, buf);
    assert AllFrames(take, buf) + [] == AllFrames(take, buf);
  }

  lemma FrameByFrameOutput(u: Upload, take: Parser, seed: string, buf: Bytes)
    requires Stable(take) && Sound(take, buf)
    ensures UploadOutput(u, take, seed, FrameByFrame(take, buf), Leftover(take, buf))
         == Encoded(u, seed, Data(AllFrames(take, buf)))
  {
    FrameByFrameIsCut(take, buf);
    UploadSigns(u, take, seed, FrameByFrame(take, buf), Leftover(take, buf));
    FrameByFrameUses(take, buf);
  }

  lemma OneCallConsumes(take: Parser, buf: Bytes)
    ensures ConsumedInAll(take, [], buf) == Drained(take, buf)
  {
    assert [] + buf == buf;
  }

  lemma OneCallOutput(u: Upload, take: Parser, seed: string, buf: Bytes)
    requires Stable(take) && Sound(take, buf)
    ensures UploadOutput(u, take, seed, [], buf) == Encoded(u, seed, Data(UpToZero(AllFrames(take, buf))))
  {
    assert Received([]) + buf == buf;
    UploadSigns(u, take, seed, [], buf);
    OneCallConsumes(take, buf);
    DrainedIsUpToZero(take, buf);
  }

  lemma {:induction false} ChainedLength(u: Upload, prior: string, payloads: seq<Bytes>)
    ensures |Chained(u, prior, payloads)| >= |payloads|
    decreases |payloads|
  {
    if payloads != [] {
      ChainedLength(u, ChunkSignature(u, prior, payloads[0]), payloads[1..]);
    }
  }

  lemma FinalFrameLength(a: string, b: string)
    requires |a| == |b| && Hex.IsLowerHex(a) && Hex.IsLowerHex(b)
    ensures |Frame([], a)| == |Frame([], b)|
  {
    var head := Hex.Print(0) + SIGNATURE_FIELD;
    Utf8Append(head, a);
    Utf8Append(head, b);
    Utf8OfAscii(a);
    Utf8OfAscii(b);
  }

  /** More data gives a longer upload. */
  lemma MoreDataIsLonger(u: Upload, seed: string, a: seq<Bytes>, b: seq<Bytes>)
    requires b != []
    ensures |Encoded(u, seed, a)| < |Encoded(u, seed, a + b)|
  {
    ChainedAppend(u, seed, a, b);
    ChainedLength(u, LastSignature(u, seed, a), b);
    FinalFrameLength(ChunkSignature(u, LastSignature(u, seed, a), []),
                     ChunkSignature(u, LastSignature(u, seed, a + b), []));
  }

  ghost predicate CutsAgree(u: Upload, take: Parser, seed: string, body: Bytes) {
    forall calls: Calls, last: Bytes, calls': Calls, last': Bytes ::
      Received(calls) + last == body && Received(calls') + last' == body ==>
        UploadOutput(u, take, seed, calls, last) == UploadOutput(u, take, seed, calls', last')
  }

  lemma DataBehindZeroShows(u: Upload, take: Parser, seed: string, body: Bytes)
    requires Stable(take) && Sound(take, body) && !NothingAfterZero(AllFrames(take, body))
    ensures !CutsAgree(u, take, seed, body)
  {
    var all := AllFrames(take, body);
    DataSplitsAtZero(all);
    MoreDataIsLonger(u, seed, Data(UpToZero(all)), DataAfterZero(all));
    OneCallOutput(u, take, seed, body);
    FrameByFrameOutput(u, take, seed, body);
    FrameByFrameIsCut(take, body);
    TwoCutsDiffer(u, take, seed, body, [], body, FrameByFrame(take, body), Leftover(take, body));
  }

  lemma TwoCutsDiffer(u: Upload, take: Parser, seed: string, body: Bytes, calls: Calls, last: Bytes, calls': Calls,
                      last': Bytes)
    requires Received(calls) + last == body && Received(calls') + last' == body
    requires |UploadOutput(u, take, seed, calls, last)| != |UploadOutput(u, take, seed, calls', last')|
    ensures !CutsAgree(u, take, seed, body)
  {
  }

  /**
   For every stream without an overflowing length: the output is independent of how it is cut into calls if
   and only if no frame with data follows the first zero-length frame.
   */
  lemma SoundFragmentation(u: Upload, take: Parser, seed: string, body: Bytes)
    requires Stable(take) && Sound(take, body)
    ensures CutsAgree(u, take, seed, body) <==> NothingAfterZero(AllFrames(take, body))
  {
    if NothingAfterZero(AllFrames(take, body)) {
      forall calls: Calls, last: Bytes, calls': Calls, last': Bytes
        | Received(calls) + last == body && Received(calls') + last' == body
        ensures UploadOutput(u, take, seed, calls, last) == UploadOutput(u, take, seed, calls', last')
      {
        CutDoesNotMatter(u, take, seed, calls, last);
        CutDoesNotMatter(u, take, seed, calls', last');
      }
    } else {
      DataBehindZeroShows(u, take, seed, body);
    }
  }

  /** An end-of-stream call without a body returns early: no terminal frame, and the state stays. */
  lemma EndWithoutBody(u: Upload, take: Parser, seed: string, calls: Calls)
    requires Stable(take) && Sound(take, Received(calls))
    ensures
      var s := StateAfter(u, take, On(seed, []), calls);
      && s.On?
      && FilterStep(u, take, s, None, true) == Step(s, None)
      && OutputOf(u, take, On(seed, []), calls) == Chained(u, seed, Data(Consumed(take, [], calls)))
  {
    assert [] + Received(calls) == Received(calls);
    RunSigns(u, take, seed, [], calls);
  }
}
