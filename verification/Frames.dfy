/**
 What a received byte stream means: the sequence of complete frames at its front.

 The body filter drains the frames it has, up to and including the first zero-length one.  This file
 relates draining a stream in pieces to parsing it whole.
 */
module Frames {
  import opened Text

  /** What the head of a receive buffer holds. */
  datatype Taken =
    | Wait                                // no header yet, or the frame is not complete
    | Overflow                            // the slice bounds have wrapped around: the program panics
    | Whole(payload: Bytes, size: nat)    // a complete frame of `size` bytes

  /** A frame parser takes a non-empty front part of its buffer. */
  type Parser = take: Bytes -> Taken | forall b :: take(b).Whole? ==> 0 < take(b).size <= |b|
    witness (b: Bytes) => Wait

  /** What a parser has found does not depend on bytes that follow, and needs only the frame's own bytes. */
  ghost predicate Stable(take: Parser) {
    && (forall b, more :: !take(b).Wait? ==> take(b + more) == take(b))
    && (forall b :: take(b).Whole? ==> take(b[..take(b).size]) == take(b))
  }

  /** Every complete frame at the front of a stream, zero-length frames included. */
  function AllFrames(take: Parser, buf: Bytes): seq<Bytes>
    decreases |buf|
  {
    match take(buf)
    case Whole(payload, size) => [payload] + AllFrames(take, buf[size..])
    case _ => []
  }

  /** What remains of a stream behind its complete frames. */
  function Leftover(take: Parser, buf: Bytes): Bytes
    decreases |buf|
  {
    match take(buf)
    case Whole(_, size) => Leftover(take, buf[size..])
    case _ => buf
  }

  /** The stream never announces a frame whose extent overflows the machine word. */
  predicate Sound(take: Parser, buf: Bytes) {
    !take(Leftover(take, buf)).Overflow?
  }

  /** The frames one call of the body filter consumes. */
  function Drained(take: Parser, buf: Bytes): seq<Bytes>
    decreases |buf|
  {
    match take(buf)
    case Whole(payload, size) => if payload == [] then [payload] else [payload] + Drained(take, buf[size..])
    case _ => []
  }

  /** The bytes one call of the body filter leaves in its buffer. */
  function Rest(take: Parser, buf: Bytes): (rest: Bytes)
    ensures |rest| <= |buf| && rest == buf[|buf| - |rest|..]
    decreases |buf|
  {
    match take(buf)
    case Whole(payload, size) => if payload == [] then buf[size..] else Rest(take, buf[size..])
    case _ => buf
  }

  /** Draining consumes a prefix of the frames and changes nothing behind them. */
  lemma {:induction false} DrainSplits(take: Parser, buf: Bytes)
    ensures AllFrames(take, buf) == Drained(take, buf) + AllFrames(take, Rest(take, buf))
    ensures Leftover(take, Rest(take, buf)) == Leftover(take, buf)
    decreases |buf|
  {
    if take(buf).Whole? && take(buf).payload != [] {
      var tail := buf[take(buf).size..];
      DrainSplits(take, tail);
      Regrouped([take(buf).payload], Drained(take, tail), AllFrames(take, Rest(take, tail)));
    } else if !take(buf).Whole? {
      assert Rest(take, buf) == buf;
    }
  }

  /** A call stops for one of two reasons: nothing complete is left, or it has just consumed a zero-length frame. */
  lemma {:induction false} DrainIsMaximal(take: Parser, buf: Bytes)
    ensures (Drained(take, buf) != [] && Drained(take, buf)[|Drained(take, buf)| - 1] == [])
      || !take(Rest(take, buf)).Whole?
    ensures forall i :: 0 <= i < |Drained(take, buf)| - 1 ==> Drained(take, buf)[i] != []
    decreases |buf|
  {
    if take(buf).Whole? {
      var size := take(buf).size;
      if take(buf).payload == [] {
      } else {
        DrainIsMaximal(take, buf[size..]);
        var tail := Drained(take, buf[size..]);
        assert Drained(take, buf) == [take(buf).payload] + tail;
        forall i | 0 <= i < |Drained(take, buf)| - 1 ensures Drained(take, buf)[i] != [] {
          if i > 0 { assert Drained(take, buf)[i] == tail[i - 1]; }
        }
      }
    } else {
      assert Rest(take, buf) == buf;
    }
  }

  /** Parsing more bytes: first the frames already complete, then those completed behind them. */
  lemma {:induction false} AllFramesAppend(take: Parser, buf: Bytes, more: Bytes)
    requires Stable(take) && Sound(take, buf)
    ensures AllFrames(take, buf + more) == AllFrames(take, buf) + AllFrames(take, Leftover(take, buf) + more)
    ensures Leftover(take, buf + more) == Leftover(take, Leftover(take, buf) + more)
    decreases |buf|
  {
    if take(buf).Whole? {
      var size := take(buf).size;
      var tail := buf[size..];
      assert (buf + more)[size..] == tail + more;
      AllFramesAppend(take, tail, more);
      Regrouped([take(buf).payload], AllFrames(take, tail), AllFrames(take, Leftover(take, tail) + more));
    }
  }

  /** An announced overflow stays announced, so every front part of a sound stream is sound. */
  lemma {:induction false} SoundPrefix(take: Parser, buf: Bytes, more: Bytes)
    requires Stable(take) && Sound(take, buf + more)
    ensures Sound(take, buf)
    decreases |buf|
  {
    if take(buf).Whole? {
      var size := take(buf).size;
      assert (buf + more)[size..] == buf[size..] + more;
      SoundPrefix(take, buf[size..], more);
    }
  }

  // ---------------------------------------------------------------- Payloads

  /** The frames that carry data. */
  function Data(frames: seq<Bytes>): (payloads: seq<Bytes>)
    ensures forall i :: 0 <= i < |payloads| ==> payloads[i] != []
  {
    if frames == [] then []
    else if frames[0] == [] then Data(frames[1..])
    else [frames[0]] + Data(frames[1..])
  }

  /** The frames up to and including the first zero-length one. */
  function UpToZero(frames: seq<Bytes>): seq<Bytes> {
    if frames == [] then []
    else if frames[0] == [] then [frames[0]]
    else [frames[0]] + UpToZero(frames[1..])
  }

  lemma {:induction false} DataAppend(a: seq<Bytes>, b: seq<Bytes>)
    ensures Data(a + b) == Data(a) + Data(b)
  {
    if a == [] {
      assert a + b == b;
    } else {
      assert (a + b)[0] == a[0] && (a + b)[1..] == a[1..] + b;
      DataAppend(a[1..], b);
    }
  }

  lemma {:induction false} DataOfData(frames: seq<Bytes>)
    requires forall i :: 0 <= i < |frames| ==> frames[i] != []
    ensures Data(frames) == frames
  {
    if frames != [] {
      assert forall i :: 0 <= i < |frames[1..]| ==> frames[1..][i] == frames[i + 1];
      DataOfData(frames[1..]);
    }
  }

  /** A single call consumes exactly the frames up to the first zero-length one. */
  lemma {:induction false} DrainedIsUpToZero(take: Parser, buf: Bytes)
    ensures Drained(take, buf) == UpToZero(AllFrames(take, buf))
    decreases |buf|
  {
    if take(buf).Whole? && take(buf).payload != [] {
      DrainedIsUpToZero(take, buf[take(buf).size..]);
    }
  }

  lemma {:induction false} UpToZeroPrefix(frames: seq<Bytes>)
    ensures |UpToZero(frames)| <= |frames|
    ensures UpToZero(frames) == frames[..|UpToZero(frames)|]
    ensures [] !in UpToZero(frames) ==> UpToZero(frames) == frames
  {
    if frames != [] && frames[0] != [] {
      UpToZeroPrefix(frames[1..]);
      assert frames == [frames[0]] + frames[1..];
    }
  }

  /** The data that stands behind the first zero-length frame. */
  function DataAfterZero(frames: seq<Bytes>): seq<Bytes> {
    UpToZeroPrefix(frames);
    Data(frames[|UpToZero(frames)|..])
  }

  predicate NothingAfterZero(frames: seq<Bytes>) {
    DataAfterZero(frames) == []
  }

  lemma DataSplitsAtZero(frames: seq<Bytes>)
    ensures Data(frames) == Data(UpToZero(frames)) + DataAfterZero(frames)
  {
    UpToZeroPrefix(frames);
    var n := |UpToZero(frames)|;
    assert frames == frames[..n] + frames[n..];
    DataAppend(frames[..n], frames[n..]);
  }

  /** A front part that contains a zero-length frame contains everything up to the first one. */
  lemma {:induction false} PartWithZero(front: seq<Bytes>, back: seq<Bytes>)
    requires [] in front
    ensures UpToZero(front + back) == UpToZero(front)
  {
    assert (front + back)[0] == front[0];
    if front[0] != [] {
      assert (front + back)[1..] == front[1..] + back;
      assert front == [front[0]] + front[1..];
      PartWithZero(front[1..], back);
    }
  }

  /** Any front part reaching the first zero carries all data, when nothing stands behind that zero. */
  lemma FrontCarriesAll(front: seq<Bytes>, back: seq<Bytes>)
    requires back == [] || [] in front
    requires NothingAfterZero(front + back)
    ensures Data(front) == Data(front + back)
  {
    if back == [] {
      assert front + back == front;
    } else {
      PartWithZero(front, back);
      DataSplitsAtZero(front);
      DataSplitsAtZero(front + back);
      DataAppend(front, back);
      assert |Data(front)| >= |Data(UpToZero(front))|;
    }
  }
}
