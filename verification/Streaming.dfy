/**
 The aws-chunked transcoder: strips the client's framing and re-frames, re-signing every chunk in a
 chain of HMACs that starts from the seed signature of the request header.
 */
module Streaming {
  import opened Text
  import opened Crypto
  import opened Frames
  import opened ChunkFrame
  import Hex
  import SigningKey

  // ---------------------------------------------------------------- The signature chain

  /** What stays fixed during one upload. */
  datatype Upload = Upload(c: Primitives, key: Bytes, ts: Timestamp, region: string)

  /** The string to sign of one chunk. */
  function ChunkText(time: string, scope: string, prior: string, emptyHash: string, payloadHash: string): string {
    "AWS4-HMAC-SHA256-PAYLOAD\n" + time + "\n" + scope + "\n" + prior + "\n" + emptyHash + "\n" + payloadHash
  }

  /** `compute_chunk_signature`. */
  function ChunkSignature(u: Upload, prior: string, payload: Bytes): (s: string)
    ensures |s| == 64 && Hex.IsLowerHex(s)
  {
    var scope := u.ts.date + "/" + u.region + "/s3/aws4_request";
    Mac(u.c, u.key, ChunkText(Long(u.ts), scope, prior, EMPTY_SHA256, Digest(u.c, payload)))
  }

  /** The frames of a list of payloads, each signed over the signature before it. */
  function Chained(u: Upload, prior: string, payloads: seq<Bytes>): Bytes
    decreases |payloads|
  {
    if payloads == [] then []
    else
      var s := ChunkSignature(u, prior, payloads[0]);
      Frame(payloads[0], s) + Chained(u, s, payloads[1..])
  }

  function LastSignature(u: Upload, prior: string, payloads: seq<Bytes>): string
    decreases |payloads|
  {
    if payloads == [] then prior else LastSignature(u, ChunkSignature(u, prior, payloads[0]), payloads[1..])
  }

  /** The whole upload as the backend should receive it: the data frames, then one terminal frame. */
  function Encoded(u: Upload, seed: string, payloads: seq<Bytes>): Bytes {
    Chained(u, seed, payloads) + Frame([], ChunkSignature(u, LastSignature(u, seed, payloads), []))
  }

  lemma {:induction false} ChainedAppend(u: Upload, prior: string, a: seq<Bytes>, b: seq<Bytes>)
    ensures Chained(u, prior, a + b) == Chained(u, prior, a) + Chained(u, LastSignature(u, prior, a), b)
    ensures LastSignature(u, prior, a + b) == LastSignature(u, LastSignature(u, prior, a), b)
    decreases |a|
  {
    if a == [] {
      assert a + b == b;
    } else {
      var s := ChunkSignature(u, prior, a[0]);
      assert (a + b)[0] == a[0] && (a + b)[1..] == a[1..] + b;
      ChainedAppend(u, s, a[1..], b);
      Regrouped(Frame(a[0], s), Chained(u, s, a[1..]), Chained(u, LastSignature(u, s, a[1..]), b));
    }
  }

  // ---------------------------------------------------------------- The filter as a function

  /** The streaming state between two calls; Off once the upload is finished (or was never streaming). */
  datatype Session = Off | On(prior: string, buf: Bytes) | Panicked

  /** The body a call hands on, with the state it leaves. */
  datatype Step = Step(next: Session, body: Option<Bytes>)

  function FilterStep(u: Upload, take: Parser, s: Session, body: Option<Bytes>, endOfStream: bool): Step {
    if s.Off? then Step(s, body)
    else if s.Panicked? then Step(s, None)
    else if body.None? || (body.value == [] && !endOfStream) then Step(s, None)
    else Consume(u, take, s.prior, s.buf + body.value, endOfStream)
  }

  function Consume(u: Upload, take: Parser, prior: string, buf: Bytes, endOfStream: bool): Step {
    var frames := Drained(take, buf);
    if take(Rest(take, buf)).Overflow? && !EndsWithZero(frames) then Step(Panicked, None)
    else if endOfStream then Step(Off, Some(Encoded(u, prior, Data(frames))))
    else Step(On(LastSignature(u, prior, Data(frames)), Rest(take, buf)), Some(Chained(u, prior, Data(frames))))
  }

  predicate EndsWithZero(frames: seq<Bytes>) {
    frames != [] && frames[|frames| - 1] == []
  }

  /** A call with bytes to look at, or at the end of the stream, works on the buffer. */
  lemma CallConsumes(u: Upload, take: Parser, prior: string, buf: Bytes, body: Bytes, endOfStream: bool)
    requires body != [] || endOfStream
    ensures FilterStep(u, take, On(prior, buf), Some(body), endOfStream)
         == Consume(u, take, prior, buf + body, endOfStream)
  {
  }

  lemma ConsumeSigns(u: Upload, take: Parser, prior: string, buf: Bytes)
    requires !(take(Rest(take, buf)).Overflow? && !EndsWithZero(Drained(take, buf)))
    ensures
      var data := Data(Drained(take, buf));
      && Consume(u, take, prior, buf, false)
         == Step(On(LastSignature(u, prior, data), Rest(take, buf)), Some(Chained(u, prior, data)))
      && Consume(u, take, prior, buf, true) == Step(Off, Some(Encoded(u, prior, data)))
  {
  }

  lemma ConsumePanics(u: Upload, take: Parser, prior: string, buf: Bytes, endOfStream: bool)
    requires take(Rest(take, buf)).Overflow? && !EndsWithZero(Drained(take, buf))
    ensures Consume(u, take, prior, buf, endOfStream) == Step(Panicked, None)
  {
  }

  lemma EncodedEnds(u: Upload, prior: string, payloads: seq<Bytes>)
    ensures Encoded(u, prior, payloads)
         == Chained(u, prior, payloads) + Frame([], ChunkSignature(u, LastSignature(u, prior, payloads), []))
  {
  }

  // ---------------------------------------------------------------- The filter as a program

  /** `StreamingState`. */
  class StreamingState {
    const upload: Upload
    var priorSig: string
    var decodeBuf: Bytes

    /** `StreamingState::new`: the signing key comes from the process-wide cache. */
    constructor (ts: Timestamp, region: string, secret: string, seed: string, cache: SigningKey.SigningKeyCache)
      modifies cache
      ensures upload == Upload(cache.crypto,
                               SigningKey.Memo.Answer(SigningKey.KeyTable(cache.crypto), old(cache.entries),
                                                      SigningKey.Inputs(ts.date, region, "s3", secret)),
                               ts, region)
      ensures priorSig == seed && decodeBuf == []
      ensures cache.entries == SigningKey.Memo.AfterCall(SigningKey.KeyTable(cache.crypto), old(cache.entries),
                                                         SigningKey.Inputs(ts.date, region, "s3", secret))
    {
      var key := cache.SigningKey(SigningKey.Inputs(ts.date, region, "s3", secret));
      upload := Upload(cache.crypto, key, ts, region);
      priorSig := seed;
      decodeBuf := [];
    }

    /** Sign one chunk; its signature becomes the prior signature of the next. */
    method SignChunk(payload: Bytes) returns (frame: Bytes)
      modifies this`priorSig
      ensures frame == Chained(upload, old(priorSig), [payload])
      ensures priorSig == LastSignature(upload, old(priorSig), [payload])
    {
      var sig := ChunkSignature(upload, priorSig, payload);
      assert Chained(upload, priorSig, [payload]) == Frame(payload, sig) + Chained(upload, sig, []);
      assert LastSignature(upload, priorSig, [payload]) == LastSignature(upload, sig, []);
      priorSig := sig;
      frame := BuildChunkFrame(payload, sig);
    }

    /** The terminal chunk; the prior signature stays as it is. */
    method FinalChunk() returns (frame: Bytes)
      ensures frame == Frame([], ChunkSignature(upload, priorSig, []))
    {
      var sig := ChunkSignature(upload, priorSig, []);
      frame := BuildChunkFrame([], sig);
    }
  }

  /** The request context: the slot of the streaming state, and whether a call has panicked. */
  class Context {
    var streamState: StreamingState?
    var panicked: bool

    constructor ()
      ensures streamState == null && !panicked
    {
      streamState := null;
      panicked := false;
    }

    function View(): Session
      reads this, streamState
    {
      if panicked then Panicked
      else if streamState == null then Off
      else On(streamState.priorSig, streamState.decodeBuf)
    }
  }

  /** What is still to come from `left` completes what has been produced so far to the result for `buf`. */
  ghost predicate Progress(u: Upload, take: Parser, prior: string, buf: Bytes, left: Bytes, out: Bytes, sig: string) {
    && Rest(take, buf) == Rest(take, left)
    && Chained(u, prior, Data(Drained(take, buf))) == out + Chained(u, sig, Data(Drained(take, left)))
    && LastSignature(u, prior, Data(Drained(take, buf))) == LastSignature(u, sig, Data(Drained(take, left)))
    && EndsWithZero(Drained(take, buf)) == EndsWithZero(Drained(take, left))
  }

  lemma ProgressData(u: Upload, take: Parser, prior: string, buf: Bytes, left: Bytes, out: Bytes, sig: string)
    requires Progress(u, take, prior, buf, left, out, sig) && take(left).Whole? && take(left).payload != []
    ensures
      var payload := take(left).payload;
      Progress(u, take, prior, buf, left[take(left).size..],
               out + Chained(u, sig, [payload]), LastSignature(u, sig, [payload]))
  {
    var payload := take(left).payload;
    var tail := Drained(take, left[take(left).size..]);
    assert Drained(take, left) == [payload] + tail;
    assert Data(Drained(take, left)) == [payload] + Data(tail);
    ChainedAppend(u, sig, [payload], Data(tail));
    Regrouped(out, Chained(u, sig, [payload]), Chained(u, LastSignature(u, sig, [payload]), Data(tail)));
  }

  lemma ProgressStarts(u: Upload, take: Parser, prior: string, buf: Bytes)
    ensures Progress(u, take, prior, buf, buf, [], prior)
  {
    NothingSent(Chained(u, prior, Data(Drained(take, buf))));
  }

  lemma NothingSent(sent: Bytes)
    ensures [] + sent == sent
  {
  }

  /** The loop ends where nothing complete is left, or behind a zero-length frame. */
  lemma ProgressEnds(u: Upload, take: Parser, prior: string, buf: Bytes, left: Bytes, out: Bytes, sig: string)
    requires Progress(u, take, prior, buf, left, out, sig) && (take(left).Whole? ==> take(left).payload == [])
    ensures Rest(take, buf) == if take(left).Whole? then left[take(left).size..] else left
    ensures out == Chained(u, prior, Data(Drained(take, buf)))
      && sig == LastSignature(u, prior, Data(Drained(take, buf)))
    ensures EndsWithZero(Drained(take, buf)) == take(left).Whole?
  {
    assert Drained(take, left) == if take(left).Whole? then [[]] else [];
    assert Data(Drained(take, left)) == [];
    assert out + [] == out;
  }

  /** The loop of `request_body_filter`: drains the buffer and signs what carries data. */
  method DrainBuffer(state: StreamingState, take: Parser) returns (out: Bytes, panicked: bool)
    modifies state
    ensures
      var buf := old(state.decodeBuf);
      && state.decodeBuf == Rest(take, buf)
      && out == Chained(state.upload, old(state.priorSig), Data(Drained(take, buf)))
      && state.priorSig == LastSignature(state.upload, old(state.priorSig), Data(Drained(take, buf)))
      && panicked == (take(state.decodeBuf).Overflow? && !EndsWithZero(Drained(take, buf)))
  {
    out := [];
    ghost var prior := state.priorSig;
    ghost var buf := state.decodeBuf;
    var taken := take(state.decodeBuf);
    ProgressStarts(state.upload, take, prior, buf);
    while taken.Whole?
      invariant taken == take(state.decodeBuf)
      invariant Progress(state.upload, take, prior, buf, state.decodeBuf, out, state.priorSig)
      decreases |state.decodeBuf|
    {
      ghost var left := state.decodeBuf;
      state.decodeBuf := state.decodeBuf[taken.size..];
      if taken.payload == [] {
        ProgressEnds(state.upload, take, prior, buf, left, out, state.priorSig);
        return out, false;
      }
      ProgressData(state.upload, take, prior, buf, left, out, state.priorSig);
      var frame := state.SignChunk(taken.payload);
      out := out + frame;
      taken := take(state.decodeBuf);
    }
    ProgressEnds(state.upload, take, prior, buf, state.decodeBuf, out, state.priorSig);
    panicked := taken.Overflow?;
  }

  /** What a call makes of its buffer: the frames it completes, and the terminal chunk at the end of the stream. */
  method SignBuffer(state: StreamingState, take: Parser, endOfStream: bool) returns (out: Bytes, panicked: bool)
    modifies state
    ensures
      Consume(state.upload, take, old(state.priorSig), old(state.decodeBuf), endOfStream)
      == if panicked then Step(Panicked, None)
         else if endOfStream then Step(Off, Some(out))
         else Step(On(state.priorSig, state.decodeBuf), Some(out))
  {
    ghost var u, prior, buf := state.upload, state.priorSig, state.decodeBuf;
    out, panicked := DrainBuffer(state, take);
    if panicked {
      ConsumePanics(u, take, prior, buf, endOfStream);
      return;
    }
    ConsumeSigns(u, take, prior, buf);
    if endOfStream {
      EncodedEnds(u, prior, Data(Drained(take, buf)));
      var last := state.FinalChunk();
      out := out + last;
    }
  }

  /** `request_body_filter`, with the frame parser as a parameter. */
  method RequestBodyFilter(ctx: Context, take: Parser, body: Option<Bytes>, endOfStream: bool)
    returns (outBody: Option<Bytes>)
    requires !ctx.panicked
    modifies ctx, ctx.streamState
    ensures old(ctx.streamState) == null ==> ctx.View() == Off && outBody == body
    ensures old(ctx.streamState) != null ==>
      Step(ctx.View(), outBody) == FilterStep(old(ctx.streamState).upload, take, old(ctx.View()), body, endOfStream)
    ensures ctx.streamState == old(ctx.streamState) || ctx.streamState == null
  {
    if ctx.streamState == null {
      return body;
    }
    var state := ctx.streamState;
    if body.None? || (body.value == [] && !endOfStream) {
      return None;
    }
    CallConsumes(state.upload, take, state.priorSig, state.decodeBuf, body.value, endOfStream);
    state.decodeBuf := state.decodeBuf + body.value;
    var out, overflow := SignBuffer(state, take, endOfStream);
    if overflow {
      ctx.panicked := true;
      return None;
    }
    if endOfStream {
      ctx.streamState := null;
    }
    outBody := Some(out);
  }
}
