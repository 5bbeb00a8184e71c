/** Incremental frame parsing, and its independence of how the bytes are cut into pushes. */
module StreamParser {
  import opened Integers
  import opened Bytes
  import opened Frames

  datatype ParserState = ParserState(
    limit: FrameLimit,
    buffer: ByteString,
    header: Option<FrameHeader>,
    failure: Option<ParseError>)

  function NewParser(limit: FrameLimit): ParserState {
    ParserState(limit, [], None, None)
  }

  /** A state together with the frames delivered on the way to it. */
  datatype Fed = Fed(state: ParserState, frames: seq<Frame>)

  // ---------------------------------------------------------------- one byte at a time

  /** Delivers the frame that the buffer holds, once it is complete. */
  function Complete(s: ParserState): Fed
    requires s.header.Some?
  {
    if |s.buffer| < s.header.value.frameSize then Fed(s, [])
    else
      match ParseFrame(s.buffer, s.limit)
      case Err(e) => Fed(s.(failure := Some(e)), [])
      case Ok(f) => Fed(s.(buffer := [], header := None), [f])
  }

  /** The reference: what one more byte does. A failed parser ignores it. */
  function FeedByte(s: ParserState, x: U8): Fed {
    if s.failure.Some? then Fed(s, [])
    else
      var t := s.(buffer := s.buffer + [x]);
      if s.header.Some? then Complete(t)
      else if |t.buffer| < 16 then Fed(t, [])
      else
        match DecodeHeader(t.buffer, t.limit)
        case Err(e) => Fed(t.(failure := Some(e)), [])
        case Ok(h) => Complete(t.(header := Some(h)))
  }

  function FeedAll(s: ParserState, bytes: ByteString): Fed
    decreases |bytes|
  {
    if bytes == [] then Fed(s, [])
    else
      var first := FeedByte(s, bytes[0]);
      var rest := FeedAll(first.state, bytes[1..]);
      Fed(rest.state, first.frames + rest.frames)
  }

  /** Continues after some frames have been delivered. */
  function After(frames: seq<Frame>, rest: Fed): Fed {
    Fed(rest.state, frames + rest.frames)
  }

  lemma {:induction false} FeedAllSplits(s: ParserState, a: ByteString, b: ByteString)
    ensures FeedAll(s, a + b) == After(FeedAll(s, a).frames, FeedAll(FeedAll(s, a).state, b))
    decreases |a|
  {
    hide FeedByte;
    if a == [] {
      assert a + b == b;
    } else {
      assert (a + b)[1..] == a[1..] + b;
      FeedAllSplits(FeedByte(s, a[0]).state, a[1..], b);
    }
  }

  // ---------------------------------------------------------------- the invariant

  predicate Good(s: ParserState) {
    && |s.buffer| <= s.limit
    && (s.failure.None? && s.header.None? ==> |s.buffer| < 16)
    && (s.failure.None? && s.header.Some? ==>
          16 <= |s.buffer| < s.header.value.frameSize && DecodeHeader(s.buffer, s.limit) == Ok(s.header.value))
  }

  /** The header stays what it is as the rest of the frame arrives. */
  lemma HeaderIsStable(b: ByteString, more: ByteString, limit: FrameLimit, h: FrameHeader)
    requires DecodeHeader(b, limit) == Ok(h)
    ensures DecodeHeader(b + more, limit) == Ok(h)
  {
    hide DecodeHeader, HeaderBytes;
    HeaderIsExact(b, limit, h);
    HeaderIsExact(b + more, limit, h);
    assert |b| >= 16 ==> (b + more)[..16] == b[..16];
  }

  /** Parsing a completed frame cannot fail: that branch of the parser is dead. */
  lemma CompletedFrameParses(s: ParserState)
    requires s.header.Some? && DecodeHeader(s.buffer, s.limit) == Ok(s.header.value)
    requires |s.buffer| == s.header.value.frameSize
    ensures ParseFrame(s.buffer, s.limit) == Ok(Frame(s.header.value, s.buffer[16..]))
  {
    hide DecodeHeader;
    HeaderIsExact(s.buffer, s.limit, s.header.value);
  }

  lemma CompleteKeepsGood(s: ParserState)
    requires s.failure.None? && s.header.Some? && DecodeHeader(s.buffer, s.limit) == Ok(s.header.value)
    requires 16 <= |s.buffer| <= s.header.value.frameSize
    ensures Good(Complete(s).state) && Complete(s).state.failure == None && Complete(s).state.limit == s.limit
    ensures Complete(s) ==
      if |s.buffer| < s.header.value.frameSize then Fed(s, [])
      else Fed(NewParser(s.limit), [Frame(s.header.value, s.buffer[16..])])
  {
    hide DecodeHeader, ParseFrame;
    HeaderIsExact(s.buffer, s.limit, s.header.value);
    if |s.buffer| == s.header.value.frameSize {
      CompletedFrameParses(s);
    }
  }

  lemma FeedByteKeepsGood(s: ParserState, x: U8)
    requires Good(s)
    ensures Good(FeedByte(s, x).state) && FeedByte(s, x).state.limit == s.limit
  {
    hide DecodeHeader, Complete;
    if s.failure.None? {
      var t := s.(buffer := s.buffer + [x]);
      if s.header.Some? {
        HeaderIsExact(s.buffer, s.limit, s.header.value);
        HeaderIsStable(s.buffer, [x], s.limit, s.header.value);
        CompleteKeepsGood(t);
      } else if |t.buffer| == 16 && DecodeHeader(t.buffer, t.limit).Ok? {
        var h := DecodeHeader(t.buffer, t.limit).value;
        HeaderIsExact(t.buffer, t.limit, h);
        CompleteKeepsGood(t.(header := Some(h)));
      }
    }
  }

  /** Whatever arrives, the buffer never exceeds the frame limit. */
  lemma {:induction false} FeedAllKeepsGood(s: ParserState, bytes: ByteString)
    requires Good(s)
    ensures Good(FeedAll(s, bytes).state) && FeedAll(s, bytes).state.limit == s.limit
    decreases |bytes|
  {
    hide FeedByte, Good;
    if bytes != [] {
      FeedByteKeepsGood(s, bytes[0]);
      FeedAllKeepsGood(FeedByte(s, bytes[0]).state, bytes[1..]);
    }
  }

  lemma {:induction false} FailedIgnores(s: ParserState, bytes: ByteString)
    requires s.failure.Some?
    ensures FeedAll(s, bytes) == Fed(s, [])
    decreases |bytes|
  {
    if bytes != [] {
      FailedIgnores(s, bytes[1..]);
    }
  }

  // ---------------------------------------------------------------- many bytes at once

  predicate Incomplete(s: ParserState, n: nat) {
    if s.header.Some? then |s.buffer| + n < s.header.value.frameSize else |s.buffer| + n < 16
  }

  lemma QuietByte(s: ParserState, x: U8)
    requires s.failure.None? && Incomplete(s, 1)
    ensures FeedByte(s, x) == Fed(s.(buffer := s.buffer + [x]), [])
  {
    hide DecodeHeader, ParseFrame;
  }

  /** Bytes that leave a header or a frame incomplete just go to the buffer. */
  lemma {:induction false} FeedQuietly(s: ParserState, bs: ByteString)
    requires s.failure.None? && Incomplete(s, |bs|)
    ensures FeedAll(s, bs) == Fed(s.(buffer := s.buffer + bs), [])
    decreases |bs|
  {
    hide FeedByte;
    if bs == [] {
      assert s.buffer + bs == s.buffer;
    } else {
      QuietByte(s, bs[0]);
      FeedQuietly(s.(buffer := s.buffer + [bs[0]]), bs[1..]);
      assert s.buffer + [bs[0]] + bs[1..] == s.buffer + bs;
    }
  }

  lemma FeedLast(s: ParserState, bs: ByteString)
    requires bs != [] && s.failure.None?
    requires if s.header.Some? then |s.buffer| + |bs| == s.header.value.frameSize else |s.buffer| + |bs| == 16
    ensures FeedAll(s, bs) == FeedByte(s.(buffer := s.buffer + bs[..|bs| - 1]), bs[|bs| - 1])
  {
    hide FeedByte;
    var n := |bs| - 1;
    assert bs == bs[..n] + [bs[n]];
    FeedQuietly(s, bs[..n]);
    FeedAllSplits(s, bs[..n], [bs[n]]);
    assert [bs[n]][1..] == [];
  }

  /** The bytes that complete a header. */
  lemma FeedHeader(s: ParserState, bs: ByteString)
    requires s.failure.None? && s.header.None? && |s.buffer| < 16 && |s.buffer| + |bs| == 16
    ensures FeedAll(s, bs) ==
      var t := s.(buffer := s.buffer + bs);
      match DecodeHeader(t.buffer, t.limit)
      case Err(e) => Fed(t.(failure := Some(e)), [])
      case Ok(h) => Complete(t.(header := Some(h)))
  {
    hide DecodeHeader, Complete;
    FeedLast(s, bs);
    assert s.buffer + bs[..|bs| - 1] + [bs[|bs| - 1]] == s.buffer + bs;
  }

  /** The bytes that complete a frame. */
  lemma FeedBody(s: ParserState, bs: ByteString)
    requires s.failure.None? && s.header.Some? && |s.buffer| < s.header.value.frameSize
    requires |s.buffer| + |bs| == s.header.value.frameSize
    ensures FeedAll(s, bs) == Complete(s.(buffer := s.buffer + bs))
  {
    hide DecodeHeader, Complete;
    FeedLast(s, bs);
    assert s.buffer + bs[..|bs| - 1] + [bs[|bs| - 1]] == s.buffer + bs;
  }

  // ---------------------------------------------------------------- pushes

  datatype Pushed = Pushed(state: ParserState, result: Result<seq<Frame>, ParseError>)

  /** What a push returns: its frames, or the failure, in which case its frames are lost. */
  function Received(s: ParserState, bytes: ByteString): Pushed {
    if s.failure.Some? then Pushed(s, Err(s.failure.value))
    else
      var fed := FeedAll(s, bytes);
      Pushed(fed.state, if fed.state.failure.Some? then Err(fed.state.failure.value) else Ok(fed.frames))
  }

  /** A list of pushes and the frames that they deliver altogether. */
  function PushAll(s: ParserState, chunks: seq<ByteString>): Fed
    decreases |chunks|
  {
    if chunks == [] then Fed(s, [])
    else
      var p := Received(s, chunks[0]);
      After(if p.result.Ok? then p.result.value else [], PushAll(p.state, chunks[1..]))
  }

  /** The pushes that deliver: all of them, or exactly those before the one that fails. */
  lemma {:induction false} DeliveringPushes(s: ParserState, chunks: seq<ByteString>) returns (k: nat)
    ensures k <= |chunks|
    ensures PushAll(s, chunks).state == FeedAll(s, Concat(chunks)).state
    ensures PushAll(s, chunks).frames == FeedAll(s, Concat(chunks[..k])).frames
    ensures s.failure.None? ==> FeedAll(s, Concat(chunks[..k])).state.failure.None?
    ensures k < |chunks| ==> FeedAll(s, Concat(chunks[..k + 1])).state.failure.Some?
    decreases |chunks|
  {
    hide FeedAll;
    if chunks == [] {
      k := 0;
      FeedNothing(s);
    } else {
      var c, rest, p := chunks[0], chunks[1..], Received(s, chunks[0]);
      var m := DeliveringPushes(p.state, rest);
      FeedAllSplits(s, c, Concat(rest));
      FeedNothing(s);
      ConcatOne(c);
      assert chunks[..1] == [c] && chunks[..0] == [];
      if p.state.failure.Some? {
        k := 0;
        FailedIgnores(p.state, Concat(rest));
        FailedIgnores(p.state, Concat(rest[..m]));
        if s.failure.Some? {
          FailedIgnores(s, c);
        }
      } else {
        k := m + 1;
        FirstChunk(s, chunks, m);
        if m < |rest| {
          FirstChunk(s, chunks, m + 1);
        }
      }
    }
  }

  lemma FeedNothing(s: ParserState)
    ensures FeedAll(s, []) == Fed(s, [])
  {
  }

  lemma FirstChunk(s: ParserState, chunks: seq<ByteString>, m: nat)
    requires m < |chunks|
    ensures FeedAll(s, Concat(chunks[..m + 1])) ==
      After(FeedAll(s, chunks[0]).frames, FeedAll(FeedAll(s, chunks[0]).state, Concat(chunks[1..][..m])))
  {
    hide FeedAll;
    assert chunks[..m + 1][1..] == chunks[1..][..m];
    FeedAllSplits(s, chunks[0], Concat(chunks[1..][..m]));
  }

  lemma {:induction false} FailureStays(s: ParserState, a: ByteString, b: ByteString)
    ensures FeedAll(s, a).state.failure.Some? ==> FeedAll(s, a + b) == FeedAll(s, a)
  {
    hide FeedAll;
    FeedAllSplits(s, a, b);
    if FeedAll(s, a).state.failure.Some? {
      FailedIgnores(FeedAll(s, a).state, b);
    }
  }

  /** Chunking invariance. Two ways of cutting the same bytes into pushes leave the same buffer,
      header and failure. Without a failure they deliver the same frames; with one, each delivers
      a prefix of the frames that feeding byte by byte would. */
  lemma ChunkingIsIrrelevant(s: ParserState, chunks: seq<ByteString>, others: seq<ByteString>)
    requires Concat(chunks) == Concat(others)
    ensures PushAll(s, chunks).state == PushAll(s, others).state == FeedAll(s, Concat(chunks)).state
    ensures PushAll(s, chunks).state.failure.None? ==> PushAll(s, chunks).frames == PushAll(s, others).frames
    ensures PushAll(s, chunks).frames <= FeedAll(s, Concat(chunks)).frames
  {
    hide PushAll, FeedAll, Concat;
    CutDelivers(s, chunks);
    CutDelivers(s, others);
  }

  lemma CutDelivers(s: ParserState, chunks: seq<ByteString>)
    ensures PushAll(s, chunks).state == FeedAll(s, Concat(chunks)).state
    ensures PushAll(s, chunks).frames <= FeedAll(s, Concat(chunks)).frames
    ensures PushAll(s, chunks).state.failure.None? ==> PushAll(s, chunks).frames == FeedAll(s, Concat(chunks)).frames
  {
    hide PushAll, FeedAll, Concat;
    var k := DeliveringPushes(s, chunks);
    assert chunks == chunks[..k] + chunks[k..];
    ConcatAppend(chunks[..k], chunks[k..]);
    FeedAllSplits(s, Concat(chunks[..k]), Concat(chunks[k..]));
    if k < |chunks| {
      assert chunks == chunks[..k + 1] + chunks[k + 1..];
      ConcatAppend(chunks[..k + 1], chunks[k + 1..]);
      FailureStays(s, Concat(chunks[..k + 1]), Concat(chunks[k + 1..]));
    } else {
      assert chunks[..k] == chunks;
    }
  }

  /** The frames that are completed inside push `k`. */
  function CompletedIn(s: ParserState, chunks: seq<ByteString>, k: nat): seq<Frame>
    requires k <= |chunks|
  {
    if k == |chunks| then [] else FeedAll(FeedAll(s, Concat(chunks[..k])).state, chunks[k]).frames
  }

  /** What a cutting loses. With `k` the first push that fails, the frames fed byte by byte are
      those delivered followed by those completed inside push `k`; so the cutting delivers all of
      them if and only if no frame ends inside the push that fails. */
  lemma FailingPushLosesItsFrames(s: ParserState, chunks: seq<ByteString>) returns (k: nat)
    ensures k <= |chunks|
    ensures s.failure.None? ==> FeedAll(s, Concat(chunks[..k])).state.failure.None?
    ensures k < |chunks| ==> FeedAll(s, Concat(chunks[..k + 1])).state.failure.Some?
    ensures FeedAll(s, Concat(chunks)).frames == PushAll(s, chunks).frames + CompletedIn(s, chunks, k)
    ensures PushAll(s, chunks).frames == FeedAll(s, Concat(chunks)).frames <==> CompletedIn(s, chunks, k) == []
  {
    hide PushAll, FeedAll, Concat;
    k := DeliveringPushes(s, chunks);
    if k < |chunks| {
      assert chunks == chunks[..k + 1] + chunks[k + 1..];
      ConcatAppend(chunks[..k + 1], chunks[k + 1..]);
      FailureStays(s, Concat(chunks[..k + 1]), Concat(chunks[k + 1..]));
      assert chunks[..k + 1] == chunks[..k] + [chunks[k]];
      ConcatSnoc(chunks[..k], chunks[k]);
      FeedAllSplits(s, Concat(chunks[..k]), chunks[k]);
    } else {
      assert chunks[..k] == chunks;
    }
  }

  /** Two cuttings of the same bytes that deliver different frames: a frame followed by a header
      that does not decode is lost when both come in one push, and delivered when they do not. */
  lemma CuttingsCanDiffer(limit: FrameLimit, f: Frame, bad: ByteString)
    requires |f.payload| + 16 <= limit && f.header == HeaderFor(|f.payload| + 16)
    requires |bad| == 16 && DecodeHeader(bad, limit).Err?
    ensures
      var one, two := [FrameBytes(f.payload) + bad], [FrameBytes(f.payload), bad];
      && Concat(one) == Concat(two)
      && PushAll(NewParser(limit), one).frames == []
      && PushAll(NewParser(limit), two).frames == [f]
  {
    hide FeedAll, DecodeHeader, FrameBytes;
    var s, b := NewParser(limit), FrameBytes(f.payload);
    FrameGoesThrough(limit, f);
    FeedHeader(s, bad);
    assert s.buffer + bad == bad;
    FeedAllSplits(s, b, bad);
    ConcatOne(b + bad);
    ConcatOne(bad);
    assert [b, bad][1..] == [bad] && [b + bad][1..] == [];
    assert [bad][1..] == [];
  }

  /** The bytes as pushes of one byte each. */
  function Singles(bytes: ByteString): (chunks: seq<ByteString>)
    ensures |chunks| == |bytes|
    ensures forall i :: 0 <= i < |bytes| ==> chunks[i] == [bytes[i]]
  {
    seq(|bytes|, i requires 0 <= i < |bytes| => [bytes[i]])
  }

  /** Pushing byte by byte loses nothing: a byte that fails completes no frame. */
  lemma {:induction false} SinglePushesLoseNothing(s: ParserState, bytes: ByteString)
    ensures PushAll(s, Singles(bytes)) == FeedAll(s, bytes)
    decreases |bytes|
  {
    hide FeedByte;
    if bytes != [] {
      var x, rest := bytes[0], bytes[1..];
      assert Singles(bytes)[1..] == Singles(rest);
      FeedOne(s, x);
      FailingByteDeliversNothing(s, x);
      SinglePushesLoseNothing(FeedByte(s, x).state, rest);
    }
  }

  lemma FeedOne(s: ParserState, x: U8)
    ensures FeedAll(s, [x]) == FeedByte(s, x)
  {
    hide FeedByte;
    assert [x][1..] == [];
  }

  lemma FailingByteDeliversNothing(s: ParserState, x: U8)
    ensures FeedByte(s, x).state.failure.Some? ==> FeedByte(s, x).frames == []
    ensures s.failure.Some? ==> FeedByte(s, x) == Fed(s, [])
  {
    hide DecodeHeader, ParseFrame;
  }

  // ---------------------------------------------------------------- no byte is lost

  /** The bytes of delivered frames, back on the wire. */
  function Wire(frames: seq<Frame>): ByteString {
    if frames == [] then [] else HeaderBytes(frames[0].header.frameSize) + frames[0].payload + Wire(frames[1..])
  }

  lemma WireOne(f: Frame)
    ensures Wire([f]) == HeaderBytes(f.header.frameSize) + f.payload
  {
    hide HeaderBytes;
    assert [f][1..] == [];
  }

  lemma FeedByteConserves(s: ParserState, x: U8)
    requires Good(s) && FeedByte(s, x).state.failure.None?
    ensures s.buffer + [x] == Wire(FeedByte(s, x).frames) + FeedByte(s, x).state.buffer
  {
    hide DecodeHeader, Complete, Wire, HeaderBytes;
    var t := s.(buffer := s.buffer + [x]);
    WireNothing();
    if s.header.Some? {
      HeaderIsExact(s.buffer, s.limit, s.header.value);
      HeaderIsStable(s.buffer, [x], s.limit, s.header.value);
      CompleteConserves(t);
    } else if |t.buffer| == 16 {
      var h := DecodeHeader(t.buffer, t.limit).value;
      HeaderIsExact(t.buffer, t.limit, h);
      CompleteConserves(t.(header := Some(h)));
    }
  }

  lemma WireNothing()
    ensures Wire([]) == []
  {
  }

  lemma CompleteConserves(s: ParserState)
    requires s.failure.None? && s.header.Some? && DecodeHeader(s.buffer, s.limit) == Ok(s.header.value)
    requires 16 <= |s.buffer| <= s.header.value.frameSize
    ensures s.buffer == Wire(Complete(s).frames) + Complete(s).state.buffer
  {
    hide DecodeHeader, Complete, HeaderBytes, Wire;
    CompleteKeepsGood(s);
    WireNothing();
    if |s.buffer| == s.header.value.frameSize {
      HeaderIsExact(s.buffer, s.limit, s.header.value);
      WireOne(Frame(s.header.value, s.buffer[16..]));
      assert s.buffer == s.buffer[..16] + s.buffer[16..];
    }
  }

  lemma {:induction false} WireAppends(a: seq<Frame>, b: seq<Frame>)
    ensures Wire(a + b) == Wire(a) + Wire(b)
  {
    hide HeaderBytes;
    if a == [] {
      assert a + b == b;
    } else {
      assert (a + b)[1..] == a[1..] + b;
      WireAppends(a[1..], b);
    }
  }

  /** Until a failure, the bytes fed are exactly those of the frames delivered and those still
      buffered: nothing is dropped, duplicated or reordered. */
  lemma {:induction false} BytesAreConserved(s: ParserState, bytes: ByteString)
    requires Good(s) && FeedAll(s, bytes).state.failure.None?
    ensures s.buffer + bytes == Wire(FeedAll(s, bytes).frames) + FeedAll(s, bytes).state.buffer
    decreases |bytes|
  {
    hide FeedByte, Good, Wire;
    if bytes == [] {
      WireNothing();
    } else {
      var first, rest := FeedByte(s, bytes[0]), bytes[1..];
      if first.state.failure.Some? {
        FailedIgnores(first.state, rest);
      }
      FeedByteKeepsGood(s, bytes[0]);
      FeedByteConserves(s, bytes[0]);
      BytesAreConserved(first.state, rest);
      WireAppends(first.frames, FeedAll(first.state, rest).frames);
      var end := FeedAll(first.state, rest);
      calc {
        s.buffer + bytes;
        (s.buffer + [bytes[0]]) + rest;
        Wire(first.frames) + (first.state.buffer + rest);
        Wire(first.frames) + Wire(end.frames) + end.state.buffer;
      }
    }
  }

  /** A complete frame goes through an idle parser as itself. */
  lemma FrameGoesThrough(limit: FrameLimit, f: Frame)
    requires |f.payload| + 16 <= limit && f.header == HeaderFor(|f.payload| + 16)
    ensures FeedAll(NewParser(limit), FrameBytes(f.payload)) == Fed(NewParser(limit), [f])
  {
    hide DecodeHeader, Complete, HeaderBytes, FeedAll;
    var s, b := NewParser(limit), FrameBytes(f.payload);
    HeaderCut(16 + |f.payload|, f.payload);
    var head, tail := b[..16], b[16..];
    assert b == head + tail && head == HeaderBytes(f.header.frameSize);
    HeaderIsExact(head, limit, f.header);
    FeedHeader(s, head);
    FeedAllSplits(s, head, tail);
    assert s.buffer + head == head;
    var t := s.(buffer := head, header := Some(f.header));
    CompleteKeepsGood(t);
    if tail == [] {
      FeedNothing(NewParser(limit));
      assert head[16..] == tail;
    } else {
      FeedBody(t, tail);
      HeaderIsStable(head, tail, limit, f.header);
      CompleteKeepsGood(t.(buffer := head + tail));
    }
  }

  // ---------------------------------------------------------------- the class

  /** What the rest of a push does once the header is known. */
  function FromHeader(m: ParserState, rest: ByteString): Fed
    requires m.header.Some?
  {
    After(Complete(m).frames, FeedAll(Complete(m).state, rest))
  }

  predicate HasHeader(m: ParserState) {
    && m.failure.None? && m.header.Some?
    && DecodeHeader(m.buffer, m.limit) == Ok(m.header.value)
    && 16 <= |m.buffer| <= m.header.value.frameSize
  }

  lemma HeaderStep(s: ParserState, rest: ByteString)
    requires s.failure.None? && s.header.None? && |s.buffer| < 16
    ensures var need := 16 - |s.buffer|;
      if |rest| < need then FeedAll(s, rest) == Fed(s.(buffer := s.buffer + rest), [])
      else
        var t := s.(buffer := s.buffer + rest[..need]);
        match DecodeHeader(t.buffer, t.limit)
        case Err(e) => FeedAll(s, rest) == Fed(t.(failure := Some(e)), [])
        case Ok(h) => HasHeader(t.(header := Some(h))) && FeedAll(s, rest) == FromHeader(t.(header := Some(h)), rest[need..])
  {
    hide DecodeHeader, Complete, FeedAll;
    var need := 16 - |s.buffer|;
    if |rest| < need {
      FeedQuietly(s, rest);
    } else {
      var t := s.(buffer := s.buffer + rest[..need]);
      FeedHeader(s, rest[..need]);
      FeedAllSplits(s, rest[..need], rest[need..]);
      assert rest == rest[..need] + rest[need..];
      match DecodeHeader(t.buffer, t.limit)
      case Err(e) => FailedIgnores(t.(failure := Some(e)), rest[need..]);
      case Ok(h) => HeaderIsExact(t.buffer, t.limit, h);
    }
  }

  lemma BodyStep(m: ParserState, rest: ByteString)
    requires HasHeader(m)
    ensures var need := m.header.value.frameSize - |m.buffer|;
      if |rest| < need then FromHeader(m, rest) == Fed(m.(buffer := m.buffer + rest), []) && Good(m.(buffer := m.buffer + rest))
      else
        var whole := m.buffer + rest[..need];
        && ParseFrame(whole, m.limit) == Ok(Frame(m.header.value, whole[16..]))
        && FromHeader(m, rest) == After([Frame(m.header.value, whole[16..])], FeedAll(NewParser(m.limit), rest[need..]))
  {
    hide DecodeHeader, Complete, FeedAll, ParseFrame;
    var need := m.header.value.frameSize - |m.buffer|;
    CompleteKeepsGood(m);
    HeaderIsExact(m.buffer, m.limit, m.header.value);
    if |rest| < need {
      FeedQuietly(m, rest);
      HeaderIsStable(m.buffer, rest, m.limit, m.header.value);
    } else {
      var whole := m.(buffer := m.buffer + rest[..need]);
      HeaderIsStable(m.buffer, rest[..need], m.limit, m.header.value);
      CompletedFrameParses(whole);
      CompleteKeepsGood(whole);
      if need == 0 {
        assert m.buffer + rest[..need] == m.buffer && rest[need..] == rest;
      } else {
        FeedBody(m, rest[..need]);
        FeedAllSplits(m, rest[..need], rest[need..]);
        assert rest == rest[..need] + rest[need..];
      }
    }
  }

  lemma AlreadyHasHeader(s: ParserState, rest: ByteString)
    requires Good(s) && s.failure.None? && s.header.Some?
    ensures HasHeader(s) && FromHeader(s, rest) == FeedAll(s, rest)
    ensures |s.buffer| < s.header.value.frameSize
  {
    hide DecodeHeader, FeedAll, ParseFrame;
  }

  lemma AfterAfter(a: seq<Frame>, b: seq<Frame>, rest: Fed)
    ensures After(a, After(b, rest)) == After(a + b, rest)
  {
  }

  class FrameStreamParser {
    const limit: FrameLimit
    var buffer: ByteString
    var header: Option<FrameHeader>
    var failure: Option<ParseError>

    function View(): ParserState
      reads this
    {
      ParserState(limit, buffer, header, failure)
    }

    constructor (limit: FrameLimit)
      ensures View() == NewParser(limit)
    {
      this.limit := limit;
      buffer, header, failure := [], None, None;
    }

    /** Consumes as many bytes at a time as the current header or frame still needs. */
    method Push(bytes: ByteString) returns (r: Result<seq<Frame>, ParseError>)
      requires Good(View())
      modifies this
      ensures Good(View())
      ensures View() == Received(old(View()), bytes).state && r == Received(old(View()), bytes).result
    {
      hide FeedAll, FromHeader, Good, HasHeader;
      FeedAllKeepsGood(View(), bytes);
      if failure.Some? {
        return Err(failure.value);
      }
      ghost var start := View();
      var frames: seq<Frame> := [];
      var offset := 0;
      assert bytes[0..] == bytes;
      while offset < |bytes| || header.Some?
        invariant 0 <= offset <= |bytes| && failure.None?
        invariant Good(View())
        invariant FeedAll(start, bytes) == After(frames, FeedAll(View(), bytes[offset..]))
        decreases |bytes| - offset
      {
        if header.None? {
          offset := TakeHeader(bytes, offset);
          if failure.Some? {
            return Err(failure.value);
          }
          if header.None? {
            break;
          }
        } else {
          AlreadyHasHeader(View(), bytes[offset..]);
        }
        var frame;
        offset, frame := TakeBody(bytes, offset);
        if frame.None? {
          break;
        }
        AfterAfter(frames, [frame.value], FeedAll(View(), bytes[offset..]));
        frames := frames + [frame.value];
        IdleIsGood(limit);
      }
      assert bytes[offset..] == [];
      FeedNothing(View());
      assert frames + [] == frames;
      r := Ok(frames);
    }

    /** The first half of the loop body: complete the header, or run out of bytes. */
    method TakeHeader(bytes: ByteString, offset: nat) returns (next: nat)
      requires Good(View()) && failure.None? && header.None? && offset < |bytes|
      modifies this
      ensures offset < next <= |bytes| && View().limit == old(View()).limit
      ensures failure.Some? || header.None? ==> FeedAll(old(View()), bytes[offset..]) == Fed(View(), [])
      ensures failure.None? && header.None? ==> next == |bytes| && Good(View())
      ensures failure.None? && header.Some? ==>
        HasHeader(View()) && FeedAll(old(View()), bytes[offset..]) == FromHeader(View(), bytes[next..])
    {
      hide DecodeHeader, FeedAll, FromHeader, HasHeader;
      ghost var rest := bytes[offset..];
      var required := 16 - |buffer|;
      var available := |bytes| - offset;
      var count := if required < available then required else available;
      HeaderStep(View(), rest);
      assert bytes[offset..offset + count] == rest[..count];
      buffer := buffer + bytes[offset..offset + count];
      next := offset + count;
      assert bytes[next..] == rest[count..];
      if |buffer| < 16 {
        assert rest[..count] == rest;
        return;
      }
      var decoded := DecodeHeader(buffer, limit);
      if decoded.Err? {
        failure := Some(decoded.error);
        return;
      }
      header := Some(decoded.value);
    }

    /** The second half: complete the frame, or run out of bytes. Parsing a completed frame
        cannot fail. */
    method TakeBody(bytes: ByteString, offset: nat) returns (next: nat, frame: Option<Frame>)
      requires HasHeader(View()) && offset <= |bytes|
      modifies this
      ensures offset <= next <= |bytes| && failure.None?
      ensures |old(buffer)| < old(header).value.frameSize ==> frame.None? || offset < next
      ensures frame.None? ==>
        next == |bytes| && Good(View()) && FromHeader(old(View()), bytes[offset..]) == Fed(View(), [])
      ensures frame.Some? ==>
        View() == NewParser(limit) && FromHeader(old(View()), bytes[offset..]) == After([frame.value], FeedAll(View(), bytes[next..]))
    {
      hide DecodeHeader, ParseFrame, FeedAll, FromHeader, Good;
      ghost var rest := bytes[offset..];
      var expected := header.value.frameSize;
      var required := expected - |buffer|;
      var available := |bytes| - offset;
      var count := if required < available then required else available;
      BodyStep(View(), rest);
      assert bytes[offset..offset + count] == rest[..count];
      buffer := buffer + bytes[offset..offset + count];
      next := offset + count;
      assert bytes[next..] == rest[count..];
      if |buffer| < expected {
        assert rest[..count] == rest;
        return next, None;
      }
      var parsed := ParseFrame(buffer, limit);
      assert parsed.Ok?;
      frame := Some(parsed.value);
      buffer := [];
      header := None;
    }

    method Finish() returns (r: Option<ParseError>)
      requires Good(View())
      modifies this
      ensures Good(View())
      ensures View() == Finished(old(View())) && r == View().failure
      ensures buffer == old(buffer) && header == old(header)
      ensures old(failure).Some? ==> r == old(failure)
      ensures old(failure).None? ==>
        && (r == None <==> old(buffer) == [])
        && (r == Some(TruncatedHeader) <==> 0 < |old(buffer)| < 16)
        && (r == Some(TruncatedFrame) <==> 16 <= |old(buffer)|)
    {
      if failure.Some? || buffer == [] {
        return failure;
      }
      failure := Some(if |buffer| < 16 then TruncatedHeader else TruncatedFrame);
      r := failure;
    }

    method Reset()
      modifies this
      ensures View() == NewParser(limit)
    {
      buffer, header, failure := [], None, None;
    }
  }

  function Finished(s: ParserState): ParserState {
    if s.failure.Some? || s.buffer == [] then s
    else s.(failure := Some(if |s.buffer| < 16 then TruncatedHeader else TruncatedFrame))
  }

  lemma IdleIsGood(limit: FrameLimit)
    ensures Good(NewParser(limit))
  {
  }
}
