/** Command envelopes on the wire: a 60-byte payload in a 76-byte frame. */
module WireCodec {
  import opened Integers
  import opened Bytes
  import opened WorldModel
  import opened Commands
  import opened Frames
  import opened StreamParser

  const ENVELOPE_SIZE: nat := 60
  const ENVELOPE_LAYOUT: seq<nat> := [0, 2, 4, 12, 20, 28, 36, 44, 52, 60]

  predicate FitsEnvelope(fs: seq<ByteString>) {
    && |fs| == 9 && |fs[0]| == 2 && |fs[1]| == 2
    && |fs[2]| == 8 && |fs[3]| == 8 && |fs[4]| == 8 && |fs[5]| == 8 && |fs[6]| == 8 && |fs[7]| == 8 && |fs[8]| == 8
  }

  function EnvelopeFields(e: Envelope): (fs: seq<ByteString>)
    ensures FitsEnvelope(fs)
  {
    hide BytesOfU16, BytesOfU64, BytesOfI64;
    [ BytesOfU16(e.schemaVersion),
      BytesOfU16(e.kind),
      BytesOfU64(e.clientId),
      BytesOfU64(e.sessionId),
      BytesOfU64(e.sequence),
      BytesOfU64(e.targetTick),
      BytesOfU64(e.entityId),
      BytesOfI64(e.velocity.x),
      BytesOfI64(e.velocity.y) ]
  }

  lemma EnvelopeLength(fs: seq<ByteString>)
    requires FitsEnvelope(fs)
    ensures |Concat(fs)| == ENVELOPE_SIZE
  {
    hide Concat;
    ConcatLength(fs, ENVELOPE_LAYOUT);
  }

  function EncodeEnvelope(e: Envelope): (b: ByteString)
    ensures |b| == ENVELOPE_SIZE
  {
    EnvelopeLength(EnvelopeFields(e));
    Concat(EnvelopeFields(e))
  }

  function EncodeFrame(e: Envelope): ByteString {
    FrameBytes(EncodeEnvelope(e))
  }

  function EnvelopeOf(fs: seq<ByteString>, id: EntityId): Envelope
    requires FitsEnvelope(fs)
  {
    Envelope(U16OfBytes(fs[0]), U16OfBytes(fs[1]), U64OfBytes(fs[2]), U64OfBytes(fs[3]), U64OfBytes(fs[4]),
             U64OfBytes(fs[5]), id, Vector2(I64OfBytes(fs[7]), I64OfBytes(fs[8])))
  }

  function CutEnvelope(b: ByteString): (fs: seq<ByteString>)
    requires |b| == ENVELOPE_SIZE
    ensures FitsEnvelope(fs)
  {
    Slices(b, ENVELOPE_LAYOUT)
  }

  function DecodeEnvelope(payload: ByteString): Result<Envelope, ParseError> {
    if |payload| != ENVELOPE_SIZE then Err(PayloadSizeMismatch)
    else
      var fs := CutEnvelope(payload);
      if U64OfBytes(fs[6]) == 0 then Err(InvalidEntityId)
      else Ok(EnvelopeOf(fs, U64OfBytes(fs[6])))
  }

  function DecodeFrame(b: ByteString, limit: FrameLimit): Result<Envelope, ParseError> {
    match ParseFrame(b, limit)
    case Err(e) => Err(e)
    case Ok(f) => DecodeEnvelope(f.payload)
  }

  // ---------------------------------------------------------------- round trips

  lemma EnvelopeOfFields(e: Envelope)
    ensures EnvelopeOf(EnvelopeFields(e), e.entityId) == e
    ensures U64OfBytes(EnvelopeFields(e)[6]) == e.entityId
  {
    hide BytesOfU16, BytesOfU64, BytesOfI64, U16OfBytes, U64OfBytes, I64OfBytes;
    U16RoundTrip(e.schemaVersion); U16RoundTrip(e.kind);
    U64RoundTrip(e.clientId); U64RoundTrip(e.sessionId);
    U64RoundTrip(e.sequence); U64RoundTrip(e.targetTick); U64RoundTrip(e.entityId);
    I64RoundTrip(e.velocity.x); I64RoundTrip(e.velocity.y);
  }

  lemma FieldsOfEnvelope(fs: seq<ByteString>)
    requires FitsEnvelope(fs) && U64OfBytes(fs[6]) != 0
    ensures EnvelopeFields(EnvelopeOf(fs, U64OfBytes(fs[6]))) == fs
  {
    hide BytesOfU16, BytesOfU64, BytesOfI64, U16OfBytes, U64OfBytes, I64OfBytes;
  }

  /** A payload decodes to an envelope if and only if it is that envelope's encoding. */
  lemma EnvelopeIsExact(payload: ByteString, e: Envelope)
    ensures DecodeEnvelope(payload) == Ok(e) <==> payload == EncodeEnvelope(e)
  {
    hide Concat, EnvelopeFields, EnvelopeOf, U64OfBytes;
    if DecodeEnvelope(payload) == Ok(e) {
      ConcatSlices(payload, ENVELOPE_LAYOUT);
      assert payload[..ENVELOPE_SIZE] == payload;
      FieldsOfEnvelope(CutEnvelope(payload));
    }
    if payload == EncodeEnvelope(e) {
      EnvelopeCut(e);
      EnvelopeOfFields(e);
    }
  }

  /** A payload is refused for its size, then for a zero entity identifier, and for nothing else. */
  lemma EnvelopeErrorIsExact(payload: ByteString)
    ensures DecodeEnvelope(payload) == Err(PayloadSizeMismatch) <==> |payload| != 60
    ensures DecodeEnvelope(payload) == Err(InvalidEntityId) <==> |payload| == 60 && Value(payload[36..44]) == 0
    ensures DecodeEnvelope(payload).Err? ==> DecodeEnvelope(payload).error in {PayloadSizeMismatch, InvalidEntityId}
  {
    hide EnvelopeOf, Value;
  }

  lemma EnvelopeCut(e: Envelope)
    ensures CutEnvelope(EncodeEnvelope(e)) == EnvelopeFields(e)
  {
    hide Concat;
    SlicesConcat(EnvelopeFields(e), ENVELOPE_LAYOUT, []);
    assert Concat(EnvelopeFields(e)) + [] == Concat(EnvelopeFields(e));
  }

  /** A frame is accepted if and only if it is the canonical frame of the envelope and the limit
      admits 76 bytes. */
  lemma CommandFrameIsExact(b: ByteString, limit: FrameLimit, e: Envelope)
    ensures DecodeFrame(b, limit) == Ok(e) <==> limit >= 76 && b == EncodeFrame(e)
  {
    hide ParseFrame, DecodeEnvelope, EncodeEnvelope, FrameBytes;
    var f := Frame(HeaderFor(76), EncodeEnvelope(e));
    FrameIsExact(b, limit, f);
    EnvelopeIsExact(EncodeEnvelope(e), e);
    if ParseFrame(b, limit).Ok? {
      var g := ParseFrame(b, limit).value;
      FrameIsExact(b, limit, g);
      EnvelopeIsExact(g.payload, e);
    }
  }

  function FramesOf(es: seq<Envelope>): (bs: seq<ByteString>)
    ensures |bs| == |es|
    ensures forall i :: 0 <= i < |es| ==> bs[i] == EncodeFrame(es[i])
  {
    seq(|es|, i requires 0 <= i < |es| => EncodeFrame(es[i]))
  }

  /** The envelopes in the payloads of frames; stops at the first that does not decode. */
  function DecodeAll(frames: seq<Frame>): Option<seq<Envelope>> {
    if frames == [] then Some([])
    else
      match DecodeEnvelope(frames[0].payload)
      case Err(_) => None
      case Ok(e) =>
        var rest := DecodeAll(frames[1..]);
        if rest.None? then None else Some([e] + rest.value)
  }

  lemma {:induction false} FramesFeed(limit: FrameLimit, es: seq<Envelope>)
    requires limit >= 76
    ensures
      var fed := FeedAll(NewParser(limit), Concat(FramesOf(es)));
      fed.state == NewParser(limit) && DecodeAll(fed.frames) == Some(es)
  {
    hide FeedAll, DecodeEnvelope, EncodeEnvelope, FrameBytes;
    if es == [] {
      FeedNothing(NewParser(limit));
    } else {
      var f := Frame(HeaderFor(76), EncodeEnvelope(es[0]));
      FrameGoesThrough(limit, f);
      FramesFeed(limit, es[1..]);
      assert FramesOf(es)[1..] == FramesOf(es[1..]);
      FeedAllSplits(NewParser(limit), EncodeFrame(es[0]), Concat(FramesOf(es[1..])));
      EnvelopeIsExact(f.payload, es[0]);
      var rest := FeedAll(NewParser(limit), Concat(FramesOf(es[1..]))).frames;
      assert ([f] + rest)[1..] == rest;
      assert es == [es[0]] + es[1..];
    }
  }

  /** Wire round trip: however the frames of any envelopes are cut into chunks, the parser and the
      envelope decoder return exactly those envelopes, and the parser is idle again. */
  lemma WireRoundTrip(limit: FrameLimit, es: seq<Envelope>, chunks: seq<ByteString>)
    requires limit >= 76 && Concat(chunks) == Concat(FramesOf(es))
    ensures
      var got := PushAll(NewParser(limit), chunks);
      got.state == NewParser(limit) && DecodeAll(got.frames) == Some(es)
  {
    hide FeedAll, PushAll, Concat, DecodeAll;
    FramesFeed(limit, es);
    CutDelivers(NewParser(limit), chunks);
  }

  // ---------------------------------------------------------------- the encoder and the decoder

  method WriteBytes(bytes: array<U8>, offset: nat, bs: ByteString)
    requires offset + |bs| <= bytes.Length
    modifies bytes
    ensures bytes[offset..offset + |bs|] == bs
    ensures bytes[..offset] == old(bytes[..offset]) && bytes[offset + |bs|..] == old(bytes[offset + |bs|..])
  {
    ghost var before := bytes[..];
    for i := 0 to |bs|
      invariant bytes[..offset] == before[..offset]
      invariant bytes[offset..offset + i] == bs[..i]
      invariant bytes[offset + i..] == before[offset + i..]
    {
      bytes[offset + i] := bs[i];
    }
  }

  /** Fills a buffer field by field, front to back. */
  method FillFields(bytes: array<U8>, fields: seq<ByteString>)
    requires |Concat(fields)| == bytes.Length
    modifies bytes
    ensures bytes[..] == Concat(fields)
  {
    var offset := 0;
    assert fields[..|fields|] == fields;
    for i := 0 to |fields|
      invariant offset == |Concat(fields[..i])| <= bytes.Length
      invariant bytes[..offset] == Concat(fields[..i])
    {
      ConcatSnoc(fields[..i], fields[i]);
      assert fields[..i + 1] == fields[..i] + [fields[i]];
      ConcatAppend(fields[..i + 1], fields[i + 1..]);
      assert fields == fields[..i + 1] + fields[i + 1..];
      WriteBytes(bytes, offset, fields[i]);
      assert bytes[..offset + |fields[i]|] == bytes[..offset] + bytes[offset..offset + |fields[i]|];
      offset := offset + |fields[i]|;
    }
  }

  method EncodeCommandFrame(e: Envelope) returns (bytes: ByteString)
    ensures bytes == EncodeFrame(e)
  {
    hide Concat, HeaderFields, EnvelopeFields;
    var output := new U8[76](_ => 0);
    var fields := HeaderFields(76) + EnvelopeFields(e);
    ConcatAppend(HeaderFields(76), EnvelopeFields(e));
    HeaderCut(76, []);
    assert HeaderBytes(76) + [] == HeaderBytes(76);
    EnvelopeLength(EnvelopeFields(e));
    FillFields(output, fields);
    bytes := output[..];
  }

  method ReadU64(bytes: ByteString, offset: nat) returns (v: U64)
    requires offset + 8 <= |bytes|
    ensures v == U64OfBytes(bytes[offset..offset + 8])
  {
    v := DecodeU64(bytes[offset..offset + 8]);
  }

  method DecodeCommandEnvelope(payload: ByteString) returns (r: Result<Envelope, ParseError>)
    ensures r == DecodeEnvelope(payload)
  {
    hide U16OfBytes, U64OfBytes, I64OfBytes;
    if |payload| != ENVELOPE_SIZE {
      return Err(PayloadSizeMismatch);
    }
    var id := ReadU64(payload, 36);
    if id == 0 {
      return Err(InvalidEntityId);
    }
    var client := ReadU64(payload, 4);
    var session := ReadU64(payload, 12);
    var sequence := ReadU64(payload, 20);
    var target := ReadU64(payload, 28);
    r := Ok(Envelope(U16OfBytes(payload[0..2]), U16OfBytes(payload[2..4]), client, session, sequence, target, id,
                     Vector2(I64OfBytes(payload[44..52]), I64OfBytes(payload[52..60]))));
  }
}
