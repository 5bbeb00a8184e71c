/** Wire frames: a 16-byte header followed by a payload. */
module Frames {
  import opened Integers
  import opened Bytes

  const FRAME_MAGIC: ByteString := [0x54, 0x49, 0x43, 0x4b]
  const PROTOCOL_VERSION: U16 := 1
  const FRAME_HEADER_SIZE: U16 := 16
  const COMMAND_ENVELOPE: U16 := 1
  const FRAME_LAYOUT: seq<nat> := [0, 4, 6, 8, 12, 14, 16]

  /** Limits below the header size are refused when a parser or a gateway is constructed. */
  type FrameLimit = x: int | 16 <= x < 0x1_0000_0000 witness 16

  datatype ParseError =
    | TruncatedHeader
    | InvalidMagic
    | UnsupportedProtocolVersion
    | InvalidHeaderSize
    | FrameTooSmall
    | FrameTooLarge
    | ReservedFlagsSet
    | UnknownMessageType
    | TruncatedFrame
    | TrailingData
    | PayloadSizeMismatch
    | InvalidEntityId

  datatype FrameHeader = FrameHeader(version: U16, headerSize: U16, frameSize: U32, messageType: U16, flags: U16)

  datatype Frame = Frame(header: FrameHeader, payload: ByteString)

  /** The checks in the order of the source: flags before message type. */
  function DecodeHeader(b: ByteString, limit: FrameLimit): Result<FrameHeader, ParseError> {
    if |b| < 16 then Err(TruncatedHeader)
    else if b[0..4] != FRAME_MAGIC then Err(InvalidMagic)
    else if U16OfBytes(b[4..6]) != PROTOCOL_VERSION then Err(UnsupportedProtocolVersion)
    else if U16OfBytes(b[6..8]) != FRAME_HEADER_SIZE then Err(InvalidHeaderSize)
    else if U32OfBytes(b[8..12]) < 16 then Err(FrameTooSmall)
    else if U32OfBytes(b[8..12]) > limit then Err(FrameTooLarge)
    else if U16OfBytes(b[14..16]) != 0 then Err(ReservedFlagsSet)
    else if U16OfBytes(b[12..14]) != COMMAND_ENVELOPE then Err(UnknownMessageType)
    else Ok(HeaderFor(U32OfBytes(b[8..12])))
  }

  /** The only header that the protocol knows, for a frame of a given size. */
  function HeaderFor(frameSize: U32): FrameHeader {
    FrameHeader(PROTOCOL_VERSION, FRAME_HEADER_SIZE, frameSize, COMMAND_ENVELOPE, 0)
  }

  function ParseFrame(b: ByteString, limit: FrameLimit): Result<Frame, ParseError> {
    match DecodeHeader(b, limit)
    case Err(e) => Err(e)
    case Ok(h) =>
      if |b| < h.frameSize then Err(TruncatedFrame)
      else if |b| > h.frameSize then Err(TrailingData)
      else Ok(Frame(h, b[16..]))
  }

  // ---------------------------------------------------------------- the encoding of a frame

  function HeaderFields(frameSize: U32): (fs: seq<ByteString>)
    ensures |fs| == 6
    ensures |fs[0]| == 4 && |fs[1]| == 2 && |fs[2]| == 2 && |fs[3]| == 4 && |fs[4]| == 2 && |fs[5]| == 2
  {
    [ FRAME_MAGIC,
      BytesOfU16(PROTOCOL_VERSION),
      BytesOfU16(FRAME_HEADER_SIZE),
      BytesOfU32(frameSize),
      BytesOfU16(COMMAND_ENVELOPE),
      BytesOfU16(0) ]
  }

  function HeaderBytes(frameSize: U32): ByteString {
    Concat(HeaderFields(frameSize))
  }

  function FrameBytes(payload: ByteString): ByteString
    requires |payload| < TWO_32 - 16
  {
    HeaderBytes(16 + |payload|) + payload
  }

  lemma HeaderCut(frameSize: U32, rest: ByteString)
    ensures var b, fs := HeaderBytes(frameSize) + rest, HeaderFields(frameSize);
      && |b| == 16 + |rest| && b[16..] == rest
      && b[0..4] == fs[0] && b[4..6] == fs[1] && b[6..8] == fs[2] && b[8..12] == fs[3] && b[12..14] == fs[4] && b[14..16] == fs[5]
  {
    hide Concat, HeaderFields;
    SlicesConcat(HeaderFields(frameSize), FRAME_LAYOUT, rest);
    var s := Slices(HeaderBytes(frameSize) + rest, FRAME_LAYOUT);
    assert s[0] == HeaderFields(frameSize)[0];
  }

  lemma HeaderRoundTrips(frameSize: U32)
    ensures var fs := HeaderFields(frameSize);
      && U16OfBytes(fs[1]) == PROTOCOL_VERSION && U16OfBytes(fs[2]) == FRAME_HEADER_SIZE
      && U32OfBytes(fs[3]) == frameSize && U16OfBytes(fs[4]) == COMMAND_ENVELOPE && U16OfBytes(fs[5]) == 0
  {
    hide BytesOfU16, BytesOfU32, U16OfBytes, U32OfBytes;
    U16RoundTrip(PROTOCOL_VERSION);
    U16RoundTrip(FRAME_HEADER_SIZE);
    U32RoundTrip(frameSize);
    U16RoundTrip(COMMAND_ENVELOPE);
    U16RoundTrip(0);
  }

  /** A header is accepted if and only if it is the encoding of a frame size within the limit. */
  lemma HeaderIsExact(b: ByteString, limit: FrameLimit, h: FrameHeader)
    ensures DecodeHeader(b, limit) == Ok(h) <==>
      |b| >= 16 && 16 <= h.frameSize <= limit && h == HeaderFor(h.frameSize) && b[..16] == HeaderBytes(h.frameSize)
  {
    hide U16OfBytes, U32OfBytes, BytesOfU16, BytesOfU32, Concat;
    if DecodeHeader(b, limit) == Ok(h) {
      ConcatSlices(b, FRAME_LAYOUT);
      assert Slices(b, FRAME_LAYOUT) == HeaderFields(h.frameSize) by {
        assert BytesOfU16(U16OfBytes(b[4..6])) == b[4..6] && BytesOfU16(U16OfBytes(b[6..8])) == b[6..8];
        assert BytesOfU32(U32OfBytes(b[8..12])) == b[8..12];
        assert BytesOfU16(U16OfBytes(b[12..14])) == b[12..14] && BytesOfU16(U16OfBytes(b[14..16])) == b[14..16];
      }
    }
    if |b| >= 16 && 16 <= h.frameSize <= limit && h == HeaderFor(h.frameSize) && b[..16] == HeaderBytes(h.frameSize) {
      assert b == HeaderBytes(h.frameSize) + b[16..];
      HeaderCut(h.frameSize, b[16..]);
      HeaderRoundTrips(h.frameSize);
    }
  }

  const HEADER_ERRORS: seq<ParseError> := [
    TruncatedHeader, InvalidMagic, UnsupportedProtocolVersion, InvalidHeaderSize,
    FrameTooSmall, FrameTooLarge, ReservedFlagsSet, UnknownMessageType ]

  /** The defect that error `k` of the list stands for. */
  predicate HasDefect(b: ByteString, limit: FrameLimit, k: nat) {
    if |b| < 16 then k == 0
    else
      match k
      case 1 => b[0..4] != [0x54, 0x49, 0x43, 0x4b]
      case 2 => Value(b[4..6]) != 1
      case 3 => Value(b[6..8]) != 16
      case 4 => Value(b[8..12]) < 16
      case 5 => Value(b[8..12]) > limit
      case 6 => Value(b[14..16]) != 0
      case 7 => Value(b[12..14]) != 1
      case _ => false
  }

  lemma FirstDefect(b: ByteString, limit: FrameLimit) returns (k: nat)
    ensures k <= 8 && (k < 8 ==> HasDefect(b, limit, k))
    ensures forall j :: 0 <= j < k ==> !HasDefect(b, limit, j)
  {
    k := 0;
    while k < 8 && !HasDefect(b, limit, k)
      invariant k <= 8 && forall j :: 0 <= j < k ==> !HasDefect(b, limit, j)
    {
      k := k + 1;
    }
  }

  lemma FirstDefectDecides(b: ByteString, limit: FrameLimit, k: nat)
    requires k <= 8 && (k < 8 ==> HasDefect(b, limit, k))
    requires forall j :: 0 <= j < k ==> !HasDefect(b, limit, j)
    ensures k < 8 ==> DecodeHeader(b, limit) == Err(HEADER_ERRORS[k])
    ensures k == 8 ==> DecodeHeader(b, limit).Ok?
  {
    hide Value;
    assert k > 0 ==> !HasDefect(b, limit, 0);
    assert k > 1 ==> !HasDefect(b, limit, 1);
    assert k > 2 ==> !HasDefect(b, limit, 2);
    assert k > 3 ==> !HasDefect(b, limit, 3);
    assert k > 4 ==> !HasDefect(b, limit, 4);
    assert k > 5 ==> !HasDefect(b, limit, 5);
    assert k > 6 ==> !HasDefect(b, limit, 6);
    assert k > 7 ==> !HasDefect(b, limit, 7);
  }

  /** A header is refused with the error of its first defect. */
  lemma HeaderErrorIsFirstDefect(b: ByteString, limit: FrameLimit, k: nat)
    requires k < 8
    ensures DecodeHeader(b, limit) == Err(HEADER_ERRORS[k]) <==>
      HasDefect(b, limit, k) && forall j :: 0 <= j < k ==> !HasDefect(b, limit, j)
    ensures DecodeHeader(b, limit).Err? ==> DecodeHeader(b, limit).error in HEADER_ERRORS
  {
    hide Value;
    var first := FirstDefect(b, limit);
    FirstDefectDecides(b, limit, first);
    assert forall i, j :: 0 <= i < j < 8 ==> HEADER_ERRORS[i] != HEADER_ERRORS[j];
  }

  /** Beyond its header a frame is refused only for its length. */
  lemma FrameErrorIsExact(b: ByteString, limit: FrameLimit)
    ensures var h, f := DecodeHeader(b, limit), ParseFrame(b, limit);
      && (h.Err? ==> f == Err(h.error))
      && (h.Ok? ==> (f == Err(TruncatedFrame) <==> |b| < Value(b[8..12])))
      && (h.Ok? ==> (f == Err(TrailingData) <==> |b| > Value(b[8..12])))
      && (f.Err? ==> h.Err? || f.error in {TruncatedFrame, TrailingData})
  {
    hide Value;
  }

  /** A frame is accepted if and only if it is the encoding of its payload and fits the limit. */
  lemma FrameIsExact(b: ByteString, limit: FrameLimit, f: Frame)
    ensures ParseFrame(b, limit) == Ok(f) <==>
      && |f.payload| + 16 <= limit
      && f.header == HeaderFor(|f.payload| + 16)
      && b == FrameBytes(f.payload)
  {
    hide DecodeHeader, HeaderBytes;
    HeaderIsExact(b, limit, f.header);
    if ParseFrame(b, limit) == Ok(f) {
      assert b == b[..16] + b[16..];
    }
    if |f.payload| + 16 <= limit && f.header == HeaderFor(|f.payload| + 16) && b == FrameBytes(f.payload) {
      HeaderCut(16 + |f.payload|, f.payload);
      assert b[..16] == HeaderBytes(f.header.frameSize);
    }
  }
}
