/** The evidence archive: a 56-byte header followed by 160-byte records. */
module Archive {
  import opened Integers
  import opened Bytes
  import Commands
  import opened Evidence
  import opened EvidenceCodec
  import opened Chain

  const ARCHIVE_MAGIC: ByteString := [0x54, 0x4c, 0x43, 0x41]
  const ARCHIVE_SCHEMA_VERSION: U16 := 1
  const ARCHIVE_HEADER_SIZE: nat := 56
  const ARCHIVE_LAYOUT: seq<nat> := [0, 4, 6, 8, 12, 16, 24, 56]

  /** The largest record count whose archive size fits a 64-bit `size_t`. */
  const MAX_RECORDS: nat := (0xffff_ffff_ffff_ffff - 56) / 160

  datatype EvidenceArchive = EvidenceArchive(records: seq<EvidenceRecord>, head: Digest)

  datatype ArchiveError =
    | TruncatedHeader
    | BadMagic
    | UnsupportedArchiveSchema
    | UnsupportedRecordSchema
    | InvalidRecordSize
    | ReservedFieldSet
    | RecordCountOverflow
    | TruncatedRecords
    | TrailingData
    | ChainVerificationFailed
    | TrustedHeadMismatch
    | RecordRejected(cause: DecodeError)

  // ---------------------------------------------------------------- the format

  predicate FitsHeader(fs: seq<ByteString>) {
    && |fs| == 7
    && |fs[0]| == 4 && |fs[1]| == 2 && |fs[2]| == 2 && |fs[3]| == 4 && |fs[4]| == 4 && |fs[5]| == 8 && |fs[6]| == 32
  }

  function HeaderFields(count: U64, head: Digest): (fs: seq<ByteString>)
    ensures FitsHeader(fs)
  {
    [ ARCHIVE_MAGIC,
      BytesOfU16(ARCHIVE_SCHEMA_VERSION),
      BytesOfU16(RECORD_SCHEMA_VERSION),
      BytesOfU32(RECORD_SIZE),
      BytesOfU32(0),
      BytesOfU64(count),
      head ]
  }

  function RecordBlocks(rs: seq<EvidenceRecord>): (bs: seq<ByteString>)
    ensures |bs| == |rs|
    ensures forall i :: 0 <= i < |rs| ==> bs[i] == EncodeRecord(rs[i])
  {
    seq(|rs|, i requires 0 <= i < |rs| => EncodeRecord(rs[i]))
  }

  function ArchiveBytes(rs: seq<EvidenceRecord>, head: Digest): ByteString
    requires |rs| <= MAX_RECORDS
  {
    Concat(HeaderFields(|rs|, head)) + Concat(RecordBlocks(rs))
  }

  lemma HeaderLayout(fs: seq<ByteString>)
    requires FitsHeader(fs)
    ensures IsLayout(ARCHIVE_LAYOUT) && |ARCHIVE_LAYOUT| == 8
    ensures forall i :: 0 <= i < |fs| ==> |fs[i]| == ARCHIVE_LAYOUT[i + 1] - ARCHIVE_LAYOUT[i]
    ensures |Concat(fs)| == ARCHIVE_HEADER_SIZE
  {
    hide Concat;
    ConcatLength(fs, ARCHIVE_LAYOUT);
  }

  function CutHeader(b: ByteString): (fs: seq<ByteString>)
    requires |b| >= ARCHIVE_HEADER_SIZE
    ensures FitsHeader(fs)
    ensures fs[0] == b[0..4] && fs[1] == b[4..6] && fs[2] == b[6..8] && fs[3] == b[8..12]
    ensures fs[4] == b[12..16] && fs[5] == b[16..24] && fs[6] == b[24..56]
  {
    Slices(b, ARCHIVE_LAYOUT)
  }

  lemma HeaderCut(fs: seq<ByteString>, rest: ByteString)
    requires FitsHeader(fs)
    ensures |Concat(fs) + rest| >= ARCHIVE_HEADER_SIZE
    ensures CutHeader(Concat(fs) + rest) == fs
    ensures (Concat(fs) + rest)[ARCHIVE_HEADER_SIZE..] == rest
  {
    hide Concat, IsLayout;
    HeaderLayout(fs);
    SlicesConcat(fs, ARCHIVE_LAYOUT, rest);
  }

  lemma CutHeaderBack(b: ByteString)
    requires |b| >= ARCHIVE_HEADER_SIZE
    ensures b == Concat(CutHeader(b)) + b[ARCHIVE_HEADER_SIZE..]
  {
    hide Concat;
    ConcatSlices(b, ARCHIVE_LAYOUT);
  }

  function EncodeArchive(rs: seq<EvidenceRecord>, head: Digest): Result<ByteString, ArchiveError> {
    if !VerifyChain(rs, head) then Err(ChainVerificationFailed)
    else if |rs| > MAX_RECORDS then Err(RecordCountOverflow)
    else Ok(ArchiveBytes(rs, head))
  }

  function Prepend(rs: seq<EvidenceRecord>, rest: Result<seq<EvidenceRecord>, DecodeError>): Result<seq<EvidenceRecord>, DecodeError> {
    if rest.Ok? then Ok(rs + rest.value) else rest
  }

  /** The records of consecutive 160-byte blocks, up to the first that does not decode. */
  function DecodeRecords(b: ByteString): Result<seq<EvidenceRecord>, DecodeError>
    decreases |b|
  {
    hide DecodeRecord;
    if |b| < 160 then Ok([])
    else
      match DecodeRecord(b[..160])
      case Err(e) => Err(e)
      case Ok(r) => Prepend([r], DecodeRecords(b[160..]))
  }

  function DecodeBody(b: ByteString, count: U64, declared: Digest, trusted: Digest): Result<EvidenceArchive, ArchiveError> {
    if count > MAX_RECORDS then Err(RecordCountOverflow)
    else if |b| < 56 + count * 160 then Err(TruncatedRecords)
    else if |b| > 56 + count * 160 then Err(TrailingData)
    else
      match DecodeRecords(b[56..])
      case Err(e) => Err(RecordRejected(e))
      case Ok(rs) =>
        if !VerifyChain(rs, declared) then Err(ChainVerificationFailed)
        else if declared != trusted then Err(TrustedHeadMismatch)
        else Ok(EvidenceArchive(rs, declared))
  }

  function DecodeArchive(b: ByteString, trusted: Digest): Result<EvidenceArchive, ArchiveError> {
    if |b| < ARCHIVE_HEADER_SIZE then Err(TruncatedHeader)
    else
      var fs := CutHeader(b);
      if fs[0] != ARCHIVE_MAGIC then Err(BadMagic)
      else if U16OfBytes(fs[1]) != ARCHIVE_SCHEMA_VERSION then Err(UnsupportedArchiveSchema)
      else if U16OfBytes(fs[2]) != RECORD_SCHEMA_VERSION then Err(UnsupportedRecordSchema)
      else if U32OfBytes(fs[3]) != RECORD_SIZE then Err(InvalidRecordSize)
      else if U32OfBytes(fs[4]) != 0 then Err(ReservedFieldSet)
      else DecodeBody(b, U64OfBytes(fs[5]), fs[6], trusted)
  }

  // ---------------------------------------------------------------- the codec is a bijection

  predicate AllOk(rs: seq<EvidenceRecord>) {
    forall r :: r in rs ==> RecordOk(r)
  }

  lemma {:induction false} DecodedRecordsAreExact(b: ByteString)
    requires |b| % 160 == 0 && DecodeRecords(b).Ok?
    ensures var rs := DecodeRecords(b).value;
      AllOk(rs) && b == Concat(RecordBlocks(rs)) && |b| == 160 * |rs|
    decreases |b|
  {
    hide DecodeRecord, EncodeRecord, RecordOk;
    if b != [] {
      var r, rest := DecodeRecord(b[..160]).value, DecodeRecords(b[160..]).value;
      RecordCodecIsExact(b[..160], r);
      DecodedRecordsAreExact(b[160..]);
      assert RecordBlocks([r] + rest)[1..] == RecordBlocks(rest);
      assert b == b[..160] + b[160..];
    }
  }

  lemma {:induction false} RecordsDecodeBack(rs: seq<EvidenceRecord>)
    requires AllOk(rs)
    ensures |Concat(RecordBlocks(rs))| == 160 * |rs|
    ensures DecodeRecords(Concat(RecordBlocks(rs))) == Ok(rs)
  {
    hide DecodeRecord, EncodeRecord, RecordOk;
    if rs != [] {
      RecordCodecIsExact(EncodeRecord(rs[0]), rs[0]);
      RecordsDecodeBack(rs[1..]);
      assert RecordBlocks(rs)[1..] == RecordBlocks(rs[1..]);
      var b := Concat(RecordBlocks(rs));
      assert b[..160] == EncodeRecord(rs[0]) && b[160..] == Concat(RecordBlocks(rs[1..]));
      assert rs == [rs[0]] + rs[1..];
    }
  }

  /** What an accepted archive means. */
  predicate IsArchive(a: EvidenceArchive, trusted: Digest) {
    a.head == trusted && VerifyChain(a.records, a.head) && AllOk(a.records) && |a.records| <= MAX_RECORDS
  }

  lemma HeaderValues(count: U64, head: Digest)
    ensures var fs := HeaderFields(count, head);
      && U16OfBytes(fs[1]) == ARCHIVE_SCHEMA_VERSION && U16OfBytes(fs[2]) == RECORD_SCHEMA_VERSION
      && U32OfBytes(fs[3]) == RECORD_SIZE && U32OfBytes(fs[4]) == 0 && U64OfBytes(fs[5]) == count
  {
    hide BytesOfU16, BytesOfU32, BytesOfU64, U16OfBytes, U32OfBytes, U64OfBytes;
    U16RoundTrip(ARCHIVE_SCHEMA_VERSION);
    U16RoundTrip(RECORD_SCHEMA_VERSION);
    U32RoundTrip(RECORD_SIZE);
    U32RoundTrip(0);
    U64RoundTrip(count);
  }

  lemma HeaderDetermined(fs: seq<ByteString>)
    requires FitsHeader(fs) && fs[0] == ARCHIVE_MAGIC
    requires U16OfBytes(fs[1]) == ARCHIVE_SCHEMA_VERSION && U16OfBytes(fs[2]) == RECORD_SCHEMA_VERSION
    requires U32OfBytes(fs[3]) == RECORD_SIZE && U32OfBytes(fs[4]) == 0
    ensures fs == HeaderFields(U64OfBytes(fs[5]), fs[6])
  {
    hide BytesOfU16, BytesOfU32, BytesOfU64, U16OfBytes, U32OfBytes, U64OfBytes;
    assert BytesOfU16(U16OfBytes(fs[1])) == fs[1] && BytesOfU16(U16OfBytes(fs[2])) == fs[2];
    assert BytesOfU32(U32OfBytes(fs[3])) == fs[3] && BytesOfU32(U32OfBytes(fs[4])) == fs[4];
    assert BytesOfU64(U64OfBytes(fs[5])) == fs[5];
  }

  lemma AcceptedArchiveIsCanonical(b: ByteString, trusted: Digest)
    requires DecodeArchive(b, trusted).Ok?
    ensures var a := DecodeArchive(b, trusted).value;
      IsArchive(a, trusted) && b == ArchiveBytes(a.records, a.head)
  {
    hide Concat, CutHeader, HeaderFields, RecordBlocks, VerifyChain, AllOk, DecodeRecords, U16OfBytes, U32OfBytes, U64OfBytes;
    var fs := CutHeader(b);
    CutHeaderBack(b);
    HeaderDetermined(fs);
    DecodedRecordsAreExact(b[56..]);
  }

  lemma ArchiveDecodesBack(a: EvidenceArchive, trusted: Digest)
    requires IsArchive(a, trusted)
    ensures DecodeArchive(ArchiveBytes(a.records, a.head), trusted) == Ok(a)
  {
    hide Concat, CutHeader, RecordBlocks, VerifyChain, AllOk, DecodeRecords, U16OfBytes, U32OfBytes, U64OfBytes,
      BytesOfU16, BytesOfU32, BytesOfU64;
    var fs, body := HeaderFields(|a.records|, a.head), Concat(RecordBlocks(a.records));
    HeaderCut(fs, body);
    HeaderValues(|a.records|, a.head);
    RecordsDecodeBack(a.records);
  }

  /** An archive is accepted if and only if it is the encoding of a chain-valid list of checked
      records under the trusted head; decoding and encoding are inverse to each other. */
  lemma ArchiveCodecIsExact(b: ByteString, trusted: Digest, a: EvidenceArchive)
    ensures DecodeArchive(b, trusted) == Ok(a) <==> IsArchive(a, trusted) && b == ArchiveBytes(a.records, a.head)
  {
    hide DecodeArchive, ArchiveBytes, VerifyChain, AllOk;
    if DecodeArchive(b, trusted) == Ok(a) {
      AcceptedArchiveIsCanonical(b, trusted);
    }
    if IsArchive(a, trusted) && b == ArchiveBytes(a.records, a.head) {
      ArchiveDecodesBack(a, trusted);
    }
  }

  const ARCHIVE_ERRORS: seq<ArchiveError> := [
    TruncatedHeader, BadMagic, UnsupportedArchiveSchema, UnsupportedRecordSchema, InvalidRecordSize,
    ReservedFieldSet, RecordCountOverflow, TruncatedRecords, TrailingData ]

  /** The defect of the bytes that error `k` of the list stands for. */
  predicate HasDefect(b: ByteString, k: nat) {
    if |b| < 56 then k == 0
    else
      match k
      case 1 => b[0..4] != [0x54, 0x4c, 0x43, 0x41]
      case 2 => Value(b[4..6]) != 1
      case 3 => Value(b[6..8]) != 2
      case 4 => Value(b[8..12]) != 160
      case 5 => Value(b[12..16]) != 0
      case 6 => 56 + 160 * Value(b[16..24]) > 0xffff_ffff_ffff_ffff
      case 7 => |b| < 56 + 160 * Value(b[16..24])
      case 8 => |b| > 56 + 160 * Value(b[16..24])
      case _ => false
  }

  /** An archive is refused with the error of its first defect; one without a defect is refused by
      its first bad record, then by its chain, then by the trusted head. */
  lemma ArchiveErrorIsFirstDefect(b: ByteString, trusted: Digest, k: nat)
    requires k <= 9 && (k < 9 ==> HasDefect(b, k))
    requires forall j :: 0 <= j < k ==> !HasDefect(b, j)
    ensures k < 9 ==> DecodeArchive(b, trusted) == Err(ARCHIVE_ERRORS[k])
    ensures k == 9 ==>
      && |b| >= 56
      && DecodeArchive(b, trusted) ==
        match DecodeRecords(b[56..])
        case Err(e) => Err(RecordRejected(e))
        case Ok(rs) =>
          if !VerifyChain(rs, b[24..56]) then Err(ChainVerificationFailed)
          else if b[24..56] != trusted then Err(TrustedHeadMismatch)
          else Ok(EvidenceArchive(rs, trusted))
  {
    hide Value, VerifyChain, DecodeRecords;
    assert k > 0 ==> !HasDefect(b, 0);
    assert k > 1 ==> !HasDefect(b, 1);
    assert k > 2 ==> !HasDefect(b, 2);
    assert k > 3 ==> !HasDefect(b, 3);
    assert k > 4 ==> !HasDefect(b, 4);
    assert k > 5 ==> !HasDefect(b, 5);
    assert k > 6 ==> !HasDefect(b, 6);
    assert k > 7 ==> !HasDefect(b, 7);
    assert k > 8 ==> !HasDefect(b, 8);
  }

  lemma ArchiveBytesInjective(rs: seq<EvidenceRecord>, ss: seq<EvidenceRecord>, head: Digest, other: Digest)
    requires |rs| <= MAX_RECORDS && |ss| <= MAX_RECORDS
    requires ArchiveBytes(rs, head) == ArchiveBytes(ss, other)
    ensures rs == ss && head == other
  {
    hide Concat, EncodeRecord, U64OfBytes, BytesOfU64, BytesOfU32, BytesOfU16, CutHeader, U16OfBytes, U32OfBytes;
    var fs, gs := HeaderFields(|rs|, head), HeaderFields(|ss|, other);
    HeaderCut(fs, Concat(RecordBlocks(rs)));
    HeaderCut(gs, Concat(RecordBlocks(ss)));
    HeaderValues(|rs|, head);
    HeaderValues(|ss|, other);
    assert fs == gs && fs[5] == gs[5] && fs[6] == gs[6];
    BlocksInjective(rs, ss);
  }

  lemma BlocksInjective(rs: seq<EvidenceRecord>, ss: seq<EvidenceRecord>)
    requires |rs| == |ss| && Concat(RecordBlocks(rs)) == Concat(RecordBlocks(ss))
    ensures rs == ss
  {
    hide Concat, EncodeRecord;
    ConcatInjective(RecordBlocks(rs), RecordBlocks(ss), [], []);
    forall i | 0 <= i < |rs|
      ensures rs[i] == ss[i]
    {
      assert RecordBlocks(rs)[i] == RecordBlocks(ss)[i];
      EncodingIsInjective(rs[i], ss[i]);
    }
  }

  /** The encoder does not run the record checks, so the decoder accepts what it writes if and only
      if every record passes them, and then returns the records themselves. */
  lemma RoundTripNeedsCheckedRecords(rs: seq<EvidenceRecord>, head: Digest)
    requires EncodeArchive(rs, head).Ok?
    ensures var read := DecodeArchive(EncodeArchive(rs, head).value, head);
      && (read.Ok? <==> AllOk(rs))
      && (read.Ok? ==> read.value == EvidenceArchive(rs, head))
  {
    hide DecodeArchive, ArchiveBytes, VerifyChain, AllOk;
    var b := EncodeArchive(rs, head).value;
    ArchiveCodecIsExact(b, head, EvidenceArchive(rs, head));
    if DecodeArchive(b, head).Ok? {
      var a := DecodeArchive(b, head).value;
      ArchiveCodecIsExact(b, head, a);
      ArchiveBytesInjective(a.records, rs, a.head, head);
    }
  }

  /** A record that claims acceptance although the queue was not asked is archived without
      complaint, and the decoder then refuses the archive. */
  lemma UncheckedRecordIsLost(e: Commands.Envelope)
    ensures
      var r := EvidenceRecord(0, ZERO_DIGEST, EvidenceEntry(0, 0, e, 0, 0, 0, 0, Commands.NONE, NOT_ATTEMPTED));
      var written := EncodeArchive([r], DigestRecord(r));
      written.Ok? && DecodeArchive(written.value, DigestRecord(r)).Err?
  {
    hide DecodeArchive, ArchiveBytes, DigestRecord;
    var r := EvidenceRecord(0, ZERO_DIGEST, EvidenceEntry(0, 0, e, 0, 0, 0, 0, Commands.NONE, NOT_ATTEMPTED));
    assert VerifyChain([r], DigestRecord(r));
    assert r in [r] && !RecordOk(r);
    RoundTripNeedsCheckedRecords([r], DigestRecord(r));
  }

  /** End to end: whoever holds the head of a verifying log accepts no archive but that of the log
      itself, unless the archive hands over a break of SHA-256. */
  lemma AcceptedArchiveIsTheLog(rs: seq<EvidenceRecord>, head: Digest, b: ByteString)
    requires VerifyChain(rs, head) && DecodeArchive(b, head).Ok?
    ensures
      var a := DecodeArchive(b, head).value;
      || (a == EvidenceArchive(rs, head) && |rs| <= MAX_RECORDS && b == ArchiveBytes(rs, head))
      || (a.records != rs && BreaksHash(Compare(rs, a.records)))
  {
    hide DecodeArchive, ArchiveBytes, VerifyChain, AllOk, Compare, BreaksHash;
    var a := DecodeArchive(b, head).value;
    ArchiveCodecIsExact(b, head, a);
    TamperingBreaksTheHash(rs, a.records, head);
  }

  // ---------------------------------------------------------------- the implementation

  /** `checked_archive_size`. */
  method CheckedArchiveSize(count: U64) returns (size: Result<nat, ArchiveError>)
    ensures size == if count > MAX_RECORDS then Err(RecordCountOverflow) else Ok(56 + count * 160)
    ensures size.Ok? ==> size.value < TWO_64
  {
    if count > (0xffff_ffff_ffff_ffff - ARCHIVE_HEADER_SIZE) / RECORD_SIZE {
      return Err(RecordCountOverflow);
    }
    size := Ok(ARCHIVE_HEADER_SIZE + count * RECORD_SIZE);
  }

  /** The archive writer pushes to the end of a vector. The size test after the loop cannot fail. */
  method EncodeCommandEvidenceArchive(records: seq<EvidenceRecord>, head: Digest)
    returns (r: Result<ByteString, ArchiveError>)
    requires |records| < TWO_64
    ensures r == EncodeArchive(records, head)
  {
    hide VerifyChain, Concat, EncodeRecord, BytesOfU16, BytesOfU32, BytesOfU64;
    var verified := VerifyCommandEvidenceChain(records, head);
    if !verified {
      return Err(ChainVerificationFailed);
    }
    var size := CheckedArchiveSize(|records|);
    if size.Err? {
      return Err(size.error);
    }
    var output := WriteArchiveHeader(|records|, head);
    output := AppendRecords(output, records);
    assert |output| == size.value by {
      HeaderLayout(HeaderFields(|records|, head));
      ConcatUniformLength(RecordBlocks(records), 160);
    }
    r := Ok(output);
  }

  method WriteArchiveHeader(count: U64, head: Digest) returns (output: ByteString)
    ensures output == Concat(HeaderFields(count, head))
  {
    hide BytesOfU16, BytesOfU32, BytesOfU64;
    var encodedCount := EncodeU64(count);
    var fields := [ARCHIVE_MAGIC, BytesOfU16(ARCHIVE_SCHEMA_VERSION), BytesOfU16(RECORD_SCHEMA_VERSION),
                   BytesOfU32(RECORD_SIZE), BytesOfU32(0), encodedCount, head];
    output := [];
    for i := 0 to |fields|
      invariant output == Concat(fields[..i])
    {
      ConcatSnoc(fields[..i], fields[i]);
      assert fields[..i + 1] == fields[..i] + [fields[i]];
      output := output + fields[i];
    }
    assert fields[..|fields|] == HeaderFields(count, head);
  }

  method AppendRecords(output: ByteString, records: seq<EvidenceRecord>) returns (r: ByteString)
    ensures r == output + Concat(RecordBlocks(records))
  {
    hide EncodeRecord;
    r := output;
    for i := 0 to |records|
      invariant r == output + Concat(RecordBlocks(records[..i]))
    {
      var encoded := EncodeCommandEvidence(records[i]);
      ConcatSnoc(RecordBlocks(records[..i]), encoded);
      assert RecordBlocks(records[..i + 1]) == RecordBlocks(records[..i]) + [encoded];
      r := r + encoded;
    }
    assert records[..|records|] == records;
  }

  /** The loop that decodes one 160-byte window after the other. */
  method DecodeRecordWindows(encoded: ByteString, count: nat) returns (r: Result<seq<EvidenceRecord>, DecodeError>)
    requires |encoded| == 56 + count * 160
    ensures r == DecodeRecords(encoded[56..])
  {
    hide DecodeRecord, DecodeRecords, Prepend;
    var records: seq<EvidenceRecord> := [];
    var offset := ARCHIVE_HEADER_SIZE;
    PrependNothing(DecodeRecords(encoded[56..]));
    for index := 0 to count
      invariant offset == 56 + index * 160 <= |encoded|
      invariant DecodeRecords(encoded[56..]) == Prepend(records, DecodeRecords(encoded[offset..]))
    {
      NextWindow(records, encoded, offset);
      var decoded := DecodeCommandEvidence(encoded[offset..offset + 160]);
      if decoded.Err? {
        return Err(decoded.error);
      }
      records := records + [decoded.value];
      offset := offset + 160;
    }
    NoMoreWindows(records, encoded[offset..]);
    r := Ok(records);
  }

  lemma NextWindow(records: seq<EvidenceRecord>, b: ByteString, offset: nat)
    requires offset + 160 <= |b|
    ensures Prepend(records, DecodeRecords(b[offset..])) ==
      match DecodeRecord(b[offset..offset + 160])
      case Err(e) => Err(e)
      case Ok(r) => Prepend(records + [r], DecodeRecords(b[offset + 160..]))
  {
    hide DecodeRecord;
    assert b[offset..][..160] == b[offset..offset + 160] && b[offset..][160..] == b[offset + 160..];
    match DecodeRecord(b[offset..offset + 160])
    case Err(_) =>
    case Ok(r) => PrependStep(records, r, DecodeRecords(b[offset + 160..]));
  }

  lemma NoMoreWindows(records: seq<EvidenceRecord>, b: ByteString)
    requires |b| < 160
    ensures Prepend(records, DecodeRecords(b)) == Ok(records)
  {
    assert records + [] == records;
  }

  lemma PrependNothing(rest: Result<seq<EvidenceRecord>, DecodeError>)
    ensures Prepend([], rest) == rest
  {
    if rest.Ok? { assert [] + rest.value == rest.value; }
  }

  lemma PrependStep(rs: seq<EvidenceRecord>, r: EvidenceRecord, rest: Result<seq<EvidenceRecord>, DecodeError>)
    ensures Prepend(rs, Prepend([r], rest)) == Prepend(rs + [r], rest)
  {
    if rest.Ok? { assert rs + ([r] + rest.value) == rs + [r] + rest.value; }
  }

  method DecodeCommandEvidenceArchive(encoded: ByteString, trusted: Digest) returns (r: Result<EvidenceArchive, ArchiveError>)
    ensures r == DecodeArchive(encoded, trusted)
  {
    hide CutHeader, DecodeBody, U16OfBytes, U32OfBytes, U64OfBytes;
    if |encoded| < ARCHIVE_HEADER_SIZE {
      return Err(TruncatedHeader);
    }
    var reader := new EvidenceReader(encoded[..ARCHIVE_HEADER_SIZE]);
    HeaderWindow(encoded);
    var magic := reader.ReadBytes(4);
    if magic != ARCHIVE_MAGIC {
      return Err(BadMagic);
    }
    var archiveSchema := reader.ReadU16();
    if archiveSchema != ARCHIVE_SCHEMA_VERSION {
      return Err(UnsupportedArchiveSchema);
    }
    var recordSchema := reader.ReadU16();
    if recordSchema != RECORD_SCHEMA_VERSION {
      return Err(UnsupportedRecordSchema);
    }
    var recordSize := ReadU32(reader);
    if recordSize != RECORD_SIZE {
      return Err(InvalidRecordSize);
    }
    var reserved := ReadU32(reader);
    if reserved != 0 {
      return Err(ReservedFieldSet);
    }
    var count := reader.ReadU64();
    var declared := reader.ReadBytes(32);
    r := DecodeArchiveBody(encoded, count, declared, trusted);
  }

  lemma HeaderWindow(b: ByteString)
    requires |b| >= ARCHIVE_HEADER_SIZE
    ensures var w, fs := b[..ARCHIVE_HEADER_SIZE], CutHeader(b);
      && fs[0] == w[0..4] && fs[1] == w[4..6] && fs[2] == w[6..8] && fs[3] == w[8..12]
      && fs[4] == w[12..16] && fs[5] == w[16..24] && fs[6] == w[24..56]
  {
  }

  method DecodeArchiveBody(encoded: ByteString, count: U64, declared: Digest, trusted: Digest)
    returns (r: Result<EvidenceArchive, ArchiveError>)
    requires |encoded| >= ARCHIVE_HEADER_SIZE
    ensures r == DecodeBody(encoded, count, declared, trusted)
  {
    hide VerifyChain, DecodeRecords;
    var size := CheckedArchiveSize(count);
    if size.Err? {
      return Err(size.error);
    }
    if |encoded| < size.value {
      return Err(TruncatedRecords);
    }
    if |encoded| > size.value {
      return Err(TrailingData);
    }
    var records := DecodeRecordWindows(encoded, count);
    if records.Err? {
      return Err(RecordRejected(records.error));
    }
    var verified := VerifyCommandEvidenceChain(records.value, declared);
    if !verified {
      return Err(ChainVerificationFailed);
    }
    if declared != trusted {
      return Err(TrustedHeadMismatch);
    }
    r := Ok(EvidenceArchive(records.value, declared));
  }

  method ReadU32(reader: EvidenceReader) returns (v: U32)
    requires reader.offset + 4 <= |reader.input|
    modifies reader`offset
    ensures reader.offset == old(reader.offset) + 4
    ensures v == U32OfBytes(reader.input[old(reader.offset)..reader.offset])
  {
    var bs := reader.ReadBytes(4);
    v := 0;
    for i := 0 to 4
      invariant v == Value(bs[..i])
      invariant reader.offset == old(reader.offset) + 4
    {
      ValueBound(bs[..i]);
      PowMonotone(i, 3);
      Powers();
      assert v * 256 < TWO_32;
      assert bs[..i + 1][..i] == bs[..i];
      v := v * 256 % TWO_32 + bs[i];
    }
    assert bs[..4] == bs;
  }
}
