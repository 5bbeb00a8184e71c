/** Evidence records, the checks on them and their 160-byte encoding. */
module Evidence {
  import opened Integers
  import opened Bytes
  import opened WorldModel
  import opened Commands
  import Sha256

  type Digest = Sha256.Digest
  const ZERO_DIGEST: Digest := Zeros(32)

  type QueueOutcome = U16
  const NOT_ATTEMPTED: QueueOutcome := 0
  const QUEUE_ACCEPTED: QueueOutcome := 1
  const QUEUE_STALE_TICK: QueueOutcome := 2
  const QUEUE_UNKNOWN_ENTITY: QueueOutcome := 3
  const QUEUE_SEQUENCE_NOT_INCREASING: QueueOutcome := 4
  const QUEUE_TARGET_TICK_REGRESSION: QueueOutcome := 5
  const QUEUE_VELOCITY_OUT_OF_RANGE: QueueOutcome := 6
  const QUEUE_UNKNOWN: QueueOutcome := 65535

  datatype EvidenceEntry = EvidenceEntry(
    fingerprintBefore: U64,
    observedTick: U64,
    envelope: Envelope,
    sessionBefore: U64,
    sessionAfter: U64,
    pendingBefore: U64,
    pendingAfter: U64,
    rejection: RejectionCode,
    outcome: QueueOutcome)

  datatype EvidenceRecord = EvidenceRecord(ordinal: U64, previous: Digest, entry: EvidenceEntry)

  // ---------------------------------------------------------------- record checks

  predicate IsKnownRejection(c: RejectionCode) {
    c <= SIMULATION_REJECTION_UNKNOWN
  }

  predicate IsKnownOutcome(o: QueueOutcome) {
    o <= QUEUE_VELOCITY_OUT_OF_RANGE || o == QUEUE_UNKNOWN
  }

  function ExpectedRejection(o: QueueOutcome): Option<RejectionCode> {
    if o == QUEUE_ACCEPTED then Some(NONE)
    else if o == QUEUE_STALE_TICK then Some(STALE_TARGET_TICK)
    else if o == QUEUE_UNKNOWN_ENTITY then Some(UNKNOWN_ENTITY)
    else if o == QUEUE_SEQUENCE_NOT_INCREASING then Some(ENTITY_SEQUENCE_NOT_INCREASING)
    else if o == QUEUE_TARGET_TICK_REGRESSION then Some(TARGET_TICK_REGRESSION)
    else if o == QUEUE_VELOCITY_OUT_OF_RANGE then Some(VELOCITY_OUT_OF_RANGE)
    else if o == QUEUE_UNKNOWN then Some(SIMULATION_REJECTION_UNKNOWN)
    else None
  }

  datatype DecodeError =
    | InvalidSize
    | InvalidMagic
    | UnsupportedSchemaVersion
    | NonzeroReservedField
    | InvalidEntityId
    | UnknownRejectionCode
    | UnknownQueueOutcome
    | InconsistentOutcome
    | InconsistentStateTransition

  /** `validate_record_invariants`: the first violation, if any. */
  function CheckInvariants(e: EvidenceEntry): Option<DecodeError> {
    var accepted := e.rejection == NONE;
    if accepted != (e.outcome == QUEUE_ACCEPTED) then Some(InconsistentOutcome)
    else if ExpectedRejection(e.outcome).Some? && ExpectedRejection(e.outcome).value != e.rejection then Some(InconsistentOutcome)
    else if accepted then
      if e.sessionAfter != e.envelope.sequence || e.sessionAfter <= e.sessionBefore then Some(InconsistentStateTransition)
      else if e.pendingBefore == TWO_64 - 1 then Some(InconsistentStateTransition)
      else if e.pendingAfter != e.pendingBefore + 1 then Some(InconsistentStateTransition)
      else None
    else if e.sessionAfter != e.sessionBefore || e.pendingAfter != e.pendingBefore then Some(InconsistentStateTransition)
    else None
  }

  /** A record that the decoder accepts. */
  predicate RecordOk(r: EvidenceRecord) {
    IsKnownRejection(r.entry.rejection) && IsKnownOutcome(r.entry.outcome) && CheckInvariants(r.entry) == None
  }

  /** The pairs of queue outcome and rejection code that a record may claim. */
  predicate Coherent(outcome: QueueOutcome, rejection: RejectionCode) {
    if outcome == 0 then 1 <= rejection <= 16
    else (outcome, rejection) in {(1, 0), (2, 8), (3, 13), (4, 14), (5, 15), (6, 10), (65535, 16)}
  }

  /** The change of session and queue that goes with the code: one new sequence and one new
      command, or none at all. */
  predicate Transition(e: EvidenceEntry) {
    if e.rejection == 0 then
      e.sessionBefore < e.sessionAfter == e.envelope.sequence && e.pendingAfter == e.pendingBefore + 1
    else
      e.sessionAfter == e.sessionBefore && e.pendingAfter == e.pendingBefore
  }

  /** A record passes the checks if and only if its outcome and code belong together and its
      transition is the one that goes with them. */
  lemma RecordOkIsExact(r: EvidenceRecord)
    ensures RecordOk(r) <==> Coherent(r.entry.outcome, r.entry.rejection) && Transition(r.entry)
  {
  }

  /** Which of the two errors a record with known codes fails with. */
  lemma CheckErrorIsExact(e: EvidenceEntry)
    requires IsKnownRejection(e.rejection) && IsKnownOutcome(e.outcome)
    ensures CheckInvariants(e) == Some(InconsistentOutcome) <==> !Coherent(e.outcome, e.rejection)
    ensures CheckInvariants(e) == Some(InconsistentStateTransition) <==> Coherent(e.outcome, e.rejection) && !Transition(e)
    ensures CheckInvariants(e) == None <==> Coherent(e.outcome, e.rejection) && Transition(e)
  {
  }

  // ---------------------------------------------------------------- encoding

  const RECORD_MAGIC: ByteString := [0x54, 0x4c, 0x43, 0x45]
  const RECORD_SCHEMA_VERSION: U16 := 2
  const RECORD_SIZE: nat := 160

  /** Where each field of the encoding starts, and where the last one ends. */
  const RECORD_LAYOUT: seq<nat> :=
    [0, 4, 6, 8, 16, 48, 56, 64, 66, 68, 76, 84, 92, 100, 108, 116, 124, 132, 140, 148, 156, 158, 160]

  function RecordFields(r: EvidenceRecord): (fs: seq<ByteString>)
    ensures FitsRecord(fs)
  {
    hide BytesOfU16, BytesOfU64, BytesOfI64;
    [ RECORD_MAGIC,
      BytesOfU16(RECORD_SCHEMA_VERSION),
      BytesOfU16(0),
      BytesOfU64(r.ordinal),
      r.previous,
      BytesOfU64(r.entry.fingerprintBefore),
      BytesOfU64(r.entry.observedTick),
      BytesOfU16(r.entry.envelope.schemaVersion),
      BytesOfU16(r.entry.envelope.kind),
      BytesOfU64(r.entry.envelope.clientId),
      BytesOfU64(r.entry.envelope.sessionId),
      BytesOfU64(r.entry.envelope.sequence),
      BytesOfU64(r.entry.envelope.targetTick),
      BytesOfU64(r.entry.envelope.entityId),
      BytesOfI64(r.entry.envelope.velocity.x),
      BytesOfI64(r.entry.envelope.velocity.y),
      BytesOfU64(r.entry.sessionBefore),
      BytesOfU64(r.entry.sessionAfter),
      BytesOfU64(r.entry.pendingBefore),
      BytesOfU64(r.entry.pendingAfter),
      BytesOfU16(r.entry.rejection),
      BytesOfU16(r.entry.outcome) ]
  }

  function EncodeRecord(r: EvidenceRecord): (b: ByteString)
    ensures |b| == RECORD_SIZE
  {
    RecordLength(RecordFields(r));
    Concat(RecordFields(r))
  }

  /** Fields of the widths of the layout. */
  predicate FitsRecord(fs: seq<ByteString>) {
    && |fs| == 22
    && |fs[0]| == 4 && |fs[1]| == 2 && |fs[2]| == 2 && |fs[3]| == 8 && |fs[4]| == 32
    && |fs[5]| == 8 && |fs[6]| == 8 && |fs[7]| == 2 && |fs[8]| == 2 && |fs[9]| == 8
    && |fs[10]| == 8 && |fs[11]| == 8 && |fs[12]| == 8 && |fs[13]| == 8 && |fs[14]| == 8
    && |fs[15]| == 8 && |fs[16]| == 8 && |fs[17]| == 8 && |fs[18]| == 8 && |fs[19]| == 8
    && |fs[20]| == 2 && |fs[21]| == 2
  }

  lemma RecordLayout()
    ensures IsLayout(RECORD_LAYOUT) && |RECORD_LAYOUT| == 23 && RECORD_LAYOUT[22] == RECORD_SIZE
  {
  }

  lemma RecordWidths(fs: seq<ByteString>)
    requires FitsRecord(fs)
    ensures forall i :: 0 <= i < |fs| ==> |fs[i]| == RECORD_LAYOUT[i + 1] - RECORD_LAYOUT[i]
  {
  }

  lemma RecordLength(fs: seq<ByteString>)
    requires FitsRecord(fs)
    ensures |Concat(fs)| == RECORD_SIZE
  {
    hide IsLayout, Concat;
    RecordLayout();
    RecordWidths(fs);
    ConcatLength(fs, RECORD_LAYOUT);
  }

  /** The fields of an encoded record. */
  function CutRecord(b: ByteString): (fs: seq<ByteString>)
    requires |b| == RECORD_SIZE
    ensures FitsRecord(fs)
  {
    hide IsLayout;
    RecordLayout();
    Slices(b, RECORD_LAYOUT)
  }

  lemma CutConcat(fs: seq<ByteString>)
    requires FitsRecord(fs)
    ensures |Concat(fs)| == RECORD_SIZE
    ensures CutRecord(Concat(fs)) == fs
  {
    hide IsLayout, Concat, Slices;
    RecordLength(fs);
    RecordLayout();
    RecordWidths(fs);
    SlicesConcat(fs, RECORD_LAYOUT, []);
    assert Concat(fs) + [] == Concat(fs);
  }

  lemma ConcatCut(b: ByteString)
    requires |b| == RECORD_SIZE
    ensures Concat(CutRecord(b)) == b
  {
    hide IsLayout, Concat, Slices;
    RecordLayout();
    ConcatSlices(b, RECORD_LAYOUT);
    assert b[..RECORD_SIZE] == b;
  }

  /** The record that 22 fields spell, apart from the three constant ones. */
  function RecordOf(fs: seq<ByteString>, id: EntityId): EvidenceRecord
    requires FitsRecord(fs)
  {
    EvidenceRecord(
      U64OfBytes(fs[3]),
      fs[4],
      EvidenceEntry(
        U64OfBytes(fs[5]),
        U64OfBytes(fs[6]),
        Envelope(U16OfBytes(fs[7]), U16OfBytes(fs[8]), U64OfBytes(fs[9]), U64OfBytes(fs[10]),
                 U64OfBytes(fs[11]), U64OfBytes(fs[12]), id,
                 Vector2(I64OfBytes(fs[14]), I64OfBytes(fs[15]))),
        U64OfBytes(fs[16]),
        U64OfBytes(fs[17]),
        U64OfBytes(fs[18]),
        U64OfBytes(fs[19]),
        U16OfBytes(fs[20]),
        U16OfBytes(fs[21])))
  }

  /** The decoder's checks on the fields, in its order. */
  function DecodeFields(fs: seq<ByteString>): Result<EvidenceRecord, DecodeError>
    requires FitsRecord(fs)
  {
    if fs[0] != RECORD_MAGIC then Err(InvalidMagic)
    else if U16OfBytes(fs[1]) != RECORD_SCHEMA_VERSION then Err(UnsupportedSchemaVersion)
    else if U16OfBytes(fs[2]) != 0 then Err(NonzeroReservedField)
    else if !IsKnownRejection(U16OfBytes(fs[20])) then Err(UnknownRejectionCode)
    else if !IsKnownOutcome(U16OfBytes(fs[21])) then Err(UnknownQueueOutcome)
    else if U64OfBytes(fs[13]) == 0 then Err(InvalidEntityId)
    else
      var r := RecordOf(fs, U64OfBytes(fs[13]));
      match CheckInvariants(r.entry)
      case Some(e) => Err(e)
      case None => Ok(r)
  }

  function DecodeRecord(b: ByteString): Result<EvidenceRecord, DecodeError> {
    if |b| != RECORD_SIZE then Err(InvalidSize) else DecodeFields(CutRecord(b))
  }

  lemma RecordOfFields(r: EvidenceRecord)
    ensures var fs := RecordFields(r);
      && RecordOf(fs, r.entry.envelope.entityId) == r
      && U64OfBytes(fs[13]) == r.entry.envelope.entityId
      && U16OfBytes(fs[1]) == RECORD_SCHEMA_VERSION && U16OfBytes(fs[2]) == 0
  {
    hide BytesOfU16, BytesOfU64, BytesOfI64, U16OfBytes, U64OfBytes, I64OfBytes;
    U16RoundTrip(RECORD_SCHEMA_VERSION); U16RoundTrip(0);
    U64RoundTrip(r.ordinal); U64RoundTrip(r.entry.fingerprintBefore); U64RoundTrip(r.entry.observedTick);
    EnvelopeRoundTrip(r.entry.envelope);
    U64RoundTrip(r.entry.sessionBefore); U64RoundTrip(r.entry.sessionAfter);
    U64RoundTrip(r.entry.pendingBefore); U64RoundTrip(r.entry.pendingAfter);
    U16RoundTrip(r.entry.rejection); U16RoundTrip(r.entry.outcome);
  }

  lemma EnvelopeRoundTrip(e: Envelope)
    ensures U16OfBytes(BytesOfU16(e.schemaVersion)) == e.schemaVersion && U16OfBytes(BytesOfU16(e.kind)) == e.kind
    ensures U64OfBytes(BytesOfU64(e.clientId)) == e.clientId && U64OfBytes(BytesOfU64(e.sessionId)) == e.sessionId
    ensures U64OfBytes(BytesOfU64(e.sequence)) == e.sequence && U64OfBytes(BytesOfU64(e.targetTick)) == e.targetTick
    ensures U64OfBytes(BytesOfU64(e.entityId)) == e.entityId
    ensures I64OfBytes(BytesOfI64(e.velocity.x)) == e.velocity.x && I64OfBytes(BytesOfI64(e.velocity.y)) == e.velocity.y
  {
    hide BytesOfU16, BytesOfU64, BytesOfI64, U16OfBytes, U64OfBytes, I64OfBytes;
    U16RoundTrip(e.schemaVersion); U16RoundTrip(e.kind);
    U64RoundTrip(e.clientId); U64RoundTrip(e.sessionId);
    U64RoundTrip(e.sequence); U64RoundTrip(e.targetTick); U64RoundTrip(e.entityId);
    I64RoundTrip(e.velocity.x); I64RoundTrip(e.velocity.y);
  }

  lemma FieldsOfRecord(fs: seq<ByteString>)
    requires FitsRecord(fs) && DecodeFields(fs).Ok?
    ensures RecordFields(DecodeFields(fs).value) == fs
  {
    hide BytesOfU16, BytesOfU64, BytesOfI64, U16OfBytes, U64OfBytes, I64OfBytes, CheckInvariants;
    assert BytesOfU16(U16OfBytes(fs[1])) == fs[1] && BytesOfU16(U16OfBytes(fs[2])) == fs[2];
  }

  lemma FieldsDecode(r: EvidenceRecord)
    requires RecordOk(r)
    ensures DecodeFields(RecordFields(r)) == Ok(r)
  {
    hide RecordOf, CheckInvariants, U16OfBytes, U64OfBytes, BytesOfU64, BytesOfI64, BytesOfU16;
    RecordOfFields(r);
    U16RoundTrip(r.entry.rejection);
    U16RoundTrip(r.entry.outcome);
  }

  lemma DecodedIsOk(fs: seq<ByteString>)
    requires FitsRecord(fs) && DecodeFields(fs).Ok?
    ensures RecordOk(DecodeFields(fs).value)
  {
    hide CheckInvariants, U16OfBytes, U64OfBytes, I64OfBytes, IsKnownRejection, IsKnownOutcome;
  }

  /** Decoding is the exact inverse of encoding on the records that pass the checks: those decode
      back to themselves, and a byte string is accepted only if it is the encoding of the result. */
  lemma RecordCodecIsExact(b: ByteString, r: EvidenceRecord)
    ensures DecodeRecord(b) == Ok(r) <==> RecordOk(r) && b == EncodeRecord(r)
  {
    hide RecordOk, RecordFields, DecodeFields, Concat, CutRecord, FitsRecord;
    if DecodeRecord(b) == Ok(r) {
      ConcatCut(b);
      FieldsOfRecord(CutRecord(b));
      DecodedIsOk(CutRecord(b));
    }
    if RecordOk(r) && b == EncodeRecord(r) {
      CutConcat(RecordFields(r));
      FieldsDecode(r);
    }
  }

  /** Different records, checked or not, have different encodings. */
  lemma EncodingIsInjective(r: EvidenceRecord, s: EvidenceRecord)
    requires EncodeRecord(r) == EncodeRecord(s)
    ensures r == s
  {
    hide RecordOf, RecordFields, Concat, CutRecord, FitsRecord;
    CutConcat(RecordFields(r));
    CutConcat(RecordFields(s));
    RecordOfFields(r);
    RecordOfFields(s);
  }
}
