/** The record writer and reader: a cursor moves over a fixed buffer. */
module EvidenceCodec {
  import opened Integers
  import opened Bytes
  import opened WorldModel
  import opened Commands
  import opened Evidence

  class EvidenceWriter {
    const output: array<U8>
    var offset: nat

    /** The fields written so far. */
    ghost var fields: seq<ByteString>

    ghost predicate Valid()
      reads this, output
    {
      offset <= output.Length && output[..offset] == Concat(fields)
    }

    constructor (output: array<U8>)
      ensures Valid() && this.output == output && fields == [] && offset == 0
    {
      this.output := output;
      offset := 0;
      fields := [];
    }

    /** Appends the bytes of one field. */
    method AppendBytes(bs: ByteString)
      requires Valid() && offset + |bs| <= output.Length
      modifies this`offset, this`fields, output
      ensures Valid() && fields == old(fields) + [bs] && offset == old(offset) + |bs|
    {
      ghost var start := offset;
      ghost var before := output[..offset];
      for i := 0 to |bs|
        invariant offset == start + i <= output.Length
        invariant output[..start] == before
        invariant output[start..offset] == bs[..i]
        invariant fields == old(fields)
      {
        output[offset] := bs[i];
        offset := offset + 1;
      }
      assert output[..offset] == output[..start] + output[start..offset];
      ConcatSnoc(fields, bs);
      fields := fields + [bs];
    }

    method AppendU16(v: U16)
      requires Valid() && offset + 2 <= output.Length
      modifies this`offset, this`fields, output
      ensures Valid() && fields == old(fields) + [BytesOfU16(v)] && offset == old(offset) + 2
    {
      U16Bytes(v);
      AppendBytes([v / 256 % 256, v % 256]);
    }

    method AppendU64(v: U64)
      requires Valid() && offset + 8 <= output.Length
      modifies this`offset, this`fields, output
      ensures Valid() && fields == old(fields) + [BytesOfU64(v)] && offset == old(offset) + 8
    {
      var bs := EncodeU64(v);
      AppendBytes(bs);
    }

    method AppendI64(v: I64)
      requires Valid() && offset + 8 <= output.Length
      modifies this`offset, this`fields, output
      ensures Valid() && fields == old(fields) + [BytesOfI64(v)] && offset == old(offset) + 8
    {
      AppendU64(ToUnsigned(v));
    }
  }

  lemma U16Bytes(v: U16)
    ensures BytesOfU16(v) == [v / 256 % 256, v % 256]
  {
    BigEndianAt(2, v, 0);
    BigEndianAt(2, v, 1);
    Powers();
  }

  /** The encoder, field by field. */
  method EncodeCommandEvidence(r: EvidenceRecord) returns (encoded: ByteString)
    ensures encoded == EncodeRecord(r)
  {
    hide RecordFields, Concat;
    var output := new U8[160](_ => 0);
    var writer := new EvidenceWriter(output);
    WriteHeader(writer, r);
    WriteEnvelope(writer, r);
    WriteOutcome(writer, r);
    encoded := output[..writer.offset];
  }

  method WriteHeader(writer: EvidenceWriter, r: EvidenceRecord)
    requires writer.Valid() && writer.output.Length == 160 && writer.offset == 0 && writer.fields == []
    modifies writer`offset, writer`fields, writer.output
    ensures writer.Valid() && writer.offset == 64 && writer.fields == RecordFields(r)[..7]
  {
    hide BytesOfU16, BytesOfU64, BytesOfI64, Concat;
    writer.AppendBytes(RECORD_MAGIC);
    writer.AppendU16(RECORD_SCHEMA_VERSION);
    writer.AppendU16(0);
    writer.AppendU64(r.ordinal);
    writer.AppendBytes(r.previous);
    writer.AppendU64(r.entry.fingerprintBefore);
    writer.AppendU64(r.entry.observedTick);
  }

  method WriteEnvelope(writer: EvidenceWriter, r: EvidenceRecord)
    requires writer.Valid() && writer.output.Length == 160 && writer.offset == 64 && writer.fields == RecordFields(r)[..7]
    modifies writer`offset, writer`fields, writer.output
    ensures writer.Valid() && writer.offset == 124 && writer.fields == RecordFields(r)[..16]
  {
    hide BytesOfU16, BytesOfU64, BytesOfI64, Concat;
    writer.AppendU16(r.entry.envelope.schemaVersion);
    writer.AppendU16(r.entry.envelope.kind);
    writer.AppendU64(r.entry.envelope.clientId);
    writer.AppendU64(r.entry.envelope.sessionId);
    writer.AppendU64(r.entry.envelope.sequence);
    writer.AppendU64(r.entry.envelope.targetTick);
    writer.AppendU64(r.entry.envelope.entityId);
    writer.AppendI64(r.entry.envelope.velocity.x);
    writer.AppendI64(r.entry.envelope.velocity.y);
  }

  method WriteOutcome(writer: EvidenceWriter, r: EvidenceRecord)
    requires writer.Valid() && writer.output.Length == 160 && writer.offset == 124 && writer.fields == RecordFields(r)[..16]
    modifies writer`offset, writer`fields, writer.output
    ensures writer.Valid() && writer.offset == 160 && writer.fields == RecordFields(r)
  {
    hide BytesOfU16, BytesOfU64, BytesOfI64, Concat;
    writer.AppendU64(r.entry.sessionBefore);
    writer.AppendU64(r.entry.sessionAfter);
    writer.AppendU64(r.entry.pendingBefore);
    writer.AppendU64(r.entry.pendingAfter);
    writer.AppendU16(r.entry.rejection);
    writer.AppendU16(r.entry.outcome);
  }

  class EvidenceReader {
    const input: ByteString
    var offset: nat

    constructor (input: ByteString)
      ensures this.input == input && offset == 0
    {
      this.input := input;
      offset := 0;
    }

    method ReadBytes(n: nat) returns (bs: ByteString)
      requires offset + n <= |input|
      modifies this`offset
      ensures offset == old(offset) + n
      ensures bs == input[old(offset)..offset]
    {
      ghost var start := offset;
      bs := [];
      for i := 0 to n
        invariant offset == start + i
        invariant bs == input[start..offset]
      {
        bs := bs + [input[offset]];
        offset := offset + 1;
      }
    }

    method ReadU16() returns (v: U16)
      requires offset + 2 <= |input|
      modifies this`offset
      ensures offset == old(offset) + 2
      ensures v == U16OfBytes(input[old(offset)..offset])
    {
      var bs := ReadBytes(2);
      var first: int, second: int := bs[0], bs[1];
      v := first * 256 + second;
      U16Bytes(v);
      U16RoundTrip(v);
      assert bs == [v / 256 % 256, v % 256];
    }

    method ReadU64() returns (v: U64)
      requires offset + 8 <= |input|
      modifies this`offset
      ensures offset == old(offset) + 8
      ensures v == U64OfBytes(input[old(offset)..offset])
    {
      var bs := ReadBytes(8);
      v := DecodeU64(bs);
    }

    method ReadI64() returns (v: I64)
      requires offset + 8 <= |input|
      modifies this`offset
      ensures offset == old(offset) + 8
      ensures v == I64OfBytes(input[old(offset)..offset])
    {
      var u := ReadU64();
      v := ToSigned(u);
    }
  }

  lemma CutAt(b: ByteString)
    requires |b| == RECORD_SIZE
    ensures var fs := CutRecord(b);
      && fs[0] == b[0..4] && fs[1] == b[4..6] && fs[2] == b[6..8] && fs[3] == b[8..16] && fs[4] == b[16..48]
      && fs[5] == b[48..56] && fs[6] == b[56..64] && fs[7] == b[64..66] && fs[8] == b[66..68] && fs[9] == b[68..76]
      && fs[10] == b[76..84] && fs[11] == b[84..92] && fs[12] == b[92..100] && fs[13] == b[100..108]
      && fs[14] == b[108..116] && fs[15] == b[116..124] && fs[16] == b[124..132] && fs[17] == b[132..140]
      && fs[18] == b[140..148] && fs[19] == b[148..156] && fs[20] == b[156..158] && fs[21] == b[158..160]
  {
    hide IsLayout;
    RecordLayout();
  }

  const RECORD_ERRORS: seq<DecodeError> := [
    InvalidSize, InvalidMagic, UnsupportedSchemaVersion, NonzeroReservedField, UnknownRejectionCode,
    UnknownQueueOutcome, InvalidEntityId, InconsistentOutcome, InconsistentStateTransition ]

  /** The defect of the bytes that error `k` of the list stands for. */
  predicate HasDefect(b: ByteString, k: nat) {
    if |b| != 160 then k == 0
    else
      var rejection, outcome := Value(b[156..158]), Value(b[158..160]);
      match k
      case 1 => b[0..4] != [0x54, 0x4c, 0x43, 0x45]
      case 2 => Value(b[4..6]) != 2
      case 3 => Value(b[6..8]) != 0
      case 4 => rejection > 16
      case 5 => 6 < outcome != 65535
      case 6 => Value(b[100..108]) == 0
      case 7 =>
        if outcome == 0 then rejection == 0
        else (outcome, rejection) !in {(1, 0), (2, 8), (3, 13), (4, 14), (5, 15), (6, 10), (65535, 16)}
      case 8 =>
        if rejection == 0 then
          !(Value(b[124..132]) < Value(b[132..140]) == Value(b[84..92]) && Value(b[148..156]) == Value(b[140..148]) + 1)
        else
          !(Value(b[124..132]) == Value(b[132..140]) && Value(b[140..148]) == Value(b[148..156]))
      case _ => false
  }

  /** A record is refused with the error of its first defect, and accepted if it has none. */
  lemma RecordErrorIsFirstDefect(b: ByteString, k: nat)
    requires k <= 9 && (k < 9 ==> HasDefect(b, k))
    requires forall j :: 0 <= j < k ==> !HasDefect(b, j)
    ensures k < 9 ==> DecodeRecord(b) == Err(RECORD_ERRORS[k])
    ensures k == 9 ==> DecodeRecord(b).Ok?
  {
    hide CutRecord, CheckInvariants, Value, HasDefect, Coherent, Transition, RecordOf, U16OfBytes, U64OfBytes, IsKnownRejection, IsKnownOutcome;
    SizeDefect(b);
    if |b| == 160 {
      EarlyDefects(b);
      var fs := CutRecord(b);
      if k > 6 {
        LateDefects(b);
        CheckErrorIsExact(RecordOf(fs, U64OfBytes(fs[13])).entry);
      }
    }
  }

  lemma SizeDefect(b: ByteString)
    ensures HasDefect(b, 0) <==> |b| != 160
    ensures |b| != 160 ==> forall j :: j > 0 ==> !HasDefect(b, j)
  {
    hide Value;
  }

  /** The defects before the record is assembled, as the decoder tests them. */
  lemma EarlyDefects(b: ByteString)
    requires |b| == 160
    ensures
      var fs := CutRecord(b);
      && (HasDefect(b, 1) <==> fs[0] != RECORD_MAGIC)
      && (HasDefect(b, 2) <==> U16OfBytes(fs[1]) != RECORD_SCHEMA_VERSION)
      && (HasDefect(b, 3) <==> U16OfBytes(fs[2]) != 0)
      && (HasDefect(b, 4) <==> !IsKnownRejection(U16OfBytes(fs[20])))
      && (HasDefect(b, 5) <==> !IsKnownOutcome(U16OfBytes(fs[21])))
      && (HasDefect(b, 6) <==> U64OfBytes(fs[13]) == 0)
  {
    hide CutRecord, Value;
    CutAt(b);
  }

  lemma LateDefects(b: ByteString)
    requires |b| == 160 && U64OfBytes(CutRecord(b)[13]) != 0
    requires IsKnownRejection(U16OfBytes(CutRecord(b)[20])) && IsKnownOutcome(U16OfBytes(CutRecord(b)[21]))
    ensures
      var fs := CutRecord(b);
      var e := RecordOf(fs, U64OfBytes(fs[13])).entry;
      && e.rejection == U16OfBytes(fs[20]) && e.outcome == U16OfBytes(fs[21])
      && (HasDefect(b, 7) <==> !Coherent(e.outcome, e.rejection))
      && (HasDefect(b, 8) <==> !Transition(e))
  {
    hide CutRecord, Value;
    CutAt(b);
  }

  /** The envelope part of the decoder; the entity identifier is still unchecked. */
  method ReadEnvelope(reader: EvidenceReader)
    returns (schema: U16, kind: U16, client: U64, session: U64, sequence: U64, target: U64, id: U64, x: I64, y: I64)
    requires |reader.input| == RECORD_SIZE && reader.offset == 64
    modifies reader`offset
    ensures reader.offset == 124
    ensures var fs := CutRecord(reader.input);
      && schema == U16OfBytes(fs[7]) && kind == U16OfBytes(fs[8]) && client == U64OfBytes(fs[9])
      && session == U64OfBytes(fs[10]) && sequence == U64OfBytes(fs[11]) && target == U64OfBytes(fs[12])
      && id == U64OfBytes(fs[13]) && x == I64OfBytes(fs[14]) && y == I64OfBytes(fs[15])
  {
    hide CutRecord, U16OfBytes, U64OfBytes, I64OfBytes;
    CutAt(reader.input);
    schema := reader.ReadU16();
    kind := reader.ReadU16();
    client := reader.ReadU64();
    session := reader.ReadU64();
    sequence := reader.ReadU64();
    target := reader.ReadU64();
    id := reader.ReadU64();
    x := reader.ReadI64();
    y := reader.ReadI64();
  }

  method ReadOutcome(reader: EvidenceReader)
    returns (sessionBefore: U64, sessionAfter: U64, pendingBefore: U64, pendingAfter: U64, rejection: U16, outcome: U16)
    requires |reader.input| == RECORD_SIZE && reader.offset == 124
    modifies reader`offset
    ensures reader.offset == 160
    ensures var fs := CutRecord(reader.input);
      && sessionBefore == U64OfBytes(fs[16]) && sessionAfter == U64OfBytes(fs[17])
      && pendingBefore == U64OfBytes(fs[18]) && pendingAfter == U64OfBytes(fs[19])
      && rejection == U16OfBytes(fs[20]) && outcome == U16OfBytes(fs[21])
  {
    hide CutRecord, U16OfBytes, U64OfBytes;
    CutAt(reader.input);
    sessionBefore := reader.ReadU64();
    sessionAfter := reader.ReadU64();
    pendingBefore := reader.ReadU64();
    pendingAfter := reader.ReadU64();
    rejection := reader.ReadU16();
    outcome := reader.ReadU16();
  }

  /** The decoder: reads the fields in order and stops at the first one that is not acceptable. */
  method DecodeCommandEvidence(encoded: ByteString) returns (r: Result<EvidenceRecord, DecodeError>)
    ensures r == DecodeRecord(encoded)
  {
    hide CutRecord, U16OfBytes, U64OfBytes, I64OfBytes, CheckInvariants, IsKnownRejection, IsKnownOutcome;
    if |encoded| != RECORD_SIZE {
      return Err(InvalidSize);
    }
    CutAt(encoded);
    var reader := new EvidenceReader(encoded);
    var magic := reader.ReadBytes(4);
    if magic != RECORD_MAGIC {
      return Err(InvalidMagic);
    }
    var version := reader.ReadU16();
    if version != RECORD_SCHEMA_VERSION {
      return Err(UnsupportedSchemaVersion);
    }
    var reserved := reader.ReadU16();
    if reserved != 0 {
      return Err(NonzeroReservedField);
    }
    var ordinal := reader.ReadU64();
    var previous := reader.ReadBytes(32);
    var fingerprint := reader.ReadU64();
    var observed := reader.ReadU64();
    var schema, kind, client, session, sequence, target, id, x, y := ReadEnvelope(reader);
    var sessionBefore, sessionAfter, pendingBefore, pendingAfter, rejection, outcome := ReadOutcome(reader);
    if !IsKnownRejection(rejection) {
      return Err(UnknownRejectionCode);
    }
    if !IsKnownOutcome(outcome) {
      return Err(UnknownQueueOutcome);
    }
    if id == 0 {
      return Err(InvalidEntityId);
    }
    var entry := EvidenceEntry(fingerprint, observed,
      Envelope(schema, kind, client, session, sequence, target, id, Vector2(x, y)),
      sessionBefore, sessionAfter, pendingBefore, pendingAfter, rejection, outcome);
    var violation := CheckInvariants(entry);
    if violation.Some? {
      return Err(violation.value);
    }
    r := Ok(EvidenceRecord(ordinal, previous, entry));
  }
}
