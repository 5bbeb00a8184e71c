/** Where every field of the byte formats lies: the world state, the evidence record, the archive
    header, and the wire frame with its envelope. */
module Layouts {
  import opened Integers
  import opened Bytes
  import opened WorldModel
  import opened WorldInvariant
  import opened WorldEncoding
  import opened Commands
  import opened Evidence
  import EvidenceCodec
  import Archive
  import Frames
  import WireCodec

  // ---------------------------------------------------------------- blocks of one width

  /** Blocks of one width lie at the multiples of that width. */
  lemma {:induction false} BlockAt(fs: seq<ByteString>, width: nat, i: nat)
    requires i < |fs| && forall k :: 0 <= k < |fs| ==> |fs[k]| == width
    ensures |Concat(fs)| == width * |fs| && 0 <= width * i <= width * i + width <= width * |fs|
    ensures Concat(fs)[width * i..width * i + width] == fs[i]
  {
    ConcatUniformLength(fs, width);
    assert width * |fs| == |fs| * width;
    var head, tail := fs[0], Concat(fs[1..]);
    ConcatUniformLength(fs[1..], width);
    assert width * |fs| == width + width * (|fs| - 1);
    if i == 0 {
      assert (head + tail)[..width] == head;
    } else {
      BlockAt(fs[1..], width, i - 1);
      assert width * i == width + width * (i - 1);
      Behind(head, tail, width * (i - 1), width * (i - 1) + width);
    }
  }

  lemma Behind(head: ByteString, tail: ByteString, from: nat, to: nat)
    requires from <= to <= |tail|
    ensures (head + tail)[|head| + from..|head| + to] == tail[from..to]
  {
  }

  /** A slice of a slice. */
  lemma Within(b: ByteString, from: nat, to: nat, i: nat, j: nat)
    requires from <= to <= |b| && i <= j <= to - from
    ensures b[from..to][i..j] == b[from + i..from + j]
  {
    var inner, outer := b[from..to][i..j], b[from + i..from + j];
    assert |inner| == |outer|;
    forall k | 0 <= k < |inner|
      ensures inner[k] == outer[k]
    {
      assert inner[k] == b[from..to][i + k] == b[from + (i + k)];
      assert outer[k] == b[(from + i) + k];
    }
  }

  /** The blocks of a section that starts at `from`. */
  lemma BlockOfSection(b: ByteString, from: nat, to: nat, fs: seq<ByteString>, width: nat, i: nat)
    requires from <= to <= |b| && b[from..to] == Concat(fs)
    requires i < |fs| && forall k :: 0 <= k < |fs| ==> |fs[k]| == width
    ensures 0 <= width * i && from + width * i + width <= to
    ensures b[from + width * i..from + width * i + width] == fs[i]
  {
    hide Concat;
    BlockAt(fs, width, i);
    Within(b, from, to, width * i, width * i + width);
  }

  // ---------------------------------------------------------------- the world state

  lemma SectionsAt(w: WorldState)
    requires IdsFit(w)
    ensures
      var b, s, n, m := EncodeWorldState(w), Sections(w), 80 * |w.ids|, 40 * |w.pending|;
      && |b| == 64 + n + m
      && b[0..56] == s[0] && b[56..56 + n] == s[1] && b[56 + n..64 + n] == s[2] && b[64 + n..64 + n + m] == s[3]
  {
    hide Concat, HeaderFields, EntityFields, CommandFields, BigEndian;
    var s, n, m := Sections(w), 80 * |w.ids|, 40 * |w.pending|;
    ConcatFour(s);
    HeaderLength(w);
    EntitiesLength(w);
    CommandsLength(w.pending);
    var b := s[0] + s[1] + s[2] + s[3];
    assert b[0..56] == s[0];
    assert b[56..56 + n] == s[1];
    assert b[56 + n..64 + n] == s[2];
    assert b[64 + n..64 + n + m] == s[3];
  }

  const HEADER_LAYOUT: seq<nat> := [0, 4, 6, 8, 16, 24, 32, 40, 48, 56]

  lemma HeaderLength(w: WorldState)
    ensures |Concat(HeaderFields(w))| == 56
  {
    hide Concat, BigEndian;
    ConcatLength(HeaderFields(w), HEADER_LAYOUT);
  }

  lemma EntitiesLength(w: WorldState)
    requires IdsFit(w)
    ensures forall k :: 0 <= k < |w.ids| ==> |EntityBlocks(w, w.ids)[k]| == 80
    ensures |Concat(EntityBlocks(w, w.ids))| == 80 * |w.ids|
  {
    hide Concat, EntityFields;
    forall k | 0 <= k < |w.ids|
      ensures |EntityBlocks(w, w.ids)[k]| == 80
    {
      assert w.ids[k] in w.ids;
      EntityBlockLength(w, w.ids[k]);
    }
    ConcatUniformLength(EntityBlocks(w, w.ids), 80);
  }

  lemma CommandsLength(cs: seq<VelocityCommand>)
    ensures forall k :: 0 <= k < |cs| ==> |CommandBlocks(cs)[k]| == 40
    ensures |Concat(CommandBlocks(cs))| == 40 * |cs|
  {
    hide Concat, CommandFields;
    forall k | 0 <= k < |cs|
      ensures |CommandBlocks(cs)[k]| == 40
    {
      CommandBlockLength(cs[k]);
    }
    ConcatUniformLength(CommandBlocks(cs), 40);
  }

  /** The header of the world state: magic, schema version, reserved, tick, elapsed time, tick
      duration, the two limits and the number of entities. */
  lemma WorldHeaderLayout(w: WorldState)
    requires IdsFit(w)
    ensures
      var b := EncodeWorldState(w);
      && |b| >= 64
      && b[0..4] == [0x54, 0x4c, 0x57, 0x53]
      && b[4..6] == BytesOfU16(1)
      && b[6..8] == BytesOfU16(0)
      && b[8..16] == BytesOfU64(w.clock.index)
      && b[16..24] == BytesOfI64(w.clock.elapsed)
      && b[24..32] == BytesOfI64(w.clock.duration)
      && b[32..40] == BytesOfI64(w.limits.maxAbsPosition)
      && b[40..48] == BytesOfI64(w.limits.maxAbsVelocity)
      && b[48..56] == BigEndian(8, |w.ids|)
  {
    hide Concat, EncodeWorldState, BytesOfU16, BytesOfU64, BytesOfI64, BigEndian, Sections;
    SectionsAt(w);
    FirstSection(w);
    var b, h := EncodeWorldState(w), Concat(HeaderFields(w));
    HeaderSlices(w);
    Within(b, 0, 56, 0, 4); Within(b, 0, 56, 4, 6); Within(b, 0, 56, 6, 8);
    Within(b, 0, 56, 8, 16); Within(b, 0, 56, 16, 24); Within(b, 0, 56, 24, 32);
    Within(b, 0, 56, 32, 40); Within(b, 0, 56, 40, 48); Within(b, 0, 56, 48, 56);
  }

  lemma FirstSection(w: WorldState)
    ensures Sections(w)[0] == Concat(HeaderFields(w)) && Sections(w)[1] == Concat(EntityBlocks(w, w.ids))
    ensures Sections(w)[2] == BigEndian(8, |w.pending|) && Sections(w)[3] == Concat(CommandBlocks(w.pending))
  {
  }

  lemma HeaderSlices(w: WorldState)
    ensures
      var h, fs := Concat(HeaderFields(w)), HeaderFields(w);
      && |h| == 56
      && h[0..4] == fs[0] && h[4..6] == fs[1] && h[6..8] == fs[2] && h[8..16] == fs[3] && h[16..24] == fs[4]
      && h[24..32] == fs[5] && h[32..40] == fs[6] && h[40..48] == fs[7] && h[48..56] == fs[8]
  {
    hide Concat, BigEndian;
    var fs := HeaderFields(w);
    HeaderLength(w);
    SlicesConcat(fs, HEADER_LAYOUT, []);
    assert Concat(fs) + [] == Concat(fs);
    var cut := Slices(Concat(fs), HEADER_LAYOUT);
    assert cut[0] == fs[0];
  }

  /** Entity `i` in id order occupies the 80 bytes from 56 + 80i. */
  lemma WorldEntityLayout(w: WorldState, i: nat)
    requires IdsFit(w) && i < |w.ids| && w.ids[i] in w.entities
    ensures
      var b, o, id, s := EncodeWorldState(w), 56 + 80 * i, w.ids[i], w.entities[w.ids[i]];
      && |b| >= o + 80
      && b[o..o + 8] == BytesOfU64(id)
      && b[o + 8..o + 16] == BytesOfI64(s.state.position.x)
      && b[o + 16..o + 24] == BytesOfI64(s.state.position.y)
      && b[o + 24..o + 32] == BytesOfI64(s.state.velocity.x)
      && b[o + 32..o + 40] == BytesOfI64(s.state.velocity.y)
      && b[o + 40..o + 48] == BytesOfU64(s.state.lastSequence)
      && b[o + 48..o + 56] == BytesOfI64(s.residualX)
      && b[o + 56..o + 64] == BytesOfI64(s.residualY)
      && b[o + 64..o + 72] == BytesOfU64(Lookup(w.highest, id))
      && b[o + 72..o + 80] == BytesOfU64(Lookup(w.latest, id))
  {
    hide Concat, EncodeWorldState, BytesOfU64, BytesOfI64, Sections, IdsFit;
    var b, o := EncodeWorldState(w), 56 + 80 * i;
    EntityBlockAt(w, i);
    EntitySlices(w, w.ids[i]);
    Within(b, o, o + 80, 0, 8); Within(b, o, o + 80, 8, 16); Within(b, o, o + 80, 16, 24);
    Within(b, o, o + 80, 24, 32); Within(b, o, o + 80, 32, 40); Within(b, o, o + 80, 40, 48);
    Within(b, o, o + 80, 48, 56); Within(b, o, o + 80, 56, 64); Within(b, o, o + 80, 64, 72);
    Within(b, o, o + 80, 72, 80);
  }

  lemma EntityBlockAt(w: WorldState, i: nat)
    requires IdsFit(w) && i < |w.ids|
    ensures |EncodeWorldState(w)| >= 56 + 80 * i + 80
    ensures EncodeWorldState(w)[56 + 80 * i..56 + 80 * i + 80] == Concat(EntityFields(w, w.ids[i]))
  {
    hide Concat, EncodeWorldState, EntityFields, Sections, IdsFit;
    SectionsAt(w);
    FirstSection(w);
    EntitiesLength(w);
    BlockOfSection(EncodeWorldState(w), 56, 56 + 80 * |w.ids|, EntityBlocks(w, w.ids), 80, i);
  }

  lemma EntityWidths(w: WorldState, id: EntityId)
    requires id in w.entities
    ensures |EntityFields(w, id)| == 10 && forall k :: 0 <= k < 10 ==> |EntityFields(w, id)[k]| == 8
  {
    hide BytesOfU64, BytesOfI64;
  }

  lemma EntitySlices(w: WorldState, id: EntityId)
    requires id in w.entities
    ensures
      var h, fs := Concat(EntityFields(w, id)), EntityFields(w, id);
      && |fs| == 10 && |h| == 80
      && h[0..8] == fs[0] && h[8..16] == fs[1] && h[16..24] == fs[2] && h[24..32] == fs[3] && h[32..40] == fs[4]
      && h[40..48] == fs[5] && h[48..56] == fs[6] && h[56..64] == fs[7] && h[64..72] == fs[8] && h[72..80] == fs[9]
  {
    hide Concat, EntityFields;
    var fs := EntityFields(w, id);
    EntityWidths(w, id);
    BlockAt(fs, 8, 0); BlockAt(fs, 8, 1); BlockAt(fs, 8, 2); BlockAt(fs, 8, 3); BlockAt(fs, 8, 4);
    BlockAt(fs, 8, 5); BlockAt(fs, 8, 6); BlockAt(fs, 8, 7); BlockAt(fs, 8, 8); BlockAt(fs, 8, 9);
  }

  /** After the entities come the number of pending commands and 40 bytes for each. */
  lemma WorldPendingLayout(w: WorldState)
    requires IdsFit(w)
    ensures
      var b, n := EncodeWorldState(w), 80 * |w.ids|;
      |b| == 64 + n + 40 * |w.pending| && b[56 + n..64 + n] == BigEndian(8, |w.pending|)
  {
    hide Concat, EncodeWorldState, Sections, BigEndian;
    SectionsAt(w);
    FirstSection(w);
  }

  lemma WorldCommandLayout(w: WorldState, j: nat)
    requires IdsFit(w) && j < |w.pending|
    ensures
      var b, o, c := EncodeWorldState(w), 64 + 80 * |w.ids| + 40 * j, w.pending[j];
      && |b| >= o + 40
      && b[o..o + 8] == BytesOfU64(c.targetTick)
      && b[o + 8..o + 16] == BytesOfU64(c.entityId)
      && b[o + 16..o + 24] == BytesOfU64(c.sequence)
      && b[o + 24..o + 32] == BytesOfI64(c.velocity.x)
      && b[o + 32..o + 40] == BytesOfI64(c.velocity.y)
  {
    hide Concat, EncodeWorldState, BytesOfU64, BytesOfI64, Sections, IdsFit;
    var b, o := EncodeWorldState(w), 64 + 80 * |w.ids| + 40 * j;
    CommandBlockAt(w, j);
    CommandSlices(w.pending[j]);
    Within(b, o, o + 40, 0, 8); Within(b, o, o + 40, 8, 16); Within(b, o, o + 40, 16, 24);
    Within(b, o, o + 40, 24, 32); Within(b, o, o + 40, 32, 40);
  }

  lemma CommandBlockAt(w: WorldState, j: nat)
    requires IdsFit(w) && j < |w.pending|
    ensures var o := 64 + 80 * |w.ids| + 40 * j;
      |EncodeWorldState(w)| >= o + 40 && EncodeWorldState(w)[o..o + 40] == Concat(CommandFields(w.pending[j]))
  {
    hide Concat, EncodeWorldState, CommandFields, Sections, IdsFit;
    var from := 64 + 80 * |w.ids|;
    SectionsAt(w);
    FirstSection(w);
    CommandsLength(w.pending);
    BlockOfSection(EncodeWorldState(w), from, from + 40 * |w.pending|, CommandBlocks(w.pending), 40, j);
  }

  lemma CommandSlices(c: VelocityCommand)
    ensures
      var h, fs := Concat(CommandFields(c)), CommandFields(c);
      && |h| == 40
      && h[0..8] == fs[0] && h[8..16] == fs[1] && h[16..24] == fs[2] && h[24..32] == fs[3] && h[32..40] == fs[4]
  {
    hide Concat;
    var fs := CommandFields(c);
    BlockAt(fs, 8, 0); BlockAt(fs, 8, 1); BlockAt(fs, 8, 2); BlockAt(fs, 8, 3); BlockAt(fs, 8, 4);
  }

  // ---------------------------------------------------------------- the evidence record

  lemma RecordLayoutIs(r: EvidenceRecord)
    ensures
      var b, e := EncodeRecord(r), r.entry;
      && b[0..4] == [0x54, 0x4c, 0x43, 0x45]
      && b[4..6] == BytesOfU16(2) && b[6..8] == BytesOfU16(0)
      && b[8..16] == BytesOfU64(r.ordinal)
      && b[16..48] == r.previous
      && b[48..56] == BytesOfU64(e.fingerprintBefore)
      && b[56..64] == BytesOfU64(e.observedTick)
      && b[64..66] == BytesOfU16(e.envelope.schemaVersion)
      && b[66..68] == BytesOfU16(e.envelope.kind)
      && b[68..76] == BytesOfU64(e.envelope.clientId)
      && b[76..84] == BytesOfU64(e.envelope.sessionId)
      && b[84..92] == BytesOfU64(e.envelope.sequence)
      && b[92..100] == BytesOfU64(e.envelope.targetTick)
      && b[100..108] == BytesOfU64(e.envelope.entityId)
      && b[108..116] == BytesOfI64(e.envelope.velocity.x)
      && b[116..124] == BytesOfI64(e.envelope.velocity.y)
      && b[124..132] == BytesOfU64(e.sessionBefore)
      && b[132..140] == BytesOfU64(e.sessionAfter)
      && b[140..148] == BytesOfU64(e.pendingBefore)
      && b[148..156] == BytesOfU64(e.pendingAfter)
      && b[156..158] == BytesOfU16(e.rejection)
      && b[158..160] == BytesOfU16(e.outcome)
  {
    hide Concat, CutRecord, FitsRecord, BytesOfU16, BytesOfU64, BytesOfI64;
    CutConcat(RecordFields(r));
    EvidenceCodec.CutAt(EncodeRecord(r));
  }

  // ---------------------------------------------------------------- the archive

  /** The header is 56 bytes; record `i` is the 160 bytes from 56 + 160i. */
  lemma ArchiveLayoutIs(rs: seq<EvidenceRecord>, head: Digest)
    requires |rs| <= Archive.MAX_RECORDS
    ensures
      var b := Archive.ArchiveBytes(rs, head);
      && |b| == 56 + 160 * |rs|
      && b[0..4] == [0x54, 0x4c, 0x43, 0x41]
      && b[4..6] == BytesOfU16(1) && b[6..8] == BytesOfU16(2)
      && b[8..12] == BytesOfU32(160) && b[12..16] == BytesOfU32(0)
      && b[16..24] == BytesOfU64(|rs|)
      && b[24..56] == head
      && forall i :: 0 <= i < |rs| ==> b[56 + 160 * i..56 + 160 * i + 160] == EncodeRecord(rs[i])
  {
    hide Concat, EncodeRecord, BytesOfU16, BytesOfU32, BytesOfU64;
    var fs, body := Archive.HeaderFields(|rs|, head), Concat(Archive.RecordBlocks(rs));
    var b := Concat(fs) + body;
    Archive.HeaderCut(fs, body);
    Archive.HeaderLayout(fs);
    ConcatUniformLength(Archive.RecordBlocks(rs), 160);
    forall i | 0 <= i < |rs|
      ensures b[56 + 160 * i..56 + 160 * i + 160] == EncodeRecord(rs[i])
    {
      BlockAt(Archive.RecordBlocks(rs), 160, i);
      Behind(Concat(fs), body, 160 * i, 160 * i + 160);
    }
  }

  // ---------------------------------------------------------------- the wire

  /** A command frame: the 16-byte header, then the 60-byte envelope. */
  lemma CommandFrameLayout(e: Envelope)
    ensures
      var b := WireCodec.EncodeFrame(e);
      && |b| == 76
      && b[0..4] == [0x54, 0x49, 0x43, 0x4b]
      && b[4..6] == BytesOfU16(1) && b[6..8] == BytesOfU16(16)
      && b[8..12] == BytesOfU32(76)
      && b[12..14] == BytesOfU16(1) && b[14..16] == BytesOfU16(0)
      && b[16..18] == BytesOfU16(e.schemaVersion)
      && b[18..20] == BytesOfU16(e.kind)
      && b[20..28] == BytesOfU64(e.clientId)
      && b[28..36] == BytesOfU64(e.sessionId)
      && b[36..44] == BytesOfU64(e.sequence)
      && b[44..52] == BytesOfU64(e.targetTick)
      && b[52..60] == BytesOfU64(e.entityId)
      && b[60..68] == BytesOfI64(e.velocity.x)
      && b[68..76] == BytesOfI64(e.velocity.y)
  {
    hide Concat, WireCodec.EncodeEnvelope, Frames.HeaderBytes, BytesOfU16, BytesOfU32, BytesOfU64, BytesOfI64;
    var b, payload := WireCodec.EncodeFrame(e), WireCodec.EncodeEnvelope(e);
    Frames.HeaderCut(76, payload);
    EnvelopeSlices(e);
    assert b[16..76] == b[16..] == payload;
    Within(b, 16, 76, 0, 2); Within(b, 16, 76, 2, 4); Within(b, 16, 76, 4, 12);
    Within(b, 16, 76, 12, 20); Within(b, 16, 76, 20, 28); Within(b, 16, 76, 28, 36);
    Within(b, 16, 76, 36, 44); Within(b, 16, 76, 44, 52); Within(b, 16, 76, 52, 60);
  }

  lemma EnvelopeSlices(e: Envelope)
    ensures
      var h, fs := WireCodec.EncodeEnvelope(e), WireCodec.EnvelopeFields(e);
      && h[0..2] == fs[0] && h[2..4] == fs[1] && h[4..12] == fs[2] && h[12..20] == fs[3] && h[20..28] == fs[4]
      && h[28..36] == fs[5] && h[36..44] == fs[6] && h[44..52] == fs[7] && h[52..60] == fs[8]
  {
    hide Concat, BytesOfU16, BytesOfU64, BytesOfI64;
    var fs := WireCodec.EnvelopeFields(e);
    SlicesConcat(fs, WireCodec.ENVELOPE_LAYOUT, []);
    assert Concat(fs) + [] == Concat(fs);
    var cut := Slices(Concat(fs), WireCodec.ENVELOPE_LAYOUT);
    assert cut[0] == fs[0];
  }
}
