/** The canonical byte encoding of a world and its fingerprint. */
module WorldEncoding {
  import opened Integers
  import opened Bytes
  import opened WorldModel
  import opened WorldInvariant
  import opened WorldOrder
  import Fingerprint
  import opened World

  const WORLD_MAGIC: ByteString := [0x54, 0x4c, 0x57, 0x53]
  const WORLD_SCHEMA_VERSION: U16 := 1

  function HeaderFields(w: WorldState): (fs: seq<ByteString>)
    ensures |fs| == 9
  {
    [ WORLD_MAGIC,
      BytesOfU16(WORLD_SCHEMA_VERSION),
      BytesOfU16(0),
      BytesOfU64(w.clock.index),
      BytesOfI64(w.clock.elapsed),
      BytesOfI64(w.clock.duration),
      BytesOfI64(w.limits.maxAbsPosition),
      BytesOfI64(w.limits.maxAbsVelocity),
      BigEndian(8, |w.ids|) ]
  }

  /** An entity that the iteration order names but the map lacks cannot exist; it would encode to
      nothing. */
  function EntityFields(w: WorldState, id: EntityId): seq<ByteString> {
    if id !in w.entities then []
    else
      var s := w.entities[id];
      [ BytesOfU64(id),
        BytesOfI64(s.state.position.x),
        BytesOfI64(s.state.position.y),
        BytesOfI64(s.state.velocity.x),
        BytesOfI64(s.state.velocity.y),
        BytesOfU64(s.state.lastSequence),
        BytesOfI64(s.residualX),
        BytesOfI64(s.residualY),
        BytesOfU64(Lookup(w.highest, id)),
        BytesOfU64(Lookup(w.latest, id)) ]
  }

  function CommandFields(c: VelocityCommand): (fs: seq<ByteString>)
    ensures |fs| == 5
  {
    [ BytesOfU64(c.targetTick),
      BytesOfU64(c.entityId),
      BytesOfU64(c.sequence),
      BytesOfI64(c.velocity.x),
      BytesOfI64(c.velocity.y) ]
  }

  function EntityBlocks(w: WorldState, ids: seq<EntityId>): (bs: seq<ByteString>)
    ensures |bs| == |ids|
    ensures forall i :: 0 <= i < |ids| ==> bs[i] == Concat(EntityFields(w, ids[i]))
  {
    seq(|ids|, i requires 0 <= i < |ids| => Concat(EntityFields(w, ids[i])))
  }

  function CommandBlocks(cs: seq<VelocityCommand>): (bs: seq<ByteString>)
    ensures |bs| == |cs|
    ensures forall i :: 0 <= i < |cs| ==> bs[i] == Concat(CommandFields(cs[i]))
  {
    seq(|cs|, i requires 0 <= i < |cs| => Concat(CommandFields(cs[i])))
  }

  /** The encoding as the sections that it consists of. */
  function Sections(w: WorldState): (fs: seq<ByteString>)
    ensures |fs| == 4
  {
    [ Concat(HeaderFields(w)),
      Concat(EntityBlocks(w, w.ids)),
      BigEndian(8, |w.pending|),
      Concat(CommandBlocks(w.pending)) ]
  }

  function EncodeWorldState(w: WorldState): ByteString {
    Concat(Sections(w))
  }

  function FingerprintWorldState(w: WorldState): U64 {
    Fingerprint.Fnv(EncodeWorldState(w))
  }

  // ---------------------------------------------------------------- the encoder

  method AppendFields(output: ByteString, fields: seq<ByteString>) returns (r: ByteString)
    ensures r == output + Concat(fields)
  {
    r := output;
    for i := 0 to |fields|
      invariant r == output + Concat(fields[..i])
    {
      ConcatSnoc(fields[..i], fields[i]);
      assert fields[..i + 1] == fields[..i] + [fields[i]];
      r := r + fields[i];
    }
    assert fields[..|fields|] == fields;
  }

  /** Pushes the header, then one block per entity in id order, then the pending commands. */
  method Encode(world: World) returns (output: ByteString)
    ensures output == EncodeWorldState(world.View())
  {
    hide Concat, HeaderFields, EntityFields, CommandFields;
    var w := world.View();
    output := AppendFields([], HeaderFields(w));
    output := AppendEntities(output, w);
    output := output + BigEndian(8, |w.pending|);
    output := AppendCommands(output, w.pending);
    ConcatFour(Sections(w));
  }

  method AppendEntities(output: ByteString, w: WorldState) returns (r: ByteString)
    ensures r == output + Concat(EntityBlocks(w, w.ids))
  {
    hide EntityFields;
    r := output;
    for i := 0 to |w.ids|
      invariant r == output + Concat(EntityBlocks(w, w.ids[..i]))
    {
      r := AppendFields(r, EntityFields(w, w.ids[i]));
      assert EntityBlocks(w, w.ids[..i + 1]) == EntityBlocks(w, w.ids[..i]) + [Concat(EntityFields(w, w.ids[i]))];
      ConcatSnoc(EntityBlocks(w, w.ids[..i]), Concat(EntityFields(w, w.ids[i])));
    }
    assert w.ids[..|w.ids|] == w.ids;
  }

  method AppendCommands(output: ByteString, cs: seq<VelocityCommand>) returns (r: ByteString)
    ensures r == output + Concat(CommandBlocks(cs))
  {
    hide CommandFields;
    r := output;
    for i := 0 to |cs|
      invariant r == output + Concat(CommandBlocks(cs[..i]))
    {
      r := AppendFields(r, CommandFields(cs[i]));
      assert CommandBlocks(cs[..i + 1]) == CommandBlocks(cs[..i]) + [Concat(CommandFields(cs[i]))];
      ConcatSnoc(CommandBlocks(cs[..i]), Concat(CommandFields(cs[i])));
    }
    assert cs[..|cs|] == cs;
  }

  lemma ConcatFour(fs: seq<ByteString>)
    requires |fs| == 4
    ensures Concat(fs) == fs[0] + fs[1] + fs[2] + fs[3]
    ensures Concat(fs) == fs[0] + (fs[1] + (fs[2] + fs[3]))
  {
    ConcatSnoc(fs[..3], fs[3]);
    ConcatSnoc(fs[..2], fs[2]);
    ConcatSnoc(fs[..1], fs[1]);
    ConcatOne(fs[0]);
    assert fs[..1] == [fs[0]];
    assert fs[..2] == fs[..1] + [fs[1]];
    assert fs[..3] == fs[..2] + [fs[2]];
    assert fs == fs[..3] + [fs[3]];
  }

  // ---------------------------------------------------------------- the encoding identifies the world

  lemma U64Injective(a: U64, b: U64)
    requires BytesOfU64(a) == BytesOfU64(b)
    ensures a == b
  {
    U64RoundTrip(a);
    U64RoundTrip(b);
  }

  lemma I64Injective(a: I64, b: I64)
    requires BytesOfI64(a) == BytesOfI64(b)
    ensures a == b
  {
    I64RoundTrip(a);
    I64RoundTrip(b);
  }

  lemma HeaderIdentifies(a: WorldState, b: WorldState, s: ByteString, t: ByteString)
    requires |a.ids| < TWO_64 && |b.ids| < TWO_64
    requires Concat(HeaderFields(a)) + s == Concat(HeaderFields(b)) + t
    ensures a.clock == b.clock && a.limits == b.limits && |a.ids| == |b.ids| && s == t
  {
    var fs, gs := HeaderFields(a), HeaderFields(b);
    ConcatInjective(fs, gs, s, t);
    assert fs[3] == gs[3] && fs[4] == gs[4] && fs[5] == gs[5] && fs[6] == gs[6] && fs[7] == gs[7] && fs[8] == gs[8];
    hide HeaderFields, BytesOfU64, BytesOfI64;
    U64Injective(a.clock.index, b.clock.index);
    I64Injective(a.clock.elapsed, b.clock.elapsed);
    I64Injective(a.clock.duration, b.clock.duration);
    I64Injective(a.limits.maxAbsPosition, b.limits.maxAbsPosition);
    I64Injective(a.limits.maxAbsVelocity, b.limits.maxAbsVelocity);
    CountInjective(|a.ids|, |b.ids|);
  }

  lemma CountInjective(m: nat, n: nat)
    requires m < TWO_64 && n < TWO_64 && BigEndian(8, m) == BigEndian(8, n)
    ensures m == n
  {
    Powers();
    ValueOfBigEndian(8, m);
    ValueOfBigEndian(8, n);
  }

  lemma EntityBlockIdentifies(a: WorldState, b: WorldState, i: EntityId, j: EntityId)
    requires Valid(a) && Valid(b) && i in a.entities && j in b.entities
    requires Concat(EntityFields(a, i)) == Concat(EntityFields(b, j))
    ensures i == j && Held(a, i) == Held(b, j)
  {
    hide LimitsAccepted, QueueFits, IdsFit, ClockFits;
    var fs, gs := EntityFields(a, i), EntityFields(b, j);
    ConcatInjective(fs, gs, [], []);
    var s, t := a.entities[i], b.entities[j];
    assert EntityFits(a, i, s) && EntityFits(b, j, t);
    assert forall k :: 0 <= k < 10 ==> fs[k] == gs[k];
    assert fs[0] == gs[0] && fs[1] == gs[1] && fs[2] == gs[2] && fs[3] == gs[3] && fs[4] == gs[4];
    assert fs[5] == gs[5] && fs[6] == gs[6] && fs[7] == gs[7] && fs[8] == gs[8] && fs[9] == gs[9];
    hide EntityFields, BytesOfU64, BytesOfI64;
    U64Injective(i, j);
    I64Injective(s.state.position.x, t.state.position.x);
    I64Injective(s.state.position.y, t.state.position.y);
    I64Injective(s.state.velocity.x, t.state.velocity.x);
    I64Injective(s.state.velocity.y, t.state.velocity.y);
    U64Injective(s.state.lastSequence, t.state.lastSequence);
    I64Injective(s.residualX, t.residualX);
    I64Injective(s.residualY, t.residualY);
    U64Injective(Lookup(a.highest, i), Lookup(b.highest, i));
    U64Injective(Lookup(a.latest, i), Lookup(b.latest, i));
  }

  lemma CommandBlockIdentifies(c: VelocityCommand, d: VelocityCommand)
    requires Concat(CommandFields(c)) == Concat(CommandFields(d))
    ensures c == d
  {
    var fs, gs := CommandFields(c), CommandFields(d);
    ConcatInjective(fs, gs, [], []);
    assert fs[0] == gs[0] && fs[1] == gs[1] && fs[2] == gs[2] && fs[3] == gs[3] && fs[4] == gs[4];
    hide CommandFields, BytesOfU64, BytesOfI64;
    U64Injective(c.targetTick, d.targetTick);
    U64Injective(c.entityId, d.entityId);
    U64Injective(c.sequence, d.sequence);
    I64Injective(c.velocity.x, d.velocity.x);
    I64Injective(c.velocity.y, d.velocity.y);
  }

  lemma EntityBlockLength(w: WorldState, id: EntityId)
    requires id in w.entities
    ensures |Concat(EntityFields(w, id))| == 80
  {
    ConcatUniformLength(EntityFields(w, id), 8);
  }

  lemma CommandBlockLength(c: VelocityCommand)
    ensures |Concat(CommandFields(c))| == 40
  {
    ConcatUniformLength(CommandFields(c), 8);
  }

  lemma EntitiesIdentify(a: WorldState, b: WorldState, s: ByteString, t: ByteString)
    requires Valid(a) && Valid(b) && |a.ids| == |b.ids|
    requires Concat(EntityBlocks(a, a.ids)) + s == Concat(EntityBlocks(b, b.ids)) + t
    ensures a.entities == b.entities && a.highest == b.highest && a.latest == b.latest && a.ids == b.ids && s == t
  {
    hide LimitsAccepted, QueueFits, ClockFits, EntityFits, EntityFields, Concat, Held;
    forall i | 0 <= i < |a.ids|
      ensures |Concat(EntityFields(a, a.ids[i]))| == 80 == |Concat(EntityFields(b, b.ids[i]))|
    {
      assert a.ids[i] in a.ids && b.ids[i] in b.ids;
      EntityBlockLength(a, a.ids[i]);
      EntityBlockLength(b, b.ids[i]);
    }
    ConcatInjective(EntityBlocks(a, a.ids), EntityBlocks(b, b.ids), s, t);
    forall i | 0 <= i < |a.ids|
      ensures a.ids[i] == b.ids[i] && Held(a, a.ids[i]) == Held(b, a.ids[i])
    {
      assert a.ids[i] in a.ids && b.ids[i] in b.ids;
      assert EntityBlocks(a, a.ids)[i] == EntityBlocks(b, b.ids)[i];
      EntityBlockIdentifies(a, b, a.ids[i], b.ids[i]);
    }
    assert a.ids == b.ids;
    forall id: EntityId
      ensures Held(a, id) == Held(b, id)
    {
      if id in a.ids {
        var i :| 0 <= i < |a.ids| && a.ids[i] == id;
      } else {
        NotHeld(a, id);
        NotHeld(b, id);
      }
    }
    SameHoldings(a, b);
  }

  lemma NotHeld(w: WorldState, id: EntityId)
    requires IdsFit(w) && id !in w.ids
    ensures Held(w, id) == Nothing
  {
  }

  lemma CommandsIdentify(cs: seq<VelocityCommand>, ds: seq<VelocityCommand>)
    requires |cs| == |ds|
    requires Concat(CommandBlocks(cs)) == Concat(CommandBlocks(ds))
    ensures cs == ds
  {
    hide CommandFields, Concat;
    forall i | 0 <= i < |cs|
      ensures |Concat(CommandFields(cs[i]))| == 40 == |Concat(CommandFields(ds[i]))|
    {
      CommandBlockLength(cs[i]);
      CommandBlockLength(ds[i]);
    }
    ConcatInjective(CommandBlocks(cs), CommandBlocks(ds), [], []);
    forall i | 0 <= i < |cs|
      ensures cs[i] == ds[i]
    {
      assert CommandBlocks(cs)[i] == CommandBlocks(ds)[i];
      CommandBlockIdentifies(cs[i], ds[i]);
    }
  }

  /** Distinct entity identifiers are fewer than 2^64. */
  lemma IdCount(w: WorldState)
    requires IdsFit(w)
    ensures |w.ids| < TWO_64
  {
    if |w.ids| > 0 {
      IdAtLeast(w, |w.ids| - 1);
    }
  }

  lemma {:induction false} IdAtLeast(w: WorldState, i: nat)
    requires IdsFit(w) && i < |w.ids|
    ensures w.ids[i] >= i + 1
  {
    if i > 0 {
      IdAtLeast(w, i - 1);
    }
  }

  /** Valid worlds with equal encodings are equal: clock, limits, entities with their residuals,
      both maps and the pending queue. */
  lemma EncodingIdentifiesWorld(a: WorldState, b: WorldState)
    requires Valid(a) && Valid(b)
    requires |a.pending| < TWO_64 && |b.pending| < TWO_64
    requires EncodeWorldState(a) == EncodeWorldState(b)
    ensures a == b
  {
    hide HeaderFields, EntityBlocks, CommandBlocks, Concat, BigEndian, LimitsAccepted, QueueFits, ClockFits, EntityFits;
    ConcatFour(Sections(a));
    ConcatFour(Sections(b));
    IdCount(a);
    IdCount(b);
    var s, t := Sections(a), Sections(b);
    HeaderIdentifies(a, b, s[1] + (s[2] + s[3]), t[1] + (t[2] + t[3]));
    EntitiesIdentify(a, b, s[2] + s[3], t[2] + t[3]);
    SplitFirst(s[2], s[3], t[2], t[3]);
    CountInjective(|a.pending|, |b.pending|);
    CommandsIdentify(a.pending, b.pending);
  }
}
