/** Every operation keeps the world valid, and validity rules out every failure that the code
    guards against but can never meet. */
module WorldSafety {
  import opened Integers
  import opened WorldModel
  import opened WorldInvariant

  /** When `add_entity` gives each of its answers. */
  lemma AddAnswerIsExact(w: WorldState, e: EntityState)
    ensures
      var known, placed, slow := e.id in w.entities, Inside(e.position, w.limits.maxAbsPosition), Inside(e.velocity, w.limits.maxAbsVelocity);
      && (CheckEntity(w, e) == DuplicateId <==> known)
      && (CheckEntity(w, e) == PositionOutOfRange <==> !known && !placed)
      && (CheckEntity(w, e) == AddEntityResult.VelocityOutOfRange <==> !known && placed && !slow)
      && (CheckEntity(w, e) == Added <==> !known && placed && slow)
  {
  }

  /** When `queue_velocity` gives each of its answers. */
  lemma QueueAnswerIsExact(w: WorldState, c: VelocityCommand)
    requires Valid(w)
    ensures
      var future, known := c.targetTick > w.clock.index, c.entityId in w.entities;
      var newer := known && c.sequence > w.highest[c.entityId];
      var ordered := known && c.targetTick >= w.latest[c.entityId];
      var slow := Inside(c.velocity, w.limits.maxAbsVelocity);
      && (CheckQueue(w, c) == StaleTick <==> !future)
      && (CheckQueue(w, c) == UnknownEntity <==> future && !known)
      && (CheckQueue(w, c) == SequenceNotIncreasing <==> future && known && !newer)
      && (CheckQueue(w, c) == TargetTickRegression <==> future && newer && !ordered)
      && (CheckQueue(w, c) == QueueResult.VelocityOutOfRange <==> future && newer && ordered && !slow)
      && (CheckQueue(w, c) == Accepted <==> future && newer && ordered && slow)
  {
    hide LimitsAccepted, ClockFits, IdsFit, EntityFits, QueueFits;
  }

  lemma NewWorldValid(duration: Duration, limits: WorldLimits)
    requires LimitsAccepted(duration, limits)
    ensures Valid(NewWorld(duration, limits))
  {
  }

  lemma {:induction false} InsertIdFits(ids: seq<EntityId>, id: EntityId)
    requires forall i, j :: 0 <= i < j < |ids| ==> ids[i] < ids[j]
    requires id !in ids
    ensures forall x :: x in InsertId(ids, id) <==> x in ids || x == id
    ensures forall i, j :: 0 <= i < j < |InsertId(ids, id)| ==> InsertId(ids, id)[i] < InsertId(ids, id)[j]
  {
    if ids != [] {
      assert ids == [ids[0]] + ids[1..];
      if id > ids[0] {
        InsertIdFits(ids[1..], id);
        var t := InsertId(ids[1..], id);
        forall j | 0 <= j < |t|
          ensures ids[0] < t[j]
        {
          assert t[j] in t;
        }
      }
    }
  }

  lemma AddKeepsValid(w: WorldState, e: EntityState)
    requires Valid(w)
    ensures Valid(AddEntity(w, e))
  {
    hide LimitsAccepted, QueueFits, ClockFits, IdsFit, EntityFits;
    if CheckEntity(w, e) == Added {
      AddKeepsIds(w, e);
      AddKeepsEntities(w, e);
      AddKeepsQueue(w, e);
    }
  }

  lemma AddKeepsIds(w: WorldState, e: EntityState)
    requires IdsFit(w) && CheckEntity(w, e) == Added
    ensures IdsFit(AddEntity(w, e))
  {
    hide VectorWithin;
    assert e.id !in w.ids;
    InsertIdFits(w.ids, e.id);
  }

  lemma AddKeepsEntities(w: WorldState, e: EntityState)
    requires forall id :: id in w.entities ==> EntityFits(w, id, w.entities[id])
    requires CheckEntity(w, e) == Added
    ensures forall id :: id in AddEntity(w, e).entities ==> EntityFits(AddEntity(w, e), id, AddEntity(w, e).entities[id])
  {
    var next := AddEntity(w, e);
    forall id | id in next.entities
      ensures EntityFits(next, id, next.entities[id])
    {
      if id != e.id { assert EntityFits(w, id, w.entities[id]); }
    }
  }

  lemma AddKeepsQueue(w: WorldState, e: EntityState)
    requires QueueFits(w) && CheckEntity(w, e) == Added
    ensures QueueFits(AddEntity(w, e))
  {
    var next := AddEntity(w, e);
    forall c | c in next.pending
      ensures CommandFits(next, c)
    {
      assert CommandFits(w, c);
    }
  }

  lemma QueueKeepsValid(w: WorldState, c: VelocityCommand)
    requires Valid(w)
    ensures Valid(Queue(w, c))
  {
    hide LimitsAccepted, QueueFits, ClockFits, CommandOrder, Insert;
    if CheckQueue(w, c) == Accepted {
      var next := Queue(w, c);
      forall id | id in next.entities
        ensures EntityFits(next, id, next.entities[id])
      {
        assert EntityFits(w, id, w.entities[id]);
      }
      QueueKeepsQueue(w, c);
    }
  }

  lemma QueueKeepsQueue(w: WorldState, c: VelocityCommand)
    requires QueueFits(w) && CheckQueue(w, c) == Accepted
    requires EntityFits(w, c.entityId, w.entities[c.entityId])
    ensures QueueFits(Queue(w, c))
  {
    var next := Queue(w, c);
    forall x | x in w.pending
      ensures CommandFits(next, x) && !SameKey(x, c)
      ensures x.entityId == c.entityId ==> x.sequence < c.sequence && CommandOrder(x, c)
    {
      assert CommandFits(w, x);
    }
    InsertContents(w.pending, c);
    InsertKeepsOrder(w.pending, c);
    InsertKeepsSequences(w.pending, c);
    assert CommandFits(next, c);
  }

  /** The last command of a list that concerns an entity, or -1. */
  lemma {:induction false} LastCommand(cs: seq<VelocityCommand>, id: EntityId, s: StoredEntity) returns (k: int)
    ensures -1 <= k < |cs|
    ensures forall j :: k < j < |cs| ==> cs[j].entityId != id
    ensures k >= 0 ==> cs[k].entityId == id && EntityAfter(cs, id, s) == ApplyCommand(s, cs[k])
    ensures k < 0 ==> EntityAfter(cs, id, s) == s
  {
    if cs == [] {
      k := -1;
    } else {
      var s' := if cs[0].entityId == id then ApplyCommand(s, cs[0]) else s;
      var m := LastCommand(cs[1..], id, s');
      if m >= 0 {
        k := m + 1;
      } else {
        k := if cs[0].entityId == id then 0 else -1;
      }
      assert forall j :: 0 < j < |cs| ==> cs[j] == cs[1..][j - 1];
    }
  }

  /** The intermediate product of the integrator fits a signed 64-bit integer. */
  lemma ScaledDisplacementFits(w: WorldState, velocity: int, residual: int)
    requires LimitsAccepted(w.clock.duration, w.limits)
    requires WithinLimit(velocity, w.limits.maxAbsVelocity)
    requires -MICROSECONDS_PER_SECOND < residual < MICROSECONDS_PER_SECOND
    ensures I64_MIN <= velocity * w.clock.duration <= I64_MAX
    ensures I64_MIN <= velocity * w.clock.duration + residual <= I64_MAX
  {
    var d, m, room := w.clock.duration, w.limits.maxAbsVelocity, I64_MAX - (MICROSECONDS_PER_SECOND - 1);
    var q := TruncDiv(room, d);
    assert q * d <= room by { DivMod(room, d); }
    MulMonotone(m, q, d);
    MulMonotone(velocity, m, d);
    MulMonotone(-m, velocity, d);
    assert (-m) * d == -(m * d);
  }

  lemma MulMonotone(a: int, b: int, d: int)
    requires a <= b && d > 0
    ensures a * d <= b * d
  {
    assert (b - a) * d >= 0;
    Distribute(b, a, d);
  }

  lemma SteeredFits(w: WorldState, id: EntityId)
    requires QueueFits(w) && id in w.entities && w.clock.index < TWO_63
    requires EntityFits(w, id, w.entities[id])
    ensures EntityFits(w, id, Steered(w, id))
    ensures forall c :: c in Later(w.pending, w.clock.index + 1) && c.entityId == id ==> Steered(w, id).state.lastSequence < c.sequence
  {
    hide StrictlySorted, DueCount, VectorWithin;
    var due := Due(w.pending, w.clock.index + 1);
    var k := LastCommand(due, id, w.entities[id]);
    if k >= 0 {
      assert due[k] == w.pending[k] && CommandFits(w, w.pending[k]);
    }
    forall c | c in Later(w.pending, w.clock.index + 1) && c.entityId == id
      ensures Steered(w, id).state.lastSequence < c.sequence
    {
      LaterSequence(w, id, k, c);
    }
  }

  lemma LaterSequence(w: WorldState, id: EntityId, k: int, c: VelocityCommand)
    requires QueueFits(w) && w.clock.index < TWO_63
    requires var due := Due(w.pending, w.clock.index + 1); -1 <= k < |due| && (k >= 0 ==> due[k].entityId == id)
    requires c in Later(w.pending, w.clock.index + 1) && c.entityId == id
    ensures CommandFits(w, c)
    ensures k >= 0 ==> w.pending[k].sequence < c.sequence
  {
    hide StrictlySorted, CommandFits;
    var j :| DueCount(w.pending, w.clock.index + 1) <= j < |w.pending| && w.pending[j] == c;
  }

  lemma MovedFits(w: WorldState, id: EntityId)
    requires id in w.entities && w.clock.index < TWO_63
    requires EntityFits(w, id, Steered(w, id)) && Moved(w, id).Ok?
    ensures EntityFits(w, id, Moved(w, id).value)
    ensures Moved(w, id).value.state.lastSequence == Steered(w, id).state.lastSequence
    ensures Moved(w, id).value.state.velocity == Steered(w, id).state.velocity
  {
  }

  lemma AdvanceKeepsValid(w: WorldState)
    requires Valid(w) && Advance(w).Ok?
    ensures Valid(Advance(w).value)
  {
    hide Advance, Moved;
    AdvanceShape(w);
    var next := Advance(w).value;
    forall id | id in next.entities
      ensures EntityFits(next, id, next.entities[id])
    {
      SteeredFits(w, id);
      MovedFits(w, id);
    }
    AdvanceKeepsQueue(w, next);
    Distribute(w.clock.index, -1, w.clock.duration);
  }

  lemma AdvanceKeepsQueue(w: WorldState, next: WorldState)
    requires Valid(w) && w.clock.index < TWO_63 && IsNextTick(w, next)
    ensures QueueFits(next)
  {
    hide LimitsAccepted, Moved, CommandFits;
    forall c | c in next.pending
      ensures CommandFits(next, c)
    {
      LaterFits(w, next, c);
    }
  }

  lemma LaterMember(cs: seq<VelocityCommand>, tick: U64, c: VelocityCommand)
    requires Ripe(cs, tick) && c in Later(cs, tick)
    ensures c in cs && c.targetTick > tick
  {
    DueSplit(cs, tick);
  }

  lemma LaterFits(w: WorldState, next: WorldState, c: VelocityCommand)
    requires Valid(w) && w.clock.index < TWO_63 && IsNextTick(w, next)
    requires c in next.pending
    ensures CommandFits(next, c)
  {
    hide LimitsAccepted, Moved, Steered, StrictlySorted, SequencesFollowQueue, Later;
    assert Ripe(w.pending, w.clock.index + 1);
    LaterMember(w.pending, w.clock.index + 1, c);
    assert CommandFits(w, c);
    assert EntityFits(w, c.entityId, w.entities[c.entityId]);
    SteeredFits(w, c.entityId);
    MovedFits(w, c.entityId);
  }
}
