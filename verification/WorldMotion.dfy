/** When a tick succeeds and how it fails, stated from commands, positions and limits alone. */
module WorldMotion {
  import opened Integers
  import opened WorldModel
  import opened WorldInvariant
  import opened WorldSafety
  import opened WorldRuns
  import opened Integration

  /** The integrator accepts exactly the positions inside int64 and inside the symmetric limit. */
  lemma AxisLaw(position: I64, velocity: I64, residual: I64, duration: Duration, limit: I64)
    ensures
      var scaled, bound: int := velocity * duration + residual, limit;
      var next := position + TruncDiv(scaled, 1_000_000);
      var r := IntegrateAxis(position, velocity, residual, duration, limit);
      && (r.Ok? <==> I64_MIN <= next <= I64_MAX && -bound <= next <= bound)
      && (r == Err(PositionOverflow) <==> next < I64_MIN || next > I64_MAX)
      && (r.Err? ==> r.error in {PositionOverflow, PositionLimit})
      && (r.Ok? ==> r.value == Axis(next, TruncMod(scaled, 1_000_000)))
  {
    hide TruncDiv, TruncMod;
  }

  /** The velocity that the next tick integrates with: that of the due command with the highest
      sequence, or the entity's own. */
  ghost predicate InForce(w: WorldState, id: EntityId, v: Vector2)
    requires id in w.entities
  {
    || (NoneDue(w, id) && v == w.entities[id].state.velocity)
    || exists top :: TopDue(w, id, top) && v == top.velocity
  }

  /** Where velocity `v` takes an entity in one tick. */
  function Target(s: StoredEntity, v: Vector2, duration: Duration, dim: Dimension): int {
    var speed := if dim == X then v.x else v.y;
    Position(s, dim) + TruncDiv(speed * duration + Residual(s, dim), 1_000_000)
  }

  function AxisFault(next: int, limit: int): Option<AdvanceError> {
    if next < I64_MIN || next > I64_MAX then Some(PositionOverflow)
    else if next < -limit || next > limit then Some(PositionLimit)
    else None
  }

  /** The first axis at fault decides. */
  function Fault(s: StoredEntity, v: Vector2, duration: Duration, limit: int): Option<AdvanceError> {
    var x, y := AxisFault(Target(s, v, duration, X), limit), AxisFault(Target(s, v, duration, Y), limit);
    if x.Some? then x else y
  }

  lemma EntityLaw(s: StoredEntity, duration: Duration, limit: I64)
    ensures
      var r, f := IntegrateEntity(s, duration, limit), Fault(s, s.state.velocity, duration, limit);
      && (r.Ok? <==> f == None)
      && (r.Err? ==> f == Some(r.error))
  {
    hide IntegrateAxis, TruncDiv, TruncMod;
    AxisLaw(s.state.position.x, s.state.velocity.x, s.residualX, duration, limit);
    AxisLaw(s.state.position.y, s.state.velocity.y, s.residualY, duration, limit);
  }

  /** Commands change the velocity, and only to the one in force. */
  lemma SteeredIsInForce(w: WorldState, id: EntityId, v: Vector2)
    requires Valid(w) && id in w.entities
    ensures w.clock.index < TWO_63
    ensures InForce(w, id, v) <==> v == Steered(w, id).state.velocity
    ensures Steered(w, id).state.position == w.entities[id].state.position
    ensures Steered(w, id).residualX == w.entities[id].residualX && Steered(w, id).residualY == w.entities[id].residualY
  {
    hide Valid, Advance, Steered, TopDue, NoneDue;
    AdvanceShape(w);
    var k := SteeredShape(w, id);
    forall top | TopDue(w, id, top)
      ensures !NoneDue(w, id) && (k >= 0 ==> top == w.pending[k])
    {
      TopExcludesNone(w, id, top);
      if k >= 0 {
        TopIsUnique(w, id, top, w.pending[k]);
      }
    }
  }

  /** The last due command for an entity, which is its top one, or -1 if none is due. */
  lemma SteeredShape(w: WorldState, id: EntityId) returns (k: int)
    requires Valid(w) && id in w.entities && w.clock.index < TWO_63
    ensures -1 <= k < |w.pending|
    ensures k < 0 ==> NoneDue(w, id) && Steered(w, id) == w.entities[id]
    ensures k >= 0 ==> TopDue(w, id, w.pending[k]) && Steered(w, id) == ApplyCommand(w.entities[id], w.pending[k])
  {
    hide LimitsAccepted, IdsFit, EntityFits, QueueFits, TopDue, NoneDue, EntityAfter, ApplyCommand;
    var due := Due(w.pending, w.clock.index + 1);
    k := LastCommand(due, id, w.entities[id]);
    LastIsTop(w, id, k);
  }

  lemma TopExcludesNone(w: WorldState, id: EntityId, top: VelocityCommand)
    requires TopDue(w, id, top)
    ensures !NoneDue(w, id)
  {
  }

  lemma TopIsUnique(w: WorldState, id: EntityId, a: VelocityCommand, b: VelocityCommand)
    requires Valid(w) && TopDue(w, id, a) && TopDue(w, id, b)
    ensures a == b
  {
    hide LimitsAccepted, IdsFit, EntityFits, StrictlySorted, CommandFits;
    var i :| 0 <= i < |w.pending| && w.pending[i] == a;
    var j :| 0 <= j < |w.pending| && w.pending[j] == b;
    assert a.sequence == b.sequence;
  }

  lemma MovedLaw(w: WorldState, id: EntityId, v: Vector2)
    requires Valid(w) && id in w.entities && InForce(w, id, v)
    ensures w.clock.index < TWO_63
    ensures
      var f := Fault(w.entities[id], v, w.clock.duration, w.limits.maxAbsPosition);
      && (Moved(w, id).Ok? <==> f == None)
      && (Moved(w, id).Err? ==> f == Some(Moved(w, id).error))
  {
    hide Valid, InForce, IntegrateEntity, AxisFault, Steered;
    SteeredIsInForce(w, id, v);
    EntityLaw(Steered(w, id), w.clock.duration, w.limits.maxAbsPosition);
  }

  predicate Reachable(next: int, limit: int) {
    -limit <= next <= limit
  }

  /** A tick of a valid world succeeds if and only if elapsed time fits and the velocity in force
      keeps every entity within the position limit, on both axes. */
  lemma TickSucceedsExactly(w: WorldState)
    requires Valid(w)
    ensures Advance(w).Ok? <==>
      && w.clock.elapsed + w.clock.duration <= I64_MAX
      && forall id, v :: id in w.entities && InForce(w, id, v) ==>
        && Reachable(Target(w.entities[id], v, w.clock.duration, X), w.limits.maxAbsPosition)
        && Reachable(Target(w.entities[id], v, w.clock.duration, Y), w.limits.maxAbsPosition)
  {
    hide Valid, Advance, InForce, Moved, Target, Reachable, Steered, Fault;
    AdvanceShape(w);
    forall id | id in w.entities
      ensures Moved(w, id).Ok? <==> forall v :: InForce(w, id, v) ==>
        && Reachable(Target(w.entities[id], v, w.clock.duration, X), w.limits.maxAbsPosition)
        && Reachable(Target(w.entities[id], v, w.clock.duration, Y), w.limits.maxAbsPosition)
    {
      SteeredIsInForce(w, id, Steered(w, id).state.velocity);
      forall v | InForce(w, id, v)
        ensures Moved(w, id).Ok? <==>
          && Reachable(Target(w.entities[id], v, w.clock.duration, X), w.limits.maxAbsPosition)
          && Reachable(Target(w.entities[id], v, w.clock.duration, Y), w.limits.maxAbsPosition)
      {
        MovedLaw(w, id, v);
        NoFault(w.entities[id], v, w.clock.duration, w.limits.maxAbsPosition);
      }
    }
  }

  lemma NoFault(s: StoredEntity, v: Vector2, duration: Duration, limit: I64)
    ensures Fault(s, v, duration, limit) == None <==>
      Reachable(Target(s, v, duration, X), limit) && Reachable(Target(s, v, duration, Y), limit)
  {
    hide Target;
  }

  /** The loop over the entities stops at the first that cannot be moved. */
  lemma {:induction false} FirstErrorDecides(ids: seq<EntityId>, es: map<EntityId, StoredEntity>, duration: Duration, limit: I64) returns (i: nat)
    requires forall id :: id in ids ==> id in es
    requires forall i, j :: 0 <= i < j < |ids| ==> ids[i] < ids[j]
    requires IntegrateAll(ids, es, duration, limit).Err?
    ensures i < |ids|
    ensures IntegrateEntity(es[ids[i]], duration, limit) == Err(IntegrateAll(ids, es, duration, limit).error)
    ensures forall j :: 0 <= j < i ==> IntegrateEntity(es[ids[j]], duration, limit).Ok?
  {
    hide IntegrateEntity;
    assert ids != [] && ids[0] in ids;
    var step := IntegrateEntity(es[ids[0]], duration, limit);
    if step.Err? {
      i := 0;
    } else {
      var next := es[ids[0] := step.value];
      var k := FirstErrorDecides(ids[1..], next, duration, limit);
      i := k + 1;
      assert forall j :: 0 < j < |ids| ==> ids[j] == ids[1..][j - 1] && next[ids[j]] == es[ids[j]];
    }
  }

  /** How a tick fails: by the clock, or by the first entity in id order that the velocity in force
      would take too far, with the error of its first axis at fault. */
  lemma TickFailsByFirstEntity(w: WorldState)
    requires Valid(w) && Advance(w).Err?
    ensures Advance(w) == Err(ElapsedOverflow) <==> w.clock.elapsed + w.clock.duration > I64_MAX
    ensures w.clock.elapsed + w.clock.duration <= I64_MAX ==>
      exists i :: 0 <= i < |w.ids| && FailsFirst(w, i, Advance(w).error)
  {
    hide Advance, InForce, IntegrateAll, ApplyDue, LimitsAccepted, EntityFits, RemoveDue, Fault;
    AdvanceShape(w);
    ElapsedDecides(w);
    if w.clock.elapsed + w.clock.duration <= I64_MAX {
      var es, moved := SteeredAll(w);
      var i := FirstErrorDecides(w.ids, es, w.clock.duration, w.limits.maxAbsPosition);
      forall j, v | 0 <= j <= i && InForce(w, w.ids[j], v)
        ensures Fault(w.entities[w.ids[j]], v, w.clock.duration, w.limits.maxAbsPosition) ==
          if j == i then Some(Advance(w).error) else None
      {
        assert w.ids[j] in w.ids;
        MovedLaw(w, w.ids[j], v);
      }
      assert FailsFirst(w, i, Advance(w).error);
      assert moved.error in {PositionOverflow, PositionLimit};
    }
  }

  lemma ElapsedDecides(w: WorldState)
    requires w.clock.index < TWO_63
    ensures w.clock.elapsed + w.clock.duration > I64_MAX ==> Advance(w) == Err(ElapsedOverflow)
  {
    hide ApplyDue, IntegrateAll, RemoveDue;
  }

  /** Entity `i` of the id order is at fault with `e`, and none before it is. */
  ghost predicate FailsFirst(w: WorldState, i: nat, e: AdvanceError)
    requires i < |w.ids| && IdsFit(w)
  {
    forall j, v :: 0 <= j <= i && w.ids[j] in w.entities && InForce(w, w.ids[j], v) ==>
      Fault(w.entities[w.ids[j]], v, w.clock.duration, w.limits.maxAbsPosition) == if j == i then Some(e) else None
  }

  lemma SteeredAll(w: WorldState) returns (es: map<EntityId, StoredEntity>, moved: Result<map<EntityId, StoredEntity>, AdvanceError>)
    requires Valid(w) && w.clock.elapsed + w.clock.duration <= I64_MAX && w.clock.index < TWO_63
    ensures es.Keys == w.entities.Keys
    ensures forall id :: id in w.entities ==> IntegrateEntity(es[id], w.clock.duration, w.limits.maxAbsPosition) == Moved(w, id)
    ensures moved == IntegrateAll(w.ids, es, w.clock.duration, w.limits.maxAbsPosition)
    ensures moved.Err? ==> moved.error in {PositionOverflow, PositionLimit}
    ensures Advance(w).Err? ==> moved == Err(Advance(w).error)
  {
    hide LimitsAccepted, EntityFits, IntegrateEntity, IntegrateAll, ApplyDue, RemoveDue, Advance;
    assert Ripe(w.pending, w.clock.index + 1);
    ApplyDueShape(w.pending, w.clock.index + 1, w.entities);
    es, moved := MovedAll(w);
    AdvanceUnfold(w, es, moved);
  }
}
