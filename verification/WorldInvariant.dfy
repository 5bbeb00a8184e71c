/** What every reachable world satisfies, and what one tick does to a world that satisfies it. */
module WorldInvariant {
  import opened Integers
  import opened WorldModel

  predicate EntityFits(w: WorldState, id: EntityId, s: StoredEntity) {
    && s.state.id == id
    && VectorWithin(s.state.position, w.limits.maxAbsPosition)
    && VectorWithin(s.state.velocity, w.limits.maxAbsVelocity)
    && -MICROSECONDS_PER_SECOND < s.residualX < MICROSECONDS_PER_SECOND
    && -MICROSECONDS_PER_SECOND < s.residualY < MICROSECONDS_PER_SECOND
    && s.state.lastSequence <= Lookup(w.highest, id)
  }

  predicate CommandFits(w: WorldState, c: VelocityCommand) {
    && w.clock.index < c.targetTick <= Lookup(w.latest, c.entityId)
    && c.entityId in w.entities
    && w.entities[c.entityId].state.lastSequence < c.sequence <= Lookup(w.highest, c.entityId)
    && VectorWithin(c.velocity, w.limits.maxAbsVelocity)
  }

  /** Within one entity, queue order is sequence order. */
  predicate SequencesFollowQueue(cs: seq<VelocityCommand>) {
    forall i, j :: 0 <= i < j < |cs| && cs[i].entityId == cs[j].entityId ==> cs[i].sequence < cs[j].sequence
  }

  ghost predicate QueueFits(w: WorldState) {
    && StrictlySorted(w.pending)
    && SequencesFollowQueue(w.pending)
    && forall c :: c in w.pending ==> CommandFits(w, c)
  }

  ghost predicate IdsFit(w: WorldState) {
    && (forall id :: id in w.ids <==> id in w.entities)
    && forall i, j :: 0 <= i < j < |w.ids| ==> w.ids[i] < w.ids[j]
  }

  predicate ClockFits(c: Clock) {
    c.elapsed == c.index * c.duration
  }

  ghost predicate Valid(w: WorldState) {
    && LimitsAccepted(w.clock.duration, w.limits)
    && ClockFits(w.clock)
    && IdsFit(w)
    && w.entities.Keys == w.highest.Keys
    && w.entities.Keys == w.latest.Keys
    && (forall id :: id in w.entities ==> EntityFits(w, id, w.entities[id]))
    && QueueFits(w)
  }

  // ---------------------------------------------------------------- the unstable sort has one result

  lemma OrderTransitive(a: VelocityCommand, b: VelocityCommand, c: VelocityCommand)
    requires CommandOrder(a, b) && CommandOrder(b, c)
    ensures CommandOrder(a, c)
  {
  }

  lemma {:induction false} InsertContents(s: seq<VelocityCommand>, c: VelocityCommand)
    ensures multiset(Insert(s, c)) == multiset(s) + multiset{c}
    ensures forall x :: x in Insert(s, c) <==> x in s || x == c
    ensures |Insert(s, c)| == |s| + 1
  {
    if s != [] && !CommandOrder(c, s[0]) {
      InsertContents(s[1..], c);
      assert s == [s[0]] + s[1..];
    }
  }

  lemma {:induction false} InsertKeepsOrder(s: seq<VelocityCommand>, c: VelocityCommand)
    requires StrictlySorted(s)
    requires forall x :: x in s ==> !SameKey(x, c)
    ensures StrictlySorted(Insert(s, c))
  {
    if s != [] {
      if CommandOrder(c, s[0]) {
        forall j | 0 <= j < |s|
          ensures CommandOrder(c, s[j])
        {
          if j > 0 { OrderTransitive(c, s[0], s[j]); }
        }
      } else {
        assert !SameKey(s[0], c);
        InsertKeepsOrder(s[1..], c);
        InsertContents(s[1..], c);
        var t := Insert(s[1..], c);
        forall j | 0 <= j < |t|
          ensures CommandOrder(s[0], t[j])
        {
          assert t[j] in t;
        }
      }
    }
  }

  lemma {:induction false} InsertKeepsSequences(s: seq<VelocityCommand>, c: VelocityCommand)
    requires StrictlySorted(s) && SequencesFollowQueue(s)
    requires forall x :: x in s && x.entityId == c.entityId ==> x.sequence < c.sequence && CommandOrder(x, c)
    ensures SequencesFollowQueue(Insert(s, c))
  {
    if s != [] {
      if CommandOrder(c, s[0]) {
        forall j | 0 <= j < |s|
          ensures s[j].entityId != c.entityId
        {
          assert s[j] in s;
          if j > 0 { OrderTransitive(c, s[0], s[j]); }
        }
      } else {
        InsertKeepsSequences(s[1..], c);
        InsertContents(s[1..], c);
        var t := Insert(s[1..], c);
        forall j | 0 <= j < |t| && t[j].entityId == s[0].entityId
          ensures s[0].sequence < t[j].sequence
        {
          assert t[j] in t && s[0] in s;
        }
      }
    }
  }

  /** Two strictly sorted arrangements of the same commands are equal. */
  lemma {:induction false} SortedUnique(a: seq<VelocityCommand>, b: seq<VelocityCommand>)
    requires StrictlySorted(a) && StrictlySorted(b)
    requires multiset(a) == multiset(b)
    ensures a == b
  {
    if a == [] || b == [] {
      assert |a| == |multiset(a)| == |multiset(b)| == |b|;
    } else {
      SameFirst(a, b);
      TailContents(a);
      TailContents(b);
      SortedUnique(a[1..], b[1..]);
      assert a == [a[0]] + a[1..];
    }
  }

  lemma SameFirst(a: seq<VelocityCommand>, b: seq<VelocityCommand>)
    requires StrictlySorted(a) && StrictlySorted(b)
    requires a != [] && b != [] && multiset(a) == multiset(b)
    ensures a[0] == b[0]
  {
    assert a[0] in multiset(b) && b[0] in multiset(a);
    FirstIsLeast(a, b[0]);
    FirstIsLeast(b, a[0]);
  }

  lemma TailContents(a: seq<VelocityCommand>)
    requires a != []
    ensures multiset(a[1..]) == multiset(a) - multiset{a[0]}
  {
    assert a == [a[0]] + a[1..];
  }

  lemma FirstIsLeast(s: seq<VelocityCommand>, x: VelocityCommand)
    requires StrictlySorted(s) && x in s
    ensures x == s[0] || CommandOrder(s[0], x)
  {
  }

  /** Whatever `std::sort` does with the queue, there is one result: the keys of the input are
      distinct, so a permutation without inversions is the strictly sorted arrangement. */
  lemma SortHasOneResult(s: seq<VelocityCommand>, c: VelocityCommand, sorted: seq<VelocityCommand>)
    requires StrictlySorted(s)
    requires forall x :: x in s ==> !SameKey(x, c)
    requires NoInversion(sorted) && multiset(sorted) == multiset(s + [c])
    ensures sorted == Insert(s, c)
  {
    var t := Insert(s, c);
    InsertContents(s, c);
    InsertKeepsOrder(s, c);
    assert multiset(sorted) == multiset(t);
    forall i, j | 0 <= i < j < |sorted|
      ensures CommandOrder(sorted[i], sorted[j])
    {
      DistinctAt(t, sorted, i, j);
    }
    SortedUnique(sorted, t);
  }

  /** A permutation of commands with distinct keys has distinct keys. */
  lemma DistinctAt(t: seq<VelocityCommand>, p: seq<VelocityCommand>, i: nat, j: nat)
    requires StrictlySorted(t) && multiset(p) == multiset(t)
    requires i < j < |p|
    ensures !SameKey(p[i], p[j])
  {
    assert p[i] in multiset(t) && p[j] in multiset(t);
    var a :| 0 <= a < |t| && t[a] == p[i];
    var b :| 0 <= b < |t| && t[b] == p[j];
    CountAtMostOne(t, a);
    if a == b {
      CountAtLeastTwo(p, i, j);
    }
  }

  lemma CountAtMostOne(t: seq<VelocityCommand>, a: nat)
    requires StrictlySorted(t) && a < |t|
    ensures multiset(t)[t[a]] == 1
  {
    assert t == t[..a] + [t[a]] + t[a + 1..];
    assert t[a] !in t[..a] && t[a] !in t[a + 1..];
  }

  lemma CountAtLeastTwo(p: seq<VelocityCommand>, i: nat, j: nat)
    requires i < j < |p| && p[i] == p[j]
    ensures multiset(p)[p[i]] >= 2
  {
    assert p == p[..j] + [p[j]] + p[j + 1..];
    assert p[i] in p[..j];
  }

  // ---------------------------------------------------------------- what a tick does

  function DueCount(cs: seq<VelocityCommand>, tick: U64): (k: nat)
    ensures k <= |cs|
  {
    if cs == [] || cs[0].targetTick != tick then 0 else 1 + DueCount(cs[1..], tick)
  }

  /** The commands that the next tick applies, in the order in which it applies them. */
  function Due(cs: seq<VelocityCommand>, tick: U64): seq<VelocityCommand> {
    cs[..DueCount(cs, tick)]
  }

  function Later(cs: seq<VelocityCommand>, tick: U64): seq<VelocityCommand> {
    cs[DueCount(cs, tick)..]
  }

  /** What a list of commands makes of one entity. */
  function EntityAfter(cs: seq<VelocityCommand>, id: EntityId, s: StoredEntity): StoredEntity {
    if cs == [] then s
    else EntityAfter(cs[1..], id, if cs[0].entityId == id then ApplyCommand(s, cs[0]) else s)
  }

  /** Sorted with no stale command: the queue the tick loop relies on. */
  predicate Ripe(cs: seq<VelocityCommand>, tick: U64) {
    && StrictlySorted(cs)
    && forall c :: c in cs ==> c.targetTick >= tick
  }

  lemma RipeTail(cs: seq<VelocityCommand>, tick: U64)
    requires Ripe(cs, tick) && cs != []
    ensures Ripe(cs[1..], tick)
  {
  }

  lemma {:induction false} DueSplit(cs: seq<VelocityCommand>, tick: U64)
    requires Ripe(cs, tick)
    ensures forall i :: 0 <= i < DueCount(cs, tick) ==> cs[i].targetTick == tick
    ensures forall i :: DueCount(cs, tick) <= i < |cs| ==> cs[i].targetTick > tick
  {
    if cs != [] {
      if cs[0].targetTick == tick {
        RipeTail(cs, tick);
        DueSplit(cs[1..], tick);
        assert forall i :: 0 < i < |cs| ==> cs[i] == cs[1..][i - 1];
      } else {
        assert cs[0] in cs;
        assert forall i :: 0 < i < |cs| ==> CommandOrder(cs[0], cs[i]);
      }
    }
  }

  lemma {:induction false} RemoveDueIsLater(cs: seq<VelocityCommand>, tick: U64)
    requires Ripe(cs, tick)
    ensures RemoveDue(cs, tick) == Later(cs, tick)
  {
    if cs != [] {
      if cs[0].targetTick == tick {
        RipeTail(cs, tick);
        RemoveDueIsLater(cs[1..], tick);
      } else {
        DueSplit(cs, tick);
        NothingDue(cs, tick);
      }
    }
  }

  lemma {:induction false} NothingDue(cs: seq<VelocityCommand>, tick: U64)
    requires forall i :: 0 <= i < |cs| ==> cs[i].targetTick > tick
    ensures RemoveDue(cs, tick) == cs
  {
    if cs != [] {
      NothingDue(cs[1..], tick);
    }
  }

  lemma {:induction false} ApplyDueShape(cs: seq<VelocityCommand>, tick: U64, es: map<EntityId, StoredEntity>)
    requires Ripe(cs, tick)
    requires forall c :: c in cs ==> c.entityId in es
    ensures ApplyDue(cs, tick, es).Ok?
    ensures ApplyDue(cs, tick, es).value.Keys == es.Keys
    ensures forall id :: id in es ==> ApplyDue(cs, tick, es).value[id] == EntityAfter(Due(cs, tick), id, es[id])
  {
    if cs != [] {
      assert cs[0] in cs;
      if cs[0].targetTick == tick {
        var c := cs[0];
        var next := es[c.entityId := ApplyCommand(es[c.entityId], c)];
        RipeTail(cs, tick);
        assert next.Keys == es.Keys;
        ApplyDueShape(cs[1..], tick, next);
        assert Due(cs, tick) == [c] + Due(cs[1..], tick);
        assert Due(cs, tick)[1..] == Due(cs[1..], tick);
      }
    }
  }

  lemma {:induction false} IntegrateAllShape(ids: seq<EntityId>, es: map<EntityId, StoredEntity>, duration: Duration, limit: I64)
    requires forall id :: id in ids ==> id in es
    requires forall i, j :: 0 <= i < j < |ids| ==> ids[i] < ids[j]
    ensures IntegrateAll(ids, es, duration, limit).Ok? <==> forall id :: id in ids ==> IntegrateEntity(es[id], duration, limit).Ok?
    ensures IntegrateAll(ids, es, duration, limit).Ok? ==>
      var next := IntegrateAll(ids, es, duration, limit).value;
      && next.Keys == es.Keys
      && (forall id :: id in ids ==> Ok(next[id]) == IntegrateEntity(es[id], duration, limit))
      && (forall id :: id in es && id !in ids ==> next[id] == es[id])
  {
    if ids != [] {
      var id := ids[0];
      assert id in ids;
      assert ids == [id] + ids[1..];
      var step := IntegrateEntity(es[id], duration, limit);
      if step.Ok? {
        var next := es[id := step.value];
        assert id !in ids[1..];
        assert next.Keys == es.Keys;
        IntegrateAllShape(ids[1..], next, duration, limit);
        var rest := IntegrateAll(ids[1..], next, duration, limit);
        assert IntegrateAll(ids, es, duration, limit) == rest;
        assert forall x :: x in ids[1..] ==> next[x] == es[x];
        if rest.Ok? {
          assert rest.value[id] == next[id];
        }
      }
    }
  }

  lemma {:induction false} IntegrateAllErrors(ids: seq<EntityId>, es: map<EntityId, StoredEntity>, duration: Duration, limit: I64)
    requires forall id :: id in ids ==> id in es
    ensures IntegrateAll(ids, es, duration, limit).Err? ==>
      IntegrateAll(ids, es, duration, limit).error in {PositionOverflow, PositionLimit}
  {
    if ids != [] {
      assert ids[0] in ids;
      var step := IntegrateEntity(es[ids[0]], duration, limit);
      if step.Ok? {
        IntegrateAllErrors(ids[1..], es[ids[0] := step.value], duration, limit);
      }
    }
  }

  /** The entity as the tick integrates it: its due commands applied, not yet moved. */
  function Steered(w: WorldState, id: EntityId): StoredEntity
    requires id in w.entities && w.clock.index < TWO_64 - 1
  {
    EntityAfter(Due(w.pending, w.clock.index + 1), id, w.entities[id])
  }

  function Moved(w: WorldState, id: EntityId): Result<StoredEntity, AdvanceError>
    requires id in w.entities && w.clock.index < TWO_64 - 1
  {
    IntegrateEntity(Steered(w, id), w.clock.duration, w.limits.maxAbsPosition)
  }

  /** One tick of a valid world. Only elapsed time and positions can make it fail; the
      tick-index, stale-command and missing-entity branches are dead. */
  lemma AdvanceShape(w: WorldState)
    requires Valid(w)
    ensures w.clock.index < TWO_63
    ensures Advance(w).Ok? <==>
      w.clock.elapsed + w.clock.duration <= I64_MAX && forall id :: id in w.entities ==> Moved(w, id).Ok?
    ensures Advance(w).Err? ==> Advance(w).error in {ElapsedOverflow, PositionOverflow, PositionLimit}
    ensures Advance(w).Ok? ==> IsNextTick(w, Advance(w).value)
  {
    ProductAtLeast(w.clock.index, w.clock.duration);
    RipeAdvance(w);
  }

  ghost predicate IsNextTick(w: WorldState, next: WorldState)
    requires w.clock.index < TWO_64 - 1
  {
    && next.clock.duration == w.clock.duration
    && next.clock.index == w.clock.index + 1
    && next.clock.elapsed == w.clock.elapsed + w.clock.duration
    && next.pending == Later(w.pending, w.clock.index + 1)
    && next.limits == w.limits
    && next.ids == w.ids
    && next.highest == w.highest
    && next.latest == w.latest
    && next.entities.Keys == w.entities.Keys
    && forall id :: id in w.entities ==> Ok(next.entities[id]) == Moved(w, id)
  }

  lemma RipeAdvance(w: WorldState)
    requires w.clock.index < TWO_63
    requires Ripe(w.pending, w.clock.index + 1)
    requires forall c :: c in w.pending ==> c.entityId in w.entities
    requires IdsFit(w)
    ensures Advance(w).Ok? <==>
      w.clock.elapsed + w.clock.duration <= I64_MAX && forall id :: id in w.entities ==> Moved(w, id).Ok?
    ensures Advance(w).Err? ==> Advance(w).error in {ElapsedOverflow, PositionOverflow, PositionLimit}
    ensures Advance(w).Ok? ==> IsNextTick(w, Advance(w).value)
  {
    RemoveDueIsLater(w.pending, w.clock.index + 1);
    var es, moved := MovedAll(w);
    AdvanceUnfold(w, es, moved);
  }

  lemma AdvanceUnfold(w: WorldState, es: map<EntityId, StoredEntity>, moved: Result<map<EntityId, StoredEntity>, AdvanceError>)
    requires w.clock.index < TWO_63
    requires ApplyDue(w.pending, w.clock.index + 1, w.entities) == Ok(es)
    requires moved == IntegrateAll(w.ids, es, w.clock.duration, w.limits.maxAbsPosition)
    ensures Advance(w) ==
      if w.clock.elapsed + w.clock.duration > I64_MAX then Err(ElapsedOverflow)
      else if moved.Err? then Err(moved.error)
      else Ok(w.(clock := Clock(w.clock.duration, w.clock.index + 1, w.clock.elapsed + w.clock.duration),
                 entities := moved.value,
                 pending := RemoveDue(w.pending, w.clock.index + 1)))
  {
  }

  lemma MovedAll(w: WorldState)
    returns (es: map<EntityId, StoredEntity>, moved: Result<map<EntityId, StoredEntity>, AdvanceError>)
    requires w.clock.index < TWO_63
    requires Ripe(w.pending, w.clock.index + 1)
    requires forall c :: c in w.pending ==> c.entityId in w.entities
    requires IdsFit(w)
    ensures ApplyDue(w.pending, w.clock.index + 1, w.entities) == Ok(es)
    ensures moved == IntegrateAll(w.ids, es, w.clock.duration, w.limits.maxAbsPosition)
    ensures moved.Ok? <==> forall id :: id in w.entities ==> Moved(w, id).Ok?
    ensures moved.Err? ==> moved.error in {PositionOverflow, PositionLimit}
    ensures moved.Ok? ==> moved.value.Keys == w.entities.Keys
    ensures moved.Ok? ==> forall id :: id in w.entities ==> Ok(moved.value[id]) == Moved(w, id)
  {
    ApplyDueShape(w.pending, w.clock.index + 1, w.entities);
    es := ApplyDue(w.pending, w.clock.index + 1, w.entities).value;
    moved := IntegrateAll(w.ids, es, w.clock.duration, w.limits.maxAbsPosition);
    assert forall id :: id in w.entities ==> es[id] == Steered(w, id);
    IntegrateAllShape(w.ids, es, w.clock.duration, w.limits.maxAbsPosition);
    IntegrateAllErrors(w.ids, es, w.clock.duration, w.limits.maxAbsPosition);
  }

  lemma ProductAtLeast(i: nat, d: int)
    requires d >= 1
    ensures i <= i * d
  {
  }
}
