/** The mutable world and its clock, each method proved against the value-level operation. */
module World {
  import opened Integers
  import opened WorldModel
  import opened WorldInvariant
  import opened WorldSafety

  class FixedStepClock {
    const duration: Duration
    var index: U64
    var elapsed: I64

    constructor (duration: Duration)
      ensures View() == Clock(duration, 0, 0)
    {
      this.duration := duration;
      index := 0;
      elapsed := 0;
    }

    constructor Copy(other: FixedStepClock)
      ensures View() == other.View()
    {
      duration := other.duration;
      index := other.index;
      elapsed := other.elapsed;
    }

    function View(): Clock
      reads this
    {
      Clock(duration, index, elapsed)
    }

    method Advance() returns (r: Result<(), AdvanceError>)
      modifies this
      ensures match AdvanceClock(old(View()))
        case Ok(c) => r.Ok? && View() == c
        case Err(e) => r == Err(e) && View() == old(View())
      ensures r == Err(TickIndexOverflow) <==> old(index) == 0xffff_ffff_ffff_ffff
      ensures r == Err(ElapsedOverflow) <==> old(index) < 0xffff_ffff_ffff_ffff && old(elapsed) + duration > I64_MAX
      ensures r.Ok? <==> old(index) < 0xffff_ffff_ffff_ffff && old(elapsed) + duration <= I64_MAX
      ensures r.Ok? ==> index == old(index) + 1 && elapsed == old(elapsed) + duration
    {
      if index == TWO_64 - 1 {
        return Err(TickIndexOverflow);
      }
      if elapsed > I64_MAX - duration {
        return Err(ElapsedOverflow);
      }
      index := index + 1;
      elapsed := elapsed + duration;
      r := Ok(());
    }
  }

  /** `std::sort` with `command_order`. Callers learn only what the standard promises of an
      unstable sort: a permutation in which no later element precedes an earlier one. */
  method StdSort(s: seq<VelocityCommand>) returns (sorted: seq<VelocityCommand>)
    ensures NoInversion(sorted) && multiset(sorted) == multiset(s)
  {
    sorted := [];
    for i := 0 to |s|
      invariant NoInversion(sorted)
      invariant multiset(sorted) == multiset(s[..i])
    {
      InsertContents(sorted, s[i]);
      InsertNoInversion(sorted, s[i]);
      sorted := Insert(sorted, s[i]);
      assert s[..i + 1] == s[..i] + [s[i]];
    }
    assert s[..|s|] == s;
  }

  lemma {:induction false} InsertNoInversion(s: seq<VelocityCommand>, c: VelocityCommand)
    requires NoInversion(s)
    ensures NoInversion(Insert(s, c))
  {
    if s != [] {
      if CommandOrder(c, s[0]) {
        forall j | 0 <= j < |s|
          ensures !CommandOrder(s[j], c)
        {
          if CommandOrder(s[j], c) { OrderTransitive(s[j], c, s[0]); }
        }
      } else {
        InsertNoInversion(s[1..], c);
        InsertContents(s[1..], c);
        var t := Insert(s[1..], c);
        forall j | 0 <= j < |t|
          ensures !CommandOrder(t[j], s[0])
        {
          assert t[j] in t;
        }
      }
    }
  }

  class World {
    var clock: FixedStepClock
    const limits: WorldLimits
    var ids: seq<EntityId>
    var entities: map<EntityId, StoredEntity>
    var highest: map<EntityId, U64>
    var latest: map<EntityId, U64>
    var pending: seq<VelocityCommand>

    function View(): WorldState
      reads this, clock
    {
      WorldState(clock.View(), limits, ids, entities, highest, latest, pending)
    }

    /** The class invariant: every world that the constructor and the methods can produce. */
    ghost predicate Consistent()
      reads this, clock
    {
      Valid(View())
    }

    constructor (duration: Duration, limits: WorldLimits)
      requires LimitsAccepted(duration, limits)
      ensures Consistent() && fresh(clock)
      ensures View() == NewWorld(duration, limits)
    {
      this.limits := limits;
      clock := new FixedStepClock(duration);
      ids, entities, highest, latest, pending := [], map[], map[], map[], [];
      new;
      NewWorldValid(duration, limits);
    }

    constructor Copy(other: World)
      requires other.Consistent()
      ensures Consistent() && fresh(clock)
      ensures View() == other.View()
    {
      limits := other.limits;
      clock := new FixedStepClock.Copy(other.clock);
      ids, entities, highest, latest, pending := other.ids, other.entities, other.highest, other.latest, other.pending;
    }

    method AddEntity(e: EntityState) returns (r: AddEntityResult)
      requires Consistent()
      modifies this
      ensures Consistent() && clock == old(clock)
      ensures r == CheckEntity(old(View()), e)
      ensures View() == WorldModel.AddEntity(old(View()), e)
    {
      hide LimitsAccepted, ClockFits, IdsFit, EntityFits, QueueFits, InsertId;
      AddKeepsValid(View(), e);
      if e.id in entities {
        return DuplicateId;
      }
      if !VectorWithin(e.position, limits.maxAbsPosition) {
        return PositionOutOfRange;
      }
      if !VectorWithin(e.velocity, limits.maxAbsVelocity) {
        return AddEntityResult.VelocityOutOfRange;
      }
      ids := InsertId(ids, e.id);
      entities := entities[e.id := StoredEntity(e.(lastSequence := 0), 0, 0)];
      highest := highest[e.id := 0];
      latest := latest[e.id := clock.index];
      r := Added;
    }

    method QueueVelocity(c: VelocityCommand) returns (r: QueueResult)
      requires Consistent()
      modifies this
      ensures Consistent() && clock == old(clock)
      ensures r == CheckQueue(old(View()), c)
      ensures View() == Queue(old(View()), c)
    {
      hide LimitsAccepted, ClockFits, IdsFit, EntityFits, QueueFits, Insert, NoInversion;
      QueueKeepsValid(View(), c);
      if c.targetTick <= clock.index {
        return StaleTick;
      }
      if c.entityId !in entities {
        return UnknownEntity;
      }
      if c.sequence <= highest[c.entityId] {
        return SequenceNotIncreasing;
      }
      if c.targetTick < latest[c.entityId] {
        return TargetTickRegression;
      }
      if !VectorWithin(c.velocity, limits.maxAbsVelocity) {
        return QueueResult.VelocityOutOfRange;
      }
      ghost var before := View();
      highest := highest[c.entityId := c.sequence];
      latest := latest[c.entityId := c.targetTick];
      var sorted := StdSort(pending + [c]);
      AcceptedKeyIsNew(before, c);
      SortHasOneResult(before.pending, c, sorted);
      pending := sorted;
      r := Accepted;
    }

    /** Throws exactly when the value-level tick fails, and then changes nothing. */
    method Advance() returns (r: Result<(), AdvanceError>)
      requires Consistent()
      modifies this
      ensures Consistent()
      ensures match WorldModel.Advance(old(View()))
        case Ok(next) => r.Ok? && View() == next && fresh(clock)
        case Err(e) => r == Err(e) && View() == old(View()) && clock == old(clock)
    {
      hide Valid, ApplyDue, IntegrateAll, RemoveDue;
      ghost var before := View();
      var nextClock := new FixedStepClock.Copy(clock);
      var ticked := nextClock.Advance();
      if ticked.Err? {
        return Err(ticked.error);
      }
      var steered := ApplyDueCommands(pending, nextClock.index, entities);
      if steered.Err? {
        return Err(steered.error);
      }
      var moved := IntegrateEntities(ids, steered.value, clock.duration, limits.maxAbsPosition);
      if moved.Err? {
        return Err(moved.error);
      }
      AdvanceKeepsValid(before);
      clock := nextClock;
      entities := moved.value;
      pending := RemoveDueCommands(pending, nextClock.index);
      r := Ok(());
    }
  }

  /** The first loop of `advance`, on a copy of the entities. */
  method ApplyDueCommands(cs: seq<VelocityCommand>, tick: U64, entities: map<EntityId, StoredEntity>)
    returns (r: Result<map<EntityId, StoredEntity>, AdvanceError>)
    ensures r == ApplyDue(cs, tick, entities)
  {
    var next: map<EntityId, StoredEntity> := entities;
    var i := 0;
    while i < |cs|
      invariant 0 <= i <= |cs|
      invariant ApplyDue(cs, tick, entities) == ApplyDue(cs[i..], tick, next)
    {
      var c := cs[i];
      assert cs[i..][0] == c && cs[i..][1..] == cs[i + 1..];
      if c.targetTick < tick {
        return Err(StaleCommand);
      }
      if c.targetTick > tick {
        break;
      }
      if c.entityId !in next {
        return Err(MissingEntity);
      }
      next := next[c.entityId := ApplyCommand(next[c.entityId], c)];
      i := i + 1;
    }
    r := Ok(next);
  }

  /** The second loop of `advance`: every entity in id order. */
  method IntegrateEntities(ids: seq<EntityId>, entities: map<EntityId, StoredEntity>, duration: Duration, limit: I64)
    returns (r: Result<map<EntityId, StoredEntity>, AdvanceError>)
    ensures r == IntegrateAll(ids, entities, duration, limit)
  {
    hide IntegrateEntity;
    var next: map<EntityId, StoredEntity> := entities;
    for i := 0 to |ids|
      invariant IntegrateAll(ids, entities, duration, limit) == IntegrateAll(ids[i..], next, duration, limit)
    {
      var id := ids[i];
      assert ids[i..][0] == id && ids[i..][1..] == ids[i + 1..];
      if id !in next {
        return Err(MissingEntity);
      }
      var moved := IntegrateEntity(next[id], duration, limit);
      if moved.Err? {
        return Err(moved.error);
      }
      next := next[id := moved.value];
    }
    r := Ok(next);
  }

  /** `std::remove_if` and `erase`. */
  method RemoveDueCommands(cs: seq<VelocityCommand>, tick: U64) returns (kept: seq<VelocityCommand>)
    ensures kept == RemoveDue(cs, tick)
  {
    kept := [];
    for i := 0 to |cs|
      invariant RemoveDue(cs, tick) == kept + RemoveDue(cs[i..], tick)
    {
      assert cs[i..][0] == cs[i] && cs[i..][1..] == cs[i + 1..];
      if cs[i].targetTick != tick {
        kept := kept + [cs[i]];
      }
    }
  }

  lemma AcceptedKeyIsNew(w: WorldState, c: VelocityCommand)
    requires Valid(w) && CheckQueue(w, c) == Accepted
    ensures StrictlySorted(w.pending)
    ensures forall x :: x in w.pending ==> !SameKey(x, c)
  {
    hide LimitsAccepted, ClockFits, IdsFit, EntityFits;
    forall x | x in w.pending
      ensures !SameKey(x, c)
    {
      assert CommandFits(w, x);
    }
  }

  /** The checks of the constructors: a clock and limits that cannot overflow the integrator. */
  method MakeWorld(duration: I64, limits: WorldLimits) returns (w: World?)
    ensures w != null <==> duration > 0 && LimitsAccepted(duration, limits)
    ensures w != null ==> fresh(w) && w.Consistent() && w.View() == NewWorld(duration, limits)
  {
    if duration <= 0 {
      return null;
    }
    if limits.maxAbsPosition <= 0 || limits.maxAbsVelocity <= 0 {
      return null;
    }
    if limits.maxAbsVelocity > (I64_MAX - (MICROSECONDS_PER_SECOND - 1)) / duration {
      return null;
    }
    w := new World(duration, limits);
  }
}
