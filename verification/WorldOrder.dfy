/** Arrival order does not matter: at a fixed tick, calls that concern different entities
    commute, in their results and in the world they leave behind. */
module WorldOrder {
  import opened Integers
  import opened WorldModel
  import opened WorldInvariant
  import opened WorldSafety

  // ---------------------------------------------------------------- queue_velocity

  function QueueAll(w: WorldState, cs: seq<VelocityCommand>): WorldState
    decreases |cs|
  {
    if cs == [] then w else QueueAll(Queue(w, cs[0]), cs[1..])
  }

  function AcceptedOf(w: WorldState, cs: seq<VelocityCommand>): seq<VelocityCommand>
    decreases |cs|
  {
    if cs == [] then []
    else (if CheckQueue(w, cs[0]) == Accepted then [cs[0]] else []) + AcceptedOf(Queue(w, cs[0]), cs[1..])
  }

  /** The answers that the commands of one entity receive, in order. */
  function ResultsFor(w: WorldState, cs: seq<VelocityCommand>, id: EntityId): seq<QueueResult>
    decreases |cs|
  {
    if cs == [] then []
    else (if cs[0].entityId == id then [CheckQueue(w, cs[0])] else []) + ResultsFor(Queue(w, cs[0]), cs[1..], id)
  }

  function Only(cs: seq<VelocityCommand>, id: EntityId): seq<VelocityCommand> {
    if cs == [] then []
    else (if cs[0].entityId == id then [cs[0]] else []) + Only(cs[1..], id)
  }

  /** Everything about the world that the answer to a command of one entity depends on. */
  datatype Slot = Slot(index: U64, limit: I64, known: bool, highest: U64, latest: U64)

  function SlotOf(w: WorldState, id: EntityId): Slot {
    Slot(w.clock.index, w.limits.maxAbsVelocity, id in w.entities, Lookup(w.highest, id), Lookup(w.latest, id))
  }

  function CheckSlot(s: Slot, c: VelocityCommand): QueueResult {
    if c.targetTick <= s.index then StaleTick
    else if !s.known then UnknownEntity
    else if c.sequence <= s.highest then SequenceNotIncreasing
    else if c.targetTick < s.latest then TargetTickRegression
    else if !VectorWithin(c.velocity, s.limit) then QueueResult.VelocityOutOfRange
    else Accepted
  }

  function StepSlot(s: Slot, c: VelocityCommand): Slot {
    if CheckSlot(s, c) == Accepted then s.(highest := c.sequence, latest := c.targetTick) else s
  }

  datatype SlotRun = SlotRun(results: seq<QueueResult>, accepted: seq<VelocityCommand>, end: Slot)

  function RunSlot(s: Slot, cs: seq<VelocityCommand>): SlotRun
    decreases |cs|
  {
    if cs == [] then SlotRun([], [], s)
    else
      var rest := RunSlot(StepSlot(s, cs[0]), cs[1..]);
      SlotRun([CheckSlot(s, cs[0])] + rest.results,
              (if CheckSlot(s, cs[0]) == Accepted then [cs[0]] else []) + rest.accepted,
              rest.end)
  }

  lemma QueueIsLocal(w: WorldState, c: VelocityCommand, id: EntityId)
    ensures c.entityId == id ==> CheckQueue(w, c) == CheckSlot(SlotOf(w, id), c)
    ensures SlotOf(Queue(w, c), id) == if c.entityId == id then StepSlot(SlotOf(w, id), c) else SlotOf(w, id)
  {
    hide Insert, VectorWithin;
  }

  /** What happens to one entity is decided by its own commands alone. */
  lemma {:induction false} EntityRunIsLocal(w: WorldState, cs: seq<VelocityCommand>, id: EntityId)
    ensures ResultsFor(w, cs, id) == RunSlot(SlotOf(w, id), Only(cs, id)).results
    ensures Only(AcceptedOf(w, cs), id) == RunSlot(SlotOf(w, id), Only(cs, id)).accepted
    ensures SlotOf(QueueAll(w, cs), id) == RunSlot(SlotOf(w, id), Only(cs, id)).end
    decreases |cs|
  {
    hide Queue, CheckQueue, CheckSlot, StepSlot, SlotOf;
    if cs != [] {
      var c, next := cs[0], Queue(w, cs[0]);
      QueueIsLocal(w, c, id);
      EntityRunIsLocal(next, cs[1..], id);
      if c.entityId == id {
        assert Only(cs, id)[1..] == Only(cs[1..], id);
      } else {
        assert Only(cs, id) == Only(cs[1..], id);
      }
      OnlyOfHead(if CheckQueue(w, c) == Accepted then [c] else [], AcceptedOf(next, cs[1..]), id);
    }
  }

  lemma OnlyOfHead(head: seq<VelocityCommand>, tail: seq<VelocityCommand>, id: EntityId)
    requires |head| <= 1
    ensures Only(head + tail, id) == (if head != [] && head[0].entityId == id then head else []) + Only(tail, id)
  {
    if head != [] {
      assert (head + tail)[1..] == tail;
    } else {
      assert head + tail == tail;
    }
  }

  lemma {:induction false} CountOnly(cs: seq<VelocityCommand>, c: VelocityCommand)
    ensures multiset(cs)[c] == multiset(Only(cs, c.entityId))[c]
  {
    if cs != [] {
      CountOnly(cs[1..], c);
      assert cs == [cs[0]] + cs[1..];
    }
  }

  lemma {:induction false} QueueAllShape(w: WorldState, cs: seq<VelocityCommand>)
    requires Valid(w)
    ensures Valid(QueueAll(w, cs))
    ensures QueueAll(w, cs).clock == w.clock && QueueAll(w, cs).limits == w.limits
    ensures QueueAll(w, cs).ids == w.ids && QueueAll(w, cs).entities == w.entities
    ensures multiset(QueueAll(w, cs).pending) == multiset(w.pending) + multiset(AcceptedOf(w, cs))
    decreases |cs|
  {
    hide Valid, CheckQueue;
    if cs != [] {
      QueueKeepsValid(w, cs[0]);
      InsertContents(w.pending, cs[0]);
      QueueAllShape(Queue(w, cs[0]), cs[1..]);
    }
  }

  /** Any two orderings of the same commands that keep each entity's own order give every command
      the same answer and leave identical worlds. */
  lemma QueueOrderIsIrrelevant(w: WorldState, cs: seq<VelocityCommand>, ds: seq<VelocityCommand>)
    requires Valid(w)
    requires forall id :: Only(cs, id) == Only(ds, id)
    ensures QueueAll(w, cs) == QueueAll(w, ds)
    ensures forall id :: ResultsFor(w, cs, id) == ResultsFor(w, ds, id)
  {
    hide QueueAll, ResultsFor, AcceptedOf, Only, Valid;
    QueueAllShape(w, cs);
    QueueAllShape(w, ds);
    var a, b := QueueAll(w, cs), QueueAll(w, ds);
    forall id: EntityId
      ensures ResultsFor(w, cs, id) == ResultsFor(w, ds, id)
      ensures SlotOf(a, id) == SlotOf(b, id)
    {
      EntityRunIsLocal(w, cs, id);
      EntityRunIsLocal(w, ds, id);
    }
    SameMaps(a, b);
    forall c: VelocityCommand
      ensures multiset(AcceptedOf(w, cs))[c] == multiset(AcceptedOf(w, ds))[c]
    {
      EntityRunIsLocal(w, cs, c.entityId);
      EntityRunIsLocal(w, ds, c.entityId);
      CountOnly(AcceptedOf(w, cs), c);
      CountOnly(AcceptedOf(w, ds), c);
    }
    assert multiset(AcceptedOf(w, cs)) == multiset(AcceptedOf(w, ds));
    SamePending(a, b);
  }

  lemma SameMaps(a: WorldState, b: WorldState)
    requires Valid(a) && Valid(b) && a.entities == b.entities
    requires forall id :: SlotOf(a, id) == SlotOf(b, id)
    ensures a.highest == b.highest && a.latest == b.latest
  {
    hide LimitsAccepted, QueueFits, EntityFits, IdsFit, ClockFits;
    forall id | id in a.entities
      ensures a.highest[id] == b.highest[id] && a.latest[id] == b.latest[id]
    {
      assert SlotOf(a, id) == SlotOf(b, id);
    }
  }

  lemma SamePending(a: WorldState, b: WorldState)
    requires Valid(a) && Valid(b)
    requires multiset(a.pending) == multiset(b.pending)
    ensures a.pending == b.pending
  {
    hide LimitsAccepted, EntityFits, IdsFit, ClockFits, CommandFits;
    SortedUnique(a.pending, b.pending);
  }

  // ---------------------------------------------------------------- add_entity

  function AddAll(w: WorldState, es: seq<EntityState>): WorldState
    decreases |es|
  {
    if es == [] then w else AddAll(AddEntity(w, es[0]), es[1..])
  }

  predicate DistinctIds(es: seq<EntityState>) {
    forall i, j :: 0 <= i < j < |es| ==> es[i].id != es[j].id
  }

  /** What the world holds under an id: the entity and its two map entries. */
  datatype Holding = Nothing | Holding(stored: StoredEntity, highest: U64, latest: U64)

  function Held(w: WorldState, id: EntityId): Holding {
    if id in w.entities then Holding(w.entities[id], Lookup(w.highest, id), Lookup(w.latest, id)) else Nothing
  }

  function Fresh(w: WorldState, e: EntityState): Holding {
    Holding(StoredEntity(e.(lastSequence := 0), 0, 0), 0, w.clock.index)
  }

  /** Each call is answered as if it came first, and leaves its own entity behind. */
  lemma {:induction false} AddAllShape(w: WorldState, es: seq<EntityState>)
    requires Valid(w) && DistinctIds(es)
    ensures Valid(AddAll(w, es))
    ensures AddAll(w, es).clock == w.clock && AddAll(w, es).limits == w.limits && AddAll(w, es).pending == w.pending
    ensures forall e :: e in es ==>
      Held(AddAll(w, es), e.id) == if CheckEntity(w, e) == Added then Fresh(w, e) else Held(w, e.id)
    ensures forall id :: (forall e :: e in es ==> e.id != id) ==> Held(AddAll(w, es), id) == Held(w, id)
    decreases |es|
  {
    hide Valid, InsertId, VectorWithin;
    if es != [] {
      var first, rest, next := es[0], es[1..], AddEntity(w, es[0]);
      AddKeepsValid(w, first);
      AddAllShape(next, rest);
      assert es == [first] + rest;
      forall e | e in rest
        ensures CheckEntity(next, e) == CheckEntity(w, e) && Fresh(next, e) == Fresh(w, e) && Held(next, e.id) == Held(w, e.id)
      {
        assert e.id != first.id;
      }
      assert forall e :: e in rest ==> e.id != first.id;
    }
  }

  /** The answer that one of the calls gets when its turn comes. */
  function AddAnswer(w: WorldState, es: seq<EntityState>, e: EntityState): AddEntityResult
    requires e in es
    decreases |es|
  {
    if es[0] == e then CheckEntity(w, e) else AddAnswer(AddEntity(w, es[0]), es[1..], e)
  }

  lemma {:induction false} AnswersAreLocal(w: WorldState, es: seq<EntityState>, e: EntityState)
    requires DistinctIds(es) && e in es
    ensures AddAnswer(w, es, e) == CheckEntity(w, e)
    decreases |es|
  {
    hide InsertId, VectorWithin;
    if es[0] != e {
      assert e in es[1..] && e.id != es[0].id;
      AnswersAreLocal(AddEntity(w, es[0]), es[1..], e);
    }
  }

  /** Any two orderings of `add_entity` calls on distinct ids give every call the same answer and
      leave identical worlds. */
  lemma AddOrderIsIrrelevant(w: WorldState, es: seq<EntityState>, fs: seq<EntityState>)
    requires Valid(w) && DistinctIds(es) && DistinctIds(fs)
    requires forall e :: e in es <==> e in fs
    ensures AddAll(w, es) == AddAll(w, fs)
    ensures forall e :: e in es ==> AddAnswer(w, es, e) == AddAnswer(w, fs, e)
  {
    hide AddAll, AddAnswer, Valid, CheckEntity, Held, Fresh;
    forall e | e in es
      ensures AddAnswer(w, es, e) == AddAnswer(w, fs, e)
    {
      AnswersAreLocal(w, es, e);
      AnswersAreLocal(w, fs, e);
    }
    AddAllShape(w, es);
    AddAllShape(w, fs);
    var a, b := AddAll(w, es), AddAll(w, fs);
    forall id: EntityId
      ensures Held(a, id) == Held(b, id)
    {
      if e :| e in es && e.id == id {
        assert e in fs;
      }
    }
    SameHoldings(a, b);
  }

  lemma SameHoldings(a: WorldState, b: WorldState)
    requires Valid(a) && Valid(b)
    requires forall id :: Held(a, id) == Held(b, id)
    ensures a.entities == b.entities && a.highest == b.highest && a.latest == b.latest && a.ids == b.ids
  {
    hide LimitsAccepted, EntityFits, ClockFits, QueueFits, IdsFit;
    forall id: EntityId
      ensures id in a.entities <==> id in b.entities
      ensures id in a.entities ==> a.entities[id] == b.entities[id] && a.highest[id] == b.highest[id] && a.latest[id] == b.latest[id]
    {
      assert Held(a, id) == Held(b, id);
    }
    SameIds(a, b);
  }

  lemma SameIds(a: WorldState, b: WorldState)
    requires IdsFit(a) && IdsFit(b)
    requires forall id :: id in a.entities <==> id in b.entities
    ensures a.ids == b.ids
  {
    IncreasingUnique(a.ids, b.ids);
  }

  lemma {:induction false} IncreasingUnique(a: seq<EntityId>, b: seq<EntityId>)
    requires forall i, j :: 0 <= i < j < |a| ==> a[i] < a[j]
    requires forall i, j :: 0 <= i < j < |b| ==> b[i] < b[j]
    requires forall x :: x in a <==> x in b
    ensures a == b
  {
    assert a != [] ==> a[0] in b;
    assert b != [] ==> b[0] in a;
    if a != [] {
      assert a[0] == b[0];
      TailMembers(a);
      TailMembers(b);
      IncreasingUnique(a[1..], b[1..]);
      assert a == [a[0]] + a[1..] && b == [b[0]] + b[1..];
    }
  }

  lemma TailMembers(a: seq<EntityId>)
    requires a != [] && forall i, j :: 0 <= i < j < |a| ==> a[i] < a[j]
    ensures forall x :: x in a[1..] <==> x in a && x != a[0]
  {
    assert a == [a[0]] + a[1..];
    assert a[0] !in a[1..];
  }
}
