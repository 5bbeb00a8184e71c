/** Whole runs of a world: safety, and conservation of commands. */
module WorldRuns {
  import opened Integers
  import opened WorldModel
  import opened WorldInvariant
  import opened WorldSafety

  datatype WorldOp = Add(entity: EntityState) | Enqueue(command: VelocityCommand) | Tick

  /** One call on the world. A call that is refused or throws leaves the world as it was. */
  function Step(w: WorldState, op: WorldOp): WorldState {
    match op
    case Add(e) => AddEntity(w, e)
    case Enqueue(c) => Queue(w, c)
    case Tick => if Advance(w).Ok? then Advance(w).value else w
  }

  function Run(w: WorldState, ops: seq<WorldOp>): WorldState
    decreases |ops|
  {
    if ops == [] then w else Run(Step(w, ops[0]), ops[1..])
  }

  lemma StepKeepsValid(w: WorldState, op: WorldOp)
    requires Valid(w)
    ensures Valid(Step(w, op))
  {
    match op
    case Add(e) => AddKeepsValid(w, e);
    case Enqueue(c) => QueueKeepsValid(w, c);
    case Tick => if Advance(w).Ok? { AdvanceKeepsValid(w); }
  }

  /** Safety of every reachable world. */
  lemma {:induction false} RunKeepsValid(w: WorldState, ops: seq<WorldOp>)
    requires Valid(w)
    ensures Valid(Run(w, ops))
    decreases |ops|
  {
    hide Valid, Step;
    if ops != [] {
      StepKeepsValid(w, ops[0]);
      RunKeepsValid(Step(w, ops[0]), ops[1..]);
    }
  }

  /** The guards of `advance` that no reachable world can trip. */
  lemma DeadBranches(duration: Duration, limits: WorldLimits, ops: seq<WorldOp>)
    requires LimitsAccepted(duration, limits)
    ensures var w := Run(NewWorld(duration, limits), ops);
      && Advance(w) != Err(TickIndexOverflow)
      && Advance(w) != Err(StaleCommand)
      && Advance(w) != Err(MissingEntity)
      && w.entities.Keys == w.highest.Keys == w.latest.Keys
  {
    NewWorldValid(duration, limits);
    RunKeepsValid(NewWorld(duration, limits), ops);
    AdvanceShape(Run(NewWorld(duration, limits), ops));
  }

  predicate FitsI64(v: int) {
    I64_MIN <= v <= I64_MAX
  }

  /** The products and sums that `integrate_axis` forms for one axis stay inside int64. */
  predicate AxisFits(velocity: int, duration: int, residual: int) {
    FitsI64(velocity * duration) && FitsI64(velocity * duration + residual)
  }

  /** Signed overflow is undefined in the source, and no run reaches it: for every entity as the
      next tick integrates it, velocity times duration, and that plus the residual, fit int64. */
  lemma IntegrationNeverOverflows(duration: Duration, limits: WorldLimits, ops: seq<WorldOp>, id: EntityId)
    requires LimitsAccepted(duration, limits)
    requires id in Run(NewWorld(duration, limits), ops).entities
    ensures var w := Run(NewWorld(duration, limits), ops);
      && w.clock.index < TWO_63
      && var s := Steered(w, id);
        && AxisFits(s.state.velocity.x, w.clock.duration, s.residualX)
        && AxisFits(s.state.velocity.y, w.clock.duration, s.residualY)
  {
    hide Run, NewWorld, Advance, LimitsAccepted, Steered;
    NewWorldValid(duration, limits);
    RunKeepsValid(NewWorld(duration, limits), ops);
    var w := Run(NewWorld(duration, limits), ops);
    AdvanceShape(w);
    assert EntityFits(w, id, w.entities[id]);
    SteeredFits(w, id);
    var s := Steered(w, id);
    ScaledDisplacementFits(w, s.state.velocity.x, s.residualX);
    ScaledDisplacementFits(w, s.state.velocity.y, s.residualY);
  }

  // ---------------------------------------------------------------- conservation of commands

  datatype Application = Application(tick: U64, command: VelocityCommand)

  function AcceptedBy(w: WorldState, op: WorldOp): seq<VelocityCommand> {
    if op.Enqueue? && CheckQueue(w, op.command) == Accepted then [op.command] else []
  }

  function AppliedBy(w: WorldState, op: WorldOp): seq<Application> {
    if op.Tick? && Advance(w).Ok? then
      var due := Due(w.pending, w.clock.index + 1);
      seq(|due|, i requires 0 <= i < |due| => Application(w.clock.index + 1, due[i]))
    else []
  }

  function AcceptedIn(w: WorldState, ops: seq<WorldOp>): seq<VelocityCommand>
    decreases |ops|
  {
    if ops == [] then [] else AcceptedBy(w, ops[0]) + AcceptedIn(Step(w, ops[0]), ops[1..])
  }

  function AppliedIn(w: WorldState, ops: seq<WorldOp>): seq<Application>
    decreases |ops|
  {
    if ops == [] then [] else AppliedBy(w, ops[0]) + AppliedIn(Step(w, ops[0]), ops[1..])
  }

  function Commands(xs: seq<Application>): (cs: seq<VelocityCommand>)
    ensures |cs| == |xs|
    ensures forall i :: 0 <= i < |xs| ==> cs[i] == xs[i].command
  {
    seq(|xs|, i requires 0 <= i < |xs| => xs[i].command)
  }

  lemma StepConserves(w: WorldState, op: WorldOp)
    requires Valid(w)
    ensures multiset(w.pending) + multiset(AcceptedBy(w, op)) ==
      multiset(Commands(AppliedBy(w, op))) + multiset(Step(w, op).pending)
  {
    hide Valid, Advance;
    match op
    case Add(_) =>
    case Enqueue(c) =>
      InsertContents(w.pending, c);
    case Tick =>
      if Advance(w).Ok? {
        AdvanceShape(w);
        var tick := w.clock.index + 1;
        assert Commands(AppliedBy(w, op)) == Due(w.pending, tick);
        assert w.pending == Due(w.pending, tick) + Later(w.pending, tick);
      }
  }

  lemma CommandsAppend(a: seq<Application>, b: seq<Application>)
    ensures multiset(Commands(a + b)) == multiset(Commands(a)) + multiset(Commands(b))
  {
    assert Commands(a + b) == Commands(a) + Commands(b);
  }

  /** Accepted commands, with those pending at the start, are exactly those applied and those
      pending at the end. */
  lemma {:induction false} CommandsAreConserved(w: WorldState, ops: seq<WorldOp>)
    requires Valid(w)
    ensures multiset(w.pending) + multiset(AcceptedIn(w, ops)) ==
      multiset(Commands(AppliedIn(w, ops))) + multiset(Run(w, ops).pending)
    decreases |ops|
  {
    hide Valid, Step, AcceptedBy, AppliedBy;
    if ops != [] {
      var next := Step(w, ops[0]);
      StepKeepsValid(w, ops[0]);
      StepConserves(w, ops[0]);
      CommandsAreConserved(next, ops[1..]);
      CommandsAppend(AppliedBy(w, ops[0]), AppliedIn(next, ops[1..]));
      assert AppliedIn(w, ops) == AppliedBy(w, ops[0]) + AppliedIn(next, ops[1..]);
      assert multiset(AcceptedIn(w, ops)) == multiset(AcceptedBy(w, ops[0])) + multiset(AcceptedIn(next, ops[1..]));
      calc {
        multiset(w.pending) + multiset(AcceptedIn(w, ops));
        multiset(w.pending) + multiset(AcceptedBy(w, ops[0])) + multiset(AcceptedIn(next, ops[1..]));
        multiset(Commands(AppliedBy(w, ops[0]))) + (multiset(next.pending) + multiset(AcceptedIn(next, ops[1..])));
        multiset(Commands(AppliedIn(w, ops))) + multiset(Run(w, ops).pending);
      }
    }
  }

  lemma StepClock(w: WorldState, op: WorldOp)
    requires Valid(w)
    ensures Step(w, op).clock.duration == w.clock.duration
    ensures Step(w, op).limits == w.limits
    ensures Step(w, op).clock.index == if op.Tick? && Advance(w).Ok? then w.clock.index + 1 else w.clock.index
  {
    AdvanceShape(w);
  }

  /** Every command is applied at its own target tick, inside the run. */
  lemma {:induction false} AppliedOnTime(w: WorldState, ops: seq<WorldOp>)
    requires Valid(w)
    ensures w.clock.index <= Run(w, ops).clock.index
    ensures forall x :: x in AppliedIn(w, ops) ==>
      x.tick == x.command.targetTick && w.clock.index < x.tick <= Run(w, ops).clock.index
    decreases |ops|
  {
    hide Valid, Step, Advance;
    if ops != [] {
      var op, next := ops[0], Step(w, ops[0]);
      StepKeepsValid(w, op);
      StepClock(w, op);
      AppliedOnTime(next, ops[1..]);
      if op.Tick? && Advance(w).Ok? {
        AdvanceShape(w);
        DueOnTime(w);
      }
    }
  }

  lemma DueOnTime(w: WorldState)
    requires Valid(w) && w.clock.index < TWO_63
    ensures forall c :: c in Due(w.pending, w.clock.index + 1) ==> c.targetTick == w.clock.index + 1
  {
    hide LimitsAccepted, EntityFits;
    assert Ripe(w.pending, w.clock.index + 1);
    DueSplit(w.pending, w.clock.index + 1);
  }

  /** The highest sequence that an entity has been given so far; zero before it exists. */
  function Highest(w: WorldState, id: EntityId): U64 {
    Lookup(w.highest, id)
  }

  /** Accepted sequences increase strictly within each entity, over the whole run. */
  lemma {:induction false} AcceptedSequencesIncrease(w: WorldState, ops: seq<WorldOp>)
    requires Valid(w)
    ensures forall i :: 0 <= i < |AcceptedIn(w, ops)| ==>
      AcceptedIn(w, ops)[i].sequence > Highest(w, AcceptedIn(w, ops)[i].entityId)
    ensures SequencesFollowQueue(AcceptedIn(w, ops))
    decreases |ops|
  {
    hide Valid, Advance;
    if ops != [] {
      var op, next := ops[0], Step(w, ops[0]);
      StepKeepsValid(w, op);
      AcceptedSequencesIncrease(next, ops[1..]);
      HighestGrows(w, op);
      var head, tail := AcceptedBy(w, op), AcceptedIn(next, ops[1..]);
      assert AcceptedIn(w, ops) == head + tail;
      if head != [] {
        assert Highest(next, head[0].entityId) == head[0].sequence;
      }
    }
  }

  lemma HighestGrows(w: WorldState, op: WorldOp)
    requires Valid(w)
    ensures forall id :: Highest(w, id) <= Highest(Step(w, op), id)
  {
    AdvanceShape(w);
  }

  /** No command occurs twice among those pending at the start and those accepted. */
  lemma NoCommandTwice(w: WorldState, ops: seq<WorldOp>, c: VelocityCommand)
    requires Valid(w)
    ensures (multiset(w.pending) + multiset(AcceptedIn(w, ops)))[c] <= 1
  {
    hide AcceptedIn, LimitsAccepted, EntityFits;
    AcceptedSequencesIncrease(w, ops);
    var all := w.pending + AcceptedIn(w, ops);
    forall i, j | 0 <= i < j < |all| && all[i].entityId == all[j].entityId
      ensures all[i].sequence < all[j].sequence
    {
      if i < |w.pending| {
        assert CommandFits(w, w.pending[i]);
      }
    }
    DistinctCommands(all, c);
  }

  lemma DistinctCommands(all: seq<VelocityCommand>, c: VelocityCommand)
    requires SequencesFollowQueue(all)
    ensures multiset(all)[c] <= 1
  {
    if c in all {
      var k :| 0 <= k < |all| && all[k] == c;
      assert all == all[..k] + [c] + all[k + 1..];
      assert c !in all[..k] && c !in all[k + 1..];
    }
  }

  /** Each accepted command is applied exactly once if its target tick has been reached, and is
      pending exactly once otherwise. */
  lemma AppliedExactlyOnce(w: WorldState, ops: seq<WorldOp>, c: VelocityCommand)
    requires Valid(w)
    requires c in AcceptedIn(w, ops)
    ensures c.targetTick <= Run(w, ops).clock.index ==>
      multiset(Commands(AppliedIn(w, ops)))[c] == 1 && c !in Run(w, ops).pending
    ensures c.targetTick > Run(w, ops).clock.index ==>
      multiset(Run(w, ops).pending)[c] == 1 && c !in Commands(AppliedIn(w, ops))
  {
    hide Run, AcceptedIn, AppliedIn;
    var end, applied := Run(w, ops), Commands(AppliedIn(w, ops));
    CommandsAreConserved(w, ops);
    NoCommandTwice(w, ops, c);
    RunKeepsValid(w, ops);
    AppliedOnTime(w, ops);
    assert multiset(AcceptedIn(w, ops))[c] >= 1;
    if c in end.pending {
      assert CommandFits(end, c);
    }
    if c in applied {
      var k :| 0 <= k < |applied| && applied[k] == c;
      assert AppliedIn(w, ops)[k] in AppliedIn(w, ops);
    }
  }

  /** A command for `id` that is due at the next tick, with the highest sequence of those. */
  ghost predicate TopDue(w: WorldState, id: EntityId, top: VelocityCommand) {
    && top in w.pending && top.entityId == id && top.targetTick == w.clock.index + 1
    && forall d :: d in w.pending && d.entityId == id && d.targetTick == w.clock.index + 1 ==> d.sequence <= top.sequence
  }

  ghost predicate NoneDue(w: WorldState, id: EntityId) {
    forall d :: d in w.pending && d.entityId == id ==> d.targetTick > w.clock.index + 1
  }

  /** After a tick an entity has the velocity and sequence of its due command with the highest
      sequence, or keeps what it had. */
  lemma VelocityAfterTick(w: WorldState, next: WorldState, id: EntityId)
    requires Valid(w) && Advance(w) == Ok(next) && id in w.entities && id in next.entities
    ensures
      var before, after := w.entities[id].state, next.entities[id].state;
      || (NoneDue(w, id) && after.velocity == before.velocity && after.lastSequence == before.lastSequence)
      || exists top :: TopDue(w, id, top) && after.velocity == top.velocity && after.lastSequence == top.sequence > before.lastSequence
  {
    hide Advance, LimitsAccepted, Moved, IntegrateEntity;
    AdvanceShape(w);
    var due := Due(w.pending, w.clock.index + 1);
    assert EntityFits(w, id, w.entities[id]);
    SteeredFits(w, id);
    MovedFits(w, id);
    var k := LastCommand(due, id, w.entities[id]);
    LastIsTop(w, id, k);
    if k >= 0 {
      assert due[k] == w.pending[k] && CommandFits(w, w.pending[k]);
    }
  }

  lemma LastIsTop(w: WorldState, id: EntityId, k: int)
    requires QueueFits(w) && w.clock.index < TWO_63
    requires var due := Due(w.pending, w.clock.index + 1);
      -1 <= k < |due| && (k >= 0 ==> due[k].entityId == id) && forall j :: k < j < |due| ==> due[j].entityId != id
    ensures k < 0 ==> NoneDue(w, id)
    ensures k >= 0 ==> TopDue(w, id, w.pending[k])
  {
    var tick := w.clock.index + 1;
    var due := Due(w.pending, tick);
    assert Ripe(w.pending, tick);
    DueSplit(w.pending, tick);
    forall d | d in w.pending && d.entityId == id
      ensures d.targetTick > tick || (k >= 0 && d.targetTick == tick && d.sequence <= w.pending[k].sequence)
    {
      var j :| 0 <= j < |w.pending| && w.pending[j] == d;
      if j < |due| {
        assert due[j] == d;
      }
    }
  }

  lemma {:induction false} LastSequenceNeverDecreases(w: WorldState, ops: seq<WorldOp>, id: EntityId)
    requires Valid(w) && id in w.entities
    ensures id in Run(w, ops).entities
    ensures w.entities[id].state.lastSequence <= Run(w, ops).entities[id].state.lastSequence
    decreases |ops|
  {
    hide Valid, Advance;
    if ops != [] {
      StepKeepsValid(w, ops[0]);
      if ops[0].Tick? && Advance(w).Ok? {
        AdvanceShape(w);
        VelocityAfterTick(w, Advance(w).value, id);
      }
      LastSequenceNeverDecreases(Step(w, ops[0]), ops[1..], id);
    }
  }
}
