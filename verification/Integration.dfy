/** Fixed-step integration loses nothing: the residual carries exactly what rounding drops. */
module Integration {
  import opened Integers
  import opened WorldModel
  import opened WorldInvariant
  import opened WorldSafety
  import opened WorldRuns

  datatype Dimension = X | Y

  function Position(s: StoredEntity, dim: Dimension): I64 {
    if dim == X then s.state.position.x else s.state.position.y
  }

  function Velocity(s: StoredEntity, dim: Dimension): I64 {
    if dim == X then s.state.velocity.x else s.state.velocity.y
  }

  function Residual(s: StoredEntity, dim: Dimension): I64 {
    if dim == X then s.residualX else s.residualY
  }

  /** Displacement in millionths of a millimetre. */
  function Exact(s: StoredEntity, dim: Dimension): int {
    Position(s, dim) * 1_000_000 + Residual(s, dim)
  }

  lemma AxisIsExact(position: I64, velocity: I64, residual: I64, duration: Duration, limit: I64)
    requires IntegrateAxis(position, velocity, residual, duration, limit).Ok?
    ensures var a := IntegrateAxis(position, velocity, residual, duration, limit).value;
      && a.position * 1_000_000 + a.residual == position * 1_000_000 + residual + velocity * duration
      && a.residual == TruncMod(velocity * duration + residual, 1_000_000)
  {
    var scaled := velocity * duration + residual;
    TruncUnique(scaled, 1_000_000, TruncDiv(scaled, 1_000_000), TruncMod(scaled, 1_000_000));
  }

  lemma EntityIsExact(s: StoredEntity, duration: Duration, limit: I64, dim: Dimension)
    requires IntegrateEntity(s, duration, limit).Ok?
    ensures var after := IntegrateEntity(s, duration, limit).value;
      && Velocity(after, dim) == Velocity(s, dim)
      && Exact(after, dim) == Exact(s, dim) + Velocity(s, dim) * duration
      && Residual(after, dim) == TruncMod(Velocity(s, dim) * duration + Residual(s, dim), 1_000_000)
  {
    hide IntegrateAxis, TruncMod;
    AxisIsExact(s.state.position.x, s.state.velocity.x, s.residualX, duration, limit);
    AxisIsExact(s.state.position.y, s.state.velocity.y, s.residualY, duration, limit);
  }

  /** Commands change velocities only. */
  lemma SteeringKeepsPlace(w: WorldState, id: EntityId, dim: Dimension)
    requires id in w.entities && w.clock.index < TWO_64 - 1
    ensures Exact(Steered(w, id), dim) == Exact(w.entities[id], dim)
    ensures Residual(Steered(w, id), dim) == Residual(w.entities[id], dim)
  {
    var k := LastCommand(Due(w.pending, w.clock.index + 1), id, w.entities[id]);
  }

  /** One tick moves an entity by its velocity times the tick duration, exactly. */
  lemma TickIsExact(w: WorldState, next: WorldState, id: EntityId, dim: Dimension)
    requires Valid(w) && Advance(w) == Ok(next) && id in w.entities && id in next.entities
    ensures var v := Velocity(next.entities[id], dim);
      && Exact(next.entities[id], dim) == Exact(w.entities[id], dim) + v * w.clock.duration
      && Residual(next.entities[id], dim) == TruncMod(v * w.clock.duration + Residual(w.entities[id], dim), 1_000_000)
  {
    hide Valid, Advance, Exact, Residual, Velocity, IntegrateEntity, EntityAfter, Due;
    AdvanceShape(w);
    EntityIsExact(Steered(w, id), w.clock.duration, w.limits.maxAbsPosition, dim);
    SteeringKeepsPlace(w, id, dim);
  }

  /** The velocities in force during the successful ticks of a run, summed. */
  function VelocitySum(w: WorldState, ops: seq<WorldOp>, id: EntityId, dim: Dimension): int
    decreases |ops|
  {
    if ops == [] then 0
    else
      var next := Step(w, ops[0]);
      (if Ticks(w, ops[0]) && id in next.entities then Velocity(next.entities[id], dim) else 0)
        + VelocitySum(next, ops[1..], id, dim)
  }

  predicate Ticks(w: WorldState, op: WorldOp) {
    op.Tick? && Advance(w).Ok?
  }

  function TickCount(w: WorldState, ops: seq<WorldOp>): nat
    decreases |ops|
  {
    if ops == [] then 0 else (if Ticks(w, ops[0]) then 1 else 0) + TickCount(Step(w, ops[0]), ops[1..])
  }

  lemma StepKeepsEntity(w: WorldState, op: WorldOp, id: EntityId)
    requires Valid(w) && id in w.entities
    ensures id in Step(w, op).entities
    ensures if Ticks(w, op) then Advance(w) == Ok(Step(w, op)) else Step(w, op).entities[id] == w.entities[id]
  {
    hide Advance, Valid, InsertId, Insert, CheckEntity, CheckQueue, Moved, Later;
    AdvanceShape(w);
    if op.Add? {
      AddKeepsOthers(w, op, id);
    }
  }

  lemma AddKeepsOthers(w: WorldState, op: WorldOp, id: EntityId)
    requires id in w.entities && op.Add?
    ensures id in AddEntity(w, op.entity).entities && AddEntity(w, op.entity).entities[id] == w.entities[id]
  {
    hide InsertId, VectorWithin;
  }

  lemma ProductOfSum(a: int, b: int, c: int)
    ensures a * (b + c) == b * a + a * c
  {
  }

  /** Over every run, position and residual together equal the starting value plus the tick
      duration times the velocities in force. */
  lemma {:induction false} RunIsExact(w: WorldState, ops: seq<WorldOp>, id: EntityId, dim: Dimension)
    requires Valid(w) && id in w.entities
    ensures id in Run(w, ops).entities
    ensures Exact(Run(w, ops).entities[id], dim) ==
      Exact(w.entities[id], dim) + w.clock.duration * VelocitySum(w, ops, id, dim)
    decreases |ops|
  {
    hide Valid, Advance, Exact, Velocity, Step;
    if ops != [] {
      var op, next := ops[0], Step(w, ops[0]);
      StepKeepsValid(w, op);
      StepKeepsEntity(w, op, id);
      StepClock(w, op);
      if Ticks(w, op) {
        TickIsExact(w, next, id, dim);
      }
      RunIsExact(next, ops[1..], id, dim);
      ProductOfSum(w.clock.duration, Velocity(next.entities[id], dim), VelocitySum(next, ops[1..], id, dim));
    }
  }

  /** The stored position is always less than one millimetre away from the exact one. */
  lemma PositionWithinOneMillimetre(w: WorldState, ops: seq<WorldOp>, id: EntityId, dim: Dimension)
    requires Valid(w) && id in w.entities
    ensures id in Run(w, ops).entities
    ensures
      var exact := Exact(w.entities[id], dim) + w.clock.duration * VelocitySum(w, ops, id, dim);
      -1_000_000 < exact - Position(Run(w, ops).entities[id], dim) * 1_000_000 < 1_000_000
  {
    hide Valid, Run, VelocitySum;
    RunIsExact(w, ops, id, dim);
    RunKeepsValid(w, ops);
    ResidualBound(Run(w, ops), id, dim);
  }

  lemma ResidualBound(w: WorldState, id: EntityId, dim: Dimension)
    requires Valid(w) && id in w.entities
    ensures -1_000_000 < Residual(w.entities[id], dim) < 1_000_000
  {
    hide LimitsAccepted, QueueFits, IdsFit;
    assert EntityFits(w, id, w.entities[id]);
  }

  /** Every successful tick of the run leaves the entity with velocity `v`. */
  predicate Steady(w: WorldState, ops: seq<WorldOp>, id: EntityId, dim: Dimension, v: int)
    decreases |ops|
  {
    ops == [] ||
    var next := Step(w, ops[0]);
    && (Ticks(w, ops[0]) && id in next.entities ==> Velocity(next.entities[id], dim) == v)
    && Steady(next, ops[1..], id, dim, v)
  }

  predicate SameSign(v: int, r: int) {
    (v >= 0 ==> r >= 0) && (v <= 0 ==> r <= 0)
  }

  lemma SteadyTick(v: int, d: int, r: int)
    requires d > 0 && SameSign(v, r)
    ensures SameSign(v, TruncMod(v * d + r, 1_000_000))
  {
    if v > 0 {
      assert v * d > 0;
    } else if v < 0 {
      assert v * d < 0;
    }
  }

  lemma {:induction false} SteadyRun(w: WorldState, ops: seq<WorldOp>, id: EntityId, dim: Dimension, v: int)
    requires Valid(w) && id in w.entities
    requires Steady(w, ops, id, dim, v) && SameSign(v, Residual(w.entities[id], dim))
    ensures id in Run(w, ops).entities
    ensures SameSign(v, Residual(Run(w, ops).entities[id], dim))
    ensures VelocitySum(w, ops, id, dim) == TickCount(w, ops) * v
    decreases |ops|
  {
    hide Valid, Advance, Exact, TruncMod, SameSign, Velocity, Residual, Step;
    if ops != [] {
      var op, next := ops[0], Step(w, ops[0]);
      StepKeepsValid(w, op);
      StepKeepsEntity(w, op, id);
      if Ticks(w, op) {
        TickIsExact(w, next, id, dim);
        SteadyTick(v, w.clock.duration, Residual(w.entities[id], dim));
      }
      SteadyRun(next, ops[1..], id, dim, v);
      var n := TickCount(next, ops[1..]);
      assert (1 + n) * v == v + n * v;
    }
  }

  /** From zero residual and at constant velocity, n ticks move an entity by exactly the
      truncated product: no drift, however long the run. */
  lemma ConstantVelocityMovesExactly(w: WorldState, ops: seq<WorldOp>, id: EntityId, dim: Dimension, v: int)
    requires Valid(w) && id in w.entities
    requires Residual(w.entities[id], dim) == 0
    requires Steady(w, ops, id, dim, v)
    ensures id in Run(w, ops).entities
    ensures
      var moved := TickCount(w, ops) * v * w.clock.duration;
      var s := Run(w, ops).entities[id];
      && Position(s, dim) == Position(w.entities[id], dim) + TruncDiv(moved, 1_000_000)
      && Residual(s, dim) == TruncMod(moved, 1_000_000)
  {
    hide Valid, Run, VelocitySum, Steady, TickCount;
    SteadyRun(w, ops, id, dim, v);
    RunIsExact(w, ops, id, dim);
    RunKeepsValid(w, ops);
    ResidualBound(Run(w, ops), id, dim);
    var n, d, s := TickCount(w, ops), w.clock.duration, Run(w, ops).entities[id];
    var moved := n * v * d;
    ProductSign(n, v, d);
    TruncUnique(moved, 1_000_000, Position(s, dim) - Position(w.entities[id], dim), Residual(s, dim));
  }

  lemma ProductSign(n: nat, v: int, d: int)
    requires d > 0
    ensures d * (n * v) == n * v * d
    ensures n * v * d > 0 ==> v > 0
    ensures n * v * d < 0 ==> v < 0
  {
    if v >= 0 {
      assert n * v >= 0;
      assert n * v * d >= 0;
    }
    if v <= 0 {
      assert n * v <= 0;
      assert n * v * d <= 0;
    }
  }
}
