/** The deterministic world as a value: entities, per-entity sequence and target-tick maps, the
    pending queue, and one function per operation of the simulation core. */
module WorldModel {
  import opened Integers

  const MICROSECONDS_PER_SECOND: int := 1_000_000

  type EntityId = x: int | 0 < x < 0x1_0000_0000_0000_0000 witness 1

  datatype Vector2 = Vector2(x: I64, y: I64)

  datatype WorldLimits = WorldLimits(maxAbsPosition: I64, maxAbsVelocity: I64)

  datatype EntityState = EntityState(id: EntityId, position: Vector2, velocity: Vector2, lastSequence: U64)

  datatype StoredEntity = StoredEntity(state: EntityState, residualX: I64, residualY: I64)

  datatype VelocityCommand = VelocityCommand(targetTick: U64, entityId: EntityId, sequence: U64, velocity: Vector2)

  type Duration = x: int | 0 < x <= 0x7fff_ffff_ffff_ffff witness 1

  datatype Clock = Clock(duration: Duration, index: U64, elapsed: I64)

  /** `ids` is the order in which the `std::map` of entities is iterated. */
  datatype WorldState = WorldState(
    clock: Clock,
    limits: WorldLimits,
    ids: seq<EntityId>,
    entities: map<EntityId, StoredEntity>,
    highest: map<EntityId, U64>,
    latest: map<EntityId, U64>,
    pending: seq<VelocityCommand>)

  datatype AddEntityResult = Added | DuplicateId | PositionOutOfRange | VelocityOutOfRange

  datatype QueueResult =
    | Accepted
    | StaleTick
    | UnknownEntity
    | SequenceNotIncreasing
    | TargetTickRegression
    | VelocityOutOfRange

  /** The exceptions that `advance` can throw, in the order in which it tests for them. */
  datatype AdvanceError =
    | TickIndexOverflow
    | ElapsedOverflow
    | StaleCommand
    | MissingEntity
    | PositionOverflow
    | PositionLimit

  datatype Axis = Axis(position: I64, residual: I64)

  predicate WithinLimit(v: int, limit: int) {
    -limit <= v <= limit
  }

  predicate VectorWithin(v: Vector2, limit: int) {
    WithinLimit(v.x, limit) && WithinLimit(v.y, limit)
  }

  /** What the range checks mean: both components lie between minus the limit and the limit. */
  predicate Inside(v: Vector2, limit: int) {
    -limit <= v.x <= limit && -limit <= v.y <= limit
  }

  // ---------------------------------------------------------------- queue order

  predicate CommandOrder(l: VelocityCommand, r: VelocityCommand) {
    if l.targetTick != r.targetTick then l.targetTick < r.targetTick
    else if l.entityId != r.entityId then l.entityId < r.entityId
    else l.sequence < r.sequence
  }

  /** The commands that `command_order` cannot tell apart. */
  predicate SameKey(l: VelocityCommand, r: VelocityCommand) {
    l.targetTick == r.targetTick && l.entityId == r.entityId && l.sequence == r.sequence
  }

  predicate StrictlySorted(s: seq<VelocityCommand>) {
    forall i, j :: 0 <= i < j < |s| ==> CommandOrder(s[i], s[j])
  }

  /** What `std::sort` guarantees: no later element precedes an earlier one. */
  predicate NoInversion(s: seq<VelocityCommand>) {
    forall i, j :: 0 <= i < j < |s| ==> !CommandOrder(s[j], s[i])
  }

  function Insert(s: seq<VelocityCommand>, c: VelocityCommand): seq<VelocityCommand> {
    if s == [] then [c]
    else if CommandOrder(c, s[0]) then [c] + s
    else [s[0]] + Insert(s[1..], c)
  }

  // ---------------------------------------------------------------- ordered iteration

  /** Adds a key to the iteration order of a `std::map`. */
  function InsertId(ids: seq<EntityId>, id: EntityId): seq<EntityId> {
    if ids == [] then [id]
    else if id < ids[0] then [id] + ids
    else [ids[0]] + InsertId(ids[1..], id)
  }

  function Lookup(m: map<EntityId, U64>, id: EntityId): U64 {
    if id in m then m[id] else 0
  }

  // ---------------------------------------------------------------- construction and entities

  predicate LimitsAccepted(duration: Duration, limits: WorldLimits) {
    && limits.maxAbsPosition > 0
    && limits.maxAbsVelocity > 0
    && limits.maxAbsVelocity <= TruncDiv(I64_MAX - (MICROSECONDS_PER_SECOND - 1), duration)
  }

  function NewWorld(duration: Duration, limits: WorldLimits): WorldState {
    WorldState(Clock(duration, 0, 0), limits, [], map[], map[], map[], [])
  }

  function CheckEntity(w: WorldState, e: EntityState): AddEntityResult {
    if e.id in w.entities then DuplicateId
    else if !VectorWithin(e.position, w.limits.maxAbsPosition) then PositionOutOfRange
    else if !VectorWithin(e.velocity, w.limits.maxAbsVelocity) then AddEntityResult.VelocityOutOfRange
    else Added
  }

  function AddEntity(w: WorldState, e: EntityState): WorldState {
    if CheckEntity(w, e) != Added then w
    else
      w.(ids := InsertId(w.ids, e.id),
         entities := w.entities[e.id := StoredEntity(e.(lastSequence := 0), 0, 0)],
         highest := w.highest[e.id := 0],
         latest := w.latest[e.id := w.clock.index])
  }

  // ---------------------------------------------------------------- queueing

  /** `.at` on the two maps throws for a missing key; `Lookup` stands in for it because in a
      valid world an entity is never missing from them. */
  function CheckQueue(w: WorldState, c: VelocityCommand): QueueResult {
    if c.targetTick <= w.clock.index then StaleTick
    else if c.entityId !in w.entities then UnknownEntity
    else if c.sequence <= Lookup(w.highest, c.entityId) then SequenceNotIncreasing
    else if c.targetTick < Lookup(w.latest, c.entityId) then TargetTickRegression
    else if !VectorWithin(c.velocity, w.limits.maxAbsVelocity) then QueueResult.VelocityOutOfRange
    else Accepted
  }

  function Queue(w: WorldState, c: VelocityCommand): WorldState {
    if CheckQueue(w, c) != Accepted then w
    else
      w.(highest := w.highest[c.entityId := c.sequence],
         latest := w.latest[c.entityId := c.targetTick],
         pending := Insert(w.pending, c))
  }

  // ---------------------------------------------------------------- advancing

  function AdvanceClock(c: Clock): Result<Clock, AdvanceError> {
    if c.index == TWO_64 - 1 then Err(TickIndexOverflow)
    else if c.elapsed > I64_MAX - c.duration then Err(ElapsedOverflow)
    else Ok(Clock(c.duration, c.index + 1, c.elapsed + c.duration))
  }

  function ApplyCommand(s: StoredEntity, c: VelocityCommand): StoredEntity {
    s.(state := s.state.(velocity := c.velocity, lastSequence := c.sequence))
  }

  /** The loop over the queue: it stops at the first command that is not due. */
  function ApplyDue(cs: seq<VelocityCommand>, tick: U64, es: map<EntityId, StoredEntity>):
    Result<map<EntityId, StoredEntity>, AdvanceError>
  {
    if cs == [] || cs[0].targetTick > tick then Ok(es)
    else if cs[0].targetTick < tick then Err(StaleCommand)
    else if cs[0].entityId !in es then Err(MissingEntity)
    else ApplyDue(cs[1..], tick, es[cs[0].entityId := ApplyCommand(es[cs[0].entityId], cs[0])])
  }

  function CheckedAdd(left: I64, right: int): Result<I64, AdvanceError> {
    if right > 0 && left > I64_MAX - right then Err(PositionOverflow)
    else if right < 0 && left < I64_MIN - right then Err(PositionOverflow)
    else Ok(left + right)
  }

  function IntegrateAxis(position: I64, velocity: I64, residual: I64, duration: Duration, limit: I64): Result<Axis, AdvanceError> {
    var scaled := velocity * duration + residual;
    match CheckedAdd(position, TruncDiv(scaled, 1_000_000))
    case Err(e) => Err(e)
    case Ok(next) =>
      if !WithinLimit(next, limit) then Err(PositionLimit)
      else Ok(Axis(next, TruncMod(scaled, 1_000_000)))
  }

  function IntegrateEntity(s: StoredEntity, duration: Duration, limit: I64): Result<StoredEntity, AdvanceError> {
    match IntegrateAxis(s.state.position.x, s.state.velocity.x, s.residualX, duration, limit)
    case Err(e) => Err(e)
    case Ok(x) =>
      match IntegrateAxis(s.state.position.y, s.state.velocity.y, s.residualY, duration, limit)
      case Err(e) => Err(e)
      case Ok(y) => Ok(StoredEntity(s.state.(position := Vector2(x.position, y.position)), x.residual, y.residual))
  }

  /** The loop over the entities in id order; the first one that fails decides the error. */
  function IntegrateAll(ids: seq<EntityId>, es: map<EntityId, StoredEntity>, duration: Duration, limit: I64):
    Result<map<EntityId, StoredEntity>, AdvanceError>
  {
    if ids == [] then Ok(es)
    else if ids[0] !in es then Err(MissingEntity)
    else
      match IntegrateEntity(es[ids[0]], duration, limit)
      case Err(e) => Err(e)
      case Ok(s) => IntegrateAll(ids[1..], es[ids[0] := s], duration, limit)
  }

  function RemoveDue(cs: seq<VelocityCommand>, tick: U64): seq<VelocityCommand> {
    if cs == [] then []
    else if cs[0].targetTick == tick then RemoveDue(cs[1..], tick)
    else [cs[0]] + RemoveDue(cs[1..], tick)
  }

  /** `advance` either returns the next world or throws and leaves the world as it was. */
  function Advance(w: WorldState): Result<WorldState, AdvanceError> {
    match AdvanceClock(w.clock)
    case Err(e) => Err(e)
    case Ok(clock) =>
      match ApplyDue(w.pending, clock.index, w.entities)
      case Err(e) => Err(e)
      case Ok(es) =>
        match IntegrateAll(w.ids, es, w.clock.duration, w.limits.maxAbsPosition)
        case Err(e) => Err(e)
        case Ok(next) =>
          Ok(w.(clock := clock, entities := next, pending := RemoveDue(w.pending, clock.index)))
  }
}
