/** Command envelopes, their validation, and the session that admits them. */
module Commands {
  import opened Integers
  import opened WorldModel

  const COMMAND_SCHEMA_VERSION: U16 := 1
  const SET_VELOCITY: U16 := 1

  /** The command type is any 16-bit value: the wire can carry values outside the enumeration. */
  datatype Envelope = Envelope(
    schemaVersion: U16,
    kind: U16,
    clientId: U64,
    sessionId: U64,
    sequence: U64,
    targetTick: U64,
    entityId: EntityId,
    velocity: Vector2)

  /** Rejection codes with their stable numbers. */
  type RejectionCode = U16
  const NONE: RejectionCode := 0
  const UNSUPPORTED_SCHEMA_VERSION: RejectionCode := 1
  const UNSUPPORTED_COMMAND_TYPE: RejectionCode := 2
  const INVALID_CLIENT_ID: RejectionCode := 3
  const INVALID_SESSION_ID: RejectionCode := 4
  const CLIENT_IDENTITY_MISMATCH: RejectionCode := 5
  const SESSION_IDENTITY_MISMATCH: RejectionCode := 6
  const SEQUENCE_ZERO: RejectionCode := 7
  const STALE_TARGET_TICK: RejectionCode := 8
  const TARGET_TICK_TOO_FAR_FUTURE: RejectionCode := 9
  const VELOCITY_OUT_OF_RANGE: RejectionCode := 10
  const DUPLICATE_SEQUENCE: RejectionCode := 11
  const SEQUENCE_REGRESSION: RejectionCode := 12
  const UNKNOWN_ENTITY: RejectionCode := 13
  const ENTITY_SEQUENCE_NOT_INCREASING: RejectionCode := 14
  const TARGET_TICK_REGRESSION: RejectionCode := 15
  const SIMULATION_REJECTION_UNKNOWN: RejectionCode := 16

  datatype Policy = Policy(maximumFutureTicks: U64, maxAbsVelocity: I64)

  datatype SessionState = SessionState(clientId: U64, sessionId: U64, policy: Policy, highest: U64)

  /** What the constructors of the session and of its validator demand. */
  predicate SessionAccepted(s: SessionState) {
    s.clientId != 0 && s.sessionId != 0 && s.policy.maximumFutureTicks != 0 && s.policy.maxAbsVelocity > 0
  }

  /** The validator: the first check that fails decides. */
  function Validate(s: SessionState, c: Envelope, tick: U64): RejectionCode {
    if c.schemaVersion != COMMAND_SCHEMA_VERSION then UNSUPPORTED_SCHEMA_VERSION
    else if c.kind != SET_VELOCITY then UNSUPPORTED_COMMAND_TYPE
    else if c.clientId == 0 then INVALID_CLIENT_ID
    else if c.sessionId == 0 then INVALID_SESSION_ID
    else if c.clientId != s.clientId then CLIENT_IDENTITY_MISMATCH
    else if c.sessionId != s.sessionId then SESSION_IDENTITY_MISMATCH
    else if c.sequence == 0 then SEQUENCE_ZERO
    else if c.targetTick <= tick then STALE_TARGET_TICK
    else if c.targetTick - tick > s.policy.maximumFutureTicks then TARGET_TICK_TOO_FAR_FUTURE
    else if !VectorWithin(c.velocity, s.policy.maxAbsVelocity) then VELOCITY_OUT_OF_RANGE
    else NONE
  }

  function Translate(c: Envelope): VelocityCommand {
    VelocityCommand(c.targetTick, c.entityId, c.sequence, c.velocity)
  }

  /** Admission: the simulation command, or the code of the rejection. */
  function Evaluate(s: SessionState, c: Envelope, tick: U64): Result<VelocityCommand, RejectionCode> {
    if Validate(s, c, tick) != NONE then Err(Validate(s, c, tick))
    else if c.sequence == s.highest then Err(DUPLICATE_SEQUENCE)
    else if c.sequence < s.highest then Err(SEQUENCE_REGRESSION)
    else Ok(Translate(c))
  }

  /** Admission says yes exactly to a current-schema velocity command of this client and session
      with a new sequence, a target inside the window and an admissible velocity. */
  lemma AdmissionIsExact(s: SessionState, c: Envelope, tick: U64)
    requires SessionAccepted(s)
    ensures Evaluate(s, c, tick).Ok? <==>
      && c.schemaVersion == COMMAND_SCHEMA_VERSION && c.kind == SET_VELOCITY
      && c.clientId == s.clientId && c.sessionId == s.sessionId
      && c.sequence > s.highest
      && tick < c.targetTick <= tick + s.policy.maximumFutureTicks
      && VectorWithin(c.velocity, s.policy.maxAbsVelocity)
    ensures Evaluate(s, c, tick).Err? ==> NONE < Evaluate(s, c, tick).error <= SEQUENCE_REGRESSION
  {
  }

  /** The reason that each admission code stands for. */
  predicate Violates(s: SessionState, c: Envelope, tick: U64, code: nat) {
    match code
    case 1 => c.schemaVersion != 1
    case 2 => c.kind != 1
    case 3 => c.clientId == 0
    case 4 => c.sessionId == 0
    case 5 => c.clientId != s.clientId
    case 6 => c.sessionId != s.sessionId
    case 7 => c.sequence == 0
    case 8 => c.targetTick <= tick
    case 9 => c.targetTick > tick + s.policy.maximumFutureTicks
    case 10 => !Inside(c.velocity, s.policy.maxAbsVelocity)
    case 11 => c.sequence == s.highest
    case 12 => c.sequence < s.highest
    case _ => false
  }

  /** A command is rejected with the lowest code whose reason applies to it, and with no other;
      otherwise it is translated field by field. */
  lemma RejectionIsFirstViolation(s: SessionState, c: Envelope, tick: U64, code: U16)
    requires SessionAccepted(s)
    ensures Evaluate(s, c, tick) == Err(code) <==>
      Violates(s, c, tick, code) && forall k :: 0 <= k < code ==> !Violates(s, c, tick, k)
    ensures Evaluate(s, c, tick).Ok? ==>
      Evaluate(s, c, tick).value == VelocityCommand(c.targetTick, c.entityId, c.sequence, c.velocity)
  {
    var r := Evaluate(s, c, tick);
    if r.Err? {
      AdmissionIsExact(s, c, tick);
      assert Violates(s, c, tick, r.error);
      assert forall k :: 0 <= k < r.error ==> !Violates(s, c, tick, k);
    }
  }

  class CommandSession {
    const clientId: U64
    const sessionId: U64
    const policy: Policy
    var highest: U64

    function View(): SessionState
      reads this
    {
      SessionState(clientId, sessionId, policy, highest)
    }

    constructor (clientId: U64, sessionId: U64, policy: Policy)
      requires SessionAccepted(SessionState(clientId, sessionId, policy, 0))
      ensures View() == SessionState(clientId, sessionId, policy, 0)
    {
      this.clientId := clientId;
      this.sessionId := sessionId;
      this.policy := policy;
      highest := 0;
    }

    constructor Copy(other: CommandSession)
      ensures View() == other.View()
    {
      clientId := other.clientId;
      sessionId := other.sessionId;
      policy := other.policy;
      highest := other.highest;
    }

    method CommitAcceptedSequence(sequence: U64)
      modifies this
      ensures View() == old(View()).(highest := sequence)
    {
      highest := sequence;
    }
  }
}
