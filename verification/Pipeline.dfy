/** The authoritative pipeline: every submission is decided, applied and recorded. */
module Pipeline {
  import opened Integers
  import opened WorldModel
  import opened WorldInvariant
  import opened WorldSafety
  import opened World
  import opened WorldEncoding
  import opened Commands
  import opened Evidence
  import opened Chain
  import opened Archive
  import Fingerprint

  /** Everything that a submission can read or change. */
  datatype Authority = Authority(session: SessionState, world: WorldState, log: LogState)

  function RejectionFromQueue(q: QueueResult): RejectionCode {
    match q
    case Accepted => NONE
    case StaleTick => STALE_TARGET_TICK
    case UnknownEntity => UNKNOWN_ENTITY
    case SequenceNotIncreasing => ENTITY_SEQUENCE_NOT_INCREASING
    case TargetTickRegression => TARGET_TICK_REGRESSION
    case VelocityOutOfRange => VELOCITY_OUT_OF_RANGE
  }

  function OutcomeFromQueue(q: QueueResult): QueueOutcome {
    match q
    case Accepted => QUEUE_ACCEPTED
    case StaleTick => QUEUE_STALE_TICK
    case UnknownEntity => QUEUE_UNKNOWN_ENTITY
    case SequenceNotIncreasing => QUEUE_SEQUENCE_NOT_INCREASING
    case TargetTickRegression => QUEUE_TARGET_TICK_REGRESSION
    case VelocityOutOfRange => QUEUE_VELOCITY_OUT_OF_RANGE
  }

  datatype Decision = Decision(code: RejectionCode, outcome: QueueOutcome, session: SessionState, world: WorldState)

  /** Admission, then the world's queue, then the session's sequence. */
  function Decide(s: SessionState, w: WorldState, e: Envelope): Decision {
    match Evaluate(s, e, w.clock.index)
    case Err(code) => Decision(code, NOT_ATTEMPTED, s, w)
    case Ok(command) =>
      var q := CheckQueue(w, command);
      Decision(RejectionFromQueue(q), OutcomeFromQueue(q),
               if q == Accepted then s.(highest := e.sequence) else s,
               Queue(w, command))
  }

  /** The record and command counts fit 64 bits, as a 64-bit `size_t` guarantees. Beyond that the
      pipeline throws before it changes anything. */
  predicate CountsFit(w: WorldState, log: LogState) {
    |w.pending| < TWO_64 - 1 && |log.records| < TWO_64
  }

  lemma DecidePending(s: SessionState, w: WorldState, e: Envelope)
    ensures var d := Decide(s, w, e);
      |d.world.pending| == |w.pending| + if d.outcome == QUEUE_ACCEPTED then 1 else 0
  {
    hide Evaluate, CheckQueue, Insert;
    InsertContents(w.pending, Translate(e));
    EvaluateTranslates(s, e, w.clock.index);
  }

  lemma EvaluateTranslates(s: SessionState, e: Envelope, tick: U64)
    ensures Evaluate(s, e, tick).Ok? ==> Evaluate(s, e, tick).value == Translate(e)
  {
    hide Validate;
  }

  function EntryOf(s: SessionState, w: WorldState, e: Envelope): EvidenceEntry
    requires |w.pending| < TWO_64 - 1
  {
    hide Decide, FingerprintWorldState;
    DecidePending(s, w, e);
    var d := Decide(s, w, e);
    EvidenceEntry(FingerprintWorldState(w), w.clock.index, e, s.highest, d.session.highest,
                  |w.pending|, |d.world.pending|, d.code, d.outcome)
  }

  function Submitted(a: Authority, e: Envelope): Authority {
    if !CountsFit(a.world, a.log) then a
    else
      var d := Decide(a.session, a.world, e);
      Authority(d.session, d.world, Appended(a.log, EntryOf(a.session, a.world, e)))
  }

  // ---------------------------------------------------------------- transactional submission

  ghost predicate Sound(a: Authority) {
    && Valid(a.world)
    && SessionAccepted(a.session)
    && VerifyChain(a.log.records, a.log.head)
    && AllOk(a.log.records)
  }

  /** A decision either rejects and changes nothing, or accepts a command with a new session
      sequence and a new entity sequence. The queue never answers that a command is stale. */
  lemma DecideIsTransactional(s: SessionState, w: WorldState, e: Envelope)
    requires Valid(w) && SessionAccepted(s)
    ensures var d := Decide(s, w, e);
      && (d.code == NONE <==> d.outcome == QUEUE_ACCEPTED)
      && (d.code != NONE ==> d.session == s && d.world == w)
      && (d.code == NONE ==>
            && d.session == s.(highest := e.sequence)
            && d.world == Queue(w, Translate(e))
            && e.sequence > s.highest
            && e.entityId in w.entities
            && e.sequence > Lookup(w.highest, e.entityId)
            && Lookup(d.world.highest, e.entityId) == e.sequence
            && |d.world.pending| == |w.pending| + 1)
      && d.outcome != QUEUE_STALE_TICK && d.outcome != QUEUE_UNKNOWN
      && IsKnownRejection(d.code) && IsKnownOutcome(d.outcome)
      && (ExpectedRejection(d.outcome).Some? ==> ExpectedRejection(d.outcome).value == d.code)
  {
    hide Valid, Insert, VectorWithin, Validate, Evaluate;
    DecidePending(s, w, e);
    EvaluateTranslates(s, e, w.clock.index);
    AdmissionIsExact(s, e, w.clock.index);
  }

  lemma DecideKeepsWorld(s: SessionState, w: WorldState, e: Envelope)
    requires Valid(w) && SessionAccepted(s)
    ensures Valid(Decide(s, w, e).world) && SessionAccepted(Decide(s, w, e).session)
    ensures Decide(s, w, e).world.clock == w.clock
  {
    hide Valid, Decide, Queue;
    DecideIsTransactional(s, w, e);
    QueueKeepsValid(w, Translate(e));
    QueueKeepsClock(w, Translate(e));
  }

  lemma QueueKeepsClock(w: WorldState, c: VelocityCommand)
    ensures Queue(w, c).clock == w.clock
  {
  }

  lemma EntryIsOk(s: SessionState, w: WorldState, e: Envelope)
    requires Valid(w) && SessionAccepted(s) && |w.pending| < TWO_64 - 1
    ensures CheckInvariants(EntryOf(s, w, e)) == None
    ensures IsKnownRejection(EntryOf(s, w, e).rejection) && IsKnownOutcome(EntryOf(s, w, e).outcome)
  {
    hide Valid, Decide, FingerprintWorldState, ExpectedRejection, IsKnownRejection, IsKnownOutcome;
    DecideIsTransactional(s, w, e);
  }

  /** `b` follows from `a` by recording the submission of `e` and nothing else. */
  ghost predicate RecordsOne(a: Authority, e: Envelope, b: Authority) {
    var n := |a.log.records|;
    && |b.log.records| == n + 1 && b.log.records[..n] == a.log.records
    && b.world.clock == a.world.clock
    && var entry := b.log.records[n].entry;
      && entry.envelope == e
      && entry.observedTick == a.world.clock.index
      && entry.fingerprintBefore == FingerprintWorldState(a.world)
      && entry.sessionBefore == a.session.highest
      && entry.pendingBefore == |a.world.pending|
      && entry.rejection == Answer(a.session, a.world, e).code
      && (entry.rejection != NONE <==> b.session == a.session && b.world == a.world)
      && (entry.rejection == NONE ==> b.world == Queue(a.world, Translate(e)) && b.session.highest == e.sequence > a.session.highest)
      && (entry.rejection == NONE ==>
            multiset(b.world.pending) ==
            multiset(a.world.pending) + multiset{VelocityCommand(e.targetTick, e.entityId, e.sequence, e.velocity)})
      && entry.outcome != QUEUE_STALE_TICK && entry.outcome != QUEUE_UNKNOWN
  }

  /** Every submission appends exactly one record, which the decoder would accept and which stores
      the code that the caller is told; the log keeps verifying; session and world change if and
      only if the submission is accepted, and then exactly its command is queued. */
  lemma SubmitIsTransactional(a: Authority, e: Envelope)
    requires Sound(a) && CountsFit(a.world, a.log)
    ensures Sound(Submitted(a, e))
    ensures RecordsOne(a, e, Submitted(a, e))
  {
    hide Valid, Decide, FingerprintWorldState, CheckInvariants, IsKnownRejection, IsKnownOutcome, VerifyChain, DigestRecord;
    DecideIsTransactional(a.session, a.world, e);
    DecideKeepsWorld(a.session, a.world, e);
    EntryIsOk(a.session, a.world, e);
    AppendKeepsChain(a.log, EntryOf(a.session, a.world, e));
    AnswerIsTheDecision(a.session, a.world, e);
    QueueContents(a.world, Translate(e));
  }

  lemma QueueContents(w: WorldState, c: VelocityCommand)
    ensures |Queue(w, c).pending| > |w.pending| ==> multiset(Queue(w, c).pending) == multiset(w.pending) + multiset{c}
  {
    hide CheckQueue, Insert;
    InsertContents(w.pending, c);
  }

  /** The caller is told the decision: its code, and the queue's answer if the queue was asked. */
  lemma AnswerIsTheDecision(s: SessionState, w: WorldState, e: Envelope)
    ensures
      var told, d := Answer(s, w, e), Decide(s, w, e);
      && told.code == d.code
      && (told.queue == None <==> d.outcome == 0)
      && (told.queue == Some(Accepted) <==> d.outcome == 1)
      && (told.queue == Some(StaleTick) <==> d.outcome == 2)
      && (told.queue == Some(UnknownEntity) <==> d.outcome == 3)
      && (told.queue == Some(SequenceNotIncreasing) <==> d.outcome == 4)
      && (told.queue == Some(TargetTickRegression) <==> d.outcome == 5)
      && (told.queue == Some(QueueResult.VelocityOutOfRange) <==> d.outcome == 6)
  {
    hide Evaluate, CheckQueue, Queue;
  }

  /** Which code and which outcome a submission gets. */
  lemma DecisionIsExact(s: SessionState, w: WorldState, e: Envelope)
    requires Valid(w) && SessionAccepted(s)
    ensures
      var d, admitted := Decide(s, w, e), Evaluate(s, e, w.clock.index).Ok?;
      var known := e.entityId in w.entities;
      var newer := known && e.sequence > w.highest[e.entityId];
      var ordered := known && e.targetTick >= w.latest[e.entityId];
      var slow := Inside(e.velocity, w.limits.maxAbsVelocity);
      && (!admitted ==> d.code == Evaluate(s, e, w.clock.index).error && d.outcome == 0)
      && (admitted && !known ==> d.code == 13 && d.outcome == 3)
      && (admitted && known && !newer ==> d.code == 14 && d.outcome == 4)
      && (admitted && newer && !ordered ==> d.code == 15 && d.outcome == 5)
      && (admitted && newer && ordered && !slow ==> d.code == 10 && d.outcome == 6)
      && (admitted && newer && ordered && slow ==> d.code == 0 && d.outcome == 1)
  {
    hide Valid, CheckQueue, Queue, Evaluate;
    ValidKeys(w);
    AdmissionIsExact(s, e, w.clock.index);
    EvaluateTranslates(s, e, w.clock.index);
    QueueAnswerIsExact(w, Translate(e));
  }

  lemma ValidKeys(w: WorldState)
    requires Valid(w)
    ensures w.entities.Keys == w.highest.Keys == w.latest.Keys
  {
  }

  // ---------------------------------------------------------------- the class

  datatype Submission = Submission(code: RejectionCode, queue: Option<QueueResult>)

  /** What the caller is told: the rejection code, and the queue's answer if it was asked. */
  function Answer(s: SessionState, w: WorldState, e: Envelope): Submission {
    match Evaluate(s, e, w.clock.index)
    case Err(code) => Submission(code, None)
    case Ok(command) => Submission(RejectionFromQueue(CheckQueue(w, command)), Some(CheckQueue(w, command)))
  }

  method FingerprintWorld(world: World) returns (hash: U64)
    ensures hash == FingerprintWorldState(world.View())
  {
    hide EncodeWorldState, Fingerprint.Fnv;
    var bytes := Encode(world);
    hash := Fingerprint.FingerprintBytes(bytes);
  }

  class AuthoritativeCommandPipeline {
    const evidence: CommandEvidenceLog

    constructor ()
      ensures fresh(evidence) && evidence.View() == EMPTY_LOG
    {
      evidence := new CommandEvidenceLog();
    }

    /** `None` stands for the exception that a count overflow throws; nothing has changed then. */
    method Submit(session: CommandSession, world: World, e: Envelope) returns (r: Option<Submission>)
      requires world.Consistent()
      modifies session, world, evidence
      ensures world.Consistent() && world.clock == old(world.clock)
      ensures Authority(session.View(), world.View(), evidence.View()) ==
        Submitted(Authority(old(session.View()), old(world.View()), old(evidence.View())), e)
      ensures r == if CountsFit(old(world.View()), old(evidence.View()))
        then Some(Answer(old(session.View()), old(world.View()), e)) else None
    {
      hide Valid, CheckQueue, Queue, Evaluate, FingerprintWorldState, Appended, RejectionFromQueue, OutcomeFromQueue;
      if !evidence.CanAppend() || |world.pending| >= TWO_64 - 1 {
        return None;
      }
      ghost var s0, w0 := session.View(), world.View();
      DecidePending(s0, w0, e);
      var observedTick := world.clock.index;
      var fingerprintBefore := FingerprintWorld(world);
      var sessionBefore, pendingBefore := session.highest, |world.pending|;
      var admission := Evaluate(session.View(), e, observedTick);
      if admission.Err? {
        evidence.Append(EvidenceEntry(fingerprintBefore, observedTick, e, sessionBefore, session.highest,
          pendingBefore, |world.pending|, admission.error, NOT_ATTEMPTED));
        return Some(Submission(admission.error, None));
      }
      var queueResult := world.QueueVelocity(admission.value);
      var code := RejectionFromQueue(queueResult);
      AcceptedHasNoCode(queueResult);
      if code == NONE {
        session.CommitAcceptedSequence(e.sequence);
      }
      evidence.Append(EvidenceEntry(fingerprintBefore, observedTick, e, sessionBefore, session.highest,
        pendingBefore, |world.pending|, code, OutcomeFromQueue(queueResult)));
      r := Some(Submission(code, Some(queueResult)));
    }
  }

  lemma AcceptedHasNoCode(q: QueueResult)
    ensures RejectionFromQueue(q) == NONE <==> q == Accepted
  {
  }
}
