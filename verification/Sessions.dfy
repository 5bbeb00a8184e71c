/** Runs of one world and one pipeline with any number of sessions. */
module Sessions {
  import opened Integers
  import opened WorldModel
  import opened WorldInvariant
  import opened WorldSafety
  import opened Commands
  import opened Chain
  import opened Archive
  import opened Pipeline

  datatype System = System(sessions: seq<SessionState>, world: WorldState, log: LogState)

  /** A submission through one of the sessions, or a direct call on the shared world. */
  datatype Event =
    | Submitting(session: nat, envelope: Envelope)
    | Adding(entity: EntityState)
    | Queueing(command: VelocityCommand)
    | Ticking

  function View(sys: System, k: nat): Authority
    requires k < |sys.sessions|
  {
    Authority(sys.sessions[k], sys.world, sys.log)
  }

  function Happen(sys: System, ev: Event): System {
    match ev
    case Adding(entity) => sys.(world := AddEntity(sys.world, entity))
    case Queueing(command) => sys.(world := Queue(sys.world, command))
    case Ticking => if Advance(sys.world).Ok? then sys.(world := Advance(sys.world).value) else sys
    case Submitting(k, e) =>
      if k >= |sys.sessions| then sys
      else
        var a := Submitted(View(sys, k), e);
        System(sys.sessions[k := a.session], a.world, a.log)
  }

  function After(sys: System, evs: seq<Event>): System
    decreases |evs|
  {
    if evs == [] then sys else After(Happen(sys, evs[0]), evs[1..])
  }

  ghost predicate SystemSound(sys: System) {
    && Valid(sys.world)
    && (forall k :: 0 <= k < |sys.sessions| ==> SessionAccepted(sys.sessions[k]))
    && VerifyChain(sys.log.records, sys.log.head)
    && AllOk(sys.log.records)
  }

  lemma HappenKeepsSound(sys: System, ev: Event)
    requires SystemSound(sys)
    ensures SystemSound(Happen(sys, ev)) && |Happen(sys, ev).sessions| == |sys.sessions|
  {
    hide Valid, VerifyChain, AllOk, SessionAccepted, Advance, Submitted, AddEntity, Queue;
    match ev
    case Adding(entity) => AddKeepsValid(sys.world, entity);
    case Queueing(command) => QueueKeepsValid(sys.world, command);
    case Ticking =>
      if Advance(sys.world).Ok? { AdvanceKeepsValid(sys.world); }
    case Submitting(k, e) =>
      if k < |sys.sessions| {
        var a := View(sys, k);
        if CountsFit(a.world, a.log) {
          SubmitIsTransactional(a, e);
        } else {
          Unfit(a, e);
        }
      }
  }

  lemma Unfit(a: Authority, e: Envelope)
    requires !CountsFit(a.world, a.log)
    ensures Submitted(a, e) == a
  {
  }

  /** Whatever happens to the sessions and the world, the log keeps verifying and holds only records that the decoder accepts,
      and the world stays valid: every pipeline log can be archived and read back. */
  lemma {:induction false} RunKeepsSound(sys: System, evs: seq<Event>)
    requires SystemSound(sys)
    ensures SystemSound(After(sys, evs))
    decreases |evs|
  {
    hide SystemSound, Happen;
    if evs != [] {
      HappenKeepsSound(sys, evs[0]);
      RunKeepsSound(Happen(sys, evs[0]), evs[1..]);
    }
  }

  lemma EveryLogArchives(sys: System, evs: seq<Event>)
    requires SystemSound(sys) && |After(sys, evs).log.records| <= MAX_RECORDS
    ensures var log := After(sys, evs).log;
      && EncodeArchive(log.records, log.head).Ok?
      && DecodeArchive(EncodeArchive(log.records, log.head).value, log.head) == Ok(EvidenceArchive(log.records, log.head))
  {
    hide Valid, VerifyChain, AllOk, After, DecodeArchive, ArchiveBytes;
    RunKeepsSound(sys, evs);
    RoundTripNeedsCheckedRecords(After(sys, evs).log.records, After(sys, evs).log.head);
  }

  // ---------------------------------------------------------------- accepted sequences

  datatype Admission = Admission(session: nat, envelope: Envelope)

  function AdmittedBy(sys: System, ev: Event): seq<Admission> {
    if ev.Submitting? && ev.session < |sys.sessions| && CountsFit(sys.world, sys.log)
      && Decide(sys.sessions[ev.session], sys.world, ev.envelope).code == NONE
    then [Admission(ev.session, ev.envelope)]
    else []
  }

  /** The accepted submissions of a run, in order. */
  function Admitted(sys: System, evs: seq<Event>): seq<Admission>
    decreases |evs|
  {
    if evs == [] then [] else AdmittedBy(sys, evs[0]) + Admitted(Happen(sys, evs[0]), evs[1..])
  }

  function SessionMark(sys: System, k: nat): U64 {
    if k < |sys.sessions| then sys.sessions[k].highest else 0
  }

  function EntityMark(sys: System, id: EntityId): U64 {
    Lookup(sys.world.highest, id)
  }

  /** The marks never fall; an accepted submission was above both of its marks and becomes both. */
  lemma MarksRise(sys: System, ev: Event)
    requires SystemSound(sys)
    ensures forall k: nat :: SessionMark(sys, k) <= SessionMark(Happen(sys, ev), k)
    ensures forall id :: EntityMark(sys, id) <= EntityMark(Happen(sys, ev), id)
    ensures forall x :: x in AdmittedBy(sys, ev) ==>
      && SessionMark(sys, x.session) < x.envelope.sequence == SessionMark(Happen(sys, ev), x.session)
      && EntityMark(sys, x.envelope.entityId) < x.envelope.sequence == EntityMark(Happen(sys, ev), x.envelope.entityId)
  {
    hide Valid, VerifyChain, AllOk, Advance, Decide, EntryOf, Appended, AddEntity, Queue;
    match ev
    case Adding(entity) => AddKeepsMarks(sys.world, entity);
    case Queueing(command) => QueueRaisesMark(sys.world, command);
    case Ticking =>
      if Advance(sys.world).Ok? { AdvanceShape(sys.world); }
    case Submitting(k, e) =>
      if k < |sys.sessions| {
        DecideIsTransactional(sys.sessions[k], sys.world, e);
        QueueRaisesMark(sys.world, Translate(e));
      }
  }

  lemma AddKeepsMarks(w: WorldState, entity: EntityState)
    requires Valid(w)
    ensures forall id :: Lookup(w.highest, id) == Lookup(AddEntity(w, entity).highest, id)
  {
    hide InsertId, VectorWithin, LimitsAccepted, QueueFits, IdsFit, EntityFits;
  }

  lemma QueueRaisesMark(w: WorldState, c: VelocityCommand)
    ensures forall id :: Lookup(w.highest, id) <= Lookup(Queue(w, c).highest, id)
  {
    hide Insert, VectorWithin;
  }

  /** Over every run, accepted sequences increase strictly within each session and within each
      entity, whichever sessions they came through. */
  lemma {:induction false} AdmittedSequencesIncrease(sys: System, evs: seq<Event>)
    requires SystemSound(sys)
    ensures forall i :: 0 <= i < |Admitted(sys, evs)| ==>
      var x := Admitted(sys, evs)[i];
      x.envelope.sequence > SessionMark(sys, x.session) && x.envelope.sequence > EntityMark(sys, x.envelope.entityId)
    ensures forall i, j :: 0 <= i < j < |Admitted(sys, evs)| ==>
      var x, y := Admitted(sys, evs)[i], Admitted(sys, evs)[j];
      x.session == y.session || x.envelope.entityId == y.envelope.entityId ==> x.envelope.sequence < y.envelope.sequence
    decreases |evs|
  {
    hide SystemSound, Happen, AdmittedBy, SessionMark, EntityMark;
    if evs != [] {
      var next := Happen(sys, evs[0]);
      var head, tail := AdmittedBy(sys, evs[0]), Admitted(next, evs[1..]);
      HappenKeepsSound(sys, evs[0]);
      MarksRise(sys, evs[0]);
      AdmittedSequencesIncrease(next, evs[1..]);
      AtMostOne(sys, evs[0]);
      assert Admitted(sys, evs) == head + tail;
      if head != [] {
        assert head[0] in head;
      }
    }
  }

  lemma AtMostOne(sys: System, ev: Event)
    ensures |AdmittedBy(sys, ev)| <= 1
  {
    hide Decide;
  }
}
