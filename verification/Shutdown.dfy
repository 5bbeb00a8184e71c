/** How one stage is supervised: two capture goroutines, the goroutines that wait for them and for
    the process, and the supervisor with its cancellation and grace timer, as a state machine over
    every interleaving of their steps. */
module Shutdown {
  import opened Integers
  import opened Bytes
  import opened Runner

  /** How a read ends: more to come, end of file, or a read error. */
  datatype Ending = More | EndOfFile | ReadError

  /** Where a capture goroutine is. */
  datatype CapturePc =
    | Reading
    | Writing(chunk: ByteString, ending: Ending)
    | Emitting(chunk: ByteString, ending: Ending)
    | Sending
    | Leaving
    | Ended

  /** A capture with its target buffer, the chunks it has emitted, and whether it sent an error. */
  datatype Capture = Capture(pc: CapturePc, target: ByteString, emitted: seq<ByteString>, sent: bool)

  datatype WaitResult = ExitedZero | ExitedWith(code: int) | WaitFailed

  /** The goroutine that sends the result of `Wait` once the readers are done. */
  datatype Reaper = AwaitReaders | AwaitProcess | Reaped(result: WaitResult)

  /** The supervisor. The flags say which of the two channels it has already drained. */
  datatype Supervisor =
    | Awaiting(gotProcess: bool, gotReaders: bool)
    | Draining(gotProcess: bool, gotReaders: bool)
    | Killed(gotProcess: bool, gotReaders: bool)
    | Closing(cancelled: bool)
    | Copying(cancelled: bool)
    | Joining(cancelled: bool)
    | Finished(outcome: StageOutcome)

  /** `waiting` is the wait group's counter; `errors` the number of errors in the channel of
      capacity two; `joined` how many of them the supervisor has taken out. */
  datatype State = State(
    stdout: Capture,
    stderr: Capture,
    waiting: nat,
    readersDone: bool,
    reaper: Reaper,
    errors: nat,
    errorsClosed: bool,
    joined: nat,
    contextDone: bool,
    copied: Option<(ByteString, ByteString)>,
    supervisor: Supervisor)

  const FRESH_CAPTURE: Capture := Capture(Reading, [], [], false)

  const START: State :=
    State(FRESH_CAPTURE, FRESH_CAPTURE, 2, false, AwaitReaders, 0, false, 0, false, None, Awaiting(false, false))

  function CaptureOf(s: State, k: Stream): Capture {
    if k == Stdout then s.stdout else s.stderr
  }

  function WithCapture(s: State, k: Stream, c: Capture): State {
    if k == Stdout then s.(stdout := c) else s.(stderr := c)
  }

  /** The steps of the goroutines, and the two that the outside world takes: the context is
      cancelled, the process exits. */
  datatype Move =
    | Read(stream: Stream, chunk: ByteString, ending: Ending)
    | Write(stream: Stream)
    | Emit(stream: Stream)
    | SendError(stream: Stream)
    | Leave(stream: Stream)
    | CloseReaders
    | ReaperProceeds
    | ProcessExits(result: WaitResult)
    | ReceiveProcess
    | ReceiveReaders
    | CancelContext
    | NoticeCancellation
    | TimerFires
    | CloseErrors
    | CopyBuffers
    | JoinError
    | Conclude

  function AfterRead(ending: Ending): CapturePc {
    match ending
    case More => Reading
    case EndOfFile => Leaving
    case ReadError => Sending
  }

  /** Still waiting for one of the two channels. */
  predicate Selecting(v: Supervisor) {
    (v.Awaiting? || v.Draining? || v.Killed?) && !(v.gotProcess && v.gotReaders)
  }

  /** After receiving, the loop goes on or the supervisor returns to close the error channel. */
  function Received(v: Supervisor, gotProcess: bool, gotReaders: bool): Supervisor
    requires v.Awaiting? || v.Draining? || v.Killed?
  {
    if gotProcess && gotReaders then Closing(!v.Awaiting?)
    else v.(gotProcess := gotProcess, gotReaders := gotReaders)
  }

  /** When a step can be taken; a send on a full channel or a receive on an empty one cannot. */
  predicate Enabled(s: State, m: Move) {
    match m
    case Read(k, chunk, ending) => CaptureOf(s, k).pc.Reading?
    case Write(k) => CaptureOf(s, k).pc.Writing?
    case Emit(k) => CaptureOf(s, k).pc.Emitting?
    case SendError(k) => CaptureOf(s, k).pc.Sending? && s.errors < 2 && !s.errorsClosed
    case Leave(k) => CaptureOf(s, k).pc.Leaving?
    case CloseReaders => s.waiting == 0 && !s.readersDone
    case ReaperProceeds => s.reaper.AwaitReaders? && s.readersDone
    case ProcessExits(_) => s.reaper.AwaitProcess?
    case ReceiveProcess => Selecting(s.supervisor) && !s.supervisor.gotProcess && s.reaper.Reaped?
    case ReceiveReaders =>
      // After the kill the process channel is drained first.
      && Selecting(s.supervisor) && !s.supervisor.gotReaders && s.readersDone
      && (s.supervisor.Killed? ==> s.supervisor.gotProcess)
    case CancelContext => true
    case NoticeCancellation => s.supervisor.Awaiting? && s.contextDone
    case TimerFires => s.supervisor.Draining?
    case CloseErrors => s.supervisor.Closing?
    case CopyBuffers => s.supervisor.Copying?
    case JoinError => s.supervisor.Joining? && s.errors > 0
    case Conclude => s.supervisor.Joining? && s.errors == 0 && s.errorsClosed
  }

  /** The final switch of the stage. */
  function Classify(cancelled: bool, readFailed: bool, wait: WaitResult): StageOutcome {
    if cancelled then StageOutcome(Cancelled, 130)
    else if readFailed then StageOutcome(InternalError, -1)
    else
      match wait
      case ExitedZero => StageOutcome(Passed, 0)
      case ExitedWith(code) => StageOutcome(Failed, code)
      case WaitFailed => StageOutcome(InternalError, -1)
  }

  function Take(s: State, m: Move): State
    requires Enabled(s, m)
  {
    match m
    case Read(k, chunk, ending) =>
      var c := CaptureOf(s, k);
      WithCapture(s, k, c.(pc := if chunk != [] then Writing(chunk, ending) else AfterRead(ending)))
    case Write(k) =>
      var c := CaptureOf(s, k);
      WithCapture(s, k, c.(pc := Emitting(c.pc.chunk, c.pc.ending), target := c.target + c.pc.chunk))
    case Emit(k) =>
      var c := CaptureOf(s, k);
      WithCapture(s, k, c.(pc := AfterRead(c.pc.ending), emitted := c.emitted + [c.pc.chunk]))
    case SendError(k) =>
      WithCapture(s, k, CaptureOf(s, k).(pc := Leaving, sent := true)).(errors := s.errors + 1)
    case Leave(k) =>
      WithCapture(s, k, CaptureOf(s, k).(pc := Ended)).(waiting := if s.waiting > 0 then s.waiting - 1 else 0)
    case CloseReaders => s.(readersDone := true)
    case ReaperProceeds => s.(reaper := AwaitProcess)
    case ProcessExits(result) => s.(reaper := Reaped(result))
    case ReceiveProcess => s.(supervisor := Received(s.supervisor, true, s.supervisor.gotReaders))
    case ReceiveReaders => s.(supervisor := Received(s.supervisor, s.supervisor.gotProcess, true))
    case CancelContext => s.(contextDone := true)
    case NoticeCancellation => s.(supervisor := Draining(s.supervisor.gotProcess, s.supervisor.gotReaders))
    case TimerFires => s.(supervisor := Killed(s.supervisor.gotProcess, s.supervisor.gotReaders))
    case CloseErrors => s.(errorsClosed := true, supervisor := Copying(s.supervisor.cancelled))
    case CopyBuffers => s.(copied := Some((s.stdout.target, s.stderr.target)), supervisor := Joining(s.supervisor.cancelled))
    case JoinError => s.(errors := s.errors - 1, joined := s.joined + 1)
    case Conclude =>
      s.(supervisor := Finished(
        Classify(s.supervisor.cancelled, s.joined > 0, if s.reaper.Reaped? then s.reaper.result else WaitFailed)))
  }

  // ---------------------------------------------------------------- the invariant

  function Pending(c: Capture): nat {
    if c.pc.Ended? then 0 else 1
  }

  function Sent(c: Capture): nat {
    if c.sent then 1 else 0
  }

  /** The buffer holds what has been emitted and, between the two steps, the chunk in hand. */
  predicate CaptureFits(c: Capture) {
    && c.target == Concat(c.emitted) + (if c.pc.Emitting? then c.pc.chunk else [])
    && (c.sent ==> c.pc.Leaving? || c.pc.Ended?)
  }

  predicate Waits(v: Supervisor) {
    v.Awaiting? || v.Draining? || v.Killed?
  }

  predicate Inv(s: State) {
    && CaptureFits(s.stdout) && CaptureFits(s.stderr)
    && s.waiting == Pending(s.stdout) + Pending(s.stderr)
    && (s.readersDone ==> s.waiting == 0)
    && (!s.reaper.AwaitReaders? ==> s.readersDone)
    && s.errors + s.joined == Sent(s.stdout) + Sent(s.stderr)
    && (Waits(s.supervisor) ==>
          && Selecting(s.supervisor)
          && (s.supervisor.gotProcess ==> s.reaper.Reaped?)
          && (s.supervisor.gotReaders ==> s.readersDone))
    && (Waits(s.supervisor) || s.supervisor.Closing? <==> !s.errorsClosed)
    && (!Waits(s.supervisor) ==> s.readersDone && s.reaper.Reaped?)
    && (s.joined > 0 ==> s.supervisor.Joining? || s.supervisor.Finished?)
    && (s.copied.Some? <==> s.supervisor.Joining? || s.supervisor.Finished?)
    && (s.copied.Some? ==> s.copied.value == (Concat(s.stdout.emitted), Concat(s.stderr.emitted)))
    && (s.supervisor.Finished? ==> s.errors == 0)
  }

  lemma StartFits()
    ensures Inv(START)
  {
  }

  lemma EndedFits(c: Capture)
    requires CaptureFits(c) && c.pc.Ended?
    ensures c.target == Concat(c.emitted)
  {
    assert Concat(c.emitted) + [] == Concat(c.emitted);
  }

  lemma EmitFits(c: Capture)
    requires CaptureFits(c) && c.pc.Emitting?
    ensures CaptureFits(c.(pc := AfterRead(c.pc.ending), emitted := c.emitted + [c.pc.chunk]))
  {
    ConcatSnoc(c.emitted, c.pc.chunk);
  }

  /** The capture after one of its own steps. */
  lemma CaptureStepFits(s: State, m: Move)
    requires Enabled(s, m) && (m.Read? || m.Write? || m.Emit? || m.SendError? || m.Leave?)
    requires CaptureFits(CaptureOf(s, m.stream))
    ensures var c, d := CaptureOf(s, m.stream), CaptureOf(Take(s, m), m.stream);
      && CaptureFits(d)
      && Pending(d) == (if m.Leave? then 0 else 1) && Pending(c) == 1
      && Sent(d) == Sent(c) + (if m.SendError? then 1 else 0)
  {
    hide Concat;
    var c := CaptureOf(s, m.stream);
    if m.Emit? {
      EmitFits(c);
    }
    assert Concat(c.emitted) + [] == Concat(c.emitted);
  }

  lemma CaptureStepKeepsInv(s: State, m: Move)
    requires Inv(s) && Enabled(s, m)
    requires m.Read? || m.Write? || m.Emit? || m.SendError? || m.Leave?
    ensures Inv(Take(s, m))
  {
    hide Concat, CaptureFits, AfterRead;
    CaptureStepFits(s, m);
  }

  lemma OtherStepKeepsInv(s: State, m: Move)
    requires Inv(s) && Enabled(s, m)
    requires !(m.Read? || m.Write? || m.Emit? || m.SendError? || m.Leave?)
    ensures Inv(Take(s, m))
  {
    hide Concat;
    if m.CopyBuffers? {
      EndedFits(s.stdout);
      EndedFits(s.stderr);
    }
  }

  /** A run of the protocol: a list of moves, each enabled when it is taken. */
  predicate Runs(s: State, ms: seq<Move>)
    decreases |ms|
  {
    ms == [] || (Enabled(s, ms[0]) && Runs(Take(s, ms[0]), ms[1..]))
  }

  function End(s: State, ms: seq<Move>): State
    requires Runs(s, ms)
    decreases |ms|
  {
    if ms == [] then s else End(Take(s, ms[0]), ms[1..])
  }

  lemma {:induction false} RunKeepsInv(s: State, ms: seq<Move>)
    requires Inv(s) && Runs(s, ms)
    ensures Inv(End(s, ms))
    decreases |ms|
  {
    hide Inv, Enabled, Take;
    if ms != [] {
      var m := ms[0];
      if m.Read? || m.Write? || m.Emit? || m.SendError? || m.Leave? {
        CaptureStepKeepsInv(s, m);
      } else {
        OtherStepKeepsInv(s, m);
      }
      RunKeepsInv(Take(s, m), ms[1..]);
    }
  }

  // ---------------------------------------------------------------- safety of every interleaving

  /** In every interleaving: the error channel is closed and the buffers are read only after both
      captures have ended; a capture that has an error to report can always send it; the copies
      that the stage reports are the concatenations of the chunks emitted for each stream. */
  lemma ProtocolIsSafe(ms: seq<Move>)
    requires Runs(START, ms)
    ensures
      var s := End(START, ms);
      && (Enabled(s, CloseErrors) || Enabled(s, CopyBuffers) || s.errorsClosed ==> s.stdout.pc.Ended? && s.stderr.pc.Ended?)
      && (forall k :: CaptureOf(s, k).pc.Sending? ==> Enabled(s, SendError(k)))
      && (s.copied.Some? ==> s.copied.value == (Concat(s.stdout.emitted), Concat(s.stderr.emitted)))
  {
    hide Concat, Runs, End, CaptureFits;
    StartFits();
    RunKeepsInv(START, ms);
    SendingHasNotSent(End(START, ms));
  }

  lemma SendingHasNotSent(s: State)
    requires Inv(s)
    ensures s.stdout.pc.Sending? ==> !s.stdout.sent
    ensures s.stderr.pc.Sending? ==> !s.stderr.sent
  {
    hide Concat;
  }

  // ---------------------------------------------------------------- what the result says about the run

  /** The bytes that the reads of a run returned for one stream. */
  function BytesRead(ms: seq<Move>, k: Stream): ByteString {
    if ms == [] then []
    else
      var m := ms[|ms| - 1];
      BytesRead(ms[..|ms| - 1], k) + if m.Read? && m.stream == k then m.chunk else []
  }

  /** Some read of the stream ended this way. */
  ghost predicate Saw(ms: seq<Move>, k: Stream, ending: Ending) {
    exists chunk :: Read(k, chunk, ending) in ms
  }

  ghost predicate ReadFailed(ms: seq<Move>) {
    Saw(ms, Stdout, ReadError) || Saw(ms, Stderr, ReadError)
  }

  predicate InHand(pc: CapturePc, ending: Ending) {
    (pc.Writing? || pc.Emitting?) && pc.ending == ending
  }

  /** Where a capture stands after the moves so far. */
  ghost predicate CaptureMatches(ms: seq<Move>, k: Stream, c: Capture) {
    && BytesRead(ms, k) == c.target + (if c.pc.Writing? then c.pc.chunk else [])
    && (Saw(ms, k, ReadError) <==> InHand(c.pc, ReadError) || c.pc.Sending? || c.sent)
    && (Saw(ms, k, EndOfFile) <==> InHand(c.pc, EndOfFile) || ((c.pc.Leaving? || c.pc.Ended?) && !c.sent))
  }

  /** The supervisor has acted on a cancellation. */
  predicate ActedOn(v: Supervisor) {
    match v
    case Awaiting(_, _) => false
    case Draining(_, _) => true
    case Killed(_, _) => true
    case Closing(cancelled) => cancelled
    case Copying(cancelled) => cancelled
    case Joining(cancelled) => cancelled
    case Finished(outcome) => outcome.status == Cancelled
  }

  ghost predicate Matches(ms: seq<Move>, s: State) {
    && CaptureMatches(ms, Stdout, s.stdout) && CaptureMatches(ms, Stderr, s.stderr)
    && (NoticeCancellation in ms <==> ActedOn(s.supervisor))
    && (forall r :: ProcessExits(r) in ms <==> s.reaper == Reaped(r))
    && (s.supervisor.Finished? && s.reaper.Reaped? ==>
          s.supervisor.outcome == Classify(NoticeCancellation in ms, ReadFailed(ms), s.reaper.result))
  }

  lemma StartMatches()
    ensures Matches([], START)
  {
  }

  lemma ReadsSnoc(ms: seq<Move>, m: Move, k: Stream)
    ensures BytesRead(ms + [m], k) == BytesRead(ms, k) + if m.Read? && m.stream == k then m.chunk else []
    ensures forall e :: Saw(ms + [m], k, e) <==> Saw(ms, k, e) || (m.Read? && m.stream == k && m.ending == e)
  {
    assert (ms + [m])[..|ms|] == ms;
    forall e
      ensures Saw(ms + [m], k, e) <==> Saw(ms, k, e) || (m.Read? && m.stream == k && m.ending == e)
    {
      if Saw(ms, k, e) {
        var chunk :| Read(k, chunk, e) in ms;
        assert Read(k, chunk, e) in ms + [m];
      }
      if m.Read? && m.stream == k && m.ending == e {
        assert Read(k, m.chunk, e) in ms + [m];
      }
    }
  }

  /** A capture after one of its own steps. */
  lemma OwnStepMatches(ms: seq<Move>, s: State, m: Move)
    requires Enabled(s, m) && (m.Read? || m.Write? || m.Emit? || m.SendError? || m.Leave?)
    requires CaptureFits(CaptureOf(s, m.stream)) && CaptureMatches(ms, m.stream, CaptureOf(s, m.stream))
    ensures CaptureMatches(ms + [m], m.stream, CaptureOf(Take(s, m), m.stream))
  {
    hide Concat, Saw, BytesRead;
    ReadsSnoc(ms, m, m.stream);
    var c := CaptureOf(s, m.stream);
    assert BytesRead(ms, m.stream) + [] == BytesRead(ms, m.stream) && c.target + [] == c.target;
  }

  lemma OtherStepMatches(ms: seq<Move>, m: Move, k: Stream, c: Capture)
    requires CaptureMatches(ms, k, c) && !(m.Read? && m.stream == k)
    ensures CaptureMatches(ms + [m], k, c)
  {
    hide Saw, BytesRead;
    ReadsSnoc(ms, m, k);
    assert BytesRead(ms, k) + [] == BytesRead(ms, k);
  }

  lemma CaptureStepMatches(ms: seq<Move>, s: State, m: Move)
    requires Inv(s) && Matches(ms, s) && Enabled(s, m)
    requires m.Read? || m.Write? || m.Emit? || m.SendError? || m.Leave?
    ensures Matches(ms + [m], Take(s, m))
  {
    hide Concat, CaptureFits, CaptureMatches, AfterRead, ReadFailed;
    var other := if m.stream == Stdout then Stderr else Stdout;
    OwnStepMatches(ms, s, m);
    OtherStepMatches(ms, m, other, CaptureOf(s, other));
    FinishedIsStill(s, m);
  }

  /** Once the stage has its result, both captures have ended. */
  lemma FinishedIsStill(s: State, m: Move)
    requires Inv(s) && Enabled(s, m)
    requires m.Read? || m.Write? || m.Emit? || m.SendError? || m.Leave?
    ensures !s.supervisor.Finished?
  {
    hide Concat, CaptureFits;
  }

  lemma SupervisionStepMatches(ms: seq<Move>, s: State, m: Move)
    requires Inv(s) && Matches(ms, s) && Enabled(s, m)
    requires !(m.Read? || m.Write? || m.Emit? || m.SendError? || m.Leave?)
    ensures Matches(ms + [m], Take(s, m))
  {
    hide Concat, CaptureFits, CaptureMatches, ReadFailed, Classify;
    OtherStepMatches(ms, m, Stdout, s.stdout);
    OtherStepMatches(ms, m, Stderr, s.stderr);
    SameFailure(ms, m);
    if m.Conclude? {
      JoinedMeansFailed(ms, s);
      ClassifyCancelled(s.supervisor.cancelled, s.joined > 0, s.reaper.result);
    }
  }

  lemma SameFailure(ms: seq<Move>, m: Move)
    requires !m.Read?
    ensures ReadFailed(ms + [m]) == ReadFailed(ms)
  {
    hide Saw;
    ReadsSnoc(ms, m, Stdout);
    ReadsSnoc(ms, m, Stderr);
  }

  lemma ClassifyCancelled(cancelled: bool, readFailed: bool, wait: WaitResult)
    ensures Classify(cancelled, readFailed, wait).status == Cancelled <==> cancelled
  {
  }

  /** The errors that the supervisor has joined are exactly the failed reads. */
  lemma JoinedMeansFailed(ms: seq<Move>, s: State)
    requires Inv(s) && Matches(ms, s) && s.supervisor.Joining? && s.errors == 0
    ensures s.joined > 0 <==> ReadFailed(ms)
  {
    hide Concat, CaptureFits, Saw, BytesRead;
  }

  lemma {:induction false} RunMatches(before: seq<Move>, s: State, ms: seq<Move>)
    requires Inv(s) && Matches(before, s) && Runs(s, ms)
    ensures Matches(before + ms, End(s, ms))
    decreases |ms|
  {
    hide Inv, Enabled, Take, Matches;
    if ms == [] {
      assert before + ms == before;
    } else {
      var m := ms[0];
      if m.Read? || m.Write? || m.Emit? || m.SendError? || m.Leave? {
        CaptureStepKeepsInv(s, m);
        CaptureStepMatches(before, s, m);
      } else {
        OtherStepKeepsInv(s, m);
        SupervisionStepMatches(before, s, m);
      }
      RunMatches(before + [m], Take(s, m), ms[1..]);
      assert before + [m] + ms[1..] == before + ms;
    }
  }

  /** The result of every finished run, from its history alone: cancelled if and only if the
      supervisor noticed a cancellation; otherwise an internal error if and only if a read or the
      wait failed; otherwise passed or failed by how the process exited. The streams reported are
      all the bytes read, and without a read error both were read to their end. */
  lemma OutcomeIsExact(ms: seq<Move>)
    requires Runs(START, ms) && End(START, ms).supervisor.Finished?
    ensures
      var s, noticed, broken := End(START, ms), NoticeCancellation in ms, ReadFailed(ms);
      var o := s.supervisor.outcome;
      && (o == StageOutcome(Cancelled, 130) <==> noticed)
      && (o == StageOutcome(InternalError, -1) <==> !noticed && (broken || ProcessExits(WaitFailed) in ms))
      && (o == StageOutcome(Passed, 0) <==> !noticed && !broken && ProcessExits(ExitedZero) in ms)
      && (forall code :: o == StageOutcome(Failed, code) <==> !noticed && !broken && ProcessExits(ExitedWith(code)) in ms)
      && (broken || (Saw(ms, Stdout, EndOfFile) && Saw(ms, Stderr, EndOfFile)))
      && s.copied == Some((BytesRead(ms, Stdout), BytesRead(ms, Stderr)))
      && s.stdout.pc.Ended? && s.stderr.pc.Ended?
  {
    hide Concat, Runs, End, Saw, BytesRead;
    StartFits();
    StartMatches();
    RunKeepsInv(START, ms);
    RunMatches([], START, ms);
    assert [] + ms == ms;
    var s := End(START, ms);
    EndedFits(s.stdout);
    EndedFits(s.stderr);
    assert s.stdout.target + [] == s.stdout.target && s.stderr.target + [] == s.stderr.target;
  }

  // ---------------------------------------------------------------- progress

  function CaptureRank(pc: CapturePc): nat {
    match pc
    case Reading => 4
    case Writing(_, _) => 6
    case Emitting(_, _) => 5
    case Sending => 3
    case Leaving => 1
    case Ended => 0
  }

  function ReaperRank(r: Reaper): nat {
    match r
    case AwaitReaders => 2
    case AwaitProcess => 1
    case Reaped(_) => 0
  }

  function SupervisorRank(v: Supervisor): nat {
    match v
    case Awaiting(p, r) => 13 + Undrained(p, r)
    case Draining(p, r) => 8 + Undrained(p, r)
    case Killed(p, r) => 4 + Undrained(p, r)
    case Closing(_) => 3
    case Copying(_) => 2
    case Joining(_) => 1
    case Finished(_) => 0
  }

  function Undrained(gotProcess: bool, gotReaders: bool): nat {
    (if gotProcess then 0 else 1) + (if gotReaders then 0 else 1)
  }

  /** How many steps are left if no more data arrives. */
  function Rank(s: State): nat {
    CaptureRank(s.stdout.pc) + CaptureRank(s.stderr.pc) + (if s.readersDone then 0 else 1)
      + ReaperRank(s.reaper) + SupervisorRank(s.supervisor) + s.errors
  }

  /** Every step but a read and a cancellation brings the stage closer to its result. */
  lemma StepFalls(s: State, m: Move)
    requires Enabled(s, m)
    ensures m.Read? ==> Rank(Take(s, m)) <= Rank(s) + 2
    ensures m.CancelContext? ==> Rank(Take(s, m)) == Rank(s)
    ensures !m.Read? && !m.CancelContext? ==> Rank(Take(s, m)) < Rank(s)
  {
    hide Classify, Rank;
    if m.Read? || m.Write? || m.Emit? || m.SendError? || m.Leave? {
      CaptureStepFalls(s, m);
    } else {
      SupervisionStepFalls(s, m);
    }
  }

  lemma CaptureStepFalls(s: State, m: Move)
    requires Enabled(s, m) && (m.Read? || m.Write? || m.Emit? || m.SendError? || m.Leave?)
    ensures Rank(Take(s, m)) < Rank(s) + if m.Read? then 3 else 0
  {
    hide SupervisorRank, ReaperRank;
  }

  lemma SupervisionStepFalls(s: State, m: Move)
    requires Enabled(s, m) && !(m.Read? || m.Write? || m.Emit? || m.SendError? || m.Leave?)
    ensures Rank(Take(s, m)) < Rank(s) + if m.CancelContext? then 1 else 0
    ensures m.CancelContext? ==> Rank(Take(s, m)) == Rank(s)
  {
    hide Classify, CaptureRank;
  }

  /** The steps of a run; cancelling a context again changes nothing and is not one. */
  function Steps(ms: seq<Move>): nat {
    if ms == [] then 0 else (if ms[0].CancelContext? then 0 else 1) + Steps(ms[1..])
  }

  function Reads(ms: seq<Move>): nat {
    if ms == [] then 0 else (if ms[0].Read? then 1 else 0) + Reads(ms[1..])
  }

  lemma {:induction false} RankBounds(s: State, ms: seq<Move>)
    requires Runs(s, ms)
    ensures Steps(ms) + Rank(End(s, ms)) <= Rank(s) + 3 * Reads(ms)
    decreases |ms|
  {
    hide Enabled, Take, Rank;
    if ms != [] {
      StepFalls(s, ms[0]);
      RankBounds(Take(s, ms[0]), ms[1..]);
    }
  }

  /** Every run is as short as its reads allow: it takes at most 26 steps and three per read. With
      `NeverStuck`, a stage whose streams end and whose process exits gets its result. */
  lemma RunsAreBounded(ms: seq<Move>)
    requires Runs(START, ms)
    ensures Steps(ms) <= 26 + 3 * Reads(ms)
  {
    hide Runs, End;
    RankBounds(START, ms);
  }

  /** No interleaving deadlocks: until the stage has its result some goroutine or the process can
      take a step, without waiting for a cancellation or for the timer. */
  lemma NeverStuck(ms: seq<Move>) returns (m: Move)
    requires Runs(START, ms) && !End(START, ms).supervisor.Finished?
    ensures Enabled(End(START, ms), m)
    ensures !m.CancelContext? && !m.NoticeCancellation? && !m.TimerFires?
  {
    hide Concat, Runs, End, CaptureFits;
    StartFits();
    RunKeepsInv(START, ms);
    var s := End(START, ms);
    SendingHasNotSent(s);
    if !s.stdout.pc.Ended? {
      m := NextOf(s, Stdout);
    } else if !s.stderr.pc.Ended? {
      m := NextOf(s, Stderr);
    } else if !s.readersDone {
      m := CloseReaders;
    } else if s.reaper.AwaitReaders? {
      m := ReaperProceeds;
    } else if s.reaper.AwaitProcess? {
      m := ProcessExits(ExitedZero);
    } else {
      m := match s.supervisor
        case Awaiting(process, _) => NextChannel(process)
        case Draining(process, _) => NextChannel(process)
        case Killed(process, _) => NextChannel(process)
        case Closing(_) => CloseErrors
        case Copying(_) => CopyBuffers
        case Joining(_) => if s.errors > 0 then JoinError else Conclude;
    }
  }

  function NextChannel(gotProcess: bool): Move {
    if gotProcess then ReceiveReaders else ReceiveProcess
  }

  lemma NextOf(s: State, k: Stream) returns (m: Move)
    requires Inv(s) && !CaptureOf(s, k).pc.Ended?
    requires CaptureOf(s, k).pc.Sending? ==> !CaptureOf(s, k).sent
    ensures Enabled(s, m) && !m.CancelContext? && !m.NoticeCancellation? && !m.TimerFires?
  {
    hide Concat, CaptureFits;
    m := match CaptureOf(s, k).pc
      case Reading => Read(k, [], EndOfFile)
      case Writing(_, _) => Write(k)
      case Emitting(_, _) => Emit(k)
      case Sending => SendError(k)
      case _ => Leave(k);
  }
}
