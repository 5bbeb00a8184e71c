/** The sequential runner: it walks a plan and stops at the first stage that does not pass. */
module Runner {
  import opened Integers
  import opened Bytes
  import opened TaskGraph
  import opened Planner

  datatype Status = Passed | Failed | Skipped | Cancelled | InternalError

  /** What running one stage can yield; a stage that runs is never reported as skipped. */
  type RunStatus = s: Status | s != Skipped witness Passed

  datatype StageOutcome = StageOutcome(status: RunStatus, exitCode: int)

  datatype StageResult = StageResult(id: string, title: string, scriptPath: string, status: Status, exitCode: int, error: string)

  datatype RunResult = RunResult(status: Status, stages: seq<StageResult>)

  datatype Stream = Stdout | Stderr

  /** What a running stage reports: a chunk of output, or that it saw the cancellation. */
  datatype Notice = Output(from: Stream, data: ByteString) | SawCancellation

  datatype Event =
    | RunStarted
    | StageStarted(id: string)
    | StageOutput(id: string, from: Stream, data: ByteString)
    | CancellationRequested(id: string)
    | StageFinished(id: string, status: Status, exitCode: int)
    | StageSkipped(id: string)
    | RunFinished(status: Status)

  /** How the world answers: whether the repository root is a directory, whether the context is
      cancelled when the loop reaches a stage, and what running the stage reports and yields. */
  datatype Conditions = Conditions(
    rootIsDirectory: bool,
    cancelled: nat -> bool,
    contextError: string,
    notices: nat -> seq<Notice>,
    outcome: nat -> StageOutcome,
    error: nat -> string)

  const NOT_RUN: string := "not run after an earlier stage stopped execution"

  function NoticeEvent(id: string, n: Notice): Event {
    match n
    case Output(from, data) => StageOutput(id, from, data)
    case SawCancellation => CancellationRequested(id)
  }

  /** The events that a stage emits while it runs. */
  function NoticeEvents(id: string, ns: seq<Notice>): (es: seq<Event>)
    ensures |es| == |ns|
    ensures forall i :: 0 <= i < |ns| ==> es[i] == NoticeEvent(id, ns[i])
  {
    seq(|ns|, i requires 0 <= i < |ns| => NoticeEvent(id, ns[i]))
  }

  predicate Stops(c: Conditions, i: nat) {
    c.cancelled(i) || c.outcome(i).status != Passed
  }

  /** The first stage from `i` on that does not pass, or the length of the plan. */
  function StopIndex(plan: seq<Task>, c: Conditions, i: nat): (k: nat)
    requires i <= |plan|
    ensures i <= k <= |plan|
    ensures forall j :: i <= j < k ==> !Stops(c, j)
    ensures k < |plan| ==> Stops(c, k)
    decreases |plan| - i
  {
    if i == |plan| || Stops(c, i) then i else StopIndex(plan, c, i + 1)
  }

  function ResultFor(t: Task, status: Status, exitCode: int, error: string): StageResult {
    StageResult(t.id, t.title, t.scriptPath, status, exitCode, error)
  }

  /** The entry of stage `j` in a run that stops at `k`. */
  function ExpectedStage(plan: seq<Task>, c: Conditions, k: nat, j: nat): StageResult
    requires j < |plan|
  {
    if j > k then ResultFor(plan[j], Skipped, -1, NOT_RUN)
    else if j == k && c.cancelled(j) then ResultFor(plan[j], Cancelled, 130, c.contextError)
    else ResultFor(plan[j], c.outcome(j).status, c.outcome(j).exitCode, c.error(j))
  }

  function StageEvents(plan: seq<Task>, c: Conditions, k: nat, j: nat): seq<Event>
    requires j < |plan|
  {
    var id, r := plan[j].id, ExpectedStage(plan, c, k, j);
    var last := StageFinished(id, r.status, r.exitCode);
    if j > k then [StageSkipped(id)]
    else if j == k && c.cancelled(j) then [last]
    else [StageStarted(id)] + NoticeEvents(id, c.notices(j)) + [last]
  }

  /** The events of the first `n` stages. */
  function EventsUpTo(plan: seq<Task>, c: Conditions, k: nat, n: nat): seq<Event>
    requires n <= |plan|
  {
    if n == 0 then [RunStarted] else EventsUpTo(plan, c, k, n - 1) + StageEvents(plan, c, k, n - 1)
  }

  function OverallStatus(plan: seq<Task>, c: Conditions, k: nat): Status {
    if k < |plan| then ExpectedStage(plan, c, k, k).status else Passed
  }

  /** The entries so far are those of a run that stops at `k`. */
  predicate AsExpected(plan: seq<Task>, c: Conditions, k: nat, stages: seq<StageResult>) {
    |stages| <= |plan| && forall j :: 0 <= j < |stages| ==> stages[j] == ExpectedStage(plan, c, k, j)
  }

  lemma OneMore(plan: seq<Task>, c: Conditions, k: nat, stages: seq<StageResult>, r: StageResult)
    requires AsExpected(plan, c, k, stages) && |stages| < |plan| && r == ExpectedStage(plan, c, k, |stages|)
    ensures AsExpected(plan, c, k, stages + [r])
  {
    hide ExpectedStage;
  }

  method Run(plan: seq<Task>, c: Conditions) returns (r: Option<RunResult>, events: seq<Event>)
    ensures r.Some? <==> c.rootIsDirectory && plan != []
    ensures r.None? ==> events == []
    ensures r.Some? ==>
      var k := StopIndex(plan, c, 0);
      && r.value.status == OverallStatus(plan, c, k)
      && |r.value.stages| == |plan| && AsExpected(plan, c, k, r.value.stages)
      && events == EventsUpTo(plan, c, k, |plan|) + [RunFinished(r.value.status)]
  {
    if !c.rootIsDirectory || plan == [] {
      return None, [];
    }
    hide StopIndex, ExpectedStage, StageEvents, EventsUpTo, NoticeEvents, ResultFor, OverallStatus;
    ghost var k := StopIndex(plan, c, 0);
    NoEvents(plan, c, k);
    var status, stages := Passed, [];
    events := [RunStarted];
    var index := 0;
    while index < |plan|
      invariant 0 <= index <= |plan|
      invariant index <= k ==> status == Passed && StopIndex(plan, c, index) == k
      invariant index > k ==> index == |plan| && status == OverallStatus(plan, c, k)
      invariant |stages| == index && AsExpected(plan, c, k, stages)
      invariant events == EventsUpTo(plan, c, k, index)
      decreases |plan| - index
    {
      var current := plan[index];
      StageStep(plan, c, k, index);
      OneMore(plan, c, k, stages, ExpectedStage(plan, c, k, index));
      if c.cancelled(index) {
        stages := stages + [ResultFor(current, Cancelled, 130, c.contextError)];
        events := events + [StageFinished(current.id, Cancelled, 130)];
        stages, events := AppendSkipped(plan, c, k, index + 1, stages, events);
        status := Cancelled;
        index := |plan|;
        break;
      }
      var outcome := c.outcome(index);
      var finish := StageFinished(current.id, outcome.status, outcome.exitCode);
      events := events + ([StageStarted(current.id)] + NoticeEvents(current.id, c.notices(index)) + [finish]);
      stages := stages + [ResultFor(current, outcome.status, outcome.exitCode, c.error(index))];
      if outcome.status != Passed {
        status := outcome.status;
        stages, events := AppendSkipped(plan, c, k, index + 1, stages, events);
        index := |plan|;
        break;
      }
      index := index + 1;
    }
    events := events + [RunFinished(status)];
    r := Some(RunResult(status, stages));
  }

  lemma NoEvents(plan: seq<Task>, c: Conditions, k: nat)
    ensures EventsUpTo(plan, c, k, 0) == [RunStarted]
  {
  }

  /** What the loop must add for the stage that it reaches. */
  lemma StageStep(plan: seq<Task>, c: Conditions, k: nat, i: nat)
    requires i < |plan| && k == StopIndex(plan, c, i)
    ensures Stops(c, i) ==> k == i
    ensures !Stops(c, i) ==> k == StopIndex(plan, c, i + 1) > i
    ensures var o, id := c.outcome(i), plan[i].id;
      if c.cancelled(i) then
        && ExpectedStage(plan, c, k, i) == ResultFor(plan[i], Cancelled, 130, c.contextError)
        && EventsUpTo(plan, c, k, i + 1) == EventsUpTo(plan, c, k, i) + [StageFinished(id, Cancelled, 130)]
      else
        && ExpectedStage(plan, c, k, i) == ResultFor(plan[i], o.status, o.exitCode, c.error(i))
        && EventsUpTo(plan, c, k, i + 1) == EventsUpTo(plan, c, k, i)
          + ([StageStarted(id)] + NoticeEvents(id, c.notices(i)) + [StageFinished(id, o.status, o.exitCode)])
    ensures k == i ==> OverallStatus(plan, c, k) == if c.cancelled(i) then Cancelled else c.outcome(i).status
  {
    hide NoticeEvents;
  }

  lemma SkippedStep(plan: seq<Task>, c: Conditions, k: nat, i: nat)
    requires k < i < |plan|
    ensures ExpectedStage(plan, c, k, i) == ResultFor(plan[i], Skipped, -1, NOT_RUN)
    ensures EventsUpTo(plan, c, k, i + 1) == EventsUpTo(plan, c, k, i) + [StageSkipped(plan[i].id)]
  {
    hide NoticeEvents;
  }

  /** Reports the remaining stages of the plan as skipped. */
  method AppendSkipped(plan: seq<Task>, ghost c: Conditions, ghost k: nat, start: nat, stages: seq<StageResult>, events: seq<Event>)
    returns (moreStages: seq<StageResult>, moreEvents: seq<Event>)
    requires k < start <= |plan| && |stages| == start
    requires AsExpected(plan, c, k, stages)
    requires events == EventsUpTo(plan, c, k, start)
    ensures |moreStages| == |plan| && AsExpected(plan, c, k, moreStages)
    ensures moreEvents == EventsUpTo(plan, c, k, |plan|)
  {
    hide ExpectedStage, StageEvents, EventsUpTo, ResultFor;
    moreStages, moreEvents := stages, events;
    for i := start to |plan|
      invariant |moreStages| == i && AsExpected(plan, c, k, moreStages)
      invariant moreEvents == EventsUpTo(plan, c, k, i)
    {
      SkippedStep(plan, c, k, i);
      OneMore(plan, c, k, moreStages, ExpectedStage(plan, c, k, i));
      moreStages := moreStages + [ResultFor(plan[i], Skipped, -1, NOT_RUN)];
      moreEvents := moreEvents + [StageSkipped(plan[i].id)];
    }
  }

  // ---------------------------------------------------------------- the runner respects the plan

  /** Passed stages, then at most one that did not pass, then only skipped ones. */
  lemma ResultsHaveOneStop(plan: seq<Task>, c: Conditions, j: nat)
    requires j < |plan|
    ensures var k, s := StopIndex(plan, c, 0), ExpectedStage(plan, c, StopIndex(plan, c, 0), j).status;
      && (j < k <==> s == Passed)
      && (j == k <==> s in {Failed, Cancelled, InternalError})
      && (j > k <==> s == Skipped)
    ensures var k, r := StopIndex(plan, c, 0), ExpectedStage(plan, c, StopIndex(plan, c, 0), j);
      && r.id == plan[j].id && r.title == plan[j].title && r.scriptPath == plan[j].scriptPath
      && (r.status == Skipped ==> r.exitCode == -1 && r.error == "not run after an earlier stage stopped execution")
      && (j == k && c.cancelled(j) ==> r.status == Cancelled && r.exitCode == 130 && r.error == c.contextError)
      && (j <= k && !c.cancelled(j) ==> r.status == c.outcome(j).status && r.exitCode == c.outcome(j).exitCode && r.error == c.error(j))
  {
    var k := StopIndex(plan, c, 0);
    assert j < k ==> !Stops(c, j);
    assert j == k ==> Stops(c, j);
  }

  /** The event that reports a stage as passed. */
  predicate Passes(e: Event, id: string) {
    e.StageFinished? && e.id == id && e.status == Passed
  }

  /** While a stage runs, each chunk of its output is reported under its id and stream, in order,
      between its start and its finish. */
  lemma OutputIsReported(plan: seq<Task>, c: Conditions, k: nat, j: nat, i: nat)
    requires j < |plan| && j <= k && !c.cancelled(j) && i < |c.notices(j)|
    ensures
      var es, id, n := StageEvents(plan, c, k, j), plan[j].id, c.notices(j)[i];
      && |es| == |c.notices(j)| + 2
      && es[0] == StageStarted(id)
      && (n.Output? ==> es[i + 1] == StageOutput(id, n.from, n.data))
      && (n.SawCancellation? ==> es[i + 1] == CancellationRequested(id))
      && es[|es| - 1] == StageFinished(id, c.outcome(j).status, c.outcome(j).exitCode)
  {
  }

  /** Among its events a stage starts only itself, and only if it runs. */
  lemma OwnStart(plan: seq<Task>, c: Conditions, k: nat, j: nat, i: nat)
    requires j < |plan| && i < |StageEvents(plan, c, k, j)|
    ensures var e := StageEvents(plan, c, k, j)[i]; e.StageStarted? ==> j <= k && e.id == plan[j].id
  {
  }

  lemma {:induction false} StartedAt(plan: seq<Task>, c: Conditions, k: nat, n: nat, x: nat) returns (j: nat)
    requires k <= |plan| && n <= |plan| && x < |EventsUpTo(plan, c, k, n)|
    requires EventsUpTo(plan, c, k, n)[x].StageStarted?
    ensures j < n && j <= k && EventsUpTo(plan, c, k, n)[x].id == plan[j].id
    ensures |EventsUpTo(plan, c, k, j)| <= x && EventsUpTo(plan, c, k, j) <= EventsUpTo(plan, c, k, n)
    decreases n
  {
    hide StageEvents;
    var before := EventsUpTo(plan, c, k, n - 1);
    if x < |before| {
      j := StartedAt(plan, c, k, n - 1, x);
    } else {
      j := n - 1;
      OwnStart(plan, c, k, j, x - |before|);
    }
  }

  lemma LastStageEvent(plan: seq<Task>, c: Conditions, k: nat, i: nat)
    requires i < k <= |plan| && k == StopIndex(plan, c, 0)
    ensures var es := StageEvents(plan, c, k, i); |es| > 0 && Passes(es[|es| - 1], plan[i].id)
  {
    hide StopIndex, NoticeEvents;
    assert !Stops(c, i);
  }

  lemma {:induction false} FinishedBefore(plan: seq<Task>, c: Conditions, k: nat, n: nat, i: nat) returns (y: nat)
    requires i < n <= |plan| && n <= k <= |plan| && k == StopIndex(plan, c, 0)
    ensures y < |EventsUpTo(plan, c, k, n)| && Passes(EventsUpTo(plan, c, k, n)[y], plan[i].id)
    decreases n
  {
    hide StageEvents, StopIndex;
    var before := EventsUpTo(plan, c, k, n - 1);
    if i < n - 1 {
      y := FinishedBefore(plan, c, k, n - 1, i);
    } else {
      LastStageEvent(plan, c, k, i);
      y := |before| + |StageEvents(plan, c, k, i)| - 1;
    }
  }

  /** For every plan of the planner and every pattern of outcomes and cancellation: before a stage
      starts, each of its transitive dependencies has finished and passed. */
  lemma NoStageStartsEarly(g: Graph, selected: set<string>, plan: seq<Task>, c: Conditions, x: nat, d: string) returns (y: nat)
    requires IsPlan(g, selected, plan)
    requires var events := EventsUpTo(plan, c, StopIndex(plan, c, 0), |plan|);
      x < |events| && events[x].StageStarted? && Leads(g, events[x].id, d)
    ensures var events := EventsUpTo(plan, c, StopIndex(plan, c, 0), |plan|);
      y < x && Passes(events[y], d)
  {
    hide Needed, Distinct, EventsUpTo, StopIndex;
    var k := StopIndex(plan, c, 0);
    var events := EventsUpTo(plan, c, k, |plan|);
    var j := StartedAt(plan, c, k, |plan|, x);
    var p :| Joins(g, p, plan[j].id, d) && |p| >= 2;
    PathsGoBack(g, Ids(plan), p, j);
    var i :| 0 <= i < j && Ids(plan)[i] == d;
    y := FinishedBefore(plan, c, k, j, i);
    assert events[y] == EventsUpTo(plan, c, k, j)[y];
  }
}
