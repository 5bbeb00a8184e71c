/** The replay verifier: it rebuilds a run from its records, and accepts exactly the records of
    runs that fit its budget. */
module Replay {
  import opened Integers
  import opened WorldModel
  import opened WorldInvariant
  import opened World
  import opened WorldEncoding
  import opened Commands
  import opened Evidence
  import opened Chain
  import opened Pipeline

  datatype ReplayCode =
    | Verified
    | ChainFailed
    | ObservedTickRegression
    | TickAdvanceLimitExceeded
    | SimulationAdvanceFailed
    | SessionStateMismatch
    | PendingCommandCountMismatch
    | WorldStateMismatch
    | SubmissionRecordMismatch

  datatype ReplayResult = ReplayResult(
    code: ReplayCode,
    processed: nat,
    failedOrdinal: Option<U64>,
    performedAdvances: U64,
    finalTick: U64,
    finalSessionSequence: U64,
    finalPendingCount: nat,
    finalFingerprint: U64,
    head: Digest)

  function MakeResult(code: ReplayCode, processed: nat, failed: Option<U64>, performed: U64, a: Authority): ReplayResult {
    ReplayResult(code, processed, failed, performed, a.world.clock.index, a.session.highest,
                 |a.world.pending|, FingerprintWorldState(a.world), a.log.head)
  }

  datatype Advancing = Advancing(world: WorldState, ok: bool)

  /** Up to `n` ticks, stopping at the first that throws. */
  function AdvanceMany(w: WorldState, n: nat): Advancing
    decreases n
  {
    if n == 0 then Advancing(w, true)
    else if Advance(w).Err? then Advancing(w, false)
    else AdvanceMany(Advance(w).value, n - 1)
  }

  /** The tests of one record against the state in which it was written. */
  function CheckState(a: Authority, r: EvidenceEntry): ReplayCode {
    if a.session.highest != r.sessionBefore then SessionStateMismatch
    else if |a.world.pending| != r.pendingBefore then PendingCommandCountMismatch
    else if FingerprintWorldState(a.world) != r.fingerprintBefore then WorldStateMismatch
    else Verified
  }

  /** What one record leads to: the end of the replay, or the next state. */
  datatype Outcome = Stop(result: ReplayResult) | Go(next: Authority, total: U64)

  /** One pass through the outer loop. The precondition is the loop invariant that keeps the
      subtraction of the budget from underflowing; every outcome keeps it. */
  function ReplayStep(max: U64, a: Authority, index: nat, r: EvidenceRecord, performed: U64): (o: Outcome)
    requires performed <= max
    ensures o.Go? ==> performed <= o.total <= max
  {
    hide Submitted, MakeResult, AdvanceMany;
    var failed := Some(r.ordinal);
    if r.entry.observedTick < a.world.clock.index then
      Stop(MakeResult(ObservedTickRegression, index, failed, performed, a))
    else
      var required: U64 := r.entry.observedTick - a.world.clock.index;
      if required > max - performed then
        Stop(MakeResult(TickAdvanceLimitExceeded, index, failed, performed, a))
      else
        var advanced := AdvanceMany(a.world, required);
        var b := a.(world := advanced.world);
        if !advanced.ok then
          Stop(MakeResult(SimulationAdvanceFailed, index, failed, performed, b))
        else if CheckState(b, r.entry) != Verified then
          Stop(MakeResult(CheckState(b, r.entry), index, failed, performed + required, b))
        else
          var c := Submitted(b, r.entry.envelope);
          if |c.log.records| != index + 1 || c.log.records[index] != r then
            Stop(MakeResult(SubmissionRecordMismatch, index, failed, performed + required, c))
          else
            Go(c, performed + required)
  }

  /** The outer loop from one record on. */
  function ReplayFrom(max: U64, a: Authority, records: seq<EvidenceRecord>, index: nat, performed: U64): ReplayResult
    requires index <= |records| && performed <= max
    decreases |records| - index
  {
    hide ReplayStep, MakeResult;
    if index == |records| then MakeResult(Verified, index, None, performed, a)
    else
      match ReplayStep(max, a, index, records[index], performed)
      case Stop(result) => result
      case Go(next, total) => ReplayFrom(max, next, records, index + 1, total)
  }

  function ReplayAll(max: U64, s: SessionState, w: WorldState, records: seq<EvidenceRecord>, trusted: Digest): ReplayResult {
    var a := Authority(s, w, EMPTY_LOG);
    if !VerifyChain(records, trusted) then MakeResult(ChainFailed, 0, None, 0, a)
    else ReplayFrom(max, a, records, 0, 0)
  }

  // ---------------------------------------------------------------- runs

  datatype Action = SubmitCommand(envelope: Envelope) | AdvanceTick

  /** One call on the authority. A tick that throws changes nothing. */
  function Act(a: Authority, x: Action): Authority {
    match x
    case SubmitCommand(e) => Submitted(a, e)
    case AdvanceTick => if Advance(a.world).Ok? then a.(world := Advance(a.world).value) else a
  }

  function RunActions(a: Authority, xs: seq<Action>): Authority
    decreases |xs|
  {
    if xs == [] then a else RunActions(Act(a, xs[0]), xs[1..])
  }

  predicate Records(a: Authority, x: Action) {
    x.SubmitCommand? && CountsFit(a.world, a.log)
  }

  /** The state right after the last submission of a run; `anchor` if there is none. */
  function AfterLastSubmission(a: Authority, anchor: Authority, xs: seq<Action>): Authority
    decreases |xs|
  {
    if xs == [] then anchor
    else
      var b := Act(a, xs[0]);
      AfterLastSubmission(b, if Records(a, xs[0]) then b else anchor, xs[1..])
  }

  // ---------------------------------------------------------------- facts about single steps

  lemma AdvanceTicks(w: WorldState)
    requires Advance(w).Ok?
    ensures Advance(w).value.clock.index == w.clock.index + 1
  {
    hide ApplyDue, IntegrateAll, RemoveDue;
  }

  lemma {:induction false} AdvanceManyTicks(w: WorldState, n: nat)
    ensures w.clock.index <= AdvanceMany(w, n).world.clock.index <= w.clock.index + n
    ensures AdvanceMany(w, n).ok ==> AdvanceMany(w, n).world.clock.index == w.clock.index + n
    decreases n
  {
    hide Advance;
    if n > 0 && Advance(w).Ok? {
      AdvanceTicks(w);
      AdvanceManyTicks(Advance(w).value, n - 1);
    }
  }

  lemma {:induction false} AdvanceOneMore(w: WorldState, n: nat)
    requires AdvanceMany(w, n).ok && Advance(AdvanceMany(w, n).world).Ok?
    ensures AdvanceMany(w, n + 1) == Advancing(Advance(AdvanceMany(w, n).world).value, true)
    decreases n
  {
    hide Advance;
    if n > 0 {
      AdvanceOneMore(Advance(w).value, n - 1);
    } else {
      assert AdvanceMany(Advance(w).value, 0) == Advancing(Advance(w).value, true);
    }
  }

  /** A recorded submission leaves the clock alone and appends what the verifier will look at. */
  lemma SubmissionRecord(a: Authority, e: Envelope)
    requires CountsFit(a.world, a.log)
    ensures var b := Submitted(a, e);
      && b.world.clock == a.world.clock
      && |b.log.records| == |a.log.records| + 1
      && a.log.records <= b.log.records
      && var r := b.log.records[|a.log.records|];
        r.entry.envelope == e && r.entry.observedTick == a.world.clock.index && CheckState(a, r.entry) == Verified
  {
    hide FingerprintWorldState, Evaluate, CheckQueue, Insert, DigestRecord;
  }

  lemma ActShape(a: Authority, x: Action)
    ensures a.log.records <= Act(a, x).log.records
    ensures a.world.clock.index <= Act(a, x).world.clock.index
    ensures !Records(a, x) ==> Act(a, x).log == a.log && Act(a, x).session == a.session
  {
    hide Advance, Submitted;
    match x
    case SubmitCommand(e) =>
      if CountsFit(a.world, a.log) { SubmissionRecord(a, e); } else { Overflowing(a, e); }
    case AdvanceTick =>
      if Advance(a.world).Ok? { AdvanceTicks(a.world); }
  }

  lemma Overflowing(a: Authority, e: Envelope)
    requires !CountsFit(a.world, a.log)
    ensures Submitted(a, e) == a
  {
  }

  lemma {:induction false} LogGrows(a: Authority, xs: seq<Action>)
    ensures a.log.records <= RunActions(a, xs).log.records
    decreases |xs|
  {
    hide Act;
    if xs != [] {
      ActShape(a, xs[0]);
      LogGrows(Act(a, xs[0]), xs[1..]);
    }
  }

  lemma {:induction false} LastSubmissionLater(a: Authority, anchor: Authority, xs: seq<Action>)
    requires anchor.world.clock.index <= a.world.clock.index
    ensures anchor.world.clock.index <= AfterLastSubmission(a, anchor, xs).world.clock.index
    decreases |xs|
  {
    hide Act, Records;
    if xs != [] {
      ActShape(a, xs[0]);
      LastSubmissionLater(Act(a, xs[0]), if Records(a, xs[0]) then Act(a, xs[0]) else anchor, xs[1..]);
    }
  }

  // ---------------------------------------------------------------- completeness

  /** `live` is where a run stands; `anchor` is where the verifier stands, some ticks behind. */
  ghost predicate Trails(anchor: Authority, live: Authority) {
    && anchor.session == live.session
    && anchor.log == live.log
    && anchor.world.clock.index <= live.world.clock.index
    && AdvanceMany(anchor.world, live.world.clock.index - anchor.world.clock.index) == Advancing(live.world, true)
  }

  lemma TrailsSelf(a: Authority)
    ensures Trails(a, a)
  {
    hide Advance;
  }

  lemma TrailsOn(anchor: Authority, live: Authority, x: Action)
    requires Trails(anchor, live) && !Records(live, x)
    ensures Trails(anchor, Act(live, x))
  {
    hide Advance, Submitted, AdvanceMany;
    match x
    case SubmitCommand(e) => Overflowing(live, e);
    case AdvanceTick =>
      if Advance(live.world).Ok? {
        AdvanceTicks(live.world);
        AdvanceOneMore(anchor.world, live.world.clock.index - anchor.world.clock.index);
      }
  }

  /** Replaying the record of a submission brings the verifier to where the run is. */
  lemma ReplayOneRecord(max: U64, anchor: Authority, live: Authority, e: Envelope, next: Authority,
                        records: seq<EvidenceRecord>, performed: U64, total: nat)
    requires Trails(anchor, live) && CountsFit(live.world, live.log) && performed <= max
    requires next == Submitted(live, e) && next.log.records <= records
    requires total == performed + live.world.clock.index - anchor.world.clock.index
    ensures |anchor.log.records| < |records|
    ensures total <= max ==>
      ReplayFrom(max, anchor, records, |anchor.log.records|, performed) ==
      ReplayFrom(max, next, records, |anchor.log.records| + 1, total)
    ensures total > max ==>
      ReplayFrom(max, anchor, records, |anchor.log.records|, performed).code == TickAdvanceLimitExceeded
  {
    hide Submitted, AdvanceMany, CheckState, FingerprintWorldState;
    SubmissionRecord(live, e);
    assert records[|anchor.log.records|] == next.log.records[|anchor.log.records|];
    assert anchor.(world := live.world) == live;
  }

  /** What replaying from the anchor yields for the rest of a run that ends with `records`. */
  ghost predicate Catches(max: U64, anchor: Authority, last: Authority, records: seq<EvidenceRecord>, performed: U64) {
    performed <= max && |anchor.log.records| <= |records| &&
    var result := ReplayFrom(max, anchor, records, |anchor.log.records|, performed);
    var total := performed + last.world.clock.index - anchor.world.clock.index;
    if 0 <= total <= max then result == MakeResult(Verified, |records|, None, total, last)
    else result.code == TickAdvanceLimitExceeded
  }

  lemma {:induction false} ReplayCatchesUp(max: U64, anchor: Authority, live: Authority, xs: seq<Action>, performed: U64)
    requires Trails(anchor, live) && performed <= max
    ensures Catches(max, anchor, AfterLastSubmission(live, anchor, xs), RunActions(live, xs).log.records, performed)
    decreases |xs|
  {
    hide Act, ReplayFrom, MakeResult, AdvanceMany, Catches;
    if xs == [] {
      NothingLeft(max, anchor, performed);
    } else {
      var x, next := xs[0], Act(live, xs[0]);
      if Records(live, x) {
        ActSubmits(live, x.envelope);
        var total := performed + live.world.clock.index - anchor.world.clock.index;
        if total <= max {
          TrailsSelf(next);
          ReplayCatchesUp(max, next, next, xs[1..], total);
        }
        CatchesRecord(max, anchor, live, x.envelope, xs[1..], performed);
      } else {
        TrailsOn(anchor, live, x);
        ReplayCatchesUp(max, anchor, next, xs[1..], performed);
      }
    }
  }

  lemma CatchesRecord(max: U64, anchor: Authority, live: Authority, e: Envelope, rest: seq<Action>, performed: U64)
    requires Trails(anchor, live) && CountsFit(live.world, live.log) && performed <= max
    requires
      var next, total := Submitted(live, e), performed + live.world.clock.index - anchor.world.clock.index;
      total <= max ==> Catches(max, next, AfterLastSubmission(next, next, rest), RunActions(next, rest).log.records, total)
    ensures
      var next := Submitted(live, e);
      Catches(max, anchor, AfterLastSubmission(next, next, rest), RunActions(next, rest).log.records, performed)
  {
    hide Submitted, ReplayFrom, MakeResult, AdvanceMany, RunActions, AfterLastSubmission;
    var next, total := Submitted(live, e), performed + live.world.clock.index - anchor.world.clock.index;
    var records := RunActions(next, rest).log.records;
    SubmissionRecord(live, e);
    LogGrows(next, rest);
    LastSubmissionLater(next, next, rest);
    ReplayOneRecord(max, anchor, live, e, next, records, performed, total);
  }

  lemma ActSubmits(a: Authority, e: Envelope)
    ensures Act(a, SubmitCommand(e)) == Submitted(a, e)
  {
    hide Submitted;
  }

  lemma NothingLeft(max: U64, anchor: Authority, performed: U64)
    requires performed <= max
    ensures Catches(max, anchor, anchor, anchor.log.records, performed)
  {
    hide MakeResult;
  }

  lemma {:induction false} RunKeepsChain(a: Authority, xs: seq<Action>)
    requires VerifyChain(a.log.records, a.log.head)
    ensures VerifyChain(RunActions(a, xs).log.records, RunActions(a, xs).log.head)
    decreases |xs|
  {
    hide VerifyChain, Act;
    if xs != [] {
      ActKeepsChain(a, xs[0]);
      RunKeepsChain(Act(a, xs[0]), xs[1..]);
    }
  }

  lemma ActKeepsChain(a: Authority, x: Action)
    requires VerifyChain(a.log.records, a.log.head)
    ensures VerifyChain(Act(a, x).log.records, Act(a, x).log.head)
  {
    hide VerifyChain, Advance, Decide, EntryOf, Appended;
    if x.SubmitCommand? && CountsFit(a.world, a.log) {
      AppendKeepsChain(a.log, EntryOf(a.session, a.world, x.envelope));
    }
  }

  /** Completeness. For every interleaving of submissions and ticks, failed ones included,
      replaying the log from the initial state verifies if and only if the ticks up to the last
      submission fit the budget, and then reports the state right after that submission. */
  lemma ReplayIsComplete(max: U64, s: SessionState, w: WorldState, xs: seq<Action>)
    ensures
      var start := Authority(s, w, EMPTY_LOG);
      var log := RunActions(start, xs).log;
      var last := AfterLastSubmission(start, start, xs);
      var total := last.world.clock.index - w.clock.index;
      var result := ReplayAll(max, s, w, log.records, log.head);
      && total >= 0
      && (result.code == Verified <==> total <= max)
      && (result.code == TickAdvanceLimitExceeded <==> total > max)
      && (result.code == Verified ==>
            && result.processed == |log.records|
            && result.failedOrdinal == None
            && result.performedAdvances == total
            && result.finalTick == last.world.clock.index
            && result.finalSessionSequence == last.session.highest
            && result.finalPendingCount == |last.world.pending|
            && result.finalFingerprint == FingerprintWorldState(last.world)
            && result.head == log.head)
      && last.log == log
  {
    hide RunActions, AfterLastSubmission, ReplayFrom, Trails, VerifyChain, FingerprintWorldState;
    var start := Authority(s, w, EMPTY_LOG);
    TrailsSelf(start);
    ReplayCatchesUp(max, start, start, xs, 0);
    LastSubmissionLater(start, start, xs);
    EmptyVerifies();
    RunKeepsChain(start, xs);
    LastSubmissionLog(start, start, xs);
  }

  lemma EmptyVerifies()
    ensures VerifyChain(EMPTY_LOG.records, EMPTY_LOG.head)
  {
  }

  lemma {:induction false} LastSubmissionLog(a: Authority, anchor: Authority, xs: seq<Action>)
    requires anchor.log == a.log
    ensures AfterLastSubmission(a, anchor, xs).log == RunActions(a, xs).log
    decreases |xs|
  {
    hide Act, Records;
    if xs != [] {
      ActShape(a, xs[0]);
      LastSubmissionLog(Act(a, xs[0]), if Records(a, xs[0]) then Act(a, xs[0]) else anchor, xs[1..]);
    }
  }

  // ---------------------------------------------------------------- soundness

  function Ticks(n: nat): seq<Action> {
    seq(n, _ => AdvanceTick)
  }

  /** The run that a list of records claims: tick up to each observed tick, then submit. */
  function Reconstruct(tick: nat, records: seq<EvidenceRecord>): seq<Action>
    decreases |records|
  {
    if records == [] then []
    else
      var r := records[0].entry;
      Ticks(if r.observedTick < tick then 0 else r.observedTick - tick)
        + [SubmitCommand(r.envelope)] + Reconstruct(r.observedTick, records[1..])
  }

  lemma {:induction false} RunAppends(a: Authority, xs: seq<Action>, ys: seq<Action>)
    ensures RunActions(a, xs + ys) == RunActions(RunActions(a, xs), ys)
    decreases |xs|
  {
    hide Act;
    if xs == [] {
      assert xs + ys == ys;
    } else {
      assert (xs + ys)[1..] == xs[1..] + ys;
      RunAppends(Act(a, xs[0]), xs[1..], ys);
    }
  }

  lemma {:induction false} TicksAdvance(a: Authority, n: nat)
    requires AdvanceMany(a.world, n).ok
    ensures RunActions(a, Ticks(n)) == a.(world := AdvanceMany(a.world, n).world)
    decreases n
  {
    hide Advance, Submitted;
    if n > 0 {
      assert Ticks(n)[1..] == Ticks(n - 1);
      TicksAdvance(Act(a, AdvanceTick), n - 1);
    }
  }

  /** Observed ticks never decrease, and none precedes `tick`. */
  predicate TicksRise(tick: nat, records: seq<EvidenceRecord>)
    decreases |records|
  {
    records == [] || (tick <= records[0].entry.observedTick && TicksRise(records[0].entry.observedTick, records[1..]))
  }

  /** If the verifier gets to the end, the state it has built is that of the claimed run. */
  lemma {:induction false} VerifiedMeansRun(max: U64, a: Authority, records: seq<EvidenceRecord>, index: nat, performed: U64)
    requires index <= |records| && performed <= max
    requires a.log.records == records[..index]
    requires ReplayFrom(max, a, records, index, performed).code == Verified
    ensures
      var end := RunActions(a, Reconstruct(a.world.clock.index, records[index..]));
      var result := ReplayFrom(max, a, records, index, performed);
      && end.log.records == records
      && result == MakeResult(Verified, |records|, None, result.performedAdvances, end)
      && TicksRise(a.world.clock.index, records[index..])
      && performed <= result.performedAdvances <= max
      && result.performedAdvances - performed == end.world.clock.index - a.world.clock.index
    decreases |records| - index
  {
    hide Submitted, AdvanceMany, CheckState, Act, FingerprintWorldState;
    if index < |records| {
      var r := records[index];
      var required := r.entry.observedTick - a.world.clock.index;
      var b := a.(world := AdvanceMany(a.world, required).world);
      var c := Submitted(b, r.entry.envelope);
      AdvanceManyTicks(a.world, required);
      SubmittedLog(b, r.entry.envelope, index);
      VerifiedMeansRun(max, c, records, index + 1, performed + required);
      ReconstructStep(a, b, c, records[index..], required);
      assert records[index..][1..] == records[index + 1..];
    } else {
      assert records[index..] == [];
    }
  }

  lemma SubmittedLog(b: Authority, e: Envelope, n: nat)
    requires |b.log.records| == n && |Submitted(b, e).log.records| == n + 1
    ensures Submitted(b, e).log.records[..n] == b.log.records
    ensures Submitted(b, e).world.clock == b.world.clock
  {
    hide Submitted;
    if CountsFit(b.world, b.log) { SubmissionRecord(b, e); } else { Overflowing(b, e); }
  }

  lemma ReconstructStep(a: Authority, b: Authority, c: Authority, rest: seq<EvidenceRecord>, required: nat)
    requires rest != [] && required == rest[0].entry.observedTick - a.world.clock.index
    requires AdvanceMany(a.world, required) == Advancing(b.world, true)
    requires b == a.(world := b.world) && c == Submitted(b, rest[0].entry.envelope)
    requires c.world.clock.index == rest[0].entry.observedTick
    ensures RunActions(a, Reconstruct(a.world.clock.index, rest)) ==
      RunActions(c, Reconstruct(c.world.clock.index, rest[1..]))
  {
    hide Submitted, AdvanceMany, Advance, Ticks;
    var e, tail := rest[0].entry.envelope, Reconstruct(c.world.clock.index, rest[1..]);
    var last := [SubmitCommand(e)];
    assert Reconstruct(a.world.clock.index, rest) == Ticks(required) + last + tail;
    RunAppends(a, Ticks(required) + last, tail);
    RunAppends(a, Ticks(required), last);
    TicksAdvance(a, required);
    RunOne(b, e);
  }

  lemma RunOne(b: Authority, e: Envelope)
    ensures RunActions(b, [SubmitCommand(e)]) == Submitted(b, e)
  {
    hide Submitted;
    assert [SubmitCommand(e)][1..] == [];
  }

  /** Soundness. For arbitrary records and head, a verified result means that the records and the
      head are exactly the log of the run they claim, that observed ticks never decrease, and that
      the reported state is the one that this run ends in. */
  lemma ReplayIsSound(max: U64, s: SessionState, w: WorldState, records: seq<EvidenceRecord>, trusted: Digest)
    requires ReplayAll(max, s, w, records, trusted).code == Verified
    ensures
      var result := ReplayAll(max, s, w, records, trusted);
      var end := RunActions(Authority(s, w, EMPTY_LOG), Reconstruct(w.clock.index, records));
      && end.log == LogState(records, trusted)
      && TicksRise(w.clock.index, records)
      && result.processed == |records|
      && result.failedOrdinal == None
      && result.performedAdvances == end.world.clock.index - w.clock.index <= max
      && result.finalTick == end.world.clock.index
      && result.finalSessionSequence == end.session.highest
      && result.finalPendingCount == |end.world.pending|
      && result.finalFingerprint == FingerprintWorldState(end.world)
      && result.head == trusted
  {
    hide VerifyChain, RunActions, Reconstruct, TicksRise, ReplayFrom, FingerprintWorldState;
    var start := Authority(s, w, EMPTY_LOG);
    ChainPassed(max, s, w, records, trusted);
    VerifiedMeansRun(max, start, records, 0, 0);
    assert records[0..] == records;
    EmptyVerifies();
    RunKeepsChain(start, Reconstruct(w.clock.index, records));
    SameHead(records, trusted, RunActions(start, Reconstruct(w.clock.index, records)).log.head);
  }

  lemma ChainPassed(max: U64, s: SessionState, w: WorldState, records: seq<EvidenceRecord>, trusted: Digest)
    requires ReplayAll(max, s, w, records, trusted).code == Verified
    ensures VerifyChain(records, trusted)
    ensures ReplayAll(max, s, w, records, trusted) == ReplayFrom(max, Authority(s, w, EMPTY_LOG), records, 0, 0)
  {
    hide VerifyChain, ReplayFrom, FingerprintWorldState;
  }

  lemma SameHead(records: seq<EvidenceRecord>, a: Digest, b: Digest)
    requires VerifyChain(records, a) && VerifyChain(records, b)
    ensures a == b
  {
    hide DigestRecord;
  }

  /** The verifier accepts a list of records under a head if and only if some run produces exactly
      that log and takes no more ticks up to its last submission than the budget allows. */
  lemma ReplayAcceptsExactlyRuns(max: U64, s: SessionState, w: WorldState, records: seq<EvidenceRecord>, trusted: Digest)
    ensures ReplayAll(max, s, w, records, trusted).code == Verified <==>
      exists xs ::
        var start := Authority(s, w, EMPTY_LOG);
        && RunActions(start, xs).log == LogState(records, trusted)
        && AfterLastSubmission(start, start, xs).world.clock.index - w.clock.index <= max
  {
    hide ReplayAll, RunActions, AfterLastSubmission, Reconstruct, FingerprintWorldState;
    var start := Authority(s, w, EMPTY_LOG);
    if ReplayAll(max, s, w, records, trusted).code == Verified {
      ReplayIsSound(max, s, w, records, trusted);
      ReplayIsComplete(max, s, w, Reconstruct(w.clock.index, records));
    }
    if xs :|
      && RunActions(start, xs).log == LogState(records, trusted)
      && AfterLastSubmission(start, start, xs).world.clock.index - w.clock.index <= max
    {
      ReplayIsComplete(max, s, w, xs);
    }
  }

  lemma {:induction false} BudgetHolds(max: U64, a: Authority, records: seq<EvidenceRecord>, index: nat, performed: U64)
    requires index <= |records| && performed <= max
    ensures
      var result := ReplayFrom(max, a, records, index, performed);
      && performed <= result.performedAdvances <= max
      && a.world.clock.index <= result.finalTick <= a.world.clock.index + (max - performed)
    decreases |records| - index
  {
    hide Submitted, AdvanceMany, CheckState, FingerprintWorldState;
    if index < |records| && records[index].entry.observedTick >= a.world.clock.index {
      var r := records[index];
      var required := r.entry.observedTick - a.world.clock.index;
      if required <= max - performed {
        AdvanceManyTicks(a.world, required);
        var b := a.(world := AdvanceMany(a.world, required).world);
        var c := Submitted(b, r.entry.envelope);
        SubmittedClock(b, r.entry.envelope);
        if AdvanceMany(a.world, required).ok {
          BudgetHolds(max, c, records, index + 1, performed + required);
        }
      }
    }
  }

  lemma SubmittedClock(b: Authority, e: Envelope)
    ensures Submitted(b, e).world.clock == b.world.clock
  {
    hide Submitted;
    if CountsFit(b.world, b.log) { SubmissionRecord(b, e); } else { Overflowing(b, e); }
  }

  /** Whatever the records and whatever the result, the world is never advanced beyond the budget. */
  lemma BudgetIsRespected(max: U64, s: SessionState, w: WorldState, records: seq<EvidenceRecord>, trusted: Digest)
    ensures
      var result := ReplayAll(max, s, w, records, trusted);
      result.performedAdvances <= max && w.clock.index <= result.finalTick <= w.clock.index + max
  {
    hide ReplayFrom, VerifyChain, FingerprintWorldState;
    BudgetHolds(max, Authority(s, w, EMPTY_LOG), records, 0, 0);
  }

  // ---------------------------------------------------------------- diagnosis

  /** The state in which the verifier looks at a record that claims a tick `ahead` of `a`. */
  ghost function Arrived(a: Authority, ahead: nat): Authority {
    a.(world := AdvanceMany(a.world, ahead).world)
  }

  ghost predicate Arrives(max: U64, a: Authority, r: EvidenceEntry, spent: int) {
    var ahead := r.observedTick - a.world.clock.index;
    0 <= ahead <= max - spent && AdvanceMany(a.world, ahead).ok
  }

  /** Why a record stops the replay that stands at `a` after `spent` ticks: its first claim that
      the run so far does not bear out. */
  ghost predicate Explains(max: U64, a: Authority, r: EvidenceRecord, spent: int, code: ReplayCode) {
    var e, ahead := r.entry, r.entry.observedTick - a.world.clock.index;
    if ahead < 0 then code == ObservedTickRegression
    else if ahead > max - spent then code == TickAdvanceLimitExceeded
    else if !Arrives(max, a, e, spent) then code == SimulationAdvanceFailed
    else
      var b := Arrived(a, ahead);
      if b.session.highest != e.sessionBefore then code == SessionStateMismatch
      else if |b.world.pending| != e.pendingBefore then code == PendingCommandCountMismatch
      else if FingerprintWorldState(b.world) != e.fingerprintBefore then code == WorldStateMismatch
      else code == SubmissionRecordMismatch && Submitted(b, e.envelope).log.records != a.log.records + [r]
  }

  /** What the report of a failing record says beside the code: how far the run got. A tick that
      throws is not counted, though the ticks before it have been taken. */
  ghost predicate ReportsAt(a: Authority, r: EvidenceRecord, spent: int, result: ReplayResult) {
    var ahead := r.entry.observedTick - a.world.clock.index;
    && result.failedOrdinal == Some(r.ordinal)
    && result.performedAdvances ==
      (if result.code in {ObservedTickRegression, TickAdvanceLimitExceeded, SimulationAdvanceFailed} then spent else spent + ahead)
    && (result.code in {ObservedTickRegression, TickAdvanceLimitExceeded} ==> result.finalTick == a.world.clock.index)
    && (result.code in {SessionStateMismatch, PendingCommandCountMismatch, WorldStateMismatch, SubmissionRecordMismatch} ==>
          result.finalTick == r.entry.observedTick)
    && (result.code != SubmissionRecordMismatch ==>
          result.finalSessionSequence == a.session.highest && result.head == a.log.head)
  }

  lemma StopExplains(max: U64, a: Authority, index: nat, r: EvidenceRecord, performed: U64)
    requires performed <= max && |a.log.records| == index
    requires ReplayStep(max, a, index, r, performed).Stop?
    ensures var result := ReplayStep(max, a, index, r, performed).result;
      && result.processed == index
      && Explains(max, a, r, performed, result.code)
      && ReportsAt(a, r, performed, result)
  {
    hide AdvanceMany, Submitted, FingerprintWorldState;
    if r.entry.observedTick >= a.world.clock.index {
      var required := r.entry.observedTick - a.world.clock.index;
      AdvanceManyTicks(a.world, required);
      var b := a.(world := AdvanceMany(a.world, required).world);
      SubmittedClock(b, r.entry.envelope);
    }
  }

  lemma GoMeansRecorded(max: U64, a: Authority, index: nat, r: EvidenceRecord, performed: U64)
    requires performed <= max && |a.log.records| == index
    requires ReplayStep(max, a, index, r, performed).Go?
    ensures var next, total := ReplayStep(max, a, index, r, performed).next, ReplayStep(max, a, index, r, performed).total;
      && next.log.records == a.log.records + [r]
      && a.world.clock.index <= next.world.clock.index == r.entry.observedTick
      && total - performed == r.entry.observedTick - a.world.clock.index
      && RunActions(a, Reconstruct(a.world.clock.index, [r])) == next
  {
    hide AdvanceMany, Submitted, CheckState, Act, FingerprintWorldState;
    var required := r.entry.observedTick - a.world.clock.index;
    var b := a.(world := AdvanceMany(a.world, required).world);
    var c := Submitted(b, r.entry.envelope);
    AdvanceManyTicks(a.world, required);
    SubmittedLog(b, r.entry.envelope, index);
    ReconstructStep(a, b, c, [r], required);
    assert [r][1..] == [];
  }

  lemma {:induction false} ReplayStopsAt(max: U64, a: Authority, records: seq<EvidenceRecord>, index: nat, performed: U64) returns (i: nat)
    requires index <= |records| && performed <= max && a.log.records == records[..index]
    requires ReplayFrom(max, a, records, index, performed).code != Verified
    ensures index <= i < |records|
    ensures
      var result := ReplayFrom(max, a, records, index, performed);
      var b := RunActions(a, Reconstruct(a.world.clock.index, records[index..i]));
      var spent := performed + b.world.clock.index - a.world.clock.index;
      && result.processed == i
      && b.log.records == records[..i]
      && a.world.clock.index <= b.world.clock.index && spent <= max
      && Explains(max, b, records[i], spent, result.code)
      && ReportsAt(b, records[i], spent, result)
    decreases |records| - index
  {
    hide ReplayStep, Explains, ReportsAt, FingerprintWorldState, RunActions, Reconstruct;
    var r := records[index];
    var step := ReplayStep(max, a, index, r, performed);
    if step.Stop? {
      i := index;
      assert records[index..i] == [];
      NothingToRun(a);
      StopExplains(max, a, index, r, performed);
    } else {
      GoMeansRecorded(max, a, index, r, performed);
      assert records[..index + 1] == records[..index] + [r];
      i := ReplayStopsAt(max, step.next, records, index + 1, step.total);
      assert records[index..i][0] == r;
      ReconstructHead(a, step.next, records[index..i]);
      assert records[index..i][1..] == records[index + 1..i];
    }
  }

  lemma NothingToRun(a: Authority)
    ensures RunActions(a, Reconstruct(a.world.clock.index, [])) == a
  {
  }

  lemma ReconstructHead(a: Authority, next: Authority, rest: seq<EvidenceRecord>)
    requires rest != []
    requires RunActions(a, Reconstruct(a.world.clock.index, [rest[0]])) == next
    requires next.world.clock.index == rest[0].entry.observedTick
    ensures RunActions(a, Reconstruct(a.world.clock.index, rest)) ==
      RunActions(next, Reconstruct(next.world.clock.index, rest[1..]))
  {
    hide RunActions, Reconstruct;
    var tick := a.world.clock.index;
    ReconstructCons(tick, rest);
    RunAppends(a, Reconstruct(tick, [rest[0]]), Reconstruct(rest[0].entry.observedTick, rest[1..]));
  }

  lemma ReconstructCons(tick: nat, rest: seq<EvidenceRecord>)
    requires rest != []
    ensures Reconstruct(tick, rest) == Reconstruct(tick, [rest[0]]) + Reconstruct(rest[0].entry.observedTick, rest[1..])
  {
    hide Ticks;
    var r := rest[0].entry;
    var first := Ticks(if r.observedTick < tick then 0 else r.observedTick - tick) + [SubmitCommand(r.envelope)];
    assert [rest[0]][1..] == [];
    assert Reconstruct(tick, [rest[0]]) == first + [] == first;
  }

  /** A replay that fails on a verifying chain names the first record at fault. With `i` records
      processed, those are the log of the run they claim; record `i` is reported by its ordinal,
      which is `i`, under the code of its first claim that this run does not bear out. */
  lemma FailureIsExplained(max: U64, s: SessionState, w: WorldState, records: seq<EvidenceRecord>, trusted: Digest)
    requires ReplayAll(max, s, w, records, trusted).code != Verified
    ensures
      var result := ReplayAll(max, s, w, records, trusted);
      if !VerifyChain(records, trusted) then
        && result.code == ChainFailed && result.processed == 0 && result.failedOrdinal == None
        && result.performedAdvances == 0 && result.finalTick == w.clock.index
        && result.finalSessionSequence == s.highest && result.head == ZERO_DIGEST
      else
        var i := result.processed;
        && i < |records|
        && var b := RunActions(Authority(s, w, EMPTY_LOG), Reconstruct(w.clock.index, records[..i]));
          var spent := b.world.clock.index - w.clock.index;
          && b.log.records == records[..i]
          && Explains(max, b, records[i], spent, result.code)
          && ReportsAt(b, records[i], spent, result)
          && result.failedOrdinal == Some(i)
  {
    hide ReplayFrom, Explains, ReportsAt, FingerprintWorldState, RunActions, Reconstruct, VerifyChain;
    if VerifyChain(records, trusted) {
      var start := Authority(s, w, EMPTY_LOG);
      var i := ReplayStopsAt(max, start, records, 0, 0);
      assert records[0..i] == records[..i];
      OrdinalOf(records, trusted, i);
      var b := RunActions(start, Reconstruct(w.clock.index, records[..i]));
      ReportsOrdinal(b, records[i], b.world.clock.index - w.clock.index, ReplayFrom(max, start, records, 0, 0));
    }
  }

  lemma OrdinalOf(records: seq<EvidenceRecord>, trusted: Digest, i: nat)
    requires VerifyChain(records, trusted) && i < |records|
    ensures records[i].ordinal == i
  {
    hide DigestRecord;
  }

  lemma ReportsOrdinal(a: Authority, r: EvidenceRecord, spent: int, result: ReplayResult)
    requires ReportsAt(a, r, spent, result)
    ensures result.failedOrdinal == Some(r.ordinal)
  {
  }

  // ---------------------------------------------------------------- the verifier

  method Report(code: ReplayCode, processed: nat, failed: Option<U64>, performed: U64,
                session: CommandSession, world: World, pipeline: AuthoritativeCommandPipeline)
    returns (result: ReplayResult)
    ensures result == MakeResult(code, processed, failed, performed,
      Authority(session.View(), world.View(), pipeline.evidence.View()))
    ensures
      && result.code == code && result.processed == processed && result.failedOrdinal == failed
      && result.performedAdvances == performed
      && result.finalTick == world.clock.index
      && result.finalSessionSequence == session.highest
      && result.finalPendingCount == |world.pending|
      && result.finalFingerprint == FingerprintWorldState(world.View())
      && result.head == pipeline.evidence.head
  {
    hide FingerprintWorldState;
    var fingerprint := FingerprintWorld(world);
    result := ReplayResult(code, processed, failed, performed, world.clock.index, session.highest,
                           |world.pending|, fingerprint, pipeline.evidence.head);
  }

  /** The inner loop: `required` ticks, unless one of them throws. */
  method AdvanceWorld(world: World, required: nat) returns (ok: bool)
    requires world.Consistent()
    modifies world
    ensures world.Consistent()
    ensures Advancing(world.View(), ok) == AdvanceMany(old(world.View()), required)
    ensures world.clock == old(world.clock) || fresh(world.clock)
  {
    hide Valid, Advance;
    ghost var start := world.View();
    for step := 0 to required
      invariant world.Consistent()
      invariant AdvanceMany(start, required) == AdvanceMany(world.View(), required - step)
      invariant world.clock == old(world.clock) || fresh(world.clock)
    {
      var ticked := world.Advance();
      if ticked.Err? {
        return false;
      }
    }
    ok := true;
  }

  /** The body of the outer loop for one record: `None` if it passes, else the report. */
  method ReplayRecord(max: U64, index: nat, r: EvidenceRecord, performed: U64,
                      session: CommandSession, world: World, pipeline: AuthoritativeCommandPipeline)
    returns (stop: Option<ReplayResult>, total: U64)
    requires world.Consistent() && performed <= max
    modifies session, world, pipeline.evidence
    ensures world.Consistent() && (world.clock == old(world.clock) || fresh(world.clock))
    ensures total <= max
    ensures ReplayStep(max, old(Current(session, world, pipeline)), index, r, performed) ==
      if stop.Some? then Stop(stop.value) else Go(Current(session, world, pipeline), total)
  {
    hide Valid, AdvanceMany, Submitted, FingerprintWorldState, MakeResult;
    var failed := Some(r.ordinal);
    total := performed;
    var currentTick := world.clock.index;
    if r.entry.observedTick < currentTick {
      var report := Report(ObservedTickRegression, index, failed, performed, session, world, pipeline);
      return Some(report), total;
    }
    var required := r.entry.observedTick - currentTick;
    var remaining := max - performed;
    if required > remaining {
      var report := Report(TickAdvanceLimitExceeded, index, failed, performed, session, world, pipeline);
      return Some(report), total;
    }
    var ok := AdvanceWorld(world, required);
    if !ok {
      var report := Report(SimulationAdvanceFailed, index, failed, performed, session, world, pipeline);
      return Some(report), total;
    }
    total := performed + required;
    if session.highest != r.entry.sessionBefore {
      var report := Report(SessionStateMismatch, index, failed, total, session, world, pipeline);
      return Some(report), total;
    }
    if |world.pending| != r.entry.pendingBefore {
      var report := Report(PendingCommandCountMismatch, index, failed, total, session, world, pipeline);
      return Some(report), total;
    }
    var fingerprint := FingerprintWorld(world);
    if fingerprint != r.entry.fingerprintBefore {
      var report := Report(WorldStateMismatch, index, failed, total, session, world, pipeline);
      return Some(report), total;
    }
    var _ := pipeline.Submit(session, world, r.entry.envelope);
    var generated := pipeline.evidence.records;
    if |generated| != index + 1 || generated[index] != r {
      var report := Report(SubmissionRecordMismatch, index, failed, total, session, world, pipeline);
      return Some(report), total;
    }
    stop := None;
  }

  ghost function Current(session: CommandSession, world: World, pipeline: AuthoritativeCommandPipeline): Authority
    reads session, world, world.clock, pipeline.evidence
  {
    Authority(session.View(), world.View(), pipeline.evidence.View())
  }

  /** The replayer works on copies: the initial session and world stay as they are. */
  method ReplayEvidence(max: U64, initialSession: CommandSession, initialWorld: World,
                        records: seq<EvidenceRecord>, trusted: Digest)
    returns (result: ReplayResult)
    requires initialWorld.Consistent()
    ensures result == ReplayAll(max, initialSession.View(), initialWorld.View(), records, trusted)
  {
    hide Valid, VerifyChain, ReplayFrom, MakeResult, ReplayStep;
    var session := new CommandSession.Copy(initialSession);
    var world := new World.Copy(initialWorld);
    var pipeline := new AuthoritativeCommandPipeline();
    var performed: U64 := 0;
    ghost var start := Current(session, world, pipeline);
    var verified := VerifyCommandEvidenceChain(records, trusted);
    if !verified {
      result := Report(ChainFailed, 0, None, performed, session, world, pipeline);
      return;
    }
    for index := 0 to |records|
      invariant fresh(session) && fresh(world) && fresh(world.clock) && fresh(pipeline.evidence)
      invariant world.Consistent() && performed <= max
      invariant ReplayFrom(max, start, records, 0, 0) ==
        ReplayFrom(max, Current(session, world, pipeline), records, index, performed)
    {
      LoopUnfolds(max, Current(session, world, pipeline), records, index, performed);
      var stop, total := ReplayRecord(max, index, records[index], performed, session, world, pipeline);
      if stop.Some? {
        return stop.value;
      }
      performed := total;
    }
    LoopEnds(max, Current(session, world, pipeline), records, performed);
    result := Report(Verified, |records|, None, performed, session, world, pipeline);
  }

  lemma LoopEnds(max: U64, a: Authority, records: seq<EvidenceRecord>, performed: U64)
    requires performed <= max
    ensures ReplayFrom(max, a, records, |records|, performed) == MakeResult(Verified, |records|, None, performed, a)
  {
    hide MakeResult;
  }

  lemma LoopUnfolds(max: U64, a: Authority, records: seq<EvidenceRecord>, index: nat, performed: U64)
    requires index < |records| && performed <= max
    ensures ReplayFrom(max, a, records, index, performed) ==
      match ReplayStep(max, a, index, records[index], performed)
      case Stop(result) => result
      case Go(next, total) => ReplayFrom(max, next, records, index + 1, total)
  {
    hide ReplayStep;
  }
}
