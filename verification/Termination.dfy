/**
 * Runs of complete, fail, record and retry calls come to rest: all but finitely many calls change
 * nothing but timestamps and the failure reason.
 */
module Termination {
  import opened Calls
  import opened Digraph
  import opened Frame
  import opened Invariants
  import opened JsonValues
  import opened Safety
  import opened State

  ghost function StepsLeft(g: Graph): int { g.limits.maxGraphSteps - g.counters.graphSteps }

  ghost function FailedCount(g: Graph): nat { |WithStatus(g.units, Failed)| }

  ghost function Converging(g: Graph): nat { if g.status == ConvergedFailed then 0 else 1 }

  /** Fewer steps left; or as many and fewer failed units; or as many of both and no longer converging. */
  ghost predicate Lower(h: Graph, g: Graph) {
    || StepsLeft(h) < StepsLeft(g)
    || (StepsLeft(h) == StepsLeft(g) && FailedCount(h) < FailedCount(g))
    || (StepsLeft(h) == StepsLeft(g) && FailedCount(h) == FailedCount(g) && Converging(h) < Converging(g))
  }

  /** Nothing but timestamps and the failure reason differs. */
  ghost predicate Idle(g: Graph, h: Graph) {
    h == g.(times := h.times, failureReason := h.failureReason)
  }

  ghost predicate UnitCall(call: Call) { call.Complete? || call.Fail? || call.Retry? || call.Record? }

  /** A guarded call either leaves the snapshot to its limits or counts a step. */
  lemma GuardLowers(g: Graph, h: Graph, now: nat)
    requires g.status != ConvergedFailed
    requires (h == GuardStep(g, now, true) && !MayStep(g, now, true)) || Counted(g, h)
    ensures Lower(h, g)
  {
    hide WithStatus;
    if !Counted(g, h) { assert h.units == g.units; }
  }

  lemma StepsCounted(g: Graph, u: Id, note: FailureNote, output: Json, attempts: Attempts, now: nat)
    requires u in g.units
    ensures var h := CountStep(g, now, true); var k := SetAttempts(h, u, attempts);
      && u in k.units
      && Counted(g, Reject(h, u, note)) && Counted(g, Reject(k, u, note))
      && Counted(g, Refresh(SetAccepted(k, u, output), now))
      && Counted(g, MarkConverged(h, BudgetExhausted, now))
  {
    hide Reopen, RefreshCounts, RefreshStatus;
    var h := CountStep(g, now, true);
    var k := SetAttempts(h, u, attempts);
    RejectCounted(h, u, note);
    RejectCounted(k, u, note);
    RefreshCountsOnly(SetAccepted(k, u, output));
    RefreshStatusOnly(RefreshCounts(SetAccepted(k, u, output)), now);
  }

  ghost predicate Counted(g: Graph, h: Graph) {
    h.limits == g.limits && h.counters.graphSteps == g.counters.graphSteps + 1
  }

  lemma RejectCounted(h: Graph, u: Id, note: FailureNote)
    requires u in h.units
    ensures Reject(h, u, note).limits == h.limits && Reject(h, u, note).counters.graphSteps == h.counters.graphSteps
  {
    hide RefreshCounts, Downstream;
    var r := Reopen(SetFailed(h, u, note), u);
    RefreshCountsOnly(r.(status := RetryPending, counters := r.counters.(retries := r.counters.retries + 1),
                      sendBacks := r.sendBacks + 1));
  }

  lemma CompleteLowers(g: Graph, u: Id, output: Json, now: nat)
    requires CompleteUnit(g, u, output, now).Ok?
    ensures Lower(CompleteUnit(g, u, output, now).value, g)
  {
    hide Lower, WellFormed, Executable, DependencyReady, Conforms, Exhausted, Reject, Refresh, GuardStep;
    hide MayStep, CountStep, SetAttempts, SetAccepted, MarkConverged;
    if u in g.units {
      CountedUnits(g, now);
      var h := CountStep(g, now, true);
      StepsCounted(g, u, SchemaInvalid, output, h.units[u].attempts.BumpCheck(), now);
    }
    GuardLowers(g, CompleteUnit(g, u, output, now).value, now);
  }

  lemma CountedUnits(g: Graph, now: nat)
    ensures CountStep(g, now, true).units == g.units
  {
  }

  lemma FailLowers(g: Graph, u: Id, note: FailureNote, now: nat)
    requires FailUnit(g, u, note, now).Ok?
    ensures Lower(FailUnit(g, u, note, now).value, g)
  {
    hide Lower, WellFormed, Exhausted, Reject, GuardStep, MayStep, CountStep, SetAttempts, MarkConverged;
    if u in g.units {
      CountedUnits(g, now);
      var h := CountStep(g, now, true);
      StepsCounted(g, u, note, Null, h.units[u].attempts.BumpCheck(), now);
    }
    GuardLowers(g, FailUnit(g, u, note, now).value, now);
  }

  lemma JudgeCounted(k: Graph, u: Id, stage: Stage, outcome: Outcome, now: nat)
    requires u in k.units
    ensures Judge(k, u, stage, outcome, now).limits == k.limits
    ensures Judge(k, u, stage, outcome, now).counters.graphSteps == k.counters.graphSteps
  {
    hide Conforms, Reject, RefreshCounts, RefreshStatus, Candidate;
    RejectCounted(k, u, Reason(outcome.reason));
    RejectCounted(k, u, SchemaInvalid);
    var a, p := SetAccepted(k, u, Candidate(k, u, outcome.output)), SetProduced(k, u, outcome.output);
    RefreshCountsOnly(a);
    RefreshStatusOnly(RefreshCounts(a), now);
    RefreshCountsOnly(p);
    RefreshStatusOnly(RefreshCounts(p), now);
  }

  lemma RecordShape(g: Graph, u: Id, stage: Stage, outcome: Outcome, now: nat)
    requires RecordAttempt(g, u, stage, outcome, now).Ok?
    ensures u in g.units && g.status != ConvergedFailed
    ensures var r := RecordAttempt(g, u, stage, outcome, now).value;
      || r == MarkConverged(g, BudgetExhausted, now)
      || (r == GuardStep(g, now, true) && !MayStep(g, now, true))
      || r == Judge(SetAttempts(CountStep(g, now, true), u, g.units[u].attempts.Bump(stage)), u, stage, outcome, now)
  {
    hide WellFormed, DependencyReady, Exhausted, StageLimit, Judge, GuardStep, MayStep, MarkConverged;
  }

  lemma RecordLowers(g: Graph, u: Id, stage: Stage, outcome: Outcome, now: nat)
    requires RecordAttempt(g, u, stage, outcome, now).Ok?
    ensures Lower(RecordAttempt(g, u, stage, outcome, now).value, g)
  {
    hide Lower, RecordAttempt, Judge, GuardStep, MayStep, MarkConverged;
    var r := RecordAttempt(g, u, stage, outcome, now).value;
    RecordShape(g, u, stage, outcome, now);
    MarkLowers(g, now);
    var k := SetAttempts(CountStep(g, now, true), u, g.units[u].attempts.Bump(stage));
    JudgeCounted(k, u, stage, outcome, now);
    if r != MarkConverged(g, BudgetExhausted, now) {
      GuardLowers(g, r, now);
    }
  }

  lemma MarkLowers(g: Graph, now: nat)
    requires g.status != ConvergedFailed
    ensures Lower(MarkConverged(g, BudgetExhausted, now), g)
  {
  }

  lemma RetryLowers(g: Graph, u: Id, now: nat)
    requires RetryUnit(g, u, now).Ok?
    ensures var h := RetryUnit(g, u, now).value; Idle(g, h) || Lower(h, g)
  {
    hide WellFormed, Exhausted, RefreshCounts;
    var h := RetryUnit(g, u, now).value;
    if !Exhausted(g, g.units[u]) {
      var k := ReopenFailed(g, u).(status := RetryPending, times := g.times.(updated := now));
      RefreshCountsOnly(k);
      assert WithStatus(g.units, Failed) == WithStatus(k.units, Failed) + {u};
    }
  }

  /**
   * Every complete, fail, record or retry call that changes more than timestamps and the failure
   * reason lowers the measure.
   */
  lemma StepLowers(g: Graph, call: Call, now: nat)
    requires UnitCall(call)
    ensures Idle(g, After(g, call, now)) || Lower(After(g, call, now), g)
  {
    hide Lower, CompleteUnit, FailUnit, RecordAttempt, RetryUnit;
    match call
    case Complete(u, output) => if CompleteUnit(g, u, output, now).Ok? { CompleteLowers(g, u, output, now); }
    case Fail(u, note) => if FailUnit(g, u, note, now).Ok? { FailLowers(g, u, note, now); }
    case Retry(u) => if RetryUnit(g, u, now).Ok? { RetryLowers(g, u, now); }
    case Record(u, stage, outcome) =>
      if RecordAttempt(g, u, stage, outcome, now).Ok? { RecordLowers(g, u, stage, outcome, now); }
  }

  // ---------------------------------------------------------------- runs

  /** The measure as one number. */
  ghost function Rank(g: Graph): int {
    StepsLeft(g) * (2 * (|g.units| + 1)) + 2 * FailedCount(g) + Converging(g)
  }

  lemma LowerRank(g: Graph, h: Graph)
    requires Lower(h, g) && |h.units| == |g.units|
    ensures Rank(h) < Rank(g)
  {
    var n := 2 * (|g.units| + 1);
    FailedBound(g);
    FailedBound(h);
    hide WithStatus, FailedCount, StepsLeft;
    if StepsLeft(h) < StepsLeft(g) { FewerTimes(StepsLeft(h), StepsLeft(g), n); }
  }

  lemma FewerTimes(a: int, b: int, n: nat)
    requires a < b
    ensures a * n + n <= b * n
  {
    assert (b - a - 1) * n >= 0;
    assert b * n == a * n + n + (b - a - 1) * n;
  }

  lemma FailedBound(g: Graph)
    ensures FailedCount(g) <= |g.units|
  {
    SubsetSize(WithStatus(g.units, Failed), g.units.Keys);
    assert |g.units| == |g.units.Keys|;
  }

  /** How many calls of a run changed more than timestamps and the failure reason. */
  ghost function Effective(g: Graph, calls: seq<Timed>): nat
    decreases |calls|
  {
    if calls == [] then 0
    else
      var before, last := Run(g, calls[..|calls| - 1]), calls[|calls| - 1];
      Effective(g, calls[..|calls| - 1]) + if Idle(before, After(before, last.call, last.now)) then 0 else 1
  }

  lemma {:induction false} EffectiveSpendsRank(g: Graph, calls: seq<Timed>)
    requires Invariant(g) && forall i :: 0 <= i < |calls| ==> UnitCall(calls[i].call)
    ensures Invariant(Run(g, calls)) && |Run(g, calls).units| == |g.units|
    ensures Effective(g, calls) + Rank(Run(g, calls)) <= Rank(g)
    decreases |calls|
  {
    hide Invariant, Rank, Lower, After, Idle;
    if calls != [] {
      var before, last := Run(g, calls[..|calls| - 1]), calls[|calls| - 1];
      EffectiveSpendsRank(g, calls[..|calls| - 1]);
      StepKeeps(before, last.call, last.now);
      StepFrame(before, last.call, last.now);
      StepLowers(before, last.call, last.now);
      var after := After(before, last.call, last.now);
      assert |after.units| == |after.units.Keys| == |before.units.Keys| == |before.units|;
      if Idle(before, after) { IdleRank(before, after); } else { LowerRank(before, after); }
    }
  }

  lemma IdleRank(g: Graph, h: Graph)
    requires Idle(g, h)
    ensures Rank(h) == Rank(g)
  {
    hide WithStatus;
  }

  /** From a fresh graph no run makes more such calls than its step limit allows. */
  lemma RunsComeToRest(specs: seq<UnitSpec>, edges: seq<Edge>, limits: Limits,
                       constraints: seq<Constraint>, now: nat, calls: seq<Timed>)
    requires ValidSpecs(specs, edges, limits)
    requires forall i :: 0 <= i < |calls| ==> UnitCall(calls[i].call)
    ensures Effective(InitialGraph(specs, edges, limits, constraints, now), calls)
         <= limits.maxGraphSteps * (2 * (|specs| + 1)) + 1
  {
    hide Invariant, InitialGraph, ValidSpecs, Effective, WithStatus, Reachable;
    var g := InitialGraph(specs, edges, limits, constraints, now);
    InitialInvariant(specs, edges, limits, constraints, now);
    InitialShape(specs, edges, limits, constraints, now);
    InitialUnitsOk(specs, edges, limits);
    assert FailedCount(g) == 0 by { NoneFailed(g); }
    InitialSize(specs);
    EffectiveSpendsRank(g, calls);
    RankNonNegative(Run(g, calls));
    var m, n := 2 * (|g.units| + 1), 2 * (|specs| + 1);
    assert limits.maxGraphSteps * m <= limits.maxGraphSteps * n;
  }

  lemma NoneFailed(g: Graph)
    requires forall u :: u in g.units ==> g.units[u].status == Pending
    ensures WithStatus(g.units, Failed) == {}
  {
  }

  lemma RankNonNegative(g: Graph)
    requires Invariant(g)
    ensures Rank(g) >= 0
  {
    hide WellFormed, StatusesOk, OutputsOk, StatusSound, Exact, UnitBudget, TotalAttempts, WithStatus;
    assert StepsLeft(g) >= 0;
    assert StepsLeft(g) * (2 * (|g.units| + 1)) >= 0;
  }
}
