/**
 * What a call on a reachable snapshot answers, from the numbers in it: refused, stopped for a
 * limit, or carried out.
 */
module Stopping {
  import opened Basics
  import opened Digraph
  import opened Frame
  import opened Invariants
  import opened JsonValues
  import opened Safety
  import opened State

  datatype Answer = Refused(error: Error) | Stopped(reason: ConvergenceReason) | CarriedOut

  /** The answer is to be read off the snapshot returned. */
  ghost predicate Answers(r: Result<Graph>, a: Answer) {
    match a
    case Refused(error) => r == Err(error)
    case Stopped(reason) => r.Ok? && r.value.status == ConvergedFailed && r.value.failureReason == Some(reason)
    case CarriedOut => r.Ok? && r.value.status != ConvergedFailed
  }

  /** The attempts of a unit are used up, by the graph's number or by the one its retry policy gives. */
  predicate UsedUp(g: Graph, unit: Unit) {
    var total := unit.attempts.produce + unit.attempts.check + unit.attempts.correct;
    || total >= g.limits.maxAttemptPerUnit
    || (unit.policy.maxAttemptPerUnit.Some? && total >= unit.policy.maxAttemptPerUnit.value)
    || (unit.policy.maxAttemptPerUnit.None? && unit.policy.maxAttempts.Some? && total >= unit.policy.maxAttempts.value)
  }

  /** The attempts of one stage are used up, by the number the policy gives for it. */
  predicate StageUsedUp(unit: Unit, stage: Stage) {
    match stage
    case Produce => unit.policy.maxProduce.Some? && unit.attempts.produce >= unit.policy.maxProduce.value
    case Check => unit.policy.maxCheck.Some? && unit.attempts.check >= unit.policy.maxCheck.value
    case Correct => unit.policy.maxCorrect.Some? && unit.attempts.correct >= unit.policy.maxCorrect.value
  }

  predicate OutOfTime(g: Graph, now: nat) {
    g.limits.maxWallTime.Some? && now > g.times.started + g.limits.maxWallTime.value
  }

  /** Something that `u` depends on, or that a listed edge puts before it, is not accepted. */
  predicate Waiting(g: Graph, u: Id)
    requires u in g.units
  {
    || (exists p :: p in g.units[u].dependencies && (p !in g.units || g.units[p].status != Accepted))
    || (exists e :: e in g.edges && e.to == u && (e.from !in g.units || g.units[e.from].status != Accepted))
  }

  // ---------------------------------------------------------------- the pieces

  lemma UsedUpIff(g: Graph, unit: Unit)
    ensures Exhausted(g, unit) <==> UsedUp(g, unit)
  {
  }

  lemma StageUsedUpIff(g: Graph, unit: Unit, stage: Stage)
    ensures UsedUp(g, unit) || unit.attempts.Of(stage) >= StageLimit(g, unit, stage)
            <==> UsedUp(g, unit) || StageUsedUp(unit, stage)
  {
  }

  lemma WaitingIff(g: Graph, u: Id)
    requires u in g.units
    ensures DependencyReady(g, u) <==> !Waiting(g, u)
  {
    if DependencyReady(g, u) {
      forall p | p in g.units[u].dependencies ensures p in g.units && g.units[p].status == Accepted {
        assert Edge(p, u) in Arcs(g);
      }
    }
  }

  lemma StepIff(g: Graph, now: nat)
    requires g.status != ConvergedFailed
    ensures var h := GuardStep(g, now, true);
      if g.counters.graphSteps >= g.limits.maxGraphSteps then Answers(Ok(h), Stopped(MaxGraphSteps))
      else if g.counters.totalChildRuns >= g.limits.maxTotalChildRuns then Answers(Ok(h), Stopped(MaxTotalChildRuns))
      else if OutOfTime(g, now) then Answers(Ok(h), Stopped(MaxWallTime))
      else MayStep(g, now, true)
    ensures MayStep(g, now, true) ==>
      && g.counters.graphSteps < g.limits.maxGraphSteps && g.counters.totalChildRuns < g.limits.maxTotalChildRuns
      && !OutOfTime(g, now)
  {
  }

  /** A unit of a reachable snapshot can be worked on unless it has failed. */
  lemma ExecutableIff(g: Graph, u: Id)
    requires StatusesOk(g) && u in g.units
    ensures Executable(g.units[u].status) <==> g.units[u].status != Failed
  {
  }

  lemma Known(g: Graph)
    requires Reachable(g)
    ensures WellFormed(g) && StatusesOk(g) && OutputsOk(g) && Budgets(g) && StatusSound(g)
  {
    hide Reachable, WellFormed, StatusesOk, OutputsOk, Budgets, StatusSound, Exact;
    ReachableInvariant(g);
  }

  lemma CarriedOutStatus(k: Graph, now: nat)
    requires k.status != ConvergedFailed
    ensures Refresh(k, now).status != ConvergedFailed
  {
    hide RefreshCounts;
    RefreshCountsOnly(k);
  }

  lemma RejectStatus(k: Graph, u: Id, note: FailureNote)
    requires u in k.units
    ensures Reject(k, u, note).status == RetryPending
  {
    hide TotalAttempts, WithStatus, Reopen;
  }

  // ---------------------------------------------------------------- the calls

  function CompleteAnswer(g: Graph, u: Id, now: nat): Answer {
    if g.status == ConvergedFailed then Refused(ConvergenceFailed)
    else if g.counters.graphSteps >= g.limits.maxGraphSteps then Stopped(MaxGraphSteps)
    else if g.counters.totalChildRuns >= g.limits.maxTotalChildRuns then Stopped(MaxTotalChildRuns)
    else if OutOfTime(g, now) then Stopped(MaxWallTime)
    else if u !in g.units then Refused(UnknownUnit)
    else if g.units[u].status == Failed || Waiting(g, u) then Refused(NotReady)
    else if UsedUp(g, g.units[u]) then Stopped(BudgetExhausted)
    else CarriedOut
  }

  function FailAnswer(g: Graph, u: Id, now: nat): Answer {
    if g.status == ConvergedFailed then Refused(ConvergenceFailed)
    else if g.counters.graphSteps >= g.limits.maxGraphSteps then Stopped(MaxGraphSteps)
    else if g.counters.totalChildRuns >= g.limits.maxTotalChildRuns then Stopped(MaxTotalChildRuns)
    else if OutOfTime(g, now) then Stopped(MaxWallTime)
    else if u !in g.units then Refused(UnknownUnit)
    else if UsedUp(g, g.units[u]) then Stopped(BudgetExhausted)
    else CarriedOut
  }

  function RecordAnswer(g: Graph, u: Id, stage: Stage, now: nat): Answer {
    if g.status == ConvergedFailed then Refused(ConvergenceFailed)
    else if u !in g.units then Refused(UnknownUnit)
    else if g.units[u].status == Failed || Waiting(g, u) then Refused(NotReady)
    else if UsedUp(g, g.units[u]) || StageUsedUp(g.units[u], stage) then Stopped(BudgetExhausted)
    else if g.counters.graphSteps >= g.limits.maxGraphSteps then Stopped(MaxGraphSteps)
    else if g.counters.totalChildRuns >= g.limits.maxTotalChildRuns then Stopped(MaxTotalChildRuns)
    else if OutOfTime(g, now) then Stopped(MaxWallTime)
    else CarriedOut
  }

  /** What a completion answers; a stop for time or attempts has counted the step, any other has not. */
  lemma CompleteAnswers(g: Graph, u: Id, output: Json, now: nat)
    requires Reachable(g)
    ensures Answers(CompleteUnit(g, u, output, now), CompleteAnswer(g, u, now))
    ensures CompleteAnswer(g, u, now).Stopped? ==> Counted(g, CompleteUnit(g, u, output, now).value, now,
      if CompleteAnswer(g, u, now).reason in {MaxWallTime, BudgetExhausted} then 1 else 0)
  {
    hide Reachable, WellFormed, StatusesOk, OutputsOk, Budgets, StatusSound, Waiting, UsedUp, Counted, Conforms;
    hide Executable, DependencyReady, Exhausted;
    Known(g);
    if g.status != ConvergedFailed {
      StepIff(g, now);
      if !MayStep(g, now, true) { StepCounted(g, now); }
      if MayStep(g, now, true) {
        hide MayStep, GuardStep, OutOfTime;
        if u in g.units { CompletePastStep(g, u, output, now); }
      }
    }
  }

  lemma CompletePastStep(g: Graph, u: Id, output: Json, now: nat)
    requires WellFormed(g) && StatusesOk(g) && g.status != ConvergedFailed && MayStep(g, now, true) && u in g.units
    ensures var a := if g.units[u].status == Failed || Waiting(g, u) then Refused(NotReady)
                     else if UsedUp(g, g.units[u]) then Stopped(BudgetExhausted) else CarriedOut;
      && Answers(CompleteUnit(g, u, output, now), a)
      && (a.Stopped? ==> Counted(g, CompleteUnit(g, u, output, now).value, now, 1))
  {
    hide WellFormed, StatusesOk, Waiting, Executable, Conforms, DependencyReady, UsedUp, Exhausted, Reject, Refresh;
    hide MayStep, GuardStep;
    WaitingIff(g, u);
    ExecutableIff(g, u);
    UsedUpIff(g, g.units[u]);
    var h := CountStep(g, now, true);
    SameLimit(g, h, g.units[u]);
    RejectStatus(h, u, SchemaInvalid);
    CarriedOutStatus(SetAccepted(SetAttempts(h, u, g.units[u].attempts.BumpCheck()), u, output), now);
  }

  lemma StepCounted(g: Graph, now: nat)
    requires g.status != ConvergedFailed && !MayStep(g, now, true)
    ensures var h := GuardStep(g, now, true);
      && h.failureReason.Some?
      && Counted(g, h, now, if h.failureReason == Some(MaxWallTime) then 1 else 0)
  {
  }

  /** The graph is as it was, but stopped now and with so many steps and child runs more. */
  ghost predicate Counted(g: Graph, h: Graph, now: nat, n: nat) {
    h == g.(status := ConvergedFailed, failureReason := h.failureReason,
            times := g.times.(updated := now, ended := Some(now)),
            counters := g.counters.(graphSteps := g.counters.graphSteps + n,
                                    totalChildRuns := g.counters.totalChildRuns + n))
  }

  lemma SameLimit(g: Graph, h: Graph, unit: Unit)
    requires h.limits == g.limits
    ensures Exhausted(h, unit) <==> Exhausted(g, unit)
  {
  }

  lemma FailAnswers(g: Graph, u: Id, note: FailureNote, now: nat)
    requires Reachable(g)
    ensures Answers(FailUnit(g, u, note, now), FailAnswer(g, u, now))
    ensures FailAnswer(g, u, now).Stopped? ==> Counted(g, FailUnit(g, u, note, now).value, now,
      if FailAnswer(g, u, now).reason in {MaxWallTime, BudgetExhausted} then 1 else 0)
  {
    hide Reachable, WellFormed, StatusesOk, OutputsOk, Budgets, StatusSound, UsedUp, Exhausted, Reject;
    Known(g);
    if g.status != ConvergedFailed { StepIff(g, now); }
    if u in g.units {
      UsedUpIff(g, g.units[u]);
      SameLimit(g, CountStep(g, now, true), g.units[u]);
      RejectStatus(SetAttempts(CountStep(g, now, true), u, g.units[u].attempts.BumpCheck()), u, note);
    }
  }

  lemma RecordAnswers(g: Graph, u: Id, stage: Stage, outcome: Outcome, now: nat)
    requires Reachable(g)
    ensures Answers(RecordAttempt(g, u, stage, outcome, now), RecordAnswer(g, u, stage, now))
    ensures RecordAnswer(g, u, stage, now).Stopped? ==> Counted(g, RecordAttempt(g, u, stage, outcome, now).value, now,
      if RecordAnswer(g, u, stage, now).reason == MaxWallTime then 1 else 0)
  {
    hide Reachable, WellFormed, StatusesOk, OutputsOk, Budgets, StatusSound, Waiting, Executable, StageUsedUp;
    hide DependencyReady, UsedUp, Exhausted, Judge, StageLimit;
    Known(g);
    if g.status != ConvergedFailed { StepIff(g, now); }
    if u in g.units {
      WaitingIff(g, u);
      ExecutableIff(g, u);
      UsedUpIff(g, g.units[u]);
      StageUsedUpIff(g, g.units[u], stage);
      var k := SetAttempts(CountStep(g, now, true), u, g.units[u].attempts.Bump(stage));
      if g.status != ConvergedFailed { JudgedStatus(k, u, stage, outcome, now); }
    }
  }

  lemma JudgedStatus(k: Graph, u: Id, stage: Stage, outcome: Outcome, now: nat)
    requires u in k.units && k.status != ConvergedFailed
    ensures Judge(k, u, stage, outcome, now).status != ConvergedFailed
  {
    hide Reject, Refresh, Conforms, Candidate, Judged;
    RejectStatus(k, u, Reason(outcome.reason));
    RejectStatus(k, u, SchemaInvalid);
    CarriedOutStatus(SetAccepted(k, u, Candidate(k, u, outcome.output)), now);
    CarriedOutStatus(SetProduced(k, u, outcome.output), now);
  }

  /** A retry asks for the unit, its failure and its attempts, and for nothing else. */
  lemma RetryAnswers(g: Graph, u: Id, now: nat)
    requires Reachable(g)
    ensures Answers(RetryUnit(g, u, now),
      if u !in g.units then Refused(UnknownUnit)
      else if g.units[u].status != Failed then Refused(NotFailed)
      else if UsedUp(g, g.units[u]) then Stopped(BudgetExhausted)
      else CarriedOut)
    ensures u in g.units && g.units[u].status == Failed && UsedUp(g, g.units[u]) ==>
      Counted(g, RetryUnit(g, u, now).value, now, 0)
  {
    hide Reachable, WellFormed, StatusesOk, OutputsOk, Budgets, StatusSound, UsedUp, Exhausted, RefreshCounts;
    Known(g);
    if u in g.units {
      UsedUpIff(g, g.units[u]);
      RefreshCountsOnly(g.(units := g.units[u := g.units[u].(status := Reopened)], failed := g.failed - {u},
                           status := RetryPending, times := g.times.(updated := now)));
    }
  }

  // ---------------------------------------------------------------- attempts of reachable snapshots

  /** No unit has more attempts than any of the numbers that bound it. */
  lemma AttemptsWithin(g: Graph, u: Id)
    requires Reachable(g) && u in g.units
    ensures var unit := g.units[u];
      var total := unit.attempts.produce + unit.attempts.check + unit.attempts.correct;
      && total <= g.limits.maxAttemptPerUnit
      && (unit.policy.maxAttemptPerUnit.Some? ==> total <= unit.policy.maxAttemptPerUnit.value)
      && (unit.policy.maxAttemptPerUnit.None? && unit.policy.maxAttempts.Some? ==>
            total <= unit.policy.maxAttempts.value)
      && (unit.policy.maxProduce.Some? ==> unit.attempts.produce <= unit.policy.maxProduce.value)
      && (unit.policy.maxCorrect.Some? ==> unit.attempts.correct <= unit.policy.maxCorrect.value)
  {
    hide Reachable, WellFormed, StatusesOk, OutputsOk, StatusSound, TotalAttempts;
    Known(g);
    assert UnitBudget(g, g.units[u]);
  }
}
