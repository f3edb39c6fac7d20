/**
 * What holds of every snapshot that calls of the engine can bring about from a fresh graph,
 * whatever the calls, their order and their outcomes.
 */
module Invariants {
  import opened Counting
  import opened Digraph
  import opened Frame
  import opened JsonValues
  import opened State

  /** No unit is ever running, invalidated or blocked. */
  ghost predicate StatusesOk(g: Graph) {
    forall u :: u in g.units ==> g.units[u].status in {Pending, Ready, Produced, Accepted, Failed, Reopened}
  }

  /** Outputs follow the statuses, and whatever is stored as accepted fits its unit's schema. */
  ghost predicate OutputsOk(g: Graph) {
    && (forall u :: u in g.failed <==> u in g.units && g.units[u].status == Failed)
    && (forall u :: u in g.units && g.units[u].status == Accepted ==> u in g.accepted)
    && (forall u :: u in g.accepted ==>
        u in g.units && g.units[u].status != Failed && Conforms(g.accepted[u], g.units[u].schema))
    && (forall u :: u in g.working ==> u in g.units && g.units[u].status == Produced)
  }

  ghost predicate UnitBudget(g: Graph, unit: Unit) {
    && unit.attempts.Total() <= AttemptLimit(g, unit)
    && unit.attempts.produce <= StageLimit(g, unit, Produce)
    && unit.attempts.correct <= StageLimit(g, unit, Correct)
  }

  /** Attempts, child runs and steps are accounted for against their limits. */
  ghost predicate Budgets(g: Graph) {
    && TotalAttempts(g.units) <= g.counters.totalChildRuns <= g.counters.graphSteps <= g.limits.maxGraphSteps
    && g.counters.totalChildRuns <= g.limits.maxTotalChildRuns
    && forall u :: u in g.units ==> UnitBudget(g, g.units[u])
  }

  /** Room for one more attempt: a step with a child run has been counted, its attempt has not. */
  ghost predicate Spare(g: Graph) { TotalAttempts(g.units) < g.counters.totalChildRuns }

  ghost predicate Core(g: Graph) {
    WellFormed(g) && StatusesOk(g) && OutputsOk(g) && Budgets(g)
  }

  ghost predicate Exact(g: Graph) { RefreshCounts(g) == g }

  /** The graph status tells the truth about the units. */
  ghost predicate StatusSound(g: Graph) {
    && (g.status == GraphAccepted ==> AllAccepted(g))
    && (AllAccepted(g) ==> g.status in {GraphAccepted, ConvergedFailed})
    && g.status != Stalled && g.status != GraphFailed
  }

  /** The invariant without the derived counters, which marking units ready in a round leaves stale. */
  ghost predicate Loose(g: Graph) { Core(g) && StatusSound(g) }

  ghost predicate Invariant(g: Graph) { Loose(g) && Exact(g) }

  // ---------------------------------------------------------------- well-formedness

  lemma FrameWellFormed(g: Graph, h: Graph)
    requires WellFormed(g) && SameFrame(g, h)
    requires OutputsOk(h)
    requires forall u :: u in h.units ==> UnitBudget(h, h.units[u])
    ensures WellFormed(h)
  {
    FrameArcs(g, h);
    assert ShapeOk(h) by {
      forall u | u in h.units ensures UnitOk(h, u) {
        assert UnitOk(g, u) && SameContract(g.units[u], h.units[u]) && UnitBudget(h, h.units[u]);
      }
    }
  }

  /** Everything about units and outputs carries over when they are the same. */
  lemma CarryOver(g: Graph, h: Graph)
    requires h.units == g.units && h.edges == g.edges && h.limits == g.limits
    requires h.accepted == g.accepted && h.failed == g.failed && h.working == g.working
    ensures WellFormed(g) ==> WellFormed(h)
    ensures StatusesOk(g) ==> StatusesOk(h)
    ensures OutputsOk(g) ==> OutputsOk(h)
    ensures (forall u :: u in g.units ==> UnitBudget(g, g.units[u])) ==>
      forall u :: u in h.units ==> UnitBudget(h, h.units[u])
    ensures AllAccepted(g) <==> AllAccepted(h)
  {
    hide WellFormed, StatusesOk, OutputsOk, UnitBudget, AllAccepted;
    if WellFormed(g) { CarryWellFormed(g, h); }
    CarryOutputs(g, h);
    forall u | u in h.units ensures UnitBudget(g, g.units[u]) ==> UnitBudget(h, h.units[u]) {
      CarryUnitBudget(g, h, u);
    }
  }

  lemma CarryWellFormed(g: Graph, h: Graph)
    requires WellFormed(g) && h.units == g.units && h.edges == g.edges && h.limits == g.limits
    requires h.accepted == g.accepted && h.failed == g.failed
    ensures WellFormed(h)
  {
    hide Acyclic, UnitOk;
    assert Arcs(g) == Arcs(h);
    forall u | u in h.units ensures UnitOk(h, u) { CarryUnitOk(g, h, u); }
  }

  lemma CarryUnitOk(g: Graph, h: Graph, u: Id)
    requires u in g.units && UnitOk(g, u) && h.units == g.units
    ensures UnitOk(h, u)
  {
  }

  lemma CarryOutputs(g: Graph, h: Graph)
    requires h.units == g.units && h.accepted == g.accepted && h.failed == g.failed && h.working == g.working
    ensures StatusesOk(g) ==> StatusesOk(h)
    ensures OutputsOk(g) ==> OutputsOk(h)
    ensures AllAccepted(g) <==> AllAccepted(h)
  {
    hide Conforms;
  }

  lemma CarryUnitBudget(g: Graph, h: Graph, u: Id)
    requires u in g.units && h.units == g.units && h.limits == g.limits
    ensures UnitBudget(g, g.units[u]) ==> UnitBudget(h, h.units[u])
  {
  }

  lemma CarryExact(g: Graph, h: Graph)
    requires h.units == g.units && Exact(g)
    requires h.counters == g.counters.(graphSteps := h.counters.graphSteps, totalChildRuns := h.counters.totalChildRuns,
                                       retries := h.counters.retries, parallelWidth := h.counters.parallelWidth)
    ensures Exact(h)
  {
    hide WithStatus, TotalAttempts;
  }

  // ---------------------------------------------------------------- guard

  lemma GuardKeeps(g: Graph, now: nat, childRun: bool)
    requires Core(g) && g.status != ConvergedFailed
    ensures Core(GuardStep(g, now, childRun))
    ensures Exact(g) ==> Exact(GuardStep(g, now, childRun))
    ensures StatusSound(g) ==> StatusSound(GuardStep(g, now, childRun))
    ensures MayStep(g, now, childRun) ==> GuardStep(g, now, childRun) == CountStep(g, now, childRun)
    ensures childRun && MayStep(g, now, childRun) ==> Spare(CountStep(g, now, childRun))
    ensures !MayStep(g, now, childRun) ==> GuardStep(g, now, childRun).status == ConvergedFailed
  {
    hide WellFormed, StatusesOk, OutputsOk, UnitBudget, TotalAttempts, AllAccepted, Exact, RefreshCounts;
    hide GuardStep, MayStep, CountStep;
    var h := GuardStep(g, now, childRun);
    GuardShape(g, now, childRun);
    CarryOver(g, h);
    if Exact(g) { CarryExact(g, h); }
  }

  lemma GuardShape(g: Graph, now: nat, childRun: bool)
    requires g.status != ConvergedFailed && g.counters.totalChildRuns <= g.limits.maxTotalChildRuns
    ensures var h := GuardStep(g, now, childRun);
      && h == g.(status := h.status, times := h.times, failureReason := h.failureReason, counters := h.counters)
      && (h.counters == g.counters ||
          (h.counters == CountStep(g, now, childRun).counters && h.counters.graphSteps <= g.limits.maxGraphSteps
           && h.counters.totalChildRuns <= g.limits.maxTotalChildRuns))
      && (h.status == if MayStep(g, now, childRun) then g.status else ConvergedFailed)
      && (MayStep(g, now, childRun) ==> h == CountStep(g, now, childRun))
    ensures var c := CountStep(g, now, childRun).counters;
      && c == g.counters.(graphSteps := c.graphSteps, totalChildRuns := c.totalChildRuns)
      && c.graphSteps == g.counters.graphSteps + 1
      && c.totalChildRuns == g.counters.totalChildRuns + if childRun then 1 else 0
    ensures CountStep(g, now, childRun).units == g.units
  {
  }

  lemma MarkKeeps(g: Graph, reason: ConvergenceReason, now: nat)
    requires Loose(g)
    ensures Loose(MarkConverged(g, reason, now)) && (Exact(g) ==> Exact(MarkConverged(g, reason, now)))
  {
    hide WellFormed, StatusesOk, OutputsOk, UnitBudget, TotalAttempts, AllAccepted, Exact, RefreshCounts;
    CarryOver(g, MarkConverged(g, reason, now));
    if Exact(g) { CarryExact(g, MarkConverged(g, reason, now)); }
  }

  // ---------------------------------------------------------------- refreshing

  lemma RefreshExact(g: Graph)
    ensures Exact(RefreshCounts(g))
  {
    hide WithStatus, TotalAttempts;
  }

  /** Refreshing after an update makes counters exact and the status sound again. */
  lemma RefreshKeeps(g: Graph, now: nat)
    requires Core(g)
    ensures Invariant(Refresh(g, now))
  {
    hide WellFormed, OutputsOk, UnitBudget, TotalAttempts, WithStatus, Exact;
    var h := RefreshCounts(g);
    RefreshCountsOnly(g);
    RefreshExact(g);
    CarryOver(g, h);
    RefreshStatusKeeps(h, now);
  }

  lemma RefreshStatusKeeps(g: Graph, now: nat)
    requires Core(g)
    ensures Core(RefreshStatus(g, now)) && StatusSound(RefreshStatus(g, now))
    ensures Exact(g) ==> Exact(RefreshStatus(g, now))
  {
    hide WellFormed, OutputsOk, UnitBudget, TotalAttempts, RefreshCounts, Exact, RefreshStatus, StatusSound;
    RefreshStatusOnly(g, now);
    RefreshedStatusSound(g, now);
    CarryOver(g, RefreshStatus(g, now));
    if Exact(g) { CarryExact(g, RefreshStatus(g, now)); }
  }

  lemma RefreshedStatusSound(g: Graph, now: nat)
    requires StatusesOk(g)
    ensures StatusSound(RefreshStatus(g, now))
  {
    if !AllAccepted(g) {
      var u :| u in g.units && g.units[u].status != Accepted;
    }
  }

  // ---------------------------------------------------------------- updates of one unit

  lemma StatusesCarry(g: Graph, h: Graph)
    requires StatusesOk(g) && OutputsOk(g) && h.units.Keys == g.units.Keys
    requires forall u :: u in g.units ==>
      h.units[u].status == g.units[u].status && h.units[u].schema == g.units[u].schema
    requires h.accepted == g.accepted && h.failed == g.failed && h.working == g.working
    ensures StatusesOk(h) && OutputsOk(h)
  {
    hide Conforms;
  }

  /** Counting the attempt that the last step made room for. */
  lemma AttemptKeeps(g: Graph, u: Id, attempts: Attempts)
    requires Core(g) && Spare(g) && u in g.units
    requires attempts.Total() <= g.units[u].attempts.Total() + 1 && attempts.Total() <= AttemptLimit(g, g.units[u])
    requires attempts.produce <= StageLimit(g, g.units[u], Produce)
    requires attempts.correct <= StageLimit(g, g.units[u], Correct)
    ensures Core(SetAttempts(g, u, attempts)) && u in SetAttempts(g, u, attempts).units
  {
    hide WellFormed, StatusesOk, OutputsOk, TotalAttempts;
    var h := SetAttempts(g, u, attempts);
    StatusesCarry(g, h);
    UpdateFrame(g, u, Null, attempts);
    TotalUpdate(g.units, u, h.units[u]);
    FrameArcs(g, h);
    forall v | v in h.units ensures UnitBudget(h, h.units[v]) {
      assert UnitBudget(g, g.units[v]);
    }
    FrameWellFormed(g, h);
  }

  lemma StatusUpdateKeeps(g: Graph, h: Graph)
    requires Core(g) && SameFrame(g, h) && h.counters == g.counters
    requires forall u :: u in g.units ==> h.units[u].attempts == g.units[u].attempts
    requires OutputsOk(h)
    ensures WellFormed(h) && Budgets(h)
  {
    hide WellFormed, StatusesOk, OutputsOk, TotalAttempts;
    TotalSame(g.units, h.units);
    FrameArcs(g, h);
    forall v | v in h.units ensures UnitBudget(h, h.units[v]) {
      assert UnitBudget(g, g.units[v]) && SameContract(g.units[v], h.units[v]);
    }
    FrameWellFormed(g, h);
  }

  lemma AcceptKeeps(g: Graph, u: Id, output: Json)
    requires Core(g) && u in g.units && Conforms(output, g.units[u].schema)
    ensures Core(SetAccepted(g, u, output))
  {
    hide WellFormed, StatusesOk, OutputsOk, Budgets, Conforms;
    UpdateFrame(g, u, output, g.units[u].attempts);
    AcceptOutputs(g, u, output);
    StatusUpdateKeeps(g, SetAccepted(g, u, output));
  }

  /** What `OutputsOk` says of one identifier. */
  ghost predicate OutputRow(g: Graph, u: Id) {
    && (u in g.failed <==> u in g.units && g.units[u].status == Failed)
    && (u in g.units && g.units[u].status == Accepted ==> u in g.accepted)
    && (u in g.accepted ==> u in g.units && g.units[u].status != Failed && Conforms(g.accepted[u], g.units[u].schema))
    && (u in g.working ==> u in g.units && g.units[u].status == Produced)
  }

  lemma OutputsByRow(g: Graph)
    ensures OutputsOk(g) <==> forall u :: OutputRow(g, u)
  {
    hide Conforms;
    if forall u :: OutputRow(g, u) {
      forall u ensures u in g.failed <==> u in g.units && g.units[u].status == Failed { assert OutputRow(g, u); }
      forall u | u in g.units && g.units[u].status == Accepted ensures u in g.accepted { assert OutputRow(g, u); }
      forall u | u in g.accepted
        ensures u in g.units && g.units[u].status != Failed && Conforms(g.accepted[u], g.units[u].schema)
      {
        assert OutputRow(g, u);
      }
      forall u | u in g.working ensures u in g.units && g.units[u].status == Produced { assert OutputRow(g, u); }
    }
  }

  lemma AcceptOutputs(g: Graph, u: Id, output: Json)
    requires StatusesOk(g) && OutputsOk(g) && u in g.units && Conforms(output, g.units[u].schema)
    ensures StatusesOk(SetAccepted(g, u, output)) && OutputsOk(SetAccepted(g, u, output))
  {
    UpdatedStatuses(g, u, output);
    hide OutputsOk, OutputRow, StatusesOk, SetAccepted;
    OutputsByRow(g);
    OutputsByRow(SetAccepted(g, u, output));
    forall v ensures OutputRow(SetAccepted(g, u, output), v) { AcceptRow(g, u, output, v); }
  }

  lemma AcceptRow(g: Graph, u: Id, output: Json, v: Id)
    requires OutputRow(g, v) && u in g.units && Conforms(output, g.units[u].schema)
    ensures OutputRow(SetAccepted(g, u, output), v)
  {
    hide Conforms;
  }

  lemma UpdatedStatuses(g: Graph, u: Id, output: Json)
    requires StatusesOk(g) && u in g.units
    ensures StatusesOk(SetAccepted(g, u, output)) && StatusesOk(SetProduced(g, u, output))
  {
  }

  lemma ProduceOutputs(g: Graph, u: Id, output: Json)
    requires StatusesOk(g) && OutputsOk(g) && u in g.units
    ensures StatusesOk(SetProduced(g, u, output)) && OutputsOk(SetProduced(g, u, output))
  {
    UpdatedStatuses(g, u, output);
    hide OutputsOk, OutputRow, StatusesOk, SetProduced;
    OutputsByRow(g);
    OutputsByRow(SetProduced(g, u, output));
    forall v ensures OutputRow(SetProduced(g, u, output), v) { ProduceRow(g, u, output, v); }
  }

  lemma ProduceRow(g: Graph, u: Id, output: Json, v: Id)
    requires OutputRow(g, v) && u in g.units
    ensures OutputRow(SetProduced(g, u, output), v)
  {
    hide Conforms;
  }

  lemma ProduceKeeps(g: Graph, u: Id, output: Json)
    requires Core(g) && u in g.units
    ensures Core(SetProduced(g, u, output))
  {
    hide WellFormed, StatusesOk, OutputsOk, Budgets;
    UpdateFrame(g, u, output, g.units[u].attempts);
    ProduceOutputs(g, u, output);
    StatusUpdateKeeps(g, SetProduced(g, u, output));
  }

  // ---------------------------------------------------------------- rejection

  lemma FailedKeeps(g: Graph, u: Id, note: FailureNote)
    requires Core(g) && u in g.units
    ensures Core(SetFailed(g, u, note)) && u in SetFailed(g, u, note).units
  {
    hide WellFormed, StatusesOk, OutputsOk, Budgets, SameFrame;
    FailedFrame(g, u, note);
    FailedOutputs(g, u, note);
    StatusUpdateKeeps(g, SetFailed(g, u, note));
  }

  lemma FailedOutputs(g: Graph, u: Id, note: FailureNote)
    requires StatusesOk(g) && OutputsOk(g) && u in g.units
    ensures StatusesOk(SetFailed(g, u, note)) && OutputsOk(SetFailed(g, u, note))
  {
    hide OutputsOk, OutputRow;
    OutputsByRow(g);
    OutputsByRow(SetFailed(g, u, note));
    forall v ensures OutputRow(SetFailed(g, u, note), v) { FailedOutputRow(g, u, note, v); }
  }

  lemma FailedOutputRow(g: Graph, u: Id, note: FailureNote, v: Id)
    requires OutputRow(g, v) && u in g.units
    ensures OutputRow(SetFailed(g, u, note), v)
  {
    hide Conforms;
  }

  lemma ReopenKeeps(g: Graph, u: Id)
    requires Core(g) && u in g.units
    ensures Core(Reopen(g, u))
  {
    hide WellFormed, StatusesOk, OutputsOk, Budgets, Reaches, Downstream, SameFrame;
    ReopenFrame(g, u);
    ReopenOutputs(g, u);
    ReopenAttempts(g, u);
    StatusUpdateKeeps(g, Reopen(g, u));
  }

  lemma ReopenAttempts(g: Graph, u: Id)
    ensures Reopen(g, u).units.Keys == g.units.Keys && Reopen(g, u).counters == g.counters
    ensures forall v :: v in g.units ==> Reopen(g, u).units[v].attempts == g.units[v].attempts
  {
    hide Downstream;
  }

  lemma ReopenOutputs(g: Graph, u: Id)
    requires StatusesOk(g) && OutputsOk(g)
    ensures StatusesOk(Reopen(g, u)) && OutputsOk(Reopen(g, u))
  {
    var down := Downstream(Arcs(g), g.units.Keys, u);
    assert down <= g.units.Keys;
    hide Conforms, Downstream, Arcs;
    ReopenedOutputs(g, Reopen(g, u), down);
  }

  lemma ReopenedOutputs(g: Graph, h: Graph, down: set<Id>)
    requires StatusesOk(g) && OutputsOk(g) && down <= g.units.Keys
    requires h.units == (map v | v in g.units :: if v in down then g.units[v].(status := Reopened) else g.units[v])
    requires h.accepted == g.accepted - (set v | v in down && g.units[v].status == Accepted)
    requires h.failed == g.failed - down && h.working == g.working - down
    ensures StatusesOk(h) && OutputsOk(h)
  {
    hide OutputsOk, OutputRow;
    OutputsByRow(g);
    OutputsByRow(h);
    forall v ensures OutputRow(h, v) { ReopenedOutputRow(g, h, down, v); }
  }

  lemma ReopenedOutputRow(g: Graph, h: Graph, down: set<Id>, v: Id)
    requires OutputRow(g, v) && down <= g.units.Keys
    requires h.units == (map v | v in g.units :: if v in down then g.units[v].(status := Reopened) else g.units[v])
    requires h.accepted == g.accepted - (set v | v in down && g.units[v].status == Accepted)
    requires h.failed == g.failed - down && h.working == g.working - down
    ensures OutputRow(h, v)
  {
    hide Conforms;
  }

  lemma RejectKeeps(g: Graph, u: Id, note: FailureNote)
    requires Core(g) && u in g.units
    ensures Invariant(Reject(g, u, note)) && Reject(g, u, note).status == RetryPending
  {
    hide WellFormed, StatusesOk, OutputsOk, UnitBudget, TotalAttempts, Exact, RefreshCounts, Reopen, SetFailed;
    FailedKeeps(g, u, note);
    var f := SetFailed(g, u, note);
    ReopenKeeps(f, u);
    var r := Reopen(f, u);
    var k := r.(status := RetryPending, counters := r.counters.(retries := r.counters.retries + 1),
      sendBacks := r.sendBacks + 1);
    RejectedStaysFailed(g, u, note);
    CarryOver(r, k);
    RefreshCountsOnly(k);
    RefreshExact(k);
    CarryOver(k, RefreshCounts(k));
  }

  /** The rejected unit is not among those its rejection reopens. */
  lemma RejectedStaysFailed(g: Graph, u: Id, note: FailureNote)
    requires WellFormed(g) && u in g.units
    ensures u in Reopen(SetFailed(g, u, note), u).units
    ensures Reopen(SetFailed(g, u, note), u).units[u].status == Failed
  {
    hide ShapeOk;
    FrameArcs(g, SetFailed(g, u, note));
    assert !Reaches(Arcs(g), u, u);
  }
}
