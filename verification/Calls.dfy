/** Every call keeps the invariant, hence it holds in every reachable snapshot. */
module Calls {
  import opened Basics
  import opened Digraph
  import opened Frame
  import opened Invariants
  import opened JsonValues
  import opened State

  lemma CompleteKeeps(g: Graph, u: Id, output: Json, now: nat)
    requires Loose(g) && CompleteUnit(g, u, output, now).Ok?
    ensures Loose(CompleteUnit(g, u, output, now).value) && (Exact(g) ==> Exact(CompleteUnit(g, u, output, now).value))
  {
    hide WellFormed, StatusesOk, OutputsOk, Budgets, StatusSound, Exact, Conforms, DependencyReady;
    hide GuardStep, MayStep, CountStep, SetAttempts, SetAccepted, Reject, Refresh, RefreshCounts;
    hide RefreshStatus, MarkConverged;
    GuardKeeps(g, now, true);
    if MayStep(g, now, true) {
      var h := CountStep(g, now, true);
      MarkKeeps(h, BudgetExhausted, now);
      GuardShape2(g, now);
      if u in g.units && !Exhausted(h, h.units[u]) {
        RejectKeeps(h, u, SchemaInvalid);
        CheckKeeps(h, u);
        var k := SetAttempts(h, u, h.units[u].attempts.BumpCheck());
        if Conforms(output, h.units[u].schema) {
          AcceptKeeps(k, u, output);
          RefreshKeeps(SetAccepted(k, u, output), now);
        }
      }
    }
  }

  lemma GuardShape2(g: Graph, now: nat)
    ensures CountStep(g, now, true).units == g.units && CountStep(g, now, true).status == g.status
    ensures CountStep(g, now, true).limits == g.limits && CountStep(g, now, true).edges == g.edges
    ensures CountStep(g, now, true).working == g.working
  {
  }

  /** A direct completion or failure counts as a check. */
  lemma CheckKeeps(h: Graph, u: Id)
    requires Core(h) && Spare(h) && u in h.units && !Exhausted(h, h.units[u])
    ensures Core(SetAttempts(h, u, h.units[u].attempts.BumpCheck()))
    ensures u in SetAttempts(h, u, h.units[u].attempts.BumpCheck()).units
    ensures SetAttempts(h, u, h.units[u].attempts.BumpCheck()).units[u].schema == h.units[u].schema
  {
    hide WellFormed, StatusesOk, OutputsOk;
    assert UnitBudget(h, h.units[u]);
    AttemptKeeps(h, u, h.units[u].attempts.BumpCheck());
  }

  lemma StageKeeps(h: Graph, u: Id, stage: Stage)
    requires Core(h) && Spare(h) && u in h.units && !Exhausted(h, h.units[u])
    requires h.units[u].attempts.Of(stage) < StageLimit(h, h.units[u], stage)
    ensures Core(SetAttempts(h, u, h.units[u].attempts.Bump(stage)))
    ensures u in SetAttempts(h, u, h.units[u].attempts.Bump(stage)).units
  {
    hide WellFormed, StatusesOk, OutputsOk;
    assert UnitBudget(h, h.units[u]);
    AttemptKeeps(h, u, h.units[u].attempts.Bump(stage));
  }

  lemma FailKeeps(g: Graph, u: Id, note: FailureNote, now: nat)
    requires Loose(g) && FailUnit(g, u, note, now).Ok?
    ensures Loose(FailUnit(g, u, note, now).value) && (Exact(g) ==> Exact(FailUnit(g, u, note, now).value))
  {
    hide WellFormed, StatusesOk, OutputsOk, Budgets, StatusSound, Exact;
    hide GuardStep, MayStep, CountStep, SetAttempts, Reject, RefreshCounts, RefreshStatus, MarkConverged;
    GuardKeeps(g, now, true);
    if MayStep(g, now, true) {
      var h := CountStep(g, now, true);
      MarkKeeps(h, BudgetExhausted, now);
      GuardShape2(g, now);
      if u in g.units && !Exhausted(h, h.units[u]) {
        CheckKeeps(h, u);
        RejectKeeps(SetAttempts(h, u, h.units[u].attempts.BumpCheck()), u, note);
      }
    }
  }

  lemma JudgeKeeps(k: Graph, u: Id, stage: Stage, outcome: Outcome, now: nat)
    requires Core(k) && u in k.units
    ensures Invariant(Judge(k, u, stage, outcome, now))
  {
    hide WellFormed, StatusesOk, OutputsOk, Budgets, StatusSound, Exact, Conforms;
    hide SetAccepted, SetProduced, Reject, Refresh, RefreshCounts, RefreshStatus, Candidate;
    RejectKeeps(k, u, Reason(outcome.reason));
    RejectKeeps(k, u, SchemaInvalid);
    ProduceKeeps(k, u, outcome.output);
    RefreshKeeps(SetProduced(k, u, outcome.output), now);
    var output := Candidate(k, u, outcome.output);
    if Conforms(output, k.units[u].schema) {
      AcceptKeeps(k, u, output);
      RefreshKeeps(SetAccepted(k, u, output), now);
    }
  }

  lemma RecordKeeps(g: Graph, u: Id, stage: Stage, outcome: Outcome, now: nat)
    requires Loose(g) && RecordAttempt(g, u, stage, outcome, now).Ok?
    ensures Loose(RecordAttempt(g, u, stage, outcome, now).value)
    ensures (Exact(g) ==> Exact(RecordAttempt(g, u, stage, outcome, now).value))
  {
    hide WellFormed, StatusesOk, OutputsOk, Budgets, StatusSound, Exact, DependencyReady;
    hide GuardStep, MayStep, CountStep, SetAttempts, Judge, RefreshCounts, RefreshStatus, MarkConverged;
    GuardKeeps(g, now, true);
    MarkKeeps(g, BudgetExhausted, now);
    if MayStep(g, now, true) {
      var h := CountStep(g, now, true);
      GuardShape2(g, now);
      if u in g.units && !Exhausted(g, g.units[u]) && g.units[u].attempts.Of(stage) < StageLimit(g, g.units[u], stage) {
        StageKeeps(h, u, stage);
        JudgeKeeps(SetAttempts(h, u, h.units[u].attempts.Bump(stage)), u, stage, outcome, now);
      }
    }
  }

  function ReopenFailed(g: Graph, u: Id): Graph
    requires u in g.units
  {
    g.(units := g.units[u := g.units[u].(status := Reopened)], failed := g.failed - {u})
  }

  lemma RetryKeeps(g: Graph, u: Id, now: nat)
    requires Invariant(g) && RetryUnit(g, u, now).Ok?
    ensures Invariant(RetryUnit(g, u, now).value)
  {
    hide WellFormed, StatusesOk, OutputsOk, Budgets, Exact, UnitBudget, RefreshCounts, MarkConverged, Exhausted;
    MarkKeeps(g, BudgetExhausted, now);
    if u in g.units && g.units[u].status == Failed {
      var h := ReopenFailed(g, u);
      RetryOutputs(g, u);
      StatusUpdateKeeps(g, h);
      var k := h.(status := RetryPending, times := g.times.(updated := now));
      CarryOver(h, k);
      BudgetsCarry(h, k);
      RefreshCountsOnly(k);
      RefreshExact(k);
      CarryOver(k, RefreshCounts(k));
      BudgetsCarry(k, RefreshCounts(k));
      assert k.units[u].status == Reopened;
    }
  }

  lemma BudgetsCarry(h: Graph, k: Graph)
    requires Budgets(h) && k.units == h.units && k.limits == h.limits
    requires k.counters.totalChildRuns == h.counters.totalChildRuns && k.counters.graphSteps == h.counters.graphSteps
    ensures Budgets(k)
  {
    hide TotalAttempts;
    forall u | u in k.units ensures UnitBudget(k, k.units[u]) { assert UnitBudget(h, h.units[u]); }
  }

  lemma RetryOutputs(g: Graph, u: Id)
    requires StatusesOk(g) && OutputsOk(g) && u in g.units && g.units[u].status == Failed
    ensures StatusesOk(ReopenFailed(g, u)) && OutputsOk(ReopenFailed(g, u))
  {
    hide Conforms;
  }

  // ---------------------------------------------------------------- rounds

  lemma ApplyKeeps(g: Graph, u: Id, r: RoundOutcome, now: nat)
    requires Loose(g) && ApplyOutcome(g, u, r, now).Ok?
    ensures Loose(ApplyOutcome(g, u, r, now).value) && (Exact(g) ==> Exact(ApplyOutcome(g, u, r, now).value))
  {
    hide Loose, Exact, CompleteUnit, FailUnit, RecordAttempt;
    match r
    case Staged(stage, outcome) => RecordKeeps(g, u, stage, outcome, now);
    case Direct(outcome) =>
      if outcome.ok { CompleteKeeps(g, u, outcome.output, now); } else { FailKeeps(g, u, Reason(outcome.reason), now); }
  }

  lemma {:induction false} ApplyAllKeeps(g: Graph, selected: seq<Id>, outcomes: map<Id, RoundOutcome>, now: nat)
    requires Loose(g) && ApplyOutcomes(g, selected, outcomes, now).Ok?
    ensures Loose(ApplyOutcomes(g, selected, outcomes, now).value)
    decreases |selected|
  {
    hide Loose, ApplyOutcome;
    if selected != [] {
      if selected[0] !in outcomes {
        ApplyAllKeeps(g, selected[1..], outcomes, now);
      } else {
        ApplyKeeps(g, selected[0], outcomes[selected[0]], now);
        var h := ApplyOutcome(g, selected[0], outcomes[selected[0]], now).value;
        if h.status != ConvergedFailed { ApplyAllKeeps(h, selected[1..], outcomes, now); }
      }
    }
  }

  /** What a round selects is ready, so it is not accepted, failed or produced. */
  lemma {:induction false} PickIsReady(g: Graph, candidates: seq<Id>, owners: set<Json>, room: nat)
    requires forall i :: 0 <= i < |candidates| ==> candidates[i] in g.units
    ensures forall u :: u in Pick(g, candidates, owners, room) ==> u in candidates
    decreases |candidates|
  {
    if candidates != [] && room != 0 {
      var u, rest := candidates[0], candidates[1..];
      if g.units[u].ownership in owners {
        PickIsReady(g, rest, owners, room);
      } else {
        PickIsReady(g, rest, owners + {g.units[u].ownership}, room - 1);
      }
    }
  }

  lemma ParallelIsReady(g: Graph, room: nat)
    ensures forall u :: u in ParallelReady(g, room) ==> u in ReadyUnits(g)
  {
    var ready := ReadyNodes(g);
    assert forall i :: 0 <= i < |ready| ==> ready[i] in ready && ready[i] in ReadyUnits(g);
    PickIsReady(g, ready, {}, room);
  }

  lemma MarkReadyKeeps(g: Graph, selected: seq<Id>)
    requires Core(g) && forall u :: u in selected ==> u in g.units && Selectable(g.units[u].status)
    ensures Core(MarkReady(g, selected))
  {
    hide WellFormed, StatusesOk, OutputsOk, Budgets, UnitBudget;
    var h := MarkReady(g, selected).(counters := g.counters);
    MarkReadyOutputs(g, selected);
    StatusUpdateKeeps(g, h);
    CarryOver(h, MarkReady(g, selected));
    BudgetsCarry(h, MarkReady(g, selected));
  }

  lemma MarkReadyOutputs(g: Graph, selected: seq<Id>)
    requires StatusesOk(g) && OutputsOk(g) && forall u :: u in selected ==>
      u in g.units && Selectable(g.units[u].status)
    ensures StatusesOk(MarkReady(g, selected)) && OutputsOk(MarkReady(g, selected))
    ensures OutputsOk(MarkReady(g, selected).(counters := g.counters))
  {
    hide StatusesOk, OutputsOk, MarkReady;
    MarkReadyFit(g, selected);
    CarryOutputs(MarkReady(g, selected), MarkReady(g, selected).(counters := g.counters));
  }

  lemma MarkReadyFit(g: Graph, selected: seq<Id>)
    requires StatusesOk(g) && OutputsOk(g) && forall u :: u in selected ==>
      u in g.units && Selectable(g.units[u].status)
    ensures StatusesOk(MarkReady(g, selected)) && OutputsOk(MarkReady(g, selected))
  {
    hide OutputsOk, OutputRow;
    OutputsByRow(g);
    OutputsByRow(MarkReady(g, selected));
    forall v ensures OutputRow(MarkReady(g, selected), v) { MarkReadyRow(g, selected, v); }
  }

  lemma MarkReadyRow(g: Graph, selected: seq<Id>, v: Id)
    requires OutputRow(g, v) && (v in selected ==> v in g.units && Selectable(g.units[v].status))
    ensures OutputRow(MarkReady(g, selected), v)
  {
    hide Conforms;
  }

  lemma AdvanceKeeps(g: Graph, outcomes: map<Id, RoundOutcome>, width: Option<int>, now: nat)
    requires Invariant(g) && AdvanceGraph(g, outcomes, width, now).Ok?
    ensures Invariant(AdvanceGraph(g, outcomes, width, now).value)
  {
    hide WellFormed, StatusesOk, OutputsOk, Budgets, StatusSound, Exact;
    hide ParallelReady, MarkReady, RefreshStatus, Refresh, GuardStep, ApplyOutcomes;
    if g.status != GraphAccepted && g.status != ConvergedFailed {
      var room := if width.Some? then width.value else g.limits.maxParallelism;
      var selected := ParallelReady(g, room);
      ParallelIsReady(g, room);
      MarkReadyKeeps(g, selected);
      var m := MarkReady(g, selected);
      RoundStarts(g, selected, now);
      var h := RefreshStatus(m, now);
      if outcomes == map[] {
        GuardKeeps(h, now, false);
        RefreshKeeps(GuardStep(h, now, false), now);
      } else {
        ApplyAllKeeps(h, selected, outcomes, now);
        RefreshKeeps(ApplyOutcomes(h, selected, outcomes, now).value, now);
      }
    }
  }

  lemma RoundStarts(g: Graph, selected: seq<Id>, now: nat)
    requires Core(MarkReady(g, selected)) && g.status != ConvergedFailed
    ensures Core(RefreshStatus(MarkReady(g, selected), now)) && StatusSound(RefreshStatus(MarkReady(g, selected), now))
    ensures RefreshStatus(MarkReady(g, selected), now).status != ConvergedFailed
  {
    hide WellFormed, StatusesOk, OutputsOk, Budgets, StatusSound;
    RefreshStatusKeeps(MarkReady(g, selected), now);
  }

  lemma FinalizeKeeps(g: Graph, now: nat)
    requires Invariant(g)
    ensures Invariant(FinalizeGraph(g, now))
  {
    hide WellFormed, StatusesOk, OutputsOk, Budgets, Exact, RefreshCounts, RefreshStatus, AllAccepted, UnitBudget;
    RefreshStatusKeeps(g, now);
    var h := FinalizeGraph(g, now);
    if AllAccepted(g) {
      CarryOver(g, h);
      CarryExact(g, h);
      BudgetsCarry(g, h);
    }
  }

  lemma ConstraintKeeps(g: Graph, c: Constraint, now: nat)
    requires Invariant(g) && RecordConstraint(g, c, now).Ok?
    ensures Invariant(RecordConstraint(g, c, now).value)
  {
    hide WellFormed, StatusesOk, OutputsOk, Budgets, Exact, RefreshCounts, AllAccepted, UnitBudget;
    var h := RecordConstraint(g, c, now).value;
    CarryOver(g, h);
    CarryExact(g, h);
    BudgetsCarry(g, h);
  }

  /** Every call keeps the invariant; a refused call leaves the snapshot alone. */
  lemma StepKeeps(g: Graph, call: Call, now: nat)
    requires Invariant(g)
    ensures Invariant(After(g, call, now))
  {
    hide Core, StatusSound, Exact, CompleteUnit, FailUnit, RetryUnit, RecordAttempt, AdvanceGraph;
    hide RecordConstraint, FinalizeGraph;
    match call
    case Complete(u, output) => if CompleteUnit(g, u, output, now).Ok? { CompleteKeeps(g, u, output, now); }
    case Fail(u, note) => if FailUnit(g, u, note, now).Ok? { FailKeeps(g, u, note, now); }
    case Retry(u) => if RetryUnit(g, u, now).Ok? { RetryKeeps(g, u, now); }
    case Record(u, stage, outcome) =>
      if RecordAttempt(g, u, stage, outcome, now).Ok? { RecordKeeps(g, u, stage, outcome, now); }
    case Advance(outcomes, width) =>
      if AdvanceGraph(g, outcomes, width, now).Ok? { AdvanceKeeps(g, outcomes, width, now); }
    case Finalize => FinalizeKeeps(g, now);
    case AddConstraint(c) => if RecordConstraint(g, c, now).Ok? { ConstraintKeeps(g, c, now); }
  }

  lemma {:induction false} RunKeeps(g: Graph, calls: seq<Timed>)
    requires Invariant(g)
    ensures Invariant(Run(g, calls)) && SameFrame(g, Run(g, calls))
    decreases |calls|
  {
    hide Invariant, After;
    if calls != [] {
      var before := Run(g, calls[..|calls| - 1]);
      var last := calls[|calls| - 1];
      RunKeeps(g, calls[..|calls| - 1]);
      StepKeeps(before, last.call, last.now);
      StepFrame(before, last.call, last.now);
      FrameTransitive(g, before, After(before, last.call, last.now));
    }
  }
}
