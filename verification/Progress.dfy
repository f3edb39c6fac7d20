/**
 * When a round uses up budget.  A round that is handed outcomes for none of the units it selects
 * counts no step, so no limit stops a caller that keeps handing them.
 */
module Progress {
  import opened Basics
  import opened Digraph
  import opened Frame
  import opened JsonValues
  import opened State
  import opened Termination

  /** `h` is later than `g`: a step more was counted, or the graph stopped converging. */
  ghost predicate Spent(g: Graph, h: Graph) {
    h.counters.graphSteps > g.counters.graphSteps || h.status == ConvergedFailed
  }

  ghost predicate NotEarlier(g: Graph, h: Graph) { h.counters.graphSteps >= g.counters.graphSteps }

  lemma GuardSpends(g: Graph, now: nat, childRun: bool)
    requires g.status != ConvergedFailed
    ensures Spent(g, GuardStep(g, now, childRun)) && NotEarlier(g, GuardStep(g, now, childRun))
  {
  }

  lemma CompleteSpends(g: Graph, u: Id, output: Json, now: nat)
    requires CompleteUnit(g, u, output, now).Ok?
    ensures Spent(g, CompleteUnit(g, u, output, now).value) && NotEarlier(g, CompleteUnit(g, u, output, now).value)
  {
    hide WellFormed, Executable, DependencyReady, Conforms, Exhausted, Reject, Refresh, GuardStep, MayStep;
    hide CountStep, SetAttempts, SetAccepted, MarkConverged;
    if g.status != ConvergedFailed { GuardSpends(g, now, true); }
    if u in g.units {
      CountedUnits(g, now);
      StepsCounted(g, u, SchemaInvalid, output, CountStep(g, now, true).units[u].attempts.BumpCheck(), now);
    }
  }

  lemma FailSpends(g: Graph, u: Id, note: FailureNote, now: nat)
    requires FailUnit(g, u, note, now).Ok?
    ensures Spent(g, FailUnit(g, u, note, now).value) && NotEarlier(g, FailUnit(g, u, note, now).value)
  {
    hide WellFormed, Exhausted, Reject, GuardStep, MayStep, CountStep, SetAttempts, MarkConverged;
    if g.status != ConvergedFailed { GuardSpends(g, now, true); }
    if u in g.units {
      CountedUnits(g, now);
      StepsCounted(g, u, note, Null, CountStep(g, now, true).units[u].attempts.BumpCheck(), now);
    }
  }

  lemma RecordSpends(g: Graph, u: Id, stage: Stage, outcome: Outcome, now: nat)
    requires RecordAttempt(g, u, stage, outcome, now).Ok?
    ensures Spent(g, RecordAttempt(g, u, stage, outcome, now).value)
    ensures NotEarlier(g, RecordAttempt(g, u, stage, outcome, now).value)
  {
    hide RecordAttempt, Judge, GuardStep, MayStep;
    RecordShape(g, u, stage, outcome, now);
    GuardSpends(g, now, true);
    var k := SetAttempts(CountStep(g, now, true), u, g.units[u].attempts.Bump(stage));
    JudgeCounted(k, u, stage, outcome, now);
  }

  lemma ApplySpends(g: Graph, u: Id, r: RoundOutcome, now: nat)
    requires ApplyOutcome(g, u, r, now).Ok?
    ensures Spent(g, ApplyOutcome(g, u, r, now).value) && NotEarlier(g, ApplyOutcome(g, u, r, now).value)
  {
    hide CompleteUnit, FailUnit, RecordAttempt;
    match r
    case Staged(stage, outcome) => RecordSpends(g, u, stage, outcome, now);
    case Direct(outcome) =>
      if outcome.ok {
        CompleteSpends(g, u, outcome.output, now);
      } else {
        FailSpends(g, u, Reason(outcome.reason), now);
      }
  }

  ghost predicate SomeOutcome(selected: seq<Id>, outcomes: map<Id, RoundOutcome>) {
    exists u :: u in selected && u in outcomes
  }

  lemma {:induction false} ApplyAllSpends(g: Graph, selected: seq<Id>, outcomes: map<Id, RoundOutcome>, now: nat)
    requires ApplyOutcomes(g, selected, outcomes, now).Ok?
    ensures NotEarlier(g, ApplyOutcomes(g, selected, outcomes, now).value)
    ensures SomeOutcome(selected, outcomes) ==> Spent(g, ApplyOutcomes(g, selected, outcomes, now).value)
    ensures !SomeOutcome(selected, outcomes) ==> ApplyOutcomes(g, selected, outcomes, now) == Ok(g)
    decreases |selected|
  {
    hide ApplyOutcome;
    if selected != [] {
      var u, rest := selected[0], selected[1..];
      assert selected == [u] + rest;
      assert SomeOutcome(selected, outcomes) <==> u in outcomes || SomeOutcome(rest, outcomes);
      if u !in outcomes {
        ApplyAllSpends(g, rest, outcomes, now);
      } else {
        ApplySpends(g, u, outcomes[u], now);
        var h := ApplyOutcome(g, u, outcomes[u], now).value;
        if h.status != ConvergedFailed { ApplyAllSpends(h, rest, outcomes, now); }
      }
    }
  }

  lemma RefreshSpends(g: Graph, h: Graph, now: nat)
    ensures Spent(g, Refresh(h, now)) <==> Spent(g, h)
    ensures NotEarlier(g, Refresh(h, now)) <==> NotEarlier(g, h)
  {
    hide RefreshCounts;
    RefreshCountsOnly(h);
  }

  /**
   * A round that is not refused spends budget, by a counted step or by stopping the graph, if and
   * only if it was handed no outcomes at all or an outcome for some unit it selects.
   */
  lemma RoundSpendsIff(g: Graph, outcomes: map<Id, RoundOutcome>, width: Option<int>, now: nat)
    requires g.status != GraphAccepted && g.status != ConvergedFailed && AdvanceGraph(g, outcomes, width, now).Ok?
    ensures Spent(g, AdvanceGraph(g, outcomes, width, now).value) <==>
            outcomes == map[] ||
            SomeOutcome(ParallelReady(g, if width.Some? then width.value else g.limits.maxParallelism), outcomes)
  {
    hide WellFormed, ParallelReady, ApplyOutcomes, Refresh, RefreshStatus, GuardStep, SomeOutcome, MarkReady;
    var selected := ParallelReady(g, if width.Some? then width.value else g.limits.maxParallelism);
    var h := RefreshStatus(MarkReady(g, selected), now);
    MarkedSteps(g, selected, now);
    if outcomes == map[] {
      GuardSpends(h, now, false);
      RefreshSpends(g, GuardStep(h, now, false), now);
    } else {
      ApplyAllSpends(h, selected, outcomes, now);
      RefreshSpends(g, ApplyOutcomes(h, selected, outcomes, now).value, now);
    }
  }

  lemma MarkedSteps(g: Graph, selected: seq<Id>, now: nat)
    requires g.status != ConvergedFailed
    ensures var h := RefreshStatus(MarkReady(g, selected), now);
      h.counters.graphSteps == g.counters.graphSteps && h.status != ConvergedFailed
  {
    RefreshStatusOnly(MarkReady(g, selected), now);
  }
}
