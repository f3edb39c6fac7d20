/**
 * When the stored accepted outputs are those of the accepted units.  New work recorded on an
 * accepted unit leaves its old output behind; nothing else does.
 */
module Freshness {
  import opened Basics
  import opened Calls
  import opened Closure
  import opened Digraph
  import opened Frame
  import opened Invariants
  import opened JsonValues
  import opened Locality
  import opened Safety
  import opened State

  ghost predicate FreshRow(g: Graph, v: Id) {
    v in g.accepted <==> v in g.units && g.units[v].status == Accepted
  }

  /** Exactly the accepted units have an accepted output. */
  ghost predicate Fresh(g: Graph) { forall v :: FreshRow(g, v) }

  /** The call records new work on an accepted unit, within the budgets and not refused. */
  ghost predicate Reworks(g: Graph, call: Call, now: nat) {
    Demotes(g, call, now) && DependencyReady(g, call.unit)
  }

  // ---------------------------------------------------------------- the three effects

  lemma FailureFresh(g: Graph, h: Graph, u: Id, note: FailureNote, attempts: Attempts)
    requires Fresh(g) && FailsLocally(g, h, u, note, attempts)
    ensures Fresh(h)
  {
    hide Downstream, Arcs;
    var down := Downstream(Arcs(g), g.units.Keys, u);
    forall v ensures FreshRow(h, v) {
      assert FreshRow(g, v) && (v == u || (if v in down then ReopenedRow(g, h, v) else SameRow(g, h, v)));
    }
  }

  lemma AcceptanceFresh(g: Graph, h: Graph, u: Id, output: Json, attempts: Attempts)
    requires Fresh(g) && AcceptsLocally(g, h, u, output, attempts)
    ensures Fresh(h)
  {
    forall v ensures FreshRow(h, v) { assert FreshRow(g, v) && (v == u || SameRow(g, h, v)); }
  }

  lemma ProductionFresh(g: Graph, h: Graph, u: Id, output: Json, attempts: Attempts)
    requires Fresh(g) && ProducesLocally(g, h, u, output, attempts)
    ensures Fresh(h) <==> g.units[u].status != Accepted
  {
    assert FreshRow(g, u);
    if g.units[u].status == Accepted {
      assert !FreshRow(h, u);
    } else {
      forall v ensures FreshRow(h, v) { assert FreshRow(g, v) && (v == u || SameRow(g, h, v)); }
    }
  }

  /** Accepted units and outputs are the same ones. */
  lemma SameFresh(g: Graph, h: Graph)
    requires h.accepted == g.accepted && h.units.Keys == g.units.Keys
    requires forall v :: v in g.units ==> (h.units[v].status == Accepted <==> g.units[v].status == Accepted)
    ensures Fresh(g) <==> Fresh(h)
  {
    if Fresh(g) { forall v ensures FreshRow(h, v) { assert FreshRow(g, v); } }
    if Fresh(h) { forall v ensures FreshRow(g, v) { assert FreshRow(h, v); } }
  }

  // ---------------------------------------------------------------- calls

  lemma CompleteFresh(g: Graph, u: Id, output: Json, now: nat)
    requires OutputsOk(g) && Fresh(g) && CompleteUnit(g, u, output, now).Ok?
    ensures Fresh(CompleteUnit(g, u, output, now).value)
  {
    var h := CompleteUnit(g, u, output, now).value;
    hide Fresh, OutputsOk, FailsLocally, AcceptsLocally, Conforms, Exhausted;
    CompleteEffect(g, u, output, now);
    hide CompleteUnit;
    if !MayStep(g, now, true) || Exhausted(g, g.units[u]) {
      SameFresh(g, h);
    } else if Conforms(output, g.units[u].schema) {
      AcceptanceFresh(g, h, u, output, g.units[u].attempts.BumpCheck());
    } else {
      FailureFresh(g, h, u, SchemaInvalid, g.units[u].attempts);
    }
  }

  lemma FailFresh(g: Graph, u: Id, note: FailureNote, now: nat)
    requires OutputsOk(g) && Fresh(g) && FailUnit(g, u, note, now).Ok?
    ensures Fresh(FailUnit(g, u, note, now).value)
  {
    var h := FailUnit(g, u, note, now).value;
    hide Fresh, OutputsOk, FailsLocally, Exhausted;
    FailEffect(g, u, note, now);
    hide FailUnit;
    if !MayStep(g, now, true) || Exhausted(g, g.units[u]) {
      SameFresh(g, h);
    } else {
      FailureFresh(g, h, u, note, g.units[u].attempts.BumpCheck());
    }
  }

  lemma OutcomeFresh(g: Graph, h: Graph, u: Id, stage: Stage, outcome: Outcome, attempts: Attempts)
    requires Fresh(g) && u in g.units && OutcomeEffect(g, h, u, stage, outcome, attempts)
    ensures Fresh(h) <==> !(outcome.ok && !Judged(stage, outcome) && g.units[u].status == Accepted)
  {
    hide Fresh, FailsLocally, AcceptsLocally, ProducesLocally, Conforms, Candidate;
    if !outcome.ok {
      FailureFresh(g, h, u, Reason(outcome.reason), attempts);
    } else if !Judged(stage, outcome) {
      ProductionFresh(g, h, u, outcome.output, attempts);
    } else if Conforms(Candidate(g, u, outcome.output), g.units[u].schema) {
      AcceptanceFresh(g, h, u, Candidate(g, u, outcome.output), attempts);
    } else {
      FailureFresh(g, h, u, SchemaInvalid, attempts);
    }
  }

  lemma RecordFresh(g: Graph, u: Id, stage: Stage, outcome: Outcome, now: nat)
    requires OutputsOk(g) && Fresh(g) && RecordAttempt(g, u, stage, outcome, now).Ok?
    ensures Fresh(RecordAttempt(g, u, stage, outcome, now).value) <==> !Demotes(g, Record(u, stage, outcome), now)
  {
    var h := RecordAttempt(g, u, stage, outcome, now).value;
    hide Fresh, OutputsOk, DependencyReady, RecordAttempt, MayAttempt, OutcomeEffect, Judged, Demotes;
    RecordEffect(g, u, stage, outcome, now);
    RecordNeeds(g, u, stage, outcome, now);
    DemotesMeans(g, u, stage, outcome, now);
    if MayAttempt(g, u, stage, now) {
      OutcomeFresh(g, h, u, stage, outcome, g.units[u].attempts.Bump(stage));
    } else {
      SameFresh(g, h);
    }
  }

  lemma RecordRefused(g: Graph, u: Id, stage: Stage, outcome: Outcome, now: nat)
    requires WellFormed(g)
    ensures RecordAttempt(g, u, stage, outcome, now).Ok? <== Reworks(g, Record(u, stage, outcome), now)
  {
    hide WellFormed, DependencyReady, Judge, MayAttempt;
  }

  // ---------------------------------------------------------------- rounds

  lemma ApplyFresh(g: Graph, u: Id, r: RoundOutcome, now: nat)
    requires OutputsOk(g) && Fresh(g) && u in g.units && g.units[u].status != Accepted && ApplyOutcome(g, u, r, now).Ok?
    ensures Fresh(ApplyOutcome(g, u, r, now).value)
  {
    hide Fresh, OutputsOk, CompleteUnit, FailUnit, RecordAttempt, MayAttempt;
    match r
    case Staged(stage, outcome) => RecordFresh(g, u, stage, outcome, now);
    case Direct(outcome) =>
      if outcome.ok {
        CompleteFresh(g, u, outcome.output, now);
      } else {
        FailFresh(g, u, Reason(outcome.reason), now);
      }
  }

  lemma {:induction false} ApplyAllFresh(g: Graph, selected: seq<Id>, outcomes: map<Id, RoundOutcome>, now: nat)
    requires Loose(g) && Fresh(g) && Distinct(selected)
    requires forall u :: u in selected ==> u in g.units && g.units[u].status != Accepted
    requires ApplyOutcomes(g, selected, outcomes, now).Ok?
    ensures Fresh(ApplyOutcomes(g, selected, outcomes, now).value)
    decreases |selected|
  {
    hide Loose, Fresh, ApplyOutcome;
    if selected != [] {
      var u, rest := selected[0], selected[1..];
      if u !in outcomes {
        ApplyAllFresh(g, rest, outcomes, now);
      } else {
        LooseShape(g);
        ApplyFresh(g, u, outcomes[u], now);
        ApplyOthers(g, u, outcomes[u], now);
        ApplyKeeps(g, u, outcomes[u], now);
        ApplyFrame(g, u, outcomes[u], now);
        var h := ApplyOutcome(g, u, outcomes[u], now).value;
        if h.status != ConvergedFailed {
          forall v | v in rest ensures v in h.units && h.units[v].status != Accepted {
            assert v in selected && v != u;
          }
          ApplyAllFresh(h, rest, outcomes, now);
        }
      }
    }
  }

  lemma AdvanceFresh(g: Graph, outcomes: map<Id, RoundOutcome>, width: Option<int>, now: nat)
    requires Invariant(g) && Fresh(g) && AdvanceGraph(g, outcomes, width, now).Ok?
    ensures Fresh(AdvanceGraph(g, outcomes, width, now).value)
  {
    hide Fresh, WellFormed, StatusesOk, OutputsOk, Budgets, StatusSound, Exact;
    hide ParallelReady, RefreshCounts, RefreshStatus, GuardStep, ApplyOutcomes;
    if g.status != GraphAccepted && g.status != ConvergedFailed {
      var room := if width.Some? then width.value else g.limits.maxParallelism;
      var selected := ParallelReady(g, room);
      ParallelIsReady(g, room);
      ParallelIsDistinct(g, room);
      MarkReadyKeeps(g, selected);
      var m := MarkReady(g, selected);
      RoundStarts(g, selected, now);
      var h := RefreshStatus(m, now);
      RefreshFrame(m, now);
      SameFresh(g, m);
      StatusOutputs(m, now);
      SameFresh(m, h);
      if outcomes == map[] {
        var k := GuardStep(h, now, false);
        GuardUnits(h, now);
        GuardOutputs(h, now);
        SameFresh(h, k);
        StatusOutputs(k, now);
        SameFresh(k, Refresh(k, now));
      } else {
        ApplyAllFresh(h, selected, outcomes, now);
        var k := ApplyOutcomes(h, selected, outcomes, now).value;
        StatusOutputs(k, now);
        SameFresh(k, Refresh(k, now));
      }
    }
  }

  lemma StatusOutputs(g: Graph, now: nat)
    ensures RefreshStatus(g, now).units == g.units && RefreshStatus(g, now).accepted == g.accepted
    ensures Refresh(g, now).units == g.units && Refresh(g, now).accepted == g.accepted
  {
    hide RefreshCounts;
    RefreshCountsOnly(g);
  }

  lemma GuardOutputs(g: Graph, now: nat)
    ensures GuardStep(g, now, false).accepted == g.accepted
  {
    hide OverTime;
  }

  // ---------------------------------------------------------------- every call, every run

  /** What a retry, finalizing or a constraint does to the accepted outputs: nothing. */
  lemma AcceptedKept(g: Graph, call: Call, now: nat)
    requires call.Retry? || call.Finalize? || call.AddConstraint?
    ensures After(g, call, now).accepted == g.accepted
  {
    hide WellFormed, RefreshCounts, AllAccepted;
    if call.Retry? && call.unit in g.units {
      RefreshCountsOnly(ReopenFailed(g, call.unit).(status := RetryPending, times := g.times.(updated := now)));
    }
  }

  /** A call leaves a stale accepted output behind if and only if it reworks an accepted unit. */
  lemma StepFresh(g: Graph, call: Call, now: nat)
    requires Invariant(g) && Fresh(g)
    ensures Fresh(After(g, call, now)) <==> !Reworks(g, call, now)
  {
    hide Fresh, Exact, CompleteUnit, FailUnit, RecordAttempt, RetryUnit, AdvanceGraph, FinalizeGraph, RecordConstraint;
    hide MayAttempt, OutputsOk, SameFrame, WellFormed, DependencyReady, StatusesOk, Budgets, StatusSound;
    var h := After(g, call, now);
    StepFrame(g, call, now);
    match call
    case Complete(u, output) => if CompleteUnit(g, u, output, now).Ok? { CompleteFresh(g, u, output, now); }
    case Fail(u, note) => if FailUnit(g, u, note, now).Ok? { FailFresh(g, u, note, now); }
    case Retry(u) => RetryStatuses(g, u, now); AcceptedKept(g, call, now); SameFresh(g, h);
    case Record(u, stage, outcome) =>
      RecordRefused(g, u, stage, outcome, now);
      if RecordAttempt(g, u, stage, outcome, now).Ok? {
        RecordFresh(g, u, stage, outcome, now);
        RecordNeeds(g, u, stage, outcome, now);
      }
    case Advance(outcomes, width) =>
      if AdvanceGraph(g, outcomes, width, now).Ok? { AdvanceFresh(g, outcomes, width, now); }
    case Finalize => UnitsKept(g, call, now); AcceptedKept(g, call, now); SameFresh(g, h);
    case AddConstraint(_) => UnitsKept(g, call, now); AcceptedKept(g, call, now); SameFresh(g, h);
  }

  ghost predicate FreshThroughout(g: Graph, calls: seq<Timed>) {
    forall k :: 0 <= k <= |calls| ==> Fresh(Run(g, calls[..k]))
  }

  /** Some call of the run reworks an accepted unit. */
  ghost predicate SomeRework(g: Graph, calls: seq<Timed>) {
    exists k :: 0 <= k < |calls| && Reworks(Run(g, calls[..k]), calls[k].call, calls[k].now)
  }

  lemma FreshSplits(g: Graph, calls: seq<Timed>)
    requires calls != []
    ensures FreshThroughout(g, calls) <==> FreshThroughout(g, calls[..|calls| - 1]) && Fresh(Run(g, calls))
  {
    hide Fresh, Run;
    var n := |calls| - 1;
    assert calls[..|calls|] == calls;
    assert forall k :: 0 <= k <= n ==> calls[..n][..k] == calls[..k];
  }

  lemma ReworkSplits(g: Graph, calls: seq<Timed>)
    requires calls != []
    ensures var n := |calls| - 1;
      SomeRework(g, calls) <==>
      SomeRework(g, calls[..n]) || Reworks(Run(g, calls[..n]), calls[n].call, calls[n].now)
  {
    hide Reworks, Run;
    var n := |calls| - 1;
    assert forall k :: 0 <= k <= n ==> calls[..n][..k] == calls[..k];
    if SomeRework(g, calls) {
      var k :| 0 <= k < |calls| && Reworks(Run(g, calls[..k]), calls[k].call, calls[k].now);
      if k < n { assert calls[..n][k] == calls[k] && calls[..n][..k] == calls[..k]; }
    }
    if SomeRework(g, calls[..n]) {
      var k :| 0 <= k < n && Reworks(Run(g, calls[..n][..k]), calls[..n][k].call, calls[..n][k].now);
      assert calls[..n][k] == calls[k] && calls[..n][..k] == calls[..k];
    }
  }

  /**
   * Accepted outputs are those of the accepted units throughout a run if and only if no call of
   * the run reworks an accepted unit.
   */
  lemma {:induction false} RunFresh(g: Graph, calls: seq<Timed>)
    requires Invariant(g) && Fresh(g)
    ensures FreshThroughout(g, calls) <==> !SomeRework(g, calls)
    decreases |calls|
  {
    hide Invariant, Fresh, After, Reworks;
    if calls == [] {
      assert calls[..0] == [];
    } else {
      var n := |calls| - 1;
      var front, last := calls[..n], calls[n];
      RunFresh(g, front);
      FreshSplits(g, calls);
      ReworkSplits(g, calls);
      RunKeeps(g, front);
      if Fresh(Run(g, front)) { StepFresh(Run(g, front), last.call, last.now); }
      assert front[..n] == front;
    }
  }

  lemma InitiallyFresh(specs: seq<UnitSpec>, edges: seq<Edge>, limits: Limits, constraints: seq<Constraint>, now: nat)
    requires ValidSpecs(specs, edges, limits)
    ensures Fresh(InitialGraph(specs, edges, limits, constraints, now))
  {
    var g := InitialGraph(specs, edges, limits, constraints, now);
    InitialShape(specs, edges, limits, constraints, now);
    forall v ensures FreshRow(g, v) {}
  }
}
