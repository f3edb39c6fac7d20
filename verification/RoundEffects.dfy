/**
 * What retrying a unit, a round, a new constraint and creation make of a snapshot, in plain terms.
 */
module RoundEffects {
  import opened Basics
  import opened Closure
  import opened Digraph
  import opened Effects
  import opened Frame
  import opened Invariants
  import opened JsonValues
  import opened Locality
  import opened Safety
  import opened State
  import opened Stopping
  import opened Topology

  /** A retry reopens the unit, and nothing else happens to any row, output in work or counter of work. */
  lemma RetryDoes(g: Graph, u: Id, now: nat)
    requires Reachable(g) && u in g.units && g.units[u].status == Failed && !UsedUp(g, g.units[u])
    ensures RetryUnit(g, u, now).Ok?
    ensures var h := RetryUnit(g, u, now).value;
      && h.status == RetryPending && h.times == g.times.(updated := now) && h.constraints == g.constraints
      && u in h.units && h.units[u] == g.units[u].(status := Reopened) && u !in h.failed
      && h.accepted == g.accepted && h.working == g.working
      && (forall v :: v != u ==> SameRow(g, h, v))
      && h.counters.graphSteps == g.counters.graphSteps && h.counters.totalChildRuns == g.counters.totalChildRuns
      && h.counters.retries == g.counters.retries && h.sendBacks == g.sendBacks
      && h.counters.parallelWidth == g.counters.parallelWidth
  {
    hide Reachable, WellFormed, StatusesOk, OutputsOk, Budgets, StatusSound, UsedUp, Exhausted, RefreshCounts;
    Known(g);
    UsedUpIff(g, g.units[u]);
    RefreshCountsOnly(g.(units := g.units[u := g.units[u].(status := Reopened)], failed := g.failed - {u},
                         status := RetryPending, times := g.times.(updated := now)));
  }

  /** Finalizing accepts a graph whose units are all accepted; otherwise it lets the status tell the units. */
  lemma FinalizeDoes(g: Graph, now: nat)
    requires Reachable(g)
    ensures var h := After(g, Finalize, now);
      && h == g.(status := h.status, times := h.times)
      && (AllAccepted(g) || g.status != ConvergedFailed ==> TellsUnits(h))
      && (!AllAccepted(g) && g.status == ConvergedFailed ==> h == g)
      && h.times == if h.status == GraphAccepted then g.times.(updated := now, ended := Some(now)) else g.times
  {
    hide Reachable, WellFormed, OutputsOk, Budgets, StatusSound;
    Known(g);
  }

  // ---------------------------------------------------------------- rounds

  function Max(a: nat, b: nat): nat { if a < b then b else a }

  /** The two things in a snapshot that work on units does not touch. */
  ghost predicate SameAside(g: Graph, h: Graph) {
    h.counters.parallelWidth == g.counters.parallelWidth && h.constraints == g.constraints
  }

  lemma RejectAside(k: Graph, u: Id, note: FailureNote)
    requires u in k.units
    ensures SameAside(k, Reject(k, u, note))
  {
    hide WithStatus, TotalAttempts, Downstream;
  }

  lemma RefreshAside(k: Graph, now: nat)
    ensures SameAside(k, Refresh(k, now)) && SameAside(k, RefreshStatus(k, now))
  {
    hide RefreshCounts, RefreshStatus;
    RefreshCountsOnly(k);
    RefreshStatusOnly(k, now);
    RefreshStatusOnly(RefreshCounts(k), now);
  }

  lemma GuardAside(k: Graph, now: nat, childRun: bool)
    ensures SameAside(k, GuardStep(k, now, childRun))
  {
    hide OverTime;
  }

  lemma CompleteAside(g: Graph, u: Id, output: Json, now: nat)
    requires CompleteUnit(g, u, output, now).Ok?
    ensures SameAside(g, CompleteUnit(g, u, output, now).value)
  {
    hide WellFormed, Executable, DependencyReady, Conforms, Exhausted, Reject, Refresh, GuardStep, MayStep;
    GuardAside(g, now, true);
    if u in g.units {
      var h := CountStep(g, now, true);
      RejectAside(h, u, SchemaInvalid);
      RefreshAside(SetAccepted(SetAttempts(h, u, h.units[u].attempts.BumpCheck()), u, output), now);
    }
  }

  lemma FailAside(g: Graph, u: Id, note: FailureNote, now: nat)
    requires FailUnit(g, u, note, now).Ok?
    ensures SameAside(g, FailUnit(g, u, note, now).value)
  {
    hide WellFormed, Exhausted, Reject, GuardStep, MayStep;
    GuardAside(g, now, true);
    if u in g.units {
      var h := CountStep(g, now, true);
      RejectAside(SetAttempts(h, u, h.units[u].attempts.BumpCheck()), u, note);
    }
  }

  lemma RecordAside(g: Graph, u: Id, stage: Stage, outcome: Outcome, now: nat)
    requires RecordAttempt(g, u, stage, outcome, now).Ok?
    ensures SameAside(g, RecordAttempt(g, u, stage, outcome, now).value)
  {
    hide WellFormed, Executable, DependencyReady, Exhausted, StageLimit, Judge, GuardStep, MayStep;
    GuardAside(g, now, true);
    if u in g.units {
      var k := SetAttempts(CountStep(g, now, true), u, g.units[u].attempts.Bump(stage));
      JudgeAside(k, u, stage, outcome, now);
    }
  }

  lemma JudgeAside(k: Graph, u: Id, stage: Stage, outcome: Outcome, now: nat)
    requires u in k.units
    ensures SameAside(k, Judge(k, u, stage, outcome, now))
  {
    hide Reject, Refresh, Conforms, Candidate, Judged;
    RejectAside(k, u, Reason(outcome.reason));
    RejectAside(k, u, SchemaInvalid);
    RefreshAside(SetAccepted(k, u, Candidate(k, u, outcome.output)), now);
    RefreshAside(SetProduced(k, u, outcome.output), now);
  }

  lemma ApplyAside(g: Graph, u: Id, r: RoundOutcome, now: nat)
    requires ApplyOutcome(g, u, r, now).Ok?
    ensures SameAside(g, ApplyOutcome(g, u, r, now).value)
  {
    hide CompleteUnit, FailUnit, RecordAttempt;
    match r
    case Staged(stage, outcome) => RecordAside(g, u, stage, outcome, now);
    case Direct(outcome) =>
      if outcome.ok {
        CompleteAside(g, u, outcome.output, now);
      } else {
        FailAside(g, u, Reason(outcome.reason), now);
      }
  }

  lemma {:induction false} ApplyAllAside(g: Graph, selected: seq<Id>, outcomes: map<Id, RoundOutcome>, now: nat)
    requires ApplyOutcomes(g, selected, outcomes, now).Ok?
    ensures SameAside(g, ApplyOutcomes(g, selected, outcomes, now).value)
    decreases |selected|
  {
    hide ApplyOutcome;
    if selected != [] {
      var u, rest := selected[0], selected[1..];
      if u !in outcomes {
        ApplyAllAside(g, rest, outcomes, now);
      } else {
        ApplyAside(g, u, outcomes[u], now);
        var h := ApplyOutcome(g, u, outcomes[u], now).value;
        if h.status != ConvergedFailed { ApplyAllAside(h, rest, outcomes, now); }
      }
    }
  }

  /** A round that is not refused makes the width the larger of what it was and of what it selects. */
  lemma RoundWidth(g: Graph, outcomes: map<Id, RoundOutcome>, width: Option<int>, now: nat)
    requires AdvanceGraph(g, outcomes, width, now).Ok? && g.status != GraphAccepted && g.status != ConvergedFailed
    ensures AdvanceGraph(g, outcomes, width, now).value.counters.parallelWidth ==
      Max(g.counters.parallelWidth, |ParallelReady(g, if width.Some? then width.value else g.limits.maxParallelism)|)
    ensures AdvanceGraph(g, outcomes, width, now).value.constraints == g.constraints
  {
    hide WellFormed, ParallelReady, ApplyOutcomes, Refresh, RefreshStatus, GuardStep;
    var selected := ParallelReady(g, if width.Some? then width.value else g.limits.maxParallelism);
    var m := MarkReady(g, selected);
    var h := RefreshStatus(m, now);
    RefreshAside(m, now);
    if outcomes == map[] {
      GuardAside(h, now, false);
      RefreshAside(GuardStep(h, now, false), now);
    } else {
      ApplyAllAside(h, selected, outcomes, now);
      RefreshAside(ApplyOutcomes(h, selected, outcomes, now).value, now);
    }
  }

  /** The snapshot a round hands to its outcomes: the selected units ready, the status telling the units. */
  ghost function Opened(g: Graph, selected: seq<Id>, now: nat): Graph {
    RefreshStatus(MarkReady(g, selected), now)
  }

  /** Opening a round makes the selected units ready and changes no other row. */
  lemma OpenedRows(g: Graph, selected: seq<Id>, now: nat)
    ensures var h := Opened(g, selected, now);
      && h.units.Keys == g.units.Keys
      && (forall v :: v in g.units ==> h.units[v] == if v in selected then g.units[v].(status := Ready) else g.units[v])
      && h.accepted == g.accepted && h.failed == g.failed && h.working == g.working
      && h.counters.graphSteps == g.counters.graphSteps && h.counters.totalChildRuns == g.counters.totalChildRuns
  {
    hide RefreshStatus;
    RefreshStatusOnly(MarkReady(g, selected), now);
  }

  /**
   * A round that is given no outcomes counts one step and no child run, unless it stops; what it
   * selects is ready, and nothing else has changed.
   */
  lemma EmptyRoundDoes(g: Graph, width: Option<int>, now: nat)
    requires Reachable(g) && g.status != GraphAccepted && g.status != ConvergedFailed
    requires width.Some? ==> width.value >= 1
    ensures AdvanceGraph(g, map[], width, now).Ok?
    ensures var h := AdvanceGraph(g, map[], width, now).value;
      var selected := ParallelReady(g, if width.Some? then width.value else g.limits.maxParallelism);
      && (if g.counters.graphSteps >= g.limits.maxGraphSteps then Answers(Ok(h), Stopped(MaxGraphSteps))
          else if OutOfTime(g, now) then Answers(Ok(h), Stopped(MaxWallTime))
          else TellsUnits(h) && h.failureReason == g.failureReason)
      && h.counters.graphSteps ==
           g.counters.graphSteps + (if g.counters.graphSteps >= g.limits.maxGraphSteps then 0 else 1)
      && h.counters.totalChildRuns == g.counters.totalChildRuns
      && h.units == Opened(g, selected, now).units
      && h.accepted == g.accepted && h.failed == g.failed && h.working == g.working
  {
    hide Reachable, WellFormed, StatusesOk, OutputsOk, Budgets, StatusSound, ParallelReady, Refresh, RefreshStatus;
    hide MarkReady, After, TellsUnits;
    Known(g);
    var selected := ParallelReady(g, if width.Some? then width.value else g.limits.maxParallelism);
    OpenedRows(g, selected, now);
    OpenedTimes(g, selected, now);
    var h := Opened(g, selected, now);
    GuardRows(h, now);
    RefreshRows(GuardStep(h, now, false), now);
    StepKeepsReachable(g, Advance(map[], width), now);
    AdvancedIs(g, width, now);
    hide Opened, GuardStep;
    SameStatuses(GuardStep(h, now, false), now);
    if GuardStep(h, now, false).status != ConvergedFailed { RefreshTells(GuardStep(h, now, false), now); }
  }

  lemma AdvancedIs(g: Graph, width: Option<int>, now: nat)
    requires WellFormed(g) && g.status != GraphAccepted && g.status != ConvergedFailed
    requires width.Some? ==> width.value >= 1
    ensures var selected := ParallelReady(g, if width.Some? then width.value else g.limits.maxParallelism);
      AdvanceGraph(g, map[], width, now) == Ok(Refresh(GuardStep(Opened(g, selected, now), now, false), now))
    ensures AdvanceGraph(g, map[], width, now).Ok? ==>
      After(g, Advance(map[], width), now) == AdvanceGraph(g, map[], width, now).value
  {
    hide WellFormed, ParallelReady, Refresh, RefreshStatus, GuardStep, MarkReady;
  }

  /** Opening a round leaves what the limits are measured against. */
  lemma OpenedTimes(g: Graph, selected: seq<Id>, now: nat)
    requires g.status != ConvergedFailed
    ensures var h := Opened(g, selected, now);
      && h.status != ConvergedFailed && h.times.started == g.times.started && h.limits == g.limits
      && h.failureReason == g.failureReason
  {
    RefreshStatusOnly(MarkReady(g, selected), now);
  }

  lemma GuardRows(g: Graph, now: nat)
    requires g.status != ConvergedFailed
    ensures var h := GuardStep(g, now, false);
      && h.units == g.units && h.accepted == g.accepted && h.failed == g.failed && h.working == g.working
      && h.counters.totalChildRuns == g.counters.totalChildRuns
      && h.counters.graphSteps ==
           g.counters.graphSteps + (if g.counters.graphSteps >= g.limits.maxGraphSteps then 0 else 1)
      && (if g.counters.graphSteps >= g.limits.maxGraphSteps then Answers(Ok(h), Stopped(MaxGraphSteps))
          else if OutOfTime(g, now) then Answers(Ok(h), Stopped(MaxWallTime))
          else h.status != ConvergedFailed && h.failureReason == g.failureReason)
  {
  }

  lemma RefreshRows(g: Graph, now: nat)
    ensures var h := Refresh(g, now);
      && h.units == g.units && h.accepted == g.accepted && h.failed == g.failed && h.working == g.working
      && h.counters.totalChildRuns == g.counters.totalChildRuns && h.counters.graphSteps == g.counters.graphSteps
      && h.failureReason == g.failureReason && (g.status == ConvergedFailed ==> h.status == ConvergedFailed)
  {
    hide RefreshCounts;
    RefreshCountsOnly(g);
  }

  lemma {:induction false} NothingFor(g: Graph, selected: seq<Id>, outcomes: map<Id, RoundOutcome>, now: nat)
    requires forall v :: v in selected ==> v !in outcomes
    ensures ApplyOutcomes(g, selected, outcomes, now) == Ok(g)
    decreases |selected|
  {
    if selected != [] {
      assert selected[0] in selected;
      NothingFor(g, selected[1..], outcomes, now);
    }
  }

  lemma {:induction false} ApplyOnly(g: Graph, selected: seq<Id>, outcomes: map<Id, RoundOutcome>, now: nat, u: Id)
    requires Distinct(selected) && u in selected && u in outcomes
    requires forall v :: v in selected && v in outcomes ==> v == u
    ensures ApplyOutcomes(g, selected, outcomes, now) == ApplyOutcome(g, u, outcomes[u], now)
    decreases |selected|
  {
    hide ApplyOutcome;
    var first, rest := selected[0], selected[1..];
    assert selected == [first] + rest && first in selected;
    if first == u {
      forall v | v in rest ensures v !in outcomes {
        var i :| 0 <= i < |rest| && rest[i] == v;
        assert selected[i + 1] == v && selected[0] != v;
      }
      var r := ApplyOutcome(g, u, outcomes[u], now);
      if r.Ok? { NothingFor(r.value, rest, outcomes, now); }
    } else {
      assert first !in outcomes;
      ApplyOnly(g, rest, outcomes, now, u);
    }
  }

  /** An outcome for one selected unit is the call it stands for, made on the opened round. */
  lemma OneOutcome(g: Graph, outcomes: map<Id, RoundOutcome>, width: Option<int>, now: nat, u: Id)
    requires Reachable(g) && g.status != GraphAccepted && g.status != ConvergedFailed
    requires width.Some? ==> width.value >= 1
    requires var selected := ParallelReady(g, if width.Some? then width.value else g.limits.maxParallelism);
      u in selected && u in outcomes && forall v :: v in selected && v in outcomes ==> v == u
    ensures var selected := ParallelReady(g, if width.Some? then width.value else g.limits.maxParallelism);
      var h := Opened(g, selected, now);
      var r := match outcomes[u]
               case Staged(stage, outcome) => RecordAttempt(h, u, stage, outcome, now)
               case Direct(outcome) =>
                 if outcome.ok then CompleteUnit(h, u, outcome.output, now)
                 else FailUnit(h, u, Reason(outcome.reason), now);
      AdvanceGraph(g, outcomes, width, now) == if r.Err? then r else Ok(Refresh(r.value, now))
  {
    hide Reachable, WellFormed, ParallelReady, ApplyOutcomes, Refresh, Opened, CompleteUnit, FailUnit, RecordAttempt;
    hide StatusesOk, OutputsOk, Budgets, StatusSound;
    Known(g);
    var selected := ParallelReady(g, if width.Some? then width.value else g.limits.maxParallelism);
    ParallelIsDistinct(g, if width.Some? then width.value else g.limits.maxParallelism);
    ApplyOnly(Opened(g, selected, now), selected, outcomes, now, u);
    assert Opened(g, selected, now) == RefreshStatus(MarkReady(g, selected), now) by { OpenedIs(g, selected, now); }
  }

  lemma OpenedIs(g: Graph, selected: seq<Id>, now: nat)
    ensures Opened(g, selected, now) == RefreshStatus(MarkReady(g, selected), now)
  {
  }

  /** A round refuses a width below one, unless there is nothing left to do. */
  lemma RoundAnswers(g: Graph, outcomes: map<Id, RoundOutcome>, width: Option<int>, now: nat)
    requires Reachable(g)
    ensures g.status == GraphAccepted || g.status == ConvergedFailed ==> AdvanceGraph(g, outcomes, width, now) == Ok(g)
    ensures AdvanceGraph(g, outcomes, width, now) == Err(BadParallelism) <==>
      g.status != GraphAccepted && g.status != ConvergedFailed && width.Some? && width.value <= 0
  {
    hide Reachable, WellFormed, StatusesOk, OutputsOk, Budgets, StatusSound, ParallelReady, Refresh, RefreshStatus;
    hide GuardStep, ApplyOutcomes;
    Known(g);
    if g.status != GraphAccepted && g.status != ConvergedFailed && (width.Some? ==> width.value >= 1) {
      var selected := ParallelReady(g, if width.Some? then width.value else g.limits.maxParallelism);
      NeverBadWidth(RefreshStatus(MarkReady(g, selected), now), selected, outcomes, now);
    }
  }

  lemma {:induction false} NeverBadWidth(g: Graph, selected: seq<Id>, outcomes: map<Id, RoundOutcome>, now: nat)
    ensures ApplyOutcomes(g, selected, outcomes, now) != Err(BadParallelism)
    decreases |selected|
  {
    if selected != [] {
      if selected[0] !in outcomes {
        NeverBadWidth(g, selected[1..], outcomes, now);
      } else {
        OutcomeNotBadWidth(g, selected[0], outcomes[selected[0]], now);
        var r := ApplyOutcome(g, selected[0], outcomes[selected[0]], now);
        hide ApplyOutcome;
        if r.Ok? { NeverBadWidth(r.value, selected[1..], outcomes, now); }
      }
    }
  }

  lemma OutcomeNotBadWidth(g: Graph, u: Id, r: RoundOutcome, now: nat)
    ensures ApplyOutcome(g, u, r, now) != Err(BadParallelism)
  {
    hide WellFormed, Executable, DependencyReady, Exhausted, Reject, Refresh, GuardStep, MayStep, Conforms, StageLimit;
  }

  // ---------------------------------------------------------------- the width of a run

  /** No call but a round touches the width, none but a new constraint the constraints. */
  lemma OtherCalls(g: Graph, call: Call, now: nat)
    requires !call.Advance?
    ensures After(g, call, now).counters.parallelWidth == g.counters.parallelWidth
    ensures !call.AddConstraint? ==> After(g, call, now).constraints == g.constraints
  {
    hide WellFormed, CompleteUnit, FailUnit, RecordAttempt, RefreshCounts, Exhausted, AllAccepted, IsOpen;
    match call
    case Complete(u, output) => if CompleteUnit(g, u, output, now).Ok? { CompleteAside(g, u, output, now); }
    case Fail(u, note) => if FailUnit(g, u, note, now).Ok? { FailAside(g, u, note, now); }
    case Retry(u) =>
      if u in g.units {
        RefreshCountsOnly(g.(units := g.units[u := g.units[u].(status := Reopened)], failed := g.failed - {u},
                             status := RetryPending, times := g.times.(updated := now)));
      }
    case Record(u, stage, outcome) =>
      if RecordAttempt(g, u, stage, outcome, now).Ok? { RecordAside(g, u, stage, outcome, now); }
    case Finalize =>
    case AddConstraint(_) =>
  }

  /** How many units a call selects: none unless it is a round that is carried out. */
  ghost function Selected(g: Graph, call: Call, now: nat): nat {
    if call.Advance? && AdvanceGraph(g, call.outcomes, call.width, now).Ok?
       && g.status != GraphAccepted && g.status != ConvergedFailed
    then |ParallelReady(g, if call.width.Some? then call.width.value else g.limits.maxParallelism)|
    else 0
  }

  lemma StepWidth(g: Graph, call: Call, now: nat)
    ensures After(g, call, now).counters.parallelWidth == Max(g.counters.parallelWidth, Selected(g, call, now))
  {
    hide ParallelReady, WellFormed, AdvanceGraph;
    if call.Advance? {
      if AdvanceGraph(g, call.outcomes, call.width, now).Ok? {
        if g.status == GraphAccepted || g.status == ConvergedFailed {
          IdleWidth(g, call.outcomes, call.width, now);
        } else {
          RoundWidth(g, call.outcomes, call.width, now);
        }
      }
    } else {
      OtherCalls(g, call, now);
    }
  }

  lemma IdleWidth(g: Graph, outcomes: map<Id, RoundOutcome>, width: Option<int>, now: nat)
    requires g.status == GraphAccepted || g.status == ConvergedFailed
    ensures AdvanceGraph(g, outcomes, width, now) in {Err(InvalidGraph), Ok(g)}
  {
    hide WellFormed, ParallelReady, ApplyOutcomes;
  }

  /** The width counter of a run is that of its widest round, or what it started from. */
  lemma {:induction false} WidestRound(g: Graph, calls: seq<Timed>)
    ensures var w := Run(g, calls).counters.parallelWidth;
      && w >= g.counters.parallelWidth
      && (forall k :: 0 <= k < |calls| ==> Selected(Run(g, calls[..k]), calls[k].call, calls[k].now) <= w)
      && (w == g.counters.parallelWidth
          || exists k :: 0 <= k < |calls| && Selected(Run(g, calls[..k]), calls[k].call, calls[k].now) == w)
    decreases |calls|
  {
    hide Selected, After;
    if calls != [] {
      var n := |calls| - 1;
      var front, last := calls[..n], calls[n];
      WidestRound(g, front);
      StepWidth(Run(g, front), last.call, last.now);
      assert forall k :: 0 <= k <= n ==> front[..k] == calls[..k];
      var w := Run(g, calls).counters.parallelWidth;
      forall k | 0 <= k < |calls| ensures Selected(Run(g, calls[..k]), calls[k].call, calls[k].now) <= w {
        if k < n { assert front[k] == calls[k] && front[..k] == calls[..k]; }
      }
      if w != g.counters.parallelWidth {
        if Selected(Run(g, front), last.call, last.now) == w {
          assert Selected(Run(g, calls[..n]), calls[n].call, calls[n].now) == w;
        } else {
          var k :| 0 <= k < n && Selected(Run(g, front[..k]), front[k].call, front[k].now) == w;
          assert front[k] == calls[k] && front[..k] == calls[..k];
        }
      }
    }
  }

  // ---------------------------------------------------------------- constraints

  /** A constraint is refused unless it is verified and its identifier new; otherwise it is appended. */
  lemma ConstraintDoes(g: Graph, c: Constraint, now: nat)
    requires Reachable(g)
    ensures RecordConstraint(g, c, now) ==
      if !c.verified then Err(UnverifiedConstraint)
      else if exists i :: 0 <= i < |g.constraints| && g.constraints[i].id == c.id then Err(DuplicateConstraint)
      else Ok(g.(constraints := g.constraints + [c], times := Times(g.times.started, now, g.times.ended)))
  {
    hide Reachable, WellFormed, StatusesOk, OutputsOk, Budgets, StatusSound;
    Known(g);
  }

  /** Every constraint is verified, and no two share an identifier. */
  ghost predicate ConstraintsOk(cs: seq<Constraint>) {
    (forall i :: 0 <= i < |cs| ==> cs[i].verified) && forall i, j :: 0 <= i < j < |cs| ==> cs[i].id != cs[j].id
  }

  lemma StepConstraints(g: Graph, call: Call, now: nat)
    ensures After(g, call, now).constraints == g.constraints ||
            (call.AddConstraint? && call.constraint.verified
             && (forall i :: 0 <= i < |g.constraints| ==> g.constraints[i].id != call.constraint.id)
             && After(g, call, now).constraints == g.constraints + [call.constraint])
  {
    hide WellFormed, CompleteUnit, FailUnit, RecordAttempt, RetryUnit, AdvanceGraph, FinalizeGraph;
    if call.Advance? {
      if AdvanceGraph(g, call.outcomes, call.width, now).Ok? {
        if g.status == GraphAccepted || g.status == ConvergedFailed {
          IdleWidth(g, call.outcomes, call.width, now);
        } else {
          RoundWidth(g, call.outcomes, call.width, now);
        }
      }
    } else if !call.AddConstraint? {
      OtherCalls(g, call, now);
    }
  }

  /** Over any run from constraints in order they stay in order, and the old ones stay in front. */
  lemma {:induction false} RunConstraints(g: Graph, calls: seq<Timed>)
    requires ConstraintsOk(g.constraints)
    ensures ConstraintsOk(Run(g, calls).constraints) && g.constraints <= Run(g, calls).constraints
    decreases |calls|
  {
    hide After;
    if calls != [] {
      var n := |calls| - 1;
      RunConstraints(g, calls[..n]);
      StepConstraints(Run(g, calls[..n]), calls[n].call, calls[n].now);
    }
  }

  // ---------------------------------------------------------------- creation

  /** Every number that is given lies between 1 and 10000. */
  predicate Bounded(numbers: seq<Option<nat>>) {
    forall i :: 0 <= i < |numbers| ==> numbers[i] == None || 0 < numbers[i].value <= 10000
  }

  function PolicyNumbers(p: RetryPolicy): seq<Option<nat>> {
    [p.maxAttemptPerUnit, p.maxAttempts, p.maxProduce, p.maxCheck, p.maxCorrect]
  }

  function LimitNumbers(l: Limits): seq<Option<nat>> {
    [Some(l.maxAttemptPerUnit), Some(l.maxGraphSteps), Some(l.maxTotalChildRuns), Some(l.maxParallelism)]
  }

  /** What a graph can be created from: a valid listing without cycles, and numbers in range. */
  lemma CreatableIff(specs: seq<UnitSpec>, edges: seq<Edge>, limits: Limits)
    ensures ValidSpecs(specs, edges, limits) <==>
      && ValidListing(Nodes(specs), edges) && Acyclic(AllEdges(Nodes(specs), edges))
      && (forall i :: 0 <= i < |specs| ==> Bounded(PolicyNumbers(specs[i].policy)))
      && Bounded(LimitNumbers(limits))
      && (limits.maxWallTime == None || 0 < limits.maxWallTime.value <= 86400000)
  {
    hide ValidListing, Acyclic;
    forall p: RetryPolicy ensures PolicyOk(p) <==> Bounded(PolicyNumbers(p)) { PolicyBounded(p); }
    LimitsBounded(limits);
    hide PolicyOk, LimitsOk, PolicyNumbers, LimitNumbers, Bounded;
  }

  lemma PolicyBounded(p: RetryPolicy)
    ensures PolicyOk(p) <==> Bounded(PolicyNumbers(p))
  {
    var n := PolicyNumbers(p);
    assert n[0] == p.maxAttemptPerUnit && n[1] == p.maxAttempts && n[2] == p.maxProduce;
    assert n[3] == p.maxCheck && n[4] == p.maxCorrect;
  }

  lemma LimitsBounded(l: Limits)
    ensures LimitsOk(l) <==>
      Bounded(LimitNumbers(l)) && (l.maxWallTime == None || 0 < l.maxWallTime.value <= 86400000)
  {
    var n := LimitNumbers(l);
    assert n[0] == Some(l.maxAttemptPerUnit) && n[1] == Some(l.maxGraphSteps);
    assert n[2] == Some(l.maxTotalChildRuns) && n[3] == Some(l.maxParallelism);
  }

  /** The unit is there as specified, pending and without attempts. */
  ghost predicate IsFresh(units: map<Id, Unit>, s: UnitSpec) {
    && s.node.id in units
    && units[s.node.id] == Unit(s.node.dependencies, s.ownership, s.schema, s.policy, Pending, Attempts(0, 0, 0))
  }

  /** A fresh graph has every unit as it was specified, pending and without attempts, and nothing else. */
  lemma CreatedAsSpecified(specs: seq<UnitSpec>, edges: seq<Edge>, limits: Limits, constraints: seq<Constraint>,
                           now: nat)
    requires ValidSpecs(specs, edges, limits)
    ensures var g := InitialGraph(specs, edges, limits, constraints, now);
      && g.units.Keys == (set i | 0 <= i < |specs| :: specs[i].node.id)
      && (forall i :: 0 <= i < |specs| ==> IsFresh(g.units, specs[i]))
      && (forall e :: e in edges ==> e in g.edges)
      && g.accepted == map[] && g.failed == map[] && g.working == map[]
      && g.limits == limits && g.constraints == constraints && g.failureReason == None && g.sendBacks == 0
      && g.status == (if specs == [] then GraphAccepted else GraphPending)
      && g.times == Times(now, now, if specs == [] then Some(now) else None)
      && g.counters.graphSteps == g.counters.totalChildRuns == g.counters.retries == g.counters.parallelWidth == 0
  {
    hide WithStatus, TotalAttempts, Acyclic, PolicyOk, ValidEdges, InitialUnits;
    var units, nodes := InitialUnits(specs), Nodes(specs);
    assert units.Keys == set i | 0 <= i < |specs| :: specs[i].node.id by {
      assert forall i :: 0 <= i < |specs| ==> nodes[i] == specs[i].node;
    }
    forall i: nat | i < |specs| ensures IsFresh(units, specs[i]) {
      assert nodes[i].id in Ids(nodes);
      var j :| 0 <= j < |specs| && specs[j].node.id == nodes[i].id && units[nodes[i].id] == InitialUnit(specs[j]);
      assert nodes[j].id == nodes[i].id;
    }
  }

  // ---------------------------------------------------------------- counters

  /** The derived counters of a reachable snapshot are the numbers of units in each status. */
  lemma CountersTell(g: Graph)
    requires Reachable(g)
    ensures g.counters.acceptedUnits == |set u | u in g.units && g.units[u].status == Accepted|
    ensures g.counters.failedUnits == |set u | u in g.units && g.units[u].status == Failed|
    ensures g.counters.reopenedUnits == |set u | u in g.units && g.units[u].status == Reopened|
    ensures g.counters.invalidatedUnits == 0
    ensures g.counters.attempts == TotalAttempts(g.units)
  {
    hide Reachable, WellFormed, StatusesOk, OutputsOk, Budgets, StatusSound, TotalAttempts;
    ReachableInvariant(g);
    assert g.counters == RefreshCounts(g).counters;
    NothingInvalidated(g);
  }

  lemma NothingInvalidated(g: Graph)
    requires StatusesOk(g)
    ensures WithStatus(g.units, Invalidated) == {}
  {
  }
}
