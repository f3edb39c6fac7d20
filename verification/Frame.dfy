/**
 * What no transition touches: the units and their contracts, the edges and the limits.  Hence
 * the graph stays acyclic and every later call accepts the snapshot.
 */
module Frame {
  import opened Basics
  import opened Digraph
  import opened JsonValues
  import opened State

  ghost predicate SameContract(a: Unit, b: Unit) {
    a.dependencies == b.dependencies && a.ownership == b.ownership && a.schema == b.schema && a.policy == b.policy
  }

  ghost predicate SameFrame(g: Graph, h: Graph) {
    && h.units.Keys == g.units.Keys && h.edges == g.edges && h.limits == g.limits
    && forall u :: u in g.units ==> SameContract(g.units[u], h.units[u])
  }

  lemma FrameReflexive(g: Graph)
    ensures SameFrame(g, g)
  {
  }

  lemma FrameTransitive(g: Graph, h: Graph, k: Graph)
    requires SameFrame(g, h) && SameFrame(h, k)
    ensures SameFrame(g, k)
  {
    forall u | u in g.units ensures SameContract(g.units[u], k.units[u]) {
      assert SameContract(g.units[u], h.units[u]) && SameContract(h.units[u], k.units[u]);
    }
  }

  lemma FrameArcs(g: Graph, h: Graph)
    requires SameFrame(g, h)
    ensures Arcs(g) == Arcs(h)
    ensures forall u :: u in g.units ==> AttemptLimit(g, g.units[u]) == AttemptLimit(h, h.units[u])
    ensures forall u, stage :: u in g.units ==> StageLimit(g, g.units[u], stage) == StageLimit(h, h.units[u], stage)
  {
    forall e ensures e in Arcs(g) <==> e in Arcs(h) {
      if e.to in g.units { assert SameContract(g.units[e.to], h.units[e.to]); }
    }
    forall u | u in g.units ensures AttemptLimit(g, g.units[u]) == AttemptLimit(h, h.units[u]) {
      assert SameContract(g.units[u], h.units[u]);
    }
    forall u, stage: Stage | u in g.units
      ensures StageLimit(g, g.units[u], stage) == StageLimit(h, h.units[u], stage)
    {
      assert SameContract(g.units[u], h.units[u]);
    }
  }

  /** Refreshing touches counters, status and times only. */
  lemma RefreshCountsOnly(g: Graph)
    ensures RefreshCounts(g) == g.(counters := RefreshCounts(g).counters)
    ensures RefreshCounts(g).counters.graphSteps == g.counters.graphSteps
    ensures RefreshCounts(g).counters.totalChildRuns == g.counters.totalChildRuns
    ensures RefreshCounts(g).counters.retries == g.counters.retries
    ensures RefreshCounts(g).counters.parallelWidth == g.counters.parallelWidth
  {
    hide WithStatus, TotalAttempts;
  }

  lemma RefreshStatusOnly(g: Graph, now: nat)
    ensures RefreshStatus(g, now) == g.(status := RefreshStatus(g, now).status, times := RefreshStatus(g, now).times)
    ensures RefreshStatus(g, now).times.started == g.times.started
  {
    hide AllAccepted;
  }

  lemma RefreshFrame(g: Graph, now: nat)
    ensures SameFrame(g, Refresh(g, now)) && SameFrame(g, RefreshStatus(g, now)) && SameFrame(g, RefreshCounts(g))
    ensures Refresh(g, now).units == g.units && RefreshStatus(g, now).units == g.units
    ensures RefreshCounts(g).units == g.units
  {
    hide RefreshCounts, RefreshStatus;
    RefreshCountsOnly(g);
    RefreshStatusOnly(g, now);
    RefreshStatusOnly(RefreshCounts(g), now);
  }

  lemma GuardFrame(g: Graph, now: nat, childRun: bool)
    ensures SameFrame(g, GuardStep(g, now, childRun))
  {
  }

  lemma RejectFrame(g: Graph, u: Id, note: FailureNote)
    requires u in g.units
    ensures SameFrame(g, Reject(g, u, note))
  {
    hide RefreshCounts, Reopen, SetFailed, SameFrame;
    FailedFrame(g, u, note);
    ReopenFrame(SetFailed(g, u, note), u);
    FrameTransitive(g, SetFailed(g, u, note), Reopen(SetFailed(g, u, note), u));
    SendBackFrame(g, Reopen(SetFailed(g, u, note), u));
  }

  lemma FailedFrame(g: Graph, u: Id, note: FailureNote)
    requires u in g.units
    ensures SameFrame(g, SetFailed(g, u, note)) && u in SetFailed(g, u, note).units
  {
  }

  lemma ReopenFrame(g: Graph, u: Id)
    ensures SameFrame(g, Reopen(g, u))
  {
    hide Downstream;
  }

  lemma SendBackFrame(g: Graph, h: Graph)
    requires SameFrame(g, h)
    ensures SameFrame(g, SendBack(h))
  {
    hide RefreshCounts;
    RefreshFrame(h.(status := RetryPending, counters := h.counters.(retries := h.counters.retries + 1),
                    sendBacks := h.sendBacks + 1), 0);
  }

  lemma MarkFrame(g: Graph, selected: seq<Id>)
    ensures SameFrame(g, MarkReady(g, selected))
  {
  }

  lemma UpdateFrame(g: Graph, u: Id, output: Json, attempts: Attempts)
    requires u in g.units
    ensures SameFrame(g, SetAccepted(g, u, output))
    ensures SameFrame(g, SetProduced(g, u, output))
    ensures SameFrame(g, SetAttempts(g, u, attempts)) && u in SetAttempts(g, u, attempts).units
  {
    AcceptedFrame(g, u, output);
    ProducedFrame(g, u, output);
  }

  lemma AcceptedFrame(g: Graph, u: Id, output: Json)
    requires u in g.units
    ensures SameFrame(g, SetAccepted(g, u, output))
  {
  }

  lemma ProducedFrame(g: Graph, u: Id, output: Json)
    requires u in g.units
    ensures SameFrame(g, SetProduced(g, u, output))
  {
  }

  lemma CountFrame(g: Graph, now: nat)
    ensures SameFrame(g, CountStep(g, now, true)) && CountStep(g, now, true).units == g.units
    ensures forall r :: SameFrame(g, MarkConverged(CountStep(g, now, true), r, now))
  {
  }

  lemma CompleteFrame(g: Graph, u: Id, output: Json, now: nat)
    requires CompleteUnit(g, u, output, now).Ok?
    ensures SameFrame(g, CompleteUnit(g, u, output, now).value)
  {
    hide SameFrame, WellFormed, MayStep, Executable, DependencyReady, Conforms, Exhausted, GuardStep, Refresh, Reject;
    hide SetAccepted, SetAttempts, CountStep, MarkConverged, RefreshCounts, RefreshStatus;
    GuardFrame(g, now, true);
    CountFrame(g, now);
    if u in g.units {
      var h := CountStep(g, now, true);
      RejectFrame(h, u, SchemaInvalid);
      var k := SetAttempts(h, u, h.units[u].attempts.BumpCheck());
      UpdateFrame(h, u, output, h.units[u].attempts.BumpCheck());
      UpdateFrame(k, u, output, h.units[u].attempts);
      RefreshFrame(SetAccepted(k, u, output), now);
      FrameTransitive(g, h, k);
      FrameTransitive(g, k, SetAccepted(k, u, output));
      FrameTransitive(g, SetAccepted(k, u, output), Refresh(SetAccepted(k, u, output), now));
      FrameTransitive(g, h, Reject(h, u, SchemaInvalid));
    }
  }

  lemma FailFrame(g: Graph, u: Id, note: FailureNote, now: nat)
    requires FailUnit(g, u, note, now).Ok?
    ensures SameFrame(g, FailUnit(g, u, note, now).value)
  {
    hide WellFormed, MayStep, Exhausted, GuardStep, Reject;
    GuardFrame(g, now, true);
    if u in g.units {
      var k := SetAttempts(CountStep(g, now, true), u, g.units[u].attempts.BumpCheck());
      RejectFrame(k, u, note);
      FrameTransitive(g, k, Reject(k, u, note));
    }
  }

  lemma RecordFrame(g: Graph, u: Id, stage: Stage, outcome: Outcome, now: nat)
    requires RecordAttempt(g, u, stage, outcome, now).Ok?
    ensures SameFrame(g, RecordAttempt(g, u, stage, outcome, now).value)
  {
    hide WellFormed, MayStep, Executable, DependencyReady, Exhausted, GuardStep, Judge;
    GuardFrame(g, now, true);
    if u in g.units {
      var k := SetAttempts(CountStep(g, now, true), u, g.units[u].attempts.Bump(stage));
      JudgeFrame(k, u, stage, outcome, now);
      FrameTransitive(g, k, Judge(k, u, stage, outcome, now));
    }
  }

  lemma JudgeFrame(k: Graph, u: Id, stage: Stage, outcome: Outcome, now: nat)
    requires u in k.units
    ensures SameFrame(k, Judge(k, u, stage, outcome, now))
  {
    hide Conforms, Refresh, Reject, SameFrame, Candidate, SetAccepted, SetProduced, SetAttempts, Judged;
    RejectFrame(k, u, Reason(outcome.reason));
    RejectFrame(k, u, SchemaInvalid);
    var output := Candidate(k, u, outcome.output);
    AcceptedFrame(k, u, output);
    ProducedFrame(k, u, outcome.output);
    RefreshFrame(SetAccepted(k, u, output), now);
    RefreshFrame(SetProduced(k, u, outcome.output), now);
    FrameTransitive(k, SetAccepted(k, u, output), Refresh(SetAccepted(k, u, output), now));
    FrameTransitive(k, SetProduced(k, u, outcome.output), Refresh(SetProduced(k, u, outcome.output), now));
  }

  lemma ApplyFrame(g: Graph, u: Id, r: RoundOutcome, now: nat)
    requires ApplyOutcome(g, u, r, now).Ok?
    ensures SameFrame(g, ApplyOutcome(g, u, r, now).value)
  {
    hide CompleteUnit, FailUnit, RecordAttempt;
    match r
    case Staged(stage, outcome) => RecordFrame(g, u, stage, outcome, now);
    case Direct(outcome) =>
      if outcome.ok { CompleteFrame(g, u, outcome.output, now); } else { FailFrame(g, u, Reason(outcome.reason), now); }
  }

  lemma {:induction false} ApplyAllFrame(g: Graph, selected: seq<Id>, outcomes: map<Id, RoundOutcome>, now: nat)
    requires ApplyOutcomes(g, selected, outcomes, now).Ok?
    ensures SameFrame(g, ApplyOutcomes(g, selected, outcomes, now).value)
    decreases |selected|
  {
    hide ApplyOutcome;
    if selected != [] {
      if selected[0] !in outcomes {
        ApplyAllFrame(g, selected[1..], outcomes, now);
      } else {
        ApplyFrame(g, selected[0], outcomes[selected[0]], now);
        var h := ApplyOutcome(g, selected[0], outcomes[selected[0]], now).value;
        if h.status != ConvergedFailed {
          ApplyAllFrame(h, selected[1..], outcomes, now);
          FrameTransitive(g, h, ApplyOutcomes(h, selected[1..], outcomes, now).value);
        }
      }
    }
  }

  lemma AdvanceFrame(g: Graph, outcomes: map<Id, RoundOutcome>, width: Option<int>, now: nat)
    requires AdvanceGraph(g, outcomes, width, now).Ok?
    ensures SameFrame(g, AdvanceGraph(g, outcomes, width, now).value)
  {
    hide WellFormed, ParallelReady, RefreshStatus, Refresh, GuardStep, ApplyOutcomes, MarkReady, SameFrame;
    FrameReflexive(g);
    if g.status != GraphAccepted && g.status != ConvergedFailed {
      var selected := ParallelReady(g, if width.Some? then width.value else g.limits.maxParallelism);
      var m := MarkReady(g, selected);
      MarkFrame(g, selected);
      var h := RefreshStatus(m, now);
      RefreshFrame(m, now);
      FrameTransitive(g, m, h);
      var k := if outcomes == map[] then GuardStep(h, now, false) else ApplyOutcomes(h, selected, outcomes, now).value;
      if outcomes == map[] { GuardFrame(h, now, false); } else { ApplyAllFrame(h, selected, outcomes, now); }
      FrameTransitive(g, h, k);
      RefreshFrame(k, now);
      FrameTransitive(g, k, Refresh(k, now));
    }
  }

  lemma RetryFrame(g: Graph, u: Id, now: nat)
    requires RetryUnit(g, u, now).Ok?
    ensures SameFrame(g, RetryUnit(g, u, now).value)
  {
    hide WellFormed, RefreshCounts, Exhausted;
    RefreshFrame(g.(units := g.units[u := g.units[u].(status := Reopened)], failed := g.failed - {u},
                    status := RetryPending, times := g.times.(updated := now)), now);
  }

  lemma FinalizeFrame(g: Graph, now: nat)
    ensures SameFrame(g, FinalizeGraph(g, now))
  {
    hide RefreshStatus, AllAccepted;
    RefreshFrame(g, now);
  }

  lemma ConstraintFrame(g: Graph, c: Constraint, now: nat)
    requires RecordConstraint(g, c, now).Ok?
    ensures SameFrame(g, RecordConstraint(g, c, now).value)
  {
    hide WellFormed;
  }

  /** Every call leaves units, contracts, edges and limits as they are. */
  lemma StepFrame(g: Graph, call: Call, now: nat)
    ensures SameFrame(g, After(g, call, now))
  {
    hide WellFormed, CompleteUnit, FailUnit, RetryUnit, RecordAttempt, AdvanceGraph, FinalizeGraph;
    hide RecordConstraint, SameFrame;
    FrameReflexive(g);
    match call
    case Complete(u, output) => if CompleteUnit(g, u, output, now).Ok? { CompleteFrame(g, u, output, now); }
    case Fail(u, note) => if FailUnit(g, u, note, now).Ok? { FailFrame(g, u, note, now); }
    case Retry(u) => if RetryUnit(g, u, now).Ok? { RetryFrame(g, u, now); }
    case Record(u, stage, outcome) =>
      if RecordAttempt(g, u, stage, outcome, now).Ok? { RecordFrame(g, u, stage, outcome, now); }
    case Advance(outcomes, width) =>
      if AdvanceGraph(g, outcomes, width, now).Ok? { AdvanceFrame(g, outcomes, width, now); }
    case Finalize => FinalizeFrame(g, now);
    case AddConstraint(c) => if RecordConstraint(g, c, now).Ok? { ConstraintFrame(g, c, now); }
  }
}
