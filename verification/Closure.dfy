/**
 * The accepted units are closed under dependencies.  One kind of call breaks this: work recorded
 * on a unit that is already accepted while accepted units depend on it.
 */
module Closure {
  import opened Basics
  import opened Calls
  import opened Digraph
  import opened Frame
  import opened Invariants
  import opened JsonValues
  import opened Locality
  import opened Order
  import opened Safety
  import opened State
  import opened Topology

  /** Whatever an accepted unit depends on is accepted. */
  ghost predicate Closed(g: Graph) {
    forall e :: e in Arcs(g) && e.to in g.units && g.units[e.to].status == Accepted ==>
                  e.from in g.units && g.units[e.from].status == Accepted
  }

  ghost predicate HasAcceptedDependent(g: Graph, u: Id) {
    exists e :: e in Arcs(g) && e.from == u && e.to in g.units && g.units[e.to].status == Accepted
  }

  /**
   * The call records new work on an accepted unit: a successful produce, or a successful
   * correction not reported as verified, within the budgets.
   */
  ghost predicate Demotes(g: Graph, call: Call, now: nat) {
    && call.Record? && call.outcome.ok && !Judged(call.stage, call.outcome)
    && call.unit in g.units && g.units[call.unit].status == Accepted
    && g.status != ConvergedFailed && MayAttempt(g, call.unit, call.stage, now)
  }

  /** Upstream of an accepted unit everything is accepted. */
  lemma ClosedUpstream(g: Graph, a: Id, b: Id)
    requires Closed(g) && ShapeOk(g) && Reaches(Arcs(g), a, b) && b in g.units && g.units[b].status == Accepted
    ensures a in g.units && g.units[a].status == Accepted
  {
    var open := set v | v in g.units && g.units[v].status != Accepted;
    var s := ReachesFirst(Arcs(g), a, b);
    assert a in g.units by {
      if Edge(a, s) !in g.edges { assert s in g.units && a in g.units[s].dependencies && UnitOk(g, s); }
    }
    if a in open {
      forall e | e in Arcs(g) && e.from in open ensures e.to in open {
        if e !in g.edges { assert e.to in g.units; }
      }
      ClosedContains(Arcs(g), open, a, b);
    }
  }

  // ---------------------------------------------------------------- the three effects

  lemma FailureKeepsClosed(g: Graph, h: Graph, u: Id, note: FailureNote, attempts: Attempts)
    requires Closed(g) && ShapeOk(g) && SameFrame(g, h) && FailsLocally(g, h, u, note, attempts)
    ensures Closed(h)
  {
    hide ReopenedRow, SameRow, FailedRow, Downstream, UnitOk;
    FrameArcs(g, h);
    var down := Downstream(Arcs(g), g.units.Keys, u);
    forall e | e in Arcs(h) && e.to in h.units && h.units[e.to].status == Accepted
      ensures e.from in h.units && h.units[e.from].status == Accepted
    {
      assert e.to in WithStatus(h.units, Accepted);
      assert g.units[e.to].status == Accepted && e.to != u && e.to !in down;
      DownstreamSteps(Arcs(g), g.units.Keys, u, e);
      assert e.from in WithStatus(g.units, Accepted);
      assert e.from in WithStatus(h.units, Accepted);
    }
  }

  /** A dependent of the failed unit, or of something downstream of it, is downstream too. */
  lemma DownstreamSteps(edges: set<Edge>, ids: set<Id>, u: Id, e: Edge)
    requires e in edges && e.to in ids && e.to !in Downstream(edges, ids, u)
    ensures e.from != u && e.from !in Downstream(edges, ids, u)
  {
    EdgeReaches(edges, e.from, e.to);
    if e.from in Downstream(edges, ids, u) { ReachesTransitive(edges, u, e.from, e.to); }
  }

  lemma AcceptanceKeepsClosed(g: Graph, h: Graph, u: Id, output: Json, attempts: Attempts)
    requires Closed(g) && SameFrame(g, h) && DependencyReady(g, u) && AcceptsLocally(g, h, u, output, attempts)
    ensures Closed(h)
  {
    FrameArcs(g, h);
    forall e | e in Arcs(h) && e.to in h.units && h.units[e.to].status == Accepted
      ensures e.from in h.units && h.units[e.from].status == Accepted
    {
      assert e.to == u || SameRow(g, h, e.to);
      assert e.from == u || SameRow(g, h, e.from);
    }
  }

  lemma ProductionAndClosure(g: Graph, h: Graph, u: Id, output: Json, attempts: Attempts)
    requires Closed(g) && Acyclic(Arcs(g)) && SameFrame(g, h) && ProducesLocally(g, h, u, output, attempts)
    ensures Closed(h) <==> !(g.units[u].status == Accepted && HasAcceptedDependent(g, u))
  {
    hide Acyclic;
    FrameArcs(g, h);
    assert Edge(u, u) !in Arcs(g) by { NoLoop(Arcs(g), u); }
    if g.units[u].status == Accepted && HasAcceptedDependent(g, u) {
      var e :| e in Arcs(g) && e.from == u && e.to in g.units && g.units[e.to].status == Accepted;
      assert SameRow(g, h, e.to);
    } else {
      forall e | e in Arcs(h) && e.to in h.units && h.units[e.to].status == Accepted
        ensures e.from in h.units && h.units[e.from].status == Accepted
      {
        assert e.to != u && SameRow(g, h, e.to);
        assert e.from == u || SameRow(g, h, e.from);
      }
    }
  }

  lemma NoLoop(edges: set<Edge>, u: Id)
    requires Acyclic(edges)
    ensures Edge(u, u) !in edges
  {
    if Edge(u, u) in edges { EdgeReaches(edges, u, u); }
  }

  lemma SameStatusesClosed(g: Graph, h: Graph)
    requires SameFrame(g, h)
    requires forall u :: u in g.units ==> (h.units[u].status == Accepted <==> g.units[u].status == Accepted)
    ensures Closed(g) <==> Closed(h)
  {
    hide Arcs;
    FrameArcs(g, h);
  }

  // ---------------------------------------------------------------- calls

  lemma SameUnitsClosed(g: Graph, h: Graph)
    requires SameFrame(g, h) && h.units == g.units
    ensures Closed(g) <==> Closed(h)
  {
    hide Closed;
    SameStatusesClosed(g, h);
  }

  lemma LooseShape(g: Graph)
    requires Loose(g)
    ensures WellFormed(g) && ShapeOk(g) && Acyclic(Arcs(g)) && OutputsOk(g)
  {
  }

  lemma CompleteClosed(g: Graph, u: Id, output: Json, now: nat)
    requires Loose(g) && Closed(g) && CompleteUnit(g, u, output, now).Ok?
    ensures Closed(CompleteUnit(g, u, output, now).value)
  {
    var h := CompleteUnit(g, u, output, now).value;
    hide Closed, Acyclic, UnitOk, StatusesOk, OutputsOk, Budgets, StatusSound, FailsLocally, AcceptsLocally;
    hide Conforms, Refresh, Reject, DependencyReady;
    CompleteEffect(g, u, output, now);
    CompleteFrame(g, u, output, now);
    hide CompleteUnit, Exhausted;
    if MayStep(g, now, true) { CompleteNeeds(g, u, output, now); }
    if !MayStep(g, now, true) || Exhausted(g, g.units[u]) {
      SameStatusesClosed(g, h);
    } else if Conforms(output, g.units[u].schema) {
      AcceptanceKeepsClosed(g, h, u, output, g.units[u].attempts.BumpCheck());
    } else {
      FailureKeepsClosed(g, h, u, SchemaInvalid, g.units[u].attempts);
    }
  }

  lemma CompleteNeeds(g: Graph, u: Id, output: Json, now: nat)
    requires CompleteUnit(g, u, output, now).Ok? && MayStep(g, now, true)
    ensures u in g.units && DependencyReady(g, u)
  {
    hide WellFormed, DependencyReady, Conforms, Refresh, Reject;
  }

  lemma FailClosed(g: Graph, u: Id, note: FailureNote, now: nat)
    requires Loose(g) && Closed(g) && FailUnit(g, u, note, now).Ok?
    ensures Closed(FailUnit(g, u, note, now).value)
  {
    var h := FailUnit(g, u, note, now).value;
    hide Closed, Acyclic, UnitOk, StatusesOk, OutputsOk, Budgets, StatusSound, FailsLocally, Reject;
    FailEffect(g, u, note, now);
    FailFrame(g, u, note, now);
    hide FailUnit, Exhausted;
    if !MayStep(g, now, true) || Exhausted(g, g.units[u]) {
      SameStatusesClosed(g, h);
    } else {
      FailureKeepsClosed(g, h, u, note, g.units[u].attempts.BumpCheck());
    }
  }

  lemma RecordClosed(g: Graph, u: Id, stage: Stage, outcome: Outcome, now: nat)
    requires Loose(g) && Closed(g) && RecordAttempt(g, u, stage, outcome, now).Ok?
    ensures Closed(RecordAttempt(g, u, stage, outcome, now).value)
       <==> !(Demotes(g, Record(u, stage, outcome), now) && HasAcceptedDependent(g, u))
  {
    var h := RecordAttempt(g, u, stage, outcome, now).value;
    hide Closed, Loose, WellFormed, Acyclic, Arcs, ShapeOk, OutputsOk, SameFrame, Stops;
    hide DependencyReady, HasAcceptedDependent, RecordAttempt, MayAttempt, OutcomeEffect, Judged, Demotes;
    LooseShape(g);
    RecordEffect(g, u, stage, outcome, now);
    RecordFrame(g, u, stage, outcome, now);
    RecordNeeds(g, u, stage, outcome, now);
    DemotesMeans(g, u, stage, outcome, now);
    if MayAttempt(g, u, stage, now) {
      OutcomeClosed(g, h, u, stage, outcome, g.units[u].attempts.Bump(stage));
    } else {
      StoppedClosed(g, h);
    }
  }

  lemma DemotesMeans(g: Graph, u: Id, stage: Stage, outcome: Outcome, now: nat)
    requires u in g.units && g.status != ConvergedFailed
    ensures Demotes(g, Record(u, stage, outcome), now) <==>
            outcome.ok && !Judged(stage, outcome) && g.units[u].status == Accepted && MayAttempt(g, u, stage, now)
  {
    hide MayAttempt, Judged;
  }

  lemma StoppedClosed(g: Graph, h: Graph)
    requires SameFrame(g, h) && Stops(g, h)
    ensures Closed(g) <==> Closed(h)
  {
    hide Closed, SameFrame;
    SameUnitsClosed(g, h);
  }

  lemma OutcomeClosed(g: Graph, h: Graph, u: Id, stage: Stage, outcome: Outcome, attempts: Attempts)
    requires Closed(g) && ShapeOk(g) && Acyclic(Arcs(g)) && SameFrame(g, h) && u in g.units && DependencyReady(g, u)
    requires OutcomeEffect(g, h, u, stage, outcome, attempts)
    ensures Closed(h) <==>
            !(outcome.ok && !Judged(stage, outcome) && g.units[u].status == Accepted && HasAcceptedDependent(g, u))
  {
    hide Closed, Acyclic, ShapeOk, FailsLocally, AcceptsLocally, ProducesLocally, SameFrame, Conforms, DependencyReady;
    hide HasAcceptedDependent, Candidate;
    if !outcome.ok {
      FailureKeepsClosed(g, h, u, Reason(outcome.reason), attempts);
    } else if !Judged(stage, outcome) {
      ProductionAndClosure(g, h, u, outcome.output, attempts);
    } else if Conforms(Candidate(g, u, outcome.output), g.units[u].schema) {
      AcceptanceKeepsClosed(g, h, u, Candidate(g, u, outcome.output), attempts);
    } else {
      FailureKeepsClosed(g, h, u, SchemaInvalid, attempts);
    }
  }

  lemma RecordNeeds(g: Graph, u: Id, stage: Stage, outcome: Outcome, now: nat)
    requires RecordAttempt(g, u, stage, outcome, now).Ok?
    ensures u in g.units && DependencyReady(g, u) && g.status != ConvergedFailed
  {
    hide WellFormed, DependencyReady, Judge;
  }

  // ---------------------------------------------------------------- rounds

  /** An outcome for `u` makes no other unit accepted. */
  ghost predicate OthersNotAccepted(g: Graph, h: Graph, u: Id) {
    forall v :: v != u && v in h.units && h.units[v].status == Accepted ==>
      v in g.units && g.units[v].status == Accepted
  }

  lemma LocalOthers(g: Graph, h: Graph, u: Id, note: FailureNote, output: Json, attempts: Attempts)
    ensures FailsLocally(g, h, u, note, attempts) ==> OthersNotAccepted(g, h, u)
    ensures AcceptsLocally(g, h, u, output, attempts) ==> OthersNotAccepted(g, h, u)
    ensures ProducesLocally(g, h, u, output, attempts) ==> OthersNotAccepted(g, h, u)
    ensures Stops(g, h) ==> OthersNotAccepted(g, h, u)
  {
    hide Downstream, Arcs;
    if FailsLocally(g, h, u, note, attempts) {
      forall v | v != u && v in h.units && h.units[v].status == Accepted
        ensures v in g.units && g.units[v].status == Accepted {
        assert v in WithStatus(h.units, Accepted);
      }
    }
    if AcceptsLocally(g, h, u, output, attempts) || ProducesLocally(g, h, u, output, attempts) {
      forall v | v != u && v in h.units && h.units[v].status == Accepted
        ensures v in g.units && g.units[v].status == Accepted {
        assert SameRow(g, h, v);
      }
    }
  }

  lemma ApplyOthers(g: Graph, u: Id, r: RoundOutcome, now: nat)
    requires Loose(g) && u in g.units && ApplyOutcome(g, u, r, now).Ok?
    ensures OthersNotAccepted(g, ApplyOutcome(g, u, r, now).value, u)
  {
    hide WellFormed, StatusesOk, Budgets, StatusSound, OutputsOk, CompleteUnit, FailUnit, RecordAttempt;
    hide FailsLocally, AcceptsLocally, ProducesLocally, Stops, OthersNotAccepted, Conforms, Candidate;
    hide Exhausted, MayStep;
    var h := ApplyOutcome(g, u, r, now).value;
    match r
    case Staged(stage, outcome) =>
      RecordEffect(g, u, stage, outcome, now);
      LocalOthers(g, h, u, Reason(outcome.reason), outcome.output, g.units[u].attempts.Bump(stage));
      LocalOthers(g, h, u, SchemaInvalid, Candidate(g, u, outcome.output), g.units[u].attempts.Bump(stage));
    case Direct(outcome) =>
      if outcome.ok {
        CompleteEffect(g, u, outcome.output, now);
        LocalOthers(g, h, u, SchemaInvalid, outcome.output, g.units[u].attempts.BumpCheck());
        LocalOthers(g, h, u, SchemaInvalid, outcome.output, g.units[u].attempts);
      } else {
        FailEffect(g, u, Reason(outcome.reason), now);
        LocalOthers(g, h, u, Reason(outcome.reason), outcome.output, g.units[u].attempts.BumpCheck());
      }
  }

  lemma ApplyClosed(g: Graph, u: Id, r: RoundOutcome, now: nat)
    requires Loose(g) && Closed(g) && u in g.units && g.units[u].status != Accepted && ApplyOutcome(g, u, r, now).Ok?
    ensures Closed(ApplyOutcome(g, u, r, now).value)
  {
    hide Closed, Loose, CompleteUnit, FailUnit, RecordAttempt, MayAttempt;
    match r
    case Staged(stage, outcome) => RecordClosed(g, u, stage, outcome, now);
    case Direct(outcome) =>
      if outcome.ok {
        CompleteClosed(g, u, outcome.output, now);
      } else {
        FailClosed(g, u, Reason(outcome.reason), now);
      }
  }

  lemma {:induction false} ApplyAllClosed(g: Graph, selected: seq<Id>, outcomes: map<Id, RoundOutcome>, now: nat)
    requires Loose(g) && Closed(g) && Distinct(selected)
    requires forall u :: u in selected ==> u in g.units && g.units[u].status != Accepted
    requires ApplyOutcomes(g, selected, outcomes, now).Ok?
    ensures Closed(ApplyOutcomes(g, selected, outcomes, now).value)
    decreases |selected|
  {
    hide Loose, Closed, ApplyOutcome;
    if selected != [] {
      var u, rest := selected[0], selected[1..];
      if u !in outcomes {
        ApplyAllClosed(g, rest, outcomes, now);
      } else {
        ApplyClosed(g, u, outcomes[u], now);
        ApplyOthers(g, u, outcomes[u], now);
        ApplyKeeps(g, u, outcomes[u], now);
        ApplyFrame(g, u, outcomes[u], now);
        var h := ApplyOutcome(g, u, outcomes[u], now).value;
        if h.status != ConvergedFailed {
          forall v | v in rest ensures v in h.units && h.units[v].status != Accepted {
            assert v in selected && v != u;
          }
          ApplyAllClosed(h, rest, outcomes, now);
        }
      }
    }
  }

  lemma AdvanceClosed(g: Graph, outcomes: map<Id, RoundOutcome>, width: Option<int>, now: nat)
    requires Invariant(g) && Closed(g) && AdvanceGraph(g, outcomes, width, now).Ok?
    ensures Closed(AdvanceGraph(g, outcomes, width, now).value)
  {
    hide Closed, WellFormed, StatusesOk, OutputsOk, Budgets, StatusSound, Exact;
    hide ParallelReady, RefreshCounts, RefreshStatus, GuardStep, ApplyOutcomes;
    if g.status != GraphAccepted && g.status != ConvergedFailed {
      var room := if width.Some? then width.value else g.limits.maxParallelism;
      var selected := ParallelReady(g, room);
      ParallelIsReady(g, room);
      ParallelIsDistinct(g, room);
      MarkReadyKeeps(g, selected);
      var m := MarkReady(g, selected);
      RoundStarts(g, selected, now);
      var h := RefreshStatus(m, now);
      RefreshFrame(m, now);
      SameStatusesClosed(g, m);
      SameStatusesClosed(m, h);
      if outcomes == map[] {
        var k := GuardStep(h, now, false);
        GuardFrame(h, now, false);
        GuardUnits(h, now);
        SameStatusesClosed(h, k);
        RefreshFrame(k, now);
        SameStatusesClosed(k, Refresh(k, now));
      } else {
        ApplyAllClosed(h, selected, outcomes, now);
        var k := ApplyOutcomes(h, selected, outcomes, now).value;
        RefreshFrame(k, now);
        SameStatusesClosed(k, Refresh(k, now));
      }
    }
  }

  lemma GuardUnits(g: Graph, now: nat)
    ensures GuardStep(g, now, false).units == g.units
  {
  }

  lemma ParallelIsDistinct(g: Graph, room: nat)
    ensures Distinct(ParallelReady(g, room))
  {
    var ready := ReadyNodes(g);
    BeforeIsTotal();
    assert forall i :: 0 <= i < |ready| ==> ready[i] in ready && ready[i] in ReadyUnits(g);
    PickIsDistinct(g, ready, {}, room);
  }

  lemma {:induction false} PickIsDistinct(g: Graph, candidates: seq<Id>, owners: set<Json>, room: nat)
    requires forall i :: 0 <= i < |candidates| ==> candidates[i] in g.units
    requires Distinct(candidates)
    ensures Distinct(Pick(g, candidates, owners, room))
    decreases |candidates|
  {
    if candidates != [] && room != 0 {
      var u, rest := candidates[0], candidates[1..];
      if g.units[u].ownership in owners {
        PickIsDistinct(g, rest, owners, room);
      } else {
        PickIsDistinct(g, rest, owners + {g.units[u].ownership}, room - 1);
        PickIsReady(g, rest, owners + {g.units[u].ownership}, room - 1);
        assert u !in rest;
        var picked := Pick(g, rest, owners + {g.units[u].ownership}, room - 1);
        assert forall i :: 0 <= i < |picked| ==> picked[i] in picked && picked[i] in rest;
      }
    }
  }

  /**
   * Every call keeps the accepted set closed, except exactly one that demotes an accepted unit
   * under accepted dependents.
   */
  lemma StepClosed(g: Graph, call: Call, now: nat)
    requires Invariant(g) && Closed(g)
    ensures Closed(After(g, call, now)) <==> !(Demotes(g, call, now) && HasAcceptedDependent(g, call.unit))
  {
    hide Closed, Loose, Exact, CompleteUnit, FailUnit, RecordAttempt, RetryUnit, AdvanceGraph, FinalizeGraph;
    hide RecordConstraint;
    hide MayAttempt, HasAcceptedDependent, SameFrame, WellFormed;
    var h := After(g, call, now);
    StepFrame(g, call, now);
    match call
    case Complete(u, output) => if CompleteUnit(g, u, output, now).Ok? { CompleteClosed(g, u, output, now); }
    case Fail(u, note) => if FailUnit(g, u, note, now).Ok? { FailClosed(g, u, note, now); }
    case Retry(u) => RetryStatuses(g, u, now); SameStatusesClosed(g, h);
    case Record(u, stage, outcome) =>
      if RecordAttempt(g, u, stage, outcome, now).Ok? {
        RecordClosed(g, u, stage, outcome, now);
      } else {
        RefusedNotDemoting(g, u, stage, outcome, now);
      }
    case Advance(outcomes, width) =>
      if AdvanceGraph(g, outcomes, width, now).Ok? { AdvanceClosed(g, outcomes, width, now); }
    case Finalize => UnitsKept(g, call, now); SameUnitsClosed(g, h);
    case AddConstraint(_) => UnitsKept(g, call, now); SameUnitsClosed(g, h);
  }

  lemma UnitsKept(g: Graph, call: Call, now: nat)
    requires call.Finalize? || call.AddConstraint?
    ensures After(g, call, now).units == g.units
  {
    hide WellFormed, RefreshStatus, SameFrame, AllAccepted;
    RefreshFrame(g, now);
  }

  lemma RetryStatuses(g: Graph, u: Id, now: nat)
    ensures var h := After(g, Retry(u), now);
      h.units.Keys == g.units.Keys &&
      forall v :: v in g.units ==> (h.units[v].status == Accepted <==> g.units[v].status == Accepted)
  {
    hide RefreshCounts, WellFormed;
    if u in g.units {
      RefreshCountsOnly(ReopenFailed(g, u).(status := RetryPending, times := g.times.(updated := now)));
    }
  }

  /** In a closed snapshot a call that demotes is not refused. */
  lemma RefusedNotDemoting(g: Graph, u: Id, stage: Stage, outcome: Outcome, now: nat)
    requires Invariant(g) && Closed(g) && RecordAttempt(g, u, stage, outcome, now).Err?
    ensures !Demotes(g, Record(u, stage, outcome), now)
  {
    hide Acyclic, UnitOk, StatusesOk, OutputsOk, Budgets, StatusSound, Exact, Judge, MayAttempt;
    if u in g.units && g.units[u].status == Accepted {
      assert DependencyReady(g, u);
    }
  }

  // ---------------------------------------------------------------- runs

  /** No call of the run demotes an accepted unit under accepted dependents. */
  ghost predicate Undemoted(g: Graph, calls: seq<Timed>)
    decreases |calls|
  {
    calls == [] ||
    var before, last := Run(g, calls[..|calls| - 1]), calls[|calls| - 1];
    && Undemoted(g, calls[..|calls| - 1])
    && !(Demotes(before, last.call, last.now) && HasAcceptedDependent(before, last.call.unit))
  }

  /** Over any run without such calls the accepted set is closed under dependencies throughout. */
  lemma {:induction false} RunClosed(g: Graph, calls: seq<Timed>)
    requires Invariant(g) && Closed(g) && Undemoted(g, calls)
    ensures Closed(Run(g, calls)) && Invariant(Run(g, calls))
    decreases |calls|
  {
    hide Invariant, Closed, After, Demotes, HasAcceptedDependent;
    if calls != [] {
      RunClosed(g, calls[..|calls| - 1]);
      var before, last := Run(g, calls[..|calls| - 1]), calls[|calls| - 1];
      StepClosed(before, last.call, last.now);
      StepKeeps(before, last.call, last.now);
    }
  }

  lemma InitiallyClosed(specs: seq<UnitSpec>, edges: seq<Edge>, limits: Limits, constraints: seq<Constraint>, now: nat)
    requires ValidSpecs(specs, edges, limits)
    ensures Closed(InitialGraph(specs, edges, limits, constraints, now))
    ensures Invariant(InitialGraph(specs, edges, limits, constraints, now))
  {
    hide Invariant, Arcs, InitialGraph, ValidListing;
    InitialShape(specs, edges, limits, constraints, now);
    InitialUnitsOk(specs, edges, limits);
    InitialInvariant(specs, edges, limits, constraints, now);
  }
}
