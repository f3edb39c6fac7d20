/** The public calls of the engine. */
module Calling {
  import opened Basics
  import opened Cycles
  import opened Digraph
  import opened Engine
  import opened JsonValues
  import opened Order
  import State
  import opened Topology

  lemma CountedShape(g: Snapshot, u: Id, now: nat, attempts: State.Attempts)
    requires State.ShapeOk(g)
    ensures State.ShapeOk(State.CountStep(g, now, true)) && State.CountStep(g, now, true).units == g.units
    ensures u in g.units && InRange(attempts) ==>
      State.ShapeOk(State.SetAttempts(State.CountStep(g, now, true), u, attempts))
  {
    hide State.UnitOk;
    var h := State.CountStep(g, now, true);
    forall v | v in h.units ensures State.UnitOk(h, v) { SameUnitOk(g, h, v); }
    hide State.ShapeOk;
    if u in g.units && InRange(attempts) { AttemptsShape(h, u, attempts); }
  }

  predicate InRange(a: State.Attempts) {
    a.produce <= State.MAX_ATTEMPTS && a.check <= State.MAX_ATTEMPTS && a.correct <= State.MAX_ATTEMPTS
  }

  lemma SameUnitOk(g: Snapshot, h: Snapshot, v: Id)
    requires h.units.Keys == g.units.Keys && v in g.units && State.UnitOk(g, v)
    requires h.units[v] == g.units[v].(attempts := h.units[v].attempts)
    requires h.units[v].attempts == g.units[v].attempts || InRange(h.units[v].attempts)
    ensures State.UnitOk(h, v)
  {
    hide State.PolicyOk, NodeOk;
    assert forall d :: d in g.units[v].dependencies ==> d in h.units.Keys;
  }

  lemma AttemptsShape(h: Snapshot, u: Id, attempts: State.Attempts)
    requires State.ShapeOk(h) && u in h.units && InRange(attempts)
    ensures State.ShapeOk(State.SetAttempts(h, u, attempts))
  {
    hide State.UnitOk;
    var k := State.SetAttempts(h, u, attempts);
    assert k.units.Keys == h.units.Keys;
    assert |k.units| == |k.units.Keys| == |h.units.Keys| == |h.units|;
    forall v | v in k.units ensures State.UnitOk(k, v) { SameUnitOk(h, k, v); }
  }

  /** `complete_unit` */
  method CompleteUnit(g: Snapshot, u: Id, output: Json, now: nat) returns (r: Result<Snapshot>)
    ensures r == State.CompleteUnit(g, u, output, now)
  {
    hide State.WellFormed, State.MayStep, State.GuardStep, State.CountStep, State.Reject, State.Refresh;
    hide State.SetAccepted, State.SetAttempts;
    hide State.ShapeOk, State.MarkConverged, Conforms, State.DependencyReady, State.Exhausted;
    hide State.RefreshCounts, State.RefreshStatus;
    var valid := Validate(g);
    if !valid { return Err(InvalidGraph); }
    WellFormedShape(g);
    var copy := new Copy(g);
    if copy.status == State.ConvergedFailed { return Err(ConvergenceFailed); }
    var ok := copy.GuardStep(now, true);
    GuardMeans(g, now, true);
    if !ok { return Ok(copy.Value()); }
    CountedShape(g, u, now, State.Attempts(0, 0, 0));
    if u !in copy.units { return Err(UnknownUnit); }
    CountedReady(g, u, now);
    if !State.Executable(copy.units[u].status) || !State.DependencyReady(copy.Value(), u) { return Err(NotReady); }
    if State.Exhausted(copy.Value(), copy.units[u]) {
      copy.MarkConvergenceFailed(State.BudgetExhausted, now);
      return Ok(copy.Value());
    }
    if !Conforms(output, copy.units[u].schema) {
      copy.Reject(u, State.SchemaInvalid);
      return Ok(copy.Value());
    }
    AcceptUnit(copy, u, output, now);
    return Ok(copy.Value());
  }

  /** The end of `complete_unit`: the output is stored and the check counted. */
  method AcceptUnit(copy: Copy, u: Id, output: Json, now: nat)
    requires u in copy.units
    modifies copy
    ensures
      var counted := State.SetAttempts(old(copy.Value()), u, old(copy.units)[u].attempts.BumpCheck());
      copy.Value() == State.Refresh(State.SetAccepted(counted, u, output), now)
  {
    hide State.RefreshCounts, State.RefreshStatus;
    ghost var h := copy.Value();
    copy.units := copy.units[u := copy.units[u].(status := State.Accepted)];
    copy.units := copy.units[u := copy.units[u].(attempts := copy.units[u].attempts.BumpCheck())];
    copy.accepted := copy.accepted[u := output];
    copy.failed := copy.failed - {u};
    copy.working := copy.working - {u};
    ghost var k := State.SetAttempts(h, u, h.units[u].attempts.BumpCheck());
    assert copy.units == State.SetAccepted(k, u, output).units;
    assert copy.Value() == State.SetAccepted(k, u, output);
    copy.RefreshCounts();
    copy.RefreshGraphStatus(now);
  }

  lemma WellFormedShape(g: Snapshot)
    requires State.WellFormed(g)
    ensures State.ShapeOk(g)
  {
  }

  lemma GuardMeans(g: Snapshot, now: nat, childRun: bool)
    requires g.status != State.ConvergedFailed
    ensures State.MayStep(g, now, childRun) ==> State.GuardStep(g, now, childRun) == State.CountStep(g, now, childRun)
  {
  }

  lemma CountedReady(g: Snapshot, u: Id, now: nat)
    ensures State.DependencyReady(State.CountStep(g, now, true), u) <==> State.DependencyReady(g, u)
  {
    assert State.Arcs(State.CountStep(g, now, true)) == State.Arcs(g);
  }

  /** `fail_unit` */
  method FailUnit(g: Snapshot, u: Id, note: State.FailureNote, now: nat) returns (r: Result<Snapshot>)
    ensures r == State.FailUnit(g, u, note, now)
  {
    hide State.WellFormed, State.MayStep, State.GuardStep, State.CountStep, State.Reject, State.RefreshCounts;
    hide State.ShapeOk, State.Exhausted;
    var valid := Validate(g);
    if !valid { return Err(InvalidGraph); }
    WellFormedShape(g);
    var copy := new Copy(g);
    if copy.status == State.ConvergedFailed { return Err(ConvergenceFailed); }
    var ok := copy.GuardStep(now, true);
    GuardMeans(g, now, true);
    if !ok { return Ok(copy.Value()); }
    CountedShape(g, u, now, if u in g.units then g.units[u].attempts.BumpCheck() else State.Attempts(0, 0, 0));
    if u !in copy.units { return Err(UnknownUnit); }
    if State.Exhausted(copy.Value(), copy.units[u]) {
      copy.MarkConvergenceFailed(State.BudgetExhausted, now);
      return Ok(copy.Value());
    }
    AttemptsInRange(g, u);
    copy.units := copy.units[u := copy.units[u].(attempts := copy.units[u].attempts.BumpCheck())];
    copy.Reject(u, note);
    return Ok(copy.Value());
  }

  lemma AttemptsInRange(g: Snapshot, u: Id)
    requires State.ShapeOk(g) && u in g.units
    ensures InRange(g.units[u].attempts.BumpCheck())
    ensures forall stage :: !State.Exhausted(g, g.units[u]) ==> InRange(g.units[u].attempts.Bump(stage))
  {
    assert State.UnitOk(g, u);
    assert State.AttemptLimit(g, g.units[u]) <= g.limits.maxAttemptPerUnit;
  }

  /** `retry_unit` */
  method RetryUnit(g: Snapshot, u: Id, now: nat) returns (r: Result<Snapshot>)
    ensures r == State.RetryUnit(g, u, now)
  {
    hide State.WellFormed, State.RefreshCounts, State.Exhausted;
    var valid := Validate(g);
    if !valid { return Err(InvalidGraph); }
    var copy := new Copy(g);
    if u !in copy.units { return Err(UnknownUnit); }
    if copy.units[u].status != State.Failed { return Err(NotFailed); }
    if State.Exhausted(copy.Value(), copy.units[u]) {
      copy.MarkConvergenceFailed(State.BudgetExhausted, now);
      return Ok(copy.Value());
    }
    copy.units := copy.units[u := copy.units[u].(status := State.Reopened)];
    copy.failed := copy.failed - {u};
    copy.status := State.RetryPending;
    copy.times := copy.times.(updated := now);
    copy.RefreshCounts();
    return Ok(copy.Value());
  }

  /** `record_unit_attempt` */
  method RecordUnitAttempt(g: Snapshot, u: Id, stage: State.Stage, outcome: State.Outcome, now: nat)
    returns (r: Result<Snapshot>)
    ensures r == State.RecordAttempt(g, u, stage, outcome, now)
  {
    hide State.WellFormed, State.MayStep, State.GuardStep, State.CountStep, State.Judge, State.RefreshCounts;
    hide State.ShapeOk, State.Exhausted, State.DependencyReady, State.StageLimit;
    var valid := Validate(g);
    if !valid { return Err(InvalidGraph); }
    WellFormedShape(g);
    var copy := new Copy(g);
    if copy.status == State.ConvergedFailed { return Err(ConvergenceFailed); }
    if u !in copy.units { return Err(UnknownUnit); }
    if !State.Executable(copy.units[u].status) || !State.DependencyReady(copy.Value(), u) { return Err(NotReady); }
    var stageLimit := State.StageLimit(copy.Value(), copy.units[u], stage);
    if State.Exhausted(copy.Value(), copy.units[u]) || copy.units[u].attempts.Of(stage) >= stageLimit {
      copy.MarkConvergenceFailed(State.BudgetExhausted, now);
      return Ok(copy.Value());
    }
    var ok := copy.GuardStep(now, true);
    GuardMeans(g, now, true);
    if !ok { return Ok(copy.Value()); }
    AttemptsInRange(g, u);
    CountedShape(g, u, now, g.units[u].attempts.Bump(stage));
    copy.units := copy.units[u := copy.units[u].(attempts := copy.units[u].attempts.Bump(stage))];
    JudgeOutcome(copy, u, stage, outcome, now);
    return Ok(copy.Value());
  }

  /** The unit is produced: its output, if there is one, is in work. */
  method StoreProduced(copy: Copy, u: Id, output: Json)
    requires u in copy.units
    modifies copy
    ensures copy.Value() == State.SetProduced(old(copy.Value()), u, output)
  {
    copy.units := copy.units[u := copy.units[u].(status := State.Produced)];
    if output != Null { copy.working := copy.working[u := output]; }
    copy.failed := copy.failed - {u};
  }

  /** The unit is accepted with what was judged. */
  method StoreAccepted(copy: Copy, u: Id, output: Json)
    requires u in copy.units
    modifies copy
    ensures copy.Value() == State.SetAccepted(old(copy.Value()), u, output)
  {
    copy.units := copy.units[u := copy.units[u].(status := State.Accepted)];
    copy.accepted := copy.accepted[u := output];
    copy.working := copy.working - {u};
    copy.failed := copy.failed - {u};
  }

  /** The part of `record_unit_attempt` after the attempt is counted. */
  method JudgeOutcome(copy: Copy, u: Id, stage: State.Stage, outcome: State.Outcome, now: nat)
    requires u in copy.units && State.ShapeOk(copy.Value())
    modifies copy
    ensures copy.Value() == State.Judge(old(copy.Value()), u, stage, outcome, now)
  {
    hide State.ShapeOk, State.Reject, State.RefreshCounts, State.RefreshStatus, State.SetAccepted;
    hide State.SetProduced, Conforms;
    if outcome.ok {
      if stage == State.Produce || (stage == State.Correct && !outcome.verified) {
        StoreProduced(copy, u, outcome.output);
      } else {
        var candidate := if outcome.output != Null then outcome.output
          else if u in copy.working then copy.working[u] else Null;
        if !Conforms(candidate, copy.units[u].schema) {
          copy.Reject(u, State.SchemaInvalid);
          return;
        }
        StoreAccepted(copy, u, candidate);
      }
      copy.RefreshCounts();
      copy.RefreshGraphStatus(now);
    } else {
      copy.Reject(u, State.Reason(outcome.reason));
    }
  }

  /** `finalize_graph` */
  method FinalizeGraph(g: Snapshot, now: nat) returns (r: Result<Snapshot>)
    ensures r == if State.WellFormed(g) then Ok(State.FinalizeGraph(g, now)) else Err(InvalidGraph)
  {
    hide State.WellFormed, State.RefreshStatus;
    var valid := Validate(g);
    if !valid { return Err(InvalidGraph); }
    var copy := new Copy(g);
    if forall u :: u in copy.units ==> copy.units[u].status == State.Accepted {
      copy.status := State.GraphAccepted;
      copy.times := copy.times.(updated := now, ended := Some(now));
      return Ok(copy.Value());
    }
    copy.RefreshGraphStatus(now);
    return Ok(copy.Value());
  }

  /** `record_verified_constraint` */
  method RecordVerifiedConstraint(g: Snapshot, c: State.Constraint, now: nat) returns (r: Result<Snapshot>)
    ensures r == State.RecordConstraint(g, c, now)
  {
    hide State.WellFormed;
    var valid := Validate(g);
    if !valid { return Err(InvalidGraph); }
    if !c.verified { return Err(UnverifiedConstraint); }
    if exists i :: 0 <= i < |g.constraints| && g.constraints[i].id == c.id { return Err(DuplicateConstraint); }
    var copy := new Copy(g);
    copy.constraints := copy.constraints + [c];
    copy.times := copy.times.(updated := now);
    return Ok(copy.Value());
  }

  /** `parallel_ready_nodes`: a greedy pass over the sorted ready units. */
  method ParallelReadyNodes(g: Snapshot, room: nat) returns (selected: seq<Id>)
    requires room >= 1
    ensures selected == State.ParallelReady(g, room)
  {
    hide State.ReadyNodes, State.ReadyUnits;
    var ready := State.ReadyNodes(g);
    selected := [];
    var owners: set<Json> := {};
    var k := 0;
    while k < |ready|
      invariant k <= |ready| && |selected| < room
      invariant selected + State.Pick(g, ready[k..], owners, room - |selected|) == State.ParallelReady(g, room)
    {
      var u := ready[k];
      assert ready[k..][0] == u && ready[k..][1..] == ready[k + 1..];
      var owner := g.units[u].ownership;
      if owner !in owners {
        selected := selected + [u];
        owners := owners + {owner};
        if |selected| >= room { return; }
      }
      k := k + 1;
    }
  }

  /** `advance_graph` */
  method AdvanceGraph(g: Snapshot, outcomes: map<Id, State.RoundOutcome>, width: Option<int>, now: nat)
    returns (r: Result<Snapshot>)
    ensures r == State.AdvanceGraph(g, outcomes, width, now)
  {
    hide State.WellFormed, State.ParallelReady, State.ApplyOutcomes, State.RefreshCounts, State.RefreshStatus;
    hide State.GuardStep, State.MarkReady;
    var valid := Validate(g);
    if !valid { return Err(InvalidGraph); }
    if g.status == State.GraphAccepted || g.status == State.ConvergedFailed { return Ok(g); }
    if width.Some? && width.value < 1 { return Err(BadParallelism); }
    WellFormedLimits(g);
    var selected := ParallelReadyNodes(g, if width.Some? then width.value else g.limits.maxParallelism);
    var copy := new Copy(g);
    MarkReady(copy, selected);
    copy.RefreshGraphStatus(now);
    if outcomes != map[] {
      var round := ApplyOutcomes(copy.Value(), selected, outcomes, now);
      if round.Err? { return round; }
      copy := new Copy(round.value);
    } else {
      var _ := copy.GuardStep(now, false);
    }
    copy.RefreshCounts();
    copy.RefreshGraphStatus(now);
    return Ok(copy.Value());
  }

  method MarkReady(copy: Copy, selected: seq<Id>)
    modifies copy
    ensures copy.Value() == State.MarkReady(old(copy.Value()), selected)
  {
    copy.counters := copy.counters.(parallelWidth :=
      if copy.counters.parallelWidth < |selected| then |selected| else copy.counters.parallelWidth);
    copy.units := map u | u in copy.units ::
      if u in selected then copy.units[u].(status := State.Ready) else copy.units[u];
  }

  lemma WellFormedLimits(g: Snapshot)
    requires State.WellFormed(g)
    ensures g.limits.maxParallelism >= 1
  {
  }

  /** The loop of a round over the outcomes supplied for the selected units. */
  method ApplyOutcomes(g: Snapshot, selected: seq<Id>, outcomes: map<Id, State.RoundOutcome>, now: nat)
    returns (r: Result<Snapshot>)
    ensures r == State.ApplyOutcomes(g, selected, outcomes, now)
  {
    hide State.CompleteUnit, State.FailUnit, State.RecordAttempt;
    var value := g;
    var k := 0;
    while k < |selected|
      invariant k <= |selected|
      invariant State.ApplyOutcomes(g, selected, outcomes, now) ==
        State.ApplyOutcomes(value, selected[k..], outcomes, now)
    {
      var u := selected[k];
      assert selected[k..][0] == u && selected[k..][1..] == selected[k + 1..];
      if u in outcomes {
        var next: Result<Snapshot>;
        match outcomes[u] {
          case Staged(stage, outcome) => next := RecordUnitAttempt(value, u, stage, outcome, now);
          case Direct(outcome) =>
            if outcome.ok {
              next := CompleteUnit(value, u, outcome.output, now);
            } else {
              next := FailUnit(value, u, State.Reason(outcome.reason), now);
            }
        }
        if next.Err? || next.value.status == State.ConvergedFailed { return next; }
        value := next.value;
      }
      k := k + 1;
    }
    return Ok(value);
  }

  /** `create_graph`: fails exactly on listings that are invalid, cyclic or out of bounds. */
  method CreateGraph(specs: seq<State.UnitSpec>, edges: seq<Edge>, limits: State.Limits,
                     constraints: seq<State.Constraint>, now: nat)
    returns (r: Result<Snapshot>)
    ensures r.Ok? <==> State.ValidSpecs(specs, edges, limits)
    ensures r.Ok? ==> r.value == State.InitialGraph(specs, edges, limits, constraints, now)
  {
    hide State.InitialGraph, ValidListing, Acyclic;
    if !(forall i :: 0 <= i < |specs| ==> State.PolicyOk(specs[i].policy)) { return Err(InvalidGraph); }
    var layout := Normalize(State.Nodes(specs), edges);
    if layout.Err? { return Err(InvalidGraph); }
    assert Elements(layout.value.edges) == AllEdges(State.Nodes(specs), edges);
    var cycles := FindCycles(layout.value);
    if cycles != [] { return Err(DependencyCycle); }
    if !State.LimitsOk(limits) { return Err(InvalidGraph); }
    return Ok(State.InitialGraph(specs, edges, limits, constraints, now));
  }
}
