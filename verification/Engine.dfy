/**
 * The engine itself.  Every public call validates and copies the snapshot it is given, updates
 * the copy in place and returns it, or raises and leaves the caller with the old snapshot.  Each
 * is proved to do what the transition of the same name in `State` says.
 */
module Engine {
  import opened Basics
  import opened Counting
  import opened Cycles
  import opened Dependents
  import opened Digraph
  import opened JsonValues
  import opened Order
  import State
  import opened Topology

  type Snapshot = State.Graph

  /** `_validate_graph_or_raise`: the shape first, then the search for cycles. */
  method Validate(g: Snapshot) returns (ok: bool)
    ensures ok <==> State.WellFormed(g)
  {
    if !State.ShapeOk(g) { return false; }
    BeforeIsTotal();
    EdgeBeforeIsTotal();
    var layout := Layout(Sort(Before, g.units.Keys), Sort(EdgeBefore, State.Arcs(g)));
    assert Within(Elements(layout.edges), Elements(layout.ids)) by {
      forall e | e in State.Arcs(g) ensures e.from in g.units && e.to in g.units {
        if e !in g.edges { assert State.UnitOk(g, e.to); }
      }
    }
    var cycles := FindCycles(layout);
    return cycles == [];
  }

  /** The units that wait for `u`, by identifier. */
  function DependentsOfUnits(g: Snapshot): (dependents: map<Id, seq<Id>>)
    ensures dependents.Keys == g.units.Keys
    ensures forall u, v :: u in dependents ==> (v in dependents[u] <==> v in g.units && Edge(u, v) in State.Arcs(g))
    ensures Within(State.Arcs(g), g.units.Keys) ==> DependentsOf(State.Arcs(g), g.units.Keys, dependents)
  {
    BeforeIsTotal();
    map u | u in g.units :: Sort(Before, set v | v in g.units && Edge(u, v) in State.Arcs(g))
  }

  /** Counts statuses and attempts in one pass over the units. */
  method Tally(units: map<Id, State.Unit>)
    returns (isAccepted: nat, isFailed: nat, isReopened: nat, isInvalidated: nat, attempts: nat)
    ensures isAccepted == |State.WithStatus(units, State.Accepted)|
    ensures isFailed == |State.WithStatus(units, State.Failed)|
    ensures isReopened == |State.WithStatus(units, State.Reopened)|
    ensures isInvalidated == |State.WithStatus(units, State.Invalidated)| && attempts == State.TotalAttempts(units)
  {
    hide State.TotalAttempts, State.WithStatus, Before, StrictTotal, Ascending, Among;
    BeforeIsTotal();
    var ids := Sort(Before, units.Keys);
    isAccepted, isFailed, isReopened, isInvalidated, attempts := 0, 0, 0, 0, 0;
    NothingCounted(units);
    assert ids[..0] == [];
    for k := 0 to |ids|
      invariant isAccepted == |State.WithStatus(Among(units, ids[..k]), State.Accepted)|
      invariant isFailed == |State.WithStatus(Among(units, ids[..k]), State.Failed)|
      invariant isReopened == |State.WithStatus(Among(units, ids[..k]), State.Reopened)|
      invariant isInvalidated == |State.WithStatus(Among(units, ids[..k]), State.Invalidated)|
      invariant attempts == State.TotalAttempts(Among(units, ids[..k]))
    {
      NextAmong(units, ids, k);
      OneCounted(Among(units, ids[..k]), ids[k], units[ids[k]]);
      match units[ids[k]].status {
        case Accepted => isAccepted := isAccepted + 1;
        case Failed => isFailed := isFailed + 1;
        case Reopened => isReopened := isReopened + 1;
        case Invalidated => isInvalidated := isInvalidated + 1;
        case _ =>
      }
      attempts := attempts + units[ids[k]].attempts.Total();
    }
    AllAmong(units, ids);
  }

  /** The units among the identifiers counted so far. */
  ghost function Among(units: map<Id, State.Unit>, ids: seq<Id>): map<Id, State.Unit> {
    map u | u in units && u in ids :: units[u]
  }

  lemma NextAmong(units: map<Id, State.Unit>, ids: seq<Id>, k: nat)
    requires Ascending(Before, ids) && (forall u :: u in ids <==> u in units) && k < |ids|
    ensures ids[k] in units && ids[k] !in Among(units, ids[..k])
    ensures Among(units, ids[..k + 1]) == Among(units, ids[..k])[ids[k] := units[ids[k]]]
  {
    BeforeIsTotal();
    assert ids[k] in ids;
    forall j | 0 <= j < k ensures ids[j] != ids[k] { assert Before(ids[j], ids[k]); }
    assert ids[..k + 1] == ids[..k] + [ids[k]];
  }

  lemma AllAmong(units: map<Id, State.Unit>, ids: seq<Id>)
    requires forall u :: u in ids <==> u in units
    ensures Among(units, ids[..|ids|]) == units
  {
    assert ids[..|ids|] == ids;
  }

  /** A private copy of a snapshot, updated in place. */
  class Copy {
    const edges: set<Edge>
    const limits: State.Limits
    var units: map<Id, State.Unit>
    var status: State.GraphStatus
    var accepted: map<Id, Json>
    var failed: map<Id, State.FailureNote>
    var working: map<Id, Json>
    var counters: State.Counters
    var times: State.Times
    var failureReason: Option<State.ConvergenceReason>
    var sendBacks: nat
    var constraints: seq<State.Constraint>

    function Value(): Snapshot
      reads this
    {
      State.Graph(units, edges, status, accepted, failed, working, limits, counters, times,
        failureReason, sendBacks, constraints)
    }

    constructor (g: Snapshot)
      ensures Value() == g
    {
      edges, limits, units, status := g.edges, g.limits, g.units, g.status;
      accepted, failed, working := g.accepted, g.failed, g.working;
      counters, times, failureReason := g.counters, g.times, g.failureReason;
      sendBacks, constraints := g.sendBacks, g.constraints;
    }

    method MarkConvergenceFailed(reason: State.ConvergenceReason, now: nat)
      modifies this
      ensures Value() == State.MarkConverged(old(Value()), reason, now)
    {
      status := State.ConvergedFailed;
      failureReason := Some(reason);
      times := times.(updated := now, ended := Some(now));
    }

    method GuardStep(now: nat, childRun: bool) returns (ok: bool)
      modifies this
      ensures Value() == State.GuardStep(old(Value()), now, childRun)
      ensures ok <==> State.MayStep(old(Value()), now, childRun)
    {
      if status == State.ConvergedFailed { return false; }
      var nextStep := counters.graphSteps + 1;
      if nextStep > limits.maxGraphSteps {
        MarkConvergenceFailed(State.MaxGraphSteps, now);
        return false;
      }
      if childRun {
        var nextRun := counters.totalChildRuns + 1;
        if nextRun > limits.maxTotalChildRuns {
          MarkConvergenceFailed(State.MaxTotalChildRuns, now);
          return false;
        }
        counters := counters.(totalChildRuns := nextRun);
      }
      counters := counters.(graphSteps := nextStep);
      times := times.(updated := now);
      if limits.maxWallTime.Some? && now - times.started > limits.maxWallTime.value {
        MarkConvergenceFailed(State.MaxWallTime, now);
        return false;
      }
      return true;
    }

    method RefreshCounts()
      modifies this`counters
      ensures Value() == State.RefreshCounts(old(Value())) && units == old(units)
    {
      hide State.TotalAttempts, State.WithStatus;
      var isAccepted, isFailed, isReopened, isInvalidated, attempts := Tally(units);
      counters := counters.(acceptedUnits := isAccepted, failedUnits := isFailed, reopenedUnits := isReopened,
                            invalidatedUnits := isInvalidated, attempts := attempts);
    }

    method RefreshGraphStatus(now: nat)
      modifies this
      ensures Value() == State.RefreshStatus(old(Value()), now)
    {
      if status == State.ConvergedFailed { return; }
      if forall u :: u in units ==> units[u].status == State.Accepted {
        status := State.GraphAccepted;
        times := times.(updated := now, ended := Some(now));
      } else if exists u :: u in units && units[u].status == State.Failed {
        status := State.RetryPending;
      } else if exists u :: u in units && State.IsOpen(units[u].status) {
        status := State.GraphRunning;
      } else {
        status := State.Stalled;
      }
    }

    /** One turn of the loop over the affected units. */
    method ReopenUnit(v: Id)
      requires v in units
      modifies this
      ensures units == old(units)[v := old(units)[v].(status := State.Reopened)]
      ensures accepted == if old(units)[v].status == State.Accepted then old(accepted) - {v} else old(accepted)
      ensures failed == old(failed) - {v} && working == old(working) - {v}
      ensures Value() == old(Value()).(units := units, accepted := accepted, failed := failed, working := working)
    {
      if units[v].status == State.Accepted { accepted := accepted - {v}; }
      working := working - {v};
      failed := failed - {v};
      units := units[v := units[v].(status := State.Reopened)];
    }

    /** Reopens, one by one, everything downstream of `u`. */
    method AffectedDependents(u: Id)
      requires u in units && State.ShapeOk(Value())
      modifies this
      ensures Value() == State.Reopen(old(Value()), u)
    {
      hide State.ShapeOk, Downstream, State.Arcs, DependentsOfUnits, ReopenedSoFar, Distinct, Elements, State.Reopen;
      ghost var g := Value();
      ArcsWithin(g);
      var affected := TransitiveDependents(DependentsOfUnits(Value()), u, State.Arcs(g), g.units.Keys);
      NothingReopened(g);
      for k := 0 to |affected|
        invariant Value() == g.(units := units, accepted := accepted, failed := failed, working := working)
        invariant ReopenedSoFar(g, Value(), Elements(affected[..k]))
      {
        NextAffected(g, Value(), affected, k, u);
        ghost var h := Value();
        ReopenUnit(affected[k]);
        ReopenOne(g, h, Value(), Elements(affected[..k]), affected[k]);
      }
      assert affected[..|affected|] == affected;
      AllReopened(g, Value(), u);
    }

    /** The branch shared by every recorded failure. */
    method Reject(u: Id, note: State.FailureNote)
      requires u in units && State.ShapeOk(Value())
      modifies this
      ensures Value() == State.Reject(old(Value()), u, note)
    {
      hide State.Reopen, State.RefreshCounts, State.ShapeOk;
      ghost var g := Value();
      FailedShape(g, u, note);
      units := units[u := units[u].(status := State.Failed)];
      failed := failed[u := note];
      accepted := accepted - {u};
      working := working - {u};
      assert Value() == State.SetFailed(g, u, note);
      AffectedDependents(u);
      ghost var r := Value();
      status := State.RetryPending;
      counters := counters.(retries := counters.retries + 1);
      sendBacks := sendBacks + 1;
      assert Value() == r.(status := State.RetryPending, sendBacks := r.sendBacks + 1,
                           counters := r.counters.(retries := r.counters.retries + 1));
      RefreshCounts();
    }
  }

  lemma NothingReopened(g: Snapshot)
    ensures ReopenedSoFar(g, g, Elements([]))
  {
    assert Elements<Id>([]) == {};
  }

  lemma NextAffected(g: Snapshot, h: Snapshot, affected: seq<Id>, k: nat, u: Id)
    requires k < |affected| && Distinct(affected)
    requires Elements(affected) == Downstream(State.Arcs(g), g.units.Keys, u)
    requires ReopenedSoFar(g, h, Elements(affected[..k]))
    ensures affected[k] in g.units && affected[k] in h.units && affected[k] !in Elements(affected[..k])
    ensures Elements(affected[..k + 1]) == Elements(affected[..k]) + {affected[k]}
  {
    hide Reaches;
    assert affected[k] in Elements(affected);
    assert affected[..k + 1] == affected[..k] + [affected[k]];
  }

  lemma ArcsWithin(g: Snapshot)
    requires State.ShapeOk(g)
    ensures Within(State.Arcs(g), g.units.Keys)
  {
    forall e | e in State.Arcs(g) ensures e.from in g.units && e.to in g.units {
      if e !in g.edges { assert State.UnitOk(g, e.to); }
    }
  }

  lemma NothingCounted(units: map<Id, State.Unit>)
    ensures State.TotalAttempts(Among(units, [])) == 0 && forall s :: |State.WithStatus(Among(units, []), s)| == 0
  {
    assert Among(units, []) == map[];
  }

  lemma OneCounted(seen: map<Id, State.Unit>, u: Id, unit: State.Unit)
    requires u !in seen
    ensures State.TotalAttempts(seen[u := unit]) == State.TotalAttempts(seen) + unit.attempts.Total()
    ensures forall s ::
      |State.WithStatus(seen[u := unit], s)| == |State.WithStatus(seen, s)| + if unit.status == s then 1 else 0
  {
    hide State.TotalAttempts;
    TotalSplits(seen[u := unit], u);
    assert seen[u := unit] - {u} == seen;
    forall s
      ensures |State.WithStatus(seen[u := unit], s)| == |State.WithStatus(seen, s)| + if unit.status == s then 1 else 0
    {
      if unit.status == s {
        assert State.WithStatus(seen[u := unit], s) == State.WithStatus(seen, s) + {u};
      } else {
        assert State.WithStatus(seen[u := unit], s) == State.WithStatus(seen, s);
      }
    }
  }

  /** `h` is `g` with the units in `done` reopened. */
  ghost predicate ReopenedSoFar(g: Snapshot, h: Snapshot, done: set<Id>) {
    && done <= g.units.Keys
    && h.units == (map v | v in g.units :: if v in done then g.units[v].(status := State.Reopened) else g.units[v])
    && h.accepted == g.accepted - (set v | v in done && g.units[v].status == State.Accepted)
    && h.failed == g.failed - done && h.working == g.working - done
  }

  lemma ReopenOne(g: Snapshot, h: Snapshot, k: Snapshot, done: set<Id>, v: Id)
    requires ReopenedSoFar(g, h, done) && v in g.units && v !in done && v in h.units
    requires k.units == h.units[v := h.units[v].(status := State.Reopened)]
    requires k.accepted == if h.units[v].status == State.Accepted then h.accepted - {v} else h.accepted
    requires k.failed == h.failed - {v} && k.working == h.working - {v}
    ensures ReopenedSoFar(g, k, done + {v})
  {
    assert h.units[v] == g.units[v];
  }

  lemma AllReopened(g: Snapshot, h: Snapshot, u: Id)
    requires h == g.(units := h.units, accepted := h.accepted, failed := h.failed, working := h.working)
    requires ReopenedSoFar(g, h, Downstream(State.Arcs(g), g.units.Keys, u))
    ensures h == State.Reopen(g, u)
  {
  }

  lemma FailedShape(g: Snapshot, u: Id, note: State.FailureNote)
    requires u in g.units && State.ShapeOk(g)
    ensures State.ShapeOk(State.SetFailed(g, u, note))
  {
    hide State.PolicyOk, NodeOk;
    var f := State.SetFailed(g, u, note);
    assert |f.units| == |f.units.Keys| == |g.units.Keys| == |g.units|;
    forall v | v in f.units ensures State.UnitOk(f, v) { assert State.UnitOk(g, v); }
  }
}
