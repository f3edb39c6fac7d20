/**
 * Two calls that do something and leave no trace in a budget: a completion whose output does not
 * fit counts no attempt, and a round whose outcomes are for other units counts no step.
 */
module Uncounted {
  import opened Basics
  import opened Calls
  import opened CriticalPath
  import opened Digraph
  import opened Frame
  import opened Invariants
  import opened JsonValues
  import opened Locality
  import opened Progress
  import opened Safety
  import opened Samples
  import opened Selection
  import opened State
  import opened Topology

  /** A unit whose output, where it is a number, is at least one. */
  const POSITIVE := Schema(None, None, None, None, None, None, Some(1.0), None, [], map[], Anything, Unconstrained)
  const PICKY: seq<UnitSpec> := [UnitSpec(Node("a", []), Null, POSITIVE, NO_POLICY)]

  ghost function Start(): Graph { InitialGraph(PICKY, [], ROOMY, [], 0) }

  lemma PickyValid()
    ensures ValidSpecs(PICKY, [], ROOMY) && Ids(Nodes(PICKY)) == {"a"} && AllEdges(Nodes(PICKY), []) == {}
  {
    var nodes := Nodes(PICKY);
    assert nodes == [Node("a", [])] && nodes[0].id == "a";
    assert AllEdges(nodes, []) == {};
    NoEdgeDepth({"a"});
  }

  lemma StartShape()
    ensures Reachable(Start()) && Invariant(Start()) && Arcs(Start()) == {}
    ensures Start().units.Keys == {"a"} && Start().limits == ROOMY && Start().status == GraphPending
    ensures var unit := Start().units["a"];
      unit.policy == NO_POLICY && unit.schema == POSITIVE &&
      unit.attempts == Attempts(0, 0, 0) && unit.status == Pending
    ensures Start().counters.graphSteps == 0 && Start().counters.totalChildRuns == 0
  {
    hide InitialGraph, ValidSpecs, InitialUnits, Invariant, Reachable, Arcs;
    PickyValid();
    StartReachable(PICKY, [], ROOMY, [], 0);
    ReachableInvariant(Start());
    InitialShape(PICKY, [], ROOMY, [], 0);
    InitialArcs(PICKY, [], ROOMY, [], 0);
    InitialUnitsOk(PICKY, [], ROOMY);
    assert "a" in InitialUnits(PICKY);
    var i :| 0 <= i < |PICKY| && InitialUnits(PICKY)["a"] == InitialUnit(PICKY[i]);
  }

  /** A rejected output fails the unit and takes a child run, and its attempts are what they were. */
  lemma UnfitHappens()
    ensures exists g, u, output, now :: Reachable(g) && RejectedUncounted(g, u, After(g, Complete(u, output), now))
  {
    hide Start, Invariant, Reachable, FailsLocally, AcceptsLocally, WellFormed, OutputsOk;
    hide MayStep, Exhausted, After, Arcs;
    StartShape();
    var g := Start();
    MayStart(g, "a");
    StartKnown();
    UnfitAccepted(g, "a", Int(0));
    assert Reachable(g) && RejectedUncounted(g, "a", After(g, Complete("a", Int(0)), 0));
  }

  ghost predicate RejectedUncounted(g: Graph, u: Id, h: Graph) {
    && u in g.units && u in h.units && g.units[u].status != Failed && h.units[u].status == Failed
    && h.units[u].attempts == g.units[u].attempts
    && h.counters.totalChildRuns == g.counters.totalChildRuns + 1
  }

  lemma MayStart(g: Graph, u: Id)
    requires u in g.units && g.limits == ROOMY && g.units[u].policy == NO_POLICY
    requires g.units[u].attempts == Attempts(0, 0, 0) && g.status == GraphPending
    requires g.counters.graphSteps == 0 && g.counters.totalChildRuns == 0
    ensures MayStep(g, 0, true) && !Exhausted(g, g.units[u])
  {
    assert AttemptLimit(g, g.units[u]) == 10;
  }

  lemma StartKnown()
    ensures WellFormed(Start()) && OutputsOk(Start())
  {
    hide Start, WellFormed, OutputsOk, Budgets, StatusSound, Exact, StatusesOk;
    StartShape();
  }

  lemma UnfitAccepted(g: Graph, u: Id, output: Json)
    requires MayStep(g, 0, true) && WellFormed(g) && OutputsOk(g) && u in g.units && g.units[u].status == Pending
    requires !Exhausted(g, g.units[u]) && Arcs(g) == {} && !Conforms(output, g.units[u].schema)
    ensures RejectedUncounted(g, u, After(g, Complete(u, output), 0))
  {
    hide WellFormed, OutputsOk, Conforms, Arcs, Downstream, RefreshCounts;
    assert CompleteUnit(g, u, output, 0).Ok?;
    CompleteEffect(g, u, output, 0);
    RejectRuns(CountStep(g, 0, true), u);
  }

  lemma RejectRuns(g: Graph, u: Id)
    requires u in g.units
    ensures Reject(g, u, SchemaInvalid).counters.totalChildRuns == g.counters.totalChildRuns
  {
    hide RefreshCounts, Downstream;
    RefreshCountsOnly(Reopen(SetFailed(g, u, SchemaInvalid), u).(status := RetryPending,
      counters := g.counters.(retries := g.counters.retries + 1), sendBacks := g.sendBacks + 1));
  }

  // ---------------------------------------------------------------- rounds

  lemma {:induction false} NothingApplied(g: Graph, selected: seq<Id>, outcomes: map<Id, RoundOutcome>, now: nat)
    requires !SomeOutcome(selected, outcomes)
    ensures ApplyOutcomes(g, selected, outcomes, now) == Ok(g)
    decreases |selected|
  {
    if selected != [] {
      assert selected[0] in selected;
      NothingApplied(g, selected[1..], outcomes, now);
    }
  }

  lemma SomethingSelected(g: Graph)
    requires Reachable(g) && g.units.Keys == {"a"} && g.units["a"].status == Pending && g.limits == ROOMY
    ensures ParallelReady(g, g.limits.maxParallelism) != []
    ensures forall u :: u in ParallelReady(g, g.limits.maxParallelism) ==> u == "a"
  {
    hide Reachable, ParallelReady, DependencyReady;
    assert "a" in g.units;
    NoDeadlock(g, 1);
    ParallelIsReady(g, 1);
  }

  /** A round that selects a unit and is handed an outcome for another one spends nothing. */
  lemma IdleRoundHappens()
    ensures exists g, outcomes, now ::
      && Reachable(g) && outcomes != map[] && ParallelReady(g, g.limits.maxParallelism) != []
      && AdvanceGraph(g, outcomes, None, now).Ok? && !Spent(g, After(g, Advance(outcomes, None), now))
  {
    hide Start, Invariant, Reachable, ParallelReady, ApplyOutcomes, Spent, MarkReady, RefreshStatus, Refresh;
    hide WellFormed, OutputsOk, Arcs;
    StartShape();
    var g := Start();
    StartKnown();
    var outcomes := map["b" := Direct(FINE)];
    assert "b" in outcomes;
    var selected := ParallelReady(g, g.limits.maxParallelism);
    SomethingSelected(g);
    assert "a" != "b" by { assert "a"[0] != "b"[0]; }
    assert !SomeOutcome(selected, outcomes);
    NothingApplied(RefreshStatus(MarkReady(g, selected), 0), selected, outcomes, 0);
    RoundSpendsIff(g, outcomes, None, 0);
    assert Reachable(g) && outcomes != map[] && ParallelReady(g, g.limits.maxParallelism) != []
      && AdvanceGraph(g, outcomes, None, 0).Ok? && !Spent(g, After(g, Advance(outcomes, None), 0));
  }
}
