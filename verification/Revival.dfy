/**
 * A graph that has stopped converging need not stay so.  Two calls do not ask: finalizing one
 * whose units are all accepted, and retrying a failed unit that has attempts left.
 */
module Revival {
  import opened Basics
  import opened CriticalPath
  import opened Digraph
  import opened Frame
  import opened Invariants
  import opened JsonValues
  import opened Locality
  import opened Rounds
  import opened Safety
  import opened Samples
  import opened State
  import opened Termination
  import opened Topology

  /** The calls that look past a failure to converge. */
  predicate Revives(g: Graph, call: Call) {
    || (call.Finalize? && AllAccepted(g))
    || (call.Retry? && call.unit in g.units && g.units[call.unit].status == Failed && !Exhausted(g, g.units[call.unit]))
  }

  /**
   * A failure to converge is undone by exactly these calls, which make the graph accepted and
   * open to further steps respectively; any other call leaves the snapshot as it is, up to times,
   * the recorded reason and the list of constraints.
   */
  lemma RevivedIff(g: Graph, call: Call, now: nat)
    requires Invariant(g) && g.status == ConvergedFailed
    ensures After(g, call, now).status != ConvergedFailed <==> Revives(g, call)
    ensures Revives(g, call) && call.Finalize? ==> After(g, call, now).status == GraphAccepted
    ensures Revives(g, call) && call.Retry? ==> After(g, call, now).status == RetryPending
    ensures !Revives(g, call) ==> Unmoved(g, After(g, call, now))
  {
    hide Conforms, DependencyReady, Acyclic, ShapeOk, StatusesOk, OutputsOk, Budgets, Exact, Exhausted, RefreshCounts;
    match call
    case Retry(u) =>
      if u in g.units {
        RefreshCountsOnly(g.(units := g.units[u := g.units[u].(status := Reopened)], failed := g.failed - {u},
                             status := RetryPending, times := g.times.(updated := now)));
      }
    case Complete(_, _) =>
    case Fail(_, _) =>
    case Record(_, _, _) =>
    case Advance(_, _) =>
    case Finalize =>
    case AddConstraint(_) =>
  }

  ghost predicate Unmoved(g: Graph, h: Graph) {
    h == g.(times := h.times, failureReason := h.failureReason, constraints := h.constraints)
  }

  // ---------------------------------------------------------------- it happens

  const ONLY: seq<UnitSpec> := [Plain("a", [], Null)]
  const ONE_STEP := Limits(10, 1, 10, None, 1)

  ghost function Start(): Graph { InitialGraph(ONLY, [], ONE_STEP, [], 0) }

  lemma OnlyValid()
    ensures ValidSpecs(ONLY, [], ONE_STEP) && Ids(Nodes(ONLY)) == {"a"}
  {
    var nodes := Nodes(ONLY);
    assert nodes == [Node("a", [])] && nodes[0].id == "a";
    assert AllEdges(nodes, []) == {};
    NoEdgeDepth({"a"});
  }

  lemma StartShape()
    ensures Invariant(Start()) && Reachable(Start()) && Start().units.Keys == {"a"} && Start().limits == ONE_STEP
    ensures Start().units["a"].policy == NO_POLICY && Start().units["a"].attempts == Attempts(0, 0, 0)
    ensures Start().status == GraphPending && Start().counters.graphSteps == 0 && Start().counters.totalChildRuns == 0
  {
    hide InitialGraph, ValidSpecs, InitialUnits, Invariant, Reachable;
    OnlyValid();
    InitialInvariant(ONLY, [], ONE_STEP, [], 0);
    StartReachable(ONLY, [], ONE_STEP, [], 0);
    InitialShape(ONLY, [], ONE_STEP, [], 0);
    PlainContracts(ONLY);
    InitialUnitsOk(ONLY, [], ONE_STEP);
    assert "a" in InitialUnits(ONLY);
  }

  /** With all steps spent, the next call stops the graph and leaves its units. */
  lemma StepsSpent(g: Graph, u: Id, note: FailureNote)
    requires Invariant(g) && g.status != ConvergedFailed && g.counters.graphSteps == g.limits.maxGraphSteps
    ensures var h := After(g, Fail(u, note), 0);
      h.status == ConvergedFailed && h.units == g.units && h.limits == g.limits
  {
    hide ShapeOk, Acyclic, StatusesOk, OutputsOk, StatusSound, Exact;
  }

  /** The snapshot after the only unit has failed once, with the one step the limits allow. */
  ghost function Failing(): Graph { After(Start(), Fail("a", SchemaInvalid), 0) }

  lemma FailingShape()
    ensures Invariant(Failing()) && Reachable(Failing()) && Failing().status == RetryPending
    ensures "a" in Failing().units && Failing().units["a"].status == Failed
    ensures !Exhausted(Failing(), Failing().units["a"])
    ensures Failing().counters.graphSteps == Failing().limits.maxGraphSteps
  {
    hide Start, Invariant, Reachable, FailUnit, FailsLocally;
    StartShape();
    var g := Start();
    ReachableInvariant(g);
    StepReachable(g, Fail("a", SchemaInvalid), 0);
    FirstFailure(g);
    ReachableInvariant(Failing());
  }

  lemma FirstFailure(g: Graph)
    requires Invariant(g) && "a" in g.units && g.limits == ONE_STEP && g.units["a"].policy == NO_POLICY
    requires g.units["a"].attempts == Attempts(0, 0, 0) && g.status == GraphPending
    requires g.counters.graphSteps == 0 && g.counters.totalChildRuns == 0
    ensures FailUnit(g, "a", SchemaInvalid, 0).Ok?
    ensures var h := FailUnit(g, "a", SchemaInvalid, 0).value;
      && h.status == RetryPending && h.counters.graphSteps == 1 && h.limits == ONE_STEP
      && "a" in h.units && h.units["a"].status == Failed && !Exhausted(h, h.units["a"])
  {
    hide ShapeOk, Acyclic, StatusesOk, OutputsOk, Budgets, StatusSound, Exact, Reject, SetAttempts;
    var attempts := g.units["a"].attempts.BumpCheck();
    StepsCounted(g, "a", SchemaInvalid, Null, attempts, 0);
    FailEffect(g, "a", SchemaInvalid, 0);
  }

  /** A failed unit brings a graph without steps left back into play. */
  lemma RetryHappens()
    ensures exists g, u, now ::
      Reachable(g) && g.status == ConvergedFailed && After(g, Retry(u), now).status == RetryPending
  {
    hide Failing, Invariant, Reachable, After, Exhausted, Start;
    FailingShape();
    var g := After(Failing(), Fail("a", SchemaInvalid), 0);
    StepsSpent(Failing(), "a", SchemaInvalid);
    StepReachable(Failing(), Fail("a", SchemaInvalid), 0);
    ReachableInvariant(g);
    StillExhausted(Failing(), g, "a");
    RevivedIff(g, Retry("a"), 0);
    assert Reachable(g) && g.status == ConvergedFailed && After(g, Retry("a"), 0).status == RetryPending;
  }

  lemma StillExhausted(g: Graph, h: Graph, u: Id)
    requires h.units == g.units && h.limits == g.limits && u in g.units
    ensures Exhausted(g, g.units[u]) <==> Exhausted(h, h.units[u])
  {
  }

  /** The snapshot after one round in which the only unit is accepted. */
  ghost function Finished(): Graph { AfterRounds(Start(), PlainRounds({"a"}, 1), None) }

  lemma FinishedShape()
    ensures Invariant(Finished()) && Reachable(Finished())
    ensures AllAccepted(Finished()) && Finished().status == GraphAccepted
    ensures Finished().counters.graphSteps == Finished().limits.maxGraphSteps
  {
    hide InitialGraph, ValidSpecs, AfterRounds, Invariant, Loose, AllAccepted, GoodRounds, Acyclic, CriticalPathLength;
    hide DependencyEdges, AcceptedSet, Reachable;
    var rounds := PlainRounds({"a"}, 1);
    OnlyValid();
    PlainRoundsGood(ONLY, [], ONE_STEP, 1, None);
    FinishesBetween(ONLY, [], ONE_STEP, [], 0, rounds, None);
    FreshIsSmooth(ONLY, [], ONE_STEP, [], 0);
    RoundsSmooth(Start(), rounds, None);
    SmoothStatus(Finished());
    StartShape();
    RoundsReachable(Start(), rounds, None);
    OnlyAccepted(Start(), Finished());
  }

  lemma OnlyAccepted(g: Graph, h: Graph)
    requires SameFrame(g, h) && g.units.Keys == {"a"} && g.limits == ONE_STEP && AllAccepted(h) && Smooth(h)
    ensures h.counters.graphSteps == h.limits.maxGraphSteps
  {
    hide Loose;
    assert AcceptedSet(h) == {"a"};
  }

  /** Finalizing brings a graph back whose units were all accepted before it stopped. */
  lemma FinalizeHappens()
    ensures exists g, now ::
      Reachable(g) && g.status == ConvergedFailed && After(g, Finalize, now).status == GraphAccepted
  {
    hide Finished, Invariant, Reachable, After, Start, AllAccepted;
    FinishedShape();
    var g := After(Finished(), Fail("a", SchemaInvalid), 0);
    StepsSpent(Finished(), "a", SchemaInvalid);
    StepReachable(Finished(), Fail("a", SchemaInvalid), 0);
    ReachableInvariant(g);
    assert AllAccepted(g) by { SameUnitsAccepted(Finished(), g); }
    RevivedIff(g, Finalize, 0);
    assert Reachable(g) && g.status == ConvergedFailed && After(g, Finalize, 0).status == GraphAccepted;
  }

  lemma SameUnitsAccepted(g: Graph, h: Graph)
    requires h.units == g.units && AllAccepted(g)
    ensures AllAccepted(h)
  {
  }
}
