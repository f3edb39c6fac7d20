/**
 * The exception to dependency closure does come about: with two accepted units, one depending on
 * the other, a successful produce on the first leaves an accepted unit over an unaccepted one.
 */
module Demotion {
  import opened Basics
  import opened Closure
  import opened Counting
  import opened CriticalPath
  import opened Digraph
  import opened Frame
  import opened Freshness
  import opened Invariants
  import opened JsonValues
  import opened Rounds
  import opened Safety
  import opened Samples
  import opened State
  import opened Topology

  const FIRST := Plain("a", [], Null)
  const SECOND := Plain("b", ["a"], Null)
  const PAIR: seq<UnitSpec> := [FIRST, SECOND]

  ghost function Start(): Graph { InitialGraph(PAIR, [], ROOMY, [], 0) }

  /** The graph after two rounds in which every unit succeeds. */
  ghost function Done(): Graph { AfterRounds(Start(), PlainRounds({"a", "b"}, 2), None) }

  lemma PairEdges()
    ensures Nodes(PAIR) == [Node("a", []), Node("b", ["a"])]
    ensures Ids(Nodes(PAIR)) == {"a", "b"} && AllEdges(Nodes(PAIR), []) == {Edge("a", "b")}
  {
    var nodes := Nodes(PAIR);
    assert nodes == [Node("a", []), Node("b", ["a"])];
    assert nodes[0].id == "a" && nodes[1].id == "b";
    forall e | e in DependencyEdges(nodes) ensures e == Edge("a", "b") {
      var i, d :| 0 <= i < |nodes| && d in nodes[i].dependencies && e == Edge(d, nodes[i].id);
    }
    assert "a" in nodes[1].dependencies && Edge("a", "b") in DependencyEdges(nodes);
  }

  lemma PairValid()
    ensures ValidSpecs(PAIR, [], ROOMY)
  {
    PairEdges();
    OneEdgeAcyclic("a", "b");
  }

  lemma StartUnits()
    ensures Start().units.Keys == {"a", "b"} && Start().limits == ROOMY && Arcs(Start()) == {Edge("a", "b")}
    ensures forall u :: u in Start().units ==> Start().units[u].policy == NO_POLICY
  {
    hide InitialGraph, ValidSpecs, InitialUnits, Arcs, AllEdges, Nodes, Ids;
    PairEdges();
    PairValid();
    PairPlain();
    var specs := PAIR;
    InitialShape(specs, [], ROOMY, [], 0);
    InitialArcs(specs, [], ROOMY, [], 0);
    PlainContracts(specs);
  }

  lemma PairPlain()
    ensures AllPlain(PAIR)
  {
  }

  /** After two rounds of successes both units are accepted. */
  lemma DoneAccepted()
    ensures SameFrame(Start(), Done()) && Invariant(Done()) && Smooth(Done()) && AllAccepted(Done())
  {
    hide InitialGraph, ValidSpecs, AfterRounds, Invariant, Smooth, AllAccepted, GoodRounds, Acyclic, CriticalPathLength;
    hide DependencyEdges;
    var rounds := PlainRounds({"a", "b"}, 2);
    PairEdges();
    PairValid();
    PlainRoundsGood(PAIR, [], ROOMY, 2, None);
    FinishesBetween(PAIR, [], ROOMY, [], 0, rounds, None);
    FreshIsSmooth(PAIR, [], ROOMY, [], 0);
    RoundsSmooth(Start(), rounds, None);
    SmoothStatus(Done());
  }

  /** Most of the budgets are left. */
  lemma DoneBudgets()
    ensures Done().status != ConvergedFailed && Done().counters.graphSteps == 2 && Done().counters.totalChildRuns == 2
  {
    hide Done, Start, Invariant, Loose, AllAccepted, AcceptedSet;
    DoneAccepted();
    StartUnits();
    AllAcceptedSet(Done());
    AcceptedWithin(Done());
    assert AcceptedSet(Done()) == Done().units.Keys;
    FrameKeys(Start(), Done());
    assert |{"a", "b"}| == 2 by { assert "a"[0] != "b"[0]; }
  }

  lemma AcceptedWithin(g: Graph)
    ensures AcceptedSet(g) <= g.units.Keys
  {
  }

  lemma FewAttempts(h: Graph, u: Id)
    requires Invariant(h) && u in h.units
    ensures h.units[u].attempts.Total() <= h.counters.totalChildRuns
  {
    hide WellFormed, StatusesOk, OutputsOk, StatusSound, Exact, UnitBudget, TotalAttempts;
    TotalSplits(h.units, u);
  }

  lemma DemotionUnderDependent()
    ensures exists g, call, now :: Reachable(g) && Closed(g) && !Closed(After(g, call, now))
  {
    hide Done, Start, Smooth, Invariant, Reachable, Closed, After, Demotes, HasAcceptedDependent, SameFrame;
    hide AllAccepted;
    var call := Record("a", Produce, FINE);
    DoneAccepted();
    DoneBudgets();
    DoneReachable();
    EverythingAcceptedClosed(Done());
    CallDemotes(Done());
    StepClosed(Done(), call, 0);
    assert Reachable(Done()) && Closed(Done()) && !Closed(After(Done(), call, 0));
  }

  /** The same call leaves the output of a unit that is no longer accepted among the accepted ones. */
  lemma StaleOutputHappens()
    ensures exists g, call, now :: Reachable(g) && Fresh(g) && !Fresh(After(g, call, now))
  {
    hide Done, Start, Smooth, Invariant, Reachable, Fresh, After, Demotes, HasAcceptedDependent, SameFrame;
    hide AllAccepted, DependencyReady;
    var call := Record("a", Produce, FINE);
    DoneAccepted();
    DoneBudgets();
    DoneReachable();
    EverythingAcceptedFresh(Done());
    CallDemotes(Done());
    EverythingAcceptedReady(Done(), "a");
    StepFresh(Done(), call, 0);
    assert Reachable(Done()) && Fresh(Done()) && !Fresh(After(Done(), call, 0));
  }

  lemma EverythingAcceptedFresh(h: Graph)
    requires Invariant(h) && AllAccepted(h)
    ensures Fresh(h)
  {
    hide WellFormed, Budgets, StatusSound, Exact, Conforms;
  }

  lemma EverythingAcceptedReady(h: Graph, u: Id)
    requires Invariant(h) && AllAccepted(h)
    ensures DependencyReady(h, u)
  {
    forall e | e in Arcs(h) ensures e.from in h.units {
      ArcEnds(h, e);
    }
  }

  lemma EverythingAcceptedClosed(h: Graph)
    requires Invariant(h) && AllAccepted(h)
    ensures Closed(h)
  {
    forall e | e in Arcs(h) ensures e.from in h.units {
      ArcEnds(h, e);
    }
  }

  lemma CallDemotes(h: Graph)
    requires SameFrame(Start(), h) && Invariant(h) && AllAccepted(h) && h.status != ConvergedFailed
    requires h.counters.graphSteps == 2 && h.counters.totalChildRuns == 2
    ensures Demotes(h, Record("a", Produce, FINE), 0) && HasAcceptedDependent(h, "a")
  {
    hide Invariant, Start;
    StartUnits();
    FrameArcs(Start(), h);
    assert "a" in h.units && "b" in h.units;
    assert SameContract(Start().units["a"], h.units["a"]);
    FewAttempts(h, "a");
    assert AttemptLimit(h, h.units["a"]) == 10;
    assert Edge("a", "b") in Arcs(h);
  }

  lemma DoneReachable()
    ensures Reachable(Done())
  {
    hide InitialGraph, ValidSpecs, Reachable;
    PairValid();
    StartReachable(PAIR, [], ROOMY, [], 0);
    RoundsReachable(Start(), PlainRounds({"a", "b"}, 2), None);
  }
}
