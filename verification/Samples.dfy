/** Graphs of units without requirements, on which every round of plain outcomes succeeds. */
module Samples {
  import opened Basics
  import opened Calls
  import opened CriticalPath
  import opened Digraph
  import opened Frame
  import opened JsonValues
  import opened Rounds
  import opened Safety
  import opened State
  import opened Topology

  const ANY_SCHEMA := Schema(None, None, None, None, None, None, None, None, [], map[], Anything, Unconstrained)
  const NO_POLICY := RetryPolicy(None, None, None, None, None)
  const FINE := Outcome(true, Null, "", false)
  const ROOMY := Limits(10, 10, 10, None, 1)

  function Plain(id: Id, dependencies: seq<Id>, owner: Json): UnitSpec {
    UnitSpec(Node(id, dependencies), owner, ANY_SCHEMA, NO_POLICY)
  }

  ghost predicate AllPlain(specs: seq<UnitSpec>) {
    forall i :: 0 <= i < |specs| ==> specs[i].schema == ANY_SCHEMA && specs[i].policy == NO_POLICY
  }

  /** So many rounds in which every unit succeeds. */
  ghost function PlainRounds(ids: set<Id>, n: nat): (rounds: seq<Round>)
    ensures |rounds| == n && forall i :: 0 <= i < n ==> rounds[i] == Round(map u | u in ids :: Direct(FINE), 0)
  {
    seq(n, i => Round(map u | u in ids :: Direct(FINE), 0))
  }

  lemma PlainContracts(specs: seq<UnitSpec>)
    requires AllPlain(specs)
    ensures forall u :: u in InitialUnits(specs) ==>
      InitialUnits(specs)[u].schema == ANY_SCHEMA && InitialUnits(specs)[u].policy == NO_POLICY
  {
    var units := InitialUnits(specs);
    hide InitialUnits;
    forall u | u in units ensures units[u].schema == ANY_SCHEMA && units[u].policy == NO_POLICY {
      var i :| 0 <= i < |specs| && specs[i].node.id == u && units[u] == InitialUnit(specs[i]);
    }
  }

  /** Outcomes that hold a success for every unit make any number of rounds good. */
  lemma {:induction false} GenerousRounds(g: Graph, rounds: seq<Round>, width: Option<int>)
    requires forall i, u :: 0 <= i < |rounds| && u in g.units ==> Succeeds(g.units[u], u, rounds[i].outcomes)
    ensures GoodRounds(g, rounds, width) && SameFrame(g, AfterRounds(g, rounds, width))
    decreases |rounds|
  {
    hide Succeeds, After, SameFrame, ParallelReady;
    if rounds == [] {
      FrameReflexive(g);
    } else {
      var n := |rounds| - 1;
      var front, last := rounds[..n], rounds[n];
      forall i, u | 0 <= i < n && u in g.units ensures Succeeds(g.units[u], u, front[i].outcomes) {
        assert front[i] == rounds[i];
      }
      GenerousRounds(g, front, width);
      var b := AfterRounds(g, front, width);
      StepFrame(b, Advance(last.outcomes, width), last.now);
      FrameTransitive(g, b, After(b, Advance(last.outcomes, width), last.now));
      ParallelIsReady(b, Room(b, width));
      forall u | u in ParallelReady(b, Room(b, width)) ensures u in b.units && Succeeds(b.units[u], u, last.outcomes) {
        FrameKeys(g, b);
        SameSuccess(g, b, u, last.outcomes);
      }
    }
  }

  lemma SameSuccess(g: Graph, b: Graph, u: Id, outcomes: map<Id, RoundOutcome>)
    requires SameFrame(g, b) && u in g.units && u in b.units && Succeeds(g.units[u], u, outcomes)
    ensures Succeeds(b.units[u], u, outcomes)
  {
    hide Conforms;
    assert SameContract(g.units[u], b.units[u]);
  }

  /** Plain units succeed in plain rounds. */
  lemma PlainRoundsGood(specs: seq<UnitSpec>, edges: seq<Edge>, limits: Limits, n: nat, width: Option<int>)
    requires ValidSpecs(specs, edges, limits) && AllPlain(specs)
    ensures GoodRounds(InitialGraph(specs, edges, limits, [], 0), PlainRounds(Ids(Nodes(specs)), n), width)
  {
    hide ValidSpecs, InitialGraph, GoodRounds, InitialUnits;
    var g, rounds := InitialGraph(specs, edges, limits, [], 0), PlainRounds(Ids(Nodes(specs)), n);
    InitialShape(specs, edges, limits, [], 0);
    PlainContracts(specs);
    assert Conforms(Null, ANY_SCHEMA);
    forall i, u | 0 <= i < |rounds| && u in g.units ensures Succeeds(g.units[u], u, rounds[i].outcomes) {
      assert u in rounds[i].outcomes && rounds[i].outcomes[u] == Direct(FINE);
    }
    GenerousRounds(g, rounds, width);
  }

  // ---------------------------------------------------------------- reachable snapshots

  lemma StartReachable(specs: seq<UnitSpec>, edges: seq<Edge>, limits: Limits, constraints: seq<Constraint>, now: nat)
    requires ValidSpecs(specs, edges, limits)
    ensures Reachable(InitialGraph(specs, edges, limits, constraints, now))
  {
    hide InitialGraph, ValidSpecs;
    assert InitialGraph(specs, edges, limits, constraints, now) ==
      Run(InitialGraph(specs, edges, limits, constraints, now), []);
  }

  /** What one call makes of a reachable snapshot is reachable. */
  lemma StepReachable(g: Graph, call: Call, now: nat)
    requires Reachable(g)
    ensures Reachable(After(g, call, now))
  {
    hide InitialGraph, ValidSpecs, After;
    var specs, edges, limits, constraints, start, calls :|
      ValidSpecs(specs, edges, limits) && g == Run(InitialGraph(specs, edges, limits, constraints, start), calls);
    var more := calls + [Timed(call, now)];
    assert more[..|more| - 1] == calls;
    assert After(g, call, now) == Run(InitialGraph(specs, edges, limits, constraints, start), more);
  }

  lemma {:induction false} RoundsReachable(g: Graph, rounds: seq<Round>, width: Option<int>)
    requires Reachable(g)
    ensures Reachable(AfterRounds(g, rounds, width))
    decreases |rounds|
  {
    hide Reachable, After;
    if rounds != [] {
      var front, last := rounds[..|rounds| - 1], rounds[|rounds| - 1];
      RoundsReachable(g, front, width);
      StepReachable(AfterRounds(g, front, width), Advance(last.outcomes, width), last.now);
    }
  }

  // ---------------------------------------------------------------- a listed edge

  const LEFT := Plain("a", [], Int(1))
  const RIGHT := Plain("b", [], Int(2))
  const LIMITS := Limits(10, 10, 10, None, 2)

  lemma ListedEdgeValid()
    ensures ValidSpecs([LEFT, RIGHT], [Edge("a", "b")], LIMITS)
  {
    var nodes := Nodes([LEFT, RIGHT]);
    assert nodes == [LEFT.node, RIGHT.node] && nodes[0].id == "a" && nodes[1].id == "b";
    assert Ids(nodes) == {"a", "b"} && AllEdges(nodes, [Edge("a", "b")]) == {Edge("a", "b")};
    OneEdgeAcyclic("a", "b");
  }

  lemma OneEdgeAcyclic(a: Id, b: Id)
    requires a != b
    ensures Acyclic({Edge(a, b)})
  {
    forall x ensures !Reaches({Edge(a, b)}, x, x) {
      if Reaches({Edge(a, b)}, x, x) {
        var p := ReachesLast({Edge(a, b)}, x, x);
        var s := ReachesFirst({Edge(a, b)}, x, x);
      }
    }
  }

  lemma ListedEdgeOwner(u: Id)
    requires u in InitialUnits([LEFT, RIGHT])
    ensures InitialUnits([LEFT, RIGHT])[u].ownership == if u == "a" then Int(1) else Int(2)
    ensures u == "a" || u == "b"
  {
    var specs := [LEFT, RIGHT];
    var i :| 0 <= i < |specs| && specs[i].node.id == u && InitialUnits(specs)[u] == InitialUnit(specs[i]);
    hide InitialUnits;
    assert specs[i] == if i == 0 then LEFT else RIGHT;
    assert LEFT.node.id == "a" && RIGHT.node.id == "b" && "b" != "a" by { assert "a"[0] != "b"[0]; }
  }

  /** The two units do not share an owner. */
  lemma ListedEdgeOwners()
    ensures DistinctOwners(InitialGraph([LEFT, RIGHT], [Edge("a", "b")], LIMITS, [], 0))
  {
    InitialShape([LEFT, RIGHT], [Edge("a", "b")], LIMITS, [], 0);
    hide InitialGraph, InitialUnits;
    forall u | u in InitialUnits([LEFT, RIGHT])
      ensures InitialUnits([LEFT, RIGHT])[u].ownership == if u == "a" then Int(1) else Int(2)
      ensures u == "a" || u == "b"
    {
      ListedEdgeOwner(u);
    }
  }

  /**
   * Units `a` and `b` without dependencies, joined by a listed edge: the summary reports a critical
   * path of one, one round of successes leaves the graph unfinished, and a second one finishes it.
   */
  lemma ListedEdgeTakesTwoRounds()
    ensures Acyclic(DependencyEdges(Nodes([LEFT, RIGHT]))) && CriticalPathLength([LEFT, RIGHT]) == 1
    ensures var g := InitialGraph([LEFT, RIGHT], [Edge("a", "b")], LIMITS, [], 0);
      && AfterRounds(g, PlainRounds({"a", "b"}, 1), None).status != GraphAccepted
      && AfterRounds(g, PlainRounds({"a", "b"}, 2), None).status == GraphAccepted
  {
    hide ValidSpecs, InitialGraph, AfterRounds, GoodRounds, DistinctOwners, Acyclic, CriticalPathLength;
    hide DependencyEdges;
    var specs := [LEFT, RIGHT];
    ListedEdgeValid();
    ListedEdgeOwners();
    assert Ids(Nodes(specs)) == {"a", "b"} by {
      assert Nodes(specs) == [LEFT.node, RIGHT.node] && Nodes(specs)[0].id == "a" && Nodes(specs)[1].id == "b";
    }
    PlainRoundsGood(specs, [Edge("a", "b")], LIMITS, 1, None);
    PlainRoundsGood(specs, [Edge("a", "b")], LIMITS, 2, None);
    SummaryMissesListedEdges(LEFT, RIGHT, LIMITS, PlainRounds({"a", "b"}, 1), None);
    SummaryMissesListedEdges(LEFT, RIGHT, LIMITS, PlainRounds({"a", "b"}, 2), None);
  }
}
