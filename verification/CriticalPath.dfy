/**
 * How many rounds a fresh graph takes when everything succeeds, against the critical path that
 * the summary reports.  The summary measures depth over the units' own dependencies only.
 */
module CriticalPath {
  import opened Basics
  import opened Depth
  import opened Digraph
  import opened Frame
  import opened Invariants
  import opened Rounds
  import opened Safety
  import opened State
  import opened Topology

  /** `critical_path_length` of the summary: the greatest depth over dependencies alone. */
  ghost function CriticalPathLength(specs: seq<UnitSpec>): nat
    requires Acyclic(DependencyEdges(Nodes(specs)))
  {
    LongestPath(DependencyEdges(Nodes(specs)), Ids(Nodes(specs)))
  }

  lemma DependenciesAcyclic(specs: seq<UnitSpec>, edges: seq<Edge>, limits: Limits)
    requires ValidSpecs(specs, edges, limits)
    ensures Acyclic(DependencyEdges(Nodes(specs)))
  {
    hide Acyclic, ValidListing;
    AcyclicSubset(DependencyEdges(Nodes(specs)), AllEdges(Nodes(specs), edges));
  }

  /** A fresh graph is ready for smooth rounds and has nothing accepted. */
  lemma FreshIsSmooth(specs: seq<UnitSpec>, edges: seq<Edge>, limits: Limits, constraints: seq<Constraint>, now: nat)
    requires ValidSpecs(specs, edges, limits) && Ample(limits, |specs|)
    ensures var g := InitialGraph(specs, edges, limits, constraints, now);
      && Invariant(g) && Smooth(g) && AcceptedSet(g) == {} && |g.units| == |specs|
      && g.units.Keys == Ids(Nodes(specs)) && Arcs(g) == AllEdges(Nodes(specs), edges)
  {
    hide Invariant, InitialGraph, ValidEdges, Loose, Acyclic, AcceptedSet, NodeOk, PolicyOk, InitialUnits;
    hide Arcs, AllEdges, Smooth;
    var g := InitialGraph(specs, edges, limits, constraints, now);
    InitialInvariant(specs, edges, limits, constraints, now);
    InitialShape(specs, edges, limits, constraints, now);
    InitialUnitsOk(specs, edges, limits);
    InitialArcs(specs, edges, limits, constraints, now);
    InitialSize(specs);
    InvariantLoose(g);
    PendingIsSmooth(g);
  }

  lemma PendingIsSmooth(g: Graph)
    requires Loose(g) && g.status != ConvergedFailed && Ample(g.limits, |g.units|)
    requires forall u :: u in g.units ==> g.units[u].status == Pending && g.units[u].attempts == Attempts(0, 0, 0)
    requires g.counters.graphSteps == 0 && g.counters.totalChildRuns == 0
    ensures Smooth(g) && AcceptedSet(g) == {}
  {
    hide Loose;
    assert AcceptedSet(g) == {};
  }

  lemma InvariantLoose(g: Graph)
    requires Invariant(g)
    ensures Loose(g)
  {
  }

  lemma SmoothStatus(g: Graph)
    requires Smooth(g)
    ensures g.status == GraphAccepted <==> AllAccepted(g)
  {
    LooseParts(g);
  }

  lemma AllAcceptedSet(g: Graph)
    ensures AllAccepted(g) <==> g.units.Keys <= AcceptedSet(g)
  {
    if g.units.Keys <= AcceptedSet(g) {
      forall u | u in g.units ensures g.units[u].status == Accepted { assert u in AcceptedSet(g); }
    }
  }

  /** All units lie within `k` levels exactly when the longest path is at most `k`. */
  lemma AllLevels(edges: set<Edge>, ids: set<Id>, k: nat)
    requires Acyclic(edges)
    ensures LongestPath(edges, ids) <= k <==> forall v :: v in ids ==> DepthOf(edges, ids, v) <= k
  {
    hide Acyclic, DepthOf;
    var depths := set v | v in ids :: DepthOf(edges, ids, v);
    forall v | v in ids ensures DepthOf(edges, ids, v) in depths {}
    assert LongestPath(edges, ids) == Max(depths);
  }

  /** Depth over dependencies never exceeds depth over all edges. */
  lemma CriticalPathBelow(specs: seq<UnitSpec>, edges: seq<Edge>, limits: Limits)
    requires ValidSpecs(specs, edges, limits)
    ensures Acyclic(DependencyEdges(Nodes(specs)))
    ensures CriticalPathLength(specs) <= LongestPath(AllEdges(Nodes(specs), edges), Ids(Nodes(specs)))
  {
    hide ValidListing, Acyclic, DepthOf;
    DependenciesAcyclic(specs, edges, limits);
    var small, large, ids := DependencyEdges(Nodes(specs)), AllEdges(Nodes(specs), edges), Ids(Nodes(specs));
    var k := LongestPath(large, ids);
    AllLevels(large, ids, k);
    forall v | v in ids ensures DepthOf(small, ids, v) <= k { DepthMonotone(small, large, ids, v); }
    AllLevels(small, ids, k);
  }

  /**
   * Whatever the ownership and however few units a round may take, a graph whose every outcome
   * succeeds finishes in at least the critical path's and at most the unit count's rounds.
   */
  lemma FinishesBetween(specs: seq<UnitSpec>, edges: seq<Edge>, limits: Limits, constraints: seq<Constraint>, now: nat,
                        rounds: seq<Round>, width: Option<int>)
    requires ValidSpecs(specs, edges, limits) && Ample(limits, |specs|) && (width.Some? ==> width.value >= 1)
    requires GoodRounds(InitialGraph(specs, edges, limits, constraints, now), rounds, width)
    ensures Acyclic(DependencyEdges(Nodes(specs)))
    ensures var h := AfterRounds(InitialGraph(specs, edges, limits, constraints, now), rounds, width);
      && (h.status == GraphAccepted ==> |rounds| >= CriticalPathLength(specs))
      && (|rounds| >= |specs| ==> h.status == GraphAccepted)
  {
    hide ValidSpecs, Invariant, Smooth, InitialGraph, GoodRounds, AfterRounds, AcceptedSet, AllAccepted;
    hide Ample, Acyclic, LongestPath, DepthOf, Arcs;
    var g := InitialGraph(specs, edges, limits, constraints, now);
    var h := AfterRounds(g, rounds, width);
    FreshIsSmooth(specs, edges, limits, constraints, now);
    RoundsSmooth(g, rounds, width);
    SmoothAcyclic(g);
    SmoothStatus(h);
    AllAcceptedSet(h);
    CriticalPathBelow(specs, edges, limits);
    WithinLevels(g, rounds, width);
    if h.status == GraphAccepted {
      var ids := Ids(Nodes(specs));
      forall v | v in ids ensures DepthOf(Arcs(g), ids, v) <= |rounds| { assert v in AcceptedSet(h); }
      AllLevels(Arcs(g), ids, |rounds|);
    }
    AtLeastOneEach(g, rounds, width);
    if |rounds| >= |specs| && !AllAccepted(h) {
      EnoughAccepted(g, h);
    }
  }

  lemma EnoughAccepted(g: Graph, h: Graph)
    requires SameFrame(g, h) && |AcceptedSet(h)| >= |g.units|
    ensures AllAccepted(h)
  {
    var rest := h.units.Keys - AcceptedSet(h);
    assert h.units.Keys == rest + AcceptedSet(h);
    assert |h.units.Keys| == |g.units.Keys| == |g.units|;
    assert |rest| == 0;
    AllAcceptedSet(h);
  }

  /**
   * With an owner for each unit and room for all of them, round k accepts exactly the units of
   * depth k over all edges, and the graph finishes with the round of the longest path.
   */
  lemma RoundsEqualLongestPath(specs: seq<UnitSpec>, edges: seq<Edge>, limits: Limits,
                               constraints: seq<Constraint>, now: nat,
                               rounds: seq<Round>, width: Option<int>)
    requires ValidSpecs(specs, edges, limits) && Ample(limits, |specs|)
    requires DistinctOwners(InitialGraph(specs, edges, limits, constraints, now))
    requires (if width.Some? then width.value else limits.maxParallelism) >= |specs|
    requires (width.Some? ==> width.value >= 1)
    requires GoodRounds(InitialGraph(specs, edges, limits, constraints, now), rounds, width)
    ensures var h := AfterRounds(InitialGraph(specs, edges, limits, constraints, now), rounds, width);
      && h.units.Keys == Ids(Nodes(specs))
      && (forall v :: v in h.units ==>
           (h.units[v].status == Accepted <==>
             DepthOf(AllEdges(Nodes(specs), edges), Ids(Nodes(specs)), v) <= |rounds|))
      && (h.status == GraphAccepted <==> |rounds| >= LongestPath(AllEdges(Nodes(specs), edges), Ids(Nodes(specs))))
  {
    hide Invariant, Smooth, GoodRounds, AfterRounds, AllAccepted, Ample, Acyclic, LongestPath, DepthOf, Arcs;
    hide DistinctOwners, InitialGraph, AllEdges, ValidListing;
    var g := InitialGraph(specs, edges, limits, constraints, now);
    var h := AfterRounds(g, rounds, width);
    var ids := Ids(Nodes(specs));
    FreshIsSmooth(specs, edges, limits, constraints, now);
    assert g.limits == limits by { InitialShape(specs, edges, limits, constraints, now); }
    RoundsSmooth(g, rounds, width);
    SmoothStatus(h);
    AllAcceptedSet(h);
    ExactlyLevels(g, rounds, width);
    forall v | v in h.units ensures h.units[v].status == Accepted <==> DepthOf(Arcs(g), ids, v) <= |rounds| {
      assert v in AcceptedSet(h) <==> v in Levels(g, |rounds|);
    }
    AllLevels(Arcs(g), ids, |rounds|);
    assert h.units.Keys <= AcceptedSet(h) <==> forall v :: v in ids ==> DepthOf(Arcs(g), ids, v) <= |rounds|;
  }

  /**
   * With all edges from dependencies, an owner for each unit and room for all of them, round k
   * accepts exactly the units of depth k, and the graph finishes with round `critical_path_length`.
   */
  lemma RoundsEqualCriticalPath(specs: seq<UnitSpec>, edges: seq<Edge>, limits: Limits,
                                constraints: seq<Constraint>, now: nat,
                                rounds: seq<Round>, width: Option<int>)
    requires ValidSpecs(specs, edges, limits) && Ample(limits, |specs|)
    requires forall e :: e in edges ==> e in DependencyEdges(Nodes(specs))
    requires DistinctOwners(InitialGraph(specs, edges, limits, constraints, now))
    requires (if width.Some? then width.value else limits.maxParallelism) >= |specs|
    requires (width.Some? ==> width.value >= 1)
    requires GoodRounds(InitialGraph(specs, edges, limits, constraints, now), rounds, width)
    ensures Acyclic(DependencyEdges(Nodes(specs)))
    ensures var h := AfterRounds(InitialGraph(specs, edges, limits, constraints, now), rounds, width);
      && h.units.Keys == Ids(Nodes(specs))
      && (forall v :: v in h.units ==>
           (h.units[v].status == Accepted <==>
             DepthOf(DependencyEdges(Nodes(specs)), Ids(Nodes(specs)), v) <= |rounds|))
      && (h.status == GraphAccepted <==> |rounds| >= CriticalPathLength(specs))
  {
    hide GoodRounds, AfterRounds, Ample, Acyclic, LongestPath, DepthOf, DistinctOwners, InitialGraph, ValidSpecs;
    DependenciesAcyclic(specs, edges, limits);
    assert AllEdges(Nodes(specs), edges) == DependencyEdges(Nodes(specs));
    RoundsEqualLongestPath(specs, edges, limits, constraints, now, rounds, width);
  }

  // ---------------------------------------------------------------- exactly when the summary is right

  /** Unit `v` is accepted after the first `k` of the rounds. */
  ghost predicate AcceptedBy(g: Graph, rounds: seq<Round>, width: Option<int>, k: nat, v: Id)
    requires k <= |rounds|
  {
    var h := AfterRounds(g, rounds[..k], width);
    v in h.units && h.units[v].status == Accepted
  }

  ghost predicate FinishedBy(g: Graph, rounds: seq<Round>, width: Option<int>, k: nat)
    requires k <= |rounds|
  {
    AfterRounds(g, rounds[..k], width).status == GraphAccepted
  }

  /** What the summary promises of each unit: it is accepted in the round of its depth over dependencies. */
  ghost predicate DepthsReported(specs: seq<UnitSpec>, g: Graph, rounds: seq<Round>, width: Option<int>)
    requires Acyclic(DependencyEdges(Nodes(specs)))
  {
    forall k: nat, v :: k <= |rounds| && v in Ids(Nodes(specs)) ==>
      (AcceptedBy(g, rounds, width, k, v) <==> DepthOf(DependencyEdges(Nodes(specs)), Ids(Nodes(specs)), v) <= k)
  }

  /** And of the graph: it is accepted from the round of the critical path. */
  ghost predicate LengthReported(specs: seq<UnitSpec>, g: Graph, rounds: seq<Round>, width: Option<int>)
    requires Acyclic(DependencyEdges(Nodes(specs)))
  {
    forall k: nat :: k <= |rounds| ==> (FinishedBy(g, rounds, width, k) <==> k >= CriticalPathLength(specs))
  }

  lemma AfterEachRound(specs: seq<UnitSpec>, edges: seq<Edge>, limits: Limits, constraints: seq<Constraint>, now: nat,
                       rounds: seq<Round>, width: Option<int>, k: nat)
    requires ValidSpecs(specs, edges, limits) && Ample(limits, |specs|) && k <= |rounds|
    requires DistinctOwners(InitialGraph(specs, edges, limits, constraints, now))
    requires (if width.Some? then width.value else limits.maxParallelism) >= |specs|
    requires (width.Some? ==> width.value >= 1)
    requires GoodRounds(InitialGraph(specs, edges, limits, constraints, now), rounds, width)
    ensures var g, all := InitialGraph(specs, edges, limits, constraints, now), AllEdges(Nodes(specs), edges);
      && (forall v :: v in Ids(Nodes(specs)) ==>
           (AcceptedBy(g, rounds, width, k, v) <==> DepthOf(all, Ids(Nodes(specs)), v) <= k))
      && (FinishedBy(g, rounds, width, k) <==> k >= LongestPath(all, Ids(Nodes(specs))))
  {
    hide ValidListing, Ample, Acyclic, LongestPath, DepthOf, DistinctOwners, InitialGraph, AllEdges;
    hide AfterRounds, GoodRounds;
    GoodPrefix(InitialGraph(specs, edges, limits, constraints, now), rounds, width, k);
    RoundsEqualLongestPath(specs, edges, limits, constraints, now, rounds[..k], width);
  }

  lemma EdgesWithin(specs: seq<UnitSpec>, edges: seq<Edge>)
    requires ValidListing(Nodes(specs), edges)
    ensures Within(AllEdges(Nodes(specs), edges), Ids(Nodes(specs)))
    ensures DependencyEdges(Nodes(specs)) <= AllEdges(Nodes(specs), edges)
  {
  }

  /**
   * For a run of successes that finishes the graph, the summary is right about every unit if and
   * only if every edge goes from a smaller to a greater depth over dependencies; and it is right
   * about the graph if and only if no unit lies deeper over all edges than the critical path is long.
   */
  lemma SummaryExact(specs: seq<UnitSpec>, edges: seq<Edge>, limits: Limits, constraints: seq<Constraint>, now: nat,
                     rounds: seq<Round>, width: Option<int>)
    requires ValidSpecs(specs, edges, limits) && Ample(limits, |specs|)
    requires DistinctOwners(InitialGraph(specs, edges, limits, constraints, now))
    requires (if width.Some? then width.value else limits.maxParallelism) >= |specs|
    requires (width.Some? ==> width.value >= 1)
    requires GoodRounds(InitialGraph(specs, edges, limits, constraints, now), rounds, width)
    requires AfterRounds(InitialGraph(specs, edges, limits, constraints, now), rounds, width).status == GraphAccepted
    ensures Acyclic(DependencyEdges(Nodes(specs)))
    ensures DepthsReported(specs, InitialGraph(specs, edges, limits, constraints, now), rounds, width)
            <==> Rising(DependencyEdges(Nodes(specs)), AllEdges(Nodes(specs), edges), Ids(Nodes(specs)))
    ensures LengthReported(specs, InitialGraph(specs, edges, limits, constraints, now), rounds, width)
            <==> forall v :: v in Ids(Nodes(specs)) ==>
                   DepthOf(AllEdges(Nodes(specs), edges), Ids(Nodes(specs)), v) <= CriticalPathLength(specs)
  {
    hide ValidListing, Ample, Acyclic, LongestPath, DepthOf, DistinctOwners, InitialGraph, AllEdges;
    hide AfterRounds, GoodRounds;
    hide AcceptedBy, FinishedBy, DependencyEdges, Rising;
    var g, n := InitialGraph(specs, edges, limits, constraints, now), |rounds|;
    var small, all, ids := DependencyEdges(Nodes(specs)), AllEdges(Nodes(specs), edges), Ids(Nodes(specs));
    DependenciesAcyclic(specs, edges, limits);
    EdgesWithin(specs, edges);
    forall k: nat, v | k <= n && v in ids ensures AcceptedBy(g, rounds, width, k, v) <==> DepthOf(all, ids, v) <= k {
      AfterEachRound(specs, edges, limits, constraints, now, rounds, width, k);
    }
    forall k: nat | k <= n ensures FinishedBy(g, rounds, width, k) <==> k >= LongestPath(all, ids) {
      AfterEachRound(specs, edges, limits, constraints, now, rounds, width, k);
    }
    assert FinishedBy(g, rounds, width, n) by { WholeRun(g, rounds, width); }
    AllLevels(all, ids, n);
    SameDepthsIff(small, all, ids);
    DepthsExact(specs, g, rounds, width, all);
    CriticalPathBelow(specs, edges, limits);
    AllLevels(all, ids, CriticalPathLength(specs));
    LengthExact(specs, g, rounds, width, LongestPath(all, ids));
  }

  lemma WholeRun(g: Graph, rounds: seq<Round>, width: Option<int>)
    requires AfterRounds(g, rounds, width).status == GraphAccepted
    ensures FinishedBy(g, rounds, width, |rounds|)
  {
    hide AfterRounds;
    assert rounds[..|rounds|] == rounds;
  }

  lemma DepthsExact(specs: seq<UnitSpec>, g: Graph, rounds: seq<Round>, width: Option<int>, all: set<Edge>)
    requires Acyclic(DependencyEdges(Nodes(specs))) && Acyclic(all) && DependencyEdges(Nodes(specs)) <= all
    requires forall k: nat, v :: k <= |rounds| && v in Ids(Nodes(specs)) ==>
      (AcceptedBy(g, rounds, width, k, v) <==> DepthOf(all, Ids(Nodes(specs)), v) <= k)
    requires forall v :: v in Ids(Nodes(specs)) ==> DepthOf(all, Ids(Nodes(specs)), v) <= |rounds|
    ensures DepthsReported(specs, g, rounds, width) <==>
            forall v :: v in Ids(Nodes(specs)) ==>
              DepthOf(DependencyEdges(Nodes(specs)), Ids(Nodes(specs)), v) == DepthOf(all, Ids(Nodes(specs)), v)
  {
    hide Acyclic, DepthOf, AcceptedBy, DependencyEdges, Ids;
    var small, ids := DependencyEdges(Nodes(specs)), Ids(Nodes(specs));
    if DepthsReported(specs, g, rounds, width) {
      forall v | v in ids ensures DepthOf(small, ids, v) == DepthOf(all, ids, v) {
        DepthMonotone(small, all, ids, v);
        var k := DepthOf(small, ids, v);
        assert AcceptedBy(g, rounds, width, k, v);
      }
    }
  }

  lemma LengthExact(specs: seq<UnitSpec>, g: Graph, rounds: seq<Round>, width: Option<int>, longest: nat)
    requires Acyclic(DependencyEdges(Nodes(specs))) && CriticalPathLength(specs) <= longest <= |rounds|
    requires forall k: nat :: k <= |rounds| ==> (FinishedBy(g, rounds, width, k) <==> k >= longest)
    ensures LengthReported(specs, g, rounds, width) <==> longest <= CriticalPathLength(specs)
  {
    hide CriticalPathLength, FinishedBy;
    var k := CriticalPathLength(specs);
    assert FinishedBy(g, rounds, width, k) <==> k >= longest;
  }

  lemma OneEdgeDepth(edges: set<Edge>, ids: set<Id>, a: Id, b: Id)
    requires edges == {Edge(a, b)} && ids == {a, b} && a != b && Acyclic(edges)
    ensures LongestPath(edges, ids) == 2
  {
    assert DepthOf(edges, ids, a) <= 1 by { DepthBound(edges, ids, a, 0); }
    assert DepthOf(edges, ids, b) <= 2 by { DepthBound(edges, ids, b, 1); }
    assert DepthOf(edges, ids, b) >= 2 by { PredecessorShallower(edges, ids, a, b); }
    assert b in ids;
    AllLevels(edges, ids, 2);
    AllLevels(edges, ids, 1);
  }

  lemma NoEdgeDepth(ids: set<Id>)
    requires ids != {}
    ensures Acyclic({}) && LongestPath({}, ids) == 1
  {
    forall a ensures !Reaches({}, a, a) {
      if Reaches({}, a, a) { var p := ReachesLast({}, a, a); }
    }
    forall v | v in ids ensures DepthOf({}, ids, v) == 1 { DepthBound({}, ids, v, 0); }
    AllLevels({}, ids, 1);
    AllLevels({}, ids, 0);
  }

  /**
   * An edge that is only listed, and not a dependency, delays the graph but does not lengthen the
   * critical path of the summary: two units joined by one take two rounds and report one.
   */
  lemma SummaryMissesListedEdges(a: UnitSpec, b: UnitSpec, limits: Limits, rounds: seq<Round>, width: Option<int>)
    requires a.node.dependencies == [] && b.node.dependencies == [] && a.node.id != b.node.id
    requires ValidSpecs([a, b], [Edge(a.node.id, b.node.id)], limits) && Ample(limits, 2)
    requires DistinctOwners(InitialGraph([a, b], [Edge(a.node.id, b.node.id)], limits, [], 0))
    requires (if width.Some? then width.value else limits.maxParallelism) >= 2
    requires GoodRounds(InitialGraph([a, b], [Edge(a.node.id, b.node.id)], limits, [], 0), rounds, width)
    ensures Acyclic(DependencyEdges(Nodes([a, b]))) && CriticalPathLength([a, b]) == 1
    ensures var g := InitialGraph([a, b], [Edge(a.node.id, b.node.id)], limits, [], 0);
      AfterRounds(g, rounds, width).status == GraphAccepted <==> |rounds| >= 2
  {
    hide Acyclic, LongestPath, DepthOf, GoodRounds, AfterRounds, DistinctOwners, InitialGraph, ValidSpecs;
    var specs, e := [a, b], Edge(a.node.id, b.node.id);
    var nodes := Nodes(specs);
    assert nodes == [a.node, b.node];
    assert Ids(nodes) == {a.node.id, b.node.id} by { assert nodes[0].id == a.node.id && nodes[1].id == b.node.id; }
    assert DependencyEdges(nodes) == {};
    assert AllEdges(nodes, [e]) == {e};
    assert Acyclic({e}) by { ValidIsAcyclic(specs, [e], limits); }
    NoEdgeDepth(Ids(nodes));
    OneEdgeDepth({e}, Ids(nodes), a.node.id, b.node.id);
    RoundsEqualLongestPath(specs, [e], limits, [], 0, rounds, width);
  }

  lemma ValidIsAcyclic(specs: seq<UnitSpec>, edges: seq<Edge>, limits: Limits)
    requires ValidSpecs(specs, edges, limits)
    ensures Acyclic(AllEdges(Nodes(specs), edges))
  {
  }
}
