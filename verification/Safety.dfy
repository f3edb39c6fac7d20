/** Freshly created graphs satisfy the invariant, and what follows for every run. */
module Safety {
  import opened Calls
  import opened Counting
  import opened Digraph
  import opened Invariants
  import opened JsonValues
  import opened Order
  import opened State
  import opened Topology

  lemma InitialArcs(specs: seq<UnitSpec>, edges: seq<Edge>, limits: Limits, constraints: seq<Constraint>, now: nat)
    requires ValidSpecs(specs, edges, limits)
    ensures Arcs(InitialGraph(specs, edges, limits, constraints, now)) == AllEdges(Nodes(specs), edges)
  {
    hide RefreshCounts, ValidListing;
    var nodes := Nodes(specs);
    var g := InitialGraph(specs, edges, limits, constraints, now);
    InitialShape(specs, edges, limits, constraints, now);
    forall u, d | u in g.units && d in g.units[u].dependencies ensures Edge(d, u) in AllEdges(nodes, edges) {
      var i :| 0 <= i < |specs| && specs[i].node.id == u && g.units[u] == InitialUnit(specs[i]);
      assert nodes[i] == specs[i].node;
      assert Edge(d, u) in DependencyEdges(nodes);
    }
  }

  lemma InitialShape(specs: seq<UnitSpec>, edges: seq<Edge>, limits: Limits, constraints: seq<Constraint>, now: nat)
    ensures var g := InitialGraph(specs, edges, limits, constraints, now);
      && g.units == InitialUnits(specs) && g.edges == AllEdges(Nodes(specs), edges) && g.limits == limits
      && g.accepted == map[] && g.failed == map[] && g.working == map[]
      && g.status == (if specs == [] then GraphAccepted else GraphPending)
      && g.counters.graphSteps == 0 && g.counters.totalChildRuns == 0 && g.times.started == now
      && RefreshCounts(g) == g
  {
    hide WithStatus, TotalAttempts, AllEdges, InitialUnits;
  }

  lemma InitialUnitsOk(specs: seq<UnitSpec>, edges: seq<Edge>, limits: Limits)
    requires ValidSpecs(specs, edges, limits)
    ensures forall u :: u in InitialUnits(specs) ==>
      var unit := InitialUnits(specs)[u];
      && NodeOk(Node(u, unit.dependencies)) && PolicyOk(unit.policy)
      && (forall d :: d in unit.dependencies ==> d in InitialUnits(specs))
      && unit.status == Pending && unit.attempts == Attempts(0, 0, 0)
  {
    hide Acyclic, PolicyOk;
    var units, nodes := InitialUnits(specs), Nodes(specs);
    forall u | u in units
      ensures NodeOk(Node(u, units[u].dependencies)) && PolicyOk(units[u].policy)
      ensures forall d :: d in units[u].dependencies ==> d in units
      ensures units[u].status == Pending && units[u].attempts == Attempts(0, 0, 0)
    {
      var i :| 0 <= i < |specs| && specs[i].node.id == u && units[u] == InitialUnit(specs[i]);
      assert nodes[i] == specs[i].node == Node(u, units[u].dependencies);
    }
  }

  lemma InitialSize(specs: seq<UnitSpec>)
    requires ValidNodes(Nodes(specs))
    ensures |InitialUnits(specs)| == |specs| <= MAX_NODES
  {
    NodeCount(Nodes(specs));
    assert |InitialUnits(specs)| == |InitialUnits(specs).Keys|;
  }

  lemma InitialInvariant(specs: seq<UnitSpec>, edges: seq<Edge>, limits: Limits, constraints: seq<Constraint>, now: nat)
    requires ValidSpecs(specs, edges, limits)
    ensures Invariant(InitialGraph(specs, edges, limits, constraints, now))
  {
    hide InitialGraph, RefreshCounts, TotalAttempts, WellFormed, InitialUnits, ValidListing, StatusesOk;
    hide Budgets, OutputsOk, WithStatus;
    var g := InitialGraph(specs, edges, limits, constraints, now);
    InitialShape(specs, edges, limits, constraints, now);
    InitialWellFormed(specs, edges, limits, constraints, now);
    InitialUnitsOk(specs, edges, limits);
    InitialBudgets(g);
    InitialOutputs(g);
    InitialStatus(specs);
    InitialStatusSound(g);
    hide StatusSound, AllAccepted;
  }

  lemma InitialStatusSound(g: Graph)
    requires g.status == (if g.units == map[] then GraphAccepted else GraphPending)
    requires forall u :: u in g.units ==> g.units[u].status == Pending
    ensures StatusSound(g)
  {
    if g.units != map[] {
      var u :| u in g.units;
      assert g.units[u].status != Accepted;
    }
  }

  lemma InitialBudgets(g: Graph)
    requires forall u :: u in g.units ==> g.units[u].attempts == Attempts(0, 0, 0)
    requires g.counters.graphSteps == 0 && g.counters.totalChildRuns == 0
    ensures Budgets(g)
  {
    hide TotalAttempts, UnitBudget;
    NothingAttempted(g.units);
    forall u | u in g.units ensures UnitBudget(g, g.units[u]) { NoAttempts(g, g.units[u]); }
  }

  lemma NothingAttempted(units: map<Id, Unit>)
    requires forall u :: u in units ==> units[u].attempts == Attempts(0, 0, 0)
    ensures TotalAttempts(units) == 0
  {
    TotalZero(units);
  }

  lemma NoAttempts(g: Graph, unit: Unit)
    requires unit.attempts == Attempts(0, 0, 0)
    ensures UnitBudget(g, unit)
  {
    hide AttemptLimit, StageLimit;
    assert unit.attempts.Total() <= AttemptLimit(g, unit);
    assert unit.attempts.produce <= StageLimit(g, unit, Produce);
  }

  lemma InitialOutputs(g: Graph)
    requires forall u :: u in g.units ==> g.units[u].status == Pending
    requires g.accepted == map[] && g.failed == map[] && g.working == map[]
    ensures OutputsOk(g) && StatusesOk(g)
  {
    hide Conforms;
  }

  lemma InitialStatus(specs: seq<UnitSpec>)
    ensures specs == [] <==> InitialUnits(specs) == map[]
  {
    assert InitialUnits(specs).Keys == Ids(Nodes(specs));
    if specs != [] {
      assert Nodes(specs)[0].id in Ids(Nodes(specs));
    }
  }

  lemma InitialWellFormed(specs: seq<UnitSpec>, edges: seq<Edge>, limits: Limits,
                          constraints: seq<Constraint>, now: nat)
    requires ValidSpecs(specs, edges, limits)
    ensures WellFormed(InitialGraph(specs, edges, limits, constraints, now))
  {
    hide InitialGraph, Acyclic, PolicyOk, NodeOk, AllEdges, InitialUnits, Arcs, Nodes, EdgeOk;
    InitialShape(specs, edges, limits, constraints, now);
    InitialArcs(specs, edges, limits, constraints, now);
    InitialUnitsOk(specs, edges, limits);
    InitialSize(specs);
    InitialEdgesOk(specs, edges, limits);
  }

  lemma InitialEdgesOk(specs: seq<UnitSpec>, edges: seq<Edge>, limits: Limits)
    requires ValidSpecs(specs, edges, limits)
    ensures forall e :: e in AllEdges(Nodes(specs), edges) ==> EdgeOk(InitialUnits(specs).Keys, e)
  {
    var nodes := Nodes(specs);
    forall e | e in AllEdges(nodes, edges) ensures EdgeOk(Ids(nodes), e) {
      if e in DependencyEdges(nodes) {
        var i, d :| 0 <= i < |nodes| && d in nodes[i].dependencies && e == Edge(d, nodes[i].id);
        assert NodeOk(nodes[i]);
      }
    }
  }

  /** The invariant holds in every snapshot any run can bring about. */
  lemma ReachableInvariant(g: Graph)
    requires Reachable(g)
    ensures Invariant(g)
  {
    hide Invariant, ValidSpecs, InitialGraph;
    var specs, edges, limits, constraints, now, calls :|
      ValidSpecs(specs, edges, limits) && g == Run(InitialGraph(specs, edges, limits, constraints, now), calls);
    InitialInvariant(specs, edges, limits, constraints, now);
    RunKeeps(InitialGraph(specs, edges, limits, constraints, now), calls);
  }

  /**
   * Acceptance is sound: an accepted graph has every unit accepted, an accepted unit has an
   * output that fits its schema, and constraints leave the engine only from such graphs.
   */
  lemma AcceptanceSound(g: Graph)
    requires Reachable(g)
    ensures g.status == GraphAccepted ==> forall u :: u in g.units ==> g.units[u].status == Accepted
    ensures forall u :: u in g.units && g.units[u].status == Accepted ==>
              u in g.accepted && Conforms(g.accepted[u], g.units[u].schema)
    ensures forall u :: u in g.accepted ==> u in g.units && Conforms(g.accepted[u], g.units[u].schema)
    ensures g.failed.Keys == WithStatus(g.units, Failed)
    ensures ExportedConstraints(g) != [] ==> g.status == GraphAccepted && AllAccepted(g)
  {
    hide Reachable, Invariant, Conforms, ExportedConstraints;
    ReachableInvariant(g);
    InvariantSound(g);
  }

  lemma InvariantSound(g: Graph)
    requires Invariant(g)
    ensures StatusSound(g) && OutputsOk(g)
    ensures g.failed.Keys == WithStatus(g.units, Failed)
    ensures ExportedConstraints(g) != [] ==> g.status == GraphAccepted && AllAccepted(g)
  {
    hide WellFormed, StatusesOk, Budgets, Exact, Conforms, Exportable;
  }

  ghost predicate SortedById(cs: seq<Constraint>) {
    forall i, j :: 0 <= i < j < |cs| ==> !Before(cs[j].id, cs[i].id)
  }

  lemma NotBeforeTransitive(a: string, b: string, c: string)
    requires !Before(b, a) && !Before(c, b)
    ensures !Before(c, a)
  {
    BeforeIsTotal();
    hide Before;
  }

  lemma BeforeExcludes(a: string, b: string)
    requires Before(a, b)
    ensures !Before(b, a)
  {
    BeforeIsTotal();
    hide Before;
  }

  lemma LedBy(c: Constraint, cs: seq<Constraint>)
    requires SortedById(cs) && forall x :: x in cs ==> !Before(x.id, c.id)
    ensures SortedById([c] + cs)
  {
    hide Before;
  }

  lemma {:induction false} InsertSorts(c: Constraint, cs: seq<Constraint>)
    requires SortedById(cs)
    ensures SortedById(InsertById(c, cs)) && multiset(InsertById(c, cs)) == multiset(cs) + multiset{c}
    decreases |cs|
  {
    hide Before;
    if cs != [] && Before(cs[0].id, c.id) {
      var rest := cs[1..];
      InsertSorts(c, rest);
      assert cs == [cs[0]] + rest;
      BeforeExcludes(cs[0].id, c.id);
      var all := InsertById(c, rest);
      forall x | x in all ensures !Before(x.id, cs[0].id) { assert x in multiset(all); }
      LedBy(cs[0], all);
    } else {
      forall i | 0 <= i < |cs| ensures !Before(cs[i].id, c.id) {
        if i > 0 { NotBeforeTransitive(c.id, cs[0].id, cs[i].id); }
      }
      LedBy(c, cs);
    }
  }

  lemma NoneSorted()
    ensures SortedById([])
  {
  }

  /** Exactly the reusable verified constraints are exported, as often as recorded, sorted by identifier. */
  lemma {:induction false} ExportsVerified(cs: seq<Constraint>)
    ensures SortedById(Exportable(cs))
    ensures forall c :: multiset(Exportable(cs))[c] == if c.verified && c.reusable then multiset(cs)[c] else 0
    decreases |cs|
  {
    hide InsertById, SortedById;
    assert SortedById([]) by { NoneSorted(); }
    if cs != [] {
      ExportsVerified(cs[1..]);
      assert cs == [cs[0]] + cs[1..];
      InsertSorts(cs[0], Exportable(cs[1..]));
    }
  }

  /** Attempts, runs and steps never exceed their limits, and every count derives from the units. */
  lemma BudgetsHold(g: Graph)
    requires Reachable(g)
    ensures TotalAttempts(g.units) <= g.counters.totalChildRuns <= g.counters.graphSteps <= g.limits.maxGraphSteps
    ensures g.counters.totalChildRuns <= g.limits.maxTotalChildRuns
    ensures forall u :: u in g.units ==>
      && g.units[u].attempts.Total() <= AttemptLimit(g, g.units[u])
      && g.units[u].attempts.produce <= StageLimit(g, g.units[u], Produce)
      && g.units[u].attempts.correct <= StageLimit(g, g.units[u], Correct)
    ensures g.counters.attempts == TotalAttempts(g.units)
    ensures g.counters.acceptedUnits == |WithStatus(g.units, Accepted)|
    ensures g.counters.failedUnits == |WithStatus(g.units, Failed)|
  {
    hide WellFormed, StatusesOk, OutputsOk, TotalAttempts, WithStatus;
    ReachableInvariant(g);
    assert g.counters == RefreshCounts(g).counters;
    forall u | u in g.units ensures UnitBudget(g, g.units[u]) {}
  }

  /** The statuses `stalled` and `failed` of a graph, and three of a unit, never come about. */
  lemma NeverStalled(g: Graph)
    requires Reachable(g)
    ensures g.status != Stalled && g.status != GraphFailed
    ensures forall u :: u in g.units ==> g.units[u].status !in {Running, Invalidated, Blocked}
  {
    hide WellFormed, OutputsOk, Budgets, Exact, Reachable, AllAccepted;
    ReachableInvariant(g);
    forall u | u in g.units ensures g.units[u].status !in {Running, Invalidated, Blocked} {
      assert g.units[u].status in {Pending, Ready, Produced, Accepted, Failed, Reopened};
    }
  }
}
