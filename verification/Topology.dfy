/**
 * Normalisation of unit and edge listings, which every entry point of the engine performs
 * first.
 */
module Topology {
  import opened Basics
  import opened Digraph
  import opened Order

  const MAX_NODES := 512

  /** The part of a unit that shapes the graph. */
  datatype Node = Node(id: Id, dependencies: seq<Id>)

  /** The canonical form of a listing: identifiers and edges sorted, without repeats. */
  datatype Layout = Layout(ids: seq<Id>, edges: seq<Edge>) {
    ghost predicate Canonical() {
      && Ascending(Before, ids)
      && Ascending(EdgeBefore, edges)
      && Within(Elements(edges), Elements(ids))
    }
  }

  predicate EdgeBefore(a: Edge, b: Edge) {
    Before(a.from, b.from) || (a.from == b.from && Before(a.to, b.to))
  }

  lemma EdgeBeforeIsTotal()
    ensures StrictTotal(EdgeBefore)
  {
    BeforeIsTotal();
  }

  // ---------------------------------------------------------------- normalisation

  predicate NodeOk(n: Node) {
    && (forall i, j :: 0 <= i < j < |n.dependencies| ==> n.dependencies[i] != n.dependencies[j])
    && n.id !in n.dependencies
  }

  function Ids(nodes: seq<Node>): set<Id> { set i | 0 <= i < |nodes| :: nodes[i].id }

  /** Each unit's dependencies as edges. */
  function DependencyEdges(nodes: seq<Node>): set<Edge> {
    set i, d | 0 <= i < |nodes| && d in nodes[i].dependencies :: Edge(d, nodes[i].id)
  }

  predicate ValidNodes(nodes: seq<Node>) {
    && |nodes| <= MAX_NODES
    && (forall i :: 0 <= i < |nodes| ==> NodeOk(nodes[i]))
    && (forall i, j :: 0 <= i < j < |nodes| ==> nodes[i].id != nodes[j].id)
  }

  predicate EdgeOk(ids: set<Id>, e: Edge) { e.from in ids && e.to in ids && e.from != e.to }

  predicate ValidEdges(nodes: seq<Node>, edges: seq<Edge>) {
    && (forall i :: 0 <= i < |edges| ==> EdgeOk(Ids(nodes), edges[i]))
    && (forall i, j :: 0 <= i < j < |edges| ==> edges[i] != edges[j])
    && (forall i :: 0 <= i < |nodes| ==> forall d :: d in nodes[i].dependencies ==> d in Ids(nodes))
  }

  predicate ValidListing(nodes: seq<Node>, edges: seq<Edge>) {
    ValidNodes(nodes) && ValidEdges(nodes, edges)
  }

  function AllEdges(nodes: seq<Node>, edges: seq<Edge>): set<Edge> {
    (set e | e in edges) + DependencyEdges(nodes)
  }

  /** What a listing normalises to. */
  function Canonical(nodes: seq<Node>, edges: seq<Edge>): (g: Layout)
    requires ValidListing(nodes, edges)
    ensures g.Canonical() && Elements(g.ids) == Ids(nodes) && Elements(g.edges) == AllEdges(nodes, edges)
  {
    ListingWithin(nodes, edges);
    Layout(SortIds(Ids(nodes)), SortEdges(AllEdges(nodes, edges)))
  }

  function SortIds(ids: set<Id>): (q: seq<Id>)
    ensures Ascending(Before, q) && Elements(q) == ids && (forall x :: x in q <==> x in ids)
  {
    BeforeIsTotal();
    Sort(Before, ids)
  }

  function SortEdges(edges: set<Edge>): (q: seq<Edge>)
    ensures Ascending(EdgeBefore, q) && Elements(q) == edges && (forall e :: e in q <==> e in edges)
  {
    EdgeBeforeIsTotal();
    Sort(EdgeBefore, edges)
  }

  lemma ListingWithin(nodes: seq<Node>, edges: seq<Edge>)
    requires ValidListing(nodes, edges)
    ensures Within(AllEdges(nodes, edges), Ids(nodes))
  {
  }

  method NormalizeNodes(nodes: seq<Node>) returns (r: Result<seq<Id>>)
    ensures r.Ok? <==> ValidNodes(nodes)
    ensures r.Ok? ==> Ascending(Before, r.value) && Elements(r.value) == Ids(nodes)
  {
    if |nodes| > MAX_NODES { return Err(InvalidGraph); }
    var seen: set<Id> := {};
    for k := 0 to |nodes|
      invariant seen == Ids(nodes[..k])
      invariant ValidNodes(nodes[..k])
    {
      if !NodeOk(nodes[k]) {
        return Err(InvalidGraph);
      }
      if nodes[k].id in seen {
        assert exists i :: 0 <= i < k && nodes[..k][i].id == nodes[k].id;
        return Err(InvalidGraph);
      }
      assert forall i :: 0 <= i < k ==> nodes[..k][i].id in seen;
      assert nodes[..k + 1] == nodes[..k] + [nodes[k]];
      seen := seen + {nodes[k].id};
    }
    assert nodes[..|nodes|] == nodes;
    return Ok(SortIds(seen));
  }

  method ExplicitEdges(ids: set<Id>, edges: seq<Edge>) returns (ok: bool, seen: set<Edge>)
    ensures ok <==>
      ((forall i :: 0 <= i < |edges| ==> EdgeOk(ids, edges[i])) &&
      (forall i, j :: 0 <= i < j < |edges| ==> edges[i] != edges[j]))
    ensures ok ==> seen == set e | e in edges
  {
    seen := {};
    for k := 0 to |edges|
      invariant seen == set e | e in edges[..k]
      invariant forall i :: 0 <= i < k ==> EdgeOk(ids, edges[i])
      invariant forall i, j :: 0 <= i < j < k ==> edges[i] != edges[j]
    {
      if !EdgeOk(ids, edges[k]) || edges[k] in seen { return false, seen; }
      assert edges[..k + 1] == edges[..k] + [edges[k]];
      assert forall i :: 0 <= i < k ==> edges[i] in edges[..k];
      seen := seen + {edges[k]};
    }
    assert edges[..|edges|] == edges;
    return true, seen;
  }

  method UnitEdges(ids: set<Id>, unit: Node) returns (ok: bool, found: set<Edge>)
    ensures ok <==> forall d :: d in unit.dependencies ==> d in ids
    ensures ok ==> found == set d | d in unit.dependencies :: Edge(d, unit.id)
  {
    found := {};
    for j := 0 to |unit.dependencies|
      invariant found == set d | d in unit.dependencies[..j] :: Edge(d, unit.id)
      invariant forall d :: d in unit.dependencies[..j] ==> d in ids
    {
      if unit.dependencies[j] !in ids { return false, found; }
      assert unit.dependencies[..j + 1] == unit.dependencies[..j] + [unit.dependencies[j]];
      found := found + {Edge(unit.dependencies[j], unit.id)};
    }
    assert unit.dependencies[..|unit.dependencies|] == unit.dependencies;
    return true, found;
  }

  method NormalizeEdges(nodes: seq<Node>, edges: seq<Edge>) returns (r: Result<seq<Edge>>)
    ensures r.Ok? <==> ValidEdges(nodes, edges)
    ensures r.Ok? ==> Ascending(EdgeBefore, r.value) && Elements(r.value) == AllEdges(nodes, edges)
  {
    hide DependencyEdges, Ids, EdgeOk, Ascending, EdgeBefore;
    NoNodesNoEdges();
    var ids := Ids(nodes);
    var ok, combined := ExplicitEdges(ids, edges);
    if !ok { return Err(InvalidGraph); }
    assert nodes[..0] == [];
    for k := 0 to |nodes|
      invariant combined == (set e | e in edges) + DependencyEdges(nodes[..k])
      invariant forall i :: 0 <= i < k ==> forall d :: d in nodes[i].dependencies ==> d in ids
    {
      var known, found := UnitEdges(ids, nodes[k]);
      if !known { return Err(InvalidGraph); }
      DependencyEdgesStep(nodes, k);
      combined := combined + found;
    }
    assert nodes[..|nodes|] == nodes;
    return Ok(SortEdges(combined));
  }

  lemma NoNodesNoEdges()
    ensures DependencyEdges([]) == {}
  {
  }

  lemma OneMoreNode(nodes: seq<Node>, node: Node)
    ensures Ids(nodes + [node]) == Ids(nodes) + {node.id}
  {
    var more := nodes + [node];
    forall id | id in Ids(nodes) ensures id in Ids(more) {
      var i :| 0 <= i < |nodes| && nodes[i].id == id;
      assert more[i] == nodes[i];
    }
    assert more[|nodes|] == node;
  }

  lemma {:induction false} NodeCount(nodes: seq<Node>)
    requires forall i, j :: 0 <= i < j < |nodes| ==> nodes[i].id != nodes[j].id
    ensures |Ids(nodes)| == |nodes|
    decreases |nodes|
  {
    if nodes != [] {
      var front, last := nodes[..|nodes| - 1], nodes[|nodes| - 1];
      NodeCount(front);
      assert nodes == front + [last];
      OneMoreNode(front, last);
      assert last.id !in Ids(front);
    }
  }

  lemma DependencyEdgesStep(nodes: seq<Node>, k: nat)
    requires k < |nodes|
    ensures DependencyEdges(nodes[..k + 1])
         == DependencyEdges(nodes[..k]) + set d | d in nodes[k].dependencies :: Edge(d, nodes[k].id)
  {
    var p, q := nodes[..k], nodes[..k + 1];
    forall e | e in DependencyEdges(q)
      ensures e in DependencyEdges(p) || (e.from in nodes[k].dependencies && e.to == nodes[k].id)
    {
      var i, d :| 0 <= i < |q| && d in q[i].dependencies && e == Edge(d, q[i].id);
      if i < k { assert p[i] == q[i]; }
    }
    forall e | e in DependencyEdges(p) ensures e in DependencyEdges(q) {
      var i, d :| 0 <= i < |p| && d in p[i].dependencies && e == Edge(d, p[i].id);
      assert q[i] == p[i];
    }
    assert q[k] == nodes[k];
  }

  /** Normalisation accepts exactly the valid listings and yields their canonical graph. */
  method Normalize(nodes: seq<Node>, edges: seq<Edge>) returns (r: Result<Layout>)
    ensures r.Ok? <==> ValidListing(nodes, edges)
    ensures r.Ok? ==> r.value == Canonical(nodes, edges)
    ensures r.Err? ==> r.error == InvalidGraph
  {
    var ids := NormalizeNodes(nodes);
    if ids.Err? { return Err(InvalidGraph); }
    var all := NormalizeEdges(nodes, edges);
    if all.Err? { return Err(InvalidGraph); }
    BeforeIsTotal();
    EdgeBeforeIsTotal();
    var g := Canonical(nodes, edges);
    AscendingUnique(Before, g.ids, ids.value) by {
      assert forall x :: x in g.ids <==> x in Elements(g.ids);
      assert forall x :: x in ids.value <==> x in Elements(ids.value);
    }
    AscendingUnique(EdgeBefore, g.edges, all.value) by {
      assert forall x :: x in g.edges <==> x in Elements(g.edges);
      assert forall x :: x in all.value <==> x in Elements(all.value);
    }
    return Ok(Layout(ids.value, all.value));
  }

  // ---------------------------------------------------------------- which listings are valid

  /** Units that depend on nothing are a valid listing up to 512 of them, if their identifiers differ. */
  lemma LoneNodes(nodes: seq<Node>)
    requires forall i :: 0 <= i < |nodes| ==> nodes[i].dependencies == []
    ensures ValidListing(nodes, []) <==>
      |nodes| <= 512 && forall i, j :: 0 <= i < j < |nodes| ==> nodes[i].id != nodes[j].id
  {
  }

  /** One dependency more keeps a listing valid exactly if it is another unit of the listing and a new one. */
  lemma DependencyMore(nodes: seq<Node>, edges: seq<Edge>, k: nat, d: Id)
    requires k < |nodes|
    ensures var n := nodes[k];
      ValidListing(nodes[k := n.(dependencies := n.dependencies + [d])], edges) <==>
      ValidListing(nodes, edges) && (exists i :: 0 <= i < |nodes| && nodes[i].id == d) && d != n.id
      && d !in n.dependencies
  {
    hide Ids, EdgeOk;
    var n := nodes[k];
    var m := n.(dependencies := n.dependencies + [d]);
    var more := nodes[k := m];
    SameIds(nodes, more);
    LongerNode(n, d);
    KnownIff(nodes, d);
    assert forall e :: e in m.dependencies <==> e in n.dependencies || e == d;
    assert forall i :: 0 <= i < |nodes| && i != k ==> more[i] == nodes[i];
    if ValidListing(more, edges) {
      assert NodeOk(more[k]);
      assert forall i :: 0 <= i < |nodes| && i != k ==> NodeOk(more[i]);
      forall i, j | 0 <= i < j < |nodes| ensures nodes[i].id != nodes[j].id { assert more[i].id != more[j].id; }
      forall i, e | 0 <= i < |nodes| && e in nodes[i].dependencies ensures e in Ids(nodes) {
        assert e in more[i].dependencies;
      }
      assert d in more[k].dependencies;
    }
  }

  lemma SameIds(nodes: seq<Node>, more: seq<Node>)
    requires |nodes| == |more| && forall i :: 0 <= i < |nodes| ==> nodes[i].id == more[i].id
    ensures Ids(nodes) == Ids(more)
  {
  }

  lemma KnownIff(nodes: seq<Node>, d: Id)
    ensures d in Ids(nodes) <==> exists i :: 0 <= i < |nodes| && nodes[i].id == d
  {
  }

  lemma LongerNode(n: Node, d: Id)
    ensures NodeOk(n.(dependencies := n.dependencies + [d])) <==> NodeOk(n) && d != n.id && d !in n.dependencies
  {
    var m := n.(dependencies := n.dependencies + [d]);
    var size := |n.dependencies|;
    assert m.dependencies[size] == d && forall i :: 0 <= i < size ==> m.dependencies[i] == n.dependencies[i];
    if NodeOk(m) {
      forall i, j | 0 <= i < j < size ensures n.dependencies[i] != n.dependencies[j] {
        assert m.dependencies[i] != m.dependencies[j];
      }
      forall i | 0 <= i < size ensures n.dependencies[i] != d { assert m.dependencies[i] != m.dependencies[size]; }
      assert forall e :: e in n.dependencies ==> e in m.dependencies;
    }
  }

  /** One edge more keeps it valid exactly if it is new and joins two different units of the listing. */
  lemma EdgeMore(nodes: seq<Node>, edges: seq<Edge>, e: Edge)
    ensures ValidListing(nodes, edges + [e]) <==>
      ValidListing(nodes, edges) && e !in edges && e.from != e.to
      && (exists i :: 0 <= i < |nodes| && nodes[i].id == e.from)
      && (exists i :: 0 <= i < |nodes| && nodes[i].id == e.to)
  {
    hide Ids, ValidNodes;
    KnownIff(nodes, e.from);
    KnownIff(nodes, e.to);
    var more := edges + [e];
    assert more[|edges|] == e && forall i :: 0 <= i < |edges| ==> more[i] == edges[i];
    if ValidListing(nodes, more) {
      forall i, j | 0 <= i < j < |edges| ensures edges[i] != edges[j] { assert more[i] != more[j]; }
      forall i | 0 <= i < |edges| ensures EdgeOk(Ids(nodes), edges[i]) && edges[i] != e {
        assert EdgeOk(Ids(nodes), more[i]) && more[i] != more[|edges|];
      }
    }
  }

  /** The canonical form lists identifiers upwards, and edges by where they start and then by where they end. */
  lemma CanonicalOrder(nodes: seq<Node>, edges: seq<Edge>)
    requires ValidListing(nodes, edges)
    ensures var g := Canonical(nodes, edges);
      && (forall i, j :: 0 <= i < j < |g.ids| ==> Before(g.ids[i], g.ids[j]))
      && (forall i, j :: 0 <= i < j < |g.edges| && g.edges[i].from != g.edges[j].from ==>
            Before(g.edges[i].from, g.edges[j].from))
      && (forall i, j :: 0 <= i < j < |g.edges| && g.edges[i].from == g.edges[j].from ==>
            Before(g.edges[i].to, g.edges[j].to))
  {
    hide ValidListing;
    assert Ascending(EdgeBefore, Canonical(nodes, edges).edges);
    BeforeIsTotal();
  }

  /** The edges of the canonical form: those listed, and one from each dependency to the unit that has it. */
  lemma EdgesMean(nodes: seq<Node>, edges: seq<Edge>, e: Edge)
    requires ValidListing(nodes, edges)
    ensures e in Canonical(nodes, edges).edges <==>
      e in edges || exists i :: 0 <= i < |nodes| && nodes[i].id == e.to && e.from in nodes[i].dependencies
  {
    hide ValidListing;
    assert e in Canonical(nodes, edges).edges <==> e in AllEdges(nodes, edges) by {
      assert e in Elements(Canonical(nodes, edges).edges) <==> e in Canonical(nodes, edges).edges;
    }
    if i :| 0 <= i < |nodes| && nodes[i].id == e.to && e.from in nodes[i].dependencies {
      assert Edge(e.from, nodes[i].id) == e;
    }
  }

  /** Neither the order of the units nor that of the edges in a listing matters. */
  lemma ListingOrderIrrelevant(nodes: seq<Node>, nodes': seq<Node>, edges: seq<Edge>, edges': seq<Edge>)
    requires multiset(nodes) == multiset(nodes') && multiset(edges) == multiset(edges')
    ensures ValidListing(nodes, edges) <==> ValidListing(nodes', edges')
    ensures ValidListing(nodes, edges) ==> Canonical(nodes, edges) == Canonical(nodes', edges')
  {
    SameListing(nodes, nodes', edges, edges');
    SameListing(nodes', nodes, edges', edges);
    assert Ids(nodes) == Ids(nodes');
    assert DependencyEdges(nodes) == DependencyEdges(nodes');
    assert (set e | e in edges) == (set e | e in edges');
  }

  lemma SameListing(nodes: seq<Node>, nodes': seq<Node>, edges: seq<Edge>, edges': seq<Edge>)
    requires multiset(nodes) == multiset(nodes') && multiset(edges) == multiset(edges')
    ensures ValidListing(nodes, edges) ==> ValidListing(nodes', edges')
    ensures Ids(nodes) <= Ids(nodes') && DependencyEdges(nodes) <= DependencyEdges(nodes')
    ensures forall e :: e in edges ==> e in edges'
  {
    SameMembers(nodes, nodes');
    SameMembers(nodes', nodes);
    SameMembers(edges, edges');
    SameMembers(edges', edges);
    assert |nodes| == |multiset(nodes)| == |multiset(nodes')| == |nodes'|;
    forall id | id in Ids(nodes) ensures id in Ids(nodes') {
      var i :| 0 <= i < |nodes| && nodes[i].id == id;
      assert nodes[i] in nodes';
    }
    forall e | e in DependencyEdges(nodes) ensures e in DependencyEdges(nodes') {
      var i, d :| 0 <= i < |nodes| && d in nodes[i].dependencies && e == Edge(d, nodes[i].id);
      assert nodes[i] in nodes';
      var j :| 0 <= j < |nodes'| && nodes'[j] == nodes[i];
    }
    if ValidListing(nodes, edges) {
      forall i | 0 <= i < |nodes'| ensures NodeOk(nodes'[i])
        ensures forall d :: d in nodes'[i].dependencies ==> d in Ids(nodes')
      {
        assert nodes'[i] in nodes;
        var k :| 0 <= k < |nodes| && nodes[k] == nodes'[i];
      }
      forall i | 0 <= i < |edges'| ensures EdgeOk(Ids(nodes'), edges'[i]) {
        assert edges'[i] in edges;
      }
      NoRepeats(edges, edges');
      forall i, j | 0 <= i < j < |nodes'| ensures nodes'[i].id != nodes'[j].id {
        NoRepeats(nodes, nodes');
        assert nodes'[i] in nodes && nodes'[j] in nodes;
      }
    }
  }

  lemma SameMembers<T>(a: seq<T>, b: seq<T>)
    requires multiset(a) == multiset(b)
    ensures forall x :: x in a ==> x in b
  {
    forall x | x in a ensures x in b { assert x in multiset(a) && x in multiset(b); }
  }

  lemma OnceOnly<T>(a: seq<T>, x: T)
    requires x in a && forall i, j :: 0 <= i < j < |a| ==> a[i] != a[j]
    ensures multiset(a)[x] == 1
  {
    var k :| 0 <= k < |a| && a[k] == x;
    assert a == a[..k] + [x] + a[k + 1..];
    assert x !in a[..k] && x !in a[k + 1..];
  }

  /** Whether a list repeats an element is settled by its multiset. */
  lemma NoRepeats<T>(a: seq<T>, b: seq<T>)
    requires multiset(a) == multiset(b)
    requires forall i, j :: 0 <= i < j < |a| ==> a[i] != a[j]
    ensures forall i, j :: 0 <= i < j < |b| ==> b[i] != b[j]
  {
    forall i, j | 0 <= i < j < |b| ensures b[i] != b[j] {
      if b[i] == b[j] {
        var x := b[i];
        assert b == b[..i] + [x] + b[i + 1..j] + [x] + b[j + 1..];
        assert multiset(b)[x] >= 2;
        assert x in multiset(a);
        OnceOnly(a, x);
      }
    }
  }
}
