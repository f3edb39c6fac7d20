/**
 * `find_cycles`: a depth-first search that keeps the active path and the finished set, and
 * records each back edge's cycle in its least rotation.
 */
module Cycles {
  import opened Digraph
  import opened Order
  import opened Topology

  /** A cycle listed once around: distinct vertices, with an edge from the last to the first. */
  ghost predicate IsCycle(edges: set<Edge>, c: seq<Id>) {
    c != [] && Distinct(c) && IsWalk(edges, c) && Edge(c[|c| - 1], c[0]) in edges
  }

  function Rotations(c: seq<Id>): set<seq<Id>> { set i | 0 <= i < |c| :: c[i..] + c[..i] }

  /** A cycle in the form in which the search records it. */
  ghost predicate Recorded(edges: set<Edge>, c: seq<Id>) {
    IsCycle(edges, c) && forall r :: r in Rotations(c) ==> c == r || ListBefore(c, r)
  }

  lemma RotatedCycle(edges: set<Edge>, c: seq<Id>, i: nat)
    requires IsCycle(edges, c) && i < |c|
    ensures IsCycle(edges, c[i..] + c[..i])
  {
    var r := c[i..] + c[..i];
    forall k | 0 <= k < |r| ensures r[k] == if k < |c| - i then c[k + i] else c[k + i - |c|] {}
    forall k | 0 <= k < |r| - 1 ensures Edge(r[k], r[k + 1]) in edges {
      if k == |c| - i - 1 {
        assert r[k] == c[|c| - 1] && r[k + 1] == c[0];
      } else if k < |c| - i - 1 {
        assert Edge(c[k + i], c[k + i + 1]) in edges;
      } else {
        assert Edge(c[k + i - |c|], c[k + i + 1 - |c|]) in edges;
      }
    }
    if i > 0 {
      assert r[|r| - 1] == c[i - 1] && r[0] == c[i];
      assert Edge(c[i - 1], c[i]) in edges;
    }
  }

  /** Rotations of a rotation are rotations of the original. */
  lemma RotationsOfRotation(c: seq<Id>, i: nat, r: seq<Id>)
    requires i < |c| && r in Rotations(c[i..] + c[..i])
    ensures r in Rotations(c)
  {
    var d := c[i..] + c[..i];
    var j :| 0 <= j < |d| && r == d[j..] + d[..j];
    var k := if i + j < |c| then i + j else i + j - |c|;
    assert r == c[k..] + c[..k];
  }

  /** `min(rotations)` of the cycle the active path closes. */
  method LeastRotation(ghost edges: set<Edge>, c: seq<Id>) returns (r: seq<Id>)
    requires IsCycle(edges, c)
    ensures Recorded(edges, r) && r in Rotations(c)
  {
    hide ListBefore, StrictTotal;
    ListBeforeIsTotal();
    assert c[0..] + c[..0] in Rotations(c);
    r := Least(ListBefore, Rotations(c));
    var i :| 0 <= i < |c| && r == c[i..] + c[..i];
    RotatedCycle(edges, c, i);
    forall q | q in Rotations(r) ensures r == q || ListBefore(r, q) {
      RotationsOfRotation(c, i, q);
    }
  }

  lemma CycleRefutesAcyclic(edges: set<Edge>, c: seq<Id>)
    requires IsCycle(edges, c)
    ensures Reaches(edges, c[0], c[0])
  {
    EdgeReaches(edges, c[|c| - 1], c[0]);
    if |c| > 1 {
      WalkPart(edges, c, 0, |c| - 1);
      ReachesTransitive(edges, c[0], c[|c| - 1], c[0]);
    }
  }

  /** The part of a path from a vertex that the path's end leads back to is a cycle. */
  lemma PathCloses(edges: set<Edge>, path: seq<Id>, start: nat)
    requires Distinct(path) && IsWalk(edges, path) && start < |path|
    requires Edge(path[|path| - 1], path[start]) in edges
    ensures IsCycle(edges, path[start..])
  {
    var c := path[start..];
    forall k | 0 <= k < |c| - 1 ensures Edge(c[k], c[k + 1]) in edges {
      assert c[k] == path[start + k] && c[k + 1] == path[start + k + 1];
    }
  }

  lemma PathExtends(edges: set<Edge>, ids: set<Id>, path: seq<Id>, node: Id)
    requires Distinct(path) && IsWalk(edges, path) && (forall v :: v in path ==> v in ids)
    requires node in ids && node !in path && (path != [] ==> Edge(path[|path| - 1], node) in edges)
    ensures Distinct(path + [node]) && IsWalk(edges, path + [node]) && |path| < |ids|
  {
    var longer := path + [node];
    forall i | 0 <= i < |longer| - 1 ensures Edge(longer[i], longer[i + 1]) in edges {
      if i < |path| - 1 { assert longer[i] == path[i] && longer[i + 1] == path[i + 1]; }
    }
    DistinctBound(longer, ids);
  }

  /** The mutable state of one search. */
  class Search {
    const adjacency: map<Id, seq<Id>>
    ghost const edges: set<Edge>
    ghost const ids: set<Id>
    var visited: set<Id>
    var active: seq<Id>
    var cycles: set<seq<Id>>

    constructor (adjacency: map<Id, seq<Id>>, ghost edges: set<Edge>, ghost ids: set<Id>)
      ensures this.adjacency == adjacency && this.edges == edges && this.ids == ids
      ensures visited == {} && active == [] && cycles == {}
    {
      this.adjacency, this.edges, this.ids := adjacency, edges, ids;
      visited, active, cycles := {}, [], {};
    }

    ghost predicate Wired() {
      && Within(edges, ids)
      && adjacency.Keys == ids
      && forall x, y :: x in ids ==> (y in adjacency[x] <==> Edge(x, y) in edges)
    }

    /** The active path is a simple path, disjoint from what is finished, and every record is a cycle. */
    ghost predicate Sound()
      reads this
    {
      && Wired()
      && Distinct(active) && IsWalk(edges, active) && (forall v :: v in active ==> v in ids)
      && visited <= ids && (forall v :: v in active ==> v !in visited)
      && forall c :: c in cycles ==> Recorded(edges, c)
    }

    /** As long as nothing is recorded, the finished part is closed under edges and free of cycles. */
    ghost predicate Finished()
      reads this
    {
      cycles == {} ==>
        && (forall e :: e in edges && e.from in visited ==> e.to in visited)
        && (forall v :: v in visited ==> !Reaches(edges, v, v))
    }

    method Visit(node: Id)
      requires Sound() && Finished() && node in ids
      requires active != [] ==> Edge(active[|active| - 1], node) in edges
      modifies this
      ensures Sound() && Finished() && active == old(active)
      ensures old(visited) <= visited && old(cycles) <= cycles
      ensures cycles == {} ==> node in visited
      decreases |ids| - |active|
    {
      hide Recorded, ListBefore, Reaches;
      if node in active {
        var start: nat :| start < |active| && active[start] == node;
        PathCloses(edges, active, start);
        var cycle := LeastRotation(edges, active[start..]);
        cycles := cycles + {cycle};
        return;
      }
      if node in visited { return; }
      PathExtends(edges, ids, active, node);
      active := active + [node];
      var j := 0;
      while j < |adjacency[node]|
        invariant j <= |adjacency[node]|
        invariant Sound() && Finished() && active == old(active) + [node]
        invariant old(visited) <= visited && old(cycles) <= cycles
        invariant cycles == {} ==> forall i :: 0 <= i < j ==> adjacency[node][i] in visited
      {
        var child := adjacency[node][j];
        assert child in adjacency[node];
        Visit(child);
        j := j + 1;
      }
      assert active[..|active| - 1] == old(active);
      active := active[..|active| - 1];
      if cycles == {} {
        forall e | e in edges && e.from == node ensures e.to in visited {
          assert e.to in adjacency[node];
        }
        NotOnCycle(edges, visited, node);
      }
      visited := visited + {node};
    }
  }

  /** A vertex all of whose successors lie in a closed set that it is not in is on no cycle. */
  lemma NotOnCycle(edges: set<Edge>, visited: set<Id>, node: Id)
    requires (forall e :: e in edges && e.from in visited ==> e.to in visited) && node !in visited
    requires forall e :: e in edges && e.from == node ==> e.to in visited
    ensures !Reaches(edges, node, node)
  {
    if Reaches(edges, node, node) { ClosedContains(edges, visited, node, node); }
  }

  /** Every vertex with its sorted successors. */
  function AdjacencyLists(g: Layout): (adjacency: map<Id, seq<Id>>)
    requires g.Canonical()
    ensures adjacency.Keys == Elements(g.ids)
    ensures forall x, y :: x in adjacency ==> (y in adjacency[x] <==> Edge(x, y) in Elements(g.edges))
    ensures forall x :: x in adjacency ==> Ascending(Before, adjacency[x])
  {
    BeforeIsTotal();
    map x | x in g.ids :: Sort(Before, set y | y in g.ids && Edge(x, y) in g.edges)
  }

  lemma NothingVisited(search: Search)
    requires search.visited == {} && search.active == [] && search.cycles == {} && search.Wired()
    ensures search.Sound() && search.Finished()
  {
  }

  /** Starts a visit at every vertex in turn. */
  method SearchAll(g: Layout) returns (search: Search)
    requires g.Canonical()
    ensures fresh(search) && search.edges == Elements(g.edges) && search.Sound() && search.Finished()
    ensures search.cycles == {} ==> forall x :: x in Elements(g.ids) ==> x in search.visited
  {
    hide Recorded, Search.Sound, Search.Finished, AdjacencyLists, Ascending;
    search := new Search(AdjacencyLists(g), Elements(g.edges), Elements(g.ids));
    NothingVisited(search);
    for k := 0 to |g.ids|
      invariant fresh(search)
      invariant search.Sound() && search.Finished() && search.active == []
      invariant search.cycles == {} ==> forall i :: 0 <= i < k ==> g.ids[i] in search.visited
    {
      assert g.ids[k] in Elements(g.ids);
      search.Visit(g.ids[k]);
    }
  }

  /**
   * The search reports cycles, in canonical form and in order, and reports none exactly when
   * there is none.
   */
  method FindCycles(g: Layout) returns (found: seq<seq<Id>>)
    requires g.Canonical()
    ensures Ascending(ListBefore, found) && forall c :: c in found ==> Recorded(Elements(g.edges), c)
    ensures found == [] <==> Acyclic(Elements(g.edges))
  {
    hide Recorded, ListBefore, StrictTotal, Ascending, Search.Finished, Acyclic;
    var search := SearchAll(g);
    ListBeforeIsTotal();
    found := Sort(ListBefore, search.cycles);
    Verdict(Elements(g.edges), Elements(g.ids), search);
    assert search.cycles != {} ==> found != [];
  }

  lemma Verdict(edges: set<Edge>, ids: set<Id>, search: Search)
    requires Within(edges, ids) && search.edges == edges && search.Sound() && search.Finished()
    requires search.cycles == {} ==> forall x :: x in ids ==> x in search.visited
    ensures search.cycles == {} <==> Acyclic(edges)
  {
    if search.cycles == {} {
      forall a ensures !Reaches(edges, a, a) {
        if a !in ids && Reaches(edges, a, a) {
          var s := ReachesFirst(edges, a, a);
        }
      }
    } else {
      var c :| c in search.cycles;
      assert Recorded(edges, c);
      CycleRefutesAcyclic(edges, c);
    }
  }
}
