/**
 * `topological_order`: Kahn's algorithm with a sorted ready list returns the least topological
 * order there is, and fails exactly on graphs with a cycle.
 */
module Kahn {
  import opened Basics
  import opened Digraph
  import opened Order
  import opened Topology

  /** A topological order: every identifier once, every edge forward. */
  ghost predicate IsTopological(edges: set<Edge>, ids: set<Id>, o: seq<Id>) {
    && Distinct(o)
    && Elements(o) == ids
    && EdgesForward(edges, o)
  }

  ghost predicate EdgesForward(edges: set<Edge>, o: seq<Id>) {
    forall i, j :: 0 <= i < |o| && 0 <= j < |o| && Edge(o[i], o[j]) in edges ==> i < j
  }

  /** The edges into `x` whose source is not yet placed. */
  ghost function Waiting(edges: set<Edge>, placed: set<Id>, x: Id): set<Edge> {
    set e | e in edges && e.to == x && e.from !in placed
  }

  ghost function Available(edges: set<Edge>, ids: set<Id>, placed: set<Id>): set<Id> {
    set x | x in ids && x !in placed && Waiting(edges, placed, x) == {}
  }

  /** `o` does not come before `prefix`: it starts with it, or leaves it upwards. */
  ghost predicate NotBelow(prefix: seq<Id>, o: seq<Id>) {
    prefix <= o || exists k :: LeavesUpwards(prefix, o, k)
  }

  ghost predicate LeavesUpwards(prefix: seq<Id>, o: seq<Id>, k: nat) {
    k < |prefix| && k < |o| && prefix[..k] == o[..k] && Before(prefix[k], o[k])
  }

  /** Everything placed so far has all its predecessors placed earlier. */
  ghost predicate PredecessorsFirst(edges: set<Edge>, order: seq<Id>) {
    forall i, e :: 0 <= i < |order| && e in edges && e.to == order[i] ==> e.from in order[..i]
  }

  /** Adding one edge raises the count of its target by one and nothing else. */
  lemma WaitingGrows(edges: set<Edge>, e: Edge, x: Id)
    requires e !in edges
    ensures |Waiting(edges + {e}, {}, x)| == |Waiting(edges, {}, x)| + if x == e.to then 1 else 0
  {
    if x == e.to {
      assert Waiting(edges + {e}, {}, x) == Waiting(edges, {}, x) + {e};
    } else {
      assert Waiting(edges + {e}, {}, x) == Waiting(edges, {}, x);
    }
  }

  lemma NothingWaits(placed: set<Id>, x: Id)
    ensures |Waiting({}, placed, x)| == 0
  {
  }

  /** One more edge of the canonical list. */
  lemma NextEdge(g: Layout, k: nat)
    requires g.Canonical() && k < |g.edges|
    ensures g.edges[k] in Elements(g.edges) && g.edges[k] !in Elements(g.edges[..k])
    ensures Elements(g.edges[..k + 1]) == Elements(g.edges[..k]) + {g.edges[k]}
  {
    EdgeBeforeIsTotal();
    assert g.edges[..k + 1] == g.edges[..k] + [g.edges[k]];
    forall i | 0 <= i < k ensures g.edges[i] != g.edges[k] { assert EdgeBefore(g.edges[i], g.edges[k]); }
  }

  /** The indegree table and the adjacency lists. */
  method CountIncoming(g: Layout) returns (indegree: map<Id, int>, children: map<Id, set<Id>>)
    requires g.Canonical()
    ensures indegree.Keys == Elements(g.ids) && Adjacency(Elements(g.edges), Elements(g.ids), children)
    ensures forall x :: x in indegree ==> indegree[x] == |Waiting(Elements(g.edges), {}, x)|
  {
    hide Waiting, Ascending, EdgeBefore;
    indegree := map x | x in g.ids :: 0;
    children := map x | x in g.ids :: {};
    ghost var seen: set<Edge> := {};
    forall x ensures |Waiting(seen, {}, x)| == 0 { NothingWaits({}, x); }
    for k := 0 to |g.edges|
      invariant indegree.Keys == children.Keys == Elements(g.ids)
      invariant seen == Elements(g.edges[..k])
      invariant forall x :: x in indegree ==> indegree[x] == |Waiting(seen, {}, x)|
      invariant forall x, y :: x in children ==> (y in children[x] <==> Edge(x, y) in seen)
    {
      var e := g.edges[k];
      NextEdge(g, k);
      forall x ensures |Waiting(seen + {e}, {}, x)| == |Waiting(seen, {}, x)| + if x == e.to then 1 else 0 {
        WaitingGrows(seen, e, x);
      }
      indegree := indegree[e.to := indegree[e.to] + 1];
      children := children[e.from := children[e.from] + {e.to}];
      seen := seen + {e};
    }
    assert g.edges[..|g.edges|] == g.edges;
  }

  /** Placing `current` removes exactly the edges that leave it from what others wait for. */
  lemma WaitingAfter(edges: set<Edge>, placed: set<Id>, current: Id, x: Id)
    requires current !in placed
    ensures |Waiting(edges, placed + {current}, x)|
         == |Waiting(edges, placed, x)| - if Edge(current, x) in edges then 1 else 0
  {
    var was, now := Waiting(edges, placed, x), Waiting(edges, placed + {current}, x);
    if Edge(current, x) in edges {
      assert was == now + {Edge(current, x)};
    } else {
      assert was == now;
    }
  }

  /** The ready list holds what is not placed and waits for nothing. */
  ghost predicate ReadyList(ids: set<Id>, placed: set<Id>, indegree: map<Id, int>, ready: seq<Id>)
    requires indegree.Keys == ids
  {
    Ascending(Before, ready) && forall x :: x in ready <==> x in ids && x !in placed && indegree[x] == 0
  }

  /** `ready.append(child); ready.sort()` */
  function Enqueue(ready: seq<Id>, child: Id): seq<Id> {
    BeforeIsTotal();
    Sort(Before, (set x | x in ready) + {child})
  }

  lemma CountDown(ids: set<Id>, placed: set<Id>, indegree: map<Id, int>, ready: seq<Id>, child: Id)
    requires indegree.Keys == ids && ReadyList(ids, placed, indegree, ready)
    requires child in ids && child !in placed && indegree[child] > 0
    ensures ReadyList(ids, placed, indegree[child := indegree[child] - 1],
                      if indegree[child] == 1 then Enqueue(ready, child) else ready)
  {
    BeforeIsTotal();
  }

  /** The inner loop: each child of `current` loses one from its count and is queued at zero. */
  method Release(ghost edges: set<Edge>, ghost ids: set<Id>, ghost placed: set<Id>, current: Id, children: seq<Id>,
                 indegree: map<Id, int>, waitingReady: seq<Id>)
    returns (indegree': map<Id, int>, ready: seq<Id>)
    requires indegree.Keys == ids && current !in placed && current in ids
    requires forall e :: e in edges && e.to in placed ==> e.from in placed
    requires Distinct(children)
    requires forall x :: x in children <==> x in ids && x != current && Edge(current, x) in edges
    requires forall x :: x in ids ==> indegree[x] == |Waiting(edges, placed, x)|
    requires Edge(current, current) !in edges
    requires ReadyList(ids, placed + {current}, indegree, waitingReady)
    ensures indegree'.Keys == ids
    ensures forall x :: x in ids ==> indegree'[x] == |Waiting(edges, placed + {current}, x)|
    ensures ReadyList(ids, placed + {current}, indegree', ready)
  {
    hide Waiting, ReadyList, Enqueue;
    indegree', ready := indegree, waitingReady;
    ghost var target := map x | x in ids :: |Waiting(edges, placed + {current}, x)|;
    forall x | x in ids ensures target[x] == indegree[x] - if x in children then 1 else 0 {
      WaitingAfter(edges, placed, current, x);
    }
    for j := 0 to |children|
      invariant indegree'.Keys == ids
      invariant forall x :: x in ids ==> indegree'[x] == if x in children[..j] then target[x] else indegree[x]
      invariant ReadyList(ids, placed + {current}, indegree', ready)
    {
      var child := children[j];
      assert child in children && child !in children[..j];
      assert children[..j + 1] == children[..j] + [child];
      assert child !in placed + {current};
      assert |Waiting(edges, placed + {current}, child)| >= 0;
      CountDown(ids, placed + {current}, indegree', ready, child);
      indegree' := indegree'[child := indegree'[child] - 1];
      if indegree'[child] == 0 {
        ready := Enqueue(ready, child);
      }
    }
    assert children[..|children|] == children;
  }

  /** Taking the least available identifier keeps the list at or below every topological order. */
  lemma LeastChoice(edges: set<Edge>, ids: set<Id>, order: seq<Id>, ready: seq<Id>, o: seq<Id>)
    requires Within(edges, ids) && ready != []
    requires Ascending(Before, ready) && Elements(ready) == Available(edges, ids, Elements(order))
    requires IsTopological(edges, ids, o) && NotBelow(order, o)
    ensures NotBelow(order + [ready[0]], o)
  {
    var longer := order + [ready[0]];
    assert ready[0] in Elements(ready);
    if order <= o {
      assert ready[0] in Elements(o) && ready[0] !in order;
      var next := o[|order|];
      assert next in Elements(o);
      assert next !in order;
      forall e | e in edges && e.to == next ensures e.from in order {
        assert e.from in Elements(o);
        var i :| 0 <= i < |o| && o[i] == e.from;
        assert Edge(o[i], o[|order|]) in edges;
      }
      assert Waiting(edges, Elements(order), next) == {};
      assert next in Elements(ready);
      if next != ready[0] {
        assert LeavesUpwards(longer, o, |order|);
      }
    } else {
      var k: nat :| LeavesUpwards(order, o, k);
      assert longer[..k] == order[..k];
      assert LeavesUpwards(longer, o, k);
    }
  }

  ghost predicate NeverAbove(edges: set<Edge>, ids: set<Id>, order: seq<Id>) {
    forall o :: IsTopological(edges, ids, o) ==> NotBelow(order, o)
  }

  lemma LeastChoices(edges: set<Edge>, ids: set<Id>, order: seq<Id>, ready: seq<Id>)
    requires Within(edges, ids) && ready != []
    requires Ascending(Before, ready) && Elements(ready) == Available(edges, ids, Elements(order))
    requires NeverAbove(edges, ids, order)
    ensures NeverAbove(edges, ids, order + [ready[0]])
  {
    forall o | IsTopological(edges, ids, o) ensures NotBelow(order + [ready[0]], o) {
      LeastChoice(edges, ids, order, ready, o);
    }
  }

  /** Placing an available identifier keeps the list free of repeats and closed under predecessors. */
  lemma PlaceNext(edges: set<Edge>, ids: set<Id>, order: seq<Id>, current: Id)
    requires Within(edges, ids) && Distinct(order) && PredecessorsFirst(edges, order) && Elements(order) <= ids
    requires current in Available(edges, ids, Elements(order))
    ensures Distinct(order + [current]) && PredecessorsFirst(edges, order + [current])
    ensures |order| < |ids|
    ensures forall e :: e in edges && e.to in Elements(order) ==> e.from in Elements(order)
  {
    var longer := order + [current];
    forall i, e | 0 <= i < |longer| && e in edges && e.to == longer[i] ensures e.from in longer[..i] {
      if i == |order| {
        assert e !in Waiting(edges, Elements(order), current);
        assert longer[..i] == order;
      } else {
        assert longer[..i] == order[..i];
        assert e.to == order[i];
      }
    }
    forall i | 0 <= i < |order| ensures order[i] in ids { assert order[i] in Elements(order); }
    DistinctBound(longer, ids);
    forall e | e in edges && e.to in Elements(order) ensures e.from in Elements(order) {
      var i :| 0 <= i < |order| && order[i] == e.to;
      assert e.from in order[..i];
    }
  }

  lemma TopologicalIsAcyclic(edges: set<Edge>, ids: set<Id>, o: seq<Id>)
    requires Within(edges, ids) && IsTopological(edges, ids, o)
    ensures Acyclic(edges)
  {
    forall a ensures !Reaches(edges, a, a) {
      if Reaches(edges, a, a) {
        var s := ReachesFirst(edges, a, a);
        assert a in Elements(o);
        var i :| 0 <= i < |o| && o[i] == a;
        var later := Elements(o[i + 1..]);
        forall e | e in edges && (e.from in later || e.from == a) ensures e.to in later {
          assert e.from in Elements(o) && e.to in Elements(o);
          var k :| i <= k < |o| && o[k] == e.from;
          var j :| 0 <= j < |o| && o[j] == e.to;
          assert Edge(o[k], o[j]) in edges;
          assert o[i + 1..][j - i - 1] == o[j];
        }
        ClosedContains(edges, later, a, a);
      }
    }
  }

  /** With nothing available and something left over, the left-overs contain a cycle. */
  lemma StuckHasCycle(edges: set<Edge>, ids: set<Id>, placed: set<Id>)
    requires Within(edges, ids) && ids - placed != {} && Available(edges, ids, placed) == {}
    ensures !Acyclic(edges)
  {
    var rest := ids - placed;
    forall v | v in rest ensures HasPredecessor(edges, rest, v) {
      assert v !in Available(edges, ids, placed);
      var e :| e in Waiting(edges, placed, v);
      assert e.from in rest && Edge(e.from, v) in edges;
    }
    NoSourceHasCycle(edges, rest);
  }

  /** When nothing is available any more, either everything is placed in order or there is a cycle. */
  lemma Exhausted(edges: set<Edge>, ids: set<Id>, order: seq<Id>)
    requires Within(edges, ids) && Distinct(order) && PredecessorsFirst(edges, order)
    requires Elements(order) <= ids && Available(edges, ids, Elements(order)) == {}
    ensures |order| <= |ids|
    ensures |order| == |ids| ==> IsTopological(edges, ids, order) && Acyclic(edges)
    ensures |order| != |ids| ==> !Acyclic(edges)
  {
    DistinctSize(order);
    assert Elements(order) == set x | x in order;
    var rest := ids - Elements(order);
    assert |ids| == |rest| + |Elements(order)| by { assert ids == rest + Elements(order); }
    if rest == {} {
      forall i, j | 0 <= i < |order| && 0 <= j < |order| && Edge(order[i], order[j]) in edges ensures i < j {
        var e := Edge(order[i], order[j]);
        assert e.from in order[..j];
      }
      TopologicalIsAcyclic(edges, ids, order);
    } else {
      StuckHasCycle(edges, ids, Elements(order));
    }
  }

  /** What holds before every turn of the main loop. */
  ghost predicate Placing(edges: set<Edge>, ids: set<Id>, order: seq<Id>, indegree: map<Id, int>, ready: seq<Id>) {
    && Distinct(order) && Elements(order) <= ids && PredecessorsFirst(edges, order)
    && indegree.Keys == ids
    && (forall x :: x in ids ==> indegree[x] == |Waiting(edges, Elements(order), x)|)
    && ReadyList(ids, Elements(order), indegree, ready)
    && NeverAbove(edges, ids, order)
  }

  ghost predicate Adjacency(edges: set<Edge>, ids: set<Id>, children: map<Id, set<Id>>) {
    children.Keys == ids && forall x, y :: x in ids ==> (y in children[x] <==> Edge(x, y) in edges)
  }

  /** One turn of the main loop: place the first ready identifier and release its children. */
  method PlaceFirst(ghost edges: set<Edge>, ghost ids: set<Id>, adjacency: map<Id, set<Id>>,
                    order: seq<Id>, indegree: map<Id, int>, ready: seq<Id>)
    returns (order': seq<Id>, indegree': map<Id, int>, ready': seq<Id>)
    requires Within(edges, ids) && (forall e :: e in edges ==> e.from != e.to)
    requires Adjacency(edges, ids, adjacency)
    requires Placing(edges, ids, order, indegree, ready) && ready != []
    ensures order' == order + [ready[0]] && |order| < |ids|
    ensures Placing(edges, ids, order', indegree', ready')
  {
    hide Waiting, Before, Available, StrictTotal, NeverAbove, PredecessorsFirst;
    var current := ready[0];
    ReadyIsAvailable(edges, ids, order, indegree, ready);
    LeastChoices(edges, ids, order, ready);
    AvailableFirst(edges, ids, order, ready);
    PlaceNext(edges, ids, order, current);
    PopReady(ids, Elements(order), indegree, ready);
    order' := order + [current];
    assert Elements(order') == Elements(order) + {current};
    BeforeIsTotal();
    var children := Sort(Before, adjacency[current]);
    ChildrenAreDistinct(children);
    indegree', ready' := Release(edges, ids, Elements(order), current, children, indegree, ready[1..]);
  }

  lemma ChildrenAreDistinct(children: seq<Id>)
    requires Ascending(Before, children)
    ensures Distinct(children)
  {
    BeforeIsTotal();
  }

  lemma AvailableFirst(edges: set<Edge>, ids: set<Id>, order: seq<Id>, ready: seq<Id>)
    requires ready != [] && Elements(ready) == Available(edges, ids, Elements(order))
    ensures ready[0] in Available(edges, ids, Elements(order)) && ready[0] in ids && ready[0] !in Elements(order)
  {
    assert ready[0] in Elements(ready);
  }

  /**
   * Kahn's algorithm: the result lists every unit once with every edge forward, no other such
   * list comes before it, and the call fails exactly when the graph has a cycle.
   */
  method TopologicalOrder(g: Layout) returns (r: Result<seq<Id>>)
    requires g.Canonical()
    requires forall e :: e in g.edges ==> e.from != e.to
    ensures r.Ok? <==> Acyclic(Elements(g.edges))
    ensures r.Ok? ==> IsTopological(Elements(g.edges), Elements(g.ids), r.value)
    ensures r.Ok? ==> forall o :: IsTopological(Elements(g.edges), Elements(g.ids), o) ==>
                                    o == r.value || ListBefore(r.value, o)
    ensures r.Err? ==> r.error == DependencyCycle
  {
    hide Placing, IsTopological, Acyclic, ListBefore, Waiting, StrictTotal;
    BeforeIsTotal();
    ghost var edges, ids := Elements(g.edges), Elements(g.ids);
    var indegree, adjacency := CountIncoming(g);
    var ready := Sort(Before, set x | x in g.ids && indegree[x] == 0);
    var order: seq<Id> := [];
    NothingPlaced(edges, ids, indegree, ready);
    while ready != []
      invariant Placing(edges, ids, order, indegree, ready)
      decreases |ids| - |order|
    {
      order, indegree, ready := PlaceFirst(edges, ids, adjacency, order, indegree, ready);
    }
    Finished(g, order, indegree);
    if |order| != |g.ids| {
      return Err(DependencyCycle);
    }
    return Ok(order);
  }

  lemma NothingPlaced(edges: set<Edge>, ids: set<Id>, indegree: map<Id, int>, ready: seq<Id>)
    requires indegree.Keys == ids && forall x :: x in indegree ==> indegree[x] == |Waiting(edges, {}, x)|
    requires Ascending(Before, ready) && forall x :: x in ready <==> x in ids && indegree[x] == 0
    ensures Placing(edges, ids, [], indegree, ready)
  {
    assert Elements<Id>([]) == {};
  }

  lemma Finished(g: Layout, order: seq<Id>, indegree: map<Id, int>)
    requires g.Canonical() && Placing(Elements(g.edges), Elements(g.ids), order, indegree, [])
    ensures |order| == |g.ids| <==> Acyclic(Elements(g.edges))
    ensures |order| == |g.ids| ==> IsTopological(Elements(g.edges), Elements(g.ids), order)
    ensures |order| == |g.ids| ==> forall o :: IsTopological(Elements(g.edges), Elements(g.ids), o) ==>
                                                 o == order || ListBefore(order, o)
  {
    var edges, ids := Elements(g.edges), Elements(g.ids);
    ChildrenAreDistinct(g.ids);
    DistinctSize(g.ids);
    assert ids == set x | x in g.ids;
    ReadyIsAvailable(edges, ids, order, indegree, []);
    Exhausted(edges, ids, order);
    if |order| == |g.ids| {
      LeastOverall(edges, ids, order);
    }
  }

  lemma ReadyIsAvailable(edges: set<Edge>, ids: set<Id>, order: seq<Id>, indegree: map<Id, int>, ready: seq<Id>)
    requires indegree.Keys == ids && ReadyList(ids, Elements(order), indegree, ready)
    requires forall x :: x in ids ==> indegree[x] == |Waiting(edges, Elements(order), x)|
    ensures Elements(ready) == Available(edges, ids, Elements(order))
  {
    forall x | x in ids ensures indegree[x] == 0 <==> Waiting(edges, Elements(order), x) == {} {}
    forall x ensures x in Elements(ready) <==> x in Available(edges, ids, Elements(order)) {}
  }

  lemma PopReady(ids: set<Id>, placed: set<Id>, indegree: map<Id, int>, ready: seq<Id>)
    requires indegree.Keys == ids && ReadyList(ids, placed, indegree, ready) && ready != []
    ensures ReadyList(ids, placed + {ready[0]}, indegree, ready[1..])
  {
    BeforeIsTotal();
    forall i | 0 < i < |ready| ensures ready[i] != ready[0] { assert Before(ready[0], ready[i]); }
    assert ready == [ready[0]] + ready[1..];
  }

  lemma LeastOverall(edges: set<Edge>, ids: set<Id>, order: seq<Id>)
    requires IsTopological(edges, ids, order) && |order| == |ids|
    requires NeverAbove(edges, ids, order)
    ensures forall o :: IsTopological(edges, ids, o) ==> o == order || ListBefore(order, o)
  {
    forall o | IsTopological(edges, ids, o) ensures o == order || ListBefore(order, o) {
      if order <= o {
        forall i | 0 <= i < |o| ensures o[i] in ids { assert o[i] in Elements(o); }
        DistinctBound(o, ids);
      } else {
        var k: nat :| LeavesUpwards(order, o, k);
        LexAt(Before, order, o, k);
      }
    }
  }
}
