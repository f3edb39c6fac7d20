/**
 * `transitive_dependents`: the queue-driven search for everything downstream of a unit.
 */
module Dependents {
  import opened Digraph
  import opened Order

  ghost predicate DependentsOf(edges: set<Edge>, ids: set<Id>, dependents: map<Id, seq<Id>>) {
    && Within(edges, ids) && dependents.Keys == ids
    && (forall x, y :: x in ids ==> (y in dependents[x] <==> Edge(x, y) in edges))
    && forall x :: x in ids ==> Ascending(Before, dependents[x])
  }

  /** `x` is a direct dependent of the unit at place `p` and of none before it. */
  ghost predicate FirstParent(edges: set<Edge>, order: seq<Id>, x: Id, p: nat) {
    p < |order| && Edge(order[p], x) in edges && forall q: nat :: q < p ==> Edge(order[q], x) !in edges
  }

  ghost predicate HasParent(edges: set<Edge>, order: seq<Id>, x: Id, bound: nat) {
    exists p: nat :: p <= bound && FirstParent(edges, order, x, p)
  }

  /**
   * The list, behind the unit it starts from, is in breadth-first order: every unit has a parent
   * before it, units come in the order of their first parents, and those of one parent sorted.
   */
  ghost predicate BreadthFirst(edges: set<Edge>, u: Id, result: seq<Id>) {
    && (forall i: nat :: i < |result| ==> HasParent(edges, [u] + result, result[i], i))
    && forall i: nat, j: nat, p: nat, q: nat ::
         i < j < |result| &&
           FirstParent(edges, [u] + result, result[i], p) && FirstParent(edges, [u] + result, result[j], q) ==>
           SlotBefore(Slot(p, result[i]), Slot(q, result[j]))
  }

  /** A unit and the place of the unit it was met from. */
  datatype Slot = Slot(parent: nat, id: Id)

  predicate SlotBefore(a: Slot, b: Slot) { a.parent < b.parent || (a.parent == b.parent && Before(a.id, b.id)) }

  ghost predicate Placed(edges: set<Edge>, u: Id, result: seq<Id>, placed: seq<Slot>) {
    |placed| == |result| &&
    forall i: nat :: i < |result| ==>
      placed[i].id == result[i] && placed[i].parent <= i &&
      FirstParent(edges, [u] + result, result[i], placed[i].parent)
  }

  ghost predicate Waits(edges: set<Edge>, u: Id, result: seq<Id>, queue: seq<Id>, waiting: seq<Slot>) {
    |waiting| == |queue| &&
    forall i: nat :: i < |queue| ==>
      && waiting[i].id == queue[i] && waiting[i].parent <= |result|
      && Edge(([u] + result)[waiting[i].parent], queue[i]) in edges
  }

  /** Every direct dependent of what is listed is listed too, or waits under that parent. */
  ghost predicate Covered(edges: set<Edge>, u: Id, result: seq<Id>, waiting: seq<Slot>) {
    forall p: nat, y :: p <= |result| && Edge(([u] + result)[p], y) in edges ==> y in result || Slot(p, y) in waiting
  }

  ghost predicate Lined(edges: set<Edge>, u: Id, result: seq<Id>, queue: seq<Id>,
                        placed: seq<Slot>, waiting: seq<Slot>) {
    && Placed(edges, u, result, placed) && Waits(edges, u, result, queue, waiting)
    && Covered(edges, u, result, waiting) && Ascending(SlotBefore, placed + waiting)
  }

  /** The dependents of the unit at place `p`. */
  function Slots(p: nat, children: seq<Id>): (slots: seq<Slot>)
    ensures |slots| == |children| && forall i :: 0 <= i < |children| ==> slots[i] == Slot(p, children[i])
  {
    seq(|children|, i requires 0 <= i < |children| => Slot(p, children[i]))
  }

  /** What was met is downstream of `u`, and whatever follows `u` or a visited unit has been met. */
  ghost predicate Frontier(edges: set<Edge>, ids: set<Id>, u: Id, visited: set<Id>, queue: seq<Id>) {
    && (forall x :: x in visited || x in queue ==> x in ids && Reaches(edges, u, x))
    && (forall e :: e in edges && (e.from == u || e.from in visited) ==> e.to in visited || e.to in queue)
  }

  /** The result so far has exactly the visited units, each once. */
  ghost predicate Listed(ids: set<Id>, visited: set<Id>, result: seq<Id>) {
    Distinct(result) && Elements(result) == visited && visited <= ids && |result| <= |ids|
  }

  lemma NothingListed(ids: set<Id>)
    ensures Listed(ids, {}, [])
  {
  }

  lemma ListOne(ids: set<Id>, visited: set<Id>, result: seq<Id>, current: Id)
    requires Listed(ids, visited, result) && current in ids && current !in visited
    ensures Listed(ids, visited + {current}, result + [current]) && current !in result
  {
    assert current in Elements(result) <==> current in result;
    var more := result + [current];
    DistinctSize(more);
    assert Elements(more) == visited + {current};
    SubsetSize(Elements(more), ids);
  }

  lemma WasListed(ids: set<Id>, visited: set<Id>, result: seq<Id>)
    requires Listed(ids, visited, result)
    ensures Distinct(result) && Elements(result) == visited && |result| <= |ids|
    ensures forall x :: x in visited <==> x in result
  {
    assert forall x :: x in Elements(result) <==> x in result;
  }

  /** Every unit downstream of `u`, each once, in breadth-first order; `u` itself only on a cycle. */
  method TransitiveDependents(dependents: map<Id, seq<Id>>, u: Id, ghost edges: set<Edge>, ghost ids: set<Id>)
    returns (result: seq<Id>)
    requires DependentsOf(edges, ids, dependents) && u in ids
    ensures Distinct(result) && Elements(result) == Downstream(edges, ids, u)
    ensures BreadthFirst(edges, u, result)
    ensures Acyclic(edges) ==> u !in result
  {
    assert dependents.Keys == ids;
    hide Reaches, Acyclic, Lined, BreadthFirst, DependentsOf, Frontier, Listed, Downstream, Slots, Within;
    ghost var placed: seq<Slot>, waiting := [], Slots(0, dependents[u]);
    LinedStart(edges, ids, dependents, u);
    result := [];
    NothingListed(ids);
    var queue := dependents[u];
    var visited: set<Id> := {};
    FrontierStart(edges, ids, dependents, u);
    while queue != []
      invariant Listed(ids, visited, result) && Frontier(edges, ids, u, visited, queue)
      invariant Lined(edges, u, result, queue, placed, waiting)
      decreases |ids| - |result|, |queue|
    {
      var current := queue[0];
      var rest := queue[1..];
      WasListed(ids, visited, result);
      if current in visited {
        LinedSkip(edges, u, result, queue, placed, waiting);
        queue, waiting := rest, waiting[1..];
        continue;
      }
      FollowOne(edges, ids, dependents, u, visited, queue);
      ListOne(ids, visited, result, current);
      LinedTake(edges, ids, dependents, u, result, queue, placed, waiting);
      placed, waiting := placed + [waiting[0]], waiting[1..] + Slots(|result| + 1, dependents[current]);
      visited := visited + {current};
      result := result + [current];
      queue := rest + dependents[current];
    }
    WasListed(ids, visited, result);
    LinedIsBreadthFirst(edges, u, result, placed, waiting);
    AllMet(edges, ids, u, visited);
    assert Acyclic(edges) ==> u !in Downstream(edges, ids, u) by {
      NotOwnDependent(edges, ids, u);
    }
  }

  lemma FollowOne(edges: set<Edge>, ids: set<Id>, dependents: map<Id, seq<Id>>, u: Id, visited: set<Id>, queue: seq<Id>)
    requires DependentsOf(edges, ids, dependents) && queue != []
    requires Frontier(edges, ids, u, visited, queue)
    ensures queue[0] in ids
    ensures Frontier(edges, ids, u, visited + {queue[0]}, queue[1..] + dependents[queue[0]])
  {
    var current, rest := queue[0], queue[1..];
    var longer := rest + dependents[current];
    assert queue == [current] + rest;
    forall x | x in dependents[current] ensures x in ids && Reaches(edges, u, x) {
      EdgeReaches(edges, current, x);
      ReachesTransitive(edges, u, current, x);
    }
    forall e | e in edges && (e.from == u || e.from in visited + {current})
      ensures e.to in visited + {current} || e.to in longer
    {
      if e.from == current { assert Edge(current, e.to) in edges; }
    }
  }

  lemma AllMet(edges: set<Edge>, ids: set<Id>, u: Id, visited: set<Id>)
    requires Frontier(edges, ids, u, visited, [])
    ensures visited == Downstream(edges, ids, u)
  {
    forall x | x in Downstream(edges, ids, u) ensures x in visited {
      ClosedContains(edges, visited, u, x);
    }
  }

  lemma NotOwnDependent(edges: set<Edge>, ids: set<Id>, u: Id)
    ensures Acyclic(edges) ==> u !in Downstream(edges, ids, u)
  {
  }

  lemma FrontierStart(edges: set<Edge>, ids: set<Id>, dependents: map<Id, seq<Id>>, u: Id)
    requires DependentsOf(edges, ids, dependents) && u in ids
    ensures u in dependents && Frontier(edges, ids, u, {}, dependents[u])
  {
    hide Reaches;
    forall x | x in dependents[u] ensures x in ids && Reaches(edges, u, x) {
      assert Edge(u, x) in edges;
      EdgeReaches(edges, u, x);
    }
    forall e | e in edges && e.from == u ensures e.to in dependents[u] { assert Edge(u, e.to) in edges; }
  }

  // ---------------------------------------------------------------- breadth first

  lemma LinedStart(edges: set<Edge>, ids: set<Id>, dependents: map<Id, seq<Id>>, u: Id)
    requires DependentsOf(edges, ids, dependents) && u in ids
    ensures Lined(edges, u, [], dependents[u], [], Slots(0, dependents[u]))
  {
    var queue, waiting := dependents[u], Slots(0, dependents[u]);
    assert [u] + [] == [u];
    forall i: nat | i < |queue| ensures Edge(u, queue[i]) in edges { assert queue[i] in queue; }
    forall p: nat, y | p <= 0 && Edge([u][p], y) in edges ensures Slot(p, y) in waiting { InSlots(0, queue, y); }
    assert [] + waiting == waiting;
  }

  lemma InSlots(p: nat, children: seq<Id>, y: Id)
    requires y in children
    ensures Slot(p, y) in Slots(p, children)
  {
    var i :| 0 <= i < |children| && children[i] == y;
    assert Slots(p, children)[i] == Slot(p, y);
  }

  lemma LinedSkip(edges: set<Edge>, u: Id, result: seq<Id>, queue: seq<Id>, placed: seq<Slot>, waiting: seq<Slot>)
    requires Lined(edges, u, result, queue, placed, waiting) && queue != [] && queue[0] in result
    ensures |waiting| == |queue| && Lined(edges, u, result, queue[1..], placed, waiting[1..])
  {
    hide Before;
    assert waiting == [waiting[0]] + waiting[1..];
    DropOne(placed, waiting);
  }

  lemma DropOne(placed: seq<Slot>, waiting: seq<Slot>)
    requires waiting != [] && Ascending(SlotBefore, placed + waiting)
    ensures Ascending(SlotBefore, placed + waiting[1..])
  {
    hide SlotBefore;
    var all, less := placed + waiting, placed + waiting[1..];
    forall i, j | 0 <= i < j < |less| ensures SlotBefore(less[i], less[j]) {
      var i', j' := if i < |placed| then i else i + 1, if j < |placed| then j else j + 1;
      assert less[i] == all[i'] && less[j] == all[j'] && i' < j';
    }
  }

  lemma FrontIsLeast(placed: seq<Slot>, waiting: seq<Slot>)
    requires Ascending(SlotBefore, placed + waiting) && waiting != []
    ensures forall slot :: slot in waiting ==> waiting[0].parent <= slot.parent
  {
    hide Before;
    var all := placed + waiting;
    forall i: nat | i < |waiting| ensures waiting[0].parent <= waiting[i].parent {
      assert all[|placed|] == waiting[0] && all[|placed| + i] == waiting[i];
    }
  }

  /** What waits in front has its first parent where it was met from. */
  lemma FrontParent(edges: set<Edge>, u: Id, result: seq<Id>, queue: seq<Id>, placed: seq<Slot>, waiting: seq<Slot>)
    requires Lined(edges, u, result, queue, placed, waiting) && queue != [] && queue[0] !in result
    ensures |waiting| == |queue| && waiting[0].parent <= |result| && waiting[0].id == queue[0]
    ensures FirstParent(edges, [u] + result, queue[0], waiting[0].parent)
  {
    hide Before;
    var order := [u] + result;
    FrontIsLeast(placed, waiting);
    forall q: nat | q < waiting[0].parent ensures Edge(order[q], queue[0]) !in edges {
      assert Slot(q, queue[0]) !in waiting;
    }
  }

  lemma LongerOrder(edges: set<Edge>, order: seq<Id>, last: Id, x: Id, p: nat)
    requires FirstParent(edges, order, x, p)
    ensures FirstParent(edges, order + [last], x, p)
  {
  }

  lemma LinedTake(edges: set<Edge>, ids: set<Id>, dependents: map<Id, seq<Id>>, u: Id, result: seq<Id>, queue: seq<Id>,
                  placed: seq<Slot>, waiting: seq<Slot>)
    requires DependentsOf(edges, ids, dependents) && Lined(edges, u, result, queue, placed, waiting)
    requires queue != [] && queue[0] in ids && queue[0] !in result
    ensures |waiting| == |queue|
    ensures Lined(edges, u, result + [queue[0]], queue[1..] + dependents[queue[0]],
                  placed + [waiting[0]], waiting[1..] + Slots(|result| + 1, dependents[queue[0]]))
  {
    hide FirstParent, SlotBefore, Ascending;
    var current, children := queue[0], dependents[queue[0]];
    FrontParent(edges, u, result, queue, placed, waiting);
    PlacedTake(edges, u, result, queue, placed, waiting);
    WaitsTake(edges, ids, dependents, u, result, queue, waiting);
    CoveredTake(edges, ids, dependents, u, result, queue, waiting);
    assert placed + [waiting[0]] + waiting[1..] == placed + waiting;
    AscendingTake(placed + waiting, |result| + 1, children) by {
      forall i: nat | i < |placed + waiting| ensures (placed + waiting)[i].parent < |result| + 1 {
        if i < |placed| { assert placed[i].parent <= i; } else { assert waiting[i - |placed|].parent <= |result|; }
      }
    }
    assert placed + [waiting[0]] + (waiting[1..] + Slots(|result| + 1, children))
        == placed + waiting + Slots(|result| + 1, children);
  }

  lemma PlacedTake(edges: set<Edge>, u: Id, result: seq<Id>, queue: seq<Id>, placed: seq<Slot>, waiting: seq<Slot>)
    requires Placed(edges, u, result, placed) && queue != [] && |waiting| == |queue|
    requires waiting[0].parent <= |result| && waiting[0].id == queue[0]
    requires FirstParent(edges, [u] + result, queue[0], waiting[0].parent)
    ensures Placed(edges, u, result + [queue[0]], placed + [waiting[0]])
  {
    hide FirstParent;
    var more := result + [queue[0]];
    assert [u] + more == [u] + result + [queue[0]];
    forall i: nat | i < |more| ensures FirstParent(edges, [u] + more, more[i], (placed + [waiting[0]])[i].parent) {
      LongerOrder(edges, [u] + result, queue[0], more[i], (placed + [waiting[0]])[i].parent);
    }
  }

  lemma WaitsTake(edges: set<Edge>, ids: set<Id>, dependents: map<Id, seq<Id>>, u: Id, result: seq<Id>, queue: seq<Id>,
                  waiting: seq<Slot>)
    requires DependentsOf(edges, ids, dependents) && Waits(edges, u, result, queue, waiting)
    requires queue != [] && queue[0] in ids
    ensures Waits(edges, u, result + [queue[0]], queue[1..] + dependents[queue[0]],
                  waiting[1..] + Slots(|result| + 1, dependents[queue[0]]))
  {
    hide Before;
    var current, children := queue[0], dependents[queue[0]];
    var order, more := [u] + result, [u] + (result + [current]);
    assert more == order + [current];
    var queue', waiting' := queue[1..] + children, waiting[1..] + Slots(|result| + 1, children);
    forall i: nat | i < |queue'|
      ensures waiting'[i].id == queue'[i] && waiting'[i].parent < |more| &&
        Edge(more[waiting'[i].parent], queue'[i]) in edges
    {
      if i < |queue| - 1 {
        assert queue'[i] == queue[i + 1] && waiting'[i] == waiting[i + 1];
      } else {
        assert queue'[i] == children[i - |queue| + 1] && queue'[i] in children;
      }
    }
  }

  lemma CoveredTake(edges: set<Edge>, ids: set<Id>, dependents: map<Id, seq<Id>>, u: Id, result: seq<Id>,
                    queue: seq<Id>,
                    waiting: seq<Slot>)
    requires DependentsOf(edges, ids, dependents) && Covered(edges, u, result, waiting)
    requires Waits(edges, u, result, queue, waiting) && queue != [] && queue[0] in ids
    ensures Covered(edges, u, result + [queue[0]], waiting[1..] + Slots(|result| + 1, dependents[queue[0]]))
  {
    hide Before;
    var current, children := queue[0], dependents[queue[0]];
    var more, waiting' := result + [current], waiting[1..] + Slots(|result| + 1, children);
    assert [u] + more == [u] + result + [current] && waiting == [waiting[0]] + waiting[1..];
    forall p: nat, y | p <= |more| && Edge(([u] + more)[p], y) in edges ensures y in more || Slot(p, y) in waiting' {
      if p <= |result| {
        assert ([u] + more)[p] == ([u] + result)[p];
      } else {
        InSlots(p, children, y);
      }
    }
  }

  lemma AscendingTake(slots: seq<Slot>, p: nat, children: seq<Id>)
    requires Ascending(SlotBefore, slots) && Ascending(Before, children)
    requires forall i: nat :: i < |slots| ==> slots[i].parent < p
    ensures Ascending(SlotBefore, slots + Slots(p, children))
  {
    hide Before;
    var all := slots + Slots(p, children);
    forall i: nat, j: nat | i < j < |all| ensures SlotBefore(all[i], all[j]) {
      if j < |slots| {
        assert all[i] == slots[i] && all[j] == slots[j];
      } else {
        assert all[j] == Slot(p, children[j - |slots|]);
        if i < |slots| {
          assert all[i] == slots[i];
        } else {
          assert all[i] == Slot(p, children[i - |slots|]);
        }
      }
    }
  }

  lemma FirstParentUnique(edges: set<Edge>, order: seq<Id>, x: Id, p: nat, q: nat)
    requires FirstParent(edges, order, x, p) && FirstParent(edges, order, x, q)
    ensures p == q
  {
  }

  lemma LinedIsBreadthFirst(edges: set<Edge>, u: Id, result: seq<Id>, placed: seq<Slot>, waiting: seq<Slot>)
    requires Lined(edges, u, result, [], placed, waiting)
    ensures BreadthFirst(edges, u, result)
  {
    hide FirstParent, Before;
    assert placed + waiting == placed;
    forall i: nat | i < |result| ensures HasParent(edges, [u] + result, result[i], i) {
      assert FirstParent(edges, [u] + result, result[i], placed[i].parent);
    }
    forall i: nat, j: nat, p: nat, q: nat |
      i < j < |result| &&
           FirstParent(edges, [u] + result, result[i], p) && FirstParent(edges, [u] + result, result[j], q)
      ensures SlotBefore(Slot(p, result[i]), Slot(q, result[j]))
    {
      assert placed[i].id == result[i] && placed[j].id == result[j];
      FirstParentUnique(edges, [u] + result, result[i], p, placed[i].parent);
      FirstParentUnique(edges, [u] + result, result[j], q, placed[j].parent);
      assert placed[i] == Slot(p, result[i]) && placed[j] == Slot(q, result[j]);
      assert SlotBefore(placed[i], placed[j]);
    }
  }

  // ---------------------------------------------------------------- what the order means

  /** The place of the first parent of the unit at place `k` behind the start. */
  ghost function ParentOf(edges: set<Edge>, u: Id, result: seq<Id>, k: nat): (p: nat)
    requires BreadthFirst(edges, u, result) && k < |result|
    ensures p <= k && FirstParent(edges, [u] + result, result[k], p)
  {
    assert HasParent(edges, [u] + result, result[k], k);
    var p: nat :| p <= k && FirstParent(edges, [u] + result, result[k], p);
    p
  }

  /** How many edges the unit at a place of `[u] + result` is away along first parents. */
  ghost function Level(edges: set<Edge>, u: Id, result: seq<Id>, place: nat): nat
    requires BreadthFirst(edges, u, result) && place <= |result|
    decreases place
  {
    if place == 0 then 0 else 1 + Level(edges, u, result, ParentOf(edges, u, result, place - 1))
  }

  lemma {:induction false} LevelsRise(edges: set<Edge>, u: Id, result: seq<Id>, i: nat, j: nat)
    requires BreadthFirst(edges, u, result) && i <= j <= |result|
    ensures Level(edges, u, result, i) <= Level(edges, u, result, j)
    decreases j
  {
    hide FirstParent, Before;
    if 0 < i < j {
      var p, q := ParentOf(edges, u, result, i - 1), ParentOf(edges, u, result, j - 1);
      assert SlotBefore(Slot(p, result[i - 1]), Slot(q, result[j - 1]));
      LevelsRise(edges, u, result, p, q);
    }
  }

  /** A walk of that many edges leads to the unit. */
  lemma {:induction false} LevelWalk(edges: set<Edge>, u: Id, result: seq<Id>, place: nat) returns (w: seq<Id>)
    requires BreadthFirst(edges, u, result) && 0 < place <= |result|
    ensures Leads(edges, w, u, result[place - 1]) && |w| == Level(edges, u, result, place) + 1
    decreases place
  {
    hide BreadthFirst;
    var p := ParentOf(edges, u, result, place - 1);
    var x := result[place - 1];
    if p == 0 {
      w := [u, x];
      assert IsWalk(edges, w);
    } else {
      var v := LevelWalk(edges, u, result, p);
      w := v + [x];
      forall i | 0 <= i < |w| - 1 ensures Edge(w[i], w[i + 1]) in edges {
        if i < |v| - 1 { assert w[i] == v[i] && w[i + 1] == v[i + 1]; } else { assert w[i] == result[p - 1]; }
      }
    }
  }

  /** And no shorter one. */
  lemma {:induction false} LevelIsLeast(edges: set<Edge>, ids: set<Id>, u: Id, result: seq<Id>, place: nat, w: seq<Id>)
    requires BreadthFirst(edges, u, result) && 0 < place <= |result| && Within(edges, ids)
    requires Elements(result) == Downstream(edges, ids, u) && Leads(edges, w, u, result[place - 1])
    ensures Level(edges, u, result, place) < |w|
    decreases |w|
  {
    hide BreadthFirst;
    var order, n := [u] + result, |w| - 2;
    var p := ParentOf(edges, u, result, place - 1);
    assert Edge(w[n], w[n + 1]) in edges && order[place] == result[place - 1] == w[n + 1];
    if n == 0 {
      assert order[0] == w[0] && p == 0;
    } else {
      var v := w[..n + 1];
      assert IsWalk(edges, v) by {
        forall i | 0 <= i < |v| - 1 ensures Edge(v[i], v[i + 1]) in edges {
          assert w[i] == v[i] && w[i + 1] == v[i + 1];
        }
      }
      assert Leads(edges, v, u, w[n]);
      assert w[n] in Downstream(edges, ids, u);
      assert w[n] in Elements(result);
      var k :| 0 <= k < |result| && result[k] == w[n];
      LevelIsLeast(edges, ids, u, result, k + 1, v);
      assert order[k + 1] == w[n];
      assert p <= k + 1;
      LevelsRise(edges, u, result, p, k + 1);
    }
  }

  /** In a complete list in breadth-first order no unit comes behind one that is further away. */
  lemma CloserFirst(edges: set<Edge>, ids: set<Id>, u: Id, result: seq<Id>, i: nat, j: nat, w: seq<Id>)
    requires BreadthFirst(edges, u, result) && Within(edges, ids) && Elements(result) == Downstream(edges, ids, u)
    requires i <= j < |result| && Leads(edges, w, u, result[j])
    ensures exists v :: Leads(edges, v, u, result[i]) && |v| <= |w|
  {
    hide BreadthFirst, Downstream, Elements, Leads;
    LevelIsLeast(edges, ids, u, result, j + 1, w);
    LevelsRise(edges, u, result, i + 1, j + 1);
    var v := LevelWalk(edges, u, result, i + 1);
  }

  lemma {:induction false} OneOrder(edges: set<Edge>, u: Id, a: seq<Id>, b: seq<Id>, k: nat)
    requires BreadthFirst(edges, u, a) && BreadthFirst(edges, u, b) && Distinct(a) && Distinct(b)
    requires Elements(a) == Elements(b) && k <= |a| && k <= |b|
    ensures a[..k] == b[..k]
    decreases k
  {
    hide BreadthFirst, Distinct, Elements;
    if k > 0 {
      OneOrder(edges, u, a, b, k - 1);
      SamePlace(edges, u, a, b, k - 1);
      assert a[..k] == a[..k - 1] + [a[k - 1]] && b[..k] == b[..k - 1] + [b[k - 1]];
    }
  }

  lemma SamePlace(edges: set<Edge>, u: Id, a: seq<Id>, b: seq<Id>, k: nat)
    requires BreadthFirst(edges, u, a) && BreadthFirst(edges, u, b) && Distinct(a) && Distinct(b)
    requires Elements(a) == Elements(b) && k < |a| && k < |b| && a[..k] == b[..k]
    ensures a[k] == b[k]
  {
    hide Before, BreadthFirst, SlotBefore;
    if a[k] != b[k] {
      var p, q := ParentOf(edges, u, a, k), ParentOf(edges, u, b, k);
      CommonParent(edges, u, a, b, k, a[k], p);
      CommonParent(edges, u, b, a, k, b[k], q);
      var j := Later(a, b, k);
      var i := Later(b, a, k);
      SlotsFollow(edges, u, a, k, j, p, q);
      SlotsFollow(edges, u, b, k, i, q, p);
      NotBoth(Slot(p, a[k]), Slot(q, b[k]));
    }
  }

  /** A parent among the places that two lists share is the first parent in both. */
  lemma CommonParent(edges: set<Edge>, u: Id, a: seq<Id>, b: seq<Id>, k: nat, x: Id, p: nat)
    requires k <= |a| && k <= |b| && a[..k] == b[..k] && p <= k && FirstParent(edges, [u] + a, x, p)
    ensures FirstParent(edges, [u] + b, x, p)
  {
    forall q: nat | q <= k ensures ([u] + a)[q] == ([u] + b)[q] {
      if q > 0 { assert a[..k][q - 1] == b[..k][q - 1]; }
    }
  }

  /** What the other list has at place `k` comes later in this one. */
  lemma Later(a: seq<Id>, b: seq<Id>, k: nat) returns (j: nat)
    requires Distinct(b) && Elements(a) == Elements(b) && k < |a| && k < |b| && a[..k] == b[..k] && a[k] != b[k]
    ensures k < j < |a| && a[j] == b[k]
  {
    assert b[k] in Elements(b);
    assert b[k] in a;
    forall q: nat | q < k ensures a[q] != b[k] { assert a[..k][q] == b[..k][q]; }
    j :| 0 <= j < |a| && a[j] == b[k];
  }

  lemma SlotsFollow(edges: set<Edge>, u: Id, a: seq<Id>, i: nat, j: nat, p: nat, q: nat)
    requires BreadthFirst(edges, u, a) && i < j < |a|
    requires FirstParent(edges, [u] + a, a[i], p) && FirstParent(edges, [u] + a, a[j], q)
    ensures SlotBefore(Slot(p, a[i]), Slot(q, a[j]))
  {
    hide FirstParent, Before, SlotBefore;
  }

  lemma NotBoth(a: Slot, b: Slot)
    ensures !(SlotBefore(a, b) && SlotBefore(b, a))
  {
    BeforeIsTotal();
    hide Before;
    assert Before(a.id, b.id) && Before(b.id, a.id) ==> Before(a.id, a.id);
  }

  /** There is only one such list. */
  lemma OnlyOneOrder(edges: set<Edge>, u: Id, a: seq<Id>, b: seq<Id>)
    requires BreadthFirst(edges, u, a) && BreadthFirst(edges, u, b) && Distinct(a) && Distinct(b)
    requires Elements(a) == Elements(b)
    ensures a == b
  {
    hide BreadthFirst, Distinct;
    DistinctSize(a);
    DistinctSize(b);
    OneOrder(edges, u, a, b, |a|);
    assert a[..|a|] == a && b[..|a|] == b;
  }
}
