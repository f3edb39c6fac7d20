/** Depth of a unit below the roots, and the critical path of a graph. */
module Depth {
  import opened Digraph

  function Max(s: set<nat>): (m: nat)
    ensures forall x :: x in s ==> x <= m
    ensures s == {} ==> m == 0
    ensures s != {} ==> m in s
    decreases |s|
  {
    if s == {} then 0
    else
      MaxExists(s);
      var m :| m in s && forall x :: x in s ==> x <= m;
      m
  }

  lemma {:induction false} MaxOf(s: set<nat>) returns (m: nat)
    requires s != {}
    ensures m in s && forall x :: x in s ==> x <= m
    decreases |s|
  {
    var x :| x in s;
    m := x;
    if s - {x} != {} {
      var y := MaxOf(s - {x});
      m := if y > x then y else x;
      forall z | z in s ensures z <= m { assert z == x || z in s - {x}; }
    } else {
      assert s == {x};
    }
  }

  lemma MaxExists(s: set<nat>)
    requires s != {}
    ensures exists m :: m in s && forall x :: x in s ==> x <= m
  {
    var m := MaxOf(s);
  }

  /** One more than the deepest predecessor. */
  ghost function DepthOf(edges: set<Edge>, ids: set<Id>, v: Id): nat
    requires Acyclic(edges)
    decreases Upstream(edges, ids, v)
  {
    1 + Max(set p | p in ids && Edge(p, v) in edges :: (UpstreamShrinks(edges, ids, p, v); DepthOf(edges, ids, p)))
  }

  ghost function LongestPath(edges: set<Edge>, ids: set<Id>): nat
    requires Acyclic(edges)
  {
    Max(set v | v in ids :: DepthOf(edges, ids, v))
  }

  lemma PredecessorShallower(edges: set<Edge>, ids: set<Id>, p: Id, v: Id)
    requires Acyclic(edges) && p in ids && Edge(p, v) in edges
    ensures DepthOf(edges, ids, p) < DepthOf(edges, ids, v)
  {
    UpstreamShrinks(edges, ids, p, v);
    var depths := set q | q in ids && Edge(q, v) in edges ::
      (UpstreamShrinks(edges, ids, q, v); DepthOf(edges, ids, q));
    assert DepthOf(edges, ids, p) in depths;
    assert DepthOf(edges, ids, v) == 1 + Max(depths);
  }

  /** A unit is at most one deeper than what bounds all its predecessors. */
  lemma DepthBound(edges: set<Edge>, ids: set<Id>, v: Id, k: nat)
    requires Acyclic(edges)
    requires forall p :: p in ids && Edge(p, v) in edges ==> DepthOf(edges, ids, p) <= k
    ensures DepthOf(edges, ids, v) <= k + 1
  {
  }

  /** More edges, more depth. */
  lemma {:induction false} DepthMonotone(small: set<Edge>, large: set<Edge>, ids: set<Id>, v: Id)
    requires small <= large && Acyclic(large) && Acyclic(small)
    ensures DepthOf(small, ids, v) <= DepthOf(large, ids, v)
    decreases Upstream(large, ids, v)
  {
    forall p | p in ids && Edge(p, v) in small ensures DepthOf(small, ids, p) <= DepthOf(large, ids, v) - 1 {
      UpstreamShrinks(large, ids, p, v);
      DepthMonotone(small, large, ids, p);
      PredecessorShallower(large, ids, p, v);
    }
    DepthBound(small, ids, v, DepthOf(large, ids, v) - 1);
  }

  /** A walk of at least one vertex that ends at `v`. */
  ghost predicate EndsAt(edges: set<Edge>, w: seq<Id>, v: Id) {
    w != [] && IsWalk(edges, w) && w[|w| - 1] == v
  }

  lemma {:induction false} WalkNoLonger(edges: set<Edge>, ids: set<Id>, v: Id, w: seq<Id>)
    requires Acyclic(edges) && Within(edges, ids) && EndsAt(edges, w, v)
    ensures |w| <= DepthOf(edges, ids, v)
    decreases |w|
  {
    hide Acyclic, DepthOf;
    if |w| > 1 {
      var n := |w| - 1;
      assert Edge(w[n - 1], w[n]) in edges;
      assert IsWalk(edges, w[..n]);
      WalkNoLonger(edges, ids, w[n - 1], w[..n]);
      PredecessorShallower(edges, ids, w[n - 1], v);
    } else {
      DepthPositive(edges, ids, v);
    }
  }

  lemma DepthPositive(edges: set<Edge>, ids: set<Id>, v: Id)
    requires Acyclic(edges)
    ensures DepthOf(edges, ids, v) >= 1
  {
  }

  /** The deepest predecessor, when there is any. */
  lemma DeepestPredecessor(edges: set<Edge>, ids: set<Id>, v: Id) returns (p: Id)
    requires Acyclic(edges) && DepthOf(edges, ids, v) > 1
    ensures p in ids && Edge(p, v) in edges && DepthOf(edges, ids, v) == 1 + DepthOf(edges, ids, p)
  {
    var depths := set q | q in ids && Edge(q, v) in edges ::
      (UpstreamShrinks(edges, ids, q, v); DepthOf(edges, ids, q));
    assert DepthOf(edges, ids, v) == 1 + Max(depths);
    p :| p in ids && Edge(p, v) in edges && DepthOf(edges, ids, p) == Max(depths);
  }

  lemma {:induction false} LongestWalk(edges: set<Edge>, ids: set<Id>, v: Id) returns (w: seq<Id>)
    requires Acyclic(edges)
    ensures EndsAt(edges, w, v) && |w| == DepthOf(edges, ids, v)
    decreases DepthOf(edges, ids, v)
  {
    hide Acyclic, DepthOf;
    DepthPositive(edges, ids, v);
    if DepthOf(edges, ids, v) > 1 {
      var p := DeepestPredecessor(edges, ids, v);
      var front := LongestWalk(edges, ids, p);
      w := front + [v];
      forall i | 0 <= i < |w| - 1 ensures Edge(w[i], w[i + 1]) in edges {
        if i < |front| - 1 { assert w[i] == front[i] && w[i + 1] == front[i + 1]; }
      }
    } else {
      w := [v];
    }
  }

  /** The depth of a unit is the number of units on a longest walk that ends at it. */
  lemma DepthIsLongestWalk(edges: set<Edge>, ids: set<Id>, v: Id)
    requires Acyclic(edges) && Within(edges, ids)
    ensures exists w :: EndsAt(edges, w, v) && |w| == DepthOf(edges, ids, v)
    ensures forall w :: EndsAt(edges, w, v) ==> |w| <= DepthOf(edges, ids, v)
  {
    hide Acyclic, DepthOf, EndsAt;
    var w := LongestWalk(edges, ids, v);
    forall w | EndsAt(edges, w, v) ensures |w| <= DepthOf(edges, ids, v) { WalkNoLonger(edges, ids, v, w); }
  }

  /** Every edge leads to a strictly greater depth, as measured over fewer edges. */
  ghost predicate Rising(small: set<Edge>, large: set<Edge>, ids: set<Id>)
    requires Acyclic(small)
  {
    forall e :: e in large ==> DepthOf(small, ids, e.from) < DepthOf(small, ids, e.to)
  }

  lemma {:induction false} RisingKeepsDepth(small: set<Edge>, large: set<Edge>, ids: set<Id>, v: Id)
    requires small <= large && Acyclic(large) && Acyclic(small) && Rising(small, large, ids)
    ensures DepthOf(large, ids, v) <= DepthOf(small, ids, v)
    decreases Upstream(large, ids, v)
  {
    hide DepthOf, Acyclic;
    DepthPositive(small, ids, v);
    forall p | p in ids && Edge(p, v) in large ensures DepthOf(large, ids, p) <= DepthOf(small, ids, v) - 1 {
      UpstreamShrinks(large, ids, p, v);
      RisingKeepsDepth(small, large, ids, p);
      assert DepthOf(small, ids, Edge(p, v).from) < DepthOf(small, ids, Edge(p, v).to);
    }
    DepthBound(large, ids, v, DepthOf(small, ids, v) - 1);
  }

  /** More edges leave all depths as they are if and only if each of them leads to a greater depth already. */
  lemma SameDepthsIff(small: set<Edge>, large: set<Edge>, ids: set<Id>)
    requires small <= large && Acyclic(large) && Acyclic(small) && Within(large, ids)
    ensures (forall v :: v in ids ==> DepthOf(small, ids, v) == DepthOf(large, ids, v)) <==> Rising(small, large, ids)
  {
    hide DepthOf, Acyclic;
    if Rising(small, large, ids) {
      forall v | v in ids ensures DepthOf(small, ids, v) == DepthOf(large, ids, v) {
        RisingKeepsDepth(small, large, ids, v);
        DepthMonotone(small, large, ids, v);
      }
    } else {
      var e :| e in large && DepthOf(small, ids, e.from) >= DepthOf(small, ids, e.to);
      PredecessorShallower(large, ids, e.from, e.to);
    }
  }
}
