/**
 * Directed graphs over unit identifiers: walks, reachability, acyclicity, and the two facts
 * about finite graphs that everything else rests on.  A set of vertices each of which has a
 * predecessor inside the set contains a cycle, and a walk longer than the number of vertices
 * repeats one.
 */
module Digraph {

  type Id = string

  datatype Edge = Edge(from: Id, to: Id)

  ghost predicate IsWalk(edges: set<Edge>, w: seq<Id>) {
    forall i :: 0 <= i < |w| - 1 ==> Edge(w[i], w[i + 1]) in edges
  }

  /** `w` leads from `a` to `b` along at least one edge. */
  ghost predicate Leads(edges: set<Edge>, w: seq<Id>, a: Id, b: Id) {
    |w| >= 2 && IsWalk(edges, w) && w[0] == a && w[|w| - 1] == b
  }

  ghost predicate Reaches(edges: set<Edge>, a: Id, b: Id) {
    exists w :: Leads(edges, w, a, b)
  }

  ghost predicate Acyclic(edges: set<Edge>) {
    forall a :: !Reaches(edges, a, a)
  }

  ghost predicate Within(edges: set<Edge>, ids: set<Id>) {
    forall e :: e in edges ==> e.from in ids && e.to in ids
  }

  /** Everything reachable from `u`. */
  ghost function Downstream(edges: set<Edge>, ids: set<Id>, u: Id): set<Id> {
    set v | v in ids && Reaches(edges, u, v)
  }

  ghost function Upstream(edges: set<Edge>, ids: set<Id>, u: Id): set<Id> {
    set v | v in ids && Reaches(edges, v, u)
  }

  lemma EdgeReaches(edges: set<Edge>, a: Id, b: Id)
    requires Edge(a, b) in edges
    ensures Reaches(edges, a, b)
  {
    assert Leads(edges, [a, b], a, b);
  }

  lemma ReachesTransitive(edges: set<Edge>, a: Id, b: Id, c: Id)
    requires Reaches(edges, a, b) && Reaches(edges, b, c)
    ensures Reaches(edges, a, c)
  {
    var v :| Leads(edges, v, a, b);
    var w :| Leads(edges, w, b, c);
    var t := v + w[1..];
    forall i | 0 <= i < |t| - 1 ensures Edge(t[i], t[i + 1]) in edges {
      if i < |v| - 1 {
        assert t[i] == v[i] && t[i + 1] == v[i + 1];
      } else {
        assert t[i] == w[i - |v| + 1] && t[i + 1] == w[i - |v| + 2];
      }
    }
    assert Leads(edges, t, a, c);
  }

  /** Reachability ends with an edge. */
  lemma ReachesLast(edges: set<Edge>, a: Id, c: Id) returns (p: Id)
    requires Reaches(edges, a, c)
    ensures Edge(p, c) in edges && (p == a || Reaches(edges, a, p))
  {
    var w :| Leads(edges, w, a, c);
    p := w[|w| - 2];
    if |w| > 2 {
      var v := w[..|w| - 1];
      assert IsWalk(edges, v) by {
        forall i | 0 <= i < |v| - 1 ensures Edge(v[i], v[i + 1]) in edges {
          assert v[i] == w[i] && v[i + 1] == w[i + 1];
        }
      }
      assert Leads(edges, v, a, p);
    }
  }

  /** Reachability starts with an edge. */
  lemma ReachesFirst(edges: set<Edge>, a: Id, c: Id) returns (s: Id)
    requires Reaches(edges, a, c)
    ensures Edge(a, s) in edges && (s == c || Reaches(edges, s, c))
  {
    var w :| Leads(edges, w, a, c);
    s := w[1];
    if |w| > 2 {
      var v := w[1..];
      assert IsWalk(edges, v) by {
        forall i | 0 <= i < |v| - 1 ensures Edge(v[i], v[i + 1]) in edges {
          assert v[i] == w[i + 1] && v[i + 1] == w[i + 2];
        }
      }
      assert Leads(edges, v, s, c);
    }
  }

  /** The part of a walk between two positions is a walk. */
  lemma WalkPart(edges: set<Edge>, w: seq<Id>, i: nat, j: nat)
    requires IsWalk(edges, w) && i < j < |w|
    ensures Reaches(edges, w[i], w[j])
  {
    var v := w[i..j + 1];
    forall k | 0 <= k < |v| - 1 ensures Edge(v[k], v[k + 1]) in edges {
      assert v[k] == w[i + k] && v[k + 1] == w[i + k + 1];
    }
    assert Leads(edges, v, w[i], w[j]);
  }

  /** A set closed under edges contains whatever its members reach. */
  lemma ClosedContains(edges: set<Edge>, s: set<Id>, a: Id, b: Id)
    requires forall e :: e in edges && e.from in s ==> e.to in s
    requires Reaches(edges, a, b) && (a in s || forall e :: e in edges && e.from == a ==> e.to in s)
    ensures b in s
  {
    var w :| Leads(edges, w, a, b);
    assert Edge(w[0], w[1]) in edges;
    var k := 1;
    while k < |w| - 1
      invariant 1 <= k < |w| && w[k] in s
    {
      assert Edge(w[k], w[k + 1]) in edges;
      k := k + 1;
    }
  }

  lemma SubsetSize<T>(a: set<T>, b: set<T>)
    requires a <= b
    ensures |a| <= |b| && (|a| == |b| ==> a == b)
  {
    assert b == a + (b - a);
  }

  ghost predicate Distinct(w: seq<Id>) {
    forall i, j :: 0 <= i < j < |w| ==> w[i] != w[j]
  }

  /** A list without repeats is no longer than a set that contains it. */
  lemma {:induction false} DistinctBound(w: seq<Id>, s: set<Id>)
    requires Distinct(w) && forall i :: 0 <= i < |w| ==> w[i] in s
    ensures |w| <= |s|
    decreases |w|
  {
    if w != [] {
      DistinctBound(w[1..], s - {w[0]});
    }
  }

  lemma {:induction false} DistinctSize(w: seq<Id>)
    requires Distinct(w)
    ensures |set x | x in w| == |w|
    decreases |w|
  {
    if w != [] {
      DistinctSize(w[1..]);
      assert (set x | x in w) == {w[0]} + set x | x in w[1..];
    }
  }

  lemma DistinctCovers(w: seq<Id>, s: set<Id>)
    requires Distinct(w) && |w| == |s| && forall i :: 0 <= i < |w| ==> w[i] in s
    ensures forall x :: x in s ==> x in w
  {
    forall x | x in s ensures x in w {
      if x !in w {
        DistinctBound(w, s - {x});
      }
    }
  }

  ghost predicate HasPredecessor(edges: set<Edge>, s: set<Id>, v: Id) {
    exists p :: p in s && Edge(p, v) in edges
  }

  /** A set each of whose members has a predecessor in the set carries walks of any length. */
  lemma {:induction false} BackwardWalk(edges: set<Edge>, s: set<Id>, n: nat) returns (w: seq<Id>)
    requires s != {} && n > 0
    requires forall v :: v in s ==> HasPredecessor(edges, s, v)
    ensures |w| == n && IsWalk(edges, w) && forall i :: 0 <= i < n ==> w[i] in s
    decreases n
  {
    if n == 1 {
      var v :| v in s;
      w := [v];
    } else {
      var r := BackwardWalk(edges, s, n - 1);
      assert HasPredecessor(edges, s, r[0]);
      var p :| p in s && Edge(p, r[0]) in edges;
      w := [p] + r;
      forall i | 0 <= i < |w| - 1 ensures Edge(w[i], w[i + 1]) in edges {
        if i > 0 { assert w[i] == r[i - 1] && w[i + 1] == r[i]; }
      }
    }
  }

  /** A finite set in which every member has a predecessor contains a cycle. */
  lemma NoSourceHasCycle(edges: set<Edge>, s: set<Id>)
    requires s != {}
    requires forall v :: v in s ==> HasPredecessor(edges, s, v)
    ensures exists a :: a in s && Reaches(edges, a, a)
  {
    var w := BackwardWalk(edges, s, |s| + 1);
    if Distinct(w) {
      DistinctBound(w, s);
    } else {
      var i, j :| 0 <= i < j < |w| && w[i] == w[j];
      WalkPart(edges, w, i, j);
      assert w[i] in s;
    }
  }

  /** In an acyclic graph every non-empty set has a member with no predecessor in the set. */
  lemma SourceExists(edges: set<Edge>, s: set<Id>) returns (v: Id)
    requires Acyclic(edges) && s != {}
    ensures v in s && forall p :: p in s ==> Edge(p, v) !in edges
  {
    if forall v :: v in s ==> HasPredecessor(edges, s, v) {
      NoSourceHasCycle(edges, s);
    }
    v :| v in s && !HasPredecessor(edges, s, v);
  }

  /** Fewer edges, fewer cycles. */
  lemma AcyclicSubset(small: set<Edge>, large: set<Edge>)
    requires small <= large && Acyclic(large)
    ensures Acyclic(small)
  {
    forall a ensures !Reaches(small, a, a) {
      if Reaches(small, a, a) {
        var w :| Leads(small, w, a, a);
        assert IsWalk(large, w);
        assert Leads(large, w, a, a) && Reaches(large, a, a);
      }
    }
  }

  /** A predecessor has strictly fewer vertices upstream. */
  lemma UpstreamShrinks(edges: set<Edge>, ids: set<Id>, p: Id, v: Id)
    requires Acyclic(edges) && Edge(p, v) in edges && p in ids
    ensures Upstream(edges, ids, p) < Upstream(edges, ids, v)
  {
    EdgeReaches(edges, p, v);
    forall x | x in Upstream(edges, ids, p) ensures x in Upstream(edges, ids, v) {
      ReachesTransitive(edges, x, p, v);
    }
    assert p in Upstream(edges, ids, v) && p !in Upstream(edges, ids, p);
  }
}
