/** What a round selects, and that there is always something to select. */
module Selection {
  import opened Calls
  import opened Closure
  import opened Digraph
  import opened Invariants
  import opened JsonValues
  import opened Order
  import opened Safety
  import opened State

  /** The first of the candidates that belongs to its owner. */
  ghost predicate FirstOfOwner(g: Graph, candidates: seq<Id>, u: Id)
  {
    exists i :: 0 <= i < |candidates| && candidates[i] == u && u in g.units &&
      forall j :: 0 <= j < i ==> candidates[j] in g.units ==> g.units[candidates[j]].ownership != g.units[u].ownership
  }

  /** The greedy choice, in terms of the candidate list. */
  ghost predicate Greedy(g: Graph, candidates: seq<Id>, owners: set<Json>, room: nat, picked: seq<Id>) {
    && |picked| <= room
    && (forall u :: u in picked ==> u in g.units && g.units[u].ownership !in owners && FirstOfOwner(g, candidates, u))
    && (forall i, j :: 0 <= i < j < |picked| && picked[i] in g.units && picked[j] in g.units ==>
          g.units[picked[i]].ownership != g.units[picked[j]].ownership)
    && (|picked| < room ==> forall c :: c in candidates && c in g.units ==>
          g.units[c].ownership in owners || exists u ::
            u in picked && u in g.units && g.units[u].ownership == g.units[c].ownership)
  }

  lemma FirstLater(g: Graph, candidates: seq<Id>, u: Id)
    requires candidates != [] && candidates[0] in g.units && FirstOfOwner(g, candidates[1..], u)
    requires g.units[candidates[0]].ownership != g.units[u].ownership
    ensures FirstOfOwner(g, candidates, u)
  {
    var rest := candidates[1..];
    var i :| 0 <= i < |rest| && rest[i] == u && u in g.units &&
      forall j :: 0 <= j < i ==> rest[j] in g.units ==> g.units[rest[j]].ownership != g.units[u].ownership;
    forall j | 0 <= j < i + 1 && candidates[j] in g.units
      ensures g.units[candidates[j]].ownership != g.units[u].ownership {
      if j > 0 { assert candidates[j] == rest[j - 1]; }
    }
    assert candidates[i + 1] == u;
  }

  lemma {:induction false} PickIsGreedy(g: Graph, candidates: seq<Id>, owners: set<Json>, room: nat)
    requires forall i :: 0 <= i < |candidates| ==> candidates[i] in g.units
    ensures Greedy(g, candidates, owners, room, Pick(g, candidates, owners, room))
    decreases |candidates|
  {
    hide FirstOfOwner;
    var picked := Pick(g, candidates, owners, room);
    if candidates != [] && room != 0 {
      var u, rest := candidates[0], candidates[1..];
      assert candidates == [u] + rest;
      var owner := g.units[u].ownership;
      if owner in owners {
        PickIsGreedy(g, rest, owners, room);
        forall v | v in picked ensures FirstOfOwner(g, candidates, v) { FirstLater(g, candidates, v); }
      } else {
        PickIsGreedy(g, rest, owners + {owner}, room - 1);
        var tail := Pick(g, rest, owners + {owner}, room - 1);
        assert picked == [u] + tail;
        FirstIsFirst(g, candidates);
        forall v | v in tail ensures FirstOfOwner(g, candidates, v) { FirstLater(g, candidates, v); }
        forall c | |picked| < room && c in candidates && c in g.units
          ensures g.units[c].ownership in owners || exists v ::
            v in picked && v in g.units && g.units[v].ownership == g.units[c].ownership
        {
          if g.units[c].ownership == owner {
            assert u in picked;
          } else if g.units[c].ownership !in owners {
            assert c in rest;
            var v :| v in tail && v in g.units && g.units[v].ownership == g.units[c].ownership;
            assert v in picked;
          }
        }
      }
    }
  }

  lemma FirstIsFirst(g: Graph, candidates: seq<Id>)
    requires candidates != [] && candidates[0] in g.units
    ensures FirstOfOwner(g, candidates, candidates[0])
  {
  }

  /** Units of one round can run side by side. */
  ghost predicate Independent(g: Graph, picked: seq<Id>) {
    && (forall i, j :: 0 <= i < j < |picked| && picked[i] in g.units && picked[j] in g.units ==>
          g.units[picked[i]].ownership != g.units[picked[j]].ownership)
    && forall u, v :: u in picked && v in picked ==> !Reaches(Arcs(g), u, v)
  }

  /** `u` is ready, and the least among the ready units of its owner. */
  ghost predicate LeastOfOwner(g: Graph, u: Id) {
    && u in ReadyUnits(g)
    && forall v :: v in ReadyUnits(g) && g.units[v].ownership == g.units[u].ownership ==> v == u || Before(u, v)
  }

  ghost predicate OwnerIn(g: Graph, picked: seq<Id>, v: Id)
    requires v in g.units
  {
    exists u :: u in picked && u in g.units && g.units[u].ownership == g.units[v].ownership
  }

  lemma FirstIsLeast(g: Graph, u: Id)
    requires FirstOfOwner(g, ReadyNodes(g), u)
    ensures LeastOfOwner(g, u)
  {
    hide Before, ReadyNodes;
    var ready := ReadyNodes(g);
    var i :| 0 <= i < |ready| && ready[i] == u && u in g.units &&
      forall j :: 0 <= j < i ==> ready[j] in g.units ==> g.units[ready[j]].ownership != g.units[u].ownership;
    assert u in ready;
    forall v | v in ReadyUnits(g) && g.units[v].ownership == g.units[u].ownership ensures v == u || Before(u, v) {
      assert v in ready;
      var k :| 0 <= k < |ready| && ready[k] == v;
      assert k >= i;
    }
  }

  /**
   * A round selects at most `room` ready units, each the least ready one of its owner; if it
   * selects fewer, every ready unit's owner is represented.
   */
  lemma ParallelSelection(g: Graph, room: nat)
    ensures |ParallelReady(g, room)| <= room && Distinct(ParallelReady(g, room))
    ensures forall u :: u in ParallelReady(g, room) ==> LeastOfOwner(g, u)
    ensures |ParallelReady(g, room)| < room ==> forall v :: v in ReadyUnits(g) ==> OwnerIn(g, ParallelReady(g, room), v)
  {
    hide LeastOfOwner, OwnerIn, FirstOfOwner, ReadyNodes, DependencyReady;
    ParallelIsDistinct(g, room);
    var picked := ParallelReady(g, room);
    PickIsGreedy(g, ReadyNodes(g), {}, room);
    forall u | u in picked ensures LeastOfOwner(g, u) { FirstIsLeast(g, u); }
    if |picked| < room {
      forall v | v in ReadyUnits(g) ensures OwnerIn(g, picked, v) { Represented(g, picked, room, v); }
    }
  }

  lemma Represented(g: Graph, picked: seq<Id>, room: nat, v: Id)
    requires Greedy(g, ReadyNodes(g), {}, room, picked) && |picked| < room && v in ReadyUnits(g)
    ensures OwnerIn(g, picked, v)
  {
    hide FirstOfOwner, ReadyNodes, DependencyReady;
    assert v in ReadyNodes(g);
  }

  /** In a closed snapshot the units of one round have different owners and no paths between them. */
  lemma RoundIndependent(g: Graph, room: nat)
    requires Closed(g) && ShapeOk(g)
    ensures Independent(g, ParallelReady(g, room))
  {
    hide Before, ReadyNodes, Closed, FirstOfOwner;
    PickIsGreedy(g, ReadyNodes(g), {}, room);
    ParallelIsReady(g, room);
    var picked := ParallelReady(g, room);
    forall u, v | u in picked && v in picked ensures !Reaches(Arcs(g), u, v) {
      assert u in ReadyUnits(g) && v in ReadyUnits(g);
      if Reaches(Arcs(g), u, v) {
        var p := ReachesLast(Arcs(g), u, v);
        assert g.units[p].status == Accepted;
        if p != u { ClosedUpstream(g, u, p); }
      }
    }
  }

  // ---------------------------------------------------------------- no deadlock

  /** A unit that waits for nothing unaccepted exists as long as something is unaccepted. */
  lemma SomethingIsReady(g: Graph)
    requires WellFormed(g) && StatusesOk(g) && !AllAccepted(g)
    requires forall u :: u in g.units ==> g.units[u].status != Failed && g.units[u].status != Produced
    ensures ReadyUnits(g) != {}
  {
    var open := set u | u in g.units && g.units[u].status != Accepted;
    var x :| x in g.units && g.units[x].status != Accepted;
    assert x in open;
    var v := SourceExists(Arcs(g), open);
    assert DependencyReady(g, v) by {
      forall e | e in Arcs(g) && e.to == v ensures e.from in g.units && g.units[e.from].status == Accepted {
        assert e.from in g.units by {
          if e !in g.edges { assert UnitOk(g, v) && e.from in g.units[v].dependencies; }
        }
        assert Edge(e.from, v) == e;
      }
    }
    assert v in ReadyUnits(g);
  }

  /**
   * No deadlock: in every reachable snapshot that is not finished and has nothing failed or
   * awaiting judgement, every round has something to do.
   */
  lemma NoDeadlock(g: Graph, room: nat)
    requires Reachable(g) && !AllAccepted(g) && room >= 1
    requires forall u :: u in g.units ==> g.units[u].status != Failed && g.units[u].status != Produced
    ensures ParallelReady(g, room) != []
  {
    hide Reachable, ReadyUnits, AllAccepted, WellFormed, StatusesOk, OutputsOk, Budgets, StatusSound, Exact;
    hide ParallelReady, Before;
    ReachableInvariant(g);
    SomethingIsReady(g);
    ReadyInUnits(g);
    ParallelSelection(g, room);
    var v :| v in ReadyUnits(g);
  }

  lemma ReadyInUnits(g: Graph)
    ensures ReadyUnits(g) <= g.units.Keys
  {
  }
}
