/**
 * The dashboard's current state of each task.  Reports come sorted by time; at one instant the
 * higher sequence number wins, and reports that cannot be told apart but differ leave the state
 * unknown.
 */
module TaskStates {
  import opened Basics
  import opened Projection
  import opened Rearrange

  datatype State = Running | Completed | Failed | Unknown

  datatype Report = Report(task: Option<string>, order: Instant, sequence: Option<nat>, state: State)

  datatype Current = Current(order: Instant, sequence: Option<nat>, state: State)

  function Taken(r: Report): Current { Current(r.order, r.sequence, r.state) }

  function Next(current: Current, r: Report): Current {
    if Sooner(current.order, r.order) then Taken(r)
    else if r.order != current.order then current
    else if r.sequence.Some? && current.sequence.Some? && r.sequence.value > current.sequence.value then Taken(r)
    else if r.sequence.Some? && current.sequence.Some? && r.sequence.value < current.sequence.value then current
    else if r.state != current.state then Current(r.order, None, Unknown)
    else current
  }

  /** What the pass makes of the reports of one task. */
  function Latest(rs: seq<Report>): Current
    requires rs != []
    decreases |rs|
  {
    if |rs| == 1 then Taken(rs[0]) else Next(Latest(rs[..|rs| - 1]), rs[|rs| - 1])
  }

  predicate ByTime(rs: seq<Report>) { forall i, j :: 0 <= i < j < |rs| ==> !Sooner(rs[j].order, rs[i].order) }

  function AtInstant(rs: seq<Report>, o: Instant): seq<Report>
    decreases |rs|
  {
    if rs == [] then []
    else
      var last := rs[|rs| - 1];
      if last.order == o then AtInstant(rs[..|rs| - 1], o) + [last] else AtInstant(rs[..|rs| - 1], o)
  }

  lemma {:induction false} NoneAt(rs: seq<Report>, o: Instant)
    requires forall i :: 0 <= i < |rs| ==> rs[i].order != o
    ensures AtInstant(rs, o) == []
    decreases |rs|
  {
    if rs != [] { NoneAt(rs[..|rs| - 1], o); }
  }

  /** The state of a task is settled by the reports of its last instant; earlier ones do not count. */
  lemma {:induction false} LastInstantDecides(rs: seq<Report>)
    requires rs != [] && ByTime(rs)
    ensures var o := rs[|rs| - 1].order;
      AtInstant(rs, o) != [] && Latest(rs) == Latest(AtInstant(rs, o)) && Latest(rs).order == o
    decreases |rs|
  {
    if |rs| > 1 {
      var n := |rs| - 1;
      var front, last, before := rs[..n], rs[n], rs[n - 1];
      LastInstantDecides(front);
      assert front[|front| - 1] == before;
      if before.order == last.order {
        var group := AtInstant(front, last.order);
        assert (group + [last])[..|group|] == group;
      } else {
        forall i | 0 <= i < n ensures front[i].order != last.order {
          assert !Sooner(rs[n - 1].order, rs[i].order) && !Sooner(rs[n].order, rs[n - 1].order);
        }
        NoneAt(front, last.order);
        assert [last][..0] == [];
      }
    } else {
      assert rs[..0] == [];
      assert AtInstant(rs[..0], rs[0].order) == [];
      assert AtInstant(rs, rs[0].order) == [rs[0]];
    }
  }

  ghost predicate SameInstant(rs: seq<Report>, o: Instant) { forall i :: 0 <= i < |rs| ==> rs[i].order == o }

  ghost predicate Numbered(rs: seq<Report>) {
    && (forall i :: 0 <= i < |rs| ==> rs[i].sequence.Some?)
    && (forall i, j :: 0 <= i < j < |rs| ==> rs[i].sequence != rs[j].sequence)
  }

  ghost predicate Highest(rs: seq<Report>, h: nat)
    requires h < |rs| && Numbered(rs)
  {
    forall i :: 0 <= i < |rs| ==> rs[i].sequence.value <= rs[h].sequence.value
  }

  /** Among distinctly numbered reports of one instant the highest number wins, in any order. */
  lemma {:induction false} HighestNumberWins(rs: seq<Report>, o: Instant, h: nat)
    requires SameInstant(rs, o) && Numbered(rs) && h < |rs| && Highest(rs, h)
    ensures Latest(rs) == Taken(rs[h])
    decreases |rs|
  {
    if |rs| > 1 {
      var n := |rs| - 1;
      var front := rs[..n];
      assert forall i :: 0 <= i < n ==> front[i] == rs[i];
      if h < n {
        HighestNumberWins(front, o, h);
        assert rs[h].sequence != rs[n].sequence;
      } else {
        var k := HighestOf(front);
        HighestNumberWins(front, o, k);
        assert rs[k].sequence != rs[n].sequence;
      }
    }
  }

  lemma {:induction false} HighestOf(rs: seq<Report>) returns (h: nat)
    requires rs != [] && Numbered(rs)
    ensures h < |rs| && Highest(rs, h)
    decreases |rs|
  {
    h := 0;
    if |rs| > 1 {
      var n := |rs| - 1;
      assert forall i :: 0 <= i < n ==> rs[..n][i] == rs[i];
      h := HighestOf(rs[..n]);
      if rs[n].sequence.value > rs[h].sequence.value { h := n; }
    }
  }

  /** The same distinctly numbered reports in another order give the same state. */
  lemma NumberedOrderIrrelevant(a: seq<Report>, b: seq<Report>, o: Instant)
    requires a != [] && b != [] && SameInstant(a, o) && Numbered(a) && Numbered(b)
    requires forall r :: r in a <==> r in b
    ensures Latest(a) == Latest(b)
  {
    forall i | 0 <= i < |b| ensures b[i].order == o {
      assert b[i] in a;
    }
    var h := HighestOf(a);
    var k := HighestOf(b);
    HighestNumberWins(a, o, h);
    HighestNumberWins(b, o, k);
    assert a[h] in b && b[k] in a;
    var x :| 0 <= x < |b| && b[x] == a[h];
    var y :| 0 <= y < |a| && a[y] == b[k];
    assert b[x].sequence.value <= b[k].sequence.value && a[y].sequence.value <= a[h].sequence.value;
  }

  /** Reports of one instant that agree are believed; whatever they say, no state is made up. */
  lemma {:induction false} NothingInvented(rs: seq<Report>, o: Instant)
    requires rs != [] && SameInstant(rs, o)
    ensures (forall i :: 0 <= i < |rs| ==> rs[i].state == rs[0].state) ==> Latest(rs).state == rs[0].state
    ensures Latest(rs).state == Unknown || exists i :: 0 <= i < |rs| && rs[i].state == Latest(rs).state
    ensures Latest(rs).order == o
    decreases |rs|
  {
    if |rs| > 1 {
      var n := |rs| - 1;
      var front := rs[..n];
      assert forall i :: 0 <= i < n ==> front[i] == rs[i];
      NothingInvented(front, o);
      if Latest(rs).state != Unknown {
        if Latest(rs) == Latest(front) {
          var i :| 0 <= i < n && front[i].state == Latest(front).state;
          assert rs[i].state == Latest(rs).state;
        } else {
          assert rs[n].state == Latest(rs).state;
        }
      }
    }
  }

  // ---------------------------------------------------------------- exactly when order does not matter

  /** One number is known to be higher than another. */
  predicate Higher(a: Option<nat>, b: Option<nat>) { a.Some? && b.Some? && a.value > b.value }

  predicate Incomparable(a: Option<nat>, b: Option<nat>) { !Higher(a, b) && !Higher(b, a) }

  /** No two reports that cannot be told apart have a third numbered higher than one of them. */
  ghost predicate Settled(ns: seq<Option<nat>>) {
    forall i, j, k :: 0 <= i < j < |ns| && 0 <= k < |ns| && Incomparable(ns[i], ns[j]) ==>
      !Higher(ns[k], ns[i]) && !Higher(ns[k], ns[j])
  }

  ghost predicate Carries(rs: seq<Report>, ns: seq<Option<nat>>, o: Instant) {
    |rs| == |ns| && forall i :: 0 <= i < |rs| ==> rs[i].order == o && rs[i].sequence == ns[i]
  }

  /** Reports with these numbers give the same state in every order, whatever their states. */
  ghost predicate OrderIrrelevant(ns: seq<Option<nat>>, o: Instant)
    requires ns != []
  {
    forall a, b :: Carries(a, ns, o) && multiset(a) == multiset(b) ==> SameState(a, b)
  }

  ghost predicate SameState(a: seq<Report>, b: seq<Report>) {
    a != [] && b != [] && Latest(a).state == Latest(b).state
  }

  /** No report can be told from another. */
  ghost predicate Level(rs: seq<Report>) {
    forall x, y :: x in rs && y in rs ==> Incomparable(x.sequence, y.sequence)
  }

  /** All reports are numbered, and only the highest may contradict one another. */
  ghost predicate TiesOnTop(rs: seq<Report>) {
    && (forall x :: x in rs ==> x.sequence.Some?)
    && (forall x, y, z :: x in rs && y in rs && z in rs ==>
          x.sequence == y.sequence && Higher(z.sequence, x.sequence) ==> x.state == y.state)
  }

  ghost predicate AllSay(rs: seq<Report>, s: State) { forall r :: r in rs ==> r.state == s }

  /** Reports none of which can be told from another are believed if and only if they agree. */
  lemma {:induction false} LevelState(rs: seq<Report>, o: Instant)
    requires rs != [] && SameInstant(rs, o) && Level(rs)
    ensures AllSay(rs, rs[0].state) ==>
      Latest(rs).state == rs[0].state && exists r :: r in rs && Latest(rs).sequence == r.sequence
    ensures !AllSay(rs, rs[0].state) ==> Latest(rs).state == Unknown && Latest(rs).sequence.None?
    ensures Latest(rs).order == o
    decreases |rs|
  {
    if |rs| > 1 {
      var n := |rs| - 1;
      var front, last := rs[..n], rs[n];
      assert rs == front + [last] && front[0] == rs[0];
      LevelState(front, o);
      assert AllSay(rs, rs[0].state) <==> AllSay(front, rs[0].state) && last.state == rs[0].state;
      if AllSay(front, rs[0].state) {
        var r :| r in front && Latest(front).sequence == r.sequence;
        assert r in rs && last in rs && Incomparable(r.sequence, last.sequence);
        if last.state == rs[0].state { assert r in rs && Latest(rs).sequence == r.sequence; }
      }
    } else {
      assert rs[0] in rs;
    }
  }

  ghost predicate OnTop(rs: seq<Report>, m: nat) {
    (exists r :: r in rs && r.sequence == Some(m)) && forall r :: r in rs ==> r.sequence.Some? && r.sequence.value <= m
  }

  ghost predicate TopSays(rs: seq<Report>, m: nat, s: State) {
    forall r :: r in rs && r.sequence == Some(m) ==> r.state == s
  }

  /** What reports whose highest number is `m` amount to: those with that number are believed if they agree. */
  ghost predicate TopDecides(rs: seq<Report>, m: nat, o: Instant, current: Current) {
    && OnTop(rs, m)
    && (forall s :: TopSays(rs, m, s) ==> current == Current(o, Some(m), s))
    && ((forall s :: !TopSays(rs, m, s)) ==> current == Current(o, None, Unknown))
  }

  lemma TopRises(front: seq<Report>, f: nat, o: Instant, current: Current, last: Report)
    requires TopDecides(front, f, o, current) && TiesOnTop(front + [last]) && last.order == o
    requires last.sequence.Some? && last.sequence.value > f
    ensures TopDecides(front + [last], last.sequence.value, o, Next(current, last))
  {
    var rs, m := front + [last], last.sequence.value;
    assert forall x :: x in rs <==> x in front || x == last;
    var top :| top in front && top.sequence == Some(f);
    assert TopSays(front, f, top.state);
    assert TopSays(rs, m, last.state);
    assert last in rs;
  }

  lemma TopStays(front: seq<Report>, f: nat, o: Instant, current: Current, last: Report)
    requires TopDecides(front, f, o, current) && last.order == o
    requires last.sequence.Some? && last.sequence.value <= f
    ensures TopDecides(front + [last], f, o, Next(current, last))
  {
    var rs := front + [last];
    assert forall x :: x in rs <==> x in front || x == last;
    assert OnTop(rs, f) by {
      var top :| top in front && top.sequence == Some(f);
      assert top in rs;
    }
    if last.sequence.value < f {
      assert forall s :: TopSays(rs, f, s) <==> TopSays(front, f, s);
    } else {
      assert last in rs;
      assert forall s :: TopSays(rs, f, s) <==> TopSays(front, f, s) && s == last.state;
    }
    SomeOrNone(front, f);
  }

  /** Among numbered reports with ties on top only, those on top are believed if and only if they agree. */
  lemma {:induction false} TopState(rs: seq<Report>, o: Instant) returns (m: nat)
    requires rs != [] && SameInstant(rs, o) && TiesOnTop(rs)
    ensures TopDecides(rs, m, o, Latest(rs))
    decreases |rs|
  {
    hide TopDecides, Next;
    var n := |rs| - 1;
    var last := rs[n];
    assert last in rs;
    m := last.sequence.value;
    if n > 0 {
      var front := rs[..n];
      assert rs == front + [last];
      var f := TopState(front, o);
      if m > f {
        TopRises(front, f, o, Latest(front), last);
      } else {
        m := f;
        TopStays(front, f, o, Latest(front), last);
      }
    } else {
      OneOnTop(last);
      assert rs == [last];
    }
  }

  lemma OneOnTop(r: Report)
    requires r.sequence.Some?
    ensures TopDecides([r], r.sequence.value, r.order, Taken(r))
  {
    assert r in [r];
    assert TopSays([r], r.sequence.value, r.state);
  }

  lemma SomeOrNone(rs: seq<Report>, m: nat)
    ensures (exists s :: TopSays(rs, m, s)) || forall s :: !TopSays(rs, m, s)
  {
  }

  ghost predicate NumberAt(rs: seq<Report>, ns: seq<Option<nat>>, r: Report, i: nat) {
    i < |rs| == |ns| && rs[i] == r && ns[i] == r.sequence
  }

  lemma PlaceOf(rs: seq<Report>, ns: seq<Option<nat>>, o: Instant, r: Report) returns (i: nat)
    requires Carries(rs, ns, o) && r in rs
    ensures NumberAt(rs, ns, r, i)
  {
    i :| 0 <= i < |rs| && rs[i] == r;
  }

  /** In settled numbers, nothing is higher than one of two different reports that cannot be told apart. */
  lemma SettledPair(rs: seq<Report>, ns: seq<Option<nat>>, o: Instant, x: Report, y: Report, z: Report)
    requires Carries(rs, ns, o) && Settled(ns) && x in rs && y in rs && z in rs && x != y
    requires Incomparable(x.sequence, y.sequence)
    ensures !Higher(z.sequence, x.sequence)
  {
    var a := PlaceOf(rs, ns, o, x);
    var b := PlaceOf(rs, ns, o, y);
    var c := PlaceOf(rs, ns, o, z);
    if a < b { assert Incomparable(ns[a], ns[b]); } else { assert Incomparable(ns[b], ns[a]); }
  }

  /** Settled numbers leave reports of one of the two kinds. */
  lemma SettledKinds(rs: seq<Report>, ns: seq<Option<nat>>, o: Instant)
    requires Carries(rs, ns, o) && Settled(ns)
    ensures Level(rs) || TiesOnTop(rs)
  {
    hide Carries, Settled;
    if p, q :| p in rs && q in rs && Higher(p.sequence, q.sequence) {
      forall x | x in rs ensures x.sequence.Some? {
        if x.sequence.None? { SettledPair(rs, ns, o, q, x, p); }
      }
      forall x, y, z | x in rs && y in rs && z in rs && x.sequence == y.sequence && Higher(z.sequence, x.sequence)
        ensures x.state == y.state
      {
        if x != y { SettledPair(rs, ns, o, x, y, z); }
      }
    }
  }

  lemma TopIsUnique(a: seq<Report>, b: seq<Report>, m: nat, k: nat)
    requires (forall x :: x in a <==> x in b) && OnTop(a, m) && OnTop(b, k)
    ensures m == k
  {
  }

  /** Reports of either kind give the same state in another order. */
  lemma KindsOrderIrrelevant(a: seq<Report>, b: seq<Report>, o: Instant)
    requires a != [] && SameInstant(a, o) && multiset(a) == multiset(b) && (Level(a) || TiesOnTop(a))
    ensures SameState(a, b)
  {
    SameElements(a, b);
    forall i | 0 <= i < |b| ensures b[i].order == o { assert b[i] in a; }
    if Level(a) {
      LevelState(a, o);
      LevelState(b, o);
      assert a[0] in b && b[0] in a;
      assert AllSay(a, a[0].state) <==> AllSay(b, b[0].state);
    } else {
      var m := TopState(a, o);
      var k := TopState(b, o);
      TopIsUnique(a, b, m, k);
      assert forall s :: TopSays(a, m, s) <==> TopSays(b, k, s);
      SomeOrNone(a, m);
    }
  }

  /** Reports with these numbers, all completed but one that is running. */
  function OneDissents(ns: seq<Option<nat>>, o: Instant, i: nat): seq<Report> {
    seq(|ns|, x requires 0 <= x < |ns| => Report(None, o, ns[x], if x == i then Running else Completed))
  }

  /** Once contradicted, a state stays unknown for the rest of the instant. */
  lemma {:induction false} StaysUnknown(rs: seq<Report>, o: Instant, n: nat)
    requires SameInstant(rs, o) && 0 < n <= |rs| && Latest(rs[..n]) == Current(o, None, Unknown)
    ensures Latest(rs) == Current(o, None, Unknown)
    decreases |rs|
  {
    if n < |rs| {
      var front := rs[..|rs| - 1];
      assert front[..n] == rs[..n];
      StaysUnknown(front, o, n);
    } else {
      assert rs[..n] == rs;
    }
  }

  /** Led by the highest number, reports that are lower or agree with it do not move the state. */
  lemma {:induction false} LeaderStays(rs: seq<Report>, o: Instant)
    requires rs != [] && SameInstant(rs, o) && rs[0].sequence.Some?
    requires forall i :: 0 <= i < |rs| ==> !Higher(rs[i].sequence, rs[0].sequence)
    requires forall i :: 0 <= i < |rs| ==> rs[i].state == rs[0].state || Higher(rs[0].sequence, rs[i].sequence)
    ensures Latest(rs) == Taken(rs[0])
    decreases |rs|
  {
    if |rs| > 1 { LeaderStays(rs[..|rs| - 1], o); }
  }

  lemma {:induction false} HighestNumber(ns: seq<Option<nat>>) returns (h: nat)
    requires exists i :: 0 <= i < |ns| && ns[i].Some?
    ensures h < |ns| && ns[h].Some? && forall i :: 0 <= i < |ns| ==> !Higher(ns[i], ns[h])
    decreases |ns|
  {
    var n := |ns| - 1;
    if exists i :: 0 <= i < n && ns[..n][i].Some? {
      h := HighestNumber(ns[..n]);
      assert forall i :: 0 <= i < n ==> ns[..n][i] == ns[i];
      if Higher(ns[n], ns[h]) { h := n; }
    } else {
      assert forall i :: 0 <= i < n ==> ns[..n][i] == ns[i];
      h := n;
    }
  }

  /** Two reports that contradict each other and cannot be told apart, put first, leave the state unknown. */
  lemma DissentFirst(rs: seq<Report>, o: Instant, i: nat, j: nat)
    requires SameInstant(rs, o) && i < |rs| && j < |rs| && i != j
    requires Incomparable(rs[i].sequence, rs[j].sequence) && rs[i].state != rs[j].state
    ensures Latest(PairFirst(rs, i, j)).state == Unknown
  {
    var led := PairFirst(rs, i, j);
    PairFirstKeeps(rs, i, j);
    SameElements(rs, led);
    assert forall x :: 0 <= x < |led| ==> led[x] in rs;
    assert led[..2] == [rs[i], rs[j]] && led[..2][..1] == [rs[i]];
    assert Latest(led[..1]) == Taken(rs[i]);
    assert Latest(led[..2]) == Next(Latest(led[..1]), rs[j]);
    hide PairFirst;
    StaysUnknown(led, o, 2);
  }

  /** The highest number, put first, prevails over lower reports and over those that agree with it. */
  lemma HighestFirst(rs: seq<Report>, o: Instant, h: nat)
    requires SameInstant(rs, o) && h < |rs| && rs[h].sequence.Some?
    requires forall x :: 0 <= x < |rs| ==> !Higher(rs[x].sequence, rs[h].sequence)
    requires forall x :: 0 <= x < |rs| ==> rs[x].state == rs[h].state || Higher(rs[h].sequence, rs[x].sequence)
    ensures Latest(OneFirst(rs, h)) == Taken(rs[h])
  {
    var led := OneFirst(rs, h);
    OneFirstKeeps(rs, h);
    SameElements(rs, led);
    forall x | 0 <= x < |led|
      ensures led[x].order == o && !Higher(led[x].sequence, led[0].sequence)
      ensures led[x].state == led[0].state || Higher(led[0].sequence, led[x].sequence)
    {
      assert led[x] in rs;
    }
    LeaderStays(led, o);
  }

  /** A report below some number, and another that cannot be told from it, betray the order. */
  lemma OrderShows(ns: seq<Option<nat>>, o: Instant, i: nat, j: nat, k: nat)
    requires i < |ns| && j < |ns| && k < |ns| && i != j && Incomparable(ns[i], ns[j]) && Higher(ns[k], ns[i])
    ensures !OrderIrrelevant(ns, o)
  {
    var rs := OneDissents(ns, o, i);
    var h := HighestNumber(ns);
    DissentFirst(rs, o, i, j);
    HighestFirst(rs, o, h);
    PairFirstKeeps(rs, i, j);
    OneFirstKeeps(rs, h);
    hide PairFirst, OneFirst, Latest;
    var unknown, completed := PairFirst(rs, i, j), OneFirst(rs, h);
    assert Carries(rs, ns, o);
    assert !SameState(rs, unknown) || !SameState(rs, completed);
  }

  /**
   * For reports of one instant with given numbers, the state is the same in every order whatever
   * the states reported, if and only if no two that cannot be told apart have a third numbered
   * higher than one of them.
   */
  lemma OrderIrrelevantIffSettled(ns: seq<Option<nat>>, o: Instant)
    requires ns != []
    ensures OrderIrrelevant(ns, o) <==> Settled(ns)
  {
    if Settled(ns) {
      forall a, b | Carries(a, ns, o) && multiset(a) == multiset(b) ensures SameState(a, b) {
        SettledKinds(a, ns, o);
        KindsOrderIrrelevant(a, b, o);
      }
    } else {
      var i, j, k :| 0 <= i < j < |ns| && 0 <= k < |ns| && Incomparable(ns[i], ns[j])
        && (Higher(ns[k], ns[i]) || Higher(ns[k], ns[j]));
      if Higher(ns[k], ns[i]) { OrderShows(ns, o, i, j, k); } else { OrderShows(ns, o, j, i, k); }
    }
  }

  /** With a number missing the order of the reports decides: one order finds a state, another none. */
  lemma ListingOrderMatters(o: Instant)
    ensures var a, b, c :=
      Report(None, o, Some(1), Running), Report(None, o, None, Running), Report(None, o, Some(2), Completed);
      Latest([a, b, c]).state == Completed && Latest([a, c, b]).state == Unknown
  {
    var a, b, c :=
      Report(None, o, Some(1), Running), Report(None, o, None, Running), Report(None, o, Some(2), Completed);
    assert [a, b, c][..2] == [a, b] && [a, b][..1] == [a];
    assert [a, c, b][..2] == [a, c] && [a, c][..1] == [a];
    assert Latest([a, b]) == Taken(a);
    assert Latest([a, c]) == Taken(c);
  }

  // ---------------------------------------------------------------- the counts

  function OfTask(rs: seq<Report>, t: string): seq<Report>
    decreases |rs|
  {
    if rs == [] then []
    else
      var last := rs[|rs| - 1];
      if last.task == Some(t) then OfTask(rs[..|rs| - 1], t) + [last] else OfTask(rs[..|rs| - 1], t)
  }

  /** Reports that name no task, in one state. */
  function Loose(rs: seq<Report>, s: State): nat
    decreases |rs|
  {
    if rs == [] then 0
    else Loose(rs[..|rs| - 1], s) + if rs[|rs| - 1].task.None? && rs[|rs| - 1].state == s then 1 else 0
  }

  ghost predicate Follows(current: map<string, Current>, rs: seq<Report>) {
    forall t :: (t in current <==> OfTask(rs, t) != []) && (t in current ==> current[t] == Latest(OfTask(rs, t)))
  }

  lemma OneMoreReport(rs: seq<Report>, n: nat)
    requires n < |rs|
    ensures forall t ::
      OfTask(rs[..n + 1], t) == (if rs[n].task == Some(t) then OfTask(rs[..n], t) + [rs[n]] else OfTask(rs[..n], t))
    ensures forall s ::
      Loose(rs[..n + 1], s) == Loose(rs[..n], s) + if rs[n].task.None? && rs[n].state == s then 1 else 0
  {
    assert rs[..n + 1][..n] == rs[..n];
  }

  lemma LatestMore(rs: seq<Report>, r: Report)
    ensures Latest(rs + [r]) == if rs == [] then Taken(r) else Next(Latest(rs), r)
  {
    assert (rs + [r])[..|rs|] == rs;
  }

  /** The pass over the reports. */
  method Track(rs: seq<Report>) returns (current: map<string, Current>, loose: map<State, nat>)
    ensures Follows(current, rs)
    ensures forall s :: s in loose && loose[s] == Loose(rs, s)
  {
    current := map[];
    loose := map[Running := 0, Completed := 0, Failed := 0, Unknown := 0];
    assert rs[..0] == [];
    forall s: State ensures s in loose && loose[s] == 0 {
      match s
      case Running =>
      case Completed =>
      case Failed =>
      case Unknown =>
    }
    for n := 0 to |rs|
      invariant Follows(current, rs[..n])
      invariant forall s :: s in loose && loose[s] == Loose(rs[..n], s)
    {
      hide OfTask, Loose, Latest, Next;
      var r := rs[n];
      OneMoreReport(rs, n);
      if r.task.Some? {
        var t := r.task.value;
        LatestMore(OfTask(rs[..n], t), r);
        current := current[t := if t in current then Next(current[t], r) else Taken(r)];
      } else {
        loose := loose[r.state := loose[r.state] + 1];
      }
    }
    assert rs[..|rs|] == rs;
  }

  function InState(current: map<string, Current>, s: State): set<string> {
    set t | t in current && current[t].state == s
  }

  /** Each task is counted in one state: the four counts add up to the tasks seen. */
  lemma StatesPartition(current: map<string, Current>)
    ensures |InState(current, Running)| + |InState(current, Completed)| +
        |InState(current, Failed)| + |InState(current, Unknown)|
            == |current.Keys|
  {
    var a, b, c, d :=
      InState(current, Running), InState(current, Completed), InState(current, Failed), InState(current, Unknown);
    assert current.Keys == a + b + c + d;
    assert |a + b| == |a| + |b|;
    assert |a + b + c| == |a + b| + |c|;
    assert |a + b + c + d| == |a + b + c| + |d|;
  }
}
