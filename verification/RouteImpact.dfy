/**
 * The dashboard's account of how often a requested route was changed.  A model label that is
 * missing or empty is `None`, as both read false; so is a reasoning level that was not observed.
 */
module RouteImpact {
  import opened Basics

  datatype Source = Routecraft | User | Codex | Fallback | Unattributed

  datatype Level = Low | Medium | High | XHigh | MaxLevel | Ultra

  /** `other` is any label that can be read and names none of the three. */
  datatype Family = Sol | Terra | Luna | Other

  datatype Run = Run(
    source: Source,
    requestedModel: Option<string>, actualModel: Option<string>,
    requestedFamily: Option<Family>, actualFamily: Option<Family>,
    requestedReasoning: Option<Level>, actualReasoning: Option<Level>)

  datatype Route = Route(
    requestedFamily: Family, requestedReasoning: Option<Level>, actualFamily: Family, actualReasoning: Option<Level>)

  datatype Cell = Cell(route: Route, runs: nat)

  predicate ModelsObserved(r: Run) {
    r.source == Routecraft && r.requestedFamily.Some? && r.actualFamily.Some? &&
    r.requestedModel.Some? && r.actualModel.Some?
  }

  predicate ModelsDiffer(r: Run) { r.requestedModel != r.actualModel }

  predicate LevelsDiffer(r: Run) { r.requestedReasoning != r.actualReasoning }

  /** A run whose route can be compared at all. */
  predicate Eligible(r: Run) {
    ModelsObserved(r) && (ModelsDiffer(r) || (r.requestedReasoning.Some? && r.actualReasoning.Some?))
  }

  predicate Changed(r: Run) { Eligible(r) && (ModelsDiffer(r) || LevelsDiffer(r)) }

  predicate Unchanged(r: Run) {
    Eligible(r) && r.requestedModel == r.actualModel && r.requestedReasoning == r.actualReasoning
  }

  predicate FamilyChanged(r: Run) { Eligible(r) && r.requestedFamily != r.actualFamily }

  predicate ReasoningOnly(r: Run) {
    Eligible(r) && r.requestedFamily == r.actualFamily && r.requestedModel == r.actualModel && LevelsDiffer(r)
  }

  function RouteOf(r: Run): Route
    requires ModelsObserved(r)
  {
    Route(r.requestedFamily.value, r.requestedReasoning, r.actualFamily.value, r.actualReasoning)
  }

  predicate Took(r: Run, route: Route) { Eligible(r) && RouteOf(r) == route }

  /** How many runs have the property. */
  function Count(p: Run -> bool, runs: seq<Run>): nat
    decreases |runs|
  {
    if runs == [] then 0 else Count(p, runs[..|runs| - 1]) + if p(runs[|runs| - 1]) then 1 else 0
  }

  function Runs(cells: seq<Cell>): nat
    decreases |cells|
  {
    if cells == [] then 0 else Runs(cells[..|cells| - 1]) + cells[|cells| - 1].runs
  }

  /** How many eligible runs took the route. */
  function Taken(route: Route, runs: seq<Run>): nat
    decreases |runs|
  {
    if runs == [] then 0 else Taken(route, runs[..|runs| - 1]) + if Took(runs[|runs| - 1], route) then 1 else 0
  }

  lemma TakenMore(route: Route, runs: seq<Run>, r: Run)
    ensures Taken(route, runs + [r]) == Taken(route, runs) + if Took(r, route) then 1 else 0
  {
    assert (runs + [r])[..|runs|] == runs;
  }

  lemma {:induction false} TakenNever(route: Route, runs: seq<Run>)
    requires forall r :: r in runs ==> !Took(r, route)
    ensures Taken(route, runs) == 0
    decreases |runs|
  {
    if runs != [] {
      assert runs[|runs| - 1] in runs;
      TakenNever(route, runs[..|runs| - 1]);
    }
  }

  lemma CountMore(p: Run -> bool, runs: seq<Run>, n: nat)
    requires n < |runs|
    ensures Count(p, runs[..n + 1]) == Count(p, runs[..n]) + if p(runs[n]) then 1 else 0
  {
    assert runs[..n + 1][..n] == runs[..n];
  }

  lemma {:induction false} RunsOneMore(cells: seq<Cell>, p: nat)
    requires p < |cells|
    ensures Runs(cells[p := cells[p].(runs := cells[p].runs + 1)]) == Runs(cells) + 1
    decreases |cells|
  {
    var n := |cells| - 1;
    var next := cells[p := cells[p].(runs := cells[p].runs + 1)];
    if p < n {
      RunsOneMore(cells[..n], p);
      assert next[..n] == cells[..n][p := cells[p].(runs := cells[p].runs + 1)];
    } else {
      assert next[..n] == cells[..n];
    }
  }

  function Position(cells: seq<Cell>, route: Route): (p: nat)
    ensures p <= |cells| && (p < |cells| ==> cells[p].route == route)
    ensures forall i :: 0 <= i < p ==> cells[i].route != route
    decreases |cells|
  {
    if cells == [] then 0
    else
      var n := |cells| - 1;
      var p := Position(cells[..n], route);
      assert forall i :: 0 <= i < n ==> cells[..n][i] == cells[i];
      if p < n || cells[n].route == route then p else p + 1
  }

  /** One cell per route taken, holding the number of eligible runs that took it. */
  ghost predicate Tabulates(cells: seq<Cell>, runs: seq<Run>) {
    && (forall i, j :: 0 <= i < j < |cells| ==> cells[i].route != cells[j].route)
    && (forall i :: 0 <= i < |cells| ==> cells[i].runs == Taken(cells[i].route, runs) && cells[i].runs > 0)
    && (forall r :: r in runs && Eligible(r) ==> exists i :: 0 <= i < |cells| && cells[i].route == RouteOf(r))
  }

  lemma Skipped(cells: seq<Cell>, runs: seq<Run>, r: Run)
    requires Tabulates(cells, runs) && !Eligible(r)
    ensures Tabulates(cells, runs + [r])
  {
    forall i | 0 <= i < |cells| ensures cells[i].runs == Taken(cells[i].route, runs + [r]) {
      TakenMore(cells[i].route, runs, r);
    }
  }

  function Tally(cells: seq<Cell>, r: Run): seq<Cell>
    requires Eligible(r)
  {
    var p := Position(cells, RouteOf(r));
    if p == |cells| then cells + [Cell(RouteOf(r), 1)] else cells[p := cells[p].(runs := cells[p].runs + 1)]
  }

  lemma Tallied(cells: seq<Cell>, runs: seq<Run>, r: Run)
    requires Tabulates(cells, runs) && Eligible(r)
    ensures Tabulates(Tally(cells, r), runs + [r])
    ensures Runs(Tally(cells, r)) == Runs(cells) + 1
  {
    var p, next, route := Position(cells, RouteOf(r)), Tally(cells, r), RouteOf(r);
    forall i | 0 <= i < |cells| ensures Taken(cells[i].route, runs + [r]) == cells[i].runs + if i == p then 1 else 0 {
      TakenMore(cells[i].route, runs, r);
    }
    if p == |cells| {
      TakenNever(route, runs);
      TakenMore(route, runs, r);
      assert next[..|cells|] == cells;
    } else {
      RunsOneMore(cells, p);
    }
    forall x | x in runs + [r] && Eligible(x) ensures exists i :: 0 <= i < |next| && next[i].route == RouteOf(x) {
      if x in runs {
        var i :| 0 <= i < |cells| && cells[i].route == RouteOf(x);
        assert next[i].route == RouteOf(x);
      } else {
        assert next[p].route == RouteOf(x);
      }
    }
  }

  datatype Counts = Counts(eligible: nat, changed: nat, kept: nat, familyChanged: nat, reasoningOnly: nat)

  /** Each counter of the pass as the number of runs of its kind. */
  ghost predicate Counted(c: Counts, runs: seq<Run>) {
    && c.eligible == Count(Eligible, runs) && c.changed == Count(Changed, runs) && c.kept == Count(Unchanged, runs)
    && c.familyChanged == Count(FamilyChanged, runs) && c.reasoningOnly == Count(ReasoningOnly, runs)
  }

  function One(b: bool): nat { if b then 1 else 0 }

  lemma CountedMore(c: Counts, runs: seq<Run>, n: nat)
    requires n < |runs| && Counted(c, runs[..n])
    ensures var r := runs[n];
      Counted(Counts(c.eligible + One(Eligible(r)), c.changed + One(Changed(r)), c.kept + One(Unchanged(r)),
                     c.familyChanged + One(FamilyChanged(r)), c.reasoningOnly + One(ReasoningOnly(r))), runs[..n + 1])
  {
    CountMore(Eligible, runs, n);
    CountMore(Changed, runs, n);
    CountMore(Unchanged, runs, n);
    CountMore(FamilyChanged, runs, n);
    CountMore(ReasoningOnly, runs, n);
  }

  lemma CountedNone()
    ensures Counted(Counts(0, 0, 0, 0, 0), []) && Tabulates([], [])
  {
  }

  /** The counting pass of `_impact`. */
  method Impact(runs: seq<Run>) returns (c: Counts, matrix: seq<Cell>)
    ensures Counted(c, runs) && Tabulates(matrix, runs)
    ensures Runs(matrix) == c.eligible == c.changed + c.kept
  {
    var eligible, changed, kept, familyChanged, reasoningOnly := 0, 0, 0, 0, 0;
    matrix := [];
    CountedNone();
    assert runs[..0] == [];
    for n := 0 to |runs|
      invariant Counted(Counts(eligible, changed, kept, familyChanged, reasoningOnly), runs[..n])
      invariant Tabulates(matrix, runs[..n]) && Runs(matrix) == eligible == changed + kept
    {
      hide Tabulates, Counted, Taken, Runs, Tally;
      var r := runs[n];
      CountedMore(Counts(eligible, changed, kept, familyChanged, reasoningOnly), runs, n);
      assert runs[..n + 1] == runs[..n] + [r];
      if !ModelsObserved(r) || !(ModelsDiffer(r) || (r.requestedReasoning.Some? && r.actualReasoning.Some?)) {
        Skipped(matrix, runs[..n], r);
        continue;
      }
      eligible := eligible + 1;
      if ModelsDiffer(r) || LevelsDiffer(r) { changed := changed + 1; } else { kept := kept + 1; }
      if r.requestedFamily != r.actualFamily {
        familyChanged := familyChanged + 1;
      } else if !ModelsDiffer(r) && LevelsDiffer(r) {
        reasoningOnly := reasoningOnly + 1;
      }
      Tallied(matrix, runs[..n], r);
      matrix := Tally(matrix, r);
    }
    assert runs[..|runs|] == runs;
    c := Counts(eligible, changed, kept, familyChanged, reasoningOnly);
  }

  /** A run of the plugin's own whose two routes can be told to be the same or not. */
  predicate Comparable(r: Run) {
    && r.source == Routecraft && r.requestedModel != None && r.actualModel != None
    && r.requestedFamily != None && r.actualFamily != None
    && (r.requestedModel == r.actualModel ==> r.requestedReasoning != None && r.actualReasoning != None)
  }

  /** The places of the runs that have the property. */
  function Where(q: Run -> bool, runs: seq<Run>): set<nat> { set n: nat | n < |runs| && q(runs[n]) }

  lemma {:induction false} CountIs(p: Run -> bool, runs: seq<Run>)
    ensures Count(p, runs) == |Where(p, runs)|
    decreases |runs|
  {
    if runs != [] {
      var k := |runs| - 1;
      CountIs(p, runs[..k]);
      assert Where(p, runs) == Where(p, runs[..k]) + if p(runs[k]) then {k} else {};
    }
  }

  lemma CountLike(p: Run -> bool, q: Run -> bool, runs: seq<Run>)
    requires forall n :: 0 <= n < |runs| ==> p(runs[n]) == q(runs[n])
    ensures Count(p, runs) == |Where(q, runs)|
  {
    CountIs(p, runs);
    assert Where(p, runs) == Where(q, runs);
  }

  predicate SameRoute(r: Run) {
    Comparable(r) && (r.requestedModel, r.requestedReasoning) == (r.actualModel, r.actualReasoning)
  }

  predicate OtherRoute(r: Run) {
    Comparable(r) && (r.requestedModel, r.requestedReasoning) != (r.actualModel, r.actualReasoning)
  }

  predicate OtherFamily(r: Run) { Comparable(r) && r.requestedFamily != r.actualFamily }

  predicate OtherLevelOnly(r: Run) { OtherRoute(r) && r.requestedModel == r.actualModel && !OtherFamily(r) }

  /** The counters of the pass, read off the runs. */
  lemma CountsMean(c: Counts, runs: seq<Run>)
    requires Counted(c, runs)
    ensures c.eligible == |Where(Comparable, runs)|
    ensures c.changed == |Where(OtherRoute, runs)| && c.kept == |Where(SameRoute, runs)|
    ensures c.familyChanged == |Where(OtherFamily, runs)| && c.reasoningOnly == |Where(OtherLevelOnly, runs)|
  {
    hide Count, Where;
    CountLike(Eligible, Comparable, runs);
    CountLike(Changed, OtherRoute, runs);
    CountLike(Unchanged, SameRoute, runs);
    CountLike(FamilyChanged, OtherFamily, runs);
    CountLike(ReasoningOnly, OtherLevelOnly, runs);
  }

  /** The run was asked to go by the first two and went by the last two. */
  predicate WentBy(r: Run, route: Route) {
    && Comparable(r)
    && r.requestedFamily == Some(route.requestedFamily) && r.requestedReasoning == route.requestedReasoning
    && r.actualFamily == Some(route.actualFamily) && r.actualReasoning == route.actualReasoning
  }

  /** The places of the runs that went by the route. */
  function Went(runs: seq<Run>, route: Route): set<nat> { set n: nat | n < |runs| && WentBy(runs[n], route) }

  lemma {:induction false} TakenIs(route: Route, runs: seq<Run>)
    ensures Taken(route, runs) == |Went(runs, route)|
    decreases |runs|
  {
    hide WentBy;
    if runs != [] {
      var k := |runs| - 1;
      TakenIs(route, runs[..k]);
      TookIff(runs[k], route);
      assert Went(runs, route) == Went(runs[..k], route) + if WentBy(runs[k], route) then {k} else {};
    }
  }

  lemma TookIff(r: Run, route: Route)
    ensures Took(r, route) <==> WentBy(r, route)
  {
  }

  /** The matrix, read off the runs: the runs of each cell, and exactly one cell for every comparable run. */
  lemma CellsMean(cells: seq<Cell>, runs: seq<Run>)
    requires Tabulates(cells, runs)
    ensures forall i :: 0 <= i < |cells| ==> cells[i].runs == |Went(runs, cells[i].route)|
    ensures forall n: nat :: n < |runs| && Comparable(runs[n]) ==>
      exists i :: 0 <= i < |cells| && n in Went(runs, cells[i].route)
    ensures forall i, j :: 0 <= i < j < |cells| ==> Went(runs, cells[i].route) !! Went(runs, cells[j].route)
  {
    forall i | 0 <= i < |cells| ensures cells[i].runs == |Went(runs, cells[i].route)| {
      TakenIs(cells[i].route, runs);
    }
    forall n: nat | n < |runs| && Comparable(runs[n])
      ensures exists i :: 0 <= i < |cells| && n in Went(runs, cells[i].route)
    {
      assert runs[n] in runs && Eligible(runs[n]);
      var i :| 0 <= i < |cells| && cells[i].route == RouteOf(runs[n]);
      TookIff(runs[n], cells[i].route);
      assert n in Went(runs, cells[i].route);
    }
  }

  /** The percentages of the matrix: each cell's share of the eligible runs. */
  function Shares(cells: seq<Cell>, total: nat): real
    requires total > 0
    decreases |cells|
  {
    if cells == [] then 0.0
    else Shares(cells[..|cells| - 1], total) + cells[|cells| - 1].runs as real / total as real * 100.0
  }

  lemma {:induction false} SharesAre(cells: seq<Cell>, total: nat)
    requires total > 0
    ensures Shares(cells, total) == Runs(cells) as real / total as real * 100.0
    decreases |cells|
  {
    if cells != [] {
      SharesAre(cells[..|cells| - 1], total);
      var t, a, b := total as real, Runs(cells[..|cells| - 1]) as real, cells[|cells| - 1].runs as real;
      assert (a + b) / t == a / t + b / t;
    }
  }

  /** The percentages of a non-empty matrix add up to 100. */
  lemma SharesAddUp(cells: seq<Cell>)
    requires Runs(cells) > 0
    ensures Shares(cells, Runs(cells)) == 100.0
  {
    SharesAre(cells, Runs(cells));
    OneWhole(Runs(cells) as real);
  }

  lemma OneWhole(t: real)
    requires t > 0.0
    ensures t / t == 1.0
  {
  }

  /** Where the labels of both models were observed and are the same, so are the families. */
  predicate SameLabelSameFamily(r: Run) {
    ModelsObserved(r) && !ModelsDiffer(r) ==> r.requestedFamily == r.actualFamily
  }

  /**
   * Where equal labels mean equal families, changes of family and changes of reasoning alone are
   * disjoint kinds of change.
   */
  lemma {:induction false} KindsOfChange(runs: seq<Run>)
    requires forall r :: r in runs ==> SameLabelSameFamily(r)
    ensures Count(FamilyChanged, runs) + Count(ReasoningOnly, runs) <= Count(Changed, runs)
    decreases |runs|
  {
    if runs != [] {
      var front, last := runs[..|runs| - 1], runs[|runs| - 1];
      assert last in runs && forall r :: r in front ==> r in runs;
      KindsOfChange(front);
      assert !(FamilyChanged(last) && ReasoningOnly(last));
      assert FamilyChanged(last) ==> ModelsDiffer(last);
    }
  }

  /** The same runs, but for what was observed of their reasoning levels. */
  ghost predicate UpToLevels(a: seq<Run>, b: seq<Run>) {
    |a| == |b| && forall i :: 0 <= i < |a| ==>
      a[i] == b[i].(requestedReasoning := a[i].requestedReasoning, actualReasoning := a[i].actualReasoning)
  }

  /** Every change of family is a change of route. */
  ghost predicate FamilyChangesCount(runs: seq<Run>) {
    forall r :: r in runs && FamilyChanged(r) ==> Changed(r)
  }

  /**
   * Whatever is observed of their reasoning levels, every change of family among the runs is a
   * change of route if and only if equal labels mean equal families in each of them.
   */
  lemma FamilyChangesCountIff(runs: seq<Run>)
    ensures (forall a :: UpToLevels(a, runs) ==> FamilyChangesCount(a)) <==>
      forall r :: r in runs ==> SameLabelSameFamily(r)
  {
    if forall r :: r in runs ==> SameLabelSameFamily(r) {
      forall a | UpToLevels(a, runs) ensures FamilyChangesCount(a) {
        forall r | r in a && FamilyChanged(r) ensures Changed(r) {
          var i :| 0 <= i < |a| && a[i] == r;
          assert runs[i] in runs;
        }
      }
    } else {
      var r :| r in runs && !SameLabelSameFamily(r);
      var i :| 0 <= i < |runs| && runs[i] == r;
      var x := r.(requestedReasoning := Some(Ultra), actualReasoning := Some(Ultra));
      var a := runs[i := x];
      assert a[i] == x && x in a && FamilyChanged(x) && !Changed(x);
      assert UpToLevels(a, runs) && !FamilyChangesCount(a);
    }
  }
}
