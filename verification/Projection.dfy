/**
 * The dashboard's merge of lifecycle events into one record per run.  A column that is null is
 * absent from `values`; an event whose timestamp cannot be read counts as infinitely old.
 */
module Projection {
  import opened Basics
  import opened JsonValues
  import opened Order

  datatype Instant = Never | At(time: real)

  datatype Record = Record(source: string, runId: string, order: Instant,
                           sequence: Option<nat>, values: map<string, Json>)

  datatype RunKey = RunKey(source: string, runId: string)

  function KeyOf(r: Record): RunKey { RunKey(r.source, r.runId) }

  predicate Sooner(a: Instant, b: Instant) { b.At? && (a.Never? || a.time < b.time) }

  function Rank(r: Record): int { if r.sequence.Some? then r.sequence.value else -1 }

  /** The comparison the merge makes: by time, then by sequence number, a missing one counting as -1. */
  predicate AtLeastAsNew(a: Record, b: Record) {
    Sooner(b.order, a.order) || (a.order == b.order && Rank(a) >= Rank(b))
  }

  /** Every column of the newer record that is not null, and the older one's where it is. */
  function Absorb(previous: Record, record: Record): Record {
    var (latest, older) := if AtLeastAsNew(record, previous) then (record, previous) else (previous, record);
    Record(latest.source, latest.runId, latest.order,
           if latest.sequence.Some? then latest.sequence else older.sequence,
           older.values + latest.values)
  }

  function Fold(es: seq<Record>): Record
    requires es != []
    decreases |es|
  {
    if |es| == 1 then es[0] else Absorb(Fold(es[..|es| - 1]), es[|es| - 1])
  }

  /** The events of one run, in the order listed. */
  function Of(es: seq<Record>, k: RunKey): seq<Record>
    decreases |es|
  {
    if es == [] then []
    else
      var last := es[|es| - 1];
      Of(es[..|es| - 1], k) + if KeyOf(last) == k then [last] else []
  }

  lemma {:induction false} OfElements(es: seq<Record>, k: RunKey)
    ensures forall r :: r in Of(es, k) <==> r in es && KeyOf(r) == k
    decreases |es|
  {
    if es != [] {
      var front, last := es[..|es| - 1], es[|es| - 1];
      OfElements(front, k);
      assert es == front + [last];
    }
  }

  // ---------------------------------------------------------------- when the merge is right

  /** One event is certainly before another: it is older, or as old and numbered lower. */
  predicate Earlier(a: Record, b: Record) {
    || Sooner(a.order, b.order)
    || (a.order == b.order && a.sequence.Some? && b.sequence.Some? && a.sequence.value < b.sequence.value)
  }

  ghost predicate Comparable(es: seq<Record>) {
    forall i, j :: 0 <= i < j < |es| ==> Earlier(es[i], es[j]) || Earlier(es[j], es[i])
  }

  ghost predicate Newest(es: seq<Record>, k: nat)
    requires k < |es|
  {
    forall j :: 0 <= j < k ==> Earlier(es[j], es[k])
  }

  ghost predicate Oldest(es: seq<Record>, k: nat)
    requires k < |es|
  {
    forall j :: 0 <= j < k ==> Earlier(es[k], es[j])
  }

  /** Each event is newer than all listed before it, or older than all of them. */
  ghost predicate Outward(es: seq<Record>) {
    forall k: nat :: k < |es| ==> Newest(es, k) || Oldest(es, k)
  }

  /** Value `v` of column `c` comes from the latest of the events that report the column. */
  ghost predicate LatestReport(es: seq<Record>, c: string, v: Json) {
    exists i :: 0 <= i < |es| && IsLatestReport(es, c, i) && es[i].values[c] == v
  }

  ghost predicate IsLatestReport(es: seq<Record>, c: string, i: nat)
    requires i < |es|
  {
    && c in es[i].values
    && forall j :: 0 <= j < |es| && j != i && c in es[j].values ==> Earlier(es[j], es[i])
  }

  /** What the merge is for: exactly the reported columns, each with its latest reported value. */
  ghost predicate LatestWins(es: seq<Record>, m: Record) {
    && (forall c :: c in m.values ==> LatestReport(es, c, m.values[c]))
    && (forall i, c :: 0 <= i < |es| && c in es[i].values ==> c in m.values)
  }

  /** The merged stamp is never behind any of the events merged. */
  lemma {:induction false} FoldIsNewest(es: seq<Record>)
    requires es != []
    ensures forall i :: 0 <= i < |es| ==> AtLeastAsNew(Fold(es), es[i])
    decreases |es|
  {
    if |es| > 1 {
      var front := es[..|es| - 1];
      FoldIsNewest(front);
      assert forall i :: 0 <= i < |front| ==> es[i] == front[i];
    }
  }

  lemma {:induction false} OutwardPrefix(es: seq<Record>, n: nat)
    requires Outward(es) && n <= |es|
    ensures Outward(es[..n])
  {
    forall k: nat | k < n ensures Newest(es[..n], k) || Oldest(es[..n], k) {
      assert Newest(es, k) || Oldest(es, k);
      assert forall j :: 0 <= j <= k ==> es[..n][j] == es[j];
    }
  }

  /** Some event is the newest of all, and the merged record carries its time and its number. */
  ghost predicate CarriesTop(es: seq<Record>, m: Record, t: nat)
    requires t < |es|
  {
    && (forall j :: 0 <= j < |es| && j != t ==> Earlier(es[j], es[t]))
    && m.order == es[t].order && (es[t].sequence.Some? ==> m.sequence == es[t].sequence)
  }

  lemma {:induction false} FoldCarriesTop(es: seq<Record>) returns (t: nat)
    requires es != [] && Outward(es)
    ensures t < |es| && CarriesTop(es, Fold(es), t)
    decreases |es|
  {
    var n := |es| - 1;
    if n == 0 { return 0; }
    var front, last := es[..n], es[n];
    OutwardPrefix(es, n);
    t := FoldCarriesTop(front);
    assert Newest(es, n) || Oldest(es, n);
    assert forall j :: 0 <= j < n ==> es[j] == front[j];
    NewerIffNewest(es, n, t);
    if Newest(es, n) { t := n; }
  }

  /** On an outward list the merge's comparison tells the newest event from the oldest. */
  lemma NewerIffNewest(es: seq<Record>, n: nat, t: nat)
    requires 0 < n < |es| && t < n && CarriesTop(es[..n], Fold(es[..n]), t)
    requires Newest(es, n) || Oldest(es, n)
    ensures AtLeastAsNew(es[n], Fold(es[..n])) <==> Newest(es, n)
    ensures Newest(es, n) != Oldest(es, n)
  {
    assert es[..n][t] == es[t];
    if Newest(es, n) { assert Earlier(es[t], es[n]); } else { assert Earlier(es[n], es[t]); }
  }

  lemma {:induction false} FoldIsLatest(es: seq<Record>)
    requires es != [] && Outward(es)
    ensures LatestWins(es, Fold(es))
    decreases |es|
  {
    hide Earlier, AtLeastAsNew;
    var n := |es| - 1;
    var m := Fold(es);
    if n == 0 {
      forall c | c in m.values ensures LatestReport(es, c, m.values[c]) { assert IsLatestReport(es, c, 0); }
    } else {
      var front, last := es[..n], es[n];
      OutwardPrefix(es, n);
      FoldIsLatest(front);
      var t := FoldCarriesTop(front);
      assert Newest(es, n) || Oldest(es, n);
      NewerIffNewest(es, n, t);
      forall c | c in m.values ensures LatestReport(es, c, m.values[c]) { ColumnIsLatest(es, c); }
      forall i, c | 0 <= i < |es| && c in es[i].values ensures c in m.values {
        if i < n { assert front[i] == es[i]; }
      }
    }
  }

  lemma ColumnIsLatest(es: seq<Record>, c: string)
    requires |es| > 1 && var n := |es| - 1;
      LatestWins(es[..n], Fold(es[..n]))
      && (Newest(es, n) || Oldest(es, n)) && Newest(es, n) != Oldest(es, n)
      && (AtLeastAsNew(es[n], Fold(es[..n])) <==> Newest(es, n))
    requires c in Fold(es).values
    ensures LatestReport(es, c, Fold(es).values[c])
  {
    hide Earlier, AtLeastAsNew;
    var n := |es| - 1;
    var front, last, p, m := es[..n], es[n], Fold(es[..n]), Fold(es);
    assert m == Absorb(p, last);
    if c in last.values && (Newest(es, n) || c !in p.values) {
      if c !in p.values {
        forall j | 0 <= j < n ensures c !in es[j].values { assert es[j] == front[j]; }
      }
      assert IsLatestReport(es, c, n);
    } else {
      assert LatestReport(front, c, p.values[c]);
      var i :| 0 <= i < n && IsLatestReport(front, c, i) && front[i].values[c] == p.values[c];
      forall j | 0 <= j <= n && j != i && c in es[j].values ensures Earlier(es[j], es[i]) {
        if j < n { assert es[j] == front[j]; }
      }
      assert IsLatestReport(es, c, i);
    }
  }

  ghost predicate IsLatestNumbered(es: seq<Record>, i: nat)
    requires i < |es|
  {
    && es[i].sequence.Some?
    && forall j :: 0 <= j < |es| && j != i && es[j].sequence.Some? ==> Earlier(es[j], es[i])
  }

  /** The merged number is that of the latest event that has one. */
  ghost predicate LatestNumber(es: seq<Record>, m: Record) {
    if m.sequence.None? then forall i :: 0 <= i < |es| ==> es[i].sequence.None?
    else exists i :: 0 <= i < |es| && IsLatestNumbered(es, i) && es[i].sequence == m.sequence
  }

  lemma {:induction false} FoldNumber(es: seq<Record>)
    requires es != [] && Outward(es)
    ensures LatestNumber(es, Fold(es))
    decreases |es|
  {
    var n := |es| - 1;
    if n == 0 {
      assert es[0].sequence.Some? ==> IsLatestNumbered(es, 0);
    } else {
      OutwardPrefix(es, n);
      FoldNumber(es[..n]);
      var t := FoldCarriesTop(es[..n]);
      assert Newest(es, n) || Oldest(es, n);
      NewerIffNewest(es, n, t);
      NumberMore(es);
    }
  }

  lemma NumberMore(es: seq<Record>)
    requires |es| > 1 && var n := |es| - 1;
      LatestNumber(es[..n], Fold(es[..n]))
      && (Newest(es, n) || Oldest(es, n)) && (AtLeastAsNew(es[n], Fold(es[..n])) <==> Newest(es, n))
    ensures LatestNumber(es, Fold(es))
  {
    var n := |es| - 1;
    var p, m := Fold(es[..n]), Fold(es);
    assert m.sequence == Absorb(p, es[n]).sequence;
    hide Fold;
    NumberAbsorbed(p, es[n]);
    if p.sequence.None? {
      OnlyNumber(es);
    } else {
      var i := LatestIn(es[..n], p);
      LaterNumber(es, i);
    }
  }

  lemma NumberAbsorbed(p: Record, e: Record)
    ensures Absorb(p, e).sequence ==
      if e.sequence.Some? && (p.sequence.None? || AtLeastAsNew(e, p)) then e.sequence else p.sequence
  {
    hide AtLeastAsNew;
  }

  lemma LatestIn(es: seq<Record>, m: Record) returns (i: nat)
    requires LatestNumber(es, m) && m.sequence.Some?
    ensures i < |es| && IsLatestNumbered(es, i) && es[i].sequence == m.sequence
  {
    i :| 0 <= i < |es| && IsLatestNumbered(es, i) && es[i].sequence == m.sequence;
  }

  lemma OnlyNumber(es: seq<Record>)
    requires es != [] && var front := es[..|es| - 1]; forall j :: 0 <= j < |front| ==> front[j].sequence.None?
    ensures forall j :: 0 <= j < |es| - 1 ==> es[j].sequence.None?
    ensures es[|es| - 1].sequence.Some? ==> IsLatestNumbered(es, |es| - 1)
  {
    var front := es[..|es| - 1];
    assert forall j :: 0 <= j < |front| ==> front[j] == es[j];
  }

  lemma LaterNumber(es: seq<Record>, i: nat)
    requires es != [] && i < |es| - 1 && IsLatestNumbered(es[..|es| - 1], i)
    requires var n := |es| - 1; Newest(es, n) || Oldest(es, n)
    ensures var n := |es| - 1;
      if es[n].sequence.Some? && Newest(es, n) then IsLatestNumbered(es, n) else IsLatestNumbered(es, i)
  {
    hide Earlier;
    var front := es[..|es| - 1];
    assert forall j :: 0 <= j < |front| ==> front[j] == es[j];
  }

  // ---------------------------------------------------------------- exactly when

  ghost predicate SameStamps(es: seq<Record>, stamps: seq<Record>) {
    |es| == |stamps| && forall i :: 0 <= i < |es| ==>
      es[i].order == stamps[i].order && es[i].sequence == stamps[i].sequence
  }

  /** Events with the stamps given: the `i`-th reports 0 for the column, the `m`-th 1, no other reports it. */
  function TwoReports(stamps: seq<Record>, c: string, i: nat, m: nat): seq<Record> {
    seq(|stamps|, k requires 0 <= k < |stamps| =>
      stamps[k].(values := if k == i then map[c := Int(0)] else if k == m then map[c := Int(1)] else map[]))
  }

  lemma {:induction false} FirstReportStays(es: seq<Record>, stamps: seq<Record>, c: string, i: nat,
                                            m: nat, q: nat, n: nat)
    requires es == TwoReports(stamps, c, i, m)
    requires i < m < |es| && q < m && Earlier(es[m], es[q])
    requires 0 < n <= |es|
    ensures Fold(es[..n]).values == if i < n then map[c := Int(0)] else map[]
    decreases n
  {
    hide Earlier, AtLeastAsNew, Absorb;
    assert es[..n][..n - 1] == es[..n - 1];
    if n > 1 {
      FirstReportStays(es, stamps, c, i, m, q, n - 1);
      var p, last := Fold(es[..n - 1]), es[n - 1];
      if n - 1 == m {
        FoldIsNewest(es[..m]);
        assert es[..m][q] == es[q];
        NotNewer(last, es[q], p);
        assert last.values + p.values == p.values;
      } else if n - 1 != i {
        EmptyAbsorbed(p, last);
      } else {
        assert p.values == map[];
        EmptyAbsorbing(p, last);
      }
    }
  }

  lemma NotNewer(e: Record, q: Record, p: Record)
    requires Earlier(e, q) && AtLeastAsNew(p, q)
    ensures !AtLeastAsNew(e, p) && Absorb(p, e).values == e.values + p.values
  {
  }

  lemma EmptyAbsorbed(p: Record, e: Record)
    requires e.values == map[]
    ensures Absorb(p, e).values == p.values
  {
    assert p.values + e.values == p.values && e.values + p.values == p.values;
  }

  lemma EmptyAbsorbing(p: Record, e: Record)
    requires p.values == map[]
    ensures Absorb(p, e).values == e.values
  {
    assert p.values + e.values == e.values && e.values + p.values == e.values;
  }

  /** Anywhere else than at the two ends, an event that reports can lose its column to an older one. */
  lemma WrongMerge(stamps: seq<Record>, c: string) returns (es: seq<Record>)
    requires stamps != [] && Comparable(stamps) && !Outward(stamps)
    ensures SameStamps(es, stamps) && !LatestWins(es, Fold(es))
  {
    hide Fold, Earlier, TwoReports;
    var m: nat :| m < |stamps| && !Newest(stamps, m) && !Oldest(stamps, m);
    var q: nat :| q < m && !Earlier(stamps[q], stamps[m]);
    var i: nat :| i < m && !Earlier(stamps[m], stamps[i]);
    assert Earlier(stamps[m], stamps[q]) && Earlier(stamps[i], stamps[m]);
    es := WrongMergeAt(stamps, c, i, m, q);
  }

  lemma WrongMergeAt(stamps: seq<Record>, c: string, i: nat, m: nat, q: nat) returns (es: seq<Record>)
    requires i < m < |stamps| && q < m && Earlier(stamps[m], stamps[q]) && Earlier(stamps[i], stamps[m])
    ensures SameStamps(es, stamps) && !LatestWins(es, Fold(es))
  {
    hide Fold, Earlier;
    es := TwoReports(stamps, c, i, m);
    StampsDecide(stamps[m], stamps[q], es[m], es[q]);
    FirstReportStays(es, stamps, c, i, m, q, |es|);
    assert es[..|es|] == es;
    OnlyTwoReport(stamps, es, c, i, m);
    assert Fold(es).values[c] == Int(0);
  }

  lemma StampsDecide(a: Record, b: Record, x: Record, y: Record)
    requires a.order == x.order && a.sequence == x.sequence && b.order == y.order && b.sequence == y.sequence
    ensures Earlier(a, b) <==> Earlier(x, y)
  {
  }

  lemma OnlyTwoReport(stamps: seq<Record>, es: seq<Record>, c: string, i: nat, m: nat)
    requires i < m < |stamps| && es == TwoReports(stamps, c, i, m) && Earlier(stamps[i], stamps[m])
    ensures !LatestReport(es, c, Int(0))
  {
    if LatestReport(es, c, Int(0)) {
      var r :| 0 <= r < |es| && IsLatestReport(es, c, r) && es[r].values[c] == Int(0);
      assert r == i && c in es[m].values;
      assert Earlier(es[m], es[i]);
      assert false;
    }
  }

  /**
   * For events that can be told apart in time, the merge gives every column its latest report,
   * whatever the events report, if and only if each event is listed after events that are all
   * older or all newer than it.
   */
  lemma MergeRightIffOutward(stamps: seq<Record>, c: string)
    requires stamps != [] && Comparable(stamps)
    ensures (forall es :: SameStamps(es, stamps) ==> LatestWins(es, Fold(es))) <==> Outward(stamps)
  {
    if Outward(stamps) {
      forall es | SameStamps(es, stamps) ensures LatestWins(es, Fold(es)) {
        forall k: nat | k < |es| ensures Newest(es, k) || Oldest(es, k) {
          assert Newest(stamps, k) || Oldest(stamps, k);
        }
        FoldIsLatest(es);
      }
    } else {
      var es := WrongMerge(stamps, c);
    }
  }

  // ---------------------------------------------------------------- the two paths of the dashboard

  /** Events of the same run are listed oldest first. */
  ghost predicate OldestFirst(es: seq<Record>) {
    forall i, j :: 0 <= i < j < |es| && KeyOf(es[i]) == KeyOf(es[j]) ==> Earlier(es[i], es[j])
  }

  /** Events of the same run are listed newest first. */
  ghost predicate NewestFirst(es: seq<Record>) {
    forall i, j :: 0 <= i < j < |es| && KeyOf(es[i]) == KeyOf(es[j]) ==> Earlier(es[j], es[i])
  }

  lemma {:induction false} ListedRunIsOutward(es: seq<Record>, k: RunKey)
    requires OldestFirst(es) || NewestFirst(es)
    ensures Outward(Of(es, k))
    decreases |es|
  {
    if es != [] {
      var n := |es| - 1;
      var front, last, own := es[..n], es[n], Of(es, k);
      ListedRunIsOutward(front, k);
      OfElements(front, k);
      if KeyOf(last) == k {
        var before := Of(front, k);
        assert own == before + [last];
        forall j | 0 <= j < |before|
          ensures OldestFirst(es) ==> Earlier(own[j], last)
          ensures NewestFirst(es) ==> Earlier(last, own[j])
        {
          assert own[j] == before[j] && own[j] in before;
          var x :| 0 <= x < n && front[x] == own[j];
          assert es[x] == own[j];
        }
        OutwardExtends(before, last);
      } else {
        assert own == Of(front, k);
      }
    }
  }

  lemma OutwardExtends(before: seq<Record>, last: Record)
    requires Outward(before)
    requires var es := before + [last]; Newest(es, |before|) || Oldest(es, |before|)
    ensures Outward(before + [last])
  {
    var es := before + [last];
    forall h: nat | h < |es| ensures Newest(es, h) || Oldest(es, h) {
      if h < |before| {
        assert forall j :: 0 <= j <= h ==> es[j] == before[j];
        assert Newest(before, h) || Oldest(before, h);
      }
    }
  }

  lemma LatestIsUnique(a: seq<Record>, b: seq<Record>, c: string, v: Json, w: Json)
    requires (forall r :: r in a <==> r in b) && LatestReport(a, c, v) && LatestReport(b, c, w)
    ensures v == w
  {
    var i :| 0 <= i < |a| && IsLatestReport(a, c, i) && a[i].values[c] == v;
    var j :| 0 <= j < |b| && IsLatestReport(b, c, j) && b[j].values[c] == w;
    assert a[i] in b && b[j] in a;
    var x :| 0 <= x < |b| && b[x] == a[i];
    var y :| 0 <= y < |a| && a[y] == b[j];
  }

  lemma LatestValuesAgree(a: seq<Record>, b: seq<Record>, m: Record, w: Record)
    requires (forall r :: r in a <==> r in b) && LatestWins(a, m) && LatestWins(b, w)
    ensures m.values == w.values
  {
    forall c | c in m.values ensures c in w.values && m.values[c] == w.values[c] { ColumnAgrees(a, b, m, w, c); }
    forall c | c in w.values ensures c in m.values { ColumnAgrees(b, a, w, m, c); }
  }

  lemma ColumnAgrees(a: seq<Record>, b: seq<Record>, m: Record, w: Record, c: string)
    requires (forall r :: r in a <==> r in b) && LatestWins(a, m) && LatestWins(b, w) && c in m.values
    ensures c in w.values && m.values[c] == w.values[c]
  {
    assert LatestReport(a, c, m.values[c]);
    var i :| 0 <= i < |a| && IsLatestReport(a, c, i) && a[i].values[c] == m.values[c];
    assert a[i] in b;
    var x :| 0 <= x < |b| && b[x] == a[i];
    LatestIsUnique(a, b, c, m.values[c], w.values[c]);
  }

  lemma TopsAgree(a: seq<Record>, b: seq<Record>)
    requires a != [] && b != [] && (forall r :: r in a <==> r in b) && Outward(a) && Outward(b)
    ensures Fold(a).order == Fold(b).order
  {
    var s := FoldCarriesTop(a);
    var t := FoldCarriesTop(b);
    assert a[s] in b && b[t] in a;
    var x :| 0 <= x < |b| && b[x] == a[s];
    var y :| 0 <= y < |a| && a[y] == b[t];
    if a[s] != b[t] {
      assert Earlier(b[x], b[t]) && Earlier(a[y], a[s]);
    }
  }

  /**
   * The same events listed oldest first and listed newest first merge into the same columns and
   * the same time for every run.
   */
  lemma PathsAgree(a: seq<Record>, d: seq<Record>, k: RunKey)
    requires (forall r :: r in a <==> r in d) && OldestFirst(a) && NewestFirst(d)
    ensures Of(a, k) == [] <==> Of(d, k) == []
    ensures Of(a, k) != [] ==> Fold(Of(a, k)).values == Fold(Of(d, k)).values
    ensures Of(a, k) != [] ==> Fold(Of(a, k)).order == Fold(Of(d, k)).order
  {
    hide OldestFirst, NewestFirst;
    var x, y := Of(a, k), Of(d, k);
    OfElements(a, k);
    OfElements(d, k);
    ListedRunIsOutward(a, k);
    ListedRunIsOutward(d, k);
    assert forall r :: r in x <==> r in y;
    if x != [] { assert x[0] in y; }
    if y != [] { assert y[0] in x; }
    if x != [] {
      FoldIsLatest(x);
      FoldIsLatest(y);
      LatestValuesAgree(x, y, Fold(x), Fold(y));
      TopsAgree(x, y);
    }
  }

  // ---------------------------------------------------------------- the list of runs

  /** The events that describe a run at all. */
  function Usable(events: seq<Option<Record>>): seq<Record>
    decreases |events|
  {
    if events == [] then []
    else
      var last := events[|events| - 1];
      Usable(events[..|events| - 1]) + if last.Some? then [last.value] else []
  }

  lemma {:induction false} FoldKeepsKey(es: seq<Record>, k: RunKey)
    requires es != [] && forall r :: r in es ==> KeyOf(r) == k
    ensures KeyOf(Fold(es)) == k
    decreases |es|
  {
    assert es[|es| - 1] in es;
    if |es| > 1 {
      FoldKeepsKey(es[..|es| - 1], k);
    }
  }

  /** The order of the rows shown: by time, then by run id, descending. */
  predicate Above(a: Record, b: Record) {
    Sooner(b.order, a.order) || (a.order == b.order && Before(b.runId, a.runId))
  }

  ghost predicate Descending(rows: seq<Record>) {
    forall i, j :: 0 <= i < j < |rows| ==> !Above(rows[j], rows[i])
  }

  lemma NotAboveTransitive(a: Record, b: Record, c: Record)
    requires !Above(b, a) && !Above(c, b)
    ensures !Above(c, a)
  {
    BeforeIsTotal();
  }

  lemma AboveExcludes(a: Record, b: Record)
    requires Above(a, b)
    ensures !Above(b, a)
  {
    BeforeIsTotal();
  }

  /** Insertion below every row that is not beneath the new one, as a stable sort keeps ties. */
  function Insert(rows: seq<Record>, r: Record): seq<Record>
    decreases |rows|
  {
    if rows == [] || !Above(r, rows[|rows| - 1]) then rows + [r]
    else Insert(rows[..|rows| - 1], r) + [rows[|rows| - 1]]
  }

  lemma {:induction false} InsertDescending(rows: seq<Record>, r: Record)
    requires Descending(rows)
    ensures Descending(Insert(rows, r)) && multiset(Insert(rows, r)) == multiset(rows) + multiset{r}
    decreases |rows|
  {
    hide Above;
    if rows != [] {
      var front, last, all := rows[..|rows| - 1], rows[|rows| - 1], Insert(rows, r);
      assert rows == front + [last];
      if Above(r, last) {
        InsertDescending(front, r);
        AboveExcludes(r, last);
        forall x | x in Insert(front, r) ensures !Above(last, x) {
          assert x in multiset(Insert(front, r));
        }
      } else {
        forall i | 0 <= i < |rows| ensures !Above(r, rows[i]) {
          if i < |rows| - 1 { NotAboveTransitive(rows[i], last, r); }
        }
      }
    }
  }

  /** One row per run, and each row the merge of that run's events. */
  ghost predicate RowPerRun(rows: seq<Record>, es: seq<Record>) {
    && (forall r :: r in rows ==> Of(es, KeyOf(r)) != [] && r == Fold(Of(es, KeyOf(r))))
    && (forall e :: e in es ==> exists r :: r in rows && KeyOf(r) == KeyOf(e))
    && (forall i, j :: 0 <= i < j < |rows| ==> KeyOf(rows[i]) != KeyOf(rows[j]))
  }

  function Position(rows: seq<Record>, k: RunKey): (p: nat)
    ensures p <= |rows| && (p < |rows| ==> KeyOf(rows[p]) == k)
    ensures forall i :: 0 <= i < p ==> KeyOf(rows[i]) != k
    decreases |rows|
  {
    if rows == [] then 0
    else
      var n := |rows| - 1;
      var p := Position(rows[..n], k);
      assert forall i :: 0 <= i < n ==> rows[..n][i] == rows[i];
      if p < n || KeyOf(rows[n]) == k then p else p + 1
  }

  lemma OfMore(es: seq<Record>, e: Record, k: RunKey)
    ensures Of(es + [e], k) == if KeyOf(e) == k then Of(es, k) + [e] else Of(es, k)
  {
    assert (es + [e])[..|es|] == es;
  }

  lemma FoldMore(es: seq<Record>, e: Record)
    requires es != []
    ensures Fold(es + [e]) == Absorb(Fold(es), e)
  {
    assert (es + [e])[..|es|] == es;
  }

  lemma {:induction false} NobodysEvents(es: seq<Record>, k: RunKey)
    requires forall e :: e in es ==> KeyOf(e) != k
    ensures Of(es, k) == []
    decreases |es|
  {
    if es != [] {
      NobodysEvents(es[..|es| - 1], k);
      assert es[|es| - 1] in es;
    }
  }

  lemma AbsorbKeepsKey(a: Record, b: Record)
    requires KeyOf(a) == KeyOf(b)
    ensures KeyOf(Absorb(a, b)) == KeyOf(a)
  {
  }

  /** A further event is absorbed by its run's row. */
  lemma AbsorbedRow(rows: seq<Record>, es: seq<Record>, e: Record, p: nat)
    requires RowPerRun(rows, es) && p < |rows| && KeyOf(rows[p]) == KeyOf(e)
    ensures RowPerRun(rows[p := Absorb(rows[p], e)], es + [e])
  {
    hide Absorb, Fold, Of, KeyOf;
    AbsorbKeepsKey(rows[p], e);
    var next := rows[p := Absorb(rows[p], e)];
    forall r | r in next ensures Of(es + [e], KeyOf(r)) != [] && r == Fold(Of(es + [e], KeyOf(r))) {
      var i :| 0 <= i < |next| && next[i] == r;
      assert rows[i] in rows;
      OfMore(es, e, KeyOf(r));
      if i == p { FoldMore(Of(es, KeyOf(e)), e); } else { assert KeyOf(rows[i]) != KeyOf(rows[p]); }
    }
    forall i, j | 0 <= i < j < |next| ensures KeyOf(next[i]) != KeyOf(next[j]) {
      assert KeyOf(next[i]) == KeyOf(rows[i]) && KeyOf(next[j]) == KeyOf(rows[j]);
    }
    AbsorbedCover(rows, es, e, p);
  }

  lemma AbsorbedCover(rows: seq<Record>, es: seq<Record>, e: Record, p: nat)
    requires p < |rows| && KeyOf(rows[p]) == KeyOf(e)
    requires forall x :: x in es ==> exists r :: r in rows && KeyOf(r) == KeyOf(x)
    ensures forall x :: x in es + [e] ==> exists r :: r in rows[p := Absorb(rows[p], e)] && KeyOf(r) == KeyOf(x)
  {
    AbsorbKeepsKey(rows[p], e);
    var m := Absorb(rows[p], e);
    hide Absorb, KeyOf;
    var next := rows[p := m];
    forall x | x in es + [e] ensures exists r :: r in next && KeyOf(r) == KeyOf(x) {
      if x in es {
        var r :| r in rows && KeyOf(r) == KeyOf(x);
        var i :| 0 <= i < |rows| && rows[i] == r;
        assert next[i] in next;
        assert KeyOf(next[i]) == KeyOf(rows[i]);
      } else {
        assert next[p] in next && KeyOf(next[p]) == KeyOf(x);
      }
    }
  }

  /** The first event of a run opens its row. */
  lemma OpenedRow(rows: seq<Record>, es: seq<Record>, e: Record)
    requires RowPerRun(rows, es) && forall r :: r in rows ==> KeyOf(r) != KeyOf(e)
    ensures RowPerRun(rows + [e], es + [e])
  {
    var next := rows + [e];
    NobodysEvents(es, KeyOf(e));
    OfMore(es, e, KeyOf(e));
    forall r | r in next ensures Of(es + [e], KeyOf(r)) != [] && r == Fold(Of(es + [e], KeyOf(r))) {
      OfMore(es, e, KeyOf(r));
    }
    forall x | x in es + [e] ensures exists r :: r in next && KeyOf(r) == KeyOf(x) {
      if x in es {
        var r :| r in rows && KeyOf(r) == KeyOf(x);
        assert r in next;
      } else {
        assert next[|rows|] in next;
      }
    }
    forall i, j | 0 <= i < j < |next| ensures KeyOf(next[i]) != KeyOf(next[j]) {
      assert rows[i] in rows;
    }
  }

  lemma UsableMore(events: seq<Option<Record>>, n: nat)
    requires n < |events|
    ensures Usable(events[..n + 1]) ==
      if events[n].Some? then Usable(events[..n]) + [events[n].value] else Usable(events[..n])
  {
    assert events[..n + 1][..n] == events[..n];
  }

  lemma NoRows()
    ensures Usable([]) == [] && RowPerRun([], [])
  {
  }

  /** The dictionary of merged rows, in the order the runs were first met. */
  method MergeAll(events: seq<Option<Record>>) returns (merged: seq<Record>)
    ensures RowPerRun(merged, Usable(events))
  {
    hide RowPerRun, Of, Fold, Absorb, Usable;
    merged := [];
    NoRows();
    for n := 0 to |events|
      invariant RowPerRun(merged, Usable(events[..n]))
    {
      UsableMore(events, n);
      if events[n].Some? {
        var record := events[n].value;
        var p := Position(merged, KeyOf(record));
        if p == |merged| {
          OpenedRow(merged, Usable(events[..n]), record);
          merged := merged + [record];
        } else {
          AbsorbedRow(merged, Usable(events[..n]), record, p);
          merged := merged[p := Absorb(merged[p], record)];
        }
      }
    }
    assert events[..|events|] == events;
  }

  method SortRows(merged: seq<Record>) returns (rows: seq<Record>)
    ensures Descending(rows) && multiset(rows) == multiset(merged)
  {
    rows := [];
    for n := 0 to |merged|
      invariant Descending(rows) && multiset(rows) == multiset(merged[..n])
    {
      InsertDescending(rows, merged[n]);
      rows := Insert(rows, merged[n]);
      assert merged[..n + 1] == merged[..n] + [merged[n]];
    }
    assert merged[..|merged|] == merged;
  }

  lemma {:induction false} OneOfEach(rows: seq<Record>, i: nat, j: nat)
    requires i < j < |rows|
    ensures rows[i] == rows[j] ==> multiset(rows)[rows[i]] >= 2
  {
    assert rows == rows[..j] + [rows[j]] + rows[j + 1..];
    assert rows[i] == rows[..j][i];
    assert rows[i] in multiset(rows[..j]);
  }

  lemma {:induction false} SingleCopies(rows: seq<Record>, r: Record)
    requires forall i, j :: 0 <= i < j < |rows| ==> KeyOf(rows[i]) != KeyOf(rows[j])
    ensures multiset(rows)[r] <= 1
    decreases |rows|
  {
    if rows != [] {
      var front, last := rows[..|rows| - 1], rows[|rows| - 1];
      SingleCopies(front, r);
      assert rows == front + [last];
      assert forall i :: 0 <= i < |front| ==> front[i] == rows[i] && KeyOf(rows[i]) != KeyOf(last);
    }
  }

  lemma RowsRearranged(a: seq<Record>, b: seq<Record>, es: seq<Record>)
    requires RowPerRun(a, es) && multiset(a) == multiset(b)
    ensures RowPerRun(b, es)
  {
    forall r | r in b ensures r in a { assert r in multiset(a); }
    forall e | e in es ensures exists r :: r in b && KeyOf(r) == KeyOf(e) {
      var r :| r in a && KeyOf(r) == KeyOf(e);
      assert r in multiset(b);
    }
    forall i, j | 0 <= i < j < |b| ensures KeyOf(b[i]) != KeyOf(b[j]) {
      OneOfEach(b, i, j);
      SingleCopies(a, b[i]);
      assert b[i] in a && b[j] in a;
    }
  }

  /** `run_records`: one row for every run that some event describes, newest row first. */
  method RunRecords(events: seq<Option<Record>>) returns (rows: seq<Record>)
    ensures Descending(rows) && RowPerRun(rows, Usable(events))
  {
    var merged := MergeAll(events);
    rows := SortRows(merged);
    RowsRearranged(merged, rows, Usable(events));
  }

  // ---------------------------------------------------------------- the rows, read off the events

  /** One time is at least as late as another; an unreadable one is earlier than any other. */
  predicate NotBefore(a: Instant, b: Instant) {
    match (a, b)
    case (_, Never) => true
    case (Never, At(_)) => false
    case (At(x), At(y)) => x >= y
  }

  /** Rows come newest first, rows of one time by descending run id. */
  lemma LaterRowsOlder(rows: seq<Record>, i: nat, j: nat)
    requires Descending(rows) && i < j < |rows|
    ensures NotBefore(rows[i].order, rows[j].order)
    ensures rows[i].order == rows[j].order && rows[i].runId != rows[j].runId ==> Before(rows[j].runId, rows[i].runId)
  {
    BeforeIsTotal();
    hide Before;
    assert !Above(rows[j], rows[i]);
  }

  /** At one time the higher number is newer, and any number is newer than none. */
  lemma NumbersDecide(a: Record, b: Record)
    requires a.order == b.order
    ensures AtLeastAsNew(a, b) <==> match (a.sequence, b.sequence)
      case (Some(x), Some(y)) => x >= y
      case (None, Some(_)) => false
      case (_, None) => true
  {
  }

  lemma {:induction false} UsableElements(events: seq<Option<Record>>)
    ensures forall r :: r in Usable(events) <==> Some(r) in events
    decreases |events|
  {
    if events != [] {
      var front, last := events[..|events| - 1], events[|events| - 1];
      UsableElements(front);
      assert events == front + [last];
    }
  }

  /** Two records describe the same run of the same source. */
  predicate SameRun(a: Record, b: Record) { a.source == b.source && a.runId == b.runId }

  /**
   * Exactly one row for each run that some event describes, none for any other; its time is that of
   * the run's newest event.
   */
  lemma RowsRead(events: seq<Option<Record>>, rows: seq<Record>)
    requires RowPerRun(rows, Usable(events))
    ensures forall i, j :: 0 <= i < j < |rows| ==> !SameRun(rows[i], rows[j])
    ensures forall e :: Some(e) in events ==> exists r :: r in rows && SameRun(r, e)
    ensures forall r :: r in rows ==> exists e :: Some(e) in events && SameRun(r, e) && e.order == r.order
    ensures forall r, e :: r in rows && Some(e) in events && SameRun(r, e) ==> NotBefore(r.order, e.order)
  {
    hide Fold, Of;
    UsableElements(events);
    var es := Usable(events);
    forall r | r in rows ensures exists e :: Some(e) in events && SameRun(r, e) && e.order == r.order {
      OfElements(es, KeyOf(r));
      var e := FoldTime(Of(es, KeyOf(r)));
      assert e in es;
    }
    forall r, e | r in rows && Some(e) in events && SameRun(r, e) ensures NotBefore(r.order, e.order) {
      OfElements(es, KeyOf(r));
      var own := Of(es, KeyOf(r));
      assert e in own;
      var i :| 0 <= i < |own| && own[i] == e;
      FoldIsNewest(own);
    }
  }

  /** The time of a merge is that of one of the events merged. */
  lemma {:induction false} FoldTime(es: seq<Record>) returns (e: Record)
    requires es != []
    ensures e in es && e.order == Fold(es).order
    decreases |es|
  {
    var last := es[|es| - 1];
    if |es| == 1 || AtLeastAsNew(last, Fold(es[..|es| - 1])) {
      e := last;
    } else {
      e := FoldTime(es[..|es| - 1]);
    }
  }
}
