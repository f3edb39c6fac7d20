/**
 * The collector's all-or-nothing normalisation of a graph bundle.  The digest that makes new
 * identifiers and the checks on a single row are parameters.
 */
module GraphBundle {
  import opened Basics
  import opened JsonValues
  import Batches

  datatype RunRow = RunRow(runId: string, deviceId: string, observedAt: string, rest: Json)

  datatype DetailRow = DetailRow(runId: string, id: string, deviceId: string, observedAt: string, rest: Json)

  datatype Bundle = Bundle(runs: seq<RunRow>, nodes: seq<DetailRow>, events: seq<DetailRow>) {
    function Size(): nat { |runs| + |nodes| + |events| }
  }

  const EMPTY := Bundle([], [], [])

  datatype Kind = OfRun | OfNode | OfEvent

  /** The collection cycle: its device, the digest of device, time and old identifier, and the row checks. */
  datatype Cycle = Cycle(
    device: string,
    digest: (Kind, string, string, string) -> string,
    validRun: RunRow -> bool, validNode: DetailRow -> bool, validEvent: DetailRow -> bool)

  predicate ValidBundle(b: Bundle, c: Cycle) {
    && (forall i :: 0 <= i < |b.runs| ==> c.validRun(b.runs[i]))
    && (forall i :: 0 <= i < |b.nodes| ==> c.validNode(b.nodes[i]))
    && (forall i :: 0 <= i < |b.events| ==> c.validEvent(b.events[i]))
  }

  predicate DistinctRuns(runs: seq<RunRow>) {
    forall i, j :: 0 <= i < j < |runs| ==> runs[i].runId != runs[j].runId
  }

  predicate HasRun(runs: seq<RunRow>, id: string) { exists i :: 0 <= i < |runs| && runs[i].runId == id }

  /** Every node and event names a run of the same bundle. */
  predicate Closed(b: Bundle) {
    && (forall i :: 0 <= i < |b.nodes| ==> HasRun(b.runs, b.nodes[i].runId))
    && (forall i :: 0 <= i < |b.events| ==> HasRun(b.runs, b.events[i].runId))
  }

  /** A bundle that can be normalised at all. */
  predicate Acceptable(b: Bundle, c: Cycle) {
    && |b.runs| <= Batches.MAX_COLLECTION && |b.nodes| <= Batches.MAX_COLLECTION && |b.events| <= Batches.MAX_COLLECTION
    && ValidBundle(b, c) && DistinctRuns(b.runs) && Closed(b)
  }

  function NewRunId(r: RunRow, c: Cycle): string { c.digest(OfRun, c.device, r.observedAt, r.runId) }

  /** The new identifier of the run that an old one names. */
  function NewIdOf(id: string, runs: seq<RunRow>, c: Cycle): string
    requires HasRun(runs, id)
  {
    var i := Place(runs, id);
    NewRunId(runs[i], c)
  }

  function Place(runs: seq<RunRow>, id: string): (p: nat)
    requires HasRun(runs, id)
    ensures p < |runs| && runs[p].runId == id
    decreases |runs|
  {
    var n := |runs| - 1;
    if runs[n].runId == id then n else
      assert HasRun(runs[..n], id) by {
        var i :| 0 <= i < |runs| && runs[i].runId == id;
        assert runs[..n][i] == runs[i];
      }
      Place(runs[..n], id)
  }

  function RenewRun(r: RunRow, c: Cycle): RunRow { r.(runId := NewRunId(r, c), deviceId := c.device) }

  function RenewDetail(kind: Kind, d: DetailRow, runs: seq<RunRow>, c: Cycle): DetailRow
    requires HasRun(runs, d.runId)
  {
    d.(runId := NewIdOf(d.runId, runs, c), id := c.digest(kind, c.device, d.observedAt, d.id), deviceId := c.device)
  }

  function RenewRuns(runs: seq<RunRow>, c: Cycle): seq<RunRow> {
    seq(|runs|, i requires 0 <= i < |runs| => RenewRun(runs[i], c))
  }

  function RenewDetails(kind: Kind, rows: seq<DetailRow>, runs: seq<RunRow>, c: Cycle): seq<DetailRow>
    requires forall i :: 0 <= i < |rows| ==> HasRun(runs, rows[i].runId)
  {
    seq(|rows|, i requires 0 <= i < |rows| => RenewDetail(kind, rows[i], runs, c))
  }

  /** The bundle for the device of the cycle: identifiers renewed, and references following their runs. */
  function Renewed(a: Bundle, c: Cycle): Bundle
    requires Closed(a)
  {
    Bundle(RenewRuns(a.runs, c), RenewDetails(OfNode, a.nodes, a.runs, c), RenewDetails(OfEvent, a.events, a.runs, c))
  }

  /** What the collector sends for a value read from the bundle file; `None` is one of the wrong shape. */
  function Normalized(value: Option<Bundle>, c: Cycle): Bundle {
    if value.None? || !Acceptable(value.value, c) || !ValidBundle(Renewed(value.value, c), c) then EMPTY
    else
      var out := Renewed(value.value, c);
      if out.Size() <= Batches.MAX_GRAPH_BUNDLE_ROWS then out
      else if |out.runs| <= Batches.MAX_GRAPH_BUNDLE_ROWS then Bundle(out.runs, [], [])
      else EMPTY
  }

  // ---------------------------------------------------------------- the loops

  /** Old run identifier to new one. */
  method Replacements(runs: seq<RunRow>, c: Cycle) returns (m: map<string, string>)
    requires DistinctRuns(runs)
    ensures forall k :: k in m <==> HasRun(runs, k)
    ensures forall k :: k in m ==> m[k] == NewIdOf(k, runs, c)
  {
    m := map[];
    for n := 0 to |runs|
      invariant forall k :: k in m ==> HasRun(runs, k) && Place(runs, k) < n
      invariant forall i :: 0 <= i < n ==> runs[i].runId in m
      invariant forall k :: k in m ==> m[k] == NewIdOf(k, runs, c)
    {
      assert HasRun(runs, runs[n].runId);
      m := m[runs[n].runId := NewRunId(runs[n], c)];
    }
  }

  /** Every renewed row passes its check. */
  predicate RunsPass(runs: seq<RunRow>, c: Cycle) {
    forall i :: 0 <= i < |runs| ==> c.validRun(RenewRun(runs[i], c))
  }

  predicate DetailsPass(kind: Kind, rows: seq<DetailRow>, valid: DetailRow -> bool, runs: seq<RunRow>, c: Cycle)
    requires forall i :: 0 <= i < |rows| ==> HasRun(runs, rows[i].runId)
  {
    forall i :: 0 <= i < |rows| ==> valid(RenewDetail(kind, rows[i], runs, c))
  }

  method CopyRuns(runs: seq<RunRow>, m: map<string, string>, c: Cycle) returns (out: seq<RunRow>, ok: bool)
    requires DistinctRuns(runs)
    requires forall i :: 0 <= i < |runs| ==> runs[i].runId in m && m[runs[i].runId] == NewRunId(runs[i], c)
    ensures ok <==> RunsPass(runs, c)
    ensures ok ==> out == RenewRuns(runs, c)
  {
    out, ok := [], true;
    for n := 0 to |runs|
      invariant out == RenewRuns(runs, c)[..n]
      invariant forall i :: 0 <= i < n ==> c.validRun(RenewRun(runs[i], c))
    {
      var row := runs[n];
      var copied := row.(runId := m[row.runId], deviceId := c.device);
      if !c.validRun(copied) { return [], false; }
      out := out + [copied];
    }
  }

  method CopyDetails(kind: Kind, rows: seq<DetailRow>, m: map<string, string>, valid: DetailRow -> bool,
                     runs: seq<RunRow>, c: Cycle)
    returns (out: seq<DetailRow>, ok: bool)
    requires forall i :: 0 <= i < |rows| ==> HasRun(runs, rows[i].runId) && rows[i].runId in m
    requires forall k :: k in m ==> HasRun(runs, k) && m[k] == NewIdOf(k, runs, c)
    ensures ok <==> DetailsPass(kind, rows, valid, runs, c)
    ensures ok ==> out == RenewDetails(kind, rows, runs, c)
  {
    out, ok := [], true;
    for n := 0 to |rows|
      invariant out == RenewDetails(kind, rows, runs, c)[..n]
      invariant forall i :: 0 <= i < n ==> valid(RenewDetail(kind, rows[i], runs, c))
    {
      var row := rows[n];
      var copied := row.(runId := m[row.runId], id := c.digest(kind, c.device, row.observedAt, row.id),
        deviceId := c.device);
      if !valid(copied) { return [], false; }
      out := out + [copied];
    }
  }

  lemma PlaceIsUnique(runs: seq<RunRow>, i: nat, c: Cycle)
    requires DistinctRuns(runs) && i < |runs|
    ensures HasRun(runs, runs[i].runId) && Place(runs, runs[i].runId) == i
    ensures NewIdOf(runs[i].runId, runs, c) == NewRunId(runs[i], c)
  {
  }

  lemma RenewedValid(a: Bundle, c: Cycle)
    requires Closed(a)
    ensures ValidBundle(Renewed(a, c), c) <==>
            (RunsPass(a.runs, c) && DetailsPass(OfNode, a.nodes, c.validNode, a.runs, c)
             && DetailsPass(OfEvent, a.events, c.validEvent, a.runs, c))
  {
    var out := Renewed(a, c);
    assert forall i :: 0 <= i < |a.runs| ==> out.runs[i] == RenewRun(a.runs[i], c);
    assert forall i :: 0 <= i < |a.nodes| ==> out.nodes[i] == RenewDetail(OfNode, a.nodes[i], a.runs, c);
    assert forall i :: 0 <= i < |a.events| ==> out.events[i] == RenewDetail(OfEvent, a.events[i], a.runs, c);
  }

  /** `_normalize_graph_bundle`. */
  method Normalize(value: Option<Bundle>, c: Cycle) returns (b: Bundle)
    ensures b == Normalized(value, c)
  {
    hide ValidBundle, RunsPass, DetailsPass, RenewRuns, RenewDetails, HasRun, NewIdOf;
    if value.None? { return EMPTY; }
    var a := value.value;
    if |a.runs| > Batches.MAX_COLLECTION || |a.nodes| > Batches.MAX_COLLECTION || |a.events| > Batches.MAX_COLLECTION {
      return EMPTY;
    }
    if !ValidBundle(a, c) { return EMPTY; }
    if !DistinctRuns(a.runs) { return EMPTY; }
    var m := Replacements(a.runs, c);
    if exists i :: 0 <= i < |a.nodes| && a.nodes[i].runId !in m { return EMPTY; }
    if exists i :: 0 <= i < |a.events| && a.events[i].runId !in m { return EMPTY; }
    assert Acceptable(a, c);
    RenewedValid(a, c);
    forall i: nat | i < |a.runs| ensures a.runs[i].runId in m && m[a.runs[i].runId] == NewRunId(a.runs[i], c) {
      PlaceIsUnique(a.runs, i, c);
    }
    var runs, ok := CopyRuns(a.runs, m, c);
    if !ok { return EMPTY; }
    var nodes, events;
    nodes, ok := CopyDetails(OfNode, a.nodes, m, c.validNode, a.runs, c);
    if !ok { return EMPTY; }
    events, ok := CopyDetails(OfEvent, a.events, m, c.validEvent, a.runs, c);
    if !ok { return EMPTY; }
    if |runs| + |nodes| + |events| > Batches.MAX_GRAPH_BUNDLE_ROWS {
      if |runs| > Batches.MAX_GRAPH_BUNDLE_ROWS { return EMPTY; }
      return Bundle(runs, [], []);
    }
    b := Bundle(runs, nodes, events);
  }

  // ---------------------------------------------------------------- what is sent

  /** Whatever the file held, at most 75 rows are sent, all valid, and no node or event dangles. */
  lemma SentIsClosed(value: Option<Bundle>, c: Cycle)
    ensures Normalized(value, c).Size() <= Batches.MAX_GRAPH_BUNDLE_ROWS
    ensures ValidBundle(Normalized(value, c), c) && Closed(Normalized(value, c))
  {
    if value.Some? && Acceptable(value.value, c) {
      var a, out := value.value, Renewed(value.value, c);
      forall i | 0 <= i < |a.nodes| ensures HasRun(out.runs, out.nodes[i].runId) {
        Follows(a.runs, a.nodes[i].runId, c);
      }
      forall i | 0 <= i < |a.events| ensures HasRun(out.runs, out.events[i].runId) {
        Follows(a.runs, a.events[i].runId, c);
      }
    }
  }

  lemma Follows(runs: seq<RunRow>, id: string, c: Cycle)
    requires HasRun(runs, id)
    ensures HasRun(RenewRuns(runs, c), NewIdOf(id, runs, c))
  {
    assert RenewRuns(runs, c)[Place(runs, id)].runId == NewIdOf(id, runs, c);
  }

  /** The digest gives different runs different identifiers. */
  ghost predicate CollisionFree(c: Cycle) {
    forall r, s :: NewRunId(r, c) == NewRunId(s, c) ==> r.runId == s.runId
  }

  /**
   * The new references are the old ones: a detail that is sent names the new identifier of a run
   * exactly if it named that run before, and the runs are still told apart.
   */
  lemma ReferencesKept(a: Bundle, c: Cycle)
    requires Acceptable(a, c) && CollisionFree(c)
    ensures var b := Renewed(a, c);
      && DistinctRuns(b.runs)
      && (forall i, j :: 0 <= i < |a.nodes| && 0 <= j < |a.runs| ==>
            (b.nodes[i].runId == b.runs[j].runId <==> a.nodes[i].runId == a.runs[j].runId))
      && (forall i, j :: 0 <= i < |a.events| && 0 <= j < |a.runs| ==>
            (b.events[i].runId == b.runs[j].runId <==> a.events[i].runId == a.runs[j].runId))
  {
    forall j: nat | j < |a.runs| ensures Place(a.runs, a.runs[j].runId) == j { PlaceIsUnique(a.runs, j, c); }
  }

  /** A bundle that can be sent under the cycle's identifiers. */
  ghost predicate Sendable(a: Bundle, c: Cycle) { Acceptable(a, c) && ValidBundle(Renewed(a, c), c) }

  /** A bundle with all the runs and all or none of the details of another, or with nothing at all. */
  ghost predicate Reduction(b: Bundle, a: Bundle) {
    b == a || b == Bundle(a.runs, [], []) || b == Bundle([], [], [])
  }

  /**
   * The file's size alone decides what is lost of a sendable bundle: nothing up to 75 rows, the
   * details where 75 runs suffice, everything otherwise.  Of any bundle that is not sendable
   * nothing is sent.
   */
  lemma AllOrNothing(a: Bundle, c: Cycle)
    ensures !Sendable(a, c) ==> Normalized(Some(a), c).Size() == 0
    ensures Sendable(a, c) ==>
      (Normalized(Some(a), c).Size() == a.Size() <==> a.Size() <= Batches.MAX_GRAPH_BUNDLE_ROWS)
    ensures Sendable(a, c) ==> (Normalized(Some(a), c).Size() == 0 <==>
                                a.runs == [] || |a.runs| > Batches.MAX_GRAPH_BUNDLE_ROWS)
    ensures Sendable(a, c) && |a.runs| <= Batches.MAX_GRAPH_BUNDLE_ROWS < a.Size() ==>
      Normalized(Some(a), c).Size() == |a.runs| && Normalized(Some(a), c).runs == RenewRuns(a.runs, c)
  {
    hide ValidBundle, DistinctRuns;
    if a.runs == [] && Closed(a) { NothingToName(a); }
  }

  /**
   * What a run that is sent holds: the cycle's device, the time and the rest as read, and the
   * digest of the kind, the cycle's device, the time and the old identifier.
   */
  ghost predicate RunSent(read: RunRow, sent: RunRow, c: Cycle) {
    && sent.deviceId == c.device && sent.observedAt == read.observedAt && sent.rest == read.rest
    && sent.runId == c.digest(OfRun, c.device, read.observedAt, read.runId)
  }

  /** Likewise of a node or event, which names the run that it named in the file. */
  ghost predicate DetailSent(kind: Kind, read: DetailRow, sent: DetailRow, runs: seq<RunRow>, sentRuns: seq<RunRow>,
                             c: Cycle)
    requires |runs| == |sentRuns|
  {
    && sent.deviceId == c.device && sent.observedAt == read.observedAt && sent.rest == read.rest
    && sent.id == c.digest(kind, c.device, read.observedAt, read.id)
    && exists i :: 0 <= i < |runs| && runs[i].runId == read.runId && sentRuns[i].runId == sent.runId
  }

  ghost predicate DetailsSent(kind: Kind, read: seq<DetailRow>, sent: seq<DetailRow>, runs: seq<RunRow>,
                              sentRuns: seq<RunRow>, c: Cycle)
    requires |runs| == |sentRuns|
  {
    |sent| == |read| && forall i :: 0 <= i < |read| ==> DetailSent(kind, read[i], sent[i], runs, sentRuns, c)
  }

  /**
   * Row by row: whenever anything is sent, the file was readable; every run is sent, in order; and
   * either every node and event is, in order, or none is.
   */
  lemma RowsSent(value: Option<Bundle>, c: Cycle)
    requires Normalized(value, c).Size() > 0
    ensures value.Some? && |Normalized(value, c).runs| == |value.value.runs|
    ensures var a, b := value.value, Normalized(value, c);
      && (forall i :: 0 <= i < |a.runs| ==> RunSent(a.runs[i], b.runs[i], c))
      && ((DetailsSent(OfNode, a.nodes, b.nodes, a.runs, b.runs, c)
           && DetailsSent(OfEvent, a.events, b.events, a.runs, b.runs, c))
          || (b.nodes == [] && b.events == []))
  {
    hide ValidBundle, DistinctRuns, Acceptable, Closed, HasRun, Place;
    var a := value.value;
    AcceptableCloses(a, c);
    var out := Renewed(a, c);
    DetailsRenewed(OfNode, a.nodes, a.runs, c);
    DetailsRenewed(OfEvent, a.events, a.runs, c);
  }

  lemma AcceptableCloses(a: Bundle, c: Cycle)
    ensures Acceptable(a, c) ==> Closed(a)
    ensures Closed(a) ==> (forall i :: 0 <= i < |a.nodes| ==> HasRun(a.runs, a.nodes[i].runId))
    ensures Closed(a) ==> (forall i :: 0 <= i < |a.events| ==> HasRun(a.runs, a.events[i].runId))
  {
  }

  lemma DetailsRenewed(kind: Kind, rows: seq<DetailRow>, runs: seq<RunRow>, c: Cycle)
    requires forall i :: 0 <= i < |rows| ==> HasRun(runs, rows[i].runId)
    ensures DetailsSent(kind, rows, RenewDetails(kind, rows, runs, c), runs, RenewRuns(runs, c), c)
  {
    hide HasRun;
    var out, sent := RenewDetails(kind, rows, runs, c), RenewRuns(runs, c);
    forall i | 0 <= i < |rows| ensures DetailSent(kind, rows[i], out[i], runs, sent, c) {
      var p := Place(runs, rows[i].runId);
      assert runs[p].runId == rows[i].runId && sent[p].runId == out[i].runId;
    }
  }

  /** The row that stands for a run once it is sent. */
  function RunFor(r: RunRow, c: Cycle): RunRow {
    RunRow(c.digest(OfRun, c.device, r.observedAt, r.runId), c.device, r.observedAt, r.rest)
  }

  /** A node or event names a run of the file, and both as read and as sent passes its check. */
  ghost predicate DetailPasses(kind: Kind, d: DetailRow, valid: DetailRow -> bool, runs: seq<RunRow>, c: Cycle) {
    && valid(d)
    && exists i :: 0 <= i < |runs| && runs[i].runId == d.runId
         && valid(DetailRow(RunFor(runs[i], c).runId, c.digest(kind, c.device, d.observedAt, d.id), c.device,
                            d.observedAt, d.rest))
  }

  /** What it takes for anything to be sent. */
  ghost predicate Deliverable(a: Bundle, c: Cycle) {
    && 1 <= |a.runs| <= 75 && |a.nodes| <= 500 && |a.events| <= 500
    && (forall i, j :: 0 <= i < j < |a.runs| ==> a.runs[i].runId != a.runs[j].runId)
    && (forall i :: 0 <= i < |a.runs| ==> c.validRun(a.runs[i]) && c.validRun(RunFor(a.runs[i], c)))
    && (forall i :: 0 <= i < |a.nodes| ==> DetailPasses(OfNode, a.nodes[i], c.validNode, a.runs, c))
    && (forall i :: 0 <= i < |a.events| ==> DetailPasses(OfEvent, a.events[i], c.validEvent, a.runs, c))
  }

  lemma DetailPassesIff(kind: Kind, d: DetailRow, valid: DetailRow -> bool, runs: seq<RunRow>, c: Cycle)
    requires DistinctRuns(runs)
    ensures DetailPasses(kind, d, valid, runs, c) <==>
      HasRun(runs, d.runId) && valid(d) && valid(RenewDetail(kind, d, runs, c))
  {
    if HasRun(runs, d.runId) {
      var p := Place(runs, d.runId);
      assert forall i :: 0 <= i < |runs| && runs[i].runId == d.runId ==> i == p;
    }
  }

  lemma DetailsPassIff(kind: Kind, rows: seq<DetailRow>, valid: DetailRow -> bool, runs: seq<RunRow>, c: Cycle)
    requires DistinctRuns(runs) && forall i :: 0 <= i < |rows| ==> HasRun(runs, rows[i].runId)
    ensures (forall i :: 0 <= i < |rows| ==> DetailPasses(kind, rows[i], valid, runs, c)) <==>
      (forall i :: 0 <= i < |rows| ==> valid(rows[i]))
      && forall i :: 0 <= i < |rows| ==> valid(RenewDetails(kind, rows, runs, c)[i])
  {
    hide DetailPasses, HasRun, DistinctRuns;
    var out := RenewDetails(kind, rows, runs, c);
    forall i | 0 <= i < |rows|
      ensures DetailPasses(kind, rows[i], valid, runs, c) <==> valid(rows[i]) && valid(out[i])
    {
      DetailPassesIff(kind, rows[i], valid, runs, c);
    }
    if forall i :: 0 <= i < |rows| ==> DetailPasses(kind, rows[i], valid, runs, c) {
      forall i | 0 <= i < |rows| ensures valid(rows[i]) && valid(out[i]) {
        assert DetailPasses(kind, rows[i], valid, runs, c);
      }
    }
  }

  /** Something is sent exactly if the bundle is deliverable, and then every run is. */
  lemma SentIff(a: Bundle, c: Cycle)
    ensures Normalized(Some(a), c).Size() > 0 <==> Deliverable(a, c)
    ensures Deliverable(a, c) ==> Normalized(Some(a), c).Size() == if a.Size() <= 75 then a.Size() else |a.runs|
  {
    AllOrNothing(a, c);
    hide Normalized;
    if DistinctRuns(a.runs) && Closed(a) {
      SendableIff(a, c);
    } else if Deliverable(a, c) {
      forall i | 0 <= i < |a.nodes| ensures HasRun(a.runs, a.nodes[i].runId) {
        DetailPassesIff(OfNode, a.nodes[i], c.validNode, a.runs, c);
      }
      forall i | 0 <= i < |a.events| ensures HasRun(a.runs, a.events[i].runId) {
        DetailPassesIff(OfEvent, a.events[i], c.validEvent, a.runs, c);
      }
    }
  }

  lemma SendableIff(a: Bundle, c: Cycle)
    requires DistinctRuns(a.runs) && Closed(a)
    ensures Sendable(a, c) && 1 <= |a.runs| <= 75 <==> Deliverable(a, c)
  {
    hide HasRun, DetailPasses, Place;
    DetailsPassIff(OfNode, a.nodes, c.validNode, a.runs, c);
    DetailsPassIff(OfEvent, a.events, c.validEvent, a.runs, c);
    var out := RenewRuns(a.runs, c);
    assert forall i :: 0 <= i < |a.runs| ==> out[i] == RunFor(a.runs[i], c);
  }

  lemma NothingToName(a: Bundle)
    requires a.runs == [] && Closed(a)
    ensures a.Size() == 0
  {
    assert a.nodes != [] ==> HasRun(a.runs, a.nodes[0].runId);
    assert a.events != [] ==> HasRun(a.runs, a.events[0].runId);
  }

  /** No reduction of a sendable bundle that fits the cap keeps more rows than what is sent. */
  lemma MostIsSent(a: Bundle, b: Bundle, c: Cycle)
    requires Sendable(a, c) && Reduction(b, a) && b.Size() <= Batches.MAX_GRAPH_BUNDLE_ROWS
    ensures b.Size() <= Normalized(Some(a), c).Size()
  {
    hide ValidBundle, DistinctRuns;
    AllOrNothing(a, c);
  }

  /** Different runs get different identifiers, and so do different nodes and different events. */
  ghost predicate Injective(c: Cycle) {
    forall kind, s, t, u, v :: c.digest(kind, c.device, s, t) == c.digest(kind, c.device, u, v) ==> s == u && t == v
  }

  /** Equal but for the device named in the rows. */
  ghost predicate SameButDevice(a: Bundle, b: Bundle) {
    && |a.runs| == |b.runs| && |a.nodes| == |b.nodes| && |a.events| == |b.events|
    && (forall i :: 0 <= i < |a.runs| ==> a.runs[i].(deviceId := "") == b.runs[i].(deviceId := ""))
    && (forall i :: 0 <= i < |a.nodes| ==> a.nodes[i].(deviceId := "") == b.nodes[i].(deviceId := ""))
    && (forall i :: 0 <= i < |a.events| ==> a.events[i].(deviceId := "") == b.events[i].(deviceId := ""))
  }

  lemma RunsDetermined(a: seq<RunRow>, b: seq<RunRow>, c: Cycle)
    requires Injective(c) && RenewRuns(a, c) == RenewRuns(b, c)
    ensures |a| == |b| && forall i :: 0 <= i < |a| ==> a[i].(deviceId := "") == b[i].(deviceId := "")
  {
    assert |RenewRuns(a, c)| == |a| && |RenewRuns(b, c)| == |b|;
    forall i | 0 <= i < |a| ensures a[i].(deviceId := "") == b[i].(deviceId := "") {
      assert RenewRuns(a, c)[i] == RenewRun(a[i], c) && RenewRuns(b, c)[i] == RenewRun(b[i], c);
    }
  }

  lemma DetailsDetermined(kind: Kind, a: seq<DetailRow>, b: seq<DetailRow>, runs: seq<RunRow>,
                          runs': seq<RunRow>, c: Cycle)
    requires Injective(c)
    requires forall i :: 0 <= i < |a| ==> HasRun(runs, a[i].runId)
    requires forall i :: 0 <= i < |b| ==> HasRun(runs', b[i].runId)
    requires RenewDetails(kind, a, runs, c) == RenewDetails(kind, b, runs', c)
    ensures |a| == |b| && forall i :: 0 <= i < |a| ==> a[i].(deviceId := "") == b[i].(deviceId := "")
  {
    var x, y := RenewDetails(kind, a, runs, c), RenewDetails(kind, b, runs', c);
    assert |x| == |a| && |y| == |b|;
    forall i | 0 <= i < |a| ensures a[i].(deviceId := "") == b[i].(deviceId := "") {
      assert x[i] == RenewDetail(kind, a[i], runs, c) && y[i] == RenewDetail(kind, b[i], runs', c);
      assert runs[Place(runs, a[i].runId)].runId == a[i].runId && runs'[Place(runs', b[i].runId)].runId == b[i].runId;
    }
  }

  /**
   * Nothing that is sent whole is confused: two files that are sent as the same bundle held the
   * same rows, but for the device.
   */
  lemma SentDetermines(a: Bundle, b: Bundle, c: Cycle)
    requires Injective(c) && Sendable(a, c) && Sendable(b, c)
    requires a.Size() <= Batches.MAX_GRAPH_BUNDLE_ROWS && b.Size() <= Batches.MAX_GRAPH_BUNDLE_ROWS
    requires Normalized(Some(a), c) == Normalized(Some(b), c)
    ensures SameButDevice(a, b)
  {
    hide ValidBundle, DistinctRuns, Injective, RenewRuns, RenewDetails, HasRun;
    assert Normalized(Some(a), c) == Renewed(a, c) && Normalized(Some(b), c) == Renewed(b, c)
      by { SentWhole(a, c); SentWhole(b, c); }
    RunsDetermined(a.runs, b.runs, c);
    DetailsDetermined(OfNode, a.nodes, b.nodes, a.runs, b.runs, c);
    DetailsDetermined(OfEvent, a.events, b.events, a.runs, b.runs, c);
  }

  lemma SentWhole(a: Bundle, c: Cycle)
    requires Sendable(a, c) && a.Size() <= Batches.MAX_GRAPH_BUNDLE_ROWS
    ensures Normalized(Some(a), c) == Renewed(a, c)
  {
    hide ValidBundle, DistinctRuns;
  }
}
