/**
 * The collector's partition of a telemetry payload into requests.  What makes a single row valid
 * is a parameter; which families a payload carries and how many rows they may hold is not.
 */
module Batches {
  import opened Basics
  import opened JsonValues

  const MAX_COLLECTION := 500
  const MAX_GRAPH_BUNDLE_ROWS := 75

  datatype Version = V3 | V4 | V5

  datatype Family =
    | DeviceHealth | MemoryMetrics | UsageSnapshots | BenchmarkRuns | SecurityScans | SystemStatus
    | BenchmarkMetricEvidence | SecurityValidations | GraphRuns | GraphNodeMetrics | GraphEvents
    | PolicyCandidates | SecurityRuleMetrics | LegacyComponents
    | VerificationTasks

  function Families(v: Version): set<Family> {
    {DeviceHealth, MemoryMetrics, UsageSnapshots, BenchmarkRuns, SecurityScans, SystemStatus}
    + (if v == V3 then {} else
       {BenchmarkMetricEvidence, SecurityValidations, GraphRuns, GraphNodeMetrics, GraphEvents,
        PolicyCandidates, SecurityRuleMetrics, LegacyComponents})
    + if v == V5 then {VerificationTasks} else {}
  }

  datatype Payload = Payload(version: Version, runs: seq<Json>,
                           memoryTasks: seq<Json>, families: map<Family, seq<Json>>)

  /** What a row of each list must satisfy. */
  datatype Rules = Rules(run: Json -> bool, memoryTask: Json -> bool, family: (Family, Json) -> bool)

  function Rows(p: Payload, f: Family): seq<Json> { if f in p.families then p.families[f] else [] }

  predicate ValidPayload(p: Payload, rules: Rules) {
    && p.families.Keys == Families(p.version)
    && (forall i :: 0 <= i < |p.runs| ==> rules.run(p.runs[i]))
    && (forall i :: 0 <= i < |p.memoryTasks| ==> rules.memoryTask(p.memoryTasks[i]))
    && (forall f :: f in p.families ==> |p.families[f]| <= MAX_COLLECTION)
    && (forall f :: f in p.families ==> forall i :: 0 <= i < |p.families[f]| ==> rules.family(f, p.families[f][i]))
    && (p.version != V3 ==>
       |Rows(p, GraphRuns)| + |Rows(p, GraphNodeMetrics)| + |Rows(p, GraphEvents)| <= MAX_GRAPH_BUNDLE_ROWS)
  }

  /** Six families came with the third version, all others but one with the fourth, that one with the fifth. */
  lemma FamiliesMean(f: Family)
    ensures f in Families(V3) <==>
      f in {DeviceHealth, MemoryMetrics, UsageSnapshots, BenchmarkRuns, SecurityScans, SystemStatus}
    ensures f in Families(V4) <==> f != VerificationTasks
    ensures f in Families(V5)
  {
  }

  function GraphRows(p: Payload): nat {
    |Rows(p, GraphRuns)| + |Rows(p, GraphNodeMetrics)| + |Rows(p, GraphEvents)|
  }

  /** A payload with exactly the families of its version and no rows is valid, one with other families never. */
  lemma EmptyIsValid(p: Payload, rules: Rules)
    ensures p.families.Keys != Families(p.version) ==> !ValidPayload(p, rules)
    ensures p.families == (map f | f in Families(p.version) :: []) && p.runs == [] && p.memoryTasks == [] ==>
      ValidPayload(p, rules)
  {
  }

  /**
   * A row more keeps a payload valid exactly if the row is, its family has room below 500 and, from
   * the fourth version on, the three graph families together have room below 75.
   */
  lemma RowMore(p: Payload, f: Family, row: Json, rules: Rules)
    requires f in p.families
    ensures ValidPayload(p.(families := p.families[f := p.families[f] + [row]]), rules) <==>
      && ValidPayload(p, rules) && rules.family(f, row) && |p.families[f]| < 500
      && (p.version in {V4, V5} && f in {GraphRuns, GraphNodeMetrics, GraphEvents} ==> GraphRows(p) < 75)
  {
    hide Families;
    var q := p.(families := p.families[f := p.families[f] + [row]]);
    assert q.families.Keys == p.families.Keys;
    RowsMore(p.families, f, row, rules);
    GraphRowsMore(p, f, row);
  }

  ghost predicate RowsOk(families: map<Family, seq<Json>>, rules: Rules) {
    && (forall f :: f in families ==> |families[f]| <= MAX_COLLECTION)
    && (forall f :: f in families ==> forall i :: 0 <= i < |families[f]| ==> rules.family(f, families[f][i]))
  }

  lemma RowsMore(families: map<Family, seq<Json>>, f: Family, row: Json, rules: Rules)
    requires f in families
    ensures RowsOk(families[f := families[f] + [row]], rules) <==>
      RowsOk(families, rules) && rules.family(f, row) && |families[f]| < 500
  {
    var more := families[f := families[f] + [row]];
    assert more[f][|families[f]|] == row;
    if RowsOk(more, rules) {
      assert |more[f]| <= 500;
      forall g | g in families ensures |families[g]| <= 500 { assert |more[g]| <= 500; }
      forall g, i | g in families && 0 <= i < |families[g]| ensures rules.family(g, families[g][i]) {
        assert more[g][i] == families[g][i];
      }
    }
  }

  lemma GraphRowsMore(p: Payload, f: Family, row: Json)
    requires f in p.families
    ensures GraphRows(p.(families := p.families[f := p.families[f] + [row]])) ==
      GraphRows(p) + if f in {GraphRuns, GraphNodeMetrics, GraphEvents} then 1 else 0
  {
  }

  /** A run or a memory task more keeps it valid exactly if that is valid; of these there may be any number. */
  lemma RunMore(p: Payload, row: Json, rules: Rules)
    ensures ValidPayload(p.(runs := p.runs + [row]), rules) <==> ValidPayload(p, rules) && rules.run(row)
    ensures ValidPayload(p.(memoryTasks := p.memoryTasks + [row]), rules) <==>
      ValidPayload(p, rules) && rules.memoryTask(row)
  {
    hide Families;
    var q, t := p.(runs := p.runs + [row]), p.(memoryTasks := p.memoryTasks + [row]);
    assert q.runs[|p.runs|] == row && t.memoryTasks[|p.memoryTasks|] == row;
    assert forall i :: 0 <= i < |p.runs| ==> q.runs[i] == p.runs[i];
    assert forall i :: 0 <= i < |p.memoryTasks| ==> t.memoryTasks[i] == p.memoryTasks[i];
  }

  /** `s[lo:hi]`, which stops at the end of the list. */
  function Slice(s: seq<Json>, lo: nat, hi: nat): seq<Json>
    requires lo <= hi
  {
    if |s| <= lo then [] else if |s| < hi then s[lo..] else s[lo..hi]
  }

  function Ceiling(n: nat, size: nat): nat
    requires size > 0
  {
    (n + size - 1) / size
  }

  function Most(a: nat, b: nat): nat { if a < b then b else a }

  function Nothing(p: Payload): map<Family, seq<Json>> { map f | f in p.families :: [] }

  function Piece(s: seq<Json>, size: nat, index: nat): seq<Json> { Slice(s, index * size, index * size + size) }

  function Batch(p: Payload, size: nat, index: nat): Payload {
    Payload(p.version, Piece(p.runs, size, index), Piece(p.memoryTasks, size, index),
            if index == 0 then p.families else Nothing(p))
  }

  function AllRuns(bs: seq<Payload>): seq<Json>
    decreases |bs|
  {
    if bs == [] then [] else AllRuns(bs[..|bs| - 1]) + bs[|bs| - 1].runs
  }

  function AllTasks(bs: seq<Payload>): seq<Json>
    decreases |bs|
  {
    if bs == [] then [] else AllTasks(bs[..|bs| - 1]) + bs[|bs| - 1].memoryTasks
  }

  ghost predicate Fits(bs: seq<Payload>, size: nat) {
    forall i :: 0 <= i < |bs| ==> |bs[i].runs| <= size && |bs[i].memoryTasks| <= size
  }

  /** The batches are a payload in pieces: nothing is lost, repeated, reordered or oversized. */
  ghost predicate Splits(bs: seq<Payload>, p: Payload, size: nat) {
    && bs != [] && Fits(bs, size)
    && AllRuns(bs) == p.runs && AllTasks(bs) == p.memoryTasks
    && bs[0].families == p.families
    && (forall i :: 0 <= i < |bs| ==> bs[i].version == p.version && bs[i].families.Keys == p.families.Keys)
    && (forall i, f :: 1 <= i < |bs| && f in bs[i].families ==> bs[i].families[f] == [])
    && (forall i :: 1 <= i < |bs| ==> bs[i].runs != [] || bs[i].memoryTasks != [])
  }

  lemma PieceElements(s: seq<Json>, size: nat, index: nat)
    ensures |Piece(s, size, index)| <= size
    ensures forall i :: 0 <= i < |Piece(s, size, index)| ==> Piece(s, size, index)[i] in s
    ensures size > 0 && index * size < |s| ==> Piece(s, size, index) != []
  {
  }

  /** A piece of a valid payload is valid, so the second check of the splitting never fails. */
  lemma BatchIsValid(p: Payload, size: nat, index: nat, rules: Rules)
    requires ValidPayload(p, rules)
    ensures ValidPayload(Batch(p, size, index), rules)
  {
    hide Piece;
    PieceElements(p.runs, size, index);
    PieceElements(p.memoryTasks, size, index);
    assert Nothing(p).Keys == p.families.Keys;
  }

  lemma Times(a: nat, b: nat, size: nat)
    ensures a <= b ==> a * size <= b * size
    ensures (a + 1) * size == a * size + size
  {
    if a <= b { assert b * size == a * size + (b - a) * size; }
  }

  /** `k` batches of a size are enough for `n` rows exactly from the rounded-up quotient on. */
  lemma CeilingIsLeast(n: nat, size: nat, k: nat)
    requires size > 0
    ensures Ceiling(n, size) <= k <==> n <= k * size
  {
    var c, m := Ceiling(n, size), n + size - 1;
    assert m == c * size + m % size;
    if c <= k { Times(c, k, size); } else {
      Times(k + 1, c, size);
      Times(k, c, size);
    }
  }

  lemma PieceGrows(s: seq<Json>, size: nat, index: nat)
    ensures Slice(s, 0, index * size) + Piece(s, size, index) == Slice(s, 0, (index + 1) * size)
  {
    Times(index, index, size);
    SliceGrows(s, index * size, size);
  }

  lemma SliceGrows(s: seq<Json>, lo: nat, size: nat)
    ensures Slice(s, 0, lo) + Slice(s, lo, lo + size) == Slice(s, 0, lo + size)
  {
  }

  /** The first batches hold the first rows of either list, a size each. */
  lemma {:induction false} BatchesSoFar(bs: seq<Payload>, p: Payload, size: nat)
    requires forall i: nat :: i < |bs| ==> bs[i] == Batch(p, size, i)
    ensures AllRuns(bs) == Slice(p.runs, 0, |bs| * size) && AllTasks(bs) == Slice(p.memoryTasks, 0, |bs| * size)
    decreases |bs|
  {
    if bs != [] {
      var k := |bs| - 1;
      BatchesSoFar(bs[..k], p, size);
      LastPiece(bs, p, size, k);
      assert (k + 1) * size == |bs| * size;
    }
  }

  lemma LastPiece(bs: seq<Payload>, p: Payload, size: nat, k: nat)
    requires |bs| == k + 1 && bs[k] == Batch(p, size, k)
    requires AllRuns(bs[..k]) == Slice(p.runs, 0, k * size) && AllTasks(bs[..k]) == Slice(p.memoryTasks, 0, k * size)
    ensures AllRuns(bs) == Slice(p.runs, 0, (k + 1) * size) && AllTasks(bs) == Slice(p.memoryTasks, 0, (k + 1) * size)
  {
    hide Slice, Piece;
    PieceGrows(p.runs, size, k);
    PieceGrows(p.memoryTasks, size, k);
  }

  function Needed(p: Payload, size: nat): nat
    requires size > 0
  {
    Most(1, Most(Ceiling(|p.runs|, size), Ceiling(|p.memoryTasks|, size)))
  }

  lemma BatchesSplit(bs: seq<Payload>, p: Payload, size: nat)
    requires size > 0 && |bs| == Needed(p, size) && forall i: nat :: i < |bs| ==> bs[i] == Batch(p, size, i)
    ensures Splits(bs, p, size)
  {
    BatchesRebuild(bs, p, size);
    hide Piece, Ceiling, Needed, Most, AllRuns, AllTasks;
    assert |bs| >= 1 by { NeededIsPositive(p, size); }
    forall i: nat | i < |bs|
      ensures |bs[i].runs| <= size && |bs[i].memoryTasks| <= size
      ensures 1 <= i ==> bs[i].runs != [] || bs[i].memoryTasks != []
    {
      PieceElements(p.runs, size, i);
      PieceElements(p.memoryTasks, size, i);
      if 1 <= i { LaterBatchCarries(p, size, i); }
    }
    assert forall i: nat :: i < |bs| ==> bs[i].families.Keys == p.families.Keys;
  }

  lemma NeededIsPositive(p: Payload, size: nat)
    requires size > 0
    ensures Needed(p, size) >= 1
  {
  }

  lemma BatchesRebuild(bs: seq<Payload>, p: Payload, size: nat)
    requires size > 0 && |bs| == Needed(p, size) && forall i: nat :: i < |bs| ==> bs[i] == Batch(p, size, i)
    ensures AllRuns(bs) == p.runs && AllTasks(bs) == p.memoryTasks
  {
    hide Batch, Ceiling, AllRuns, AllTasks;
    BatchesSoFar(bs, p, size);
    CeilingIsLeast(|p.runs|, size, |bs|);
    CeilingIsLeast(|p.memoryTasks|, size, |bs|);
  }

  lemma LaterBatchCarries(p: Payload, size: nat, i: nat)
    requires size > 0 && 1 <= i < Needed(p, size)
    ensures Batch(p, size, i).runs != [] || Batch(p, size, i).memoryTasks != []
  {
    hide Ceiling, Piece;
    CeilingIsLeast(|p.runs|, size, i);
    CeilingIsLeast(|p.memoryTasks|, size, i);
    PieceElements(p.runs, size, i);
    PieceElements(p.memoryTasks, size, i);
  }

  /** `payload_batches`: it fails exactly on a bad size or a bad payload. */
  method PayloadBatches(payload: Payload, size: int, rules: Rules) returns (r: Option<seq<Payload>>)
    ensures r.Some? <==> 1 <= size <= MAX_COLLECTION && ValidPayload(payload, rules)
    ensures r.Some? ==> Splits(r.value, payload, size) && |r.value| == Needed(payload, size)
    ensures r.Some? ==> forall i :: 0 <= i < |r.value| ==> ValidPayload(r.value[i], rules)
  {
    hide ValidPayload, Splits;
    if size < 1 || size > MAX_COLLECTION || !ValidPayload(payload, rules) { return None; }
    var count := Most(1, Most((|payload.runs| + size - 1) / size, (|payload.memoryTasks| + size - 1) / size));
    var batches, ok := [], true;
    while |batches| < count && ok
      invariant |batches| <= count && ok
      invariant forall i: nat :: i < |batches| ==>
        batches[i] == Batch(payload, size, i) && ValidPayload(batches[i], rules)
      decreases count - |batches|
    {
      var index := |batches|;
      var batch := Payload(payload.version,
                           Slice(payload.runs, index * size, index * size + size),
                           Slice(payload.memoryTasks, index * size, index * size + size),
                           if index == 0 then payload.families else map f | f in payload.families :: []);
      assert batch == Batch(payload, size, index);
      BatchIsValid(payload, size, index, rules);
      ok := ValidPayload(batch, rules);
      batches := batches + [batch];
    }
    BatchesSplit(batches, payload, size);
    r := if ok then Some(batches) else None;
  }

  lemma {:induction false} RunsFit(bs: seq<Payload>, size: nat)
    requires Fits(bs, size)
    ensures |AllRuns(bs)| <= |bs| * size && |AllTasks(bs)| <= |bs| * size
    decreases |bs|
  {
    if bs != [] {
      RunsFit(bs[..|bs| - 1], size);
      Times(|bs| - 1, |bs|, size);
    }
  }

  /** No way of cutting the payload into batches of that size takes fewer of them. */
  lemma FewestBatches(cs: seq<Payload>, p: Payload, size: nat)
    requires size > 0 && cs != [] && Fits(cs, size) && AllRuns(cs) == p.runs && AllTasks(cs) == p.memoryTasks
    ensures Needed(p, size) <= |cs|
  {
    hide Ceiling;
    RunsFit(cs, size);
    CeilingIsLeast(|p.runs|, size, |cs|);
    CeilingIsLeast(|p.memoryTasks|, size, |cs|);
  }
}
