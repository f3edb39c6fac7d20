/**
 * A recorded outcome has exactly local effects: a failure touches the failed unit and what is
 * reachable from it, a success touches one unit.
 */
module Locality {
  import opened Digraph
  import opened Frame
  import opened Invariants
  import opened JsonValues
  import opened State

  /** A unit's row: its record and its three outputs are the same in both snapshots. */
  ghost predicate SameRow(g: Graph, h: Graph, v: Id) {
    && (v in g.units <==> v in h.units) && (v in g.units ==> g.units[v] == h.units[v])
    && (v in g.accepted <==> v in h.accepted) && (v in g.accepted ==> g.accepted[v] == h.accepted[v])
    && (v in g.failed <==> v in h.failed) && (v in g.failed ==> g.failed[v] == h.failed[v])
    && (v in g.working <==> v in h.working) && (v in g.working ==> g.working[v] == h.working[v])
  }

  /**
   * `v` was reopened: nothing failed or in work remains of it, its attempts are kept, and an
   * accepted output is dropped if it was that of an accepted unit.
   */
  ghost predicate ReopenedRow(g: Graph, h: Graph, v: Id) {
    && v in g.units && v in h.units && h.units[v] == g.units[v].(status := Reopened)
    && v !in h.failed && v !in h.working
    && (g.units[v].status == Accepted ==> v !in h.accepted)
    && (g.units[v].status != Accepted ==> (v in h.accepted <==> v in g.accepted))
  }

  ghost predicate FailedRow(g: Graph, h: Graph, u: Id, note: FailureNote, attempts: Attempts) {
    && u in g.units && u in h.units && h.units[u] == g.units[u].(status := Failed, attempts := attempts)
    && u in h.failed && h.failed[u] == note && u !in h.accepted && u !in h.working
  }

  /** The effect of a recorded failure of `u`, unit by unit, and on the set of accepted units. */
  ghost predicate FailsLocally(g: Graph, h: Graph, u: Id, note: FailureNote, attempts: Attempts) {
    var down := Downstream(Arcs(g), g.units.Keys, u);
    && u !in down
    && FailedRow(g, h, u, note, attempts)
    && (forall v :: v in down ==> ReopenedRow(g, h, v))
    && (forall v :: v != u && v !in down ==> SameRow(g, h, v))
    && WithStatus(h.units, Accepted) == WithStatus(g.units, Accepted) - {u} - down
    && h.status == RetryPending
    && h.sendBacks == g.sendBacks + 1 && h.counters.retries == g.counters.retries + 1
  }

  ghost predicate AcceptsLocally(g: Graph, h: Graph, u: Id, output: Json, attempts: Attempts) {
    && u in g.units && u in h.units && h.units[u] == g.units[u].(status := Accepted, attempts := attempts)
    && u in h.accepted && h.accepted[u] == output && u !in h.failed && u !in h.working
    && forall v :: v != u ==> SameRow(g, h, v)
  }

  ghost predicate ProducesLocally(g: Graph, h: Graph, u: Id, output: Json, attempts: Attempts) {
    && u in g.units && u in h.units && h.units[u] == g.units[u].(status := Produced, attempts := attempts)
    && u !in h.failed && (output != Null ==> u in h.working && h.working[u] == output)
    && (output == Null ==> (u in h.working <==> u in g.working) && (u in g.working ==> h.working[u] == g.working[u]))
    && (u in h.accepted <==> u in g.accepted) && (u in g.accepted ==> h.accepted[u] == g.accepted[u])
    && forall v :: v != u ==> SameRow(g, h, v)
  }

  lemma RejectIsLocal(g: Graph, u: Id, note: FailureNote)
    requires u in g.units && OutputsOk(g) && Acyclic(Arcs(g))
    ensures FailsLocally(g, Reject(g, u, note), u, note, g.units[u].attempts)
  {
    hide RefreshCounts, Downstream, Arcs, WithStatus, OutputsOk, FailedRow, ReopenedRow, SameRow, Acyclic, SameFrame;
    FailedFrame(g, u, note);
    var down := Downstream(Arcs(g), g.units.Keys, u);
    var f := SetFailed(g, u, note);
    FrameArcs(g, f);
    NotDownstreamOfItself(Arcs(g), g.units.Keys, u);
    assert Downstream(Arcs(f), f.units.Keys, u) == down;
    DownstreamWithin(Arcs(g), g.units.Keys, u);
    var r := Reopen(f, u);
    RejectRows(g, u, note, down, r);
    var k := r.(status := RetryPending, counters := r.counters.(retries := r.counters.retries + 1),
      sendBacks := r.sendBacks + 1);
    RefreshCountsOnly(k);
    CarryRows(g, r, RefreshCounts(k), u, note);
    AcceptedAfterReopening(g, r, u, down);
  }

  lemma DownstreamWithin(edges: set<Edge>, ids: set<Id>, u: Id)
    ensures Downstream(edges, ids, u) <= ids
  {
  }

  lemma NotDownstreamOfItself(edges: set<Edge>, ids: set<Id>, u: Id)
    requires Acyclic(edges)
    ensures u !in Downstream(edges, ids, u)
  {
  }

  /** Rows depend on units and outputs only. */
  lemma CarryRows(g: Graph, r: Graph, k: Graph, u: Id, note: FailureNote)
    requires k.units == r.units && k.accepted == r.accepted && k.failed == r.failed && k.working == r.working
    ensures forall v :: SameRow(g, k, v) <==> SameRow(g, r, v)
    ensures forall v :: ReopenedRow(g, k, v) <==> ReopenedRow(g, r, v)
    ensures forall attempts :: FailedRow(g, k, u, note, attempts) <==> FailedRow(g, r, u, note, attempts)
  {
  }

  lemma RejectRows(g: Graph, u: Id, note: FailureNote, down: set<Id>, r: Graph)
    requires u in g.units && u !in down && down <= g.units.Keys
    requires var f := SetFailed(g, u, note);
      && r.units == (map v | v in f.units :: if v in down then f.units[v].(status := Reopened) else f.units[v])
      && r.accepted == f.accepted - (set v | v in down && f.units[v].status == Accepted)
      && r.failed == f.failed - down && r.working == f.working - down
    ensures r.units.Keys == g.units.Keys && r.units[u].status == Failed
    ensures FailedRow(g, r, u, note, g.units[u].attempts)
    ensures forall v :: v in down ==> ReopenedRow(g, r, v)
    ensures forall v :: v != u && v !in down ==> SameRow(g, r, v)
  {
  }

  lemma AcceptedAfterReopening(g: Graph, r: Graph, u: Id, down: set<Id>)
    requires r.units.Keys == g.units.Keys && u in g.units && down <= g.units.Keys
    requires r.units[u].status == Failed
    requires forall v :: v in down ==> ReopenedRow(g, r, v)
    requires forall v :: v != u && v !in down ==> SameRow(g, r, v)
    ensures WithStatus(r.units, Accepted) == WithStatus(g.units, Accepted) - {u} - down
  {
    forall v | v in g.units
      ensures v in WithStatus(r.units, Accepted) <==> v in WithStatus(g.units, Accepted) - {u} - down {
      if v in down { assert ReopenedRow(g, r, v); } else if v != u { assert SameRow(g, r, v); }
    }
  }

  // ---------------------------------------------------------------- calls

  /** A limit cut the call short: the graph stops, units and outputs stay. */
  ghost predicate Stops(g: Graph, h: Graph) {
    && h.status == ConvergedFailed && h.units == g.units
    && h.accepted == g.accepted && h.failed == g.failed && h.working == g.working
  }

  /** Counting a step and setting attempts of `u` do not disturb the rows of others. */
  lemma FromCounted(g: Graph, k: Graph, h: Graph, u: Id, note: FailureNote, output: Json, attempts: Attempts)
    requires u in g.units && k.units == g.units[u := g.units[u].(attempts := attempts)]
    requires k.edges == g.edges && k.limits == g.limits
    requires k.accepted == g.accepted && k.failed == g.failed && k.working == g.working
    requires k.sendBacks == g.sendBacks && k.counters.retries == g.counters.retries
    ensures FailsLocally(k, h, u, note, attempts) ==> FailsLocally(g, h, u, note, attempts)
    ensures AcceptsLocally(k, h, u, output, attempts) ==> AcceptsLocally(g, h, u, output, attempts)
    ensures ProducesLocally(k, h, u, output, attempts) ==> ProducesLocally(g, h, u, output, attempts)
  {
    hide AcceptsLocally, ProducesLocally, Downstream, Arcs, WithStatus, SameRow, ReopenedRow, FailedRow, SameFrame;
    CountedFrame(g, k, u, attempts);
    FrameArcs(g, k);
    assert WithStatus(k.units, Accepted) == WithStatus(g.units, Accepted) by { SameStatusSets(g.units, k.units); }
    RowsFromCounted(g, k, h, u, note, attempts);
    AcceptedFromCounted(g, k, h, u, output, attempts);
    ProducedFromCounted(g, k, h, u, output, attempts);
  }

  lemma CountedFrame(g: Graph, k: Graph, u: Id, attempts: Attempts)
    requires u in g.units && k.units == g.units[u := g.units[u].(attempts := attempts)]
    requires k.edges == g.edges && k.limits == g.limits
    ensures SameFrame(g, k)
  {
  }

  lemma RowsFromCounted(g: Graph, k: Graph, h: Graph, u: Id, note: FailureNote, attempts: Attempts)
    requires u in g.units && k.units == g.units[u := g.units[u].(attempts := attempts)]
    requires k.accepted == g.accepted && k.failed == g.failed && k.working == g.working
    ensures forall v :: v != u && SameRow(k, h, v) ==> SameRow(g, h, v)
    ensures forall v :: v != u && ReopenedRow(k, h, v) ==> ReopenedRow(g, h, v)
    ensures FailedRow(k, h, u, note, attempts) ==> FailedRow(g, h, u, note, attempts)
  {
  }

  lemma AcceptedFromCounted(g: Graph, k: Graph, h: Graph, u: Id, output: Json, attempts: Attempts)
    requires u in g.units && k.units == g.units[u := g.units[u].(attempts := attempts)]
    requires k.accepted == g.accepted && k.failed == g.failed && k.working == g.working
    ensures AcceptsLocally(k, h, u, output, attempts) ==> AcceptsLocally(g, h, u, output, attempts)
  {
    RowsFromCounted(g, k, h, u, SchemaInvalid, attempts);
    hide SameRow;
  }

  lemma ProducedFromCounted(g: Graph, k: Graph, h: Graph, u: Id, output: Json, attempts: Attempts)
    requires u in g.units && k.units == g.units[u := g.units[u].(attempts := attempts)]
    requires k.accepted == g.accepted && k.failed == g.failed && k.working == g.working
    ensures ProducesLocally(k, h, u, output, attempts) ==> ProducesLocally(g, h, u, output, attempts)
  {
    RowsFromCounted(g, k, h, u, SchemaInvalid, attempts);
    hide SameRow;
  }

  lemma SameStatusSets(a: map<Id, Unit>, b: map<Id, Unit>)
    requires a.Keys == b.Keys && forall u :: u in a ==> a[u].status == b[u].status
    ensures forall s :: WithStatus(a, s) == WithStatus(b, s)
  {
  }

  lemma AcceptIsLocal(k: Graph, u: Id, output: Json, now: nat)
    requires u in k.units
    ensures AcceptsLocally(k, Refresh(SetAccepted(k, u, output), now), u, output, k.units[u].attempts)
    ensures ProducesLocally(k, Refresh(SetProduced(k, u, output), now), u, output, k.units[u].attempts)
  {
    hide RefreshCounts, RefreshStatus;
    RefreshCountsOnly(SetAccepted(k, u, output));
    RefreshStatusOnly(RefreshCounts(SetAccepted(k, u, output)), now);
    RefreshCountsOnly(SetProduced(k, u, output));
    RefreshStatusOnly(RefreshCounts(SetProduced(k, u, output)), now);
  }

  /** What a direct completion does. */
  lemma CompleteEffect(g: Graph, u: Id, output: Json, now: nat)
    requires OutputsOk(g) && CompleteUnit(g, u, output, now).Ok?
    ensures var h := CompleteUnit(g, u, output, now).value;
      if !MayStep(g, now, true) || Exhausted(g, g.units[u]) then Stops(g, h)
      else if Conforms(output, g.units[u].schema) then
        AcceptsLocally(g, h, u, output, g.units[u].attempts.BumpCheck())
      else FailsLocally(g, h, u, SchemaInvalid, g.units[u].attempts)
  {
    hide Conforms, DependencyReady, Reject, Refresh, ShapeOk, Acyclic, OutputsOk, FailsLocally;
    hide AcceptsLocally, ProducesLocally;
    var h := CountStep(g, now, true);
    if MayStep(g, now, true) && !Exhausted(g, g.units[u]) {
      var attempts := g.units[u].attempts.BumpCheck();
      var k := SetAttempts(h, u, attempts);
      CountedStays(g, h);
      RejectIsLocal(h, u, SchemaInvalid);
      AcceptIsLocal(k, u, output, now);
      FromCounted(g, k, Refresh(SetAccepted(k, u, output), now), u, SchemaInvalid, output, attempts);
      assert h.units == g.units[u := g.units[u].(attempts := g.units[u].attempts)];
      FromCounted(g, h, Reject(h, u, SchemaInvalid), u, SchemaInvalid, output, g.units[u].attempts);
    }
  }

  lemma CountedStays(g: Graph, h: Graph)
    requires h.units == g.units && h.edges == g.edges && h.accepted == g.accepted
    requires h.failed == g.failed && h.working == g.working
    ensures Arcs(h) == Arcs(g) && (OutputsOk(g) ==> OutputsOk(h))
  {
    hide Conforms;
  }

  /** What a direct failure does. */
  lemma FailEffect(g: Graph, u: Id, note: FailureNote, now: nat)
    requires OutputsOk(g) && FailUnit(g, u, note, now).Ok?
    ensures var h := FailUnit(g, u, note, now).value;
      if !MayStep(g, now, true) || Exhausted(g, g.units[u]) then Stops(g, h)
      else FailsLocally(g, h, u, note, g.units[u].attempts.BumpCheck())
  {
    hide Reject, ShapeOk, Acyclic, Arcs, OutputsOk, FailsLocally, AcceptsLocally, ProducesLocally, SameFrame;
    var h := CountStep(g, now, true);
    if MayStep(g, now, true) && !Exhausted(g, g.units[u]) {
      var attempts := g.units[u].attempts.BumpCheck();
      var k := SetAttempts(h, u, attempts);
      CountedFrame(g, k, u, attempts);
      AttemptedStays(g, k, u);
      RejectIsLocal(k, u, note);
      FromCounted(g, k, Reject(k, u, note), u, note, Null, attempts);
    }
  }

  lemma AttemptedStays(g: Graph, k: Graph, u: Id)
    requires u in g.units && SameFrame(g, k)
    requires forall v :: v in g.units ==> k.units[v].status == g.units[v].status
    requires k.accepted == g.accepted && k.failed == g.failed && k.working == g.working
    ensures Arcs(k) == Arcs(g) && (OutputsOk(g) ==> OutputsOk(k))
  {
    hide Conforms, Arcs;
    FrameArcs(g, k);
    if OutputsOk(g) {
      forall v | v in k.accepted
        ensures v in k.units && k.units[v].status != Failed && Conforms(k.accepted[v], k.units[v].schema) {
        assert SameContract(g.units[v], k.units[v]);
      }
    }
  }

  /** Whether a recorded attempt is within its budgets. */
  predicate MayAttempt(g: Graph, u: Id, stage: Stage, now: nat)
    requires u in g.units
  {
    && MayStep(g, now, true) && !Exhausted(g, g.units[u])
    && g.units[u].attempts.Of(stage) < StageLimit(g, g.units[u], stage)
  }

  /** What an outcome that is not cut short does, relative to a snapshot with the attempt counted. */
  ghost predicate OutcomeEffect(g: Graph, h: Graph, u: Id, stage: Stage, outcome: Outcome, attempts: Attempts)
    requires u in g.units
  {
    var judged := Candidate(g, u, outcome.output);
    if !outcome.ok then FailsLocally(g, h, u, Reason(outcome.reason), attempts)
    else if !Judged(stage, outcome) then ProducesLocally(g, h, u, outcome.output, attempts)
    else if Conforms(judged, g.units[u].schema) then AcceptsLocally(g, h, u, judged, attempts)
    else FailsLocally(g, h, u, SchemaInvalid, attempts)
  }

  lemma JudgeEffect(k: Graph, u: Id, stage: Stage, outcome: Outcome, now: nat)
    requires u in k.units && OutputsOk(k) && Acyclic(Arcs(k))
    ensures OutcomeEffect(k, Judge(k, u, stage, outcome, now), u, stage, outcome, k.units[u].attempts)
  {
    hide Conforms, Reject, Refresh, Acyclic, OutputsOk, FailsLocally, AcceptsLocally, ProducesLocally;
    hide Candidate, SetAccepted, SetProduced;
    RejectIsLocal(k, u, Reason(outcome.reason));
    RejectIsLocal(k, u, SchemaInvalid);
    AcceptIsLocal(k, u, Candidate(k, u, outcome.output), now);
    AcceptIsLocal(k, u, outcome.output, now);
  }

  /** What a recorded attempt does. */
  lemma RecordEffect(g: Graph, u: Id, stage: Stage, outcome: Outcome, now: nat)
    requires OutputsOk(g) && RecordAttempt(g, u, stage, outcome, now).Ok?
    ensures u in g.units
    ensures var h, attempts := RecordAttempt(g, u, stage, outcome, now).value, g.units[u].attempts.Bump(stage);
      if !MayAttempt(g, u, stage, now) then Stops(g, h) else OutcomeEffect(g, h, u, stage, outcome, attempts)
  {
    hide Acyclic, Arcs, ShapeOk, OutputsOk, OutcomeEffect, Judge, SameFrame, RecordAttempt, MayAttempt;
    RecordOutcome(g, u, stage, outcome, now);
    if MayAttempt(g, u, stage, now) {
      var attempts := g.units[u].attempts.Bump(stage);
      var k := SetAttempts(CountStep(g, now, true), u, attempts);
      CountedFrame(g, k, u, attempts);
      AttemptedStays(g, k, u);
      JudgeEffect(k, u, stage, outcome, now);
      OutcomeFromCounted(g, k, Judge(k, u, stage, outcome, now), u, stage, outcome, attempts);
    }
  }

  /** A recorded attempt within its budgets is judged, with the attempt counted; any other stops the graph. */
  lemma RecordOutcome(g: Graph, u: Id, stage: Stage, outcome: Outcome, now: nat)
    requires RecordAttempt(g, u, stage, outcome, now).Ok?
    ensures u in g.units && WellFormed(g)
    ensures
      var h := RecordAttempt(g, u, stage, outcome, now).value;
      var k := SetAttempts(CountStep(g, now, true), u, g.units[u].attempts.Bump(stage));
      if MayAttempt(g, u, stage, now) then h == Judge(k, u, stage, outcome, now) else Stops(g, h)
  {
    hide DependencyReady, ShapeOk, Acyclic, Arcs, Judge, StageLimit, AttemptLimit;
  }

  lemma OutcomeFromCounted(g: Graph, k: Graph, h: Graph, u: Id, stage: Stage, outcome: Outcome, attempts: Attempts)
    requires u in g.units && k.units == g.units[u := g.units[u].(attempts := attempts)]
    requires k.edges == g.edges && k.limits == g.limits
    requires k.accepted == g.accepted && k.failed == g.failed && k.working == g.working
    requires k.sendBacks == g.sendBacks && k.counters.retries == g.counters.retries
    requires OutcomeEffect(k, h, u, stage, outcome, attempts)
    ensures OutcomeEffect(g, h, u, stage, outcome, attempts)
  {
    hide Conforms, FailsLocally, AcceptsLocally, ProducesLocally;
    FromCounted(g, k, h, u, Reason(outcome.reason), outcome.output, attempts);
    FromCounted(g, k, h, u, SchemaInvalid, Candidate(g, u, outcome.output), attempts);
  }
}
