/**
 * Rounds in which every outcome succeeds.  A graph finishes after at least as many rounds as its
 * critical path is long and at most as many as it has units; with nothing to keep ready units
 * apart, round k accepts exactly the units of depth k.
 */
module Rounds {
  import opened Basics
  import opened Calls
  import opened Closure
  import opened Depth
  import opened Digraph
  import opened Frame
  import opened Invariants
  import opened JsonValues
  import opened Locality
  import opened Order
  import opened Selection
  import opened State

  ghost function AcceptedSet(g: Graph): set<Id> { WithStatus(g.units, Accepted) }

  /** Budgets for one attempt a unit, and no wall time limit. */
  ghost predicate Ample(limits: Limits, n: nat) {
    limits.maxGraphSteps >= n && limits.maxTotalChildRuns >= n && limits.maxWallTime.None?
  }

  /** Each step so far accepted one unit; nothing failed and nothing is being judged. */
  ghost predicate Smooth(g: Graph) {
    && Loose(g) && g.status != ConvergedFailed && Ample(g.limits, |g.units|)
    && (forall u :: u in g.units ==> g.units[u].status in {Pending, Ready, Accepted})
    && (forall u :: u in g.units && g.units[u].status != Accepted ==> g.units[u].attempts.Total() == 0)
    && g.counters.graphSteps == |AcceptedSet(g)| && g.counters.totalChildRuns == |AcceptedSet(g)|
  }

  /** An outcome that accepts the unit: a direct success, or a success judged at once, with an output that fits. */
  ghost predicate Succeeds(unit: Unit, u: Id, outcomes: map<Id, RoundOutcome>) {
    && u in outcomes && outcomes[u].outcome.ok && Conforms(outcomes[u].outcome.output, unit.schema)
    && (outcomes[u].Staged? ==> Judged(outcomes[u].stage, outcomes[u].outcome))
  }

  /** Every unit the round selects succeeds; whatever else the outcomes hold is not looked at. */
  ghost predicate RoundSucceeds(g: Graph, outcomes: map<Id, RoundOutcome>, width: Option<int>) {
    forall u :: u in ParallelReady(g, Room(g, width)) ==> u in g.units && Succeeds(g.units[u], u, outcomes)
  }

  ghost function Room(g: Graph, width: Option<int>): nat {
    if width.Some? then (if width.value < 0 then 0 else width.value) else g.limits.maxParallelism
  }

  lemma LimitPositive(g: Graph, u: Id)
    requires ShapeOk(g) && u in g.units
    ensures AttemptLimit(g, g.units[u]) >= 1
    ensures forall stage :: StageLimit(g, g.units[u], stage) >= 1
  {
    assert UnitOk(g, u);
  }

  lemma AcceptedBelowAll(g: Graph, u: Id)
    requires u in g.units && g.units[u].status != Accepted
    ensures |AcceptedSet(g)| < |g.units|
  {
    var a := AcceptedSet(g);
    assert g.units.Keys == a + (g.units.Keys - a);
    assert u in g.units.Keys - a;
    assert |g.units| == |g.units.Keys|;
  }

  /** A ready unit with a fitting output is accepted, and nothing else changes. */
  lemma SuccessAccepts(g: Graph, u: Id, output: Json, now: nat)
    requires Smooth(g) && u in g.units && g.units[u].status == Ready && DependencyReady(g, u)
    requires Conforms(output, g.units[u].schema)
    ensures CompleteUnit(g, u, output, now).Ok?
    ensures var h := CompleteUnit(g, u, output, now).value;
      && AcceptsLocally(g, h, u, output, g.units[u].attempts.BumpCheck())
      && h.status != ConvergedFailed && SameFrame(g, h) && Loose(h)
      && h.counters.graphSteps == g.counters.graphSteps + 1 &&
      h.counters.totalChildRuns == g.counters.totalChildRuns + 1
  {
    hide Loose, Conforms, DependencyReady, Acyclic, AcceptsLocally, FailsLocally, RefreshCounts;
    hide RefreshStatus, Reject, UnitOk;
    assert Loose(g) ==> WellFormed(g) && OutputsOk(g) by { LooseParts(g); }
    hide ShapeOk, OutputsOk;
    AcceptedBelowAll(g, u);
    LimitPositive(g, u);
    assert MayStep(g, now, true);
    assert !Exhausted(g, g.units[u]);
    var c := CountStep(g, now, true);
    var k := SetAttempts(c, u, c.units[u].attempts.BumpCheck());
    var m := SetAccepted(k, u, output);
    assert CompleteUnit(g, u, output, now) == Ok(Refresh(m, now));
    CompleteEffect(g, u, output, now);
    CompleteFrame(g, u, output, now);
    CompleteKeeps(g, u, output, now);
    RefreshCountsOnly(m);
    RefreshStatusOnly(RefreshCounts(m), now);
    StaysConverging(RefreshCounts(m), now);
  }

  lemma StaysConverging(g: Graph, now: nat)
    ensures g.status != ConvergedFailed ==> RefreshStatus(g, now).status != ConvergedFailed
  {
  }

  lemma LooseParts(g: Graph)
    requires Loose(g)
    ensures WellFormed(g) && OutputsOk(g) && StatusSound(g) && StatusesOk(g)
  {
  }

  /** So is a ready unit whose success is judged at once. */
  lemma StagedAccepts(g: Graph, u: Id, stage: Stage, outcome: Outcome, now: nat)
    requires Smooth(g) && u in g.units && g.units[u].status == Ready && DependencyReady(g, u)
    requires outcome.ok && Judged(stage, outcome) && Conforms(outcome.output, g.units[u].schema)
    ensures RecordAttempt(g, u, stage, outcome, now).Ok?
    ensures var h := RecordAttempt(g, u, stage, outcome, now).value;
      && AcceptsLocally(g, h, u, outcome.output, g.units[u].attempts.Bump(stage))
      && h.status != ConvergedFailed && SameFrame(g, h) && Loose(h)
      && h.counters.graphSteps == g.counters.graphSteps + 1
      && h.counters.totalChildRuns == g.counters.totalChildRuns + 1
  {
    StagedIs(g, u, stage, outcome, now);
    RefreshedAcceptance(g, u, outcome.output, g.units[u].attempts.Bump(stage), now);
    StagedLocally(g, u, stage, outcome, now);
    hide RecordAttempt, Refresh, SetAccepted, SetAttempts, CountStep, AcceptsLocally, SameFrame, Conforms;
    RecordFrame(g, u, stage, outcome, now);
    hide Loose;
    RecordKeeps(g, u, stage, outcome, now);
  }

  lemma StagedLocally(g: Graph, u: Id, stage: Stage, outcome: Outcome, now: nat)
    requires Smooth(g) && u in g.units && g.units[u].status == Ready && MayAttempt(g, u, stage, now)
    requires outcome.ok && Judged(stage, outcome) && Conforms(outcome.output, g.units[u].schema)
    requires RecordAttempt(g, u, stage, outcome, now).Ok?
    ensures AcceptsLocally(g, RecordAttempt(g, u, stage, outcome, now).value, u, outcome.output,
                           g.units[u].attempts.Bump(stage))
  {
    hide Conforms, AcceptsLocally, FailsLocally, ProducesLocally, RecordAttempt, MayAttempt;
    LooseParts(g);
    NothingInWork(g, u);
    hide OutputsOk, Loose;
    RecordEffect(g, u, stage, outcome, now);
  }

  /** Counting a step with its attempt and accepting a unit stops nothing and counts just that step. */
  lemma RefreshedAcceptance(g: Graph, u: Id, output: Json, attempts: Attempts, now: nat)
    requires u in g.units && g.status != ConvergedFailed
    ensures
      var h := Refresh(SetAccepted(SetAttempts(CountStep(g, now, true), u, attempts), u, output), now);
      && h.status != ConvergedFailed
      && h.counters.graphSteps == g.counters.graphSteps + 1
      && h.counters.totalChildRuns == g.counters.totalChildRuns + 1
  {
    hide RefreshCounts, RefreshStatus;
    var m := SetAccepted(SetAttempts(CountStep(g, now, true), u, attempts), u, output);
    RefreshCountsOnly(m);
    RefreshStatusOnly(RefreshCounts(m), now);
    StaysConverging(RefreshCounts(m), now);
  }

  /** An unfinished unit of a smooth run has room for an attempt of every stage. */
  lemma RoomToAttempt(g: Graph, u: Id, stage: Stage, now: nat)
    requires Smooth(g) && u in g.units && g.units[u].status == Ready
    ensures MayAttempt(g, u, stage, now) && g.status != ConvergedFailed
  {
    LooseParts(g);
    hide Loose, OutputsOk, StatusSound, StatusesOk;
    assert ShapeOk(g);
    AcceptedBelowAll(g, u);
    LimitPositive(g, u);
    hide ShapeOk, WellFormed, StageLimit, AttemptLimit;
    assert MayStep(g, now, true);
    hide AcceptedSet, MayStep, Ample;
    assert g.units[u].attempts.Of(stage) == 0;
  }

  lemma StagedIs(g: Graph, u: Id, stage: Stage, outcome: Outcome, now: nat)
    requires Smooth(g) && u in g.units && g.units[u].status == Ready && DependencyReady(g, u)
    requires outcome.ok && Judged(stage, outcome) && Conforms(outcome.output, g.units[u].schema)
    ensures MayAttempt(g, u, stage, now) && g.status != ConvergedFailed
    ensures
      var k := SetAttempts(CountStep(g, now, true), u, g.units[u].attempts.Bump(stage));
      RecordAttempt(g, u, stage, outcome, now) == Ok(Refresh(SetAccepted(k, u, outcome.output), now))
  {
    RoomToAttempt(g, u, stage, now);
    LooseParts(g);
    NothingInWork(g, u);
    hide Smooth, Loose, WellFormed, OutputsOk, StatusSound, StatusesOk, Conforms, DependencyReady, MayAttempt;
    hide RecordAttempt, Refresh, SetAccepted, SetAttempts, CountStep;
    PassedIs(g, u, stage, outcome, now);
  }

  /** An attempt with nothing in its way, whose output fits and is judged at once, accepts the unit. */
  lemma PassedIs(g: Graph, u: Id, stage: Stage, outcome: Outcome, now: nat)
    requires WellFormed(g) && g.status != ConvergedFailed && u in g.units && u !in g.working
    requires g.units[u].status == Ready && DependencyReady(g, u) && MayAttempt(g, u, stage, now)
    requires outcome.ok && Judged(stage, outcome) && Conforms(outcome.output, g.units[u].schema)
    ensures
      var k := SetAttempts(CountStep(g, now, true), u, g.units[u].attempts.Bump(stage));
      RecordAttempt(g, u, stage, outcome, now) == Ok(Refresh(SetAccepted(k, u, outcome.output), now))
  {
    hide WellFormed, Conforms, DependencyReady, Judged, Refresh, Reject, StageLimit, Exhausted, MayStep, SetAccepted;
    hide SetProduced;
  }

  lemma NothingInWork(g: Graph, u: Id)
    requires OutputsOk(g) && u in g.units && g.units[u].status == Ready
    ensures u !in g.working
  {
    hide Conforms;
  }

  lemma SuccessSmooth(g: Graph, u: Id, outcomes: map<Id, RoundOutcome>, now: nat)
    requires Smooth(g) && u in g.units && g.units[u].status == Ready && DependencyReady(g, u)
    requires Succeeds(g.units[u], u, outcomes)
    ensures var r := ApplyOutcome(g, u, outcomes[u], now);
      && r.Ok? && Smooth(r.value) && SameFrame(g, r.value) && r.value.status != ConvergedFailed
      && AcceptedSet(r.value) == AcceptedSet(g) + {u}
      && (forall v :: v != u && v in g.units ==> r.value.units[v] == g.units[v])
  {
    hide CompleteUnit, RecordAttempt, FailUnit, Loose, Conforms, DependencyReady, AcceptsLocally, AcceptedSet;
    var outcome := outcomes[u].outcome;
    var attempts: Attempts;
    match outcomes[u] {
      case Direct(_) =>
        SuccessAccepts(g, u, outcome.output, now);
        attempts := g.units[u].attempts.BumpCheck();
      case Staged(stage, _) =>
        StagedAccepts(g, u, stage, outcome, now);
        attempts := g.units[u].attempts.Bump(stage);
    }
    hide ApplyOutcome, SameFrame;
    var h := ApplyOutcome(g, u, outcomes[u], now).value;
    AcceptedRows(g, h, u, outcome.output, attempts);
    assert u !in AcceptedSet(g) by { NotAcceptedYet(g, u); }
    StillSmooth(g, h, u);
  }

  /** Accepting one more unit keeps the steps in line with the units accepted. */
  lemma StillSmooth(g: Graph, h: Graph, u: Id)
    requires Smooth(g) && SameFrame(g, h) && Loose(h) && h.status != ConvergedFailed && u in g.units
    requires u !in AcceptedSet(g) && AcceptedSet(h) == AcceptedSet(g) + {u} && |h.units| == |g.units|
    requires u in h.units && h.units[u].status == Accepted
    requires forall v :: v != u && v in g.units ==> v in h.units && h.units[v] == g.units[v]
    requires h.counters.graphSteps == g.counters.graphSteps + 1
    requires h.counters.totalChildRuns == g.counters.totalChildRuns + 1
    ensures Smooth(h)
  {
    hide Loose, AcceptedSet;
  }

  lemma NotAcceptedYet(g: Graph, u: Id)
    requires u in g.units && g.units[u].status != Accepted
    ensures u !in AcceptedSet(g)
  {
  }

  lemma AcceptedRows(g: Graph, h: Graph, u: Id, output: Json, attempts: Attempts)
    requires AcceptsLocally(g, h, u, output, attempts) && SameFrame(g, h)
    ensures AcceptedSet(h) == AcceptedSet(g) + {u} && |h.units| == |g.units|
    ensures h.units[u].status == Accepted
    ensures forall v :: v != u && v in g.units ==> h.units[v] == g.units[v]
  {
    forall v | v != u && v in g.units ensures h.units[v] == g.units[v] { assert SameRow(g, h, v); }
    assert |h.units| == |h.units.Keys| == |g.units.Keys| == |g.units|;
  }

  lemma StillReady(g: Graph, h: Graph, v: Id)
    requires SameFrame(g, h) && AcceptedSet(g) <= AcceptedSet(h) && DependencyReady(g, v)
    ensures DependencyReady(h, v)
  {
    hide Arcs;
    FrameArcs(g, h);
    forall e | e in Arcs(h) && e.to == v ensures e.from in h.units && h.units[e.from].status == Accepted {
      assert e.from in AcceptedSet(g);
    }
  }

  lemma {:induction false} RoundAccepts(g: Graph, selected: seq<Id>, outcomes: map<Id, RoundOutcome>, now: nat)
    requires Smooth(g) && Distinct(selected)
    requires forall u :: u in selected ==> u in g.units && g.units[u].status == Ready && DependencyReady(g, u)
    requires forall u :: u in selected ==> Succeeds(g.units[u], u, outcomes)
    ensures var r := ApplyOutcomes(g, selected, outcomes, now);
      r.Ok? && Smooth(r.value) && SameFrame(g, r.value) && AcceptedSet(r.value) == AcceptedSet(g) + Elements(selected)
    decreases |selected|
  {
    hide Smooth, DependencyReady, ApplyOutcome, AcceptedSet, SameFrame, Conforms;
    if selected == [] {
      FrameReflexive(g);
      assert Elements(selected) == {};
    } else {
      var u, rest := selected[0], selected[1..];
      assert u in selected;
      SuccessSmooth(g, u, outcomes, now);
      var h := ApplyOutcome(g, u, outcomes[u], now).value;
      assert h.units.Keys == g.units.Keys by { FrameKeys(g, h); }
      forall v | v in rest
        ensures v in h.units && h.units[v].status == Ready && DependencyReady(h, v) && Succeeds(h.units[v], v, outcomes)
      {
        assert v in selected && v != u;
        StillReady(g, h, v);
      }
      RoundAccepts(h, rest, outcomes, now);
      FrameTransitive(g, h, ApplyOutcomes(h, rest, outcomes, now).value);
      assert Elements(selected) == {u} + Elements(rest) by { assert selected == [u] + rest; }
    }
  }

  lemma FrameKeys(g: Graph, h: Graph)
    requires SameFrame(g, h)
    ensures h.units.Keys == g.units.Keys
  {
  }

  /** One round of successes accepts exactly what it selects. */
  lemma OneRound(g: Graph, outcomes: map<Id, RoundOutcome>, width: Option<int>, now: nat)
    requires Invariant(g) && Smooth(g) && RoundSucceeds(g, outcomes, width) && (width.Some? ==> width.value >= 1)
    ensures var h := After(g, Advance(outcomes, width), now);
      && Invariant(h) && Smooth(h) && SameFrame(g, h)
      && AcceptedSet(h) == AcceptedSet(g) + if AllAccepted(g) then {} else Elements(ParallelReady(g, Room(g, width)))
  {
    hide After, Invariant, AllAccepted, ParallelReady, Smooth, AcceptedSet, RoundSucceeds;
    StepKeeps(g, Advance(outcomes, width), now);
    StepFrame(g, Advance(outcomes, width), now);
    if AllAccepted(g) {
      DoneStays(g, outcomes, width, now);
    } else {
      OpenRound(g, outcomes, width, now);
    }
  }

  lemma OpenRound(g: Graph, outcomes: map<Id, RoundOutcome>, width: Option<int>, now: nat)
    requires Smooth(g) && !AllAccepted(g) && RoundSucceeds(g, outcomes, width) && (width.Some? ==> width.value >= 1)
    ensures var h := After(g, Advance(outcomes, width), now);
      Smooth(h) && AcceptedSet(h) == AcceptedSet(g) + Elements(ParallelReady(g, Room(g, width)))
  {
    hide After, AllAccepted, ParallelReady, ReadyUnits, MarkReady, RefreshStatus, ApplyOutcomes, Refresh;
    hide DependencyReady, Smooth, AcceptedSet, RoundSucceeds;
    var selected := ParallelReady(g, Room(g, width));
    NotDone(g);
    ParallelIsReady(g, Room(g, width));
    ParallelIsDistinct(g, Room(g, width));
    RoundReady(g, selected, now);
    var h := RefreshStatus(MarkReady(g, selected), now);
    SelectedSucceed(g, h, outcomes, width);
    RoundAccepts(h, selected, outcomes, now);
    NonEmptyOutcomes(g, outcomes, width);
    RoundEnds(ApplyOutcomes(h, selected, outcomes, now).value, now);
    AdvanceIs(g, outcomes, width, now);
  }

  lemma NotDone(g: Graph)
    requires Smooth(g) && !AllAccepted(g)
    ensures g.status != GraphAccepted && g.status != ConvergedFailed && WellFormed(g)
  {
    LooseParts(g);
  }

  lemma DoneStays(g: Graph, outcomes: map<Id, RoundOutcome>, width: Option<int>, now: nat)
    requires Invariant(g) && Smooth(g) && AllAccepted(g)
    ensures After(g, Advance(outcomes, width), now) == g
  {
    hide WellFormed;
    LooseParts(g);
  }

  lemma NonEmptyOutcomes(g: Graph, outcomes: map<Id, RoundOutcome>, width: Option<int>)
    requires Smooth(g) && RoundSucceeds(g, outcomes, width) && !AllAccepted(g) && (width.Some? ==> width.value >= 1)
    ensures outcomes != map[]
  {
    hide Smooth, ParallelReady, AllAccepted;
    assert LimitsOk(g.limits) by { SmoothAcyclic(g); }
    RoundProgress(g, Room(g, width));
    var selected := ParallelReady(g, Room(g, width));
    assert selected[0] in selected;
  }

  /** A success of a unit before the round is marked is one after. */
  lemma SelectedSucceed(g: Graph, h: Graph, outcomes: map<Id, RoundOutcome>, width: Option<int>)
    requires RoundSucceeds(g, outcomes, width) && SameFrame(g, h)
    ensures forall u :: u in ParallelReady(g, Room(g, width)) ==> u in h.units && Succeeds(h.units[u], u, outcomes)
  {
    hide ParallelReady, Conforms;
    forall u | u in ParallelReady(g, Room(g, width)) ensures u in h.units && Succeeds(h.units[u], u, outcomes) {
      assert Succeeds(g.units[u], u, outcomes) && SameContract(g.units[u], h.units[u]);
    }
  }

  lemma AdvanceIs(g: Graph, outcomes: map<Id, RoundOutcome>, width: Option<int>, now: nat)
    requires WellFormed(g) && g.status != GraphAccepted && g.status != ConvergedFailed && outcomes != map[]
    requires width.Some? ==> width.value >= 1
    requires var h := RefreshStatus(MarkReady(g, ParallelReady(g, Room(g, width))), now);
      ApplyOutcomes(h, ParallelReady(g, Room(g, width)), outcomes, now).Ok?
    ensures var selected := ParallelReady(g, Room(g, width)); var h := RefreshStatus(MarkReady(g, selected), now);
      After(g, Advance(outcomes, width), now) == Refresh(ApplyOutcomes(h, selected, outcomes, now).value, now)
  {
    hide WellFormed, ParallelReady, MarkReady, RefreshStatus, Refresh, ApplyOutcomes;
  }

  lemma RoundReady(g: Graph, selected: seq<Id>, now: nat)
    requires Smooth(g) && !AllAccepted(g) && forall u :: u in selected ==> u in ReadyUnits(g)
    ensures var h := RefreshStatus(MarkReady(g, selected), now);
      && Smooth(h) && SameFrame(g, h) && AcceptedSet(h) == AcceptedSet(g)
      && forall u :: u in selected ==> u in h.units && h.units[u].status == Ready && DependencyReady(h, u)
  {
    hide RefreshStatus, DependencyReady, WellFormed, StatusesOk, OutputsOk, Budgets, StatusSound, MarkReady;
    hide AcceptedSet, WithStatus;
    var m := MarkReady(g, selected);
    MarkReadyKeeps(g, selected);
    Marked(g, selected);
    RefreshStatusOnly(m, now);
    RoundStarts(g, selected, now);
    var h := RefreshStatus(m, now);
    SameAccepted(m, h);
    forall u | u in selected ensures u in h.units && h.units[u].status == Ready && DependencyReady(h, u) {
      assert u in ReadyUnits(g);
      StillReady(g, h, u);
    }
  }

  lemma SameAccepted(m: Graph, h: Graph)
    requires m.units == h.units
    ensures AcceptedSet(m) == AcceptedSet(h)
  {
  }

  lemma Marked(g: Graph, selected: seq<Id>)
    requires forall u :: u in selected ==> u in ReadyUnits(g)
    requires forall u :: u in g.units ==> g.units[u].status in {Pending, Ready, Accepted}
    requires forall u :: u in g.units && g.units[u].status != Accepted ==> g.units[u].attempts.Total() == 0
    ensures var m := MarkReady(g, selected);
      && SameFrame(g, m) && AcceptedSet(m) == AcceptedSet(g) && |m.units| == |g.units|
      && m.counters.graphSteps == g.counters.graphSteps && m.counters.totalChildRuns == g.counters.totalChildRuns
      && (forall u :: u in m.units ==> m.units[u].status in {Pending, Ready, Accepted})
      && (forall u :: u in m.units && m.units[u].status != Accepted ==> m.units[u].attempts.Total() == 0)
      && (forall u :: u in selected ==> u in m.units && m.units[u].status == Ready)
  {
    var m := MarkReady(g, selected);
    MarkFrame(g, selected);
    MarkedUnits(g, selected);
    MarkedAccepted(g, m, selected);
    hide MarkReady, AcceptedSet, DependencyReady;
    assert |m.units| == |m.units.Keys| == |g.units.Keys| == |g.units|;
  }

  lemma MarkedUnits(g: Graph, selected: seq<Id>)
    requires forall u :: u in selected ==> u in ReadyUnits(g)
    ensures var m := MarkReady(g, selected);
      && m.units.Keys == g.units.Keys
      && (forall u :: u in selected ==> u in m.units && m.units[u] == g.units[u].(status := Ready))
      && (forall u :: u in m.units && u !in selected ==> m.units[u] == g.units[u])
    ensures forall u :: u in selected ==> g.units[u].status != Accepted
  {
    hide DependencyReady;
  }

  lemma MarkedAccepted(g: Graph, m: Graph, selected: seq<Id>)
    requires m.units.Keys == g.units.Keys
    requires forall u :: u in selected ==> u in m.units && m.units[u].status == Ready && g.units[u].status != Accepted
    requires forall u :: u in m.units && u !in selected ==> m.units[u] == g.units[u]
    ensures AcceptedSet(m) == AcceptedSet(g)
  {
  }

  lemma RoundEnds(k: Graph, now: nat)
    requires Smooth(k)
    ensures Smooth(Refresh(k, now)) && AcceptedSet(Refresh(k, now)) == AcceptedSet(k)
  {
    hide WellFormed, StatusesOk, OutputsOk, Budgets, StatusSound, Exact, RefreshCounts, RefreshStatus;
    RefreshKeeps(k, now);
    RefreshCountsOnly(k);
    RefreshStatusOnly(RefreshCounts(k), now);
    StaysConverging(RefreshCounts(k), now);
  }

  // ---------------------------------------------------------------- many rounds

  datatype Round = Round(outcomes: map<Id, RoundOutcome>, now: nat)

  ghost function AfterRounds(g: Graph, rounds: seq<Round>, width: Option<int>): Graph
    decreases |rounds|
  {
    if rounds == [] then g
    else
      var last := rounds[|rounds| - 1];
      After(AfterRounds(g, rounds[..|rounds| - 1], width), Advance(last.outcomes, width), last.now)
  }

  /** In every round the units it selects succeed. */
  ghost predicate GoodRounds(g: Graph, rounds: seq<Round>, width: Option<int>)
    decreases |rounds|
  {
    rounds == [] ||
    var front, last := rounds[..|rounds| - 1], rounds[|rounds| - 1];
    GoodRounds(g, front, width) && RoundSucceeds(AfterRounds(g, front, width), last.outcomes, width)
  }

  lemma {:induction false} GoodPrefix(g: Graph, rounds: seq<Round>, width: Option<int>, k: nat)
    requires GoodRounds(g, rounds, width) && k <= |rounds|
    ensures GoodRounds(g, rounds[..k], width)
    decreases |rounds|
  {
    if k < |rounds| {
      var front := rounds[..|rounds| - 1];
      GoodPrefix(g, front, width, k);
      assert front[..k] == rounds[..k];
    } else {
      assert rounds[..k] == rounds;
    }
  }

  lemma {:induction false} RoundsSmooth(g: Graph, rounds: seq<Round>, width: Option<int>)
    requires Invariant(g) && Smooth(g) && GoodRounds(g, rounds, width) && (width.Some? ==> width.value >= 1)
    ensures var h := AfterRounds(g, rounds, width); Invariant(h) && Smooth(h) && SameFrame(g, h)
    decreases |rounds|
  {
    hide Invariant, Smooth, RoundSucceeds, After, AcceptedSet, ParallelReady;
    if rounds != [] {
      var front, last := rounds[..|rounds| - 1], rounds[|rounds| - 1];
      RoundsSmooth(g, front, width);
      var b := AfterRounds(g, front, width);
      OneRound(b, last.outcomes, width, last.now);
      FrameTransitive(g, b, After(b, Advance(last.outcomes, width), last.now));
    }
  }

  /** What the last of some rounds accepts. */
  lemma LastRound(g: Graph, rounds: seq<Round>, width: Option<int>)
    requires Invariant(g) && Smooth(g) && GoodRounds(g, rounds, width)
    requires (width.Some? ==> width.value >= 1) && rounds != []
    ensures var b := AfterRounds(g, rounds[..|rounds| - 1], width);
      && Invariant(b) && Smooth(b) && SameFrame(g, b)
      && AcceptedSet(AfterRounds(g, rounds, width))
         == AcceptedSet(b) + if AllAccepted(b) then {} else Elements(ParallelReady(b, Room(b, width)))
  {
    hide Invariant, Smooth, RoundSucceeds, After, AcceptedSet, ParallelReady, AllAccepted;
    var front, last := rounds[..|rounds| - 1], rounds[|rounds| - 1];
    RoundsSmooth(g, front, width);
    var b := AfterRounds(g, front, width);
    OneRound(b, last.outcomes, width, last.now);
  }

  /** A round of an unfinished graph accepts something new. */
  lemma RoundProgress(b: Graph, room: nat)
    requires Smooth(b) && !AllAccepted(b) && room >= 1
    ensures ParallelReady(b, room) != [] && forall u :: u in ParallelReady(b, room) ==>
      u in b.units && u !in AcceptedSet(b)
  {
    hide ParallelReady, DependencyReady, Acyclic, ShapeOk, OutputsOk, Budgets, StatusSound;
    SomethingIsReady(b);
    ParallelSelection(b, room);
    ParallelIsReady(b, room);
    var v :| v in ReadyUnits(b);
  }

  lemma {:induction false} AtLeastOneEach(g: Graph, rounds: seq<Round>, width: Option<int>)
    requires Invariant(g) && Smooth(g) && GoodRounds(g, rounds, width) && (width.Some? ==> width.value >= 1)
    ensures var h := AfterRounds(g, rounds, width); AllAccepted(h) || |AcceptedSet(h)| >= |rounds|
    decreases |rounds|
  {
    hide Invariant, RoundSucceeds, After, ParallelReady, Smooth, AllAccepted, AcceptedSet;
    if rounds != [] {
      var front := rounds[..|rounds| - 1];
      AtLeastOneEach(g, front, width);
      LastRound(g, rounds, width);
      var b, h := AfterRounds(g, front, width), AfterRounds(g, rounds, width);
      RoundsSmooth(g, rounds, width);
      FrameBetween(g, b, h);
      if AllAccepted(b) { AcceptedStays(b, h); } else { OneMoreAccepted(b, h, width); }
    }
  }

  lemma FrameBetween(g: Graph, b: Graph, h: Graph)
    requires SameFrame(g, b) && SameFrame(g, h)
    ensures SameFrame(b, h)
  {
    forall u | u in b.units ensures SameContract(b.units[u], h.units[u]) {
      assert SameContract(g.units[u], b.units[u]) && SameContract(g.units[u], h.units[u]);
    }
  }

  lemma OneMoreAccepted(b: Graph, h: Graph, width: Option<int>)
    requires Smooth(b) && !AllAccepted(b) && (width.Some? ==> width.value >= 1)
    requires AcceptedSet(h) == AcceptedSet(b) + Elements(ParallelReady(b, Room(b, width)))
    ensures |AcceptedSet(h)| >= |AcceptedSet(b)| + 1
  {
    hide ParallelReady, AllAccepted, AcceptedSet;
    assert LimitsOk(b.limits) by { SmoothAcyclic(b); }
    RoundProgress(b, Room(b, width));
    var picked := ParallelReady(b, Room(b, width));
    assert picked[0] in picked && picked[0] !in AcceptedSet(b);
    SubsetSize(AcceptedSet(b) + {picked[0]}, AcceptedSet(h));
  }

  lemma AcceptedStays(b: Graph, h: Graph)
    requires AllAccepted(b) && SameFrame(b, h) && AcceptedSet(b) <= AcceptedSet(h)
    ensures AllAccepted(h)
  {
    forall u | u in h.units ensures h.units[u].status == Accepted { assert u in AcceptedSet(b); }
  }

  /** The units of depth at most `k`. */
  ghost function Levels(g: Graph, k: nat): set<Id>
    requires Acyclic(Arcs(g))
  {
    set v | v in g.units && DepthOf(Arcs(g), g.units.Keys, v) <= k
  }

  lemma SmoothAcyclic(g: Graph)
    requires Smooth(g)
    ensures Acyclic(Arcs(g)) && ShapeOk(g) && WellFormed(g)
  {
    LooseParts(g);
  }

  lemma SameLevels(g: Graph, b: Graph, k: nat)
    requires Acyclic(Arcs(g)) && SameFrame(g, b)
    ensures Acyclic(Arcs(b)) && Levels(g, k) == Levels(b, k)
  {
    FrameArcs(g, b);
  }

  /** Ready units are at most one level below what is accepted. */
  lemma ReadyLevel(b: Graph, k: nat)
    requires WellFormed(b) && AcceptedSet(b) <= Levels(b, k)
    ensures ReadyUnits(b) <= Levels(b, k + 1) && Levels(b, k) <= Levels(b, k + 1)
  {
    hide Arcs, Acyclic, ShapeOk, DepthOf;
    forall v | v in ReadyUnits(b) ensures v in Levels(b, k + 1) {
      forall p | p in b.units.Keys && Edge(p, v) in Arcs(b) ensures DepthOf(Arcs(b), b.units.Keys, p) <= k {
        assert p in AcceptedSet(b);
      }
      DepthBound(Arcs(b), b.units.Keys, v, k);
    }
  }

  /** No round gets ahead of the levels. */
  lemma {:induction false} WithinLevels(g: Graph, rounds: seq<Round>, width: Option<int>)
    requires Invariant(g) && Smooth(g) && GoodRounds(g, rounds, width) && (width.Some? ==> width.value >= 1)
    requires AcceptedSet(g) == {} && Acyclic(Arcs(g))
    ensures AcceptedSet(AfterRounds(g, rounds, width)) <= Levels(g, |rounds|)
    decreases |rounds|
  {
    hide Invariant, Smooth, RoundSucceeds, After, ParallelReady, AcceptedSet, Acyclic, Arcs, ReadyUnits;
    hide Levels, AllAccepted, SameFrame, Room;
    if rounds != [] {
      var front := rounds[..|rounds| - 1];
      WithinLevels(g, front, width);
      LastRound(g, rounds, width);
      var b := AfterRounds(g, front, width);
      LevelsGrow(g, b, |front|, Room(b, width));
    }
  }

  /** What a round selects lies at most one level below what is accepted. */
  lemma LevelsGrow(g: Graph, b: Graph, k: nat, room: nat)
    requires Smooth(b) && SameFrame(g, b) && Acyclic(Arcs(g)) && AcceptedSet(b) <= Levels(g, k)
    ensures AcceptedSet(b) + Elements(ParallelReady(b, room)) <= Levels(g, k + 1) && AcceptedSet(b) <= Levels(g, k + 1)
  {
    hide Smooth, ParallelReady, AcceptedSet, Acyclic, Arcs, ReadyUnits, Levels, SameFrame;
    SmoothAcyclic(b);
    SameLevels(g, b, k);
    SameLevels(g, b, k + 1);
    ReadyLevel(b, k);
    ParallelIsReady(b, room);
  }

  // ---------------------------------------------------------------- nothing keeps units apart

  ghost predicate DistinctOwners(g: Graph) {
    forall u, v :: u in g.units && v in g.units && u != v ==> g.units[u].ownership != g.units[v].ownership
  }

  /** With an owner for each unit and room for all, a round selects everything ready. */
  lemma SelectsAllReady(b: Graph, room: nat)
    requires DistinctOwners(b) && room >= |b.units|
    ensures Elements(ParallelReady(b, room)) == ReadyUnits(b)
  {
    hide ParallelReady, DependencyReady, LeastOfOwner;
    ParallelSelection(b, room);
    ParallelIsReady(b, room);
    var picked := ParallelReady(b, room);
    if |picked| < room {
      forall v | v in ReadyUnits(b) ensures v in picked {
        assert OwnerIn(b, picked, v);
      }
    } else {
      forall i | 0 <= i < |picked| ensures picked[i] in b.units.Keys {
        assert picked[i] in picked && picked[i] in ReadyUnits(b);
      }
      DistinctBound(picked, b.units.Keys);
      assert |b.units| == |b.units.Keys|;
      DistinctCovers(picked, b.units.Keys);
    }
  }

  /** When exactly the levels up to `k` are accepted, exactly the next level is ready. */
  lemma NextLevelReady(b: Graph, k: nat)
    requires Smooth(b) && WellFormed(b) && AcceptedSet(b) == Levels(b, k)
    ensures AcceptedSet(b) + ReadyUnits(b) == Levels(b, k + 1)
  {
    hide Arcs, Acyclic, ShapeOk, DepthOf, Loose;
    ReadyLevel(b, k);
    forall v | v in Levels(b, k + 1) ensures v in AcceptedSet(b) + ReadyUnits(b) {
      if v !in AcceptedSet(b) {
        forall e | e in Arcs(b) && e.to == v ensures e.from in b.units && b.units[e.from].status == Accepted {
          ArcEnds(b, e);
          PredecessorShallower(Arcs(b), b.units.Keys, e.from, v);
          assert e.from in Levels(b, k);
        }
        assert DependencyReady(b, v);
      }
    }
  }

  lemma ArcEnds(b: Graph, e: Edge)
    requires ShapeOk(b) && e in Arcs(b)
    ensures e.from in b.units && e.to in b.units
  {
    if e !in b.edges { assert UnitOk(b, e.to); }
  }

  /** From one level to the next. */
  lemma LevelStep(g: Graph, b: Graph, k: nat, width: Option<int>)
    requires Smooth(b) && SameFrame(g, b) && Acyclic(Arcs(g)) && AcceptedSet(b) == Levels(g, k)
    requires DistinctOwners(g) && Room(g, width) >= |g.units|
    ensures AcceptedSet(b) + (if AllAccepted(b) then {} else Elements(ParallelReady(b, Room(b, width)))) ==
      Levels(g, k + 1)
  {
    hide Smooth, ParallelReady, AcceptedSet, Acyclic, Arcs, ReadyUnits, AllAccepted, DistinctOwners, Levels;
    hide Room, SameFrame;
    SmoothAcyclic(b);
    SameLevels(g, b, k);
    SameLevels(g, b, k + 1);
    SameOwners(g, b, width);
    SelectsAllReady(b, Room(b, width));
    NextLevelReady(b, k);
    if AllAccepted(b) { NothingReady(b); }
  }

  lemma {:induction false} ExactlyLevels(g: Graph, rounds: seq<Round>, width: Option<int>)
    requires Invariant(g) && Smooth(g) && GoodRounds(g, rounds, width) && (width.Some? ==> width.value >= 1)
    requires AcceptedSet(g) == {} && Acyclic(Arcs(g)) && DistinctOwners(g) && Room(g, width) >= |g.units|
    ensures AcceptedSet(AfterRounds(g, rounds, width)) == Levels(g, |rounds|)
    decreases |rounds|
  {
    hide Invariant, Smooth, RoundSucceeds, After, ParallelReady, AcceptedSet, Acyclic, Arcs, AllAccepted;
    hide DistinctOwners, Levels, Room, SameFrame;
    if rounds == [] {
      LevelZero(g);
    } else {
      var front := rounds[..|rounds| - 1];
      ExactlyLevels(g, front, width);
      LastRound(g, rounds, width);
      LevelStep(g, AfterRounds(g, front, width), |front|, width);
    }
  }

  lemma LevelZero(g: Graph)
    requires Acyclic(Arcs(g))
    ensures Levels(g, 0) == {}
  {
  }

  lemma SameOwners(g: Graph, b: Graph, width: Option<int>)
    requires SameFrame(g, b)
    ensures DistinctOwners(g) ==> DistinctOwners(b)
    ensures Room(g, width) == Room(b, width) && |g.units| == |b.units|
  {
    assert |b.units| == |b.units.Keys| == |g.units.Keys| == |g.units|;
    if DistinctOwners(g) {
      forall u, v | u in b.units && v in b.units && u != v ensures b.units[u].ownership != b.units[v].ownership {
        assert SameContract(g.units[u], b.units[u]) && SameContract(g.units[v], b.units[v]);
      }
    }
  }

  lemma NothingReady(b: Graph)
    requires AllAccepted(b)
    ensures ReadyUnits(b) == {}
  {
  }
}
