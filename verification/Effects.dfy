/**
 * What a call that is carried out makes of a reachable snapshot, in plain terms: the unit's row,
 * the counters, the times and what the graph status says about the units afterwards.
 */
module Effects {
  import opened Basics
  import opened Digraph
  import opened Frame
  import opened Invariants
  import opened JsonValues
  import opened Locality
  import opened Samples
  import opened State
  import opened Stopping

  /** The graph status is the one that the units call for. */
  ghost predicate TellsUnits(h: Graph) {
    h.status ==
      if forall u :: u in h.units ==> h.units[u].status == Accepted then GraphAccepted
      else if exists u :: u in h.units && h.units[u].status == Failed then RetryPending
      else GraphRunning
  }

  /** One step with one child run was counted now; the graph has ended now if it is accepted. */
  ghost predicate Charged(g: Graph, h: Graph, now: nat) {
    && h.counters.graphSteps == g.counters.graphSteps + 1
    && h.counters.totalChildRuns == g.counters.totalChildRuns + 1
    && h.counters.parallelWidth == g.counters.parallelWidth
    && h.times.started == g.times.started && h.times.updated == now
    && h.times.ended == (if h.status == GraphAccepted then Some(now) else g.times.ended)
    && h.constraints == g.constraints && h.failureReason == g.failureReason
  }

  ghost predicate NoRetry(g: Graph, h: Graph) {
    h.counters.retries == g.counters.retries && h.sendBacks == g.sendBacks
  }

  // ---------------------------------------------------------------- the pieces

  lemma RefreshTells(k: Graph, now: nat)
    requires StatusesOk(k) && k.status != ConvergedFailed
    ensures TellsUnits(Refresh(k, now))
  {
    hide RefreshCounts;
    RefreshCountsOnly(k);
  }

  lemma RejectTells(h: Graph, u: Id)
    requires h.status == RetryPending && u in h.units && h.units[u].status == Failed
    ensures TellsUnits(h)
  {
  }

  lemma RefreshCharges(g: Graph, k: Graph, now: nat)
    requires k.status != ConvergedFailed
    requires k.times == g.times.(updated := now) && k.constraints == g.constraints && k.failureReason == g.failureReason
    requires k.counters == CountStep(g, now, true).counters
    ensures Charged(g, Refresh(k, now), now)
    ensures k.sendBacks == g.sendBacks ==> NoRetry(g, Refresh(k, now))
  {
    hide RefreshCounts;
    RefreshCountsOnly(k);
  }

  lemma RejectCharges(g: Graph, k: Graph, u: Id, note: FailureNote, now: nat)
    requires u in k.units && k.times == g.times.(updated := now)
    requires k.constraints == g.constraints && k.failureReason == g.failureReason
    requires k.counters == CountStep(g, now, true).counters
    ensures Charged(g, Reject(k, u, note), now)
  {
    hide WithStatus, TotalAttempts, Downstream;
  }

  // ---------------------------------------------------------------- complete and fail

  /** A completion accepts an output that fits, with one check more, and rejects any other. */
  lemma CompleteDoes(g: Graph, u: Id, output: Json, now: nat)
    requires Reachable(g) && u in g.units && CompleteAnswer(g, u, now) == CarriedOut
    ensures CompleteUnit(g, u, output, now).Ok?
    ensures var h, was := CompleteUnit(g, u, output, now).value, g.units[u].attempts;
      && Charged(g, h, now) && TellsUnits(h)
      && (if Conforms(output, g.units[u].schema) then
            AcceptsLocally(g, h, u, output, Attempts(was.produce, was.check + 1, was.correct)) && NoRetry(g, h)
          else FailsLocally(g, h, u, SchemaInvalid, was))
  {
    hide Reachable, Invariant, Loose, WellFormed, StatusesOk, OutputsOk, Budgets, StatusSound, Conforms, Charged;
    hide CompleteUnit, TellsUnits, AcceptsLocally, FailsLocally, UsedUp, Exhausted, MayStep, OutOfTime, Waiting;
    hide NoRetry;
    Known(g);
    CompleteShape(g, u, output, now);
    CompleteEffect(g, u, output, now);
    CheckCounted(g, u);
    UsedUpIff(g, g.units[u]);
    StepKeepsReachable(g, Complete(u, output), now);
    CompleteCharges(g, u, output, now);
    CompleteTells(g, u, output, now);
  }

  lemma StepKeepsReachable(g: Graph, call: Call, now: nat)
    requires Reachable(g)
    ensures StatusesOk(After(g, call, now))
  {
    hide Reachable, After;
    StepReachable(g, call, now);
    Known(After(g, call, now));
  }

  /** A unit that may be attempted is nowhere near the number that attempts are cut off at. */
  lemma CheckCounted(g: Graph, u: Id)
    requires WellFormed(g) && u in g.units && !UsedUp(g, g.units[u])
    ensures var was := g.units[u].attempts; was.BumpCheck() == Attempts(was.produce, was.check + 1, was.correct)
  {
    hide Acyclic, UnitOk;
  }

  lemma CompleteShape(g: Graph, u: Id, output: Json, now: nat)
    requires WellFormed(g) && StatusesOk(g) && CompleteAnswer(g, u, now) == CarriedOut
    ensures MayStep(g, now, true) && u in g.units && !Exhausted(g, g.units[u])
    ensures var h := CountStep(g, now, true);
      CompleteUnit(g, u, output, now) == Ok(
        if !Conforms(output, g.units[u].schema) then Reject(h, u, SchemaInvalid)
        else Refresh(SetAccepted(SetAttempts(h, u, g.units[u].attempts.BumpCheck()), u, output), now))
  {
    hide WellFormed, StatusesOk, Conforms, Reject, Refresh, UsedUp, Exhausted, DependencyReady, Executable, Waiting;
    StepIff(g, now);
    UsedUpIff(g, g.units[u]);
    SameLimit(g, CountStep(g, now, true), g.units[u]);
    WaitingIff(g, u);
    ExecutableIff(g, u);
  }

  lemma CompleteCharges(g: Graph, u: Id, output: Json, now: nat)
    requires WellFormed(g) && StatusesOk(g) && CompleteAnswer(g, u, now) == CarriedOut
    ensures CompleteUnit(g, u, output, now).Ok? && Charged(g, CompleteUnit(g, u, output, now).value, now)
    ensures Conforms(output, g.units[u].schema) ==> NoRetry(g, CompleteUnit(g, u, output, now).value)
  {
    hide WellFormed, StatusesOk, Conforms, Reject, Refresh, CompleteUnit, Charged, NoRetry, CompleteAnswer;
    CompleteShape(g, u, output, now);
    var h := CountStep(g, now, true);
    RejectCharges(g, h, u, SchemaInvalid, now);
    RefreshCharges(g, SetAccepted(SetAttempts(h, u, g.units[u].attempts.BumpCheck()), u, output), now);
  }

  lemma CompleteTells(g: Graph, u: Id, output: Json, now: nat)
    requires WellFormed(g) && StatusesOk(g) && CompleteAnswer(g, u, now) == CarriedOut
    requires CompleteUnit(g, u, output, now).Ok? && StatusesOk(CompleteUnit(g, u, output, now).value)
    requires !Conforms(output, g.units[u].schema) ==>
      FailsLocally(g, CompleteUnit(g, u, output, now).value, u, SchemaInvalid, g.units[u].attempts)
    ensures TellsUnits(CompleteUnit(g, u, output, now).value)
  {
    hide WellFormed, StatusesOk, Conforms, Reject, Refresh, CompleteUnit, TellsUnits, Downstream, SameRow, ReopenedRow;
    CompleteShape(g, u, output, now);
    var k := SetAccepted(SetAttempts(CountStep(g, now, true), u, g.units[u].attempts.BumpCheck()), u, output);
    if Conforms(output, g.units[u].schema) {
      SameStatuses(k, now);
      RefreshTells(k, now);
    } else {
      RejectTells(CompleteUnit(g, u, output, now).value, u);
    }
  }

  lemma SameStatuses(k: Graph, now: nat)
    ensures StatusesOk(Refresh(k, now)) ==> StatusesOk(k)
  {
    hide Refresh;
    RefreshFrame(k, now);
  }

  /** A failure takes the unit and what is downstream of it back, with one check more. */
  lemma FailDoes(g: Graph, u: Id, note: FailureNote, now: nat)
    requires Reachable(g) && u in g.units && FailAnswer(g, u, now) == CarriedOut
    ensures FailUnit(g, u, note, now).Ok?
    ensures var h, was := FailUnit(g, u, note, now).value, g.units[u].attempts;
      && Charged(g, h, now) && TellsUnits(h)
      && FailsLocally(g, h, u, note, Attempts(was.produce, was.check + 1, was.correct))
  {
    hide Reachable, WellFormed, StatusesOk, OutputsOk, Budgets, StatusSound, Charged, TellsUnits, FailsLocally;
    hide FailUnit, UsedUp, Exhausted, MayStep, OutOfTime, Reject;
    Known(g);
    FailShape(g, u, note, now);
    FailEffect(g, u, note, now);
    CheckCounted(g, u);
    RejectCharges(g, SetAttempts(CountStep(g, now, true), u, g.units[u].attempts.BumpCheck()), u, note, now);
    FailedTells(g, FailUnit(g, u, note, now).value, u, note, g.units[u].attempts.BumpCheck());
  }

  lemma FailShape(g: Graph, u: Id, note: FailureNote, now: nat)
    requires WellFormed(g) && FailAnswer(g, u, now) == CarriedOut
    ensures MayStep(g, now, true) && u in g.units && !Exhausted(g, g.units[u]) && !UsedUp(g, g.units[u])
    ensures var k := SetAttempts(CountStep(g, now, true), u, g.units[u].attempts.BumpCheck());
      FailUnit(g, u, note, now) == Ok(Reject(k, u, note))
  {
    hide WellFormed, Reject, UsedUp, Exhausted;
    StepIff(g, now);
    UsedUpIff(g, g.units[u]);
    SameLimit(g, CountStep(g, now, true), g.units[u]);
  }

  lemma FailedTells(g: Graph, h: Graph, u: Id, note: FailureNote, attempts: Attempts)
    requires FailsLocally(g, h, u, note, attempts)
    ensures TellsUnits(h)
  {
    hide Downstream, SameRow, ReopenedRow, TellsUnits;
    RejectTells(h, u);
  }

  // ---------------------------------------------------------------- record

  /** The attempts with one more of a stage. */
  function OneMore(was: Attempts, stage: Stage): Attempts {
    match stage
    case Produce => Attempts(was.produce + 1, was.check, was.correct)
    case Check => Attempts(was.produce, was.check + 1, was.correct)
    case Correct => Attempts(was.produce, was.check, was.correct + 1)
  }

  /** The value that is judged: what was handed in, or else what the unit has in work. */
  function InHand(g: Graph, u: Id, output: Json): Json {
    if output != Null then output else if u in g.working then g.working[u] else Null
  }

  /**
   * A recorded attempt counts for its stage.  A failure takes the unit back.  A success of
   * produce, or of correct without verification, leaves it produced; a success of check, or of
   * correct with verification, accepts what is in hand if that fits and rejects it otherwise.
   */
  lemma RecordDoes(g: Graph, u: Id, stage: Stage, outcome: Outcome, now: nat)
    requires Reachable(g) && u in g.units && RecordAnswer(g, u, stage, now) == CarriedOut
    ensures RecordAttempt(g, u, stage, outcome, now).Ok?
    ensures var h, attempts := RecordAttempt(g, u, stage, outcome, now).value, OneMore(g.units[u].attempts, stage);
      && Charged(g, h, now) && TellsUnits(h)
      && (if !outcome.ok then FailsLocally(g, h, u, Reason(outcome.reason), attempts)
          else if stage == Produce || (stage == Correct && !outcome.verified) then
            ProducesLocally(g, h, u, outcome.output, attempts) && NoRetry(g, h)
          else if Conforms(InHand(g, u, outcome.output), g.units[u].schema) then
            AcceptsLocally(g, h, u, InHand(g, u, outcome.output), attempts) && NoRetry(g, h)
          else FailsLocally(g, h, u, SchemaInvalid, attempts))
  {
    hide Reachable, WellFormed, StatusesOk, OutputsOk, Budgets, StatusSound, Charged, TellsUnits, FailsLocally;
    hide RecordAttempt, UsedUp, Exhausted, MayStep, OutOfTime, ProducesLocally, AcceptsLocally, Conforms, NoRetry;
    hide MayAttempt, Judge;
    Known(g);
    RecordShape(g, u, stage, outcome, now);
    RecordEffect(g, u, stage, outcome, now);
    StepKeepsReachable(g, Record(u, stage, outcome), now);
    JudgeDoes(g, u, stage, outcome, now);
    var h, attempts := RecordAttempt(g, u, stage, outcome, now).value, g.units[u].attempts.Bump(stage);
    var reason := Reason(outcome.reason);
    if FailsLocally(g, h, u, reason, attempts) { FailedTells(g, h, u, reason, attempts); }
    if FailsLocally(g, h, u, SchemaInvalid, attempts) { FailedTells(g, h, u, SchemaInvalid, attempts); }
  }

  lemma RecordShape(g: Graph, u: Id, stage: Stage, outcome: Outcome, now: nat)
    requires WellFormed(g) && StatusesOk(g) && RecordAnswer(g, u, stage, now) == CarriedOut
    ensures u in g.units && MayAttempt(g, u, stage, now) && g.status != ConvergedFailed
    ensures var k := SetAttempts(CountStep(g, now, true), u, g.units[u].attempts.Bump(stage));
      RecordAttempt(g, u, stage, outcome, now) == Ok(Judge(k, u, stage, outcome, now))
  {
    hide WellFormed, StatusesOk, UsedUp, Exhausted, DependencyReady, Executable, Waiting, Judge, StageLimit;
    hide StageUsedUp;
    StepIff(g, now);
    UsedUpIff(g, g.units[u]);
    StageUsedUpIff(g, g.units[u], stage);
    WaitingIff(g, u);
    ExecutableIff(g, u);
  }

  lemma JudgeDoes(g: Graph, u: Id, stage: Stage, outcome: Outcome, now: nat)
    requires u in g.units && g.status != ConvergedFailed
    requires var k := SetAttempts(CountStep(g, now, true), u, g.units[u].attempts.Bump(stage));
      StatusesOk(Judge(k, u, stage, outcome, now))
    ensures var k := SetAttempts(CountStep(g, now, true), u, g.units[u].attempts.Bump(stage));
      var h := Judge(k, u, stage, outcome, now);
      && Charged(g, h, now)
      && (outcome.ok && (!Judged(stage, outcome) || Conforms(Candidate(g, u, outcome.output), g.units[u].schema)) ==>
            TellsUnits(h) && NoRetry(g, h))
  {
    hide StatusesOk, Conforms, Reject, Refresh, Charged, TellsUnits, NoRetry, Judged, Candidate;
    var k := SetAttempts(CountStep(g, now, true), u, g.units[u].attempts.Bump(stage));
    SameCandidate(g, k, u, outcome.output);
    RejectCharges(g, k, u, Reason(outcome.reason), now);
    RejectCharges(g, k, u, SchemaInvalid, now);
    var a, p := SetAccepted(k, u, Candidate(k, u, outcome.output)), SetProduced(k, u, outcome.output);
    RefreshCharges(g, a, now);
    RefreshCharges(g, p, now);
    SameStatuses(a, now);
    SameStatuses(p, now);
    if StatusesOk(a) { RefreshTells(a, now); }
    if StatusesOk(p) { RefreshTells(p, now); }
  }

  lemma SameCandidate(g: Graph, k: Graph, u: Id, output: Json)
    requires k.working == g.working
    ensures Candidate(k, u, output) == Candidate(g, u, output)
  {
  }
}
