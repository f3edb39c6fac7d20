/**
 * The summary of an evaluation log and its score.  Ratios are exact; medians and means of
 * measured times are inputs, as are the other measurements that only enter through a clamp.
 */
module Scorecard {
  import opened Basics
  import opened Evaluation

  datatype Tally = Tally(
    completed: nat, recallTasks: nat, usefulRecallTasks: nat,
    recalled: nat, useful: nat, misleading: nat, stale: nat,
    reciprocals: nat, reciprocalSum: real)

  const NO_TALLY := Tally(0, 0, 0, 0, 0, 0, 0, 0, 0.0)

  /** The best rank of each recalled record. */
  function RankMap(recalls: seq<Event>): map<Rid, int>
    requires forall i :: 0 <= i < |recalls| ==> recalls[i].Recall?
    decreases |recalls|
  {
    if recalls == [] then map[] else RankRecords(RankMap(recalls[..|recalls| - 1]), recalls[|recalls| - 1].records)
  }

  function RankRecords(ranks: map<Rid, int>, records: seq<Recalled>): map<Rid, int>
    decreases |records|
  {
    if records == [] then ranks
    else
      var front, r := RankRecords(ranks, records[..|records| - 1]), records[|records| - 1];
      if r.id !in front || r.rank < front[r.id] then front[r.id := r.rank] else front
  }

  function UsefulRanks(f: Event, ranks: map<Rid, int>): set<int>
    requires f.Finished?
  {
    set r | r in f.useful && r in ranks :: ranks[r]
  }

  lemma {:induction false} LeastRank(s: set<int>) returns (m: int)
    requires s != {}
    ensures m in s && forall x :: x in s ==> m <= x
    decreases |s|
  {
    if forall x :: x !in s { assert false; }
    var was :| was in s;
    m := was;
    if s - {was} != {} {
      var n := LeastRank(s - {was});
      if n < m { m := n; }
      forall x | x in s ensures m <= x { assert x == was || x in s - {was}; }
    } else {
      assert s == {was};
    }
  }

  lemma LeastRankExists(s: set<int>)
    requires s != {}
    ensures exists m :: m in s && forall x :: x in s ==> m <= x
  {
    var m := LeastRank(s);
  }

  function MinRank(s: set<int>): (m: int)
    requires s != {}
    ensures m in s && forall x :: x in s ==> m <= x
  {
    LeastRankExists(s);
    var m :| m in s && forall x :: x in s ==> m <= x;
    m
  }

  function Members(s: seq<Rid>): set<Rid> { set r | r in s }

  /** What one finished task adds to the summary. */
  function AddTask(t: Tally, f: Event, ranks: map<Rid, int>, hasRecall: bool): Tally
    requires f.Finished? && forall r :: r in ranks ==> ranks[r] >= 1
  {
    var best := UsefulRanks(f, ranks);
    Tally(
      t.completed + 1,
      t.recallTasks + if hasRecall then 1 else 0,
      t.usefulRecallTasks + if best != {} then 1 else 0,
      t.recalled + |ranks|, t.useful + |Members(f.useful)|,
      t.misleading + |Members(f.misleading)|, t.stale + |Members(f.stale)|,
      t.reciprocals + if best != {} || ranks != map[] then 1 else 0,
      t.reciprocalSum + if best != {} then 1.0 / MinRank(best) as real else 0.0)
  }

  ghost predicate RanksOk(events: seq<Event>) {
    forall e :: e in events && e.Recall? ==> forall i :: 0 <= i < |e.records| ==> e.records[i].rank >= 1
  }

  function Finishes(events: seq<Event>): seq<Event>
    decreases |events|
  {
    if events == [] then []
    else
      var last := events[|events| - 1];
      Finishes(events[..|events| - 1]) + if last.Finished? then [last] else []
  }

  lemma {:induction false} RankMapKeys(events: seq<Event>, t: Task)
    requires RanksOk(events)
    ensures AllRecalls(events, t) && RankMap(TaskRecalls(events, t)).Keys == RecalledIds(events, t)
    ensures forall r :: r in RankMap(TaskRecalls(events, t)) ==> RankMap(TaskRecalls(events, t))[r] >= 1
    decreases |events|
  {
    RecallsAreRecalls(events, t);
    if events != [] {
      var before, last := events[..|events| - 1], events[|events| - 1];
      RankMapKeys(before, t);
      var recalls := TaskRecalls(before, t);
      if last.Recall? && last.task == t {
        assert TaskRecalls(events, t)[..|TaskRecalls(events, t)| - 1] == recalls;
        assert last in events;
        RankRecordsKeys(RankMap(recalls), last.records);
      } else {
        assert TaskRecalls(events, t) == recalls;
      }
    }
  }

  lemma {:induction false} RankRecordsKeys(ranks: map<Rid, int>, records: seq<Recalled>)
    requires (forall r :: r in ranks ==> ranks[r] >= 1) && forall i :: 0 <= i < |records| ==> records[i].rank >= 1
    ensures RankRecords(ranks, records).Keys == ranks.Keys + IdsOf(records)
    ensures forall r :: r in RankRecords(ranks, records) ==> RankRecords(ranks, records)[r] >= 1
    decreases |records|
  {
    if records != [] {
      var front, last := records[..|records| - 1], records[|records| - 1];
      RankRecordsKeys(ranks, front);
      assert records == front + [last];
      assert IdsOf(records) == IdsOf(front) + {last.id};
    }
  }

  /** The summary's counters over the finishes listed. */
  ghost function TallyOf(events: seq<Event>, finishes: seq<Event>): Tally
    requires RanksOk(events) && forall i :: 0 <= i < |finishes| ==> finishes[i].Finished?
    decreases |finishes|
  {
    if finishes == [] then NO_TALLY
    else
      var f := finishes[|finishes| - 1];
      RankMapKeys(events, f.task);
      AddTask(TallyOf(events, finishes[..|finishes| - 1]), f, RankMap(TaskRecalls(events, f.task)),
              TaskRecalls(events, f.task) != [])
  }

  lemma {:induction false} FinishesAre(events: seq<Event>)
    ensures forall i :: 0 <= i < |Finishes(events)| ==> Finishes(events)[i].Finished? && Finishes(events)[i] in events
    decreases |events|
  {
    if events != [] { FinishesAre(events[..|events| - 1]); }
  }

  /** The first pass: who started, who finished, and each task's recalls. */
  method Group(events: seq<Event>)
    returns (starts: set<Task>, finishers: set<Task>, recalls: map<Task, seq<Event>>, finishes: seq<Event>)
    ensures starts == Starts(events) && finishers == Finishers(events) && finishes == Finishes(events)
    ensures forall t :: (if t in recalls then recalls[t] else []) == TaskRecalls(events, t)
  {
    hide Starts, Finishers, Finishes, TaskRecalls;
    starts, finishers, recalls, finishes := {}, {}, map[], [];
    NobodyYet();
    assert events[..0] == [];
    for k := 0 to |events|
      invariant starts == Starts(events[..k]) && finishers == Finishers(events[..k])
      invariant forall t :: (if t in recalls then recalls[t] else []) == TaskRecalls(events[..k], t)
      invariant finishes == Finishes(events[..k])
    {
      var e := events[k];
      assert events[..k + 1][..k] == events[..k];
      assert events[..k + 1] == events[..k] + [e];
      OneMoreEvent(events[..k], e);
      match e {
        case Started(t, _, _, _) => starts := starts + {t};
        case Recall(t, _, _) => recalls := recalls[t := (if t in recalls then recalls[t] else []) + [e]];
        case Finished(t, _, _, _, _, _, _, _, _, _) =>
          finishes := finishes + [e];
          finishers := finishers + {t};
      }
    }
    assert events[..|events|] == events;
  }

  lemma NobodyYet()
    ensures Starts([]) == {} && Finishers([]) == {} && Finishes([]) == []
    ensures forall t :: TaskRecalls([], t) == []
  {
  }

  lemma OneMoreEvent(events: seq<Event>, e: Event)
    ensures Starts(events + [e]) == Starts(events) + if e.Started? then {e.task} else {}
    ensures Finishers(events + [e]) == Finishers(events) + if e.Finished? then {e.task} else {}
    ensures Finishes(events + [e]) == Finishes(events) + if e.Finished? then [e] else []
    ensures forall t ::
      TaskRecalls(events + [e], t) == TaskRecalls(events, t) + if e.Recall? && e.task == t then [e] else []
  {
    var more := events + [e];
    assert more[..|more| - 1] == events;
    assert forall x :: x in more <==> x in events || x == e;
  }

  /** The second pass adds up the finished tasks. */
  method Summarize(events: seq<Event>) returns (started: nat, unfinished: nat, tally: Tally)
    requires LogOk(events) && RanksOk(events)
    ensures forall i :: 0 <= i < |Finishes(events)| ==> Finishes(events)[i].Finished?
    ensures tally == TallyOf(events, Finishes(events))
    ensures started == |Starts(events)| && unfinished == |Starts(events) - Finishers(events)|
  {
    hide LogOk, TaskRecalls, Finishes, Starts, Finishers, RankMap, AddTask, RecalledIds;
    FinishesAre(events);
    var starts, finishers, recalls, finishes := Group(events);
    tally := NO_TALLY;
    for k := 0 to |finishes|
      invariant tally == TallyOf(events, finishes[..k])
    {
      var f := finishes[k];
      RankMapKeys(events, f.task);
      var own := if f.task in recalls then recalls[f.task] else [];
      assert own == TaskRecalls(events, f.task);
      assert finishes[..k + 1][..k] == finishes[..k];
      tally := AddTask(tally, f, RankMap(own), own != []);
    }
    assert finishes[..|finishes|] == finishes;
    started, unfinished := |starts|, |starts - finishers|;
  }

  function Starts(events: seq<Event>): set<Task> { set e | e in events && e.Started? :: e.task }

  function Finishers(events: seq<Event>): set<Task> { set e | e in events && e.Finished? :: e.task }

  lemma FinishersAre(events: seq<Event>, t: Task)
    ensures t in Finishers(events) <==> IsFinished(events, t)
  {
  }

  // ---------------------------------------------------------------- bounds

  /** The counters hang together: shares are shares, and no more goes wrong than was recalled. */
  ghost predicate Consistent(t: Tally) {
    && t.usefulRecallTasks <= t.recallTasks && t.useful + t.misleading + t.stale <= t.recalled
    && t.reciprocals <= t.completed && 0.0 <= t.reciprocalSum <= t.reciprocals as real
  }

  lemma AddTaskConsistent(t: Tally, f: Event, ranks: map<Rid, int>, hasRecall: bool)
    requires Consistent(t) && f.Finished? && (forall r :: r in ranks ==> ranks[r] >= 1)
    requires NoRepeats(Verdicts(f)) && forall r :: r in Verdicts(f) ==> r in ranks
    requires ranks != map[] ==> hasRecall
    ensures Consistent(AddTask(t, f, ranks, hasRecall))
  {
    VerdictsBound(f, ranks.Keys);
    MembersBound(f.useful);
    MembersBound(f.misleading);
    MembersBound(f.stale);
    assert |ranks| == |ranks.Keys|;
    var best := UsefulRanks(f, ranks);
    if best != {} {
      var m := MinRank(best);
      assert 0.0 <= 1.0 / m as real <= 1.0;
    }
  }

  lemma {:induction false} MembersBound(s: seq<Rid>)
    ensures |Members(s)| <= |s|
    decreases |s|
  {
    if s != [] {
      MembersBound(s[1..]);
      assert Members(s) == {s[0]} + Members(s[1..]);
    }
  }

  /** Verdicts of a finish stay within what its task recalled when the whole log is read. */
  lemma VerdictsRecalled(events: seq<Event>, i: nat)
    requires LogOk(events) && i < |events| && events[i].Finished?
    ensures NoRepeats(Verdicts(events[i])) &&
      forall r :: r in Verdicts(events[i]) ==> r in RecalledIds(events, events[i].task)
  {
    FinishIsConsistent(events, i);
    RecalledGrows(events, i, events[i].task);
  }

  lemma {:induction false} RecalledGrows(events: seq<Event>, n: nat, t: Task)
    requires n <= |events|
    ensures RecalledIds(events[..n], t) <= RecalledIds(events, t)
    decreases |events|
  {
    if n < |events| {
      var before := events[..|events| - 1];
      RecalledGrows(before, n, t);
      assert before[..n] == events[..n];
    } else {
      assert events[..n] == events;
    }
  }

  lemma {:induction false} TallyConsistent(events: seq<Event>, finishes: seq<Event>)
    requires LogOk(events) && RanksOk(events)
    requires forall i :: 0 <= i < |finishes| ==> finishes[i].Finished? && finishes[i] in events
    ensures Consistent(TallyOf(events, finishes)) && TallyOf(events, finishes).completed == |finishes|
    decreases |finishes|
  {
    if finishes != [] {
      var front, f := finishes[..|finishes| - 1], finishes[|finishes| - 1];
      TallyConsistent(events, front);
      RankMapKeys(events, f.task);
      var i :| 0 <= i < |events| && events[i] == f;
      VerdictsRecalled(events, i);
      var ranks := RankMap(TaskRecalls(events, f.task));
      assert TaskRecalls(events, f.task) == [] ==> ranks == map[];
      AddTaskConsistent(TallyOf(events, front), f, ranks, TaskRecalls(events, f.task) != []);
    }
  }

  lemma {:induction false} FinishersCounted(events: seq<Event>)
    requires LogOk(events)
    ensures |Finishes(events)| == |Finishers(events)| && Finishers(events) <= Starts(events)
    decreases |events|
  {
    hide LogOk, Starts, Finishers, Finishes, FindStart, TaskRecalls;
    NobodyYet();
    if events != [] {
      var before, last := events[..|events| - 1], events[|events| - 1];
      LogPrefix(events, |events| - 1);
      FinishersCounted(before);
      assert events == before + [last];
      OneMoreEvent(before, last);
      if last.Finished? {
        NewFinisher(events);
        assert last.task !in Finishers(before) && last.task in Starts(before);
      }
    }
  }

  lemma NewFinisher(events: seq<Event>)
    requires LogOk(events) && events != [] && events[|events| - 1].Finished?
    ensures var before, t := events[..|events| - 1], events[|events| - 1].task;
      t !in Finishers(before) && t in Starts(before)
  {
    var before, last := events[..|events| - 1], events[|events| - 1];
    InOrder(events, |events| - 1);
    var start := FindStart(before, last.task).value;
    assert start in before && start.task in Starts(before);
  }

  /** Started tasks are the completed and the unfinished ones, and the tally is consistent. */
  lemma SummaryAddsUp(events: seq<Event>)
    requires LogOk(events) && RanksOk(events)
    ensures forall i :: 0 <= i < |Finishes(events)| ==> Finishes(events)[i].Finished?
    ensures TallyOf(events, Finishes(events)).completed + |Starts(events) - Finishers(events)| == |Starts(events)|
    ensures Consistent(TallyOf(events, Finishes(events)))
  {
    FinishesAre(events);
    TallyConsistent(events, Finishes(events));
    FinishersCounted(events);
    var s, f := Starts(events), Finishers(events);
    assert s == f + (s - f);
  }

  // ---------------------------------------------------------------- the score

  /** Measurements that enter the score only through a clamp, a threshold or a test for zero. */
  datatype Measures = Measures(
    timeReduction: Option<real>, hypothesisReduction: Option<real>,
    repositories: nat, knownProject: nat, crossProject: nat,
    devices: nat, knownDevice: nat, crossDevice: nat,
    compression: Option<real>, privacyViolations: nat)

  datatype Component = Component(max: real, score: Option<real>)

  function Clamp(x: real): real { if x < 0.0 then 0.0 else if x > 1.0 then 1.0 else x }

  function Ratio(a: nat, b: nat): real
    requires b > 0
  {
    a as real / b as real
  }

  function Reduction(max: real, percent: Option<real>): Component {
    Component(max, if percent.Some? then Some(max * Clamp(percent.value / 40.0)) else None)
  }

  function Transfer(places: nat, known: nat, cross: nat): Component {
    Component(10.0, if places >= 2 && known >= 3 then Some(10.0 * Clamp(Ratio(cross, known) / 0.25)) else None)
  }

  function Scores(t: Tally, m: Measures): seq<Component> {
    [
      Component(20.0, if t.recallTasks >= 3 && t.reciprocals > 0 then
                        Some(12.0 * Ratio(t.usefulRecallTasks, t.recallTasks)
                          + 8.0 * (t.reciprocalSum / t.reciprocals as real))
                      else None),
      Reduction(20.0, m.timeReduction),
      Reduction(15.0, m.hypothesisReduction),
      Transfer(m.repositories, m.knownProject, m.crossProject),
      Transfer(m.devices, m.knownDevice, m.crossDevice),
      Component(10.0, if t.recalled >= 5 then Some(10.0 * (1.0 - Ratio(t.misleading, t.recalled))) else None),
      Component(5.0, if t.stale + t.misleading > 0 then Some(5.0 * Ratio(t.stale, t.stale + t.misleading)) else None),
      Component(5.0, Some(if m.privacyViolations == 0 then 5.0 else 0.0)),
      Component(5.0, if m.compression.Some? then Some(5.0 * Clamp(m.compression.value / 0.90)) else None)
    ]
  }

  function Available(cs: seq<Component>): real {
    if cs == [] then 0.0 else (if cs[0].score.Some? then cs[0].max else 0.0) + Available(cs[1..])
  }

  function Earned(cs: seq<Component>): real {
    if cs == [] then 0.0 else (if cs[0].score.Some? then cs[0].score.value else 0.0) + Earned(cs[1..])
  }

  /** The provisional score; there is none when nothing could be scored. */
  function Provisional(cs: seq<Component>): Option<real> {
    if Available(cs) == 0.0 then None else Some(Earned(cs) / Available(cs) * 100.0)
  }

  function Total(cs: seq<Component>): real { if cs == [] then 0.0 else cs[0].max + Total(cs[1..]) }

  ghost predicate InRange(c: Component) {
    c.max >= 0.0 && (c.score.Some? ==> 0.0 <= c.score.value <= c.max)
  }

  lemma RatioBounds(a: nat, b: nat)
    requires b > 0 && a <= b
    ensures 0.0 <= Ratio(a, b) <= 1.0
  {
  }

  lemma ShareBounds(x: real, y: real)
    requires 0.0 <= x <= y && y > 0.0
    ensures 0.0 <= x / y <= 1.0
  {
  }

  /** Each component of the score of a consistent tally lies between zero and its maximum. */
  lemma ComponentsInRange(t: Tally, m: Measures)
    requires Consistent(t)
    ensures forall i :: 0 <= i < |Scores(t, m)| ==> InRange(Scores(t, m)[i])
  {
    if t.recallTasks >= 3 && t.reciprocals > 0 {
      RatioBounds(t.usefulRecallTasks, t.recallTasks);
      ShareBounds(t.reciprocalSum, t.reciprocals as real);
    }
    if t.recalled >= 5 { RatioBounds(t.misleading, t.recalled); }
    if t.stale + t.misleading > 0 { RatioBounds(t.stale, t.stale + t.misleading); }
  }

  lemma {:induction false} SumsInRange(cs: seq<Component>)
    requires forall i :: 0 <= i < |cs| ==> InRange(cs[i])
    ensures 0.0 <= Earned(cs) <= Available(cs) <= Total(cs)
    decreases |cs|
  {
    if cs != [] {
      assert InRange(cs[0]);
      SumsInRange(cs[1..]);
    }
  }

  lemma {:induction false} AvailableAtLeast(cs: seq<Component>, i: nat)
    requires i < |cs| && cs[i].score.Some? && forall j :: 0 <= j < |cs| ==> cs[j].max >= 0.0
    ensures Available(cs) >= cs[i].max
    decreases |cs|
  {
    if i > 0 { AvailableAtLeast(cs[1..], i - 1); } else { AvailableNonNegative(cs[1..]); }
  }

  lemma {:induction false} AvailableNonNegative(cs: seq<Component>)
    requires forall j :: 0 <= j < |cs| ==> cs[j].max >= 0.0
    ensures Available(cs) >= 0.0
    decreases |cs|
  {
    if cs != [] { AvailableNonNegative(cs[1..]); }
  }

  lemma TotalIsHundred(t: Tally, m: Measures)
    ensures Total(Scores(t, m)) == 100.0
  {
    var cs := Scores(t, m);
    assert |cs| == 9;
    assert Total(cs[9..]) == 0.0;
    assert Total(cs[8..]) == 5.0 by { assert cs[8..][1..] == cs[9..]; }
    assert Total(cs[7..]) == 10.0 by { assert cs[7..][1..] == cs[8..]; }
    assert Total(cs[6..]) == 15.0 by { assert cs[6..][1..] == cs[7..]; }
    assert Total(cs[5..]) == 25.0 by { assert cs[5..][1..] == cs[6..]; }
    assert Total(cs[4..]) == 35.0 by { assert cs[4..][1..] == cs[5..]; }
    assert Total(cs[3..]) == 45.0 by { assert cs[3..][1..] == cs[4..]; }
    assert Total(cs[2..]) == 60.0 by { assert cs[2..][1..] == cs[3..]; }
    assert Total(cs[1..]) == 80.0 by { assert cs[1..][1..] == cs[2..]; }
    assert cs[0..] == cs;
  }

  /**
   * For every log the evaluator writes, with ranks from one up: coverage is at most 100, and the
   * provisional score is always defined and lies between 0 and 100.
   */
  lemma ScoreDefinedAndBounded(events: seq<Event>, m: Measures)
    requires LogOk(events) && RanksOk(events)
    ensures forall i :: 0 <= i < |Finishes(events)| ==> Finishes(events)[i].Finished?
    ensures var cs := Scores(TallyOf(events, Finishes(events)), m);
      && 0.0 <= Available(cs) <= 100.0
      && Provisional(cs).Some? && 0.0 <= Provisional(cs).value <= 100.0
  {
    hide Scores, TallyOf, LogOk, Available, Earned;
    SummaryAddsUp(events);
    var t := TallyOf(events, Finishes(events));
    var cs := Scores(t, m);
    ComponentsInRange(t, m);
    SumsInRange(cs);
    TotalIsHundred(t, m);
    PrivacyScored(t, m);
    AvailableAtLeast(cs, 7);
    ShareBounds(Earned(cs), Available(cs));
  }

  lemma PrivacyScored(t: Tally, m: Measures)
    ensures |Scores(t, m)| == 9 && Scores(t, m)[7].score.Some? && Scores(t, m)[7].max == 5.0
  {
  }

  // ---------------------------------------------------------------- what the components mean

  /**
   * The components of the counters.  Retrieval weighs the share of recalling tasks with a useful
   * record twelve and the mean reciprocal rank eight; correctness falls with the share of
   * misleading records; of what went wrong, resistance is the share that was stale.
   */
  lemma CounterScores(t: Tally, m: Measures)
    ensures |Scores(t, m)| == 9
    ensures var c := Scores(t, m)[0];
      && c.max == 20.0 && (c.score.Some? <==> t.recallTasks >= 3 && t.reciprocals > 0)
      && (c.score.Some? ==>
            c.score.value * t.recallTasks as real * t.reciprocals as real ==
              12.0 * t.usefulRecallTasks as real * t.reciprocals as real
              + 8.0 * t.reciprocalSum * t.recallTasks as real)
    ensures var c := Scores(t, m)[5];
      && c.max == 10.0 && (c.score.Some? <==> t.recalled >= 5)
      && (c.score.Some? ==> c.score.value * t.recalled as real == 10.0 * (t.recalled - t.misleading) as real)
    ensures var c := Scores(t, m)[6];
      && c.max == 5.0 && (c.score.Some? <==> t.stale > 0 || t.misleading > 0)
      && (c.score.Some? ==> c.score.value * (t.stale + t.misleading) as real == 5.0 * t.stale as real)
  {
    var cs := Scores(t, m);
    if t.recallTasks >= 3 && t.reciprocals > 0 {
      WeightedShares(t.usefulRecallTasks as real, t.recallTasks as real, t.reciprocalSum, t.reciprocals as real);
    }
    if t.recalled >= 5 { ShareLeft(t.misleading as real, t.recalled as real); }
    if t.stale + t.misleading > 0 { ShareOf(t.stale as real, (t.stale + t.misleading) as real); }
  }

  lemma WeightedShares(a: real, b: real, c: real, d: real)
    requires b > 0.0 && d > 0.0
    ensures (12.0 * (a / b) + 8.0 * (c / d)) * b * d == 12.0 * a * d + 8.0 * c * b
  {
    assert (a / b) * b == a && (c / d) * d == c;
    assert (12.0 * (a / b) + 8.0 * (c / d)) * b * d == 12.0 * ((a / b) * b) * d + 8.0 * ((c / d) * d) * b;
  }

  lemma ShareLeft(a: real, b: real)
    requires b > 0.0
    ensures 10.0 * (1.0 - a / b) * b == 10.0 * (b - a)
  {
    assert (a / b) * b == a;
    assert 10.0 * (1.0 - a / b) * b == 10.0 * (b - (a / b) * b);
  }

  lemma ShareOf(a: real, b: real)
    requires b > 0.0
    ensures 5.0 * (a / b) * b == 5.0 * a
  {
    assert (a / b) * b == a;
    assert 5.0 * (a / b) * b == 5.0 * ((a / b) * b);
  }

  /**
   * The components of the other measurements: nothing up to zero, full marks from forty percent less
   * time or fewer hypotheses, from a quarter of the useful records coming from elsewhere, from ninety
   * percent compression, and in proportion between; privacy is all or nothing.
   */
  lemma MeasureScores(t: Tally, m: Measures)
    ensures |Scores(t, m)| == 9
    ensures var c := Scores(t, m)[1];
      && c.max == 20.0 && (c.score.Some? <==> m.timeReduction.Some?)
      && (c.score.Some? ==> InProportion(c.score.value, 20.0, m.timeReduction.value, 40.0))
    ensures var c := Scores(t, m)[2];
      && c.max == 15.0 && (c.score.Some? <==> m.hypothesisReduction.Some?)
      && (c.score.Some? ==> InProportion(c.score.value, 15.0, m.hypothesisReduction.value, 40.0))
    ensures var c := Scores(t, m)[3];
      && c.max == 10.0 && (c.score.Some? <==> m.repositories >= 2 && m.knownProject >= 3)
      && (c.score.Some? ==> InProportion(c.score.value, 10.0, 4.0 * m.crossProject as real, m.knownProject as real))
    ensures var c := Scores(t, m)[4];
      && c.max == 10.0 && (c.score.Some? <==> m.devices >= 2 && m.knownDevice >= 3)
      && (c.score.Some? ==> InProportion(c.score.value, 10.0, 4.0 * m.crossDevice as real, m.knownDevice as real))
    ensures var c := Scores(t, m)[7]; c.max == 5.0 && c.score == Some(if m.privacyViolations > 0 then 0.0 else 5.0)
    ensures var c := Scores(t, m)[8];
      && c.max == 5.0 && (c.score.Some? <==> m.compression.Some?)
      && (c.score.Some? ==> InProportion(c.score.value, 5.0, m.compression.value, 0.9))
  {
    if m.timeReduction.Some? { ClampedShare(20.0, m.timeReduction.value, 40.0); }
    if m.hypothesisReduction.Some? { ClampedShare(15.0, m.hypothesisReduction.value, 40.0); }
    if m.repositories >= 2 && m.knownProject >= 3 { QuarterShare(m.crossProject, m.knownProject); }
    if m.devices >= 2 && m.knownDevice >= 3 { QuarterShare(m.crossDevice, m.knownDevice); }
    if m.compression.Some? { ClampedShare(5.0, m.compression.value, 0.9); }
  }

  /** Nothing up to zero, the maximum from `full` on, in proportion between. */
  ghost predicate InProportion(score: real, max: real, x: real, full: real) {
    && (x <= 0.0 ==> score == 0.0) && (x >= full ==> score == max)
    && (0.0 <= x <= full ==> score * full == max * x)
  }

  lemma ClampedShare(max: real, x: real, full: real)
    requires full > 0.0
    ensures InProportion(max * Clamp(x / full), max, x, full)
  {
    assert (x / full) * full == x;
    if x <= 0.0 {
      assert x / full <= 0.0;
    } else if x >= full {
      assert x / full >= 1.0;
    } else {
      assert 0.0 <= x / full <= 1.0;
      assert max * (x / full) * full == max * ((x / full) * full);
    }
  }

  lemma QuarterShare(cross: nat, known: nat)
    requires known > 0
    ensures InProportion(10.0 * Clamp(Ratio(cross, known) / 0.25), 10.0, 4.0 * cross as real, known as real)
  {
    ClampedShare(10.0, 4.0 * cross as real, known as real);
    var a, b := cross as real, known as real;
    assert (4.0 * a) / b == 4.0 * (a / b) by { assert 4.0 * (a / b) * b == 4.0 * ((a / b) * b) == 4.0 * a; }
    assert (a / b) / 0.25 == 4.0 * (a / b);
  }

  /** Another score for one component moves what is earned by the difference, what is available by its maximum. */
  lemma {:induction false} OneComponent(cs: seq<Component>, i: nat, score: Option<real>)
    requires i < |cs|
    ensures var more := cs[i := cs[i].(score := score)];
      && Earned(more) - Earned(cs) == Points(score) - Points(cs[i].score)
      && Available(more) - Available(cs) ==
         (if score.Some? then cs[i].max else 0.0) - (if cs[i].score.Some? then cs[i].max else 0.0)
    decreases |cs|
  {
    var more := cs[i := cs[i].(score := score)];
    if i > 0 {
      assert more[1..] == cs[1..][i - 1 := cs[i].(score := score)];
      OneComponent(cs[1..], i - 1, score);
    } else {
      assert more[1..] == cs[1..];
    }
  }

  function Points(score: Option<real>): real { if score.Some? then score.value else 0.0 }

  /** The provisional score is what is earned, in percent of what was available. */
  lemma ProvisionalMeans(cs: seq<Component>)
    ensures Provisional(cs).None? <==> Available(cs) == 0.0
    ensures Provisional(cs).Some? ==> Provisional(cs).value * Available(cs) == 100.0 * Earned(cs)
  {
    if Available(cs) != 0.0 {
      var e, a := Earned(cs), Available(cs);
      assert (e / a) * a == e;
      assert e / a * 100.0 * a == 100.0 * ((e / a) * a);
    }
  }
}
