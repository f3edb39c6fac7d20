/**
 * The evaluation log: an append-only record of tasks that are started, may recall memory once
 * and are finished once.
 */
module Evaluation {
  import opened Basics

  type Task = string
  type Rid = string

  datatype Mode = Off | RecallOnly | Full

  datatype SkipReason = ModeOff | ModeRecallOnly | NoReusableLearning | NotVerified | StoreUnavailable | TaskCancelled

  datatype LearnStatus = Learned | Skipped

  datatype Recalled = Recalled(id: Rid, rank: int, repository: string, device: string)

  datatype Event =
    | Started(task: Task, mode: Mode, repository: string, device: string)
    | Recall(task: Task, matchCount: nat, records: seq<Recalled>)
    | Finished(task: Task, mode: Mode, recallCount: nat, usefulCount: nat,
               useful: seq<Rid>, misleading: seq<Rid>, stale: seq<Rid>, learned: seq<Rid>,
               learnStatus: LearnStatus, skipReason: Option<SkipReason>)

  // ---------------------------------------------------------------- reading the log

  /** The last start of a task, searched from the end. */
  function FindStart(events: seq<Event>, t: Task): (start: Option<Event>)
    ensures start.Some? ==> start.value.Started? && start.value.task == t && start.value in events
    ensures start.None? ==> forall e :: e in events && e.Started? ==> e.task != t
    decreases |events|
  {
    if events == [] then None
    else
      var last := events[|events| - 1];
      if last.Started? && last.task == t then Some(last)
      else
        var earlier := FindStart(events[..|events| - 1], t);
        assert forall e :: e in events ==> e in events[..|events| - 1] || e == last;
        earlier
  }

  function TaskRecalls(events: seq<Event>, t: Task): seq<Event>
    decreases |events|
  {
    if events == [] then []
    else
      var last := events[|events| - 1];
      TaskRecalls(events[..|events| - 1], t) + if last.Recall? && last.task == t then [last] else []
  }

  predicate IsFinished(events: seq<Event>, t: Task) {
    exists e :: e in events && e.Finished? && e.task == t
  }

  function IdsOf(records: seq<Recalled>): set<Rid> { set r | r in records :: r.id }

  /** The identifiers of everything a task recalled. */
  function RecalledIds(events: seq<Event>, t: Task): set<Rid>
    decreases |events|
  {
    if events == [] then {}
    else
      var last := events[|events| - 1];
      RecalledIds(events[..|events| - 1], t) + if last.Recall? && last.task == t then IdsOf(last.records) else {}
  }

  function RecallTotal(recalls: seq<Event>): nat
    requires forall i :: 0 <= i < |recalls| ==> recalls[i].Recall?
  {
    if recalls == [] then 0 else recalls[0].matchCount + RecallTotal(recalls[1..])
  }

  predicate NoRepeats<T(==)>(s: seq<T>) { forall i, j :: 0 <= i < j < |s| ==> s[i] != s[j] }

  ghost function Different<T>(s: seq<T>): set<T> { set x | x in s }

  /** No element occurs twice exactly if there are as many different elements as places. */
  lemma {:induction false} NoRepeatsIff<T>(s: seq<T>)
    ensures NoRepeats(s) <==> |Different(s)| == |s|
    decreases |s|
  {
    if s != [] {
      var front, last := s[..|s| - 1], s[|s| - 1];
      NoRepeatsIff(front);
      NoRepeatsFront(s);
      var elements := Different(front);
      assert s == front + [last] && Different(s) == elements + {last};
      if last !in front {
        assert |elements + {last}| == |elements| + 1;
      } else {
        assert elements + {last} == elements;
        DistinctAtMost(front);
      }
    }
  }

  lemma NoRepeatsFront<T>(s: seq<T>)
    requires s != []
    ensures NoRepeats(s) <==> NoRepeats(s[..|s| - 1]) && s[|s| - 1] !in s[..|s| - 1]
  {
  }

  lemma {:induction false} DistinctAtMost<T>(s: seq<T>)
    ensures |Different(s)| <= |s|
    decreases |s|
  {
    if s != [] {
      DistinctAtMost(s[..|s| - 1]);
      assert s == s[..|s| - 1] + [s[|s| - 1]];
      assert Different(s) == Different(s[..|s| - 1]) + {s[|s| - 1]};
    }
  }

  // ---------------------------------------------------------------- the memory loop

  /** `memory_loop_status`: learn status, skip reason and recall count, or a refusal. */
  function MemoryLoopStatus(mode: Mode, recalls: seq<Event>, learned: seq<Rid>, skip: Option<SkipReason>)
    : Option<(LearnStatus, Option<SkipReason>, nat)>
    requires forall i :: 0 <= i < |recalls| ==> recalls[i].Recall?
  {
    match mode
    case Off =>
      if recalls != [] || learned != [] || skip != Some(ModeOff) then None else Some((Skipped, skip, 0))
    case RecallOnly =>
      if |recalls| != 1 || learned != [] || skip != Some(ModeRecallOnly) then None
      else Some((Skipped, skip, RecallTotal(recalls)))
    case Full =>
      if |recalls| != 1 then None
      else if learned != [] then (if skip.Some? then None else Some((Learned, None, RecallTotal(recalls))))
      else if skip.None? || skip.value in {ModeOff, ModeRecallOnly} then None
      else Some((Skipped, skip, RecallTotal(recalls)))
  }

  /**
   * When the memory loop closes: without memory nothing was recalled or learned and the reason says
   * so; with recall alone one recall and nothing learned; in full one recall, and either something
   * learned and no reason, or nothing learned and a reason of the other four.
   */
  lemma LoopClosesIff(mode: Mode, recalls: seq<Event>, learned: seq<Rid>, skip: Option<SkipReason>)
    requires forall i :: 0 <= i < |recalls| ==> recalls[i].Recall?
    ensures MemoryLoopStatus(mode, recalls, learned, skip).Some? <==>
      || (mode == Off && |recalls| == 0 && |learned| == 0 && skip == Some(ModeOff))
      || (mode == RecallOnly && |recalls| == 1 && |learned| == 0 && skip == Some(ModeRecallOnly))
      || (mode == Full && |recalls| == 1 && |learned| > 0 && skip == None)
      || (mode == Full && |recalls| == 1 && |learned| == 0 &&
          (skip == Some(NoReusableLearning) || skip == Some(NotVerified)
           || skip == Some(StoreUnavailable) || skip == Some(TaskCancelled)))
  {
    match skip
    case None =>
    case Some(reason) =>
      match reason
      case ModeOff =>
      case ModeRecallOnly =>
      case NoReusableLearning =>
      case NotVerified =>
      case StoreUnavailable =>
      case TaskCancelled =>
  }

  /** What a closed loop reports: learned if anything was, the reason given, the matches of the recall. */
  lemma LoopReports(mode: Mode, recalls: seq<Event>, learned: seq<Rid>, skip: Option<SkipReason>)
    requires forall i :: 0 <= i < |recalls| ==> recalls[i].Recall?
    requires MemoryLoopStatus(mode, recalls, learned, skip).Some?
    ensures var (status, reason, count) := MemoryLoopStatus(mode, recalls, learned, skip).value;
      && (status == Learned <==> |learned| > 0) && reason == skip
      && count == (if |recalls| == 0 then 0 else recalls[0].matchCount)
  {
    if |recalls| == 1 { assert RecallTotal(recalls) == recalls[0].matchCount + RecallTotal(recalls[1..]); }
  }

  /** What the collector accepts of a finished task's memory fields. */
  predicate CollectorRule(mode: Mode, recall: nat, useful: nat, status: LearnStatus, skip: Option<SkipReason>) {
    && useful <= recall
    && match mode
       case Off => recall == 0 && useful == 0 && status == Skipped && skip == Some(ModeOff)
       case RecallOnly => status == Skipped && skip == Some(ModeRecallOnly)
       case Full =>
         if status == Learned then skip.None?
         else skip.Some? && skip.value in {NoReusableLearning, NotVerified, StoreUnavailable, TaskCancelled}
  }

  // ---------------------------------------------------------------- valid logs

  ghost predicate RecallOk(events: seq<Event>, e: Event)
    requires e.Recall?
  {
    && FindStart(events, e.task).Some? && FindStart(events, e.task).value.mode != Off
    && TaskRecalls(events, e.task) == [] && !IsFinished(events, e.task)
    && e.matchCount == |e.records| && NoRepeats(seq(|e.records|, i requires 0 <= i < |e.records| => e.records[i].id))
  }

  function Verdicts(e: Event): seq<Rid>
    requires e.Finished?
  {
    e.useful + e.misleading + e.stale
  }

  ghost predicate FinishOk(events: seq<Event>, e: Event)
    requires e.Finished?
  {
    && FindStart(events, e.task).Some? && FindStart(events, e.task).value.mode == e.mode
    && !IsFinished(events, e.task)
    && NoRepeats(Verdicts(e)) && (forall r :: r in Verdicts(e) ==> r in RecalledIds(events, e.task))
    && e.usefulCount == |e.useful|
    && AllRecalls(events, e.task)
    && MemoryLoopStatus(e.mode, TaskRecalls(events, e.task), e.learned, e.skipReason)
       == Some((e.learnStatus, e.skipReason, e.recallCount))
  }

  ghost predicate AllRecalls(events: seq<Event>, t: Task) {
    forall i :: 0 <= i < |TaskRecalls(events, t)| ==> TaskRecalls(events, t)[i].Recall?
  }

  ghost predicate Unused(events: seq<Event>, t: Task) { forall e :: e in events ==> e.task != t }

  /** Every event was in order when it was appended. */
  ghost predicate LogOk(events: seq<Event>)
    decreases |events|
  {
    events == [] ||
    var before, last := events[..|events| - 1], events[|events| - 1];
    && LogOk(before)
    && match last
       case Started(t, _, _, _) => Unused(before, t)
       case Recall(_, _, _) => RecallOk(before, last)
       case Finished(_, _, _, _, _, _, _, _, _, _) => FinishOk(before, last)
  }

  lemma {:induction false} RecallsAreRecalls(events: seq<Event>, t: Task)
    ensures AllRecalls(events, t)
    ensures forall e :: e in TaskRecalls(events, t) ==> e in events && e.Recall? && e.task == t
    ensures TaskRecalls(events, t) == [] <==> forall e :: e in events ==> !(e.Recall? && e.task == t)
    decreases |events|
  {
    if events != [] {
      var before, last := events[..|events| - 1], events[|events| - 1];
      RecallsAreRecalls(before, t);
      assert events == before + [last];
      assert forall e :: e in events <==> e in before || e == last;
      assert TaskRecalls(events, t) == TaskRecalls(before, t) + if last.Recall? && last.task == t then [last] else [];
    }
  }

  lemma LogPrefix(events: seq<Event>, n: nat)
    requires LogOk(events) && n <= |events|
    ensures LogOk(events[..n])
    decreases |events| - n
  {
    hide RecallOk, FinishOk, Unused;
    if n == |events| {
      assert events[..n] == events;
    } else {
      LogPrefix(events, n + 1);
      assert events[..n + 1][..n] == events[..n];
    }
  }

  /** Each event was in order with respect to everything before it. */
  lemma InOrder(events: seq<Event>, i: nat)
    requires LogOk(events) && i < |events|
    ensures match events[i]
      case Started(t, _, _, _) => Unused(events[..i], t)
      case Recall(_, _, _) => RecallOk(events[..i], events[i])
      case Finished(_, _, _, _, _, _, _, _, _, _) => FinishOk(events[..i], events[i])
  {
    hide RecallOk, FinishOk, Unused;
    LogPrefix(events, i + 1);
    assert events[..i + 1][..i] == events[..i];
    assert events[..i + 1][i] == events[i];
  }

  /**
   * Per task the log has at most one start, one recall and one finish; a recall comes after the
   * start and before the finish, and a finish after the start.
   */
  lemma OncePerTask(events: seq<Event>, i: nat, j: nat)
    requires LogOk(events) && i < j < |events| && events[i].task == events[j].task
    ensures events[i].Started? || (events[i].Recall? && events[j].Finished?)
    ensures !events[j].Started?
  {
    InOrder(events, j);
    InOrder(events, i);
    assert events[i] in events[..j];
    if events[j].Recall? {
      RecallsAreRecalls(events[..j], events[j].task);
    }
  }

  /** No recall or finish without a start before it. */
  lemma StartedBefore(events: seq<Event>, j: nat)
    requires LogOk(events) && j < |events| && !events[j].Started?
    ensures exists i :: 0 <= i < j && events[i].Started? && events[i].task == events[j].task
  {
    InOrder(events, j);
    var start := FindStart(events[..j], events[j].task).value;
    assert start in events[..j];
    var i :| 0 <= i < j && events[..j][i] == start;
  }

  lemma {:induction false} AtMostOneRecall(events: seq<Event>, t: Task)
    requires LogOk(events)
    ensures |TaskRecalls(events, t)| <= 1
    decreases |events|
  {
    if events != [] { AtMostOneRecall(events[..|events| - 1], t); }
  }

  /** The recalled identifiers of a task with one recall are those of that recall. */
  lemma {:induction false} OneRecallIds(events: seq<Event>, t: Task)
    requires |TaskRecalls(events, t)| <= 1
    ensures AllRecalls(events, t)
    ensures RecalledIds(events, t) ==
      if TaskRecalls(events, t) == [] then {} else IdsOf(TaskRecalls(events, t)[0].records)
    decreases |events|
  {
    RecallsAreRecalls(events, t);
    if events != [] {
      var before, last := events[..|events| - 1], events[|events| - 1];
      OneRecallIds(before, t);
    }
  }

  lemma {:induction false} NoRepeatsBound(s: seq<Rid>, ids: set<Rid>)
    requires NoRepeats(s) && forall r :: r in s ==> r in ids
    ensures |s| <= |ids|
    decreases |s|
  {
    if s != [] {
      assert s[0] in s;
      forall r | r in s[1..] ensures r in ids - {s[0]} { assert r in s; }
      NoRepeatsBound(s[1..], ids - {s[0]});
    }
  }

  lemma {:induction false} IdsBound(records: seq<Recalled>)
    ensures |IdsOf(records)| <= |records|
    decreases |records|
  {
    if records != [] {
      IdsBound(records[1..]);
      assert IdsOf(records) == {records[0].id} + IdsOf(records[1..]);
    }
  }

  /** A record was recalled by a task exactly if a recall of that task lists it. */
  lemma {:induction false} RecalledMeans(events: seq<Event>, t: Task, r: Rid)
    ensures r in RecalledIds(events, t) <==>
      exists e, i :: e in events && e.Recall? && e.task == t && 0 <= i < |e.records| && e.records[i].id == r
    decreases |events|
  {
    if events != [] {
      var before, last := events[..|events| - 1], events[|events| - 1];
      RecalledMeans(before, t, r);
      assert events == before + [last];
      if last.Recall? && last.task == t && r in IdsOf(last.records) {
        var record :| record in last.records && record.id == r;
        var i :| 0 <= i < |last.records| && last.records[i] == record;
        assert last in events;
      }
      if e, i :| e in events && e.Recall? && e.task == t && 0 <= i < |e.records| && e.records[i].id == r {
        assert e in before || e == last;
        assert e.records[i] in e.records;
      }
    }
  }

  /** In a valid log a task has at most one recall event, and it is the list of its recalls. */
  lemma RecallsOfValid(events: seq<Event>, t: Task)
    requires LogOk(events)
    ensures TaskRecalls(events, t) == [] <==> forall e :: e in events && e.Recall? ==> e.task != t
    ensures forall e :: e in events && e.Recall? && e.task == t ==> TaskRecalls(events, t) == [e]
  {
    AtMostOneRecall(events, t);
    forall e | e in events && e.Recall? && e.task == t ensures TaskRecalls(events, t) == [e] {
      RecallListed(events, t, e);
    }
    RecallsAreRecalls(events, t);
  }

  lemma {:induction false} RecallListed(events: seq<Event>, t: Task, e: Event)
    requires e in events && e.Recall? && e.task == t
    ensures e in TaskRecalls(events, t)
    decreases |events|
  {
    var before, last := events[..|events| - 1], events[|events| - 1];
    assert events == before + [last];
    if e in before { RecallListed(before, t, e); }
  }

  /** A valid log counts no more recalled identifiers of a task than matches. */
  lemma RecallMatches(events: seq<Event>, t: Task)
    requires LogOk(events)
    ensures AllRecalls(events, t) && |TaskRecalls(events, t)| <= 1
    ensures |RecalledIds(events, t)| <= RecallTotal(TaskRecalls(events, t))
    ensures TaskRecalls(events, t) != [] ==> RecallTotal(TaskRecalls(events, t)) == TaskRecalls(events, t)[0].matchCount
  {
    RecallsAreRecalls(events, t);
    AtMostOneRecall(events, t);
    OneRecallIds(events, t);
    var recalls := TaskRecalls(events, t);
    if recalls != [] {
      assert recalls[0] in recalls;
      var k :| 0 <= k < |events| && events[k] == recalls[0];
      InOrder(events, k);
      IdsBound(recalls[0].records);
      assert RecallTotal(recalls) == recalls[0].matchCount + RecallTotal(recalls[1..]);
    }
  }

  lemma VerdictsBound(e: Event, ids: set<Rid>)
    requires e.Finished? && NoRepeats(Verdicts(e)) && forall r :: r in Verdicts(e) ==> r in ids
    ensures |e.useful| + |e.misleading| + |e.stale| <= |ids|
  {
    NoRepeatsBound(Verdicts(e), ids);
  }

  /**
   * What every finish of a valid log satisfies: no recall in mode off and exactly one otherwise;
   * the verdicts name different records that were recalled, no more of them than matches; and
   * the memory fields meet the collector's rule.
   */
  lemma FinishIsConsistent(events: seq<Event>, i: nat)
    requires LogOk(events) && i < |events| && events[i].Finished?
    ensures var e, recalls := events[i], TaskRecalls(events[..i], events[i].task);
      && |recalls| == (if e.mode == Off then 0 else 1)
      && NoRepeats(Verdicts(e)) && (forall r :: r in Verdicts(e) ==> r in RecalledIds(events[..i], e.task))
      && |e.useful| + |e.misleading| + |e.stale| <= e.recallCount
      && CollectorRule(e.mode, e.recallCount, e.usefulCount, e.learnStatus, e.skipReason)
  {
    hide RecalledIds, TaskRecalls, NoRepeats, FindStart, RecallTotal, IsFinished;
    var before, e := events[..i], events[i];
    InOrder(events, i);
    LogPrefix(events, i);
    RecallMatches(before, e.task);
    VerdictsBound(e, RecalledIds(before, e.task));
    NoRecallNoIds(before, e.task);
    StatusMeetsRule(e.mode, TaskRecalls(before, e.task), e.learned, e.skipReason, |e.useful|);
  }

  /** What the memory loop accepts, the collector accepts. */
  lemma StatusMeetsRule(mode: Mode, recalls: seq<Event>, learned: seq<Rid>, skip: Option<SkipReason>, useful: nat)
    requires (forall i :: 0 <= i < |recalls| ==> recalls[i].Recall?) && useful <= RecallTotal(recalls)
    requires recalls == [] ==> RecallTotal(recalls) == 0
    requires MemoryLoopStatus(mode, recalls, learned, skip).Some?
    ensures var (status, reason, count) := MemoryLoopStatus(mode, recalls, learned, skip).value;
      && CollectorRule(mode, count, useful, status, reason) && count == RecallTotal(recalls)
      && |recalls| == if mode == Off then 0 else 1
  {
    hide RecallTotal;
    match mode
    case Off =>
    case RecallOnly =>
    case Full =>
      if learned == [] {
        match skip.value
        case NoReusableLearning =>
        case NotVerified =>
        case StoreUnavailable =>
        case TaskCancelled =>
      }
  }

  lemma NoRecallNoIds(events: seq<Event>, t: Task)
    requires AllRecalls(events, t)
    ensures TaskRecalls(events, t) == [] ==> RecallTotal(TaskRecalls(events, t)) == 0
  {
  }

  /** A recall of a valid log belongs to a task whose mode has memory, and its records differ. */
  lemma RecallIsConsistent(events: seq<Event>, i: nat)
    requires LogOk(events) && i < |events| && events[i].Recall?
    ensures exists j :: 0 <= j < i && events[j].Started? && events[j].task == events[i].task && events[j].mode != Off
    ensures events[i].matchCount == |events[i].records|
    ensures forall a, b :: 0 <= a < b < |events[i].records| ==> events[i].records[a].id != events[i].records[b].id
  {
    InOrder(events, i);
    var start := FindStart(events[..i], events[i].task).value;
    var j :| 0 <= j < i && events[..i][j] == start;
    var records := events[i].records;
    var ids := seq(|records|, k requires 0 <= k < |records| => records[k].id);
    forall a, b | 0 <= a < b < |records| ensures records[a].id != records[b].id { assert ids[a] != ids[b]; }
  }

  /**
   * What a finish of a valid log records: the mode of its start; learned exactly if it names
   * something learned; the matches of the task's recall, or none without one; its useful verdicts.
   */
  lemma FinishReports(events: seq<Event>, i: nat)
    requires LogOk(events) && i < |events| && events[i].Finished?
    ensures var e := events[i];
      && (exists j :: 0 <= j < i && events[j].Started? && events[j].task == e.task && events[j].mode == e.mode)
      && (e.learnStatus == Learned <==> |e.learned| > 0)
      && e.usefulCount == |e.useful|
      && (forall k :: 0 <= k < i && events[k].Recall? && events[k].task == e.task ==>
            e.recallCount == events[k].matchCount)
      && ((forall k :: 0 <= k < i && events[k].Recall? ==> events[k].task != e.task) ==> e.recallCount == 0)
  {
    hide RecalledIds, NoRepeats, IsFinished, MemoryLoopStatus;
    InOrder(events, i);
    LogPrefix(events, i);
    var e, before := events[i], events[..i];
    var start := FindStart(before, e.task).value;
    var j :| 0 <= j < i && before[j] == start;
    assert events[j] == start;
    LoopReports(e.mode, TaskRecalls(before, e.task), e.learned, e.skipReason);
    RecallsOfValid(before, e.task);
    forall k | 0 <= k < i && events[k].Recall? && events[k].task == e.task
      ensures e.recallCount == events[k].matchCount
    {
      assert before[k] == events[k] && events[k] in before;
    }
    if forall k :: 0 <= k < i && events[k].Recall? ==> events[k].task != e.task {
      forall x | x in before && x.Recall? ensures x.task != e.task {
        var k :| 0 <= k < i && before[k] == x;
        assert events[k] == x;
      }
    }
  }

  lemma StartedLog(start: Event)
    requires start.Started?
    ensures LogOk([start]) && FindStart([start], start.task) == Some(start)
    ensures TaskRecalls([start], start.task) == [] && RecalledIds([start], start.task) == {}
    ensures !IsFinished([start], start.task)
  {
    hide IsFinished, FindStart, TaskRecalls, RecalledIds, LogOk;
    EmptyLog(start.task);
    OneMore([], start);
    assert [] + [start] == [start];
  }

  lemma EmptyLog(t: Task)
    ensures LogOk([]) && Unused([], t) && TaskRecalls([], t) == [] && RecalledIds([], t) == {} && !IsFinished([], t)
  {
  }

  lemma RecalledLog(start: Event, recall: Event)
    requires start.Started? && start.mode != Off && recall.Recall? && recall.task == start.task
    requires recall.matchCount == |recall.records| == 1
    ensures var log := [start, recall];
      && LogOk(log) && FindStart(log, start.task) == Some(start)
      && TaskRecalls(log, start.task) == [recall] && RecalledIds(log, start.task) == {recall.records[0].id}
      && !IsFinished(log, start.task)
  {
    hide IsFinished, FindStart, TaskRecalls, RecalledIds, LogOk;
    StartedLog(start);
    OneMore([start], recall);
    assert [start] + [recall] == [start, recall];
    assert NoRepeats(seq(|recall.records|, i requires 0 <= i < |recall.records| => recall.records[i].id));
    assert IdsOf(recall.records) == {recall.records[0].id};
  }

  /** What one more event changes in what is read off a log. */
  lemma OneMore(log: seq<Event>, e: Event)
    ensures e.Started? ==> (LogOk(log + [e]) <==> LogOk(log) && Unused(log, e.task))
    ensures e.Recall? ==> (LogOk(log + [e]) <==> LogOk(log) && RecallOk(log, e))
    ensures e.Finished? ==> (LogOk(log + [e]) <==> LogOk(log) && FinishOk(log, e))
    ensures FindStart(log + [e], e.task) == if e.Started? then Some(e) else FindStart(log, e.task)
    ensures TaskRecalls(log + [e], e.task) == TaskRecalls(log, e.task) + if e.Recall? then [e] else []
    ensures RecalledIds(log + [e], e.task) == RecalledIds(log, e.task) + if e.Recall? then IdsOf(e.records) else {}
    ensures IsFinished(log + [e], e.task) <==> IsFinished(log, e.task) || e.Finished?
  {
    hide RecallOk, FinishOk, Unused;
    assert (log + [e])[..|log|] == log;
    assert forall x :: x in log + [e] <==> x in log || x == e;
  }

  /** An ordinary task: started in full, one recall of one record, a finish that learned another. */
  lemma OrdinaryTask(t: Task, repository: string, device: string, found: Recalled, learned: Rid)
    ensures LogOk([Started(t, Full, repository, device)])
    ensures LogOk([Started(t, Full, repository, device), Recall(t, 1, [found])])
    ensures LogOk([Started(t, Full, repository, device), Recall(t, 1, [found]),
                   Finished(t, Full, 1, 1, [found.id], [], [], [learned], Learned, None)])
  {
    hide IsFinished, FindStart, TaskRecalls, RecalledIds, LogOk, MemoryLoopStatus;
    var start, recall := Started(t, Full, repository, device), Recall(t, 1, [found]);
    var finish := Finished(t, Full, 1, 1, [found.id], [], [], [learned], Learned, None);
    StartedLog(start);
    RecalledLog(start, recall);
    OneMore([start, recall], finish);
    assert [start, recall] + [finish] == [start, recall, finish];
    LoopClosesIff(Full, [recall], [learned], None);
    LoopReports(Full, [recall], [learned], None);
    assert Verdicts(finish) == [found.id];
    assert AllRecalls([start, recall], t);
    assert |[learned]| == 1 && MemoryLoopStatus(Full, [recall], [learned], None).value == (Learned, None, 1);
    assert NoRepeats(Verdicts(finish)) && finish.usefulCount == |finish.useful|;
    assert FinishOk([start, recall], finish);
  }
}
