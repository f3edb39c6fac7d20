/**
 * The evaluator under its lock: the log, the experiment counter and the session files, and the
 * three calls that change them.  Task identifiers are fresh; an append may fail.
 */
module Evaluator {
  import opened Basics
  import opened Evaluation

  type Session = string

  datatype Ranked = Ranked(id: Rid, rank: int)

  /** What the memory store knows of a record. */
  datatype StoreEntry = StoreEntry(repository: string, device: string)

  datatype StartResult = Untracked(mode: Mode) | SessionBusy | AppendFailed | Tracking(mode: Mode)

  datatype RecallResult =
    | MissingRecord | NoSuchTask | ModeIsOff | AlreadyRecalled | AlreadyFinished | RecallNotAppended | RecallRecorded

  datatype FinishResult =
    | UnknownTask | FinishedBefore | VerdictRepeated | VerdictNotRecalled | LoopRefused | FinishNotAppended
    | FinishRecorded

  /** The first occurrence of each record, in order. */
  function FirstOccurrences(ranked: seq<Ranked>): seq<Ranked>
    decreases |ranked|
  {
    if ranked == [] then []
    else
      var front, last := ranked[..|ranked| - 1], ranked[|ranked| - 1];
      FirstOccurrences(front) + if exists i :: 0 <= i < |front| && front[i].id == last.id then [] else [last]
  }

  function Describe(r: Ranked, store: map<Rid, StoreEntry>): Recalled
    requires r.id in store
  {
    Recalled(r.id, r.rank, store[r.id].repository, store[r.id].device)
  }

  /** The records of a recall: the first occurrence of each, with what the store knows of it. */
  ghost predicate SelectedRecords(ranked: seq<Ranked>, store: map<Rid, StoreEntry>, selected: seq<Recalled>) {
    var firsts := FirstOccurrences(ranked);
    && |selected| == |firsts|
    && forall i :: 0 <= i < |firsts| ==> firsts[i].id in store && selected[i] == Describe(firsts[i], store)
  }

  lemma {:induction false} FirstsDistinct(ranked: seq<Ranked>)
    ensures forall r :: r in FirstOccurrences(ranked) ==> exists i :: 0 <= i < |ranked| && ranked[i] == r
    ensures forall i, j :: 0 <= i < j < |FirstOccurrences(ranked)| ==>
      FirstOccurrences(ranked)[i].id != FirstOccurrences(ranked)[j].id
    decreases |ranked|
  {
    if ranked != [] {
      var front, last := ranked[..|ranked| - 1], ranked[|ranked| - 1];
      FirstsDistinct(front);
      var firsts := FirstOccurrences(front);
      assert ranked == front + [last];
      forall r | r in FirstOccurrences(ranked) ensures exists i :: 0 <= i < |ranked| && ranked[i] == r {
        if r in firsts {
          var i :| 0 <= i < |front| && front[i] == r;
          assert ranked[i] == r;
        } else {
          assert ranked[|ranked| - 1] == r;
        }
      }
      forall i | 0 <= i < |firsts| ensures firsts[i] in firsts {}
    }
  }

  ghost predicate IsFirst(ranked: seq<Ranked>, j: nat)
    requires j < |ranked|
  {
    forall k :: 0 <= k < j ==> ranked[k].id != ranked[j].id
  }

  /** Places of a list, in order: exactly the first places of each record. */
  ghost predicate FirstPlaces(ranked: seq<Ranked>, p: seq<nat>) {
    && (forall a :: 0 <= a < |p| ==> p[a] < |ranked|) && (forall a, b :: 0 <= a < b < |p| ==> p[a] < p[b])
    && (forall j: nat :: j < |ranked| ==> (j in p <==> IsFirst(ranked, j)))
  }

  lemma FirstsMore(ranked: seq<Ranked>)
    requires ranked != []
    ensures var n := |ranked| - 1;
      FirstOccurrences(ranked) == FirstOccurrences(ranked[..n]) + if IsFirst(ranked, n) then [ranked[n]] else []
  {
    IsFirstIff(ranked);
    hide IsFirst;
  }

  lemma IsFirstIff(ranked: seq<Ranked>)
    requires ranked != []
    ensures var front, last := ranked[..|ranked| - 1], ranked[|ranked| - 1];
      IsFirst(ranked, |ranked| - 1) <==> !exists i :: 0 <= i < |front| && front[i].id == last.id
  {
    var n := |ranked| - 1;
    assert forall k :: 0 <= k < n ==> ranked[..n][k] == ranked[k];
  }

  lemma {:induction false} FirstsAt(ranked: seq<Ranked>) returns (p: seq<nat>)
    ensures FirstPlaces(ranked, p) && |FirstOccurrences(ranked)| == |p|
    ensures forall a :: 0 <= a < |p| ==> FirstOccurrences(ranked)[a] == ranked[p[a]]
    decreases |ranked|
  {
    p := [];
    if ranked != [] {
      hide FirstPlaces, IsFirst, FirstOccurrences;
      var n := |ranked| - 1;
      var q := FirstsAt(ranked[..n]);
      p := if IsFirst(ranked, n) then q + [n] else q;
      MorePlaces(ranked, q, p);
      FirstsMore(ranked);
    }
  }

  lemma MorePlaces(ranked: seq<Ranked>, q: seq<nat>, p: seq<nat>)
    requires ranked != [] && FirstPlaces(ranked[..|ranked| - 1], q)
    requires p == if IsFirst(ranked, |ranked| - 1) then q + [|ranked| - 1] else q
    ensures FirstPlaces(ranked, p) && forall a :: 0 <= a < |q| ==> q[a] < |ranked| - 1
  {
    var n := |ranked| - 1;
    forall j: nat | j < n ensures IsFirst(ranked, j) <==> IsFirst(ranked[..n], j) { SameFirst(ranked, n, j); }
    hide IsFirst;
    assert forall a :: 0 <= a < |q| ==> q[a] < n;
    assert n !in q;
    forall j: nat | j < |ranked| ensures j in p <==> IsFirst(ranked, j) {
      if j < n { assert j in p <==> j in q; }
    }
  }

  lemma SameFirst(ranked: seq<Ranked>, n: nat, j: nat)
    requires j < n <= |ranked|
    ensures IsFirst(ranked, j) <==> IsFirst(ranked[..n], j)
  {
  }

  /** A recall lists the records at their first places, in order, with rank, repository and device. */
  lemma SelectionMeans(ranked: seq<Ranked>, store: map<Rid, StoreEntry>, selected: seq<Recalled>) returns (p: seq<nat>)
    requires SelectedRecords(ranked, store, selected)
    ensures FirstPlaces(ranked, p) && |selected| == |p|
    ensures forall a :: 0 <= a < |p| ==>
      && selected[a].id == ranked[p[a]].id && selected[a].rank == ranked[p[a]].rank
      && selected[a].id in store && selected[a].repository == store[selected[a].id].repository
      && selected[a].device == store[selected[a].id].device
  {
    p := FirstsAt(ranked);
  }

  predicate AllStored(ranked: seq<Ranked>, store: map<Rid, StoreEntry>) {
    forall i :: 0 <= i < |ranked| ==> ranked[i].id in store
  }

  method SelectRecords(ranked: seq<Ranked>, store: map<Rid, StoreEntry>) returns (ok: bool, selected: seq<Recalled>)
    ensures ok <==> AllStored(ranked, store)
    ensures ok ==> SelectedRecords(ranked, store, selected)
  {
    selected := [];
    var seen: set<Rid> := {};
    for k := 0 to |ranked|
      invariant seen == set i | 0 <= i < k :: ranked[i].id
      invariant forall i :: 0 <= i < k ==> ranked[i].id in store
      invariant SelectedRecords(ranked[..k], store, selected)
    {
      assert ranked[..k + 1][..k] == ranked[..k];
      assert forall i :: 0 <= i < k ==> ranked[..k][i].id in seen;
      assert ranked[k].id in seen ==> exists i :: 0 <= i < k && ranked[..k][i].id == ranked[k].id;
      if ranked[k].id !in seen {
        seen := seen + {ranked[k].id};
        if ranked[k].id !in store { return false, []; }
        selected := selected + [Describe(ranked[k], store)];
      }
    }
    assert ranked[..|ranked|] == ranked;
    return true, selected;
  }

  /** The mode a task was started in. */
  function StartMode(events: seq<Event>, task: Task): Option<Mode> {
    var start := FindStart(events, task);
    if start.Some? then Some(start.value.mode) else None
  }

  /** The task was started in a mode that reads memory. */
  predicate WithMemory(events: seq<Event>, task: Task) { StartMode(events, task) !in {None, Some(Off)} }

  predicate HasRecall(events: seq<Event>, task: Task) { exists e :: e in events && e.Recall? && e.task == task }

  /** A finish can be asked for: the task was started and is not finished. */
  predicate Open(events: seq<Event>, task: Task) { FindStart(events, task).Some? && !IsFinished(events, task) }

  predicate AllRecalled(events: seq<Event>, task: Task, verdicts: seq<Rid>) {
    forall v :: v in verdicts ==> v in RecalledIds(events, task)
  }

  /** The session's file names the task. */
  predicate Names(sessions: map<Session, Task>, session: Option<Session>, task: Task) {
    session.Some? && session.value in sessions && sessions[session.value] == task
  }

  class Evaluator {
    var events: seq<Event>
    var enabled: bool
    var mode: Mode
    var experiment: bool
    var sequence: seq<Mode>
    var counter: nat
    var sessions: map<Session, Task>
    // Which session started a task; none when there was no session.
    ghost var owner: map<Task, Option<Session>>

    ghost predicate Valid()
      reads this
    {
      LogOk(events) && sequence != [] && OneOpenTask(events, sessions, owner)
    }

    constructor (mode: Mode, sequence: seq<Mode>)
      requires sequence != []
      ensures Valid() && events == [] && !enabled && counter == 0 && sessions == map[] && owner == map[]
    {
      this.mode, this.sequence := mode, sequence;
      events, enabled, experiment, counter, sessions, owner := [], false, false, 0, map[], map[];
    }

    /** `append_event_unlocked` */
    method Append(e: Event) returns (ok: bool)
      modifies this`events
      ensures events == if ok then old(events) + [e] else old(events)
    {
      ok := *;
      if ok { events := events + [e]; }
    }

    /** `next_mode`: an override, the configured mode, or the experiment's turn. */
    method NextMode(override: Option<Mode>) returns (next: Mode)
      requires sequence != []
      modifies this`counter
      ensures override.Some? ==> next == override.value && counter == old(counter)
      ensures override.None? && !experiment ==> next == mode && counter == old(counter)
      ensures override.None? && experiment ==>
        next == sequence[old(counter) % |sequence|] && counter == old(counter) + 1
    {
      if override.Some? { return override.value; }
      if !experiment { return mode; }
      next := sequence[counter % |sequence|];
      counter := counter + 1;
    }

    /** `configure`, which the locked calls interleave with. */
    method Configure(enabled: bool, mode: Mode, experiment: bool, sequence: seq<Mode>)
      requires Valid() && sequence != []
      modifies this`enabled, this`mode, this`experiment, this`sequence
      ensures Valid() && events == old(events)
    {
      this.enabled, this.mode, this.experiment, this.sequence := enabled, mode, experiment, sequence;
    }

    method StartTask(session: Option<Session>, task: Task, repository: string, device: string, override: Option<Mode>)
      returns (r: StartResult)
      requires Valid() && Unused(events, task)
      modifies this`events, this`counter, this`sessions, this`owner
      ensures Valid()
      ensures r.Tracking? <==> events != old(events)
      ensures r.Tracking? ==> events == old(events) + [Started(task, r.mode, repository, device)]
      ensures r.Tracking? && override.Some? ==> r.mode == override.value
      ensures r.Tracking? && override.None? ==>
        r.mode == if experiment then sequence[old(counter) % |sequence|] else mode
      ensures (r.Untracked? <==> !enabled) && (r.Untracked? ==> r.mode == mode)
      ensures r.SessionBusy? <==>
        enabled && session.Some? && session.value in old(sessions) &&
        !IsFinished(old(events), old(sessions)[session.value])
      ensures r.Untracked? || r.SessionBusy? || session.None? ==> sessions == old(sessions)
      ensures r.Tracking? && session.Some? ==> sessions == old(sessions)[session.value := task]
      ensures r.AppendFailed? && session.Some? ==> sessions == old(sessions) - {session.value}
      ensures owner == if r.Tracking? then old(owner)[task := session] else old(owner)
      ensures counter == old(counter) +
        if (r.Tracking? || r.AppendFailed?) && override.None? && experiment then 1 else 0
    {
      hide LogOk, OneOpenTask;
      if !enabled { return Untracked(mode); }
      if session.Some? && session.value in sessions && !IsFinished(events, sessions[session.value]) {
        return SessionBusy;
      }
      var next := NextMode(override);
      var event := Started(task, next, repository, device);
      StartKeeps(events, event, sessions, owner, session);
      if session.Some? { sessions := sessions[session.value := task]; }
      var appended := Append(event);
      if !appended {
        if session.Some? {
          assert sessions - {session.value} == old(sessions) - {session.value};
          sessions := sessions - {session.value};
        }
        return AppendFailed;
      }
      owner := owner[task := session];
      return Tracking(next);
    }

    method RecordRecall(task: Task, ranked: seq<Ranked>, store: map<Rid, StoreEntry>) returns (r: RecallResult)
      requires Valid()
      modifies this`events
      ensures Valid()
      ensures !r.RecallRecorded? ==> events == old(events)
      ensures r.RecallRecorded? ==> |events| == |old(events)| + 1 && events[..|old(events)|] == old(events)
      ensures r.RecallRecorded? ==> events[|old(events)|].Recall? && events[|old(events)|].task == task
      ensures r.RecallRecorded? ==> SelectedRecords(ranked, store, events[|old(events)|].records)
      ensures r.MissingRecord? <==> !AllStored(ranked, store)
      ensures r.NoSuchTask? <==> AllStored(ranked, store) && FindStart(old(events), task).None?
      ensures r.ModeIsOff? <==> AllStored(ranked, store) && StartMode(old(events), task) == Some(Off)
      ensures r.AlreadyRecalled? <==>
        AllStored(ranked, store) && WithMemory(old(events), task) && HasRecall(old(events), task)
      ensures r.AlreadyFinished? <==>
        AllStored(ranked, store) && WithMemory(old(events), task) &&
        !HasRecall(old(events), task) && IsFinished(old(events), task)
    {
      hide LogOk, OneOpenTask, SelectedRecords;
      var found, selected := SelectRecords(ranked, store);
      if !found { return MissingRecord; }
      var start := FindStart(events, task);
      if start.None? { return NoSuchTask; }
      if start.value.mode == Off { return ModeIsOff; }
      if HasRecall(events, task) { return AlreadyRecalled; }
      if IsFinished(events, task) { return AlreadyFinished; }
      var event := Recall(task, |selected|, selected);
      RecallKeeps(events, event, ranked, store, sessions, owner);
      var appended := Append(event);
      return if appended then RecallRecorded else RecallNotAppended;
    }

    method FinishTask(session: Option<Session>, task: Task, useful: seq<Rid>, misleading: seq<Rid>, stale: seq<Rid>,
                      learned: seq<Rid>, skip: Option<SkipReason>) returns (r: FinishResult)
      requires Valid()
      modifies this`events, this`sessions
      ensures Valid()
      ensures !r.FinishRecorded? ==> events == old(events)
      ensures sessions ==
        if r.FinishRecorded? && session.Some? && session.value in old(sessions) && old(sessions)[session.value] == task
        then old(sessions) - {session.value} else old(sessions)
      ensures r.FinishRecorded? ==> |events| == |old(events)| + 1 && events[..|old(events)|] == old(events)
      ensures r.FinishRecorded? ==> FinishedWith(events[|old(events)|], task, useful, misleading, stale, learned, skip)
      ensures r.FinishRecorded? ==> FinishOk(old(events), events[|old(events)|])
      ensures r.UnknownTask? <==> FindStart(old(events), task).None?
      ensures r.FinishedBefore? <==> FindStart(old(events), task).Some? && IsFinished(old(events), task)
      ensures r.VerdictRepeated? <==> Open(old(events), task) && !NoRepeats(useful + misleading + stale)
      ensures r.VerdictNotRecalled? <==> (
        && Open(old(events), task) && NoRepeats(useful + misleading + stale)
        && exists v :: v in useful + misleading + stale && v !in RecalledIds(old(events), task))
      ensures r.LoopRefused? <==> (
        && Open(old(events), task) && NoRepeats(useful + misleading + stale)
        && (forall v :: v in useful + misleading + stale ==> v in RecalledIds(old(events), task))
        && !(|| (StartMode(old(events), task) == Some(Off) && learned == [] && skip == Some(ModeOff))
             || (StartMode(old(events), task) == Some(RecallOnly) && HasRecall(old(events), task)
                 && learned == [] && skip == Some(ModeRecallOnly))
             || (StartMode(old(events), task) == Some(Full) && HasRecall(old(events), task)
                 && (learned != [] <==> skip == None) && skip !in {Some(ModeOff), Some(ModeRecallOnly)})))
      ensures r.FinishRecorded? ==>
        var e := events[|old(events)|];
        && Some(e.mode) == StartMode(old(events), task) && e.usefulCount == |useful|
        && (e.learnStatus == Learned <==> learned != [])
        && (forall x :: x in old(events) && x.Recall? && x.task == task ==> e.recallCount == x.matchCount)
        && (!HasRecall(old(events), task) ==> e.recallCount == 0)
    {
      hide LogOk, OneOpenTask, IsFinished, TaskRecalls, RecalledIds, NoRepeats;
      var start := FindStart(events, task);
      if start.None? { return UnknownTask; }
      if IsFinished(events, task) { return FinishedBefore; }
      var verdicts := useful + misleading + stale;
      if !NoRepeats(verdicts) { return VerdictRepeated; }
      if !AllRecalled(events, task, verdicts) { return VerdictNotRecalled; }
      RecallsAreRecalls(events, task);
      LoopDecided(events, start.value, task, learned, skip);
      RecallsOfValid(events, task);
      var loop := MemoryLoopStatus(start.value.mode, TaskRecalls(events, task), learned, skip);
      if loop.None? { return LoopRefused; }
      var (status, reason, count) := loop.value;
      var event := Finished(task, start.value.mode, count, |useful|, useful, misleading, stale, learned, status,
        reason);
      LoopReports(start.value.mode, TaskRecalls(events, task), learned, skip);
      FinishKeeps(events, event, sessions, owner, session);
      var appended := Append(event);
      if !appended { return FinishNotAppended; }
      if Names(sessions, session, task) {
        sessions := sessions - {session.value};
      }
      return FinishRecorded;
    }
  }

  ghost predicate FinishedWith(e: Event, task: Task, useful: seq<Rid>, misleading: seq<Rid>, stale: seq<Rid>,
                               learned: seq<Rid>, skip: Option<SkipReason>) {
    && e.Finished? && e.task == task && e.useful == useful && e.misleading == misleading && e.stale == stale
    && e.learned == learned && e.skipReason == skip
  }

  /** The memory loop of a started, unfinished task, in terms of whether it has a recall. */
  lemma LoopDecided(events: seq<Event>, start: Event, task: Task, learned: seq<Rid>, skip: Option<SkipReason>)
    requires LogOk(events) && FindStart(events, task) == Some(start)
    ensures AllRecalls(events, task)
    ensures MemoryLoopStatus(start.mode, TaskRecalls(events, task), learned, skip).Some? <==>
      || (start.mode == Off && learned == [] && skip == Some(ModeOff))
      || (start.mode == RecallOnly && HasRecall(events, task) && learned == [] && skip == Some(ModeRecallOnly))
      || (start.mode == Full && HasRecall(events, task)
          && (learned != [] <==> skip == None) && skip !in {Some(ModeOff), Some(ModeRecallOnly)})
  {
    hide LogOk, MemoryLoopStatus;
    RecallsAreRecalls(events, task);
    RecallsOfValid(events, task);
    LoopClosesIff(start.mode, TaskRecalls(events, task), learned, skip);
    if start.mode == Off { OffHasNoRecall(events, start); }
    ReasonCases(skip);
  }

  lemma ReasonCases(skip: Option<SkipReason>)
    ensures skip.Some? && skip !in {Some(ModeOff), Some(ModeRecallOnly)} ==>
      skip.value in {NoReusableLearning, NotVerified, StoreUnavailable, TaskCancelled}
  {
    match skip
    case None =>
    case Some(reason) =>
      match reason
      case ModeOff =>
      case ModeRecallOnly =>
      case NoReusableLearning =>
      case NotVerified =>
      case StoreUnavailable =>
      case TaskCancelled =>
  }

  /** A task without memory has no recall. */
  lemma OffHasNoRecall(events: seq<Event>, start: Event)
    requires LogOk(events) && start in events && start.Started? && start.mode == Off
    ensures !HasRecall(events, start.task)
  {
    hide LogOk;
    forall e | e in events && e.Recall? ensures e.task != start.task {
      var i :| 0 <= i < |events| && events[i] == e;
      RecallIsConsistent(events, i);
      var j :| 0 <= j < i && events[j].Started? && events[j].task == e.task && events[j].mode != Off;
      var k :| 0 <= k < |events| && events[k] == start;
      if e.task == start.task {
        if j < k { OncePerTask(events, j, k); } else if k < j { OncePerTask(events, k, j); }
      }
    }
  }

  /**
   * Each session has at most one unfinished task: a task that a session started and that is not
   * finished is the one its session file names.
   */
  ghost predicate OneOpenTask(events: seq<Event>, sessions: map<Session, Task>, owner: map<Task, Option<Session>>) {
    && (forall e :: e in events && e.Started? ==> e.task in owner)
    && forall e :: e in events && e.Started? && !IsFinished(events, e.task) && owner[e.task].Some? ==>
         owner[e.task].value in sessions && sessions[owner[e.task].value] == e.task
  }

  /** Two unfinished tasks of one session are one task, the one that the session's file names. */
  lemma SessionsExclusive(evaluator: Evaluator, a: Event, b: Event)
    requires evaluator.Valid()
    requires a in evaluator.events && b in evaluator.events && a.Started? && b.Started?
    requires !IsFinished(evaluator.events, a.task) && !IsFinished(evaluator.events, b.task)
    requires a.task in evaluator.owner && b.task in evaluator.owner
    requires evaluator.owner[a.task] == evaluator.owner[b.task] && evaluator.owner[a.task].Some?
    ensures a.task == b.task && Names(evaluator.sessions, evaluator.owner[a.task], a.task)
  {
    hide LogOk;
  }

  lemma Appended(events: seq<Event>, e: Event)
    ensures (events + [e])[..|events|] == events
    ensures forall x :: x in events + [e] <==> x in events || x == e
    ensures forall t :: IsFinished(events + [e], t) <==> IsFinished(events, t) || (e.Finished? && e.task == t)
  {
    assert (events + [e])[..|events|] == events;
    forall t ensures IsFinished(events + [e], t) <==> IsFinished(events, t) || (e.Finished? && e.task == t) {
      if IsFinished(events, t) {
        var x :| x in events && x.Finished? && x.task == t;
        assert x in events + [e];
      }
      if e.Finished? && e.task == t { assert e in events + [e]; }
    }
  }

  lemma StartKeeps(events: seq<Event>, e: Event, sessions: map<Session, Task>,
                   owner: map<Task, Option<Session>>, session: Option<Session>)
    requires LogOk(events) && OneOpenTask(events, sessions, owner) && e.Started? && Unused(events, e.task)
    requires session.Some? && session.value in sessions ==> IsFinished(events, sessions[session.value])
    ensures LogOk(events + [e])
    ensures session.Some? ==> OneOpenTask(events + [e], sessions[session.value := e.task], owner[e.task := session])
    ensures session.Some? ==> OneOpenTask(events, sessions[session.value := e.task] - {session.value}, owner)
    ensures session.None? ==> OneOpenTask(events + [e], sessions, owner[e.task := session])
  {
    hide IsFinished, OneOpenTask, Unused;
    Appended(events, e);
    if session.Some? {
      SessionTakes(events, sessions, owner, session.value, e.task);
      OpenTaskAdded(events, e, sessions[session.value := e.task], owner, session);
    } else {
      OpenTaskAdded(events, e, sessions, owner, session);
    }
  }

  /** A session whose file names nothing unfinished may be given a new file, or none. */
  lemma SessionTakes(events: seq<Event>, sessions: map<Session, Task>, owner: map<Task, Option<Session>>,
                     s: Session, t: Task)
    requires OneOpenTask(events, sessions, owner) && (s in sessions ==> IsFinished(events, sessions[s]))
    ensures OneOpenTask(events, sessions[s := t], owner)
    ensures OneOpenTask(events, sessions[s := t] - {s}, owner)
  {
    hide IsFinished;
  }

  lemma OpenTaskAdded(events: seq<Event>, e: Event, sessions: map<Session, Task>,
                      owner: map<Task, Option<Session>>, session: Option<Session>)
    requires OneOpenTask(events, sessions, owner) && e.Started? && Unused(events, e.task)
    requires session.Some? ==> session.value in sessions && sessions[session.value] == e.task
    ensures OneOpenTask(events + [e], sessions, owner[e.task := session])
  {
    hide IsFinished;
    Appended(events, e);
    var more, owner' := events + [e], owner[e.task := session];
    forall x | x in more && x.Started? && !IsFinished(more, x.task) && owner'[x.task].Some?
      ensures owner'[x.task].value in sessions && sessions[owner'[x.task].value] == x.task
    {
      if x != e { assert x in events && x.task != e.task; }
    }
  }

  lemma RecallKeeps(events: seq<Event>, e: Event, ranked: seq<Ranked>, store: map<Rid, StoreEntry>,
                    sessions: map<Session, Task>, owner: map<Task, Option<Session>>)
    requires LogOk(events) && OneOpenTask(events, sessions, owner) && e.Recall?
    requires FindStart(events, e.task).Some? && FindStart(events, e.task).value.mode != Off
    requires !HasRecall(events, e.task) && !IsFinished(events, e.task)
    requires SelectedRecords(ranked, store, e.records) && e.matchCount == |e.records|
    ensures LogOk(events + [e]) && OneOpenTask(events + [e], sessions, owner)
  {
    hide IsFinished, FindStart, TaskRecalls;
    Appended(events, e);
    RecallsAreRecalls(events, e.task);
    FirstsDistinct(ranked);
    var firsts := FirstOccurrences(ranked);
    forall i, j | 0 <= i < j < |e.records| ensures e.records[i].id != e.records[j].id {
      assert e.records[i] == Describe(firsts[i], store) && e.records[j] == Describe(firsts[j], store);
    }
  }

  lemma FinishKeeps(events: seq<Event>, e: Event, sessions: map<Session, Task>,
                    owner: map<Task, Option<Session>>, session: Option<Session>)
    requires LogOk(events) && OneOpenTask(events, sessions, owner) && e.Finished? && FinishOk(events, e)
    ensures LogOk(events + [e]) && OneOpenTask(events + [e], sessions, owner)
    ensures session.Some? && session.value in sessions && sessions[session.value] == e.task ==>
      OneOpenTask(events + [e], sessions - {session.value}, owner)
  {
    hide IsFinished, FinishOk;
    Appended(events, e);
  }
}
