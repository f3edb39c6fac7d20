/** The counters of the summary, each read off the log. */
module Tallies {
  import opened Evaluation
  import opened Scorecard

  /** Verdicts of one kind: pairs of a finished task and a record. */
  ghost function Pairs(fs: seq<Event>, pick: Event -> seq<Rid>): set<(Task, Rid)> {
    set f, r | f in fs && f.Finished? && r in pick(f) :: (f.task, r)
  }

  ghost function Useful(f: Event): seq<Rid> { if f.Finished? then f.useful else [] }

  ghost function Misleading(f: Event): seq<Rid> { if f.Finished? then f.misleading else [] }

  ghost function Stale(f: Event): seq<Rid> { if f.Finished? then f.stale else [] }

  /** A recall of the task lists the record under the rank. */
  ghost predicate Listed(events: seq<Event>, t: Task, r: Rid, rank: int) {
    exists e, x :: e in events && e.Recall? && e.task == t && x in e.records && x.id == r && x.rank == rank
  }

  ghost predicate IsRecalled(events: seq<Event>, t: Task, r: Rid) { exists rank :: Listed(events, t, r, rank) }

  ghost predicate HasRecalls(events: seq<Event>, t: Task) { exists e :: e in events && e.Recall? && e.task == t }

  /** A finish names a useful record that its task recalled. */
  ghost predicate IsHit(events: seq<Event>, f: Event) {
    f.Finished? && exists r :: r in f.useful && IsRecalled(events, f.task, r)
  }

  /** The least rank under which a recall of the task lists a record that the finish calls useful. */
  ghost predicate IsBestRank(events: seq<Event>, f: Event, m: int)
    requires f.Finished?
  {
    && (exists r :: r in f.useful && Listed(events, f.task, r, m))
    && forall r, rank :: r in f.useful && Listed(events, f.task, r, rank) ==> m <= rank
  }

  ghost predicate AllFinishes(fs: seq<Event>) { forall i :: 0 <= i < |fs| ==> fs[i].Finished? }

  ghost predicate TasksDiffer(fs: seq<Event>) { forall i, j :: 0 <= i < j < |fs| ==> fs[i].task != fs[j].task }

  function Reciprocals(ranks: seq<int>): real
    requires forall i :: 0 <= i < |ranks| ==> ranks[i] >= 1
  {
    if ranks == [] then 0.0 else Reciprocals(ranks[..|ranks| - 1]) + 1.0 / ranks[|ranks| - 1] as real
  }

  // ---------------------------------------------------------------- ranks

  /** The rank kept for a record is the least under which a recall lists it. */
  ghost predicate LeastListed(events: seq<Event>, t: Task, ranks: map<Rid, int>) {
    && (forall r :: r in ranks ==> Listed(events, t, r, ranks[r]))
    && (forall r, rank :: Listed(events, t, r, rank) ==> r in ranks && ranks[r] <= rank)
  }

  lemma {:induction false} RecordsRanked(ranks: map<Rid, int>, records: seq<Recalled>)
    ensures var after := RankRecords(ranks, records);
      && (forall r :: r in after ==>
            (r in ranks && after[r] == ranks[r]) || exists x :: x in records && x.id == r && x.rank == after[r])
      && (forall r :: r in ranks ==> r in after && after[r] <= ranks[r])
      && (forall x :: x in records ==> x.id in after && after[x.id] <= x.rank)
    decreases |records|
  {
    if records != [] {
      var front, last := records[..|records| - 1], records[|records| - 1];
      RecordsRanked(ranks, front);
      assert records == front + [last];
      assert last in records;
    }
  }

  /** The ranks kept for a task. */
  ghost function RanksOf(events: seq<Event>, t: Task): map<Rid, int> {
    RecallsAreRecalls(events, t);
    RankMap(TaskRecalls(events, t))
  }

  lemma RankMapMore(recalls: seq<Event>, e: Event)
    requires (forall i :: 0 <= i < |recalls| ==> recalls[i].Recall?) && e.Recall?
    ensures RankMap(recalls + [e]) == RankRecords(RankMap(recalls), e.records)
  {
    hide RankRecords;
    assert (recalls + [e])[..|recalls|] == recalls;
  }

  /** What one more event makes of the ranks. */
  lemma RanksOfMore(before: seq<Event>, last: Event, t: Task)
    ensures RanksOf(before + [last], t) ==
      if last.Recall? && last.task == t then RankRecords(RanksOf(before, t), last.records) else RanksOf(before, t)
  {
    hide RankRecords, RankMap, TaskRecalls, Starts, Finishers, Finishes;
    RecallsAreRecalls(before, t);
    OneMoreEvent(before, last);
    if last.Recall? && last.task == t {
      RankMapMore(TaskRecalls(before, t), last);
    } else {
      assert TaskRecalls(before + [last], t) == TaskRecalls(before, t);
    }
  }

  lemma {:induction false} RanksAreLeast(events: seq<Event>, t: Task)
    ensures LeastListed(events, t, RanksOf(events, t))
    decreases |events|
  {
    hide RankRecords, RanksOf, Listed, LeastListed;
    if events == [] {
      RanksOfNothing(t);
    } else {
      var before, last := events[..|events| - 1], events[|events| - 1];
      assert events == before + [last];
      RanksAreLeast(before, t);
      RanksOfMore(before, last, t);
      if last.Recall? && last.task == t {
        RecordsRanked(RanksOf(before, t), last.records);
        LeastMore(before, last, t, RanksOf(before, t), RankRecords(RanksOf(before, t), last.records));
      } else {
        LeastSame(before, last, t, RanksOf(before, t));
      }
    }
  }

  lemma RanksOfNothing(t: Task)
    ensures LeastListed([], t, RanksOf([], t))
  {
    NothingListed(t);
  }

  lemma LeastSame(before: seq<Event>, last: Event, t: Task, ranks: map<Rid, int>)
    requires LeastListed(before, t, ranks) && !(last.Recall? && last.task == t)
    ensures LeastListed(before + [last], t, ranks)
  {
    hide Listed;
    ListedMore(before, last, t);
  }

  lemma NothingListed(t: Task)
    ensures forall r, rank :: !Listed([], t, r, rank)
  {
  }

  lemma ListedMore(before: seq<Event>, last: Event, t: Task)
    ensures forall r, rank :: Listed(before + [last], t, r, rank) <==>
      Listed(before, t, r, rank)
      || (last.Recall? && last.task == t && exists x :: x in last.records && x.id == r && x.rank == rank)
  {
    forall r, rank
      ensures Listed(before + [last], t, r, rank) <==>
        Listed(before, t, r, rank)
        || (last.Recall? && last.task == t && exists x :: x in last.records && x.id == r && x.rank == rank)
    {
      ListedOne(before, last, t, r, rank);
    }
  }

  lemma ListedOne(before: seq<Event>, last: Event, t: Task, r: Rid, rank: int)
    ensures Listed(before + [last], t, r, rank) <==>
      Listed(before, t, r, rank)
      || (last.Recall? && last.task == t && exists x :: x in last.records && x.id == r && x.rank == rank)
  {
    var events := before + [last];
    assert forall e :: e in events <==> e in before || e == last;
    if Listed(before, t, r, rank) {
      var e, x :| e in before && e.Recall? && e.task == t && x in e.records && x.id == r && x.rank == rank;
      assert e in events;
    }
    if last.Recall? && last.task == t && exists x :: x in last.records && x.id == r && x.rank == rank {
      assert last in events;
    }
  }

  lemma LeastMore(before: seq<Event>, last: Event, t: Task, ranks: map<Rid, int>, after: map<Rid, int>)
    requires LeastListed(before, t, ranks) && last.Recall? && last.task == t
    requires forall r :: r in after ==>
      (r in ranks && after[r] == ranks[r]) || exists x :: x in last.records && x.id == r && x.rank == after[r]
    requires forall r :: r in ranks ==> r in after && after[r] <= ranks[r]
    requires forall x :: x in last.records ==> x.id in after && after[x.id] <= x.rank
    ensures LeastListed(before + [last], t, after)
  {
    hide Listed;
    ListedMore(before, last, t);
  }

  // ---------------------------------------------------------------- counting pairs and tasks

  lemma PairsOfOne(t: Task, ids: set<Rid>)
    ensures |set r | r in ids :: (t, r)| == |ids|
    decreases |ids|
  {
    var pairs := set r | r in ids :: (t, r);
    if ids != {} {
      var x :| x in ids;
      PairsOfOne(t, ids - {x});
      assert pairs == (set r | r in ids - {x} :: (t, r)) + {(t, x)};
    } else {
      assert pairs == {};
    }
  }

  /** Pairs of one more finish, whose task is new. */
  lemma PairsAdd(front: seq<Event>, f: Event, pick: Event -> seq<Rid>)
    requires f.Finished? && forall x :: x in front ==> x.task != f.task
    ensures |Pairs(front + [f], pick)| == |Pairs(front, pick)| + |Members(pick(f))|
  {
    var more := set r | r in Members(pick(f)) :: (f.task, r);
    PairsOfOne(f.task, Members(pick(f)));
    assert forall x :: x in front + [f] <==> x in front || x == f;
    assert Pairs(front + [f], pick) == Pairs(front, pick) + more;
    assert Pairs(front, pick) !! more;
  }

  /** What is asked of a finished task: a recall, a recalled record, a useful recalled record. */
  datatype Condition = WithRecall | WithRecord | WithHit

  ghost predicate Meets(events: seq<Event>, f: Event, c: Condition) {
    match c
    case WithRecall => HasRecalls(events, f.task)
    case WithRecord => RecalledIds(events, f.task) != {}
    case WithHit => IsHit(events, f)
  }

  ghost function Tasks(events: seq<Event>, fs: seq<Event>, c: Condition): set<Task> {
    set f | f in fs && Meets(events, f, c) :: f.task
  }

  lemma TasksAdd(events: seq<Event>, front: seq<Event>, f: Event, c: Condition)
    requires forall x :: x in front ==> x.task != f.task
    ensures |Tasks(events, front + [f], c)| == |Tasks(events, front, c)| + if Meets(events, f, c) then 1 else 0
  {
    hide Meets;
    var all, some := Tasks(events, front + [f], c), Tasks(events, front, c);
    forall x ensures x in front + [f] <==> x in front || x == f {}
    assert f.task !in some;
    if Meets(events, f, c) {
      assert all == some + {f.task};
    } else {
      assert all == some;
    }
  }

  /** Pairs of a finished task and a record that it recalled. */
  ghost function RecalledPairs(events: seq<Event>, fs: seq<Event>): set<(Task, Rid)> {
    set f, r | f in fs && r in RecalledIds(events, f.task) :: (f.task, r)
  }

  lemma RecalledAdd(events: seq<Event>, front: seq<Event>, f: Event)
    requires forall x :: x in front ==> x.task != f.task
    ensures |RecalledPairs(events, front + [f])| == |RecalledPairs(events, front)| + |RecalledIds(events, f.task)|
  {
    var more := set r | r in RecalledIds(events, f.task) :: (f.task, r);
    PairsOfOne(f.task, RecalledIds(events, f.task));
    assert forall x :: x in front + [f] <==> x in front || x == f;
    assert RecalledPairs(events, front + [f]) == RecalledPairs(events, front) + more;
    assert RecalledPairs(events, front) !! more;
  }

  /** The best ranks of these tasks' useful recalled records, one for each task that has one. */
  ghost predicate BestRanks(events: seq<Event>, fs: seq<Event>, hits: seq<Event>, ranks: seq<int>) {
    && |hits| == |ranks| && TasksDiffer(hits)
    && (forall f :: f in hits <==> f in fs && IsHit(events, f))
    && forall i :: 0 <= i < |hits| ==> hits[i].Finished? && IsBestRank(events, hits[i], ranks[i]) && ranks[i] >= 1
  }

  // ---------------------------------------------------------------- one finish

  /** What one finish adds, in terms of the log. */
  lemma AddedByOne(events: seq<Event>, t: Tally, f: Event)
    requires RanksOk(events) && f.Finished?
    ensures AllRecalls(events, f.task)
    ensures forall r :: r in RankMap(TaskRecalls(events, f.task)) ==> RankMap(TaskRecalls(events, f.task))[r] >= 1
    ensures var s := AddTask(t, f, RankMap(TaskRecalls(events, f.task)), TaskRecalls(events, f.task) != []);
      && s.completed == t.completed + 1
      && s.useful == t.useful + |Members(f.useful)| && s.misleading == t.misleading + |Members(f.misleading)|
      && s.stale == t.stale + |Members(f.stale)| && s.recalled == t.recalled + |RecalledIds(events, f.task)|
      && s.recallTasks == t.recallTasks + (if HasRecalls(events, f.task) then 1 else 0)
      && s.usefulRecallTasks == t.usefulRecallTasks + (if IsHit(events, f) then 1 else 0)
      && s.reciprocals == t.reciprocals + (if RecalledIds(events, f.task) != {} then 1 else 0)
      && (!IsHit(events, f) ==> s.reciprocalSum == t.reciprocalSum)
      && (IsHit(events, f) ==> exists m ::
            IsBestRank(events, f, m) && m >= 1 && s.reciprocalSum == t.reciprocalSum + 1.0 / m as real)
  {
    hide RankMap, TaskRecalls, RanksOk, Listed, RecalledIds;
    RankMapKeys(events, f.task);
    RecallsAreRecalls(events, f.task);
    RanksAreLeast(events, f.task);
    var ranks := RankMap(TaskRecalls(events, f.task));
    assert |ranks| == |ranks.Keys|;
    assert IsHit(events, f) <==> UsefulRanks(f, ranks) != {} by { HitIff(events, f, ranks); }
    if IsHit(events, f) {
      BestIsLeast(events, f, ranks);
    }
  }

  lemma HitIff(events: seq<Event>, f: Event, ranks: map<Rid, int>)
    requires f.Finished? && LeastListed(events, f.task, ranks)
    ensures IsHit(events, f) <==> UsefulRanks(f, ranks) != {}
  {
    hide Listed;
    if IsHit(events, f) {
      var r :| r in f.useful && IsRecalled(events, f.task, r);
      var rank :| Listed(events, f.task, r, rank);
      assert ranks[r] in UsefulRanks(f, ranks);
    }
    if UsefulRanks(f, ranks) != {} {
      var m :| m in UsefulRanks(f, ranks);
      var r :| r in f.useful && r in ranks && ranks[r] == m;
      assert Listed(events, f.task, r, m);
    }
  }

  lemma BestIsLeast(events: seq<Event>, f: Event, ranks: map<Rid, int>)
    requires f.Finished? && LeastListed(events, f.task, ranks) && UsefulRanks(f, ranks) != {}
    ensures IsBestRank(events, f, MinRank(UsefulRanks(f, ranks)))
  {
    hide Listed;
    var best := UsefulRanks(f, ranks);
    var m := MinRank(best);
    var r :| r in f.useful && r in ranks && ranks[r] == m;
    forall r, rank | r in f.useful && Listed(events, f.task, r, rank) ensures m <= rank {
      assert ranks[r] in best;
    }
  }

  // ---------------------------------------------------------------- all finishes

  /** The counters over these finishes, whose tasks differ. */
  ghost predicate Means(events: seq<Event>, fs: seq<Event>, t: Tally) {
    && t.completed == |fs|
    && t.useful == |Pairs(fs, Useful)| && t.misleading == |Pairs(fs, Misleading)| && t.stale == |Pairs(fs, Stale)|
    && t.recalled == |RecalledPairs(events, fs)|
    && t.recallTasks == |Tasks(events, fs, WithRecall)|
    && t.usefulRecallTasks == |Tasks(events, fs, WithHit)|
    && t.reciprocals == |Tasks(events, fs, WithRecord)|
  }

  lemma {:induction false} TallyMeans(events: seq<Event>, fs: seq<Event>)
    requires RanksOk(events) && AllFinishes(fs) && TasksDiffer(fs)
    ensures Means(events, fs, TallyOf(events, fs))
    decreases |fs|
  {
    hide RanksOk, RankMap, AddTask, TaskRecalls, IsHit, HasRecalls, RecalledIds;
    if fs == [] {
      NothingCounted(events);
    } else {
      var front, f := fs[..|fs| - 1], fs[|fs| - 1];
      assert fs == front + [f];
      TallyMeans(events, front);
      MeansMore(events, front, f, TallyOf(events, front));
    }
  }

  lemma NothingCounted(events: seq<Event>)
    ensures Means(events, [], NO_TALLY)
  {
    assert Pairs([], Useful) == Pairs([], Misleading) == Pairs([], Stale) == {};
    assert RecalledPairs(events, []) == {};
    assert Tasks(events, [], WithRecall) == Tasks(events, [], WithHit) == Tasks(events, [], WithRecord) == {};
  }

  lemma MeansMore(events: seq<Event>, front: seq<Event>, f: Event, t: Tally)
    requires RanksOk(events) && f.Finished? && Means(events, front, t) && forall x :: x in front ==> x.task != f.task
    ensures AllRecalls(events, f.task)
    ensures forall r :: r in RankMap(TaskRecalls(events, f.task)) ==> RankMap(TaskRecalls(events, f.task))[r] >= 1
    ensures Means(events, front + [f],
      AddTask(t, f, RankMap(TaskRecalls(events, f.task)), TaskRecalls(events, f.task) != []))
  {
    hide RanksOk, RankMap, AddTask, TaskRecalls, IsHit, HasRecalls, RecalledIds, Pairs, Tasks, RecalledPairs;
    AddedByOne(events, t, f);
    PairsAdd(front, f, Useful);
    PairsAdd(front, f, Misleading);
    PairsAdd(front, f, Stale);
    RecalledAdd(events, front, f);
    TasksAdd(events, front, f, WithRecall);
    TasksAdd(events, front, f, WithHit);
    TasksAdd(events, front, f, WithRecord);
  }

  /** The sum of reciprocals is over the best ranks of the tasks that have one. */
  lemma {:induction false} SumMeans(events: seq<Event>, fs: seq<Event>) returns (hits: seq<Event>, ranks: seq<int>)
    requires RanksOk(events) && AllFinishes(fs) && TasksDiffer(fs)
    ensures BestRanks(events, fs, hits, ranks)
    ensures TallyOf(events, fs).reciprocalSum == Reciprocals(ranks)
    decreases |fs|
  {
    hide RanksOk, RankMap, AddTask, TaskRecalls, IsHit, RecalledIds, IsBestRank;
    hits, ranks := [], [];
    if fs != [] {
      var front, f := fs[..|fs| - 1], fs[|fs| - 1];
      assert fs == front + [f];
      var h, rs := SumMeans(events, front);
      AddedByOne(events, TallyOf(events, front), f);
      hits, ranks := h, rs;
      if IsHit(events, f) {
        var m :| IsBestRank(events, f, m) && m >= 1
          && TallyOf(events, fs).reciprocalSum == TallyOf(events, front).reciprocalSum + 1.0 / m as real;
        hits, ranks := h + [f], rs + [m];
        assert ranks[..|ranks| - 1] == rs;
      }
      BestMore(events, front, f, h, rs, hits, ranks);
    }
  }

  lemma BestMore(events: seq<Event>, front: seq<Event>, f: Event, h: seq<Event>, rs: seq<int>,
                 hits: seq<Event>, ranks: seq<int>)
    requires BestRanks(events, front, h, rs) && f.Finished? && forall x :: x in front ==> x.task != f.task
    requires if IsHit(events, f) then |ranks| == |rs| + 1 && ranks[..|rs|] == rs && hits == h + [f]
      && IsBestRank(events, f, ranks[|rs|]) && ranks[|rs|] >= 1 else hits == h && ranks == rs
    ensures BestRanks(events, front + [f], hits, ranks)
  {
    hide IsHit, IsBestRank;
    assert forall x :: x in front + [f] <==> x in front || x == f;
    assert forall x :: x in h + [f] <==> x in h || x == f;
    if IsHit(events, f) {
      forall i | 0 <= i < |h| ensures h[i].task != f.task { assert h[i] in h; }
      forall i | 0 <= i < |hits|
        ensures hits[i].Finished? && IsBestRank(events, hits[i], ranks[i]) && ranks[i] >= 1
      {
        if i < |rs| { assert ranks[i] == ranks[..|rs|][i]; }
      }
    }
  }

  // ---------------------------------------------------------------- the log

  /** The finishes of a valid log, each once and of different tasks. */
  lemma {:induction false} FinishesListed(events: seq<Event>)
    requires LogOk(events)
    ensures AllFinishes(Finishes(events)) && TasksDiffer(Finishes(events))
    ensures forall f :: f in Finishes(events) <==> f in events && f.Finished?
    decreases |events|
  {
    hide LogOk, Finishes, Starts, Finishers, FindStart, TaskRecalls;
    NobodyYet();
    if events != [] {
      var before, last := events[..|events| - 1], events[|events| - 1];
      LogPrefix(events, |events| - 1);
      FinishesListed(before);
      assert events == before + [last];
      OneMoreEvent(before, last);
      if last.Finished? {
        NewFinisher(events);
        TaskIsNew(before, last);
      }
    }
  }

  lemma TaskIsNew(before: seq<Event>, last: Event)
    requires last.Finished? && last.task !in Finishers(before)
    requires forall f :: f in Finishes(before) <==> f in before && f.Finished?
    ensures forall i :: 0 <= i < |Finishes(before)| ==> Finishes(before)[i].task != last.task
  {
    forall i | 0 <= i < |Finishes(before)| ensures Finishes(before)[i].task != last.task {
      assert Finishes(before)[i] in Finishes(before);
    }
  }

  lemma VerdictsRead(events: seq<Event>, fs: seq<Event>)
    requires forall f :: f in fs <==> f in events && f.Finished?
    ensures Pairs(fs, Useful) == set f, r | f in events && f.Finished? && r in f.useful :: (f.task, r)
    ensures Pairs(fs, Misleading) == set f, r | f in events && f.Finished? && r in f.misleading :: (f.task, r)
    ensures Pairs(fs, Stale) == set f, r | f in events && f.Finished? && r in f.stale :: (f.task, r)
  {
  }

  /** A record is among the recalled ones of a task exactly if a recall of it lists one of that name. */
  lemma RecalledListed(events: seq<Event>, t: Task, r: Rid)
    ensures r in RecalledIds(events, t) <==>
      exists e, x :: e in events && e.Recall? && e.task == t && x in e.records && x.id == r
  {
    RecalledMeans(events, t, r);
    if e, x :| e in events && e.Recall? && e.task == t && x in e.records && x.id == r {
      var i :| 0 <= i < |e.records| && e.records[i] == x;
    }
  }

  lemma RecallsRead(events: seq<Event>, fs: seq<Event>)
    requires forall f :: f in fs <==> f in events && f.Finished?
    ensures RecalledPairs(events, fs) ==
      set f, e, x | f in events && f.Finished? && e in events && e.Recall? && e.task == f.task
                    && x in e.records :: (f.task, x.id)
    ensures Tasks(events, fs, WithRecall) ==
      set f, e | f in events && f.Finished? && e in events && e.Recall? && e.task == f.task :: f.task
    ensures Tasks(events, fs, WithRecord) ==
      set f, e, x | f in events && f.Finished? && e in events && e.Recall? && e.task == f.task
                    && x in e.records :: f.task
    ensures Tasks(events, fs, WithHit) ==
      set f, e, x | f in events && f.Finished? && e in events && e.Recall? && e.task == f.task
                    && x in e.records && x.id in f.useful :: f.task
  {
    PairsRead(events, fs);
    WithRecallRead(events, fs);
    WithRecordRead(events, fs);
    WithHitRead(events, fs);
  }

  lemma PairsRead(events: seq<Event>, fs: seq<Event>)
    requires forall f :: f in fs <==> f in events && f.Finished?
    ensures RecalledPairs(events, fs) ==
      set f, e, x | f in events && f.Finished? && e in events && e.Recall? && e.task == f.task
                    && x in e.records :: (f.task, x.id)
  {
    hide RecalledIds;
    forall t, r { RecalledListed(events, t, r); }
  }

  lemma WithRecallRead(events: seq<Event>, fs: seq<Event>)
    requires forall f :: f in fs <==> f in events && f.Finished?
    ensures Tasks(events, fs, WithRecall) ==
      set f, e | f in events && f.Finished? && e in events && e.Recall? && e.task == f.task :: f.task
  {
  }

  lemma WithRecordRead(events: seq<Event>, fs: seq<Event>)
    requires forall f :: f in fs <==> f in events && f.Finished?
    ensures Tasks(events, fs, WithRecord) ==
      set f, e, x | f in events && f.Finished? && e in events && e.Recall? && e.task == f.task
                    && x in e.records :: f.task
  {
    hide RecalledIds;
    forall f: Event
      ensures Meets(events, f, WithRecord) <==>
        exists e, x :: e in events && e.Recall? && e.task == f.task && x in e.records
    {
      RecordListed(events, f.task);
    }
  }

  lemma RecordListed(events: seq<Event>, t: Task)
    ensures RecalledIds(events, t) != {} <==>
      exists e, x :: e in events && e.Recall? && e.task == t && x in e.records
  {
    hide RecalledIds;
    if RecalledIds(events, t) != {} {
      var r :| r in RecalledIds(events, t);
      RecalledListed(events, t, r);
    }
    if e, x :| e in events && e.Recall? && e.task == t && x in e.records { RecalledListed(events, t, x.id); }
  }

  lemma WithHitRead(events: seq<Event>, fs: seq<Event>)
    requires forall f :: f in fs <==> f in events && f.Finished?
    ensures Tasks(events, fs, WithHit) ==
      set f, e, x | f in events && f.Finished? && e in events && e.Recall? && e.task == f.task
                    && x in e.records && x.id in f.useful :: f.task
  {
    forall f: Event | f.Finished?
      ensures IsHit(events, f) <==>
        exists e, x :: e in events && e.Recall? && e.task == f.task && x in e.records && x.id in f.useful
    {
      HitListed(events, f);
    }
  }

  lemma HitListed(events: seq<Event>, f: Event)
    requires f.Finished?
    ensures IsHit(events, f) <==>
      exists e, x :: e in events && e.Recall? && e.task == f.task && x in e.records && x.id in f.useful
  {
    if e, x :| e in events && e.Recall? && e.task == f.task && x in e.records && x.id in f.useful {
      assert Listed(events, f.task, x.id, x.rank);
      assert IsRecalled(events, f.task, x.id);
    }
  }

  /**
   * Every counter of the summary of a valid log, read off its events: completed tasks; verdicts of
   * each kind, as pairs of task and record; records recalled by finished tasks; finished tasks with
   * a recall, with a recalled record, and with a useful recalled record.
   */
  lemma CountersMean(events: seq<Event>)
    requires LogOk(events) && RanksOk(events)
    ensures AllFinishes(Finishes(events))
    ensures var t := TallyOf(events, Finishes(events));
      && t.completed == |set f | f in events && f.Finished? :: f.task|
      && t.useful == |set f, r | f in events && f.Finished? && r in f.useful :: (f.task, r)|
      && t.misleading == |set f, r | f in events && f.Finished? && r in f.misleading :: (f.task, r)|
      && t.stale == |set f, r | f in events && f.Finished? && r in f.stale :: (f.task, r)|
      && t.recalled == |set f, e, x | f in events && f.Finished? && e in events && e.Recall? && e.task == f.task
                                      && x in e.records :: (f.task, x.id)|
      && t.recallTasks == |set f, e | f in events && f.Finished? && e in events && e.Recall?
                                      && e.task == f.task :: f.task|
      && t.reciprocals == |set f, e, x | f in events && f.Finished? && e in events && e.Recall? && e.task == f.task
                                         && x in e.records :: f.task|
      && t.usefulRecallTasks == |set f, e, x | f in events && f.Finished? && e in events && e.Recall?
                                               && e.task == f.task && x in e.records && x.id in f.useful :: f.task|
  {
    hide LogOk, RanksOk, TallyOf, Finishes, RecalledIds;
    var fs := Finishes(events);
    FinishesListed(events);
    TallyMeans(events, fs);
    FinishersCounted(events);
    VerdictsRead(events, fs);
    RecallsRead(events, fs);
  }

  /**
   * The sum of reciprocals is taken over the finishes with a useful recalled record, each once, at
   * the least rank under which a recall of its task lists one of its useful records.
   */
  lemma SumReadOff(events: seq<Event>) returns (hits: seq<Event>, ranks: seq<int>)
    requires LogOk(events) && RanksOk(events)
    ensures AllFinishes(Finishes(events)) && BestRanks(events, Finishes(events), hits, ranks)
    ensures forall f :: f in hits <==> f in events && IsHit(events, f)
    ensures TallyOf(events, Finishes(events)).reciprocalSum == Reciprocals(ranks)
  {
    hide LogOk, RanksOk, TallyOf, Finishes, Reciprocals;
    FinishesListed(events);
    hits, ranks := SumMeans(events, Finishes(events));
  }
}
