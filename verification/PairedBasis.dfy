/**
 * The paired basis of the dashboard's on/off comparison.  A row here is one whose benchmark says
 * in which mode it ran and how it ended; version, pair and scope may still be missing or wrong.
 */
module PairedBasis {
  import opened Basics

  datatype Mode = On | Off

  /** `tag` tells rows apart that agree in everything else. */
  datatype Row = Row(mode: Mode, paired: bool, pairId: Option<string>, scopeId: Option<string>, tag: nat)

  datatype Identity = Identity(pair: string, scope: string)

  predicate Identified(r: Row) { r.paired && r.pairId.Some? && r.scopeId.Some? }

  function IdentityOf(r: Row): Identity
    requires Identified(r)
  {
    Identity(r.pairId.value, r.scopeId.value)
  }

  predicate Belongs(r: Row, mode: Mode, id: Identity) { Identified(r) && r.mode == mode && IdentityOf(r) == id }

  /** The rows of one mode filed under one identity, in the order listed. */
  function Filed(rows: seq<Row>, mode: Mode, id: Identity): seq<Row>
    decreases |rows|
  {
    if rows == [] then []
    else
      var last := rows[|rows| - 1];
      Filed(rows[..|rows| - 1], mode, id) + if Belongs(last, mode, id) then [last] else []
  }

  /** How many identified rows fall under one of the identities. */
  function Under(rows: seq<Row>, ids: set<Identity>): nat
    decreases |rows|
  {
    if rows == [] then 0
    else
      var last := rows[|rows| - 1];
      Under(rows[..|rows| - 1], ids) + if Identified(last) && IdentityOf(last) in ids then 1 else 0
  }

  function OldVersions(rows: seq<Row>): nat
    decreases |rows|
  {
    if rows == [] then 0 else OldVersions(rows[..|rows| - 1]) + if rows[|rows| - 1].paired then 0 else 1
  }

  function Anonymous(rows: seq<Row>): nat
    decreases |rows|
  {
    if rows == [] then 0
    else
      var last := rows[|rows| - 1];
      Anonymous(rows[..|rows| - 1]) + if last.paired && !Identified(last) then 1 else 0
  }

  function Identities(rows: seq<Row>): set<Identity> { set r | r in rows && Identified(r) :: IdentityOf(r) }

  /** An identity with exactly one row in each mode. */
  predicate IsPair(rows: seq<Row>, id: Identity) { |Filed(rows, On, id)| == |Filed(rows, Off, id)| == 1 }

  /** Rows in both modes, but more than one in some. */
  predicate IsDuplicate(rows: seq<Row>, id: Identity) {
    !IsPair(rows, id) && Filed(rows, On, id) != [] && Filed(rows, Off, id) != []
  }

  /** Rows in one mode only. */
  predicate IsUnpaired(rows: seq<Row>, id: Identity) { !IsPair(rows, id) && !IsDuplicate(rows, id) }

  datatype Excluded = Excluded(v1: nat, missingIdentity: nat, duplicate: nat, unpaired: nat)

  lemma {:induction false} UnderOne(rows: seq<Row>, id: Identity)
    ensures Under(rows, {id}) == |Filed(rows, On, id)| + |Filed(rows, Off, id)|
    decreases |rows|
  {
    if rows != [] { UnderOne(rows[..|rows| - 1], id); }
  }

  lemma {:induction false} UnderSplits(rows: seq<Row>, a: set<Identity>, b: set<Identity>)
    requires a !! b
    ensures Under(rows, a + b) == Under(rows, a) + Under(rows, b)
    decreases |rows|
  {
    if rows != [] { UnderSplits(rows[..|rows| - 1], a, b); }
  }

  lemma {:induction false} UnderNone(rows: seq<Row>)
    ensures Under(rows, {}) == 0
    decreases |rows|
  {
    if rows != [] { UnderNone(rows[..|rows| - 1]); }
  }

  /** Every row is of an old version, or anonymous, or under some identity. */
  lemma {:induction false} EveryRowCounted(rows: seq<Row>, ids: set<Identity>)
    requires forall r :: r in rows && Identified(r) ==> IdentityOf(r) in ids
    ensures |rows| == OldVersions(rows) + Anonymous(rows) + Under(rows, ids)
    decreases |rows|
  {
    if rows != [] {
      var front, last := rows[..|rows| - 1], rows[|rows| - 1];
      assert last in rows && forall r :: r in front ==> r in rows;
      EveryRowCounted(front, ids);
    }
  }

  lemma {:induction false} FiledElements(rows: seq<Row>, mode: Mode, id: Identity)
    ensures forall r :: r in Filed(rows, mode, id) <==> r in rows && Belongs(r, mode, id)
    decreases |rows|
  {
    if rows != [] {
      var front, last := rows[..|rows| - 1], rows[|rows| - 1];
      FiledElements(front, mode, id);
      assert rows == front + [last];
    }
  }

  type Index = map<Identity, seq<Row>>

  function Entry(index: Index, id: Identity): seq<Row> { if id in index then index[id] else [] }

  ghost predicate Indexes(index: Index, rows: seq<Row>, mode: Mode) {
    && (forall id :: Entry(index, id) == Filed(rows, mode, id))
    && (forall id :: id in index ==> index[id] != [])
  }

  lemma FiledMore(rows: seq<Row>, n: nat, mode: Mode, id: Identity)
    requires n < |rows|
    ensures Filed(rows[..n + 1], mode, id) ==
            (if Belongs(rows[n], mode, id) then Filed(rows[..n], mode, id) + [rows[n]] else Filed(rows[..n], mode, id))
  {
    assert rows[..n + 1][..n] == rows[..n];
  }

  lemma CountsMore(rows: seq<Row>, n: nat)
    requires n < |rows|
    ensures OldVersions(rows[..n + 1]) == OldVersions(rows[..n]) + if rows[n].paired then 0 else 1
    ensures Anonymous(rows[..n + 1]) == Anonymous(rows[..n]) + if rows[n].paired && !Identified(rows[n]) then 1 else 0
  {
    assert rows[..n + 1][..n] == rows[..n];
  }

  /** The index with one row more. */
  function Enter(index: Index, row: Row, mode: Mode): Index {
    if Identified(row) && row.mode == mode then
      index[IdentityOf(row) := Entry(index, IdentityOf(row)) + [row]] else index
  }

  lemma IndexesMore(index: Index, rows: seq<Row>, n: nat, mode: Mode)
    requires n < |rows| && Indexes(index, rows[..n], mode)
    ensures Indexes(Enter(index, rows[n], mode), rows[..n + 1], mode)
  {
    hide Filed;
    var next := Enter(index, rows[n], mode);
    forall id ensures Entry(next, id) == Filed(rows[..n + 1], mode, id) { FiledMore(rows, n, mode, id); }
  }

  lemma NothingFiled()
    ensures Indexes(map[], [], On) && Indexes(map[], [], Off) && OldVersions([]) == Anonymous([]) == 0
  {
  }

  /** The filing pass. */
  method File(rows: seq<Row>) returns (on: Index, off: Index, v1: nat, missing: nat)
    ensures Indexes(on, rows, On) && Indexes(off, rows, Off)
    ensures v1 == OldVersions(rows) && missing == Anonymous(rows)
  {
    hide Filed, OldVersions, Anonymous, Indexes;
    on, off, v1, missing := map[], map[], 0, 0;
    NothingFiled();
    assert rows[..0] == [];
    for n := 0 to |rows|
      invariant Indexes(on, rows[..n], On) && Indexes(off, rows[..n], Off)
      invariant v1 == OldVersions(rows[..n]) && missing == Anonymous(rows[..n])
    {
      var row := rows[n];
      CountsMore(rows, n);
      IndexesMore(on, rows, n, On);
      IndexesMore(off, rows, n, Off);
      if !row.paired {
        v1 := v1 + 1;
      } else if row.pairId.None? || row.scopeId.None? {
        missing := missing + 1;
      } else {
        var id := IdentityOf(row);
        match row.mode
        case On => on := on[id := Entry(on, id) + [row]];
        case Off => off := off[id := Entry(off, id) + [row]];
      }
    }
    assert rows[..|rows|] == rows;
  }

  /** The pairs are exactly the identities among `ids` with one row in each mode, each once. */
  ghost predicate PairsOf(pairs: seq<(Row, Row)>, rows: seq<Row>, ids: set<Identity>) {
    && (forall i :: 0 <= i < |pairs| ==> PairsSome(pairs[i], rows, ids))
    && (forall id :: id in ids && IsPair(rows, id) ==> Paired(pairs, rows, id))
    && (forall i, j :: 0 <= i < j < |pairs| ==> pairs[i] != pairs[j])
  }

  ghost predicate PairsSome(pair: (Row, Row), rows: seq<Row>, ids: set<Identity>) {
    exists id :: id in ids && IsPairOf(pair, rows, id)
  }

  ghost predicate Paired(pairs: seq<(Row, Row)>, rows: seq<Row>, id: Identity) {
    exists i :: 0 <= i < |pairs| && IsPairOf(pairs[i], rows, id)
  }

  ghost predicate IsPairOf(pair: (Row, Row), rows: seq<Row>, id: Identity) {
    Filed(rows, On, id) == [pair.0] && Filed(rows, Off, id) == [pair.1]
  }

  function Duplicates(rows: seq<Row>, ids: set<Identity>): set<Identity> { set id | id in ids && IsDuplicate(rows, id) }

  function Lonely(rows: seq<Row>, ids: set<Identity>): set<Identity> { set id | id in ids && IsUnpaired(rows, id) }

  /** A pair's rows carry its identity, so different identities give different pairs. */
  lemma PairsDiffer(a: (Row, Row), b: (Row, Row), rows: seq<Row>, x: Identity, y: Identity)
    requires IsPairOf(a, rows, x) && IsPairOf(b, rows, y) && x != y
    ensures a != b
  {
    FiledElements(rows, On, x);
    FiledElements(rows, On, y);
    assert a.0 in Filed(rows, On, x) && b.0 in Filed(rows, On, y);
  }

  lemma IdentityOfPair(pairs: seq<(Row, Row)>, rows: seq<Row>, ids: set<Identity>, i: nat) returns (x: Identity)
    requires PairsOf(pairs, rows, ids) && i < |pairs|
    ensures x in ids && IsPairOf(pairs[i], rows, x)
  {
    assert PairsSome(pairs[i], rows, ids);
    x :| x in ids && IsPairOf(pairs[i], rows, x);
  }

  /** One identity more that is not a pair. */
  lemma NoPair(pairs: seq<(Row, Row)>, rows: seq<Row>, done: set<Identity>, id: Identity)
    requires PairsOf(pairs, rows, done) && !IsPair(rows, id)
    ensures PairsOf(pairs, rows, done + {id})
  {
    forall i | 0 <= i < |pairs| ensures PairsSome(pairs[i], rows, done + {id}) {
      var x := IdentityOfPair(pairs, rows, done, i);
      assert x in done + {id};
    }
  }

  /** One identity more that is a pair. */
  lemma OnePair(pairs: seq<(Row, Row)>, rows: seq<Row>, done: set<Identity>, id: Identity, pair: (Row, Row))
    requires PairsOf(pairs, rows, done) && id !in done && IsPairOf(pair, rows, id)
    ensures PairsOf(pairs + [pair], rows, done + {id})
  {
    hide IsPairOf, IsPair;
    var next := pairs + [pair];
    forall i | 0 <= i < |next| ensures PairsSome(next[i], rows, done + {id}) {
      if i < |pairs| {
        var x := IdentityOfPair(pairs, rows, done, i);
        assert x in done + {id} && next[i] == pairs[i];
      } else {
        assert id in done + {id};
      }
    }
    forall x | x in done + {id} && IsPair(rows, x) ensures Paired(next, rows, x) {
      if x in done {
        var i :| 0 <= i < |pairs| && IsPairOf(pairs[i], rows, x);
        assert next[i] == pairs[i];
      } else {
        assert next[|pairs|] == pair;
      }
    }
    forall i | 0 <= i < |pairs| ensures pairs[i] != pair {
      var x := IdentityOfPair(pairs, rows, done, i);
      PairsDiffer(pairs[i], pair, rows, x, id);
    }
  }

  datatype Partition = Partition(pairs: seq<(Row, Row)>, duplicate: nat, unpaired: nat)

  /** What the pairing pass has established once it has seen the identities `done`. */
  ghost predicate Sorted(rows: seq<Row>, done: set<Identity>, b: Partition) {
    && PairsOf(b.pairs, rows, done)
    && b.duplicate == Under(rows, Duplicates(rows, done)) && b.unpaired == Under(rows, Lonely(rows, done))
    && Under(rows, done) == 2 * |b.pairs| + b.duplicate + b.unpaired
  }

  lemma SortedNone(rows: seq<Row>)
    ensures Sorted(rows, {}, Partition([], 0, 0))
  {
    UnderNone(rows);
    assert Duplicates(rows, {}) == {} && Lonely(rows, {}) == {};
  }

  /** Where the rows of one identity go. */
  function Place(b: Partition, onRows: seq<Row>, offRows: seq<Row>): Partition {
    if |onRows| == |offRows| == 1 then b.(pairs := b.pairs + [(onRows[0], offRows[0])])
    else if onRows != [] && offRows != [] then b.(duplicate := b.duplicate + |onRows| + |offRows|)
    else b.(unpaired := b.unpaired + |onRows| + |offRows|)
  }

  lemma SortedMore(rows: seq<Row>, done: set<Identity>, b: Partition, id: Identity)
    requires Sorted(rows, done, b) && id !in done
    ensures Sorted(rows, done + {id}, Place(b, Filed(rows, On, id), Filed(rows, Off, id)))
  {
    hide Under, Filed;
    UnderOne(rows, id);
    UnderSplits(rows, done, {id});
    var d, l := Duplicates(rows, done), Lonely(rows, done);
    UnderSplits(rows, d, {id});
    UnderSplits(rows, l, {id});
    assert Duplicates(rows, done + {id}) == if IsDuplicate(rows, id) then d + {id} else d;
    assert Lonely(rows, done + {id}) == if IsUnpaired(rows, id) then l + {id} else l;
    if IsPair(rows, id) {
      OnePair(b.pairs, rows, done, id, (Filed(rows, On, id)[0], Filed(rows, Off, id)[0]));
    } else {
      NoPair(b.pairs, rows, done, id);
    }
  }

  lemma EntryIs(index: Index, rows: seq<Row>, mode: Mode, id: Identity)
    requires Indexes(index, rows, mode)
    ensures Entry(index, id) == Filed(rows, mode, id)
  {
  }

  /** The pairing pass, over the identities of either mode in any order. */
  method Pair(on: Index, off: Index, ghost rows: seq<Row>)
    returns (pairs: seq<(Row, Row)>, duplicate: nat, unpaired: nat)
    requires Indexes(on, rows, On) && Indexes(off, rows, Off)
    ensures Sorted(rows, on.Keys + off.Keys, Partition(pairs, duplicate, unpaired))
  {
    hide Sorted, Filed, Indexes, Entry, Place, Remaining;
    pairs, duplicate, unpaired := [], 0, 0;
    var todo := on.Keys + off.Keys;
    ghost var ids, done: set<Identity> := todo, {};
    SortedNone(rows);
    NoneTaken(ids);
    while todo != {}
      invariant Remaining(todo, done, ids)
      invariant Sorted(rows, done, Partition(pairs, duplicate, unpaired))
      decreases |todo|
    {
      var id :| id in todo;
      TakeOne(todo, done, ids, id);
      EntryIs(on, rows, On, id);
      EntryIs(off, rows, Off, id);
      SortedMore(rows, done, Partition(pairs, duplicate, unpaired), id);
      pairs, duplicate, unpaired := PlaceRows(pairs, duplicate, unpaired, Entry(on, id), Entry(off, id));
      todo, done := todo - {id}, done + {id};
    }
    AllTaken(todo, done, ids);
  }

  ghost predicate Remaining(todo: set<Identity>, done: set<Identity>, ids: set<Identity>) {
    done <= ids && todo == ids - done
  }

  lemma NoneTaken(ids: set<Identity>)
    ensures Remaining(ids, {}, ids)
  {
  }

  lemma TakeOne(todo: set<Identity>, done: set<Identity>, ids: set<Identity>, id: Identity)
    requires Remaining(todo, done, ids) && id in todo
    ensures id !in done && Remaining(todo - {id}, done + {id}, ids)
  {
  }

  lemma AllTaken(todo: set<Identity>, done: set<Identity>, ids: set<Identity>)
    requires Remaining(todo, done, ids) && todo == {}
    ensures done == ids
  {
    forall id | id in ids ensures id in done { assert id in done || id in todo; }
  }

  method PlaceRows(pairs: seq<(Row, Row)>, duplicate: nat, unpaired: nat, onRows: seq<Row>, offRows: seq<Row>)
    returns (p: seq<(Row, Row)>, d: nat, u: nat)
    ensures Partition(p, d, u) == Place(Partition(pairs, duplicate, unpaired), onRows, offRows)
  {
    p, d, u := pairs, duplicate, unpaired;
    if |onRows| == |offRows| == 1 {
      p := pairs + [(onRows[0], offRows[0])];
    } else if onRows != [] && offRows != [] {
      d := duplicate + |onRows| + |offRows|;
    } else {
      u := unpaired + |onRows| + |offRows|;
    }
  }

  /** The identities of the two indexes are those of the rows. */
  lemma IndexKeys(on: Index, off: Index, rows: seq<Row>)
    requires Indexes(on, rows, On) && Indexes(off, rows, Off)
    ensures on.Keys + off.Keys == Identities(rows)
  {
    forall id ensures id in on.Keys + off.Keys <==> id in Identities(rows) {
      FiledElements(rows, On, id);
      FiledElements(rows, Off, id);
      if id in Identities(rows) {
        var r :| r in rows && Identified(r) && IdentityOf(r) == id;
        assert r in Filed(rows, r.mode, id);
      }
      if id in on { assert on[id][0] in Entry(on, id); }
      if id in off { assert off[id][0] in Entry(off, id); }
    }
  }

  /**
   * The basis as a whole.  Every evidence row is used in exactly one way: as half of a pair, or
   * as a row excluded for its version, its missing identity, a duplicate or a missing partner.
   */
  method Basis(rows: seq<Row>) returns (pairs: seq<(Row, Row)>, excluded: Excluded)
    ensures PairsOf(pairs, rows, Identities(rows))
    ensures excluded.v1 == OldVersions(rows) && excluded.missingIdentity == Anonymous(rows)
    ensures excluded.duplicate == Under(rows, Duplicates(rows, Identities(rows)))
    ensures excluded.unpaired == Under(rows, Lonely(rows, Identities(rows)))
    ensures |rows| == 2 * |pairs| + excluded.v1 + excluded.missingIdentity + excluded.duplicate + excluded.unpaired
  {
    var on, off, v1, missing := File(rows);
    var duplicate, unpaired;
    pairs, duplicate, unpaired := Pair(on, off, rows);
    IndexKeys(on, off, rows);
    EveryRowCounted(rows, Identities(rows));
    excluded := Excluded(v1, missing, duplicate, unpaired);
  }

  // ---------------------------------------------------------------- read off the rows

  predicate Alike(a: Row, b: Row) {
    && a.paired && b.paired && a.pairId != None && a.scopeId != None
    && a.pairId == b.pairId && a.scopeId == b.scopeId
  }

  /** The row has a partner in the other mode. */
  predicate Partnered(rows: seq<Row>, n: nat)
    requires n < |rows|
  {
    exists k :: 0 <= k < |rows| && Alike(rows[n], rows[k]) && rows[k].mode != rows[n].mode
  }

  /** Two rows of its pair and scope are of one mode. */
  predicate Crowded(rows: seq<Row>, n: nat)
    requires n < |rows|
  {
    exists i, j :: 0 <= i < j < |rows| && Alike(rows[n], rows[i]) && Alike(rows[n], rows[j])
      && rows[i].mode == rows[j].mode
  }

  /** Nothing is filed exactly if there is no such row, more than one row exactly if there are two such places. */
  lemma {:induction false} FiledSize(rows: seq<Row>, mode: Mode, id: Identity)
    ensures Filed(rows, mode, id) != [] <==> exists k :: 0 <= k < |rows| && Belongs(rows[k], mode, id)
    ensures |Filed(rows, mode, id)| >= 2 <==>
      exists i, j :: 0 <= i < j < |rows| && Belongs(rows[i], mode, id) && Belongs(rows[j], mode, id)
    decreases |rows|
  {
    if rows != [] {
      var n := |rows| - 1;
      var front, last := rows[..n], rows[n];
      FiledSize(front, mode, id);
      assert rows == front + [last];
      if Filed(front, mode, id) != [] {
        var k :| 0 <= k < n && Belongs(front[k], mode, id);
        assert Belongs(rows[k], mode, id);
      }
      if |Filed(front, mode, id)| >= 2 {
        var i, j :| 0 <= i < j < n && Belongs(front[i], mode, id) && Belongs(front[j], mode, id);
        assert Belongs(rows[i], mode, id) && Belongs(rows[j], mode, id);
      }
      if i, j :| 0 <= i < j < |rows| && Belongs(rows[i], mode, id) && Belongs(rows[j], mode, id) {
        assert Belongs(front[i], mode, id);
        if j < n { assert Belongs(front[j], mode, id); }
      }
    }
  }

  lemma KindOf(rows: seq<Row>, n: nat)
    requires n < |rows| && Identified(rows[n])
    ensures IsPair(rows, IdentityOf(rows[n])) <==> Partnered(rows, n) && !Crowded(rows, n)
    ensures IsDuplicate(rows, IdentityOf(rows[n])) <==> Partnered(rows, n) && Crowded(rows, n)
    ensures IsUnpaired(rows, IdentityOf(rows[n])) <==> !Partnered(rows, n)
  {
    var id := IdentityOf(rows[n]);
    FiledSize(rows, On, id);
    FiledSize(rows, Off, id);
    assert Belongs(rows[n], rows[n].mode, id);
    forall k, mode | 0 <= k < |rows|
      ensures Belongs(rows[k], mode, id) <==> Alike(rows[n], rows[k]) && rows[k].mode == mode
    {
    }
  }

  /** Whether the row carries a pair and a scope of the version that has them. */
  predicate Named(r: Row) { r.paired && r.pairId != None && r.scopeId != None }

  datatype Heading = OldVersion | NoIdentity | Duplicate | NoPartner

  /** What a row is left out for. */
  predicate LeftOutFor(rows: seq<Row>, n: nat, h: Heading)
    requires n < |rows|
  {
    match h
    case OldVersion => !rows[n].paired
    case NoIdentity => rows[n].paired && !Named(rows[n])
    case Duplicate => Named(rows[n]) && Partnered(rows, n) && Crowded(rows, n)
    case NoPartner => Named(rows[n]) && !Partnered(rows, n)
  }

  function LeftOut(rows: seq<Row>, h: Heading): set<nat> { set n: nat | n < |rows| && LeftOutFor(rows, n, h) }

  function Within(rows: seq<Row>, ids: set<Identity>): set<nat> {
    set n: nat | n < |rows| && Identified(rows[n]) && IdentityOf(rows[n]) in ids
  }

  lemma {:induction false} UnderIs(rows: seq<Row>, ids: set<Identity>)
    ensures Under(rows, ids) == |Within(rows, ids)|
    decreases |rows|
  {
    if rows != [] {
      var k := |rows| - 1;
      UnderIs(rows[..k], ids);
      assert Within(rows, ids) ==
        Within(rows[..k], ids) + if Identified(rows[k]) && IdentityOf(rows[k]) in ids then {k} else {};
    }
  }

  lemma {:induction false} OldIs(rows: seq<Row>)
    ensures OldVersions(rows) == |LeftOut(rows, OldVersion)|
    decreases |rows|
  {
    if rows != [] {
      var k := |rows| - 1;
      OldIs(rows[..k]);
      OldMore(rows, k);
    }
  }

  lemma OldMore(rows: seq<Row>, k: nat)
    requires |rows| == k + 1
    ensures LeftOut(rows, OldVersion) == LeftOut(rows[..k], OldVersion) + if rows[k].paired then {} else {k}
  {
    hide Partnered, Crowded, Named;
    var front := rows[..k];
    assert forall n: nat :: n < k ==> (LeftOutFor(front, n, OldVersion) <==> LeftOutFor(rows, n, OldVersion));
    assert LeftOutFor(rows, k, OldVersion) <==> !rows[k].paired;
    hide LeftOutFor;
  }

  lemma {:induction false} AnonymousIs(rows: seq<Row>)
    ensures Anonymous(rows) == |LeftOut(rows, NoIdentity)|
    decreases |rows|
  {
    if rows != [] {
      var k := |rows| - 1;
      AnonymousIs(rows[..k]);
      hide Partnered, Crowded;
      assert LeftOut(rows, NoIdentity) ==
        LeftOut(rows[..k], NoIdentity) + if rows[k].paired && !Named(rows[k]) then {k} else {};
    }
  }

  lemma WithinIs(rows: seq<Row>, ids: set<Identity>, h: Heading)
    requires forall n: nat :: n < |rows| ==>
      (Identified(rows[n]) && IdentityOf(rows[n]) in ids <==> LeftOutFor(rows, n, h))
    ensures Within(rows, ids) == LeftOut(rows, h)
  {
    hide LeftOutFor;
  }

  /** The counters of what is left out, read off the rows. */
  lemma ExclusionsMean(rows: seq<Row>)
    ensures OldVersions(rows) == |LeftOut(rows, OldVersion)| && Anonymous(rows) == |LeftOut(rows, NoIdentity)|
    ensures Under(rows, Duplicates(rows, Identities(rows))) == |LeftOut(rows, Duplicate)|
    ensures Under(rows, Lonely(rows, Identities(rows))) == |LeftOut(rows, NoPartner)|
  {
    OldIs(rows);
    AnonymousIs(rows);
    var twice, alone := Duplicates(rows, Identities(rows)), Lonely(rows, Identities(rows));
    UnderIs(rows, twice);
    UnderIs(rows, alone);
    hide Partnered, Crowded, Under, LeftOut, Within, IsDuplicate, IsUnpaired;
    forall n: nat | n < |rows|
      ensures Identified(rows[n]) && IdentityOf(rows[n]) in twice <==> LeftOutFor(rows, n, Duplicate)
      ensures Identified(rows[n]) && IdentityOf(rows[n]) in alone <==> LeftOutFor(rows, n, NoPartner)
    {
      if Identified(rows[n]) {
        KindOf(rows, n);
        assert rows[n] in rows;
      }
    }
    WithinIs(rows, twice, Duplicate);
    WithinIs(rows, alone, NoPartner);
  }

  /**
   * The pairs, read off the rows: an on row and an off row of one pair and scope, with no third row
   * of it; and every row that has a partner and no third row beside it is half of one of them.
   */
  lemma PairsMean(rows: seq<Row>, pairs: seq<(Row, Row)>)
    requires PairsOf(pairs, rows, Identities(rows))
    ensures forall i :: 0 <= i < |pairs| ==>
      && pairs[i].0 in rows && pairs[i].1 in rows && pairs[i].0.mode == On && pairs[i].1.mode == Off
      && Alike(pairs[i].0, pairs[i].1)
      && forall r :: r in rows && Alike(pairs[i].0, r) ==> r in {pairs[i].0, pairs[i].1}
    ensures forall n: nat :: n < |rows| && Named(rows[n]) && Partnered(rows, n) && !Crowded(rows, n) ==>
      exists i :: 0 <= i < |pairs| && rows[n] in {pairs[i].0, pairs[i].1}
  {
    forall i | 0 <= i < |pairs|
      ensures pairs[i].0 in rows && pairs[i].1 in rows && pairs[i].0.mode == On && pairs[i].1.mode == Off
      ensures Alike(pairs[i].0, pairs[i].1)
      ensures forall r :: r in rows && Alike(pairs[i].0, r) ==> r in {pairs[i].0, pairs[i].1}
    {
      assert PairsSome(pairs[i], rows, Identities(rows));
      var id :| id in Identities(rows) && IsPairOf(pairs[i], rows, id);
      HalvesOf(rows, pairs[i], id);
    }
    forall n: nat | n < |rows| && Named(rows[n]) && Partnered(rows, n) && !Crowded(rows, n)
      ensures exists i :: 0 <= i < |pairs| && rows[n] in {pairs[i].0, pairs[i].1}
    {
      hide Partnered, Crowded;
      KindOf(rows, n);
      var id := IdentityOf(rows[n]);
      assert rows[n] in rows && id in Identities(rows);
      assert Paired(pairs, rows, id);
      var i :| 0 <= i < |pairs| && IsPairOf(pairs[i], rows, id);
      HalvesOf(rows, pairs[i], id);
      assert Alike(pairs[i].0, rows[n]);
    }
  }

  lemma HalvesOf(rows: seq<Row>, pair: (Row, Row), id: Identity)
    requires IsPairOf(pair, rows, id)
    ensures pair.0 in rows && pair.1 in rows && pair.0.mode == On && pair.1.mode == Off && Alike(pair.0, pair.1)
    ensures Identified(pair.0) && IdentityOf(pair.0) == id
    ensures forall r :: r in rows && Alike(pair.0, r) ==> r in {pair.0, pair.1}
  {
    FiledElements(rows, On, id);
    FiledElements(rows, Off, id);
    assert pair.0 in Filed(rows, On, id) && pair.1 in Filed(rows, Off, id);
    forall r | r in rows && Alike(pair.0, r) ensures r in {pair.0, pair.1} {
      assert Belongs(r, r.mode, id) && r in Filed(rows, r.mode, id);
    }
  }
}
