/**
 * How the route columns of an event are read, and how a merged record is read as a run.  Labels
 * are ASCII; a model column keeps its label as written, while its family is read from the label
 * stripped and in lower case.
 */
module RouteColumns {
  import opened Basics
  import opened JsonValues
  import opened Projection
  import RouteImpact

  // ---------------------------------------------------------------- labels

  predicate IsSpace(c: char) { c == ' ' || '\t' <= c <= '\r' }

  predicate IsAlnum(c: char) { '0' <= c <= '9' || 'A' <= c <= 'Z' || 'a' <= c <= 'z' }

  predicate IsDelimiter(c: char) { c == '-' || c == '_' || c == '.' }

  /** A letter or digit, and at most 127 more of these, dots, underscores, colons and dashes. */
  predicate IsLabel(s: string) {
    && 1 <= |s| <= 128 && IsAlnum(s[0])
    && forall i :: 0 <= i < |s| ==> IsAlnum(s[i]) || IsDelimiter(s[i]) || s[i] == ':'
  }

  function StripLeft(s: string): string {
    if s != [] && IsSpace(s[0]) then StripLeft(s[1..]) else s
  }

  function StripRight(s: string): string
    decreases |s|
  {
    if s != [] && IsSpace(s[|s| - 1]) then StripRight(s[..|s| - 1]) else s
  }

  function LowerChar(c: char): char { if 'A' <= c <= 'Z' then c - 'A' + 'a' else c }

  function Lower(s: string): string { seq(|s|, i requires 0 <= i < |s| => LowerChar(s[i])) }

  /** `_text` */
  function Text(s: string): string { Lower(StripRight(StripLeft(s))) }

  /** The name stands at a place of the label, alone or between delimiters. */
  predicate NamedAt(s: string, name: string, i: nat) {
    && i + |name| <= |s| && s[i..i + |name|] == name
    && (i == 0 || IsDelimiter(s[i - 1])) && (i + |name| == |s| || IsDelimiter(s[i + |name|]))
  }

  predicate Names(s: string, name: string) { exists i: nat :: i <= |s| && NamedAt(s, name, i) }

  /** `_model_family` */
  function FamilyOf(given: string): Option<RouteImpact.Family> {
    var text := Text(given);
    if !IsLabel(text) then None
    else if Names(text, "sol") then Some(RouteImpact.Sol)
    else if Names(text, "terra") then Some(RouteImpact.Terra)
    else if Names(text, "luna") then Some(RouteImpact.Luna)
    else Some(RouteImpact.Other)
  }

  // ---------------------------------------------------------------- columns

  /** The columns of a record that a run is made of. */
  datatype Column =
    | DecisionSource | RequestedModel | ActualModel
    | RequestedFamily | ActualFamily | RequestedReasoning | ActualReasoning

  function Name(c: Column): string {
    match c
    case DecisionSource => "decision_source"
    case RequestedModel => "requested_model"
    case ActualModel => "actual_model"
    case RequestedFamily => "requested_family"
    case ActualFamily => "actual_family"
    case RequestedReasoning => "requested_reasoning"
    case ActualReasoning => "actual_reasoning"
  }

  /** What an event says of a route; `None` where it says nothing or nothing that can be read. */
  datatype Report = Report(
    source: RouteImpact.Source, requested: Option<string>, actual: Option<string>,
    requestedLevel: Option<RouteImpact.Level>, actualLevel: Option<RouteImpact.Level>)

  /** A label that can be read as it stands, without stripping. */
  function Readable(given: Option<string>): Option<string> {
    if given.Some? && IsLabel(given.value) then given else None
  }

  /** `_observed_actual`: readable, and not a way of saying that nothing was observed. */
  function Observed(given: Option<string>): Option<string> {
    if Readable(given).None? || Text(given.value) in {"unknown", "unknown-model", "unobserved"} then None else given
  }

  /** The family columns: the requested one is read from the label given, the actual one from the label kept. */
  function FamilyIn(given: Option<string>): Option<RouteImpact.Family> {
    if given.Some? then FamilyOf(given.value) else None
  }

  /** What one event contributes to a run. */
  function RunOf(e: Report): RouteImpact.Run {
    RouteImpact.Run(e.source, Readable(e.requested), Observed(e.actual),
                    FamilyIn(e.requested), FamilyIn(Observed(e.actual)), e.requestedLevel, e.actualLevel)
  }

  /** In what comes from a single event, equal labels mean equal families. */
  lemma OneEventIsConsistent(e: Report)
    ensures RouteImpact.SameLabelSameFamily(RunOf(e))
  {
  }

  // ---------------------------------------------------------------- runs as records

  function FamilyJson(f: RouteImpact.Family): Json {
    match f case Sol => Int(0) case Terra => Int(1) case Luna => Int(2) case Other => Int(3)
  }

  function LevelJson(l: RouteImpact.Level): Json {
    match l
    case Low => Int(0) case Medium => Int(1) case High => Int(2)
    case XHigh => Int(3) case MaxLevel => Int(4) case Ultra => Int(5)
  }

  function SourceJson(s: RouteImpact.Source): Json {
    match s
    case Routecraft => Int(0) case User => Int(1) case Codex => Int(2) case Fallback => Int(3)
      case Unattributed => Int(4)
  }

  /** The value of one column of a run, `Null` where there is none; closed vocabularies are numbered. */
  function Cell(r: RouteImpact.Run, c: Column): Json {
    match c
    case DecisionSource => SourceJson(r.source)
    case RequestedModel => if r.requestedModel.Some? then Str(r.requestedModel.value) else Null
    case ActualModel => if r.actualModel.Some? then Str(r.actualModel.value) else Null
    case RequestedFamily => if r.requestedFamily.Some? then FamilyJson(r.requestedFamily.value) else Null
    case ActualFamily => if r.actualFamily.Some? then FamilyJson(r.actualFamily.value) else Null
    case RequestedReasoning => if r.requestedReasoning.Some? then LevelJson(r.requestedReasoning.value) else Null
    case ActualReasoning => if r.actualReasoning.Some? then LevelJson(r.actualReasoning.value) else Null
  }

  /** A record holds a run: each of the run's columns, where it is not null, under the column's name. */
  ghost predicate Holds(m: Record, r: RouteImpact.Run) {
    forall c: Column ::
      if Cell(r, c) == Null then Name(c) !in m.values else Name(c) in m.values && m.values[Name(c)] == Cell(r, c)
  }

  function Either<T>(a: Option<T>, b: Option<T>): Option<T> { if a.Some? then a else b }

  /** Column by column the newer run, and the older one where the newer is silent. */
  function Combine(newer: RouteImpact.Run, older: RouteImpact.Run): RouteImpact.Run {
    RouteImpact.Run(newer.source, Either(newer.requestedModel, older.requestedModel),
                    Either(newer.actualModel, older.actualModel),
                    Either(newer.requestedFamily, older.requestedFamily),
                    Either(newer.actualFamily, older.actualFamily),
                    Either(newer.requestedReasoning, older.requestedReasoning),
                    Either(newer.actualReasoning, older.actualReasoning))
  }

  /** The merge of records is that combination of the runs they hold. */
  lemma AbsorbCombines(previous: Record, record: Record, older: RouteImpact.Run, newer: RouteImpact.Run)
    requires Holds(previous, older) && Holds(record, newer) && AtLeastAsNew(record, previous)
    ensures Holds(Absorb(previous, record), Combine(newer, older))
  {
    hide Name, AtLeastAsNew;
    var m := Absorb(previous, record);
    forall c: Column
      ensures if Cell(Combine(newer, older), c) == Null then Name(c) !in m.values
              else Name(c) in m.values && m.values[Name(c)] == Cell(Combine(newer, older), c)
    {
      assert Cell(Combine(newer, older), c) == if Cell(newer, c) != Null then Cell(newer, c) else Cell(older, c);
    }
  }

  // ---------------------------------------------------------------- two events of one run

  /** The run went as requested. */
  const OLDER := Report(RouteImpact.Routecraft, Some("gpt-x"), Some("gpt-x"), Some(RouteImpact.Ultra),
    Some(RouteImpact.Ultra))

  /** A later event repeats the request with spaces around its label. */
  const NEWER := Report(RouteImpact.Routecraft, Some(" sol "), None, None, None)

  lemma OlderRead()
    ensures Readable(OLDER.requested) == Observed(OLDER.actual) == Some("gpt-x")
    ensures FamilyOf("gpt-x") == Some(RouteImpact.Other)
  {
    var s := "gpt-x";
    assert StripRight(StripLeft(s)) == s;
    assert Text(s) == s;
    assert IsLabel(s);
    assert s !in {"unknown", "unknown-model", "unobserved"} by {
      assert |"unknown"| == 7 && |"unknown-model"| == 13 && |"unobserved"| == 10;
    }
    TooFewOrOther(s);
  }

  lemma TooFewOrOther(s: string)
    requires s == "gpt-x"
    ensures !Names(s, "sol") && !Names(s, "terra") && !Names(s, "luna")
  {
    assert forall i :: 0 <= i < |s| ==> s[i] != 'l' && s[i] != 'r';
    forall i: nat | i <= |s| ensures !NamedAt(s, "sol", i) && !NamedAt(s, "terra", i) && !NamedAt(s, "luna", i) {
      assert i + 3 <= |s| ==> s[i..i + 3][2] == s[i + 2] && "sol"[2] == 'l';
      assert i + 5 <= |s| ==> s[i..i + 5][2] == s[i + 2] && "terra"[2] == 'r';
      assert i + 4 <= |s| ==> s[i..i + 4][0] == s[i] && "luna"[0] == 'l';
    }
  }

  lemma NewerRead()
    ensures Readable(NEWER.requested) == None && FamilyOf(" sol ") == Some(RouteImpact.Sol)
  {
    var s := " sol ";
    assert s[1..] == "sol ";
    assert StripLeft("sol ") == "sol ";
    assert "sol "[..3] == "sol";
    assert StripRight("sol") == "sol";
    assert StripRight(StripLeft(s)) == "sol";
    assert Text(s) == "sol";
    assert "sol"[0..0 + |"sol"|] == "sol";
    assert NamedAt("sol", "sol", 0);
  }

  const COLUMNS: seq<Column> := [
    DecisionSource, RequestedModel, ActualModel, RequestedFamily, ActualFamily, RequestedReasoning, ActualReasoning
  ]

  /** The columns of a run that are not null, by name. */
  function ValuesOf(r: RouteImpact.Run, n: nat): map<string, Json>
    requires n <= |COLUMNS|
  {
    if n == 0 then map[]
    else
      var c, before := COLUMNS[n - 1], ValuesOf(r, n - 1);
      if Cell(r, c) == Null then before else before[Name(c) := Cell(r, c)]
  }

  const SOURCE := "codex"
  const RUN_ID := "r1"

  /** The record that holds a run and nothing else. */
  function Written(r: RouteImpact.Run, order: Instant): Record {
    Record(SOURCE, RUN_ID, order, None, ValuesOf(r, |COLUMNS|))
  }

  lemma NamesDiffer(c: Column, d: Column)
    requires Name(c) == Name(d)
    ensures c == d
  {
    assert |Name(c)| == |Name(d)| && Name(c)[0] == Name(d)[0];
  }

  lemma {:induction false} ValuesHold(r: RouteImpact.Run, n: nat, c: Column)
    requires n <= |COLUMNS|
    ensures var m := ValuesOf(r, n);
      if c in COLUMNS[..n] && Cell(r, c) != Null then Name(c) in m && m[Name(c)] == Cell(r, c) else Name(c) !in m
  {
    hide Name, Cell;
    if n > 0 {
      ValuesHold(r, n - 1, c);
      assert COLUMNS[..n] == COLUMNS[..n - 1] + [COLUMNS[n - 1]];
      if Name(COLUMNS[n - 1]) == Name(c) { NamesDiffer(COLUMNS[n - 1], c); }
    }
  }

  lemma AllColumns(c: Column)
    ensures c in COLUMNS[..|COLUMNS|]
  {
    match c
    case DecisionSource => assert COLUMNS[0] == c;
    case RequestedModel => assert COLUMNS[1] == c;
    case ActualModel => assert COLUMNS[2] == c;
    case RequestedFamily => assert COLUMNS[3] == c;
    case ActualFamily => assert COLUMNS[4] == c;
    case RequestedReasoning => assert COLUMNS[5] == c;
    case ActualReasoning => assert COLUMNS[6] == c;
  }

  lemma WrittenHolds(r: RouteImpact.Run, order: Instant)
    ensures Holds(Written(r, order), r)
  {
    hide Name, Cell, ValuesOf;
    forall c: Column
      ensures if Cell(r, c) == Null then Name(c) !in Written(r, order).values
              else Name(c) in Written(r, order).values && Written(r, order).values[Name(c)] == Cell(r, c)
    {
      AllColumns(c);
      ValuesHold(r, |COLUMNS|, c);
    }
  }

  /**
   * Two events of one run merge into a record whose labels agree and whose families do not: the
   * run counts as a change of family and as unchanged at once.
   */
  lemma MergeMixesColumns()
    ensures var m := Absorb(Written(RunOf(OLDER), At(0.0)), Written(RunOf(NEWER), At(1.0)));
      var r := RouteImpact.Run(RouteImpact.Routecraft, Some("gpt-x"), Some("gpt-x"),
                               Some(RouteImpact.Sol), Some(RouteImpact.Other),
                               Some(RouteImpact.Ultra), Some(RouteImpact.Ultra));
      && IsLabel(RUN_ID) && Holds(m, r) &&
      RouteImpact.FamilyChanged(r) && RouteImpact.Unchanged(r) && !RouteImpact.Changed(r)
  {
    hide Holds, Absorb, Written;
    OlderRead();
    NewerRead();
    WrittenHolds(RunOf(OLDER), At(0.0));
    WrittenHolds(RunOf(NEWER), At(1.0));
    assert AtLeastAsNew(Written(RunOf(NEWER), At(1.0)), Written(RunOf(OLDER), At(0.0))) by { LaterIsNewer(); }
    AbsorbCombines(Written(RunOf(OLDER), At(0.0)), Written(RunOf(NEWER), At(1.0)), RunOf(OLDER), RunOf(NEWER));
  }

  lemma LaterIsNewer()
    ensures AtLeastAsNew(Written(RunOf(NEWER), At(1.0)), Written(RunOf(OLDER), At(0.0)))
  {
    hide Name, Cell, RunOf;
  }
}
