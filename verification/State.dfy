/**
 * The state of an execution graph, and what each transition of the engine makes of it.  Every
 * transition works on a private copy, so it is a function from a snapshot to a snapshot or a
 * refusal; after a refusal the caller still has the old snapshot.
 */
module State {
  import opened Basics
  import opened Digraph
  import opened JsonValues
  import opened Order
  import opened Topology

  const MAX_ATTEMPTS: nat := 10000
  const MAX_WALL_TIME: nat := 86400000

  datatype Status = Pending | Ready | Running | Produced | Accepted | Failed | Reopened | Invalidated | Blocked

  datatype GraphStatus =
    | GraphPending | GraphRunning | RetryPending | GraphAccepted | GraphFailed | ConvergedFailed | Stalled

  datatype Stage = Produce | Check | Correct

  datatype Attempts = Attempts(produce: nat, check: nat, correct: nat) {
    function Total(): nat { produce + check + correct }

    function Of(stage: Stage): nat {
      match stage case Produce => produce case Check => check case Correct => correct
    }

    function Bump(stage: Stage): Attempts {
      match stage
      case Produce => this.(produce := produce + 1)
      case Check => this.(check := check + 1)
      case Correct => this.(correct := correct + 1)
    }

    /** Direct completions and failures count as a check, saturating. */
    function BumpCheck(): Attempts {
      this.(check := if check + 1 < MAX_ATTEMPTS then check + 1 else MAX_ATTEMPTS)
    }
  }

  datatype RetryPolicy = RetryPolicy(
    maxAttemptPerUnit: Option<nat>, maxAttempts: Option<nat>,
    maxProduce: Option<nat>, maxCheck: Option<nat>, maxCorrect: Option<nat>)
  {
    function Stage(stage: Stage): Option<nat> {
      match stage case Produce => maxProduce case Check => maxCheck case Correct => maxCorrect
    }
  }

  datatype Unit = Unit(
    dependencies: seq<Id>, ownership: Json, schema: Schema, policy: RetryPolicy,
    status: Status, attempts: Attempts)

  datatype Limits = Limits(
    maxAttemptPerUnit: nat, maxGraphSteps: nat, maxTotalChildRuns: nat,
    maxWallTime: Option<nat>, maxParallelism: nat)

  datatype Counters = Counters(
    graphSteps: nat, totalChildRuns: nat, attempts: nat, retries: nat,
    acceptedUnits: nat, failedUnits: nat, reopenedUnits: nat, invalidatedUnits: nat, parallelWidth: nat)

  datatype Times = Times(started: nat, updated: nat, ended: Option<nat>)

  /** Why a unit failed: its output does not fit, a reason code, or the output handed in with the failure. */
  datatype FailureNote = SchemaInvalid | Reason(code: string) | Output(value: Json)

  /** Why a graph stopped converging. */
  datatype ConvergenceReason = MaxGraphSteps | MaxTotalChildRuns | MaxWallTime | BudgetExhausted

  datatype Constraint = Constraint(id: string, statement: string, verified: bool, reusable: bool)

  datatype Graph = Graph(
    units: map<Id, Unit>, edges: set<Edge>, status: GraphStatus,
    accepted: map<Id, Json>, failed: map<Id, FailureNote>, working: map<Id, Json>,
    limits: Limits, counters: Counters, times: Times,
    failureReason: Option<ConvergenceReason>, sendBacks: nat, constraints: seq<Constraint>)

  // ---------------------------------------------------------------- structure

  /** Dependencies count as edges whether or not they are also listed as such. */
  function Arcs(g: Graph): set<Edge> {
    g.edges + set u, d | u in g.units && d in g.units[u].dependencies :: Edge(d, u)
  }

  predicate LimitOk(limit: Option<nat>) { limit.Some? ==> 1 <= limit.value <= MAX_ATTEMPTS }

  predicate PolicyOk(p: RetryPolicy) {
    LimitOk(p.maxAttemptPerUnit) && LimitOk(p.maxAttempts) &&
    LimitOk(p.maxProduce) && LimitOk(p.maxCheck) && LimitOk(p.maxCorrect)
  }

  predicate LimitsOk(l: Limits) {
    && 1 <= l.maxAttemptPerUnit <= MAX_ATTEMPTS && 1 <= l.maxGraphSteps <= MAX_ATTEMPTS
    && 1 <= l.maxTotalChildRuns <= MAX_ATTEMPTS && 1 <= l.maxParallelism <= MAX_ATTEMPTS
    && (l.maxWallTime.Some? ==> 1 <= l.maxWallTime.value <= MAX_WALL_TIME)
  }

  predicate UnitOk(g: Graph, u: Id)
    requires u in g.units
  {
    var unit := g.units[u];
    && NodeOk(Node(u, unit.dependencies))
    && (forall d :: d in unit.dependencies ==> d in g.units)
    && PolicyOk(unit.policy)
    && unit.attempts.produce <= MAX_ATTEMPTS &&
    unit.attempts.check <= MAX_ATTEMPTS && unit.attempts.correct <= MAX_ATTEMPTS
  }

  /** What can be checked of a snapshot without looking for cycles. */
  predicate ShapeOk(g: Graph) {
    && |g.units| <= MAX_NODES
    && (forall u :: u in g.units ==> UnitOk(g, u))
    && (forall e :: e in g.edges ==> EdgeOk(g.units.Keys, e))
    && g.accepted.Keys <= g.units.Keys && g.failed.Keys <= g.units.Keys
    && LimitsOk(g.limits)
  }

  /** What every call demands of the snapshot it is given. */
  ghost predicate WellFormed(g: Graph) { ShapeOk(g) && Acyclic(Arcs(g)) }

  predicate DependencyReady(g: Graph, u: Id) {
    forall e :: e in Arcs(g) && e.to == u ==> e.from in g.units && g.units[e.from].status == Accepted
  }

  predicate Executable(s: Status) {
    s in {Pending, Ready, Running, Reopened, Produced, Accepted, Invalidated}
  }

  /** A status that keeps the graph running. */
  predicate IsOpen(s: Status) { s in {Pending, Ready, Reopened, Invalidated, Produced, Running} }

  predicate Selectable(s: Status) { s in {Pending, Ready, Reopened, Invalidated} }

  /** `ready_nodes`, as a set. */
  function ReadyUnits(g: Graph): set<Id> {
    set u | u in g.units && Selectable(g.units[u].status) && DependencyReady(g, u)
  }

  function Min(a: nat, b: nat): nat { if a <= b then a else b }

  function AttemptLimit(g: Graph, unit: Unit): nat {
    var p := unit.policy;
    var configured := if p.maxAttemptPerUnit.Some? then p.maxAttemptPerUnit.value
                      else if p.maxAttempts.Some? then p.maxAttempts.value
                      else g.limits.maxAttemptPerUnit;
    Min(g.limits.maxAttemptPerUnit, configured)
  }

  function StageLimit(g: Graph, unit: Unit, stage: Stage): nat {
    var own := unit.policy.Stage(stage);
    if own.Some? then Min(AttemptLimit(g, unit), own.value) else AttemptLimit(g, unit)
  }

  predicate Exhausted(g: Graph, unit: Unit) { unit.attempts.Total() >= AttemptLimit(g, unit) }

  // ---------------------------------------------------------------- counters

  function WithStatus(units: map<Id, Unit>, s: Status): set<Id> {
    set u | u in units && units[u].status == s
  }

  function TotalAttempts(units: map<Id, Unit>): nat
    decreases |units|
  {
    if units == map[] then 0
    else
      BeforeIsTotal();
      var u := Least(Before, units.Keys);
      units[u].attempts.Total() + TotalAttempts(units - {u})
  }

  function RefreshCounts(g: Graph): Graph {
    g.(counters := g.counters.(
      acceptedUnits := |WithStatus(g.units, Accepted)|,
      failedUnits := |WithStatus(g.units, Failed)|,
      reopenedUnits := |WithStatus(g.units, Reopened)|,
      invalidatedUnits := |WithStatus(g.units, Invalidated)|,
      attempts := TotalAttempts(g.units)))
  }

  predicate AllAccepted(g: Graph) { forall u :: u in g.units ==> g.units[u].status == Accepted }

  function RefreshStatus(g: Graph, now: nat): Graph {
    if g.status == ConvergedFailed then g
    else if AllAccepted(g) then
      g.(status := GraphAccepted, times := g.times.(updated := now, ended := Some(now)))
    else if exists u :: u in g.units && g.units[u].status == Failed then g.(status := RetryPending)
    else if exists u :: u in g.units && IsOpen(g.units[u].status) then
      g.(status := GraphRunning)
    else g.(status := Stalled)
  }

  function Refresh(g: Graph, now: nat): Graph { RefreshStatus(RefreshCounts(g), now) }

  // ---------------------------------------------------------------- the step guard

  function MarkConverged(g: Graph, reason: ConvergenceReason, now: nat): Graph {
    g.(status := ConvergedFailed, failureReason := Some(reason),
       times := g.times.(updated := now, ended := Some(now)))
  }

  function CountStep(g: Graph, now: nat, childRun: bool): Graph {
    g.(counters := g.counters.(
         graphSteps := g.counters.graphSteps + 1,
         totalChildRuns := g.counters.totalChildRuns + if childRun then 1 else 0),
       times := g.times.(updated := now))
  }

  predicate OverTime(g: Graph, now: nat) {
    g.limits.maxWallTime.Some? && now - g.times.started > g.limits.maxWallTime.value
  }

  /** Whether the next step stays within the limits. */
  predicate MayStep(g: Graph, now: nat, childRun: bool) {
    && g.status != ConvergedFailed
    && g.counters.graphSteps < g.limits.maxGraphSteps
    && (childRun ==> g.counters.totalChildRuns < g.limits.maxTotalChildRuns)
    && !OverTime(g, now)
  }

  function GuardStep(g: Graph, now: nat, childRun: bool): Graph {
    if g.status == ConvergedFailed then g
    else if g.counters.graphSteps + 1 > g.limits.maxGraphSteps then MarkConverged(g, MaxGraphSteps, now)
    else if childRun && g.counters.totalChildRuns + 1 > g.limits.maxTotalChildRuns then
      MarkConverged(g, MaxTotalChildRuns, now)
    else if OverTime(g, now) then MarkConverged(CountStep(g, now, childRun), MaxWallTime, now)
    else CountStep(g, now, childRun)
  }

  // ---------------------------------------------------------------- rejection

  /** Reopens everything downstream of `u`. */
  ghost function Reopen(g: Graph, u: Id): Graph {
    var down := Downstream(Arcs(g), g.units.Keys, u);
    g.(units := map v | v in g.units :: if v in down then g.units[v].(status := Reopened) else g.units[v],
       accepted := g.accepted - (set v | v in down && g.units[v].status == Accepted),
       failed := g.failed - down,
       working := g.working - down)
  }

  function SetFailed(g: Graph, u: Id, note: FailureNote): Graph
    requires u in g.units
  {
    g.(units := g.units[u := g.units[u].(status := Failed)],
       failed := g.failed[u := note], accepted := g.accepted - {u}, working := g.working - {u})
  }

  function SendBack(g: Graph): Graph {
    RefreshCounts(g.(status := RetryPending, counters := g.counters.(retries := g.counters.retries + 1),
                     sendBacks := g.sendBacks + 1))
  }

  /** A recorded failure of `u`: it fails, everything downstream reopens, the graph awaits a retry. */
  ghost function Reject(g: Graph, u: Id, note: FailureNote): Graph
    requires u in g.units
  {
    SendBack(Reopen(SetFailed(g, u, note), u))
  }

  function SetAccepted(g: Graph, u: Id, output: Json): Graph
    requires u in g.units
  {
    g.(units := g.units[u := g.units[u].(status := Accepted)],
       accepted := g.accepted[u := output], failed := g.failed - {u}, working := g.working - {u})
  }

  function SetProduced(g: Graph, u: Id, output: Json): Graph
    requires u in g.units
  {
    g.(units := g.units[u := g.units[u].(status := Produced)],
       failed := g.failed - {u}, working := if output != Null then g.working[u := output] else g.working)
  }

  function SetAttempts(g: Graph, u: Id, attempts: Attempts): Graph
    requires u in g.units
  {
    g.(units := g.units[u := g.units[u].(attempts := attempts)])
  }

  // ---------------------------------------------------------------- transitions

  /** An outcome reported for an attempt; a missing output is `Null`. */
  datatype Outcome = Outcome(ok: bool, output: Json, reason: string, verified: bool)

  ghost function CompleteUnit(g: Graph, u: Id, output: Json, now: nat): Result<Graph> {
    if !WellFormed(g) then Err(InvalidGraph)
    else if g.status == ConvergedFailed then Err(ConvergenceFailed)
    else if !MayStep(g, now, true) then Ok(GuardStep(g, now, true))
    else if u !in g.units then Err(UnknownUnit)
    else if !Executable(g.units[u].status) || !DependencyReady(g, u) then Err(NotReady)
    else
      var h := CountStep(g, now, true);
      if Exhausted(h, h.units[u]) then Ok(MarkConverged(h, BudgetExhausted, now))
      else if !Conforms(output, h.units[u].schema) then Ok(Reject(h, u, SchemaInvalid))
      else
        var k := SetAttempts(h, u, h.units[u].attempts.BumpCheck());
        Ok(Refresh(SetAccepted(k, u, output), now))
  }

  ghost function FailUnit(g: Graph, u: Id, note: FailureNote, now: nat): Result<Graph> {
    if !WellFormed(g) then Err(InvalidGraph)
    else if g.status == ConvergedFailed then Err(ConvergenceFailed)
    else if !MayStep(g, now, true) then Ok(GuardStep(g, now, true))
    else if u !in g.units then Err(UnknownUnit)
    else
      var h := CountStep(g, now, true);
      if Exhausted(h, h.units[u]) then Ok(MarkConverged(h, BudgetExhausted, now))
      else Ok(Reject(SetAttempts(h, u, h.units[u].attempts.BumpCheck()), u, note))
  }

  ghost function RetryUnit(g: Graph, u: Id, now: nat): Result<Graph> {
    if !WellFormed(g) then Err(InvalidGraph)
    else if u !in g.units then Err(UnknownUnit)
    else if g.units[u].status != Failed then Err(NotFailed)
    else if Exhausted(g, g.units[u]) then Ok(MarkConverged(g, BudgetExhausted, now))
    else
      Ok(RefreshCounts(g.(
        units := g.units[u := g.units[u].(status := Reopened)], failed := g.failed - {u},
        status := RetryPending, times := g.times.(updated := now))))
  }

  /** The value a check or a verified correction judges. */
  function Candidate(g: Graph, u: Id, output: Json): Json {
    if output != Null then output else if u in g.working then g.working[u] else Null
  }

  /** A successful check, or a successful correction reported as verified, is judged at once. */
  predicate Judged(stage: Stage, outcome: Outcome) {
    stage == Check || (stage == Correct && outcome.verified)
  }

  ghost function RecordAttempt(g: Graph, u: Id, stage: Stage, outcome: Outcome, now: nat): Result<Graph> {
    if !WellFormed(g) then Err(InvalidGraph)
    else if g.status == ConvergedFailed then Err(ConvergenceFailed)
    else if u !in g.units then Err(UnknownUnit)
    else if !Executable(g.units[u].status) || !DependencyReady(g, u) then Err(NotReady)
    else if Exhausted(g, g.units[u]) || g.units[u].attempts.Of(stage) >= StageLimit(g, g.units[u], stage) then
      Ok(MarkConverged(g, BudgetExhausted, now))
    else if !MayStep(g, now, true) then Ok(GuardStep(g, now, true))
    else
      var h := CountStep(g, now, true);
      var k := SetAttempts(h, u, h.units[u].attempts.Bump(stage));
      Ok(Judge(k, u, stage, outcome, now))
  }

  ghost function Judge(k: Graph, u: Id, stage: Stage, outcome: Outcome, now: nat): Graph
    requires u in k.units
  {
    if !outcome.ok then Reject(k, u, Reason(outcome.reason))
    else if Judged(stage, outcome) && !Conforms(Candidate(k, u, outcome.output), k.units[u].schema) then
      Reject(k, u, SchemaInvalid)
    else if Judged(stage, outcome) then Refresh(SetAccepted(k, u, Candidate(k, u, outcome.output)), now)
    else Refresh(SetProduced(k, u, outcome.output), now)
  }

  function FinalizeGraph(g: Graph, now: nat): Graph {
    if AllAccepted(g) then
      g.(status := GraphAccepted, times := g.times.(updated := now, ended := Some(now)))
    else RefreshStatus(g, now)
  }

  // ---------------------------------------------------------------- rounds

  /** Ready units in order, skipping those whose owner already has one, up to `room` of them. */
  function Pick(g: Graph, candidates: seq<Id>, owners: set<Json>, room: nat): seq<Id>
    requires forall i :: 0 <= i < |candidates| ==> candidates[i] in g.units
    decreases |candidates|
  {
    if candidates == [] || room == 0 then []
    else
      var u, rest := candidates[0], candidates[1..];
      if g.units[u].ownership in owners then Pick(g, rest, owners, room)
      else [u] + Pick(g, rest, owners + {g.units[u].ownership}, room - 1)
  }

  function ReadyNodes(g: Graph): (ready: seq<Id>)
    ensures Ascending(Before, ready) && forall u :: u in ready <==> u in ReadyUnits(g)
    ensures forall i :: 0 <= i < |ready| ==> ready[i] in g.units
  {
    BeforeIsTotal();
    var ready := Sort(Before, ReadyUnits(g));
    assert forall i :: 0 <= i < |ready| ==> ready[i] in ready && ready[i] in ReadyUnits(g);
    ready
  }

  function ParallelReady(g: Graph, room: nat): seq<Id> {
    Pick(g, ReadyNodes(g), {}, room)
  }

  /** One entry of the outcomes supplied to a round. */
  datatype RoundOutcome = Direct(outcome: Outcome) | Staged(stage: Stage, outcome: Outcome)

  ghost function ApplyOutcome(g: Graph, u: Id, r: RoundOutcome, now: nat): Result<Graph> {
    match r
    case Staged(stage, outcome) => RecordAttempt(g, u, stage, outcome, now)
    case Direct(outcome) =>
      if outcome.ok then CompleteUnit(g, u, outcome.output, now)
      else FailUnit(g, u, Reason(outcome.reason), now)
  }

  ghost function ApplyOutcomes(g: Graph, selected: seq<Id>, outcomes: map<Id, RoundOutcome>, now: nat): Result<Graph>
    decreases |selected|
  {
    if selected == [] then Ok(g)
    else if selected[0] !in outcomes then ApplyOutcomes(g, selected[1..], outcomes, now)
    else
      var r := ApplyOutcome(g, selected[0], outcomes[selected[0]], now);
      if r.Err? || r.value.status == ConvergedFailed then r
      else ApplyOutcomes(r.value, selected[1..], outcomes, now)
  }

  function MarkReady(g: Graph, selected: seq<Id>): Graph {
    g.(units := map u | u in g.units :: if u in selected then g.units[u].(status := Ready) else g.units[u],
       counters := g.counters.(parallelWidth :=
         if g.counters.parallelWidth < |selected| then |selected| else g.counters.parallelWidth))
  }

  ghost function AdvanceGraph(g: Graph, outcomes: map<Id, RoundOutcome>, width: Option<int>, now: nat): Result<Graph> {
    if !WellFormed(g) then Err(InvalidGraph)
    else if g.status == GraphAccepted || g.status == ConvergedFailed then Ok(g)
    else if width.Some? && width.value < 1 then Err(BadParallelism)
    else
      var selected := ParallelReady(g, if width.Some? then width.value else g.limits.maxParallelism);
      var h := RefreshStatus(MarkReady(g, selected), now);
      if outcomes == map[] then Ok(Refresh(GuardStep(h, now, false), now))
      else
        var r := ApplyOutcomes(h, selected, outcomes, now);
        if r.Err? then r else Ok(Refresh(r.value, now))
  }

  // ---------------------------------------------------------------- constraints

  ghost function RecordConstraint(g: Graph, c: Constraint, now: nat): Result<Graph> {
    if !WellFormed(g) then Err(InvalidGraph)
    else if !c.verified then Err(UnverifiedConstraint)
    else if exists i :: 0 <= i < |g.constraints| && g.constraints[i].id == c.id then Err(DuplicateConstraint)
    else Ok(g.(constraints := g.constraints + [c], times := g.times.(updated := now)))
  }

  /** Insertion before the first constraint whose identifier is not lower. */
  function InsertById(c: Constraint, cs: seq<Constraint>): seq<Constraint> {
    if cs != [] && Before(cs[0].id, c.id) then [cs[0]] + InsertById(c, cs[1..]) else [c] + cs
  }

  /** The reusable verified constraints, sorted by identifier. */
  function Exportable(cs: seq<Constraint>): seq<Constraint> {
    if cs == [] then []
    else if cs[0].verified && cs[0].reusable then InsertById(cs[0], Exportable(cs[1..])) else Exportable(cs[1..])
  }

  /** What leaves the engine: the reusable verified constraints of an accepted graph, nothing otherwise. */
  function ExportedConstraints(g: Graph): seq<Constraint> {
    if g.status == GraphAccepted then Exportable(g.constraints) else []
  }

  // ---------------------------------------------------------------- runs

  datatype UnitSpec = UnitSpec(node: Node, ownership: Json, schema: Schema, policy: RetryPolicy)

  function Nodes(specs: seq<UnitSpec>): seq<Node> {
    seq(|specs|, i requires 0 <= i < |specs| => specs[i].node)
  }

  function InitialUnit(spec: UnitSpec): Unit {
    Unit(spec.node.dependencies, spec.ownership, spec.schema, spec.policy, Pending, Attempts(0, 0, 0))
  }

  /** The units by identifier, all pending and without attempts. */
  function InitialUnits(specs: seq<UnitSpec>): (units: map<Id, Unit>)
    ensures units.Keys == Ids(Nodes(specs))
    ensures forall u :: u in units ==>
      exists i :: 0 <= i < |specs| && specs[i].node.id == u && units[u] == InitialUnit(specs[i])
    decreases |specs|
  {
    if specs == [] then map[]
    else
      var last := specs[|specs| - 1];
      var before := InitialUnits(specs[..|specs| - 1]);
      assert Nodes(specs) == Nodes(specs[..|specs| - 1]) + [last.node];
      OneMoreNode(Nodes(specs[..|specs| - 1]), last.node);
      before[last.node.id := InitialUnit(last)]
  }

  ghost predicate ValidSpecs(specs: seq<UnitSpec>, edges: seq<Edge>, limits: Limits) {
    && ValidListing(Nodes(specs), edges)
    && (forall i :: 0 <= i < |specs| ==> PolicyOk(specs[i].policy))
    && LimitsOk(limits)
    && Acyclic(AllEdges(Nodes(specs), edges))
  }

  function InitialGraph(specs: seq<UnitSpec>, edges: seq<Edge>, limits: Limits,
                        constraints: seq<Constraint>, now: nat): Graph {
    RefreshCounts(Graph(InitialUnits(specs), AllEdges(Nodes(specs), edges),
      if specs == [] then GraphAccepted else GraphPending,
      map[], map[], map[], limits, Counters(0, 0, 0, 0, 0, 0, 0, 0, 0),
      Times(now, now, if specs == [] then Some(now) else None), None, 0, constraints))
  }

  datatype Call =
    | Complete(unit: Id, output: Json)
    | Fail(unit: Id, note: FailureNote)
    | Retry(unit: Id)
    | Record(unit: Id, stage: Stage, outcome: Outcome)
    | Advance(outcomes: map<Id, RoundOutcome>, width: Option<int>)
    | Finalize
    | AddConstraint(constraint: Constraint)

  ghost function Step(g: Graph, call: Call, now: nat): Result<Graph> {
    match call
    case Complete(u, output) => CompleteUnit(g, u, output, now)
    case Fail(u, note) => FailUnit(g, u, note, now)
    case Retry(u) => RetryUnit(g, u, now)
    case Record(u, stage, outcome) => RecordAttempt(g, u, stage, outcome, now)
    case Advance(outcomes, width) => AdvanceGraph(g, outcomes, width, now)
    case Finalize => if WellFormed(g) then Ok(FinalizeGraph(g, now)) else Err(InvalidGraph)
    case AddConstraint(c) => RecordConstraint(g, c, now)
  }

  /** The snapshot the caller holds after a call: a refusal leaves it as it was. */
  ghost function After(g: Graph, call: Call, now: nat): Graph {
    var r := Step(g, call, now);
    if r.Ok? then r.value else g
  }

  datatype Timed = Timed(call: Call, now: nat)

  ghost function Run(g: Graph, calls: seq<Timed>): Graph
    decreases |calls|
  {
    if calls == [] then g
    else var last := calls[|calls| - 1]; After(Run(g, calls[..|calls| - 1]), last.call, last.now)
  }

  /** `g` comes about from a freshly created graph by some calls. */
  ghost predicate Reachable(g: Graph) {
    exists specs, edges, limits, constraints, now, calls ::
      ValidSpecs(specs, edges, limits) && g == Run(InitialGraph(specs, edges, limits, constraints, now), calls)
  }
}
