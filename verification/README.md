# Verification of the RouteCraft core

A Dafny model of the parts of the RouteCraft plugin that decide things, with proofs of what they
promise.  `dafny verify dfyconfig.toml` checks all of it.

**Execution graph** (`Order` to `Progress`).  `Topology`, `Kahn`, `Cycles` and `Dependents` are the
graph algorithms, as loops over mutable tables and a recursive search object.  `State` says, as
functions from snapshot to snapshot, what each call does; `Engine` and `Calling` do it as the program
does, validating and copying a snapshot and updating the copy in place, and are proved to agree.
`Frame`, `Invariants`, `Calls` and `Safety` prove what every call keeps and every run satisfies;
`Stopping`, `Effects` and `RoundEffects` say in plain numbers when each call is refused, stopped or
carried out and what it then does, without the functions of `State` that decide it;
`Locality`, `Closure`, `Freshness`, `Termination`, `Revival`, `Progress` and `Selection` prove the finer
properties of calls; `Depth`, `Rounds` and `CriticalPath` count rounds.  `Samples`, `Demotion` and
`Uncounted` hold concrete graphs for what only some runs show.  `JsonValues` and `JsonLaws` are the values
units produce and what their equality and schemas mean, `Merge` is how accepted outputs are merged.

**Install transaction** (`Device`).  Owned files, plugin cache, registry, manifests and backups are
fields of one object.  Any step may raise, and a command that changes the installation may leave the
registry and the cache in any state, unless the object is `calm`, which is how the contracts also say
when a call must succeed: an obedient command line registers what it is told to and puts the offered
tree of an added plugin into the cache.  Which steps raise is a schedule given to the object.

**Evaluation log** (`Evaluation`, `Evaluator`, `Scorecard`, `Tallies`).  What a log may look like, the locked
calls that extend it, and the summary and score computed from it.

**Dashboard folds** (`Projection`, `TaskStates`, `RouteImpact`, `RouteColumns`, `PairedBasis`) and
**collector** (`Batches`, `GraphBundle`).  Loops that are each proved equal to, or characterised by, a
specification that does not depend on how they run.

Where the code does something other than its names or comments suggest, the model follows the code:

- A unit that is accepted may be worked on again (`_check_unit_ready`).  This is the one way in which
  an accepted unit can come to rest on an unaccepted one; `Closure.StepClosed` says exactly when.  It is
  also the one way in which an output stays among the accepted ones without its unit being accepted;
  `Freshness.RunFresh` says exactly when.  `Demotion` shows that both happen.
- `retry_unit` and `finalize_graph` do not ask whether the graph has stopped converging, so both can
  revive it.  `Revival.RevivedIff` says exactly which calls do, and reachable graphs show both.  The
  measure of `Termination` accounts for retries, and finalizing is not among its calls.
- A round that is handed outcomes for none of the units it selects counts no step
  (`Progress.RoundSpendsIff`, `Uncounted.IdleRoundHappens`).
- An output that does not fit its schema fails the unit in `complete_unit` without counting an attempt
  (`Locality.CompleteEffect`, `Uncounted.UnfitHappens`).
- The summary's critical path ignores edges that are only listed, so it can be shorter than any run
  (`Samples.ListedEdgeTakesTwoRounds`); `CriticalPath.SummaryExact` says exactly when it is not.
- Lists and zeros merge when the host language calls them equal, which `[1]` and `[true]` are and `0.0`
  and `-0.0` are, so the first of them decides the result (`Merge.ListOrderMatters`,
  `Merge.ZeroOrderMatters`); `Merge.JoinCommutative` for two parts and
  `Merge.EveryOrderIff` for any number say exactly when the order is irrelevant.
- A rollback that is refused still marks the manifest as failed, so a transaction whose rollback was
  refused once is refused for good, unless that mark could not be written (`Device.RefusedForGood`).  A
  failed write is swallowed and leaves the transaction open, so more than one rollback can pass its
  checks (`Device.RollbackTwice`).  After one that passed the same rollback passes again if and only if
  the outcome is not on record, the backups are unaltered and, for a manual one, the committed
  installation is still there (`Device.PassesAgainIff`); over any history the passes exceed the
  unrecorded ones by at most one (`Device.Replay`).
- The dashboard's merge of a run's events is right for oldest-first and newest-first listings but not
  for arbitrary ones; `Projection.MergeRightIffOutward` is the exact condition.
- The merge takes model and family from different events, and a label is stripped for the family but
  not for the model.  So a run can show a change of family and no change of route
  (`RouteColumns.MergeMixesColumns`); `RouteImpact.FamilyChangesCountIff` says exactly when none does.
- Of reports of one instant, a task's state can depend on the order in which they are listed
  (`TaskStates.ListingOrderMatters`); `TaskStates.OrderIrrelevantIffSettled` says for which numbers.

Values are exact: a digest stands for what it is taken of or is a function parameter, scores and
percentages are unrounded reals, strings are compared code point by code point.  Clock readings, fresh
task and transaction numbers, the memory store and the outcomes of units are inputs.

## Model

| member | source | states |
|---|---|---|
| `Topology.Normalize` | plugins/codex-routecraft/scripts/routecraft_execution_graph.py:642-720 | the unit and edge loops accept exactly the valid listings (distinct ids, known endpoints, no loops or repeats, at most 512 units) and return ids and edges sorted without repeats, dependencies included |
| `Topology.ListingOrderIrrelevant` | plugins/codex-routecraft/scripts/routecraft_execution_graph.py:642-720 | permuting units or edges changes neither whether a listing is accepted nor its canonical form |
| `Topology.LoneNodes` | plugins/codex-routecraft/scripts/routecraft_execution_graph.py:642-664 | which listings are valid: up to 512 units without dependencies, if their identifiers differ |
| `Topology.DependencyMore` | plugins/codex-routecraft/scripts/routecraft_execution_graph.py:642-720 | one dependency more keeps a listing valid exactly if it is another unit of it and new |
| `Topology.EdgeMore` | plugins/codex-routecraft/scripts/routecraft_execution_graph.py:700-708 | one edge more exactly if it is new and joins two different units of the listing |
| `Topology.CanonicalOrder` | plugins/codex-routecraft/scripts/routecraft_execution_graph.py:642-718 | the canonical form lists identifiers upwards and edges by start, then end |
| `Topology.EdgesMean` | plugins/codex-routecraft/scripts/routecraft_execution_graph.py:710-718 | the edges of the canonical form are those listed and one from each dependency to the unit that has it |
| `Order.BeforeIff` | plugins/codex-routecraft/scripts/routecraft_execution_graph.py:664-664 | identifiers are ordered by the lower code point where they first differ, a proper prefix first |
| `Kahn.TopologicalOrder` | plugins/codex-routecraft/scripts/routecraft_execution_graph.py:776-805 | on any canonical graph the queue algorithm fails exactly when there is a cycle, and otherwise returns the lexicographically least of all topological orders |
| `Cycles.FindCycles` | plugins/codex-routecraft/scripts/routecraft_execution_graph.py:725-765 | the depth-first search returns sorted, least-rotated genuine cycles, and the empty list exactly when the graph is acyclic |
| `Cycles.Search.Visit` | plugins/codex-routecraft/scripts/routecraft_execution_graph.py:745-757 | one visit keeps the active path a walk, records only genuine cycles, finishes what it visits and restores the path |
| `Dependents.TransitiveDependents` | plugins/codex-routecraft/scripts/routecraft_execution_graph.py:1129-1146 | the search over dependents returns exactly the units reachable from the given one, each once, in breadth-first order with the dependents of one unit sorted; never the unit itself when acyclic |
| `Dependents.CloserFirst` | plugins/codex-routecraft/scripts/routecraft_execution_graph.py:1129-1146 | in such a list no unit comes behind one that is further away, counted along shortest walks |
| `Dependents.OnlyOneOrder` | plugins/codex-routecraft/scripts/routecraft_execution_graph.py:1129-1146 | there is only one such list, so the result is determined by the graph |
| `Merge.JoinIsUpper` | plugins/codex-routecraft/scripts/routecraft_execution_graph.py:1687-1702 | a merge contains every leaf of both arguments, lists and zeros up to the equality of the host language |
| `Merge.JoinIsLeast` | plugins/codex-routecraft/scripts/routecraft_execution_graph.py:1687-1702 | whatever contains both arguments contains their merge, which then exists: nothing is added and no merge fails needlessly |
| `Merge.JoinIdempotent` | plugins/codex-routecraft/scripts/routecraft_execution_graph.py:1687-1702 | merging a value with itself returns it |
| `Merge.JoinAssociative` | plugins/codex-routecraft/scripts/routecraft_execution_graph.py:1687-1702 | grouping changes neither the result nor whether the merge fails |
| `Merge.JoinCommutative` | plugins/codex-routecraft/scripts/routecraft_execution_graph.py:1687-1702 | success is symmetric, results agree up to the equality of lists and zeros, and are identical if and only if lists and zeros that are equal at shared places are the same |
| `Merge.ListOrderMatters` | plugins/codex-routecraft/scripts/routecraft_execution_graph.py:1687-1702 | the concrete pair `[1]`, `[true]` whose merge keeps whichever came first |
| `Merge.ZeroOrderMatters` | plugins/codex-routecraft/scripts/routecraft_execution_graph.py:1687-1702 | so do the two zeros `0.0` and `-0.0` under one key |
| `Merge.OneKind` | plugins/codex-routecraft/scripts/routecraft_execution_graph.py:1687-1702 | values of different kinds never merge; null, truth values, whole numbers and strings merge exactly with the same value, floats with the same amount, lists with equal lists, objects when their shared keys do |
| `Merge.PartsMean` | plugins/codex-routecraft/scripts/routecraft_execution_graph.py:1646-1665 | what is merged: the elements of a list; the values of a non-empty object of objects in the order of its keys; any other object alone; nothing else |
| `JsonLaws.EqualIffNormal` | plugins/codex-routecraft/scripts/routecraft_execution_graph.py:1697-1701 | values are equal in the host language exactly if they are the same once every number in them is written as one float |
| `JsonLaws.KeywordByKeyword` | plugins/codex-routecraft/scripts/routecraft_execution_graph.py:499-546 | a value fits a schema exactly if it fits each of its keywords alone |
| `JsonLaws.TypesMean` | plugins/codex-routecraft/scripts/routecraft_execution_graph.py:481-506 | the type keyword, kind by kind: whole numbers are numbers, truth values are not |
| `JsonLaws.ChoicesMean` | plugins/codex-routecraft/scripts/routecraft_execution_graph.py:507-508 | enumerated values are compared as the host language compares them |
| `JsonLaws.LengthsMean` | plugins/codex-routecraft/scripts/routecraft_execution_graph.py:509-523 | lengths bind strings and sizes bind lists, and nothing else |
| `JsonLaws.BoundsMean` | plugins/codex-routecraft/scripts/routecraft_execution_graph.py:514-518 | bounds bind whole numbers and floats, and not truth values |
| `JsonLaws.ItemsMean` | plugins/codex-routecraft/scripts/routecraft_execution_graph.py:524-532 | element schemas, one for all or place by place as far as both lists go |
| `JsonLaws.ObjectsMean` | plugins/codex-routecraft/scripts/routecraft_execution_graph.py:533-546 | required keys, property schemas, and what may stand beside them |
| `Merge.JoinAllIsLeastBound` | plugins/codex-routecraft/scripts/routecraft_execution_graph.py:1646-1684 | merging a list of parts succeeds exactly when some value contains all parts, and yields the least such value |
| `Merge.GroupingIrrelevant` | plugins/codex-routecraft/scripts/routecraft_execution_graph.py:1646-1684 | merging two groups and then their results equals merging all at once, failure included |
| `Merge.PartOrderIrrelevant` | plugins/codex-routecraft/scripts/routecraft_execution_graph.py:1646-1684 | success, and the result up to equal lists and zeros, do not depend on the order of the parts |
| `Merge.EveryOrderIff` | plugins/codex-routecraft/scripts/routecraft_execution_graph.py:1646-1684 | when the merge succeeds, every order of the parts gives the identical value if and only if the parts pairwise agree on the lists and zeros at shared places |
| `Merge.StructurallyCompatibleMerge` | plugins/codex-routecraft/scripts/routecraft_execution_graph.py:1646-1684 | the whole call: argument shapes, the loop with early failure, the empty list, the final schema check |
| `Engine.Validate` | plugins/codex-routecraft/scripts/routecraft_execution_graph.py:1034-1083 | accepts exactly the snapshots whose structure is in bounds and whose edges and dependencies together are acyclic |
| `Engine.Copy.GuardStep` | plugins/codex-routecraft/scripts/routecraft_execution_graph.py:1294-1316 | counting a step in place, in the order steps, child runs, wall time; true exactly when every limit leaves room |
| `Engine.Copy.RefreshCounts` | plugins/codex-routecraft/scripts/routecraft_execution_graph.py:1268-1277 | the counters become the numbers of units by status and the sum of all attempts |
| `Engine.Copy.AffectedDependents` | plugins/codex-routecraft/scripts/routecraft_execution_graph.py:1319-1329 | the loop over affected units reopens exactly everything downstream and drops its outputs |
| `Engine.Copy.Reject` | plugins/codex-routecraft/scripts/routecraft_execution_graph.py:1357-1379 | the branch of a recorded failure, in place |
| `Calling.CreateGraph` | plugins/codex-routecraft/scripts/routecraft_execution_graph.py:925-1024 | succeeds exactly on valid, acyclic, bounded listings and yields all units pending, without attempts |
| `Calling.CompleteUnit` | plugins/codex-routecraft/scripts/routecraft_execution_graph.py:1410-1444 | the in-place call equals the transition, refusals and limit stops included |
| `Calling.FailUnit` | plugins/codex-routecraft/scripts/routecraft_execution_graph.py:1345-1379 | the in-place call equals the transition |
| `Calling.RetryUnit` | plugins/codex-routecraft/scripts/routecraft_execution_graph.py:1382-1400 | the in-place call equals the transition, which looks at no convergence flag |
| `Calling.RecordUnitAttempt` | plugins/codex-routecraft/scripts/routecraft_execution_graph.py:1461-1556 | the in-place call equals the transition over all stages and outcomes |
| `Calling.ParallelReadyNodes` | plugins/codex-routecraft/scripts/routecraft_execution_graph.py:1191-1209 | the greedy loop equals the recursive choice that the selection lemmas are about |
| `Calling.AdvanceGraph` | plugins/codex-routecraft/scripts/routecraft_execution_graph.py:1593-1640 | one round in place: selection, marking, outcomes with early stop, or a counted step when no outcomes are given |
| `Calling.FinalizeGraph` | plugins/codex-routecraft/scripts/routecraft_execution_graph.py:1577-1586 | accepts exactly when all units are accepted, whatever the status was |
| `Calling.RecordVerifiedConstraint` | plugins/codex-routecraft/scripts/routecraft_execution_graph.py:1718-1747 | appends a verified constraint with a new id, otherwise refuses |
| `Frame.StepFrame` | plugins/codex-routecraft/scripts/routecraft_execution_graph.py:1345-1640 | no call changes the units, their contracts, the edges or the limits |
| `Calls.StepKeeps` | plugins/codex-routecraft/scripts/routecraft_execution_graph.py:1254-1640 | every call, with any arguments, keeps well-formedness, outputs matching statuses, budgets, derived counters and a truthful graph status |
| `Safety.ReachableInvariant` | plugins/codex-routecraft/scripts/routecraft_execution_graph.py:925-1640 | hence all of these hold after any sequence of calls on a freshly created graph |
| `Safety.AcceptanceSound` | plugins/codex-routecraft/scripts/routecraft_execution_graph.py:1410-1444 | in every reachable snapshot: graph accepted implies all units accepted; accepted units have accepted outputs; accepted outputs fit their schemas; failed outputs are those of the failed units; constraints are exported only from accepted graphs |
| `Safety.ExportsVerified` | plugins/codex-routecraft/scripts/routecraft_execution_graph.py:1750-1776 | exactly the verified reusable constraints are exported, as often as they were recorded and sorted by identifier |
| `Safety.BudgetsHold` | plugins/codex-routecraft/scripts/routecraft_execution_graph.py:1254-1316 | in every reachable snapshot: sum of attempts ≤ child runs ≤ steps ≤ step limit, child runs within their limit, each unit within its effective limit and its produce and correct limits, counters exact |
| `Stopping.AttemptsWithin` | plugins/codex-routecraft/scripts/routecraft_execution_graph.py:1254-1265 | in every reachable snapshot the attempts of a unit are within the graph limit, within the limit of its policy, the first of the two names it may give, and within the policy limits of produce and correct |
| `Stopping.CompleteAnswers` | plugins/codex-routecraft/scripts/routecraft_execution_graph.py:1410-1425 | when a completion is refused, stopped and for which limit, or carried out, from plain numbers and in the order of the checks; a stop changes nothing but status, reason, times and, for time and attempts, the step counted |
| `Stopping.FailAnswers` | plugins/codex-routecraft/scripts/routecraft_execution_graph.py:1345-1356 | likewise of a failure, which asks for no readiness |
| `Stopping.RecordAnswers` | plugins/codex-routecraft/scripts/routecraft_execution_graph.py:1479-1504 | likewise of a recorded attempt, whose attempts, the stage included, are asked for before the step |
| `Stopping.RetryAnswers` | plugins/codex-routecraft/scripts/routecraft_execution_graph.py:1382-1395 | a retry stops for used up attempts and nothing else |
| `Effects.CompleteDoes` | plugins/codex-routecraft/scripts/routecraft_execution_graph.py:1410-1444 | a completion carried out, in plain terms: row by row, attempts, counters, times, and the status that the units then call for |
| `Effects.FailDoes` | plugins/codex-routecraft/scripts/routecraft_execution_graph.py:1345-1379 | likewise of a failure |
| `Effects.RecordDoes` | plugins/codex-routecraft/scripts/routecraft_execution_graph.py:1505-1556 | likewise of a recorded attempt: which stage and verification lead to produced, accepted or failed, and what value is judged |
| `RoundEffects.RetryDoes` | plugins/codex-routecraft/scripts/routecraft_execution_graph.py:1382-1400 | a retry reopens the unit; no other row, no output in work and no counter of work changes |
| `RoundEffects.FinalizeDoes` | plugins/codex-routecraft/scripts/routecraft_execution_graph.py:1577-1586 | finalizing changes status and times only, and when |
| `RoundEffects.OpenedRows` | plugins/codex-routecraft/scripts/routecraft_execution_graph.py:1606-1615 | opening a round makes exactly the selected units ready |
| `RoundEffects.OneOutcome` | plugins/codex-routecraft/scripts/routecraft_execution_graph.py:1616-1640 | the outcome of one selected unit is the call that it stands for, made on the opened round |
| `RoundEffects.EmptyRoundDoes` | plugins/codex-routecraft/scripts/routecraft_execution_graph.py:1606-1640 | a round without outcomes counts one step and no child run or stops for steps or time, and makes what it selects ready |
| `RoundEffects.RoundAnswers` | plugins/codex-routecraft/scripts/routecraft_execution_graph.py:1608-1613 | a graph that is accepted or stopped is returned as it is; otherwise exactly a width below one is refused |
| `RoundEffects.WidestRound` | plugins/codex-routecraft/scripts/routecraft_execution_graph.py:1611-1611 | the width counter of a run is that of its widest round, or what the run started from |
| `RoundEffects.ConstraintDoes` | plugins/codex-routecraft/scripts/routecraft_execution_graph.py:1718-1747 | a constraint is refused unless verified and new, and is otherwise appended |
| `RoundEffects.RunConstraints` | plugins/codex-routecraft/scripts/routecraft_execution_graph.py:1718-1747 | over any run constraints stay verified, of different identifiers, and in the order recorded |
| `RoundEffects.CreatedAsSpecified` | plugins/codex-routecraft/scripts/routecraft_execution_graph.py:925-1024 | a fresh graph has each unit with the dependencies, owner, schema and policy specified for it, pending and unattempted, and nothing else |
| `RoundEffects.CreatableIff` | plugins/codex-routecraft/scripts/routecraft_execution_graph.py:821-837 | a graph can be created exactly from a valid listing without cycles, policy and limit numbers from 1 to 10000, and a wall time of at most a day |
| `RoundEffects.CountersTell` | plugins/codex-routecraft/scripts/routecraft_execution_graph.py:1268-1277 | the derived counters of a reachable snapshot are the numbers of units in each status |
| `Safety.NeverStalled` | plugins/codex-routecraft/scripts/routecraft_execution_graph.py:1562-1574 | graph status `stalled` and unit statuses `running`, `invalidated`, `blocked` never arise |
| `Closure.StepClosed` | plugins/codex-routecraft/scripts/routecraft_execution_graph.py:1403-1556 | a call on a dependency-closed snapshot breaks closure if and only if it is a successful produce or unverified correct, within budget, on an accepted unit that has an accepted dependent |
| `Closure.RunClosed` | plugins/codex-routecraft/scripts/routecraft_execution_graph.py:1345-1640 | over any run without such calls the accepted set stays closed under dependencies |
| `Closure.InitiallyClosed` | plugins/codex-routecraft/scripts/routecraft_execution_graph.py:925-1024 | a freshly created graph is dependency-closed |
| `Demotion.DemotionUnderDependent` | plugins/codex-routecraft/scripts/routecraft_execution_graph.py:1403-1408 | a reachable closed snapshot and one call after which an accepted unit rests on an unaccepted one |
| `Freshness.StepFresh` | plugins/codex-routecraft/scripts/routecraft_execution_graph.py:1403-1556 | when exactly the accepted units have accepted outputs, a call changes that if and only if it is a successful produce or unverified correct, within budget and not refused, on an accepted unit |
| `Freshness.RunFresh` | plugins/codex-routecraft/scripts/routecraft_execution_graph.py:1345-1640 | so it holds after every prefix of a run if and only if no call of the run is of that kind |
| `Freshness.InitiallyFresh` | plugins/codex-routecraft/scripts/routecraft_execution_graph.py:925-1024 | and it holds of a fresh graph |
| `Demotion.StaleOutputHappens` | plugins/codex-routecraft/scripts/routecraft_execution_graph.py:1403-1556 | a reachable graph and a call that leaves an accepted output to a unit no longer accepted |
| `Revival.RevivedIff` | plugins/codex-routecraft/scripts/routecraft_execution_graph.py:1382-1586 | a call on a graph that stopped converging changes its status if and only if it is finalizing with every unit accepted or retrying a failed unit with budget left; what it becomes is stated, and any other call leaves the graph as it is |
| `Revival.RetryHappens` | plugins/codex-routecraft/scripts/routecraft_execution_graph.py:1382-1400 | a graph that stopped converging is reachable and is revived by a retry |
| `Revival.FinalizeHappens` | plugins/codex-routecraft/scripts/routecraft_execution_graph.py:1577-1586 | a graph that stopped converging is reachable and is accepted by finalizing it |
| `Locality.FailEffect` | plugins/codex-routecraft/scripts/routecraft_execution_graph.py:1345-1379 | unless a limit stops it, a failure fails that unit, reopens exactly what is downstream, leaves every other unit with its outputs as it was; accepted set is the old one minus these |
| `Locality.CompleteEffect` | plugins/codex-routecraft/scripts/routecraft_execution_graph.py:1410-1444 | the effect of a completion, unit by unit; an output that does not fit fails the unit without counting an attempt |
| `Uncounted.UnfitHappens` | plugins/codex-routecraft/scripts/routecraft_execution_graph.py:1426-1436 | a reachable graph on which a completion with an unfit output fails the unit, takes a child run and counts no attempt |
| `Locality.RecordEffect` | plugins/codex-routecraft/scripts/routecraft_execution_graph.py:1461-1556 | the effect of each stage and outcome, unit by unit |
| `Locality.RejectIsLocal` | plugins/codex-routecraft/scripts/routecraft_execution_graph.py:1319-1379 | the effect shared by every recorded failure |
| `Termination.StepLowers` | plugins/codex-routecraft/scripts/routecraft_execution_graph.py:1345-1556 | each complete, fail, retry or record call that changes more than timestamps and failure reason lowers (steps left, failed units, still converging) lexicographically |
| `Termination.RunsComeToRest` | plugins/codex-routecraft/scripts/routecraft_execution_graph.py:1254-1556 | the number of such calls in any run is bounded by the limits given at creation |
| `Progress.RoundSpendsIff` | plugins/codex-routecraft/scripts/routecraft_execution_graph.py:1593-1640 | a round counts a step or stops the graph if and only if it gets no outcomes at all or an outcome for a unit it selects |
| `Uncounted.IdleRoundHappens` | plugins/codex-routecraft/scripts/routecraft_execution_graph.py:1593-1640 | a reachable graph and a round that selects a unit, gets an outcome for another and spends nothing |
| `Selection.ParallelSelection` | plugins/codex-routecraft/scripts/routecraft_execution_graph.py:1191-1209 | at most the limit, each the least ready unit of its owner, and below the limit every ready owner is represented |
| `Selection.RoundIndependent` | plugins/codex-routecraft/scripts/routecraft_execution_graph.py:1191-1209 | in a closed snapshot the units of a round have different owners and none depends on another, even transitively |
| `Selection.NoDeadlock` | plugins/codex-routecraft/scripts/routecraft_execution_graph.py:1149-1209 | in a reachable unfinished snapshot with nothing failed or produced, a round selects something |
| `Rounds.OneRound` | plugins/codex-routecraft/scripts/routecraft_execution_graph.py:1593-1640 | a round in which every selected unit succeeds, directly or by a judged stage, accepts exactly the units it selects; outcomes for other units do not matter |
| `Rounds.WithinLevels` | plugins/codex-routecraft/scripts/routecraft_execution_graph.py:1593-1640 | after k such rounds nothing deeper than k is accepted, whatever the ownership and parallelism |
| `Rounds.ExactlyLevels` | plugins/codex-routecraft/scripts/routecraft_execution_graph.py:1593-1640 | with distinct owners and enough parallelism, after k such rounds exactly the units of depth at most k are accepted |
| `CriticalPath.RoundsEqualLongestPath` | plugins/codex-routecraft/scripts/routecraft_execution_graph.py:1593-1640 | under those conditions the graph is accepted exactly from the round that equals the longest path over all edges |
| `CriticalPath.RoundsEqualCriticalPath` | plugins/codex-routecraft/scripts/routecraft_execution_graph.py:1914-1921 | which is the reported critical path when all edges come from dependencies |
| `CriticalPath.FinishesBetween` | plugins/codex-routecraft/scripts/routecraft_execution_graph.py:1593-1640 | with any ownership and any parallelism, the selected units succeeding, it takes at least the critical path and at most as many rounds as units |
| `CriticalPath.SummaryMissesListedEdges` | plugins/codex-routecraft/scripts/routecraft_execution_graph.py:1914-1921 | two independent units joined by a listed edge: the summary reports one, and the graph is accepted exactly from the second round |
| `Samples.ListedEdgeTakesTwoRounds` | plugins/codex-routecraft/scripts/routecraft_execution_graph.py:1914-1921 | a concrete graph with a reported critical path of one, not accepted after one round and accepted after two |
| `CriticalPath.SummaryExact` | plugins/codex-routecraft/scripts/routecraft_execution_graph.py:1914-1921 | for runs that finish: the summary's depth tells for every unit in which round it is accepted if and only if every edge rises in that depth; its critical path tells in which round the graph is accepted if and only if no unit lies deeper over all edges |
| `Depth.SameDepthsIff` | plugins/codex-routecraft/scripts/routecraft_execution_graph.py:1914-1921 | depths over some of the edges equal depths over all of them if and only if every edge goes from a strictly smaller to a strictly larger of the former |
| `Depth.DepthIsLongestWalk` | plugins/codex-routecraft/scripts/routecraft_execution_graph.py:1914-1921 | the recursive depth of a unit is the number of units on a longest walk that ends in it |
| `Device.Host.RestoreFile` | plugins/codex-routecraft/scripts/routecraft_device.py:1030-1046 | a normal return leaves the file as recorded, present or absent; no other file changes |
| `Device.Host.RestoreRegistry` | plugins/codex-routecraft/scripts/routecraft_device.py:1114-1156 | whatever the command line does, a normal return has verified presence and version against the record |
| `Device.Host.RestoreCache` | plugins/codex-routecraft/scripts/routecraft_device.py:1067-1111 | a normal return leaves exactly the backup or absence; a fault before the displaced tree starts to be removed leaves the old cache whole, a later one at most a part of it, in its place or, when the handler fails too, beside it |
| `Device.Host.CheckRollback` | plugins/codex-routecraft/scripts/routecraft_device.py:1210-1240 | passing means right source, right state, unchanged post-state and unaltered backups; without faults it passes exactly then |
| `Device.ManualNeedsSameState` | plugins/codex-routecraft/scripts/routecraft_device.py:828-846 | a manual rollback that passes would pass in another state exactly if no owned file, no significant cached file and nothing of the registration differs |
| `Device.AutomaticNeedsNoState` | plugins/codex-routecraft/scripts/routecraft_device.py:1227-1228 | an automatic one does not look at the state |
| `Device.BackupsUnaltered` | plugins/codex-routecraft/scripts/routecraft_device.py:1159-1207 | a rollback that passes would pass with other backups and another source exactly if what was recorded is unaltered and the source is the same |
| `Device.Host.RollbackInstallation` | plugins/codex-routecraft/scripts/routecraft_device.py:1210-1275 | passes its checks exactly when it may; then restores files, cache and registry or fails; the manifests become the old ones with the outcome written down if that write succeeded; both counters move exactly as named; a refused one changes nothing else; it would pass again if and only if its outcome is not on record and the post-state allows it |
| `Device.Host.CreateTransaction` | plugins/codex-routecraft/scripts/routecraft_device.py:891-946 | a created transaction has recorded exactly the current files, cache and registry |
| `Device.Host.TryApply` | plugins/codex-routecraft/scripts/routecraft_device.py:1293-1316 | success means installed, verified and committed with the post-state that is there; in calm weather, all agents listed, it succeeds |
| `Device.Host.ApplyPluginTransaction` | plugins/codex-routecraft/scripts/routecraft_device.py:1278-1332 | success only with the target installed and committed over a manifest that remembers the state before and can be rolled back manually; an undone failure only with owned files and cache as before the call and the registry with the same presence and version, although the command line may rewrite cache and registry at every step; no other transaction, and no counter of one, is touched; in calm weather: no-op exactly if installed, refused if the registration cannot be recorded, otherwise applied |
| `Device.Host.Install` | plugins/codex-routecraft/scripts/routecraft_device.py:981-1027 | in calm weather, all agents listed, everything the target asks for is there |
| `Device.InstallAndBack` | plugins/codex-routecraft/scripts/routecraft_device.py:1210-1332 | in calm weather an installation followed by its manual rollback leaves files, cache and registration as they were |
| `Device.InstalledMeans` | plugins/codex-routecraft/scripts/routecraft_device.py:1284-1291 | what counts as installed, part by part |
| `Device.RestoredIsOld` | plugins/codex-routecraft/scripts/routecraft_device.py:1210-1265 | two file sets that both match one manifest are equal, so restoring gives back the old files |
| `Device.RollbackTwice` | plugins/codex-routecraft/scripts/routecraft_device.py:1210-1275 | a schedule of faults under which two rollbacks of one transaction pass their checks, the first having neither restored anything nor recorded its failure |
| `Device.PassesAgainIff` | plugins/codex-routecraft/scripts/routecraft_device.py:1210-1275 | after a rollback that passed, whatever happened since, the same one passes if and only if the outcome of the first is not on record, the backups are unaltered and, for a manual one, the committed post-state is there |
| `Device.Replay` | plugins/codex-routecraft/scripts/routecraft_device.py:1210-1332 | over any history of rollbacks, installations and outside changes, a closed transaction stays closed without another pass, and when no write of a manifest is lost at most one rollback of each transaction passes |
| `Device.RefusedForGood` | plugins/codex-routecraft/scripts/routecraft_device.py:1210-1275 | a rollback refused once, its refusal on record, never passes later, whatever follows |
| `Evaluation.OncePerTask` | plugins/codex-routecraft/scripts/routecraft_evaluation.py:379-582 | in every log the evaluator writes: per task one start, at most one recall, at most one finish, in this order |
| `Evaluation.StartedBefore` | plugins/codex-routecraft/scripts/routecraft_evaluation.py:461-466 | no recall or finish without an earlier start |
| `Evaluation.FinishIsConsistent` | plugins/codex-routecraft/scripts/routecraft_evaluation.py:472-582 | every finish: no recall in `off` and exactly one otherwise; verdict lists disjoint and drawn from recalled ids; useful + misleading + stale ≤ recall count; the collector's memory rule |
| `Evaluation.FinishReports` | plugins/codex-routecraft/scripts/routecraft_evaluation.py:520-582 | every finish carries the mode of its start, says learned exactly if it names something learned, and counts the matches of its recall, or none |
| `Evaluation.LoopClosesIff` | plugins/codex-routecraft/scripts/routecraft_evaluation.py:472-517 | the memory loop closes exactly under these conditions on mode, number of recalls, learned records and reason |
| `Evaluation.LoopReports` | plugins/codex-routecraft/scripts/routecraft_evaluation.py:472-517 | what a closed loop reports |
| `Evaluation.RecalledMeans` | plugins/codex-routecraft/scripts/routecraft_evaluation.py:535-541 | a record counts as recalled exactly if a recall of that task lists it |
| `Evaluation.NoRepeatsIff` | plugins/codex-routecraft/scripts/routecraft_evaluation.py:533-534 | no record has two verdicts exactly if there are as many different ones as listed |
| `Evaluation.OrdinaryTask` | plugins/codex-routecraft/scripts/routecraft_evaluation.py:379-582 | a task that is started in full, recalls one record and learns another is a valid log |
| `Evaluation.StatusMeetsRule` | plugins/codex-routecraft/scripts/routecraft_collector.py:778-795 | whatever the memory loop lets through, the collector accepts |
| `Evaluation.RecallIsConsistent` | plugins/codex-routecraft/scripts/routecraft_evaluation.py:424-458 | every recall belongs to a started task with memory, its records differ and their number is the match count |
| `Evaluation.RecallMatches` | plugins/codex-routecraft/scripts/routecraft_evaluation.py:468-471 | a task has at most one recall, whose match count bounds the recalled ids |
| `Evaluator.Evaluator.NextMode` | plugins/codex-routecraft/scripts/routecraft_evaluation.py:346-367 | override, configured mode, or the experiment's turn, the counter moving only in the last case |
| `Evaluator.Evaluator.StartTask` | plugins/codex-routecraft/scripts/routecraft_evaluation.py:379-418 | appends one start with that mode, or refuses; a busy session is refused exactly when its task is unfinished; states the owner of the new task, the session files and the advance of the experiment |
| `Evaluator.Evaluator.RecordRecall` | plugins/codex-routecraft/scripts/routecraft_evaluation.py:424-458 | appends one recall of the first occurrences or leaves the log alone, with the exact condition of each refusal |
| `Evaluator.SelectionMeans` | plugins/codex-routecraft/scripts/routecraft_evaluation.py:424-458 | a recall lists each record once, at its first place and in order, with its rank there and what the store knows of it |
| `Evaluator.Evaluator.FinishTask` | plugins/codex-routecraft/scripts/routecraft_evaluation.py:520-593 | appends one finish consistent with the log or leaves it alone, with the exact condition of each refusal, that of the memory loop in terms of mode, recall, learned records and reason; removes exactly the session's file that names the task |
| `Evaluator.SessionsExclusive` | plugins/codex-routecraft/scripts/routecraft_evaluation.py:379-418 | two unfinished tasks that one session started are one task, the one its file names |
| `Scorecard.Group` | plugins/codex-routecraft/scripts/routecraft_evaluation.py:643-657 | the first pass collects starts, recalls and finishes by task |
| `Scorecard.Summarize` | plugins/codex-routecraft/scripts/routecraft_evaluation.py:643-734 | the accumulating pass equals the tally over the finishes |
| `Tallies.CountersMean` | plugins/codex-routecraft/scripts/routecraft_evaluation.py:643-734 | every counter of the summary of a valid log, read off its events: completed tasks, verdicts of each kind, recalled records, tasks with a recall, with a recalled record, with a useful recalled one |
| `Tallies.SumReadOff` | plugins/codex-routecraft/scripts/routecraft_evaluation.py:697-717 | the sum of reciprocals is over the finishes with a useful recalled record, each at the least rank under which a recall lists one of its useful records |
| `Scorecard.SummaryAddsUp` | plugins/codex-routecraft/scripts/routecraft_evaluation.py:643-734 | completed + unfinished = started, useful + misleading + stale ≤ recalled, reciprocal ranks within bounds |
| `Scorecard.ComponentsInRange` | plugins/codex-routecraft/scripts/routecraft_evaluation.py:816-861 | each scored component lies between zero and its maximum |
| `Scorecard.CounterScores` | plugins/codex-routecraft/scripts/routecraft_evaluation.py:816-861 | which counters the retrieval, correctness and staleness components need and what they are, without division |
| `Scorecard.MeasureScores` | plugins/codex-routecraft/scripts/routecraft_evaluation.py:822-866 | the other components: when scored, nothing up to zero, full marks from forty percent, a quarter and ninety percent, in proportion between |
| `Scorecard.OneComponent` | plugins/codex-routecraft/scripts/routecraft_evaluation.py:867-870 | another score for one component moves what is earned by the difference and what is available by its maximum |
| `Scorecard.ProvisionalMeans` | plugins/codex-routecraft/scripts/routecraft_evaluation.py:867-869 | the provisional score is what is earned in percent of what was available |
| `Scorecard.ScoreDefinedAndBounded` | plugins/codex-routecraft/scripts/routecraft_evaluation.py:816-877 | for every such log with ranks from one up, coverage is at most 100 and the provisional score is defined and within 0 and 100 |
| `Projection.RunRecords` | plugins/codex-routecraft/scripts/praxis_dashboard/projection.py:145-162 | one row per run, each the merge of its events, sorted by time and run id descending |
| `Projection.RowsRead` | plugins/codex-routecraft/scripts/praxis_dashboard/projection.py:145-162 | read off the events: exactly one row for each source and run described, none for any other, with the time of its newest event |
| `Projection.LaterRowsOlder` | plugins/codex-routecraft/scripts/praxis_dashboard/projection.py:162-162 | no row is followed by a newer one; rows of one time come by descending run id |
| `Projection.NumbersDecide` | plugins/codex-routecraft/scripts/praxis_dashboard/projection.py:158-158 | at one time the higher number is newer, and any number newer than none |
| `Projection.FoldNumber` | plugins/codex-routecraft/scripts/praxis_dashboard/projection.py:158-161 | on such listings the merged number is that of the latest event that has one |
| `Projection.FoldIsLatest` | plugins/codex-routecraft/scripts/praxis_dashboard/projection.py:155-161 | when each event is newer or older than all listed before it, every column has the value of the latest event that reports it |
| `Projection.MergeRightIffOutward` | plugins/codex-routecraft/scripts/praxis_dashboard/projection.py:155-161 | for events that can be told apart in time, the merge does so for every content if and only if they are listed that way |
| `Projection.ListedRunIsOutward` | plugins/codex-routecraft/scripts/praxis_dashboard/projection.py:445-448 | oldest-first and newest-first listings are of that kind for every run |
| `Projection.PathsAgree` | plugins/codex-routecraft/scripts/praxis_dashboard/projection.py:145-162 | so the sorted snapshot and a newest-first listing merge into the same columns and time for every run |
| `RouteImpact.Impact` | plugins/codex-routecraft/scripts/praxis_dashboard/projection.py:209-260 | the counting pass: each counter is the number of runs of its kind, the matrix has one cell per route taken, and its runs sum to eligible = changed + unchanged |
| `RouteImpact.CountsMean` | plugins/codex-routecraft/scripts/praxis_dashboard/projection.py:209-246 | the counters, read off the runs: comparable ones, and of these those with another route, the same route, another family, another reasoning level only |
| `RouteImpact.CellsMean` | plugins/codex-routecraft/scripts/praxis_dashboard/projection.py:247-254 | the matrix, read off the runs: every comparable run is counted in exactly one cell, the one of its requested and actual family and level |
| `RouteImpact.SharesAddUp` | plugins/codex-routecraft/scripts/praxis_dashboard/projection.py:251-258 | the percentages of a non-empty matrix sum to 100 |
| `RouteImpact.KindsOfChange` | plugins/codex-routecraft/scripts/praxis_dashboard/projection.py:230-249 | when equal labels mean equal families, family changes and reasoning-only changes are disjoint kinds of change |
| `RouteImpact.FamilyChangesCountIff` | plugins/codex-routecraft/scripts/praxis_dashboard/projection.py:230-249 | for given model and family columns, every change of family is a change of route whatever the reasoning levels if and only if runs with equal labels have equal families |
| `RouteColumns.OneEventIsConsistent` | plugins/codex-routecraft/scripts/praxis_dashboard/projection.py:103-142 | the columns written from one event always meet that condition |
| `RouteColumns.AbsorbCombines` | plugins/codex-routecraft/scripts/praxis_dashboard/projection.py:155-161 | merging a newer row over an older one takes each column from the newer row where that reports it, else from the older |
| `RouteColumns.MergeMixesColumns` | plugins/codex-routecraft/scripts/praxis_dashboard/projection.py:106-161 | two events of one readable run whose merge is a run with a change of family that counts as unchanged |
| `PairedBasis.Basis` | plugins/codex-routecraft/scripts/praxis_dashboard/projection.py:384-413 | pairs are exactly the identities with one row in each mode, and rows = 2·pairs + v1 + missing identity + duplicate + unpaired, each counter being the rows of its kind |
| `PairedBasis.ExclusionsMean` | plugins/codex-routecraft/scripts/praxis_dashboard/projection.py:389-413 | what is left out, read off the rows: old versions; missing pair or scope; a partner in the other mode but two rows of one mode; no partner |
| `PairedBasis.PairsMean` | plugins/codex-routecraft/scripts/praxis_dashboard/projection.py:401-406 | what is paired: an on row and an off row of one pair and scope with no third row of it, and every such row |
| `PairedBasis.EveryRowCounted` | plugins/codex-routecraft/scripts/praxis_dashboard/projection.py:393-403 | every evidence row is of an old version, without identity, or under some identity |
| `TaskStates.Track` | plugins/codex-routecraft/scripts/praxis_dashboard/projection.py:462-495 | the pass keeps for each task the fold of its reports |
| `TaskStates.LastInstantDecides` | plugins/codex-routecraft/scripts/praxis_dashboard/projection.py:480-489 | of reports sorted by time only those of the last instant count |
| `TaskStates.NumberedOrderIrrelevant` | plugins/codex-routecraft/scripts/praxis_dashboard/projection.py:483-487 | distinctly numbered reports of one instant give the same state in any order |
| `TaskStates.HighestNumberWins` | plugins/codex-routecraft/scripts/praxis_dashboard/projection.py:483-487 | namely that of the highest number |
| `TaskStates.NothingInvented` | plugins/codex-routecraft/scripts/praxis_dashboard/projection.py:488-489 | agreeing reports are believed, and a state other than unknown was reported |
| `TaskStates.ListingOrderMatters` | plugins/codex-routecraft/scripts/praxis_dashboard/projection.py:480-489 | with a number missing between two that differ, two orders of the same reports give different states |
| `TaskStates.OrderIrrelevantIffSettled` | plugins/codex-routecraft/scripts/praxis_dashboard/projection.py:480-489 | for given numbers of one instant, every choice of states gives the same result in every order if and only if no two reports with a missing or equal number have a third numbered above one of them |
| `TaskStates.StatesPartition` | plugins/codex-routecraft/scripts/praxis_dashboard/projection.py:535-536 | every task is counted in exactly one state |
| `Batches.PayloadBatches` | plugins/codex-routecraft/scripts/routecraft_collector.py:1048-1074 | fails exactly on a bad size or payload; otherwise the valid batches rebuild the payload in order, none exceeds the size, families are in the first only, and no later batch is empty |
| `Batches.BatchIsValid` | plugins/codex-routecraft/scripts/routecraft_collector.py:1072-1073 | a piece of a valid payload is valid, so the check on each batch never fails |
| `Batches.FamiliesMean` | plugins/codex-routecraft/scripts/routecraft_collector.py:90-92 | six families came with the third version, all others but one with the fourth, that one with the fifth |
| `Batches.EmptyIsValid` | plugins/codex-routecraft/scripts/routecraft_collector.py:991-1045 | which payloads are valid: one with exactly the families of its version and no rows; never one with other families |
| `Batches.RowMore` | plugins/codex-routecraft/scripts/routecraft_collector.py:991-1045 | a row more keeps it valid exactly if the row is, its family has room below 500 and, from the fourth version on, the graph families together below 75 |
| `Batches.RunMore` | plugins/codex-routecraft/scripts/routecraft_collector.py:991-1045 | a run or memory task more exactly if that is valid |
| `Batches.FewestBatches` | plugins/codex-routecraft/scripts/routecraft_collector.py:1062 | no other division into batches of that size takes fewer |
| `GraphBundle.Normalize` | plugins/codex-routecraft/scripts/routecraft_collector.py:1193-1252 | the loops with their early exits equal the all-or-nothing function the next rows are about |
| `GraphBundle.SentIsClosed` | plugins/codex-routecraft/scripts/routecraft_collector.py:1193-1252 | whatever was read, at most 75 rows are sent, all valid, and every node and event names a run that is sent |
| `GraphBundle.RowsSent` | plugins/codex-routecraft/scripts/routecraft_collector.py:1216-1246 | of anything sent, row by row and in order: the cycle's device, time and rest as read, identifiers the digests of kind, device, time and old identifier, and references to the same runs |
| `GraphBundle.ReferencesKept` | plugins/codex-routecraft/scripts/routecraft_collector.py:1216-1244 | a node or event names the new id of a run exactly if it named that run before, and runs stay distinct |
| `GraphBundle.AllOrNothing` | plugins/codex-routecraft/scripts/routecraft_collector.py:1246-1252 | nothing is sent exactly when something is refused or there are no runs or more than 75; all is sent exactly when it all fits in 75 rows; otherwise all runs are sent and no details |
| `GraphBundle.SentIff` | plugins/codex-routecraft/scripts/routecraft_collector.py:1193-1252 | something is sent exactly if there are 1 to 75 runs of different ids and up to 500 rows of either other kind, all naming runs and valid as read and as sent; and how much is sent then |
| `GraphBundle.MostIsSent` | plugins/codex-routecraft/scripts/routecraft_collector.py:1216-1252 | of the reductions that fit, none has more rows than what is sent |
| `GraphBundle.SentDetermines` | plugins/codex-routecraft/scripts/routecraft_collector.py:1216-1252 | with a digest that keeps rows apart, two readings sent whole as the same bundle are the same but for the device |

## Left out

- Topology.Normalize: takes identifiers as strings already stripped; that they are non-empty, bounded and no paths is not part of the condition.
- Merge.StructurallyCompatibleMerge: the check that the merged value is JSON-safe is not modelled.
- Engine.Validate: JSON safety, bounds of counters, timestamps and modes of a snapshot are not modelled.
- Calling.CreateGraph: every unit starts pending without attempts; units that bring a status or attempts of their own, labels and gates are not modelled.
- Calling.RecordVerifiedConstraint: bounds on the statement, generated identifiers and the default for reusable constraints are not modelled.
- Safety.ExportsVerified: the field checks of an exported row are not modelled, its fields being typed.
- Evaluation.StatusMeetsRule: the collector's memory rule only, not its checks of task class, summary and ranges of counts.
- Scorecard.Summarize: repositories, devices, transfer counts, the split by mode and the medians are not computed.
- RouteColumns.MergeMixesColumns: stripping a label is modelled for ASCII white space.
- Cycles.FindCycles: states that every reported cycle is genuine and that none is missed altogether, not that every cycle of the graph is reported, which the search does not promise.
- Device.Host.RestoreCache: directories without files are not part of a tree.
- Device.Host.ApplyPluginTransaction: the plan, the checkout validation and the verification report around it are not modelled; what counts as installed is the comparison the transaction itself makes.
- Projection.PathsAgree: concerns the columns and the time of each run; the order of rows that tie in both time and run id depends on the listing.
- Projection.RunRecords: starts from the typed record of an event; reading the columns out of an event and its metadata is not modelled.
- RouteImpact.Impact: the order of the matrix cells, the mixes by model and reasoning, and the Sol-specific buckets are not modelled.
- PairedBasis.Basis: the sums over metrics of the pairs are not modelled.
- GraphBundle.ReferencesKept: assumes that the digest gives different runs different identifiers.
- Scorecard.ScoreDefinedAndBounded: the verdict on the score (insufficient, provisional, established) and the counts of learned and skipped tasks are not modelled; takes medians, means, transfer counts and the privacy scan as arbitrary inputs and leaves rounding out.
- Termination.StepLowers: covers complete, fail, retry and record calls; rounds are covered by Progress.RoundSpendsIff.
- Snapshots are checked for structure and cycles; privacy filters, nesting and size bounds of JSON values, label normalisation and unknown stage names are not modelled.
- Units given to `create_graph` with a status or attempts of their own, tokens, shadow predictions, gates, modes and the audit fields of a snapshot.
- Edges given in the several accepted notations are taken as pairs; the constant for the largest number of edges is not used by the code and not modelled.
- Hashing, JSON text, temporary files and fsync; the lock of the evaluation log is taken to exclude, its stale-lock breaking is not modelled, nor is a crash between writing a session file and appending to the log.
- Malformed lines of the event log, the benchmark runner and the comparison between modes.
- HTTP servers, command lines, Git, the telemetry and policy packages and the `routecraft_graph` package, which is not part of this model.
