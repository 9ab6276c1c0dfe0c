# A verified model of the workflow engine

This project models the parts of the workflow service whose correctness is hard to see from one function
at a time, and proves properties of them with Dafny 4.11. `dafny verify dfyconfig.toml` checks all of it.

## What is modelled

**Graphs** (`DepGraph`, `CycleDetection`, `Kahn`, `TieBreak`, `MaxDepth`, `Levels`, `Definitions`, `Parser`, `AcceptanceLaws`, `Scheduler`).
A workflow's dependency graph is an insertion-ordered dictionary in which a dependency may be repeated.
Three mutable algorithms work on it: the colouring search with its parent pointers, the longest-path pass
of the depth check, and the topological sort used at run time. Each is a method with the loops of the
original. `KahnOrder` is the specification that the last two share; cycles, chains and longest chains are
defined without reference to any algorithm, and `TieBreak` gives laws that determine the order completely.
`AcceptanceLaws` says what is accepted in terms of the positions and fields of the steps alone.

**Runs** (`Status`, `Engine`, `RunProperties`, `RunTheorems`, `RunLaws`, `RowLaws`, `ConditionLaws`, `Planning`,
`OrderIndependence`, `Nested`, `NestingIsTight`, `Orchestrator`, `Limits`). `Engine` gives the meaning of a run as a function from the answers
of the step executors to step rows, shared context and the log of executor calls. The class
`Orchestrator.Execution` runs the retry loop and the main loop on mutable rows, and every method is proved equal
to that function, nested runs included. Every row carries the trail of statuses it has held. Executors are arbitrary:
the theorems hold for every way they may answer, depending on the step, the attempt and the shared context.
`RowLaws` and `ConditionLaws` say what a run leaves behind on the fields of its rows: the content of every row, and which steps
are skipped, down to the text that a condition rendered. `Limits` shows each constant on an instance.
Only the executor raises inside the `try` block of the retry loop; database flushes and the context merge succeed.

**Lifecycle** (`Lifecycle`, `StoreLaws`, `SweepLaws`). The store under all its writers, one action per committed transaction: whole runs,
runs that were aborted and committed while still running, cancellations, the stale sweep, the worker's task.

**Cache** (`WorkflowCache`, `CacheRecency`, `CacheLaws`, `WebhookLookup`, `WebhookLaws`). The ordered map, the path index, expiry and eviction,
first alone and then beside the database that it stands in for. Reading a row and filling the cache is one step; writing
and invalidating is one step or two, as the theorem says.

**Pagination** and **RateLimit**. The cursor query of the two list endpoints, and the limits and counters of the middleware.

## Where the code differs from its documentation

- `src/lib/cache.py:104-106` means to drop the path of an evicted workflow, but the entry is already gone when its path is
  looked up, so the index key stays. `CacheLaws.StoreKeepsIndexIff` says exactly when one store does so.
  `WebhookLookup.EvictionThenPathChangeFails` shows a stale path that answers although each write is followed by its
  invalidation, and `WebhookLookup.AnswerFailsIff` says exactly when the lookup is wrong, over whole traces.
- `src/api/middleware/rate_limit.py:1-6` speaks of a sliding window. The code counts per window, and one minute can admit up to
  one less than twice the limit (`RateLimit.AnyMinuteAdmitsLessThanTwice`, `RateLimit.BoundIsReached`).
  `RateLimit.MinuteWithinLimitIff` says exactly which minutes keep the limit.
- `src/api/middleware/rate_limit.py:21` says that more specific prefixes come first. `RateLimit.FirstIsMostSpecificIff` proves it
  for all requests but POST below `/api/workflows/`, whose entry of 30 stands behind the entry of 20 for `/api/workflows` and is
  never used. The event stream, which the note at line 36 limits to 30, has the limit 100 (`RateLimit.StreamIsNotLimitedFurther`).
- `src/queue/jobs.py:70-81` moves pending and queued steps to failed, a move that the table in `src/engine/state.py:31-38` does
  not list. `SweepLaws.SweepLeavesTable` is such a history, `SweepLaws.HistoriesInTableIff` says exactly which histories stay
  inside the table, and `SweepLaws.OnlySweepsLeaveTable` that no other writer leaves it.
- `src/engine/parser.py:42-45` lists the codes that the parser raises. A step whose type is a non-empty list or object makes the
  test in line 97 raise an error that nothing catches. `Parser.UnhashableTypeIsUncaught` is such a definition, and
  `Parser.UncaughtErrorIff` says exactly when.

## Model

| member | source | states |
|---|---|---|
| DepGraph.BuildChildren | src/engine/graph.py:42-46 | the reversed adjacency list has each dependent of a node once per mention, in dictionary order |
| DepGraph.ChildrenCount | src/engine/graph.py:42-46 | an edge of multiplicity k appears k times among the children, and children are exactly the dependents |
| DepGraph.StuckHasCycle | src/engine/graph.py:48-70 | a non-empty set of nodes each of which waits for another one in the set contains a cycle |
| DepGraph.OrderedIsAcyclic | src/engine/orchestrator.py:336-345 | a listing of all nodes with dependencies first refutes every cycle |
| Definitions.BuildDependencyGraph | src/engine/graph.py:15-26 | the loop builds the graph in which a repeated id keeps its first position and its last dependencies |
| Definitions.LastListCounts | src/engine/graph.py:15-26 | of several steps with one id, the last one's dependencies count |
| Definitions.FirstPositionCounts | src/engine/graph.py:15-26 | nodes stand in the order in which their ids first occur in the list |
| CycleDetection.ReconstructCycle | src/engine/graph.py:73-88 | walking the parent pointers gives back the part of the search stack from the revisited node, closed up |
| CycleDetection.CycleDetector.Dfs | src/engine/graph.py:48-59 | keeps gray nodes equal to the stack and black nodes ordered after their children, or returns a real simple cycle |
| CycleDetection.CycleDetector.SearchAll | src/engine/graph.py:61-70 | either a simple cycle, or all nodes finished after all their dependents |
| CycleDetection.DetectCycles | src/engine/graph.py:29-70 | raises if and only if the graph has a cycle, self-loops included, and then reports a simple cycle along dependency edges |
| Kahn.OrderIsSound | src/engine/orchestrator.py:336-345 | on every graph the sort lists known steps, none twice, each after all its dependencies |
| Kahn.OrderIsCompleteIffAcyclic | src/engine/orchestrator.py:311-345 | on a closed graph the sort lists every step if and only if there is no cycle, so it agrees with cycle detection |
| Kahn.OrderIsPermutation | src/engine/orchestrator.py:311-345 | on a closed acyclic graph the sort is a permutation of the steps with each dependency before its dependents |
| TieBreak.OrderBreaksTies | src/engine/orchestrator.py:331-345 | steps without dependencies come first, in list order; any other two stand in the order of their last dependencies, and in list order if these are the same |
| TieBreak.OrderIsDetermined | src/engine/orchestrator.py:331-345 | on every graph the sort's order is the only listing of its steps with dependencies first and ties broken in this way |
| TieBreak.AcyclicOrderIsDetermined | src/engine/orchestrator.py:311-345 | on closed acyclic graphs it is the only such listing of all steps |
| MaxDepth.DepthMapIsLongest | src/engine/graph.py:110-117 | depths that are one more than the greatest among the dependencies are the lengths of longest chains |
| MaxDepth.PushDown | src/engine/graph.py:113-119 | the inner loop deepens exactly the children of the popped node and lowers their in-degrees as the sort does |
| MaxDepth.ComputeDepths | src/engine/graph.py:100-119 | on every graph: pops nodes in the order of the run-time sort; a popped node gets the exact length of the longest chain ending there, any other node that of the longest chain reaching it through popped ones |
| MaxDepth.ValidateMaxDepth | src/engine/graph.py:91-131 | on every graph raises if and only if some chain of sortable steps and one last step has more than 20 steps, and reports the length of the longest; on closed acyclic graphs these are all chains |
| Levels.OrderFollowsDepth | src/engine/orchestrator.py:331-345 | on every graph, each listed step has a longest chain, and the first-in-first-out order never goes back to a shorter one |
| Scheduler.CollectEdges | src/engine/orchestrator.py:322-329 | builds the adjacency lists and in-degrees of the graph straight from the step list |
| Scheduler.TopologicalSort | src/engine/orchestrator.py:311-345 | returns the same order as the depth check's pass over the parser's graph |
| Scheduler.AcceptedOrder | src/engine/parser.py:46-57 | every list the parser accepts is run in an order with each step once and dependencies first |
| Parser.ParseSteps | src/engine/parser.py:86-112 | parses all steps, or stops at the first bad one, with the error of its kind: unknown type, invalid, or a type that cannot be looked up, which raises an uncaught error |
| Parser.FindDuplicate | src/engine/parser.py:115-126 | reports the first id that repeats an earlier one, and none exactly when ids are unique |
| Parser.FindUnknownDependency | src/engine/parser.py:141-154 | on every list reports the first dependency on a step that does not exist, and none exactly when all are known; with unique ids that means a closed graph |
| Parser.FindBadTemplate | src/engine/parser.py:157-171 | reports the first step with a template that does not parse |
| Parser.CheckShape | src/engine/parser.py:48-50 | unique ids before known dependencies, with the error of the first rule broken |
| Parser.CheckGraph | src/engine/parser.py:52-54 | cycles before depth, with the error of the first rule broken |
| Parser.ParseWorkflowDefinition | src/engine/parser.py:28-64 | accepts exactly the definitions that meet all rules, and otherwise reports the first rule broken at the first place that breaks it |
| Parser.ErrorIsDetermined | src/engine/parser.py:46-55 | the rules for the errors exclude each other and acceptance, and determine the error completely, except for which cycle is shown |
| Parser.UncaughtErrorIff | src/engine/parser.py:92-111 | an uncaught error is raised if and only if the number of steps is allowed and the first bad step has a type that cannot be looked up |
| Parser.UnhashableTypeIsUncaught | src/engine/parser.py:96-97 | one such definition |
| AcceptanceLaws.AcceptedIff | src/engine/parser.py:46-64 | acceptance on positions and fields: between one and the allowed number of steps, well formed, under different ids, depending on listed steps only, never in a circle, in chains of at most twenty, with templates that parse |
| Limits.LineIsAcceptedIff | src/engine/graph.py:12-131 | a line of k steps, each depending on the one before, is accepted if and only if k is at most 20 |
| Limits.ThreeCallsByDefault | src/engine/models.py:23-31 | a step without a retry setting that always fails is called three times |
| Status.ExecPathIsShort | src/engine/state.py:20-26 | a path in the execution table has at most three statuses and ends at its first terminal one |
| Status.StepPathShape | src/engine/state.py:31-38 | completed and skipped are final for a step, and between two runs of a step there is a failure |
| Status.MovesInto | src/engine/state.py:20-38 | for every status of the two tables, the statuses that may come before it |
| RunProperties.RetryStopsAtFirstSuccess | src/engine/orchestrator.py:174-233 | the retry loop makes min(index of first success, max attempts) calls, equal to the stored attempt, and completes exactly when it succeeded |
| RunProperties.RetryKeepsLastError | src/engine/orchestrator.py:211-213 | the stored error is that of the last failed attempt, also on a step that completes later |
| RunProperties.RetryFollowsTable | src/engine/orchestrator.py:183-213 | all statuses that the retry loop writes form a path in the step table |
| RunProperties.RoundKeepsProgress | src/engine/orchestrator.py:124-150 | one round of the main loop keeps the invariant of rows, context, skipped steps and call log |
| RunTheorems.RunOutcome | src/engine/orchestrator.py:124-153 | a run completes with all steps completed or skipped, or fails with a settled prefix, one step that used all its attempts, and an untouched pending suffix |
| RunLaws.SkippedIffRuledOut | src/engine/orchestrator.py:128-150 | a processed step is skipped if and only if a condition earlier in the order completed and lists it in its non-taken branch |
| ConditionLaws.SkippedIffExcluded | src/engine/orchestrator.py:268-308 | for executors that answer anything: a processed step is skipped if and only if it is in the true branch of an earlier completed condition whose output says false, or in the false branch of one whose output says true |
| ConditionLaws.SkippedIffOtherBranchTaken | src/engine/orchestrator.py:145-150 | when conditions answer with a branch, a processed step is skipped if and only if an earlier completed condition has it in the branch that its output does not take |
| ConditionLaws.SkippedIffTextExcludes | src/steps/condition.py:48-94 | for the executors of the engine, from the rendered text to the skipped step: skipped if and only if some earlier condition completed whose rendered text decides against the branch that lists it |
| RunLaws.ExecutedStepResult | src/engine/orchestrator.py:132-143 | every other processed step is executed, and its row is decided by its first successful attempt on the outputs completed before it |
| RowLaws.RowOfStep | src/engine/orchestrator.py:128-233 | every field of every processed row: skipped with nothing else changed, or completed with output, kept error and one failed attempt after another before the success, or failed with the error of the last of all its attempts |
| RunLaws.ContextIsCompletedOutputs | src/engine/context.py:55-63 | the final context holds the outputs of exactly the completed steps, each that of the first successful attempt on the outputs completed before it, none lost or altered |
| RunLaws.StatusesFollowTables | src/engine/state.py:20-78 | every run writes only paths of the two tables, the direct write of failed included |
| RunLaws.CallsOfStep | src/engine/orchestrator.py:188-200 | each executed step makes calls 1 to attempt, each given exactly the outputs of the steps completed earlier in the order |
| RunLaws.DependenciesAreVisible | src/engine/context.py:91-94 | every executor call of a step is given the output of each dependency exactly when that dependency completed, and it is the final output |
| OrderIndependence.CompletedRunIsOrderIndependent | src/engine/orchestrator.py:120-153 | when executors read only transitive dependencies and conditions rule out only their dependents, two orders give the same rows and context if one run completes |
| OrderIndependence.PermutationIsAccepted | src/engine/parser.py:46-55 | permuting the steps of an accepted list gives an accepted list |
| OrderIndependence.ListOrderIsIrrelevant | src/engine/orchestrator.py:311-345 | permuting the steps of an accepted workflow changes neither whether the run completes nor, if it does, any row or the context |
| Nested.TruthinessIff | src/steps/condition.py:92-94 | a rendered text is false if and only if it is empty, false, 0 or none in any letter case with any space around it |
| Nested.ConditionRulesOutOtherBranch | src/steps/condition.py:48-78 | the condition fails exactly without an expression or rendering, otherwise the text decides the branch taken, and the orchestrator skips exactly the other one |
| ConditionLaws.ConditionAnswer | src/steps/condition.py:48-78 | the condition executor succeeds if and only if there is an expression and it renders; it answers the branch that the text chooses, and otherwise the error of the case |
| ConditionLaws.LeafAnswer | src/engine/orchestrator.py:236-257 | steps that call out of the engine are answered by what they call |
| ConditionLaws.SubWorkflowAnswer | src/steps/sub_workflow.py:55-126 | the sub-workflow executor reports the first check that fails, or else the status and context of the stored workflow's run on the mapped input, for the same tenant, one level deeper |
| ConditionLaws.StartedRun | src/engine/orchestrator.py:25-103 | a run starts if and only if its definition is accepted; it keeps trigger, tenant and depth, has one row per step, and leaves the rows that it does not reach fresh, with three attempts unless set otherwise |
| Nested.SubWorkflowSucceedsIffLaunched | src/steps/sub_workflow.py:55-126 | the step succeeds exactly when all guards let the child run start, whatever becomes of the child |
| Nested.NestingIsBounded | src/steps/sub_workflow.py:61-73 | no execution is deeper than the limit, and with s steps of a attempts a run makes at most a * (s + s^2 + ...) executor calls, one power per level left |
| Nested.SharperThanProducts | src/steps/sub_workflow.py:115-121 | that bound is no more than the sum of the powers of s * a |
| NestingIsTight.BoundIsReached | src/steps/sub_workflow.py:115-126 | for all sizes and depths there are accepted workflows whose run makes exactly that many calls |
| Orchestrator.Execution.TransitionExecution | src/engine/state.py:81-136 | moves along the execution table, or raises and changes nothing |
| Orchestrator.Execution.TransitionStep | src/engine/state.py:139-200 | moves along the step table and stores a given error, or raises and changes nothing |
| Orchestrator.Execution.MergeStepOutput | src/engine/context.py:21-63 | adds one output to the context and keeps the others |
| Orchestrator.Execution.BeginAttempt | src/engine/orchestrator.py:178-186 | attempt number, queued and running, without an invalid transition |
| Orchestrator.Execution.Attempt | src/engine/orchestrator.py:188-213 | one call with the current context, and the row and context that follow from its outcome |
| Orchestrator.Execution.ExecuteStepWithRetry | src/engine/orchestrator.py:156-233 | the mutable loop leaves the row, context and call log of the specified retry loop and never raises |
| Orchestrator.Execution.ProcessStep | src/engine/orchestrator.py:124-150 | one round on the mutable rows is one round of the specification |
| Orchestrator.Execution.RunSteps | src/engine/orchestrator.py:124-150 | the main loop reaches the specified state after all rounds, stopping early exactly when it has failed |
| Orchestrator.Execution.ExecuteDag | src/engine/orchestrator.py:106-153 | the whole walk leaves the state that the specification of a run gives, and never raises an invalid transition |
| Orchestrator.Execution.Prepare | src/engine/orchestrator.py:57-97 | fresh rows and metadata are the start state of the specification |
| Orchestrator.Dispatch | src/engine/orchestrator.py:236-257 | each step type gets the answer of its own executor |
| Orchestrator.ExecuteSubWorkflow | src/steps/sub_workflow.py:55-126 | the guards in order, then the child run one level deeper, with the outcome that the specification gives |
| Orchestrator.RunChild | src/steps/sub_workflow.py:115-126 | a failed child is reported as a normal result |
| Orchestrator.StartExecution | src/engine/orchestrator.py:24-103 | raises exactly for definitions that are not accepted, and otherwise leaves the state of the specified run; terminates for self-referencing workflows |
| Lifecycle.RunIsConsistent | src/engine/orchestrator.py:99-103 | what a run commits satisfies the invariant of the store |
| Lifecycle.ActionKeeps | src/engine/state.py:20-38 | every writer keeps the invariant and changes records only in legal ways |
| Lifecycle.HistoryIsConsistent | src/queue/jobs.py:43-83 | after every interleaving, completed and cancelled executions have no pending, queued or running step, failed ones no queued or running step, and all trails are legal |
| Lifecycle.FinalStatesStay | src/api/executions.py:255-263 | between any two moments of any interleaving, terminal executions keep their status and completed or skipped steps their whole row |
| StoreLaws.CancelStaysInTenant | src/api/executions.py:235-253 | in every history a cancellation leaves every record of another tenant as it was |
| StoreLaws.StatusIsExplained | src/api/executions.py:255-263 | in every history an execution is cancelled if and only if its own tenant cancelled it while it was pending or running, has failed if and only if its run failed or a sweep found it running for more than an hour, and otherwise has the status it arrived with |
| Lifecycle.Store.CancelExecution | src/api/executions.py:218-271 | not found, with nothing changed, for an id that is missing or another tenant's; an invalid transition, with nothing changed, for a finished execution; otherwise the execution is cancelled, each pending, queued or running step is skipped, and no other field or record changes |
| Lifecycle.Store.CleanupStaleExecutions | src/queue/jobs.py:27-86 | the two bulk updates fail exactly the executions that have been running for more than 3600 seconds and their unfinished steps, with the error of the sweep, change no other field or record, and count them |
| Lifecycle.Store.ExecuteStep | src/queue/tasks.py:97-174 | not found and steps that are not queued change nothing; otherwise the one row is completed with its output, merged into the named context, or failed with its error, and an attempt is counted if the executor failed; no other field or record changes |
| SweepLaws.SweptRecordIff | src/queue/jobs.py:70-81 | a sweep keeps the histories of a record inside the step table if and only if no step is pending or queued |
| SweepLaws.OnlySweepsLeaveTable | src/engine/state.py:31-38 | every move that any other writer makes, in any state of the store, is a table move |
| SweepLaws.ActionKeepsTableIff | src/queue/jobs.py:43-83 | one action leaves the step table if and only if it is a sweep that finds a stale execution with a pending or queued step |
| SweepLaws.HistoriesInTableIff | src/queue/jobs.py:43-83 | after any interleaving all step histories are table paths if and only if no sweep so far found such an execution |
| SweepLaws.SweepLeavesTable | src/api/webhooks.py:188-192 | a concrete history: an aborted run with a pending step, swept an hour later, goes from pending to failed |
| WorkflowCache.CapacityHolds | src/lib/cache.py:104-106 | ids are unique and entries never exceed the capacity, over every trace |
| CacheRecency.EntriesInOrderOfUse | src/lib/cache.py:48-69 | over every trace the entries stand in the order in which they were last stored or found |
| CacheRecency.PushedOutIff | src/lib/cache.py:103-106 | over every trace, a store pushes another workflow out if and only if the cache is full without the stored one and the other is the least recently used of all |
| CacheRecency.HeldIff | src/lib/cache.py:48-140 | over every trace the cache holds an entry if and only if it was stored and no operation since has dropped it: expiry met by a lookup, invalidation, clearing, storing the workflow again, being pushed out |
| CacheRecency.HeldAfter | src/lib/cache.py:48-140 | the same for one operation on any cache |
| CacheRecency.KeyAfter | src/lib/cache.py:115-168 | after one operation a path leads to a workflow if and only if the operation stores it with the path, or it led there before and was not overwritten, cleared or taken out with an entry of the path; eviction takes no path out |
| CacheRecency.AnswerIff | src/lib/cache.py:48-69 | a lookup by id answers a workflow if and only if an entry holds it and its time is not over |
| WorkflowCache.CacheObject.RemovePathIndex | src/lib/cache.py:164-168 | drops the path of a cached workflow and nothing else |
| WorkflowCache.CacheObject.RemoveEntry | src/lib/cache.py:159-162 | drops the entry together with its path |
| WorkflowCache.CacheObject.Lookup | src/lib/cache.py:48-69 | a fresh hit becomes the most recent entry, an expired one is removed and missed |
| WorkflowCache.CacheObject.LookupPath | src/lib/cache.py:71-86 | looks up by id what the index names |
| WorkflowCache.CacheObject.Store | src/lib/cache.py:88-118 | the eviction loop drops the oldest entries but none of their index keys, and the new entry is last; with capacity zero it raises on the empty dictionary |
| WorkflowCache.CacheObject.Invalidate | src/lib/cache.py:126-140 | removes the entry with its path if it is cached |
| WorkflowCache.CacheObject.Clear | src/lib/cache.py:142-146 | empties entries and index |
| CacheLaws.LargerCacheIncludesSmaller | src/lib/cache.py:48-69 | over every trace of stores, lookups by id, invalidations and clears, a smaller cache is a subsequence of a larger one and every hit is the larger one's hit |
| CacheLaws.LargerCacheIncludesSmallerByPath | src/lib/cache.py:71-86 | the same over traces with lookups by path, when workflows keep their paths, for every hit by path |
| CacheLaws.PathHitIncludedIff | src/lib/cache.py:83-86 | a path hit of the smaller cache is the larger one's if and only if its index leads to the same workflow there |
| CacheLaws.SmallerAnswersLargerMisses | src/lib/cache.py:104-106 | without kept paths a cache of one entry can answer for a path that a cache of two entries misses |
| CacheLaws.PathLookupIsScan | src/lib/cache.py:71-86 | when each workflow keeps its path, path lookup equals a scan of the unexpired entries in spite of index keys left by evictions |
| CacheLaws.KeyAfterSet | src/lib/cache.py:99-118 | after a store the key of its own path is right, and a key that was right stays so if and only if its owner was not evicted |
| CacheLaws.StoreKeepsIndexIff | src/lib/cache.py:99-118 | a store keeps the index exact if and only if it does not evict a workflow with another path of its own |
| CacheLaws.StaysSound | src/lib/cache.py:99-118 | the index stays exact over every trace without such a store |
| CacheLaws.StalePathAnswers | src/lib/cache.py:104-106 | a concrete trace after which an old path still answers |
| WebhookLookup.HitWasCurrentRecently | src/api/webhooks.py:82-89 | a hit is the row the database held for that path at some instant less than the time-to-live ago, in every trace whose fills leave no key behind |
| WebhookLookup.HitWasCurrentRecentlyDespiteEvictions | src/api/webhooks.py:82-89 | the same with evictions, and with writes whose invalidation comes later, when no update changes a path |
| WebhookLookup.FewWorkflowsAreClean | src/lib/cache.py:104-106 | no fill leaves a key behind while no more workflows were created than the cache holds |
| WebhookLookup.AnswerIsDatabase | src/api/workflows.py:248-252 | if writes commit and invalidate in one step, the lookup answers exactly what the database holds |
| WebhookLookup.AnswerIsDatabaseDespiteEvictions | src/lib/cache.py:99-118 | the same with evictions, when no update changes a path |
| WebhookLookup.AnswerIsDatabaseIff | src/lib/cache.py:71-86 | with one-step writes the lookup is right if and only if, before it, the index does not lead the path to a cached, unexpired workflow whose row has another path |
| WebhookLookup.WrongKeyIsOrphan | src/lib/cache.py:104-106 | in every trace a wrong index key was left behind by an eviction and has been neither dropped nor overwritten since |
| WebhookLookup.AnswerFailsIff | src/api/webhooks.py:82-89 | over every trace with one-step writes the lookup is wrong if and only if an eviction left the key of the path behind, nothing dropped or overwrote it, and the workflow is cached again under another path |
| WebhookLookup.EvictionThenPathChangeFails | src/api/workflows.py:241-252 | an eviction, then a trigger type changed away and back, makes a path that no row has answer |
| WebhookLookup.Server.LookupWorkflowByPath | src/triggers/webhook.py:22-49 | finds the one row with the path, if there is one |
| WebhookLookup.Server.ReceiveWebhook | src/api/webhooks.py:82-89 | cache first, then the database, filling the cache |
| WebhookLookup.Server.UpdateWorkflow | src/api/workflows.py:218-252 | succeeds if and only if the row is the tenant's, the steps are accepted and no other row has the resulting path; then the row has the new content and its path unchanged, kept, generated or cleared, no other row changes, and the cached copy is dropped; otherwise nothing changes |
| WebhookLookup.Server.DeleteWorkflow | src/api/workflows.py:285-290 | removes the tenant's own row and no other, and drops the cached copy; otherwise nothing changes |
| WebhookLaws.CreateEffect | src/api/workflows.py:65-82 | a workflow is created if and only if its id and its path are free, and nothing else changes |
| WebhookLaws.UpdateEffect | src/api/workflows.py:218-248 | committing alone and committing with invalidation write the same row, under the condition and with the fields of the handler |
| WebhookLaws.KeptPathIsFree | src/api/workflows.py:241-246 | an update that keeps or clears the path is never refused for its path |
| WebhookLaws.DeleteEffect | src/api/workflows.py:285-288 | both forms of deletion remove the tenant's own row and nothing else |
| WebhookLaws.OnlyOwnersWrite | src/api/workflows.py:301-325 | in every history a row changes or disappears only by a request of its own tenant |
| WebhookLaws.HitIff | src/lib/cache.py:71-86 | a request is answered from the cache if and only if its path leads to an entry of that workflow whose time is not over |
| WebhookLaws.FillThenHit | src/api/webhooks.py:82-89 | after a miss the row is answered from the cache, by path and by id, until its time-to-live is over and not longer |
| WebhookLaws.HitIsRepeatable | src/api/webhooks.py:82-89 | a hit answers the next request in the same way |
| Pagination.ListPageIsPage | src/api/executions.py:147-166 | a page is the least `limit` matching rows after the cursor, with a cursor exactly when more rows follow |
| Pagination.ExecutionsAreListed | src/api/executions.py:118-166 | the execution list returns the tenant's executions that meet each filter given and come after the cursor, by creation time and then id, up to the limit, with a cursor on the last one exactly when more follow |
| Pagination.WorkflowsAreListed | src/api/workflows.py:106-156 | the workflow list returns the tenant's workflows that meet each filter given, in the same way |
| Pagination.CursorCuts | src/api/executions.py:137-145 | asking with the cursor of a row gives exactly the rows after it, ties in creation time included |
| Pagination.WalkReturnsEachRowOnce | src/api/executions.py:124-166 | following the cursors over an unchanged table returns each matching row once, in order, in max(1, ceil(n / limit)) requests |
| Pagination.WalkSurvivesChanges | src/api/workflows.py:120-156 | with rows inserted, deleted and changed between requests, no row is returned twice and a finished walk returns every row that matched throughout |
| RateLimit.GetRateLimit | src/api/middleware/rate_limit.py:44-57 | the loop returns the limit of the first entry that fits, or the default |
| RateLimit.LimitsInForce | src/api/middleware/rate_limit.py:22-34 | which limit every method and path gets; one entry of the table is never used |
| RateLimit.FirstIsMostSpecificIff | src/api/middleware/rate_limit.py:20-34 | the first match is the match with the longest prefix if and only if the request is not a POST below /api/workflows/ |
| RateLimit.ExecutePathIsLimitedAsCollection | src/api/middleware/rate_limit.py:24-28 | one such path: 20, where the most specific entry says 30 |
| RateLimit.StreamIsNotLimitedFurther | src/api/middleware/rate_limit.py:36-38 | every GET below /api/executions/ has the limit 100, the event stream included |
| RateLimit.SameKeyIff | src/api/middleware/rate_limit.py:97 | two requests share a counter exactly when client, method and path are the same |
| RateLimit.RateLimiter.Dispatch | src/api/middleware/rate_limit.py:82-154 | counts and decides in Redis, and without Redis admits and counts nothing |
| RateLimit.WindowAdmitsItsFirst | src/api/middleware/rate_limit.py:104-135 | every request lies in a window opened less than a minute before, and is admitted exactly when fewer than `limit` came before it there |
| RateLimit.AnyMinuteAdmitsLessThanTwice | src/api/middleware/rate_limit.py:104-135 | any sixty seconds admit fewer than twice the limit for one client, method and path |
| Limits.RegistrationsInAnyMinute | src/api/middleware/rate_limit.py:22-23 | a client gets fewer than ten registrations through in any 60 seconds |
| Limits.WindowLastsSixtySeconds | src/api/middleware/rate_limit.py:104-108 | the second of two requests for one key opens a new window if and only if it comes 60 seconds later or more |
| RateLimit.BoundIsReached | src/api/middleware/rate_limit.py:104-135 | for every route there are requests of which one minute admits one less than twice the limit |
| RateLimit.StraddlingMinuteCount | src/api/middleware/rate_limit.py:104-135 | the exact count of a minute inside which a window opens, from the arrivals alone: max(0, min(limit, N) - K) + min(limit, M) |
| RateLimit.QuietMinuteCount | src/api/middleware/rate_limit.py:104-135 | a minute inside which no window opens admits at most the limit |
| RateLimit.MinuteWithinLimitIff | src/api/middleware/rate_limit.py:104-135 | a minute admits at most the limit if and only if it is not one in which the rest of one window and the start of the next exceed it together |

## Left out

- Scheduler.TopologicalSort: requires unique step ids, as the parser guarantees; the run-time sort of a list with repeated ids is not described.
- WorkflowCache.CacheObject.Store: requires unique ids among the entries, which stand for dictionary keys.
- Scheduler.CollectEdges: requires unique step ids, for the same reason as the sort.
- CacheLaws.LargerCacheIncludesSmaller: has no lookups by path, over which inclusion can fail; the theorem that has them is LargerCacheIncludesSmallerByPath.
- Parser.FindBadTemplate: the scan of nested configuration values is one property of the step, and the key that is reported with the step is left out.
- Orchestrator.Execution.TransitionExecution: time stamps and durations are left out, and the row that it moves is always found, being the object's own.
- Orchestrator.Execution.TransitionStep: time stamps and durations are left out.
- WebhookLookup.Server.UpdateWorkflow: whether the parser accepts new steps is part of the request, and a body number stands for the fields that no lookup reads.
- RateLimit.RateLimiter.Dispatch: counting and setting the expiry time are one atomic step; a counter that is left without expiry when the second command fails is not considered, nor the reset header.
- Lifecycle.Store.ExecuteStep: the executor's work lies inside the transaction, and the row that the worker updates may belong to another execution than the context it writes, as in the code.
- Nested.NestingIsBounded: stored workflows do not change during a nested run, and answers to executor calls are told apart by the path of enclosing calls.
- RunLaws.CallsOfStep: of an executor's input only the step outputs, the trigger, the depth and the tenant are modelled, not the database session.
- Template rendering, HTTP requests, delays and transformations are answers of the outside world; whether a template parses is a property of the step.
- Sessions, isolation levels, row-level security and the detection of changes to a re-assigned dictionary: the store is atomic, and the write of depth and tenant takes effect.
- Time stamps, durations and error texts of executions: a failed run does not set the first two, and the text only repeats the step id.
- The shape of step and workflow ids: they are natural numbers compared for equality, and in pagination by order; the text of a sub-workflow id is not parsed.
- The text form of cursors: a cursor is the pair of creation time and id.
- Lower-casing and stripping beyond ASCII in the truth value of a rendered condition.
- Parallel execution of steps, retry delays and execution timeouts: the sequential orchestrator reads none of them.
- Inactive workflows, payload limits, signatures and delivery records of webhooks; replay, schedules, pruning, metrics, event streams and log output.
