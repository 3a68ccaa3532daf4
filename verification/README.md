# Verified model of the planning harness

This project models the parts of the repository that decide everything in code: the task queue with leases and
its transactional outbox, the DAG scheduler and the two cycle detectors, the versioned artifact blackboard with
targeted repair, the deterministic itinerary planner with its validators, the JSON diff of plan versions, and the
HTTP provider's rate limiter and circuit breaker. `dafny verify dfyconfig.toml` checks the whole project.

Objects that the source updates in place are classes here (`MemoryHarnessRepository`, `OutboxPublisher`,
`MemoryBlackboard`, `TargetedRepairController`, `Visitor`, `RateLimiter`, `ResilientHttpProvider`); their methods
are proved against pure step functions, and the guarantees over whole histories are lemmas about arbitrary
sequences of those steps. Every method that the source runs under its lock is one atomic step, clock readings are
arguments, and results of operations, handlers, network calls and the constraint solver are arbitrary inputs.

| file | content |
|---|---|
| Common, Ordering, Graphs | options and results, sequences and sets, string order, paths, cycles and longest chains in graphs |
| TaskDag, Coordinator | Kahn peeling, depth-first search, and their agreement |
| Cascade, Scheduler, RunFacts | who runs and who is blocked in each round, described by paths; the retry loop and the run; what the outcomes of a run say |
| Repository, TaskStates | the queue's steps and methods |
| QueueFacts, OutboxFacts | what each call on tasks, events and rows does, condition by condition and field by field |
| LeaseHistory, RunHistory, QueueProgress, OutboxHistory, QueueExamples | histories of leases, runs, dependency safety and progress, the event log and outbox; concrete histories |
| Recovery | outbox publishers, alone and interleaved |
| Blackboard, BoardFacts | versioned artifacts and lineage; reading and writing in terms of the stored fields |
| Repair, RepairExecution, RepairFacts | repair plans and their execution; which tasks, questions and references by name |
| Itinerary, RouteOrder, DaySchedule, DayFacts, Partition, Planner, PlanFacts | the planner and what its plans mean |
| Overlaps, Validators, References | the validators of a plan and of everything it refers to |
| PlanAudit, ReferenceAudit | when the validators pass what the planner assembles |
| CrowdedTrip, ExcludedPlaces | a trip that some variants cannot serve, and excluded places that make every variant fail |
| JsonDiff, DiffOrder, JsonPatch, DiffText | changed paths, their order, the patch they determine, their rendering as strings |
| HttpProvider | slots, circuit, one request |

## Findings

Properties one would expect that the code does not have. Each comes with a lemma that exhibits a failing input and
one that states, for all inputs, exactly when the property holds:

| expected | failing input | exact condition |
|---|---|---|
| The scheduler's deadlock error cannot occur on a validated graph | `Scheduler.FailingChainDeadlocks`: in a chain of three whose first task fails, the second round blocks the second task and finds nothing ready | `Scheduler.Run`: it occurs exactly if some round is stuck in terms of failing paths before cancellation is seen; without failures never (`Scheduler.AllSucceed`) |
| A queue in which nothing failed, is leased or must wait hands out an unfinished task | `QueueExamples.CyclicBatchIsAccepted` and `AcceptedTasksAreOnACycle`: `add_tasks` takes two tasks that depend on each other, and no lease call grants one (`CyclicQueueIsStuck`) | `QueueProgress.QueueMovesExactly`: a lease call grants exactly if some unfinished task reaches no cycle; the others stay pending for ever (`CyclesStayPending`) |
| Enough candidates mean that no travel day is left without a place | `CrowdedTrip.TightVariantsLeaveADayEmpty`: with two appointments on the first of two days the economy and relaxed variants have one selection (`TightChoice`) and fail with the empty second day, although all three candidates together make a plan (`AllThreeMakeAPlan`) | `Partition.PartitionPlaces`: a day stays empty exactly if the places without an appointment are fewer than the days without one; for those variants the request alone tells (`Planner.TightVariantsRunShort`) |
| Inputs that fit all the places found still fit when the request excludes some of them | `ExcludedPlaces.RouteToExcludedFails`: a day trip to one place fails its validation in every variant when the route matrix also has a route to an excluded place, and succeeds without that route | `ExcludedPlaces.ExclusionIsSoundExactly`: they do exactly if no route starts or ends at an excluded place; else no plan is ever returned (`ReachingExcludedFails`). The matrix is checked against all places (`packages/workflow/orchestrator.py:53-66`), the plan against the candidates |
| A lease that has ended can be taken again directly (`docs/02-技术实现方案.md:802`) | `QueueExamples.ExpiredLease` in the store reached by `LateHistory`: a lease call passes over the task until recovery has run | `QueueExamples.LeasedIsNotOffered`: no call ever grants a leased task, whatever its expiry; `LeaseHistory.SelectMeaning` says which task is taken |
| Only the holder of an unexpired lease completes a task | `QueueExamples.ExpiredLease`: the first worker completes nine seconds late | `LeaseHistory.CompletionAfterGrant`: the worker of the latest grant completes exactly until the task is recovered or completed, the lease's end notwithstanding; in one call, exactly the owner of a leased task does (`CompletionIsExact`) |

The strings of the JSON diff are a matter of care rather than a failure. A key is told apart from every other path
exactly if it holds no dot and does not end like a list position (`DiffText.KeyIsClearExactly`), and every other key
occurs in two trees with two changes under one string (`AmbiguousKeyCollides`). The only caller,
`apps/api/run_service.py:273`, compares dumps of the final plan bundle, whose keys are fixed field names without dots
and brackets, so for it all strings are different (`ClearDiffIsReadable`).

## Model

| member | source | states |
|---|---|---|
| Graphs.StuckSetHasCycle | packages/harness/scheduler.py:92-93 | a non-empty set in which every node has a successor in the set contains an actual cycle |
| Graphs.PeelingAllMeansAcyclic | packages/harness/scheduler.py:88-97 | a graph that peels away completely has no cycle |
| Graphs.PeeledMeansShortChains | packages/harness/scheduler.py:90-97 | a node is gone after k peelings exactly when it starts no dependency chain of k edges |
| TaskDag.ValidateAcyclic | packages/harness/scheduler.py:88-97 | the peeling loop accepts exactly the graphs without a dependency cycle |
| TaskDag.ValidateDependencies | packages/harness/scheduler.py:80-86 | reports the first node with an unknown or self dependency, and which of the two comes first |
| TaskDag.Build | packages/harness/scheduler.py:69-78 | each construction error occurs exactly for its condition, in order; otherwise the nodes are kept by id |
| Coordinator.BackEdgeIsCycle | packages/agents/coordinator.py:59-63 | meeting a node that is being visited exhibits a cycle along the stack |
| Coordinator.Visitor.Visit | packages/agents/coordinator.py:59-70 | the visit fails only if there is a cycle; otherwise all it finished is closed under dependencies and off every cycle |
| Coordinator.GraphIsClosedAndAcyclic | packages/agents/coordinator.py:43-73 | accepts exactly the duplicate-free, closed, acyclic graphs, and reports a cycle exactly when there is one |
| Coordinator.DetectorsAgree | packages/agents/coordinator.py:43-73 | the depth-first search and the peeling accept the same graphs and report cycles and duplicates for the same ones |
| Cascade.RanStep | packages/harness/scheduler.py:190-198 | a node runs within k+1 rounds exactly when its dependencies ran within k and succeeded |
| Cascade.BlockedStep | packages/harness/scheduler.py:173-181 | a node is blocked within k+1 rounds exactly when a dependency failed or was blocked within k |
| Cascade.RanNotBlocked | packages/harness/scheduler.py:162-212 | no node is ever both run and blocked |
| Cascade.StuckNeedsFreshBlock | packages/harness/scheduler.py:199-202 | a stuck round has an unsettled node with a dependency that was blocked in that same round |
| Cascade.AllGoodWaves | packages/harness/scheduler.py:162-212 | without failures no round is stuck, nothing is blocked, and the nodes run so far are those peeled so far |
| Cascade.ChainOfThreeGetsStuck | packages/harness/scheduler.py:200-202 | a chain of three whose first task fails is stuck in its second round |
| Scheduler.NodeOutcomeAccounts | packages/harness/scheduler.py:216-278 | an outcome names the number of starts, that all but the last were worth retrying and none began cancelled, and why the last was final |
| Scheduler.AccountIsUnique | packages/harness/scheduler.py:216-278 | that account determines the outcome |
| Scheduler.RunNode | packages/harness/scheduler.py:216-278 | the retry loop gives the accounted outcome, starts as often as it reports, never beyond the limit, and never falls through its end |
| Scheduler.Round | packages/harness/scheduler.py:173-212 | one round blocks and runs exactly the nodes the path description says and shrinks the pending set whenever something was ready |
| Scheduler.Run | packages/harness/scheduler.py:148-214 | raises exactly when a stuck round precedes cancellation; otherwise every node has one outcome: its own account if run, else cancelled for a dependency or with the run |
| RunFacts.EveryNodeHasAnOutcome | packages/harness/scheduler.py:148-214 | a finished run has an outcome for every node, and only nodes were started |
| RunFacts.NotStartedMeansCancelled | packages/harness/scheduler.py:164-188 | a node that was never started is cancelled with no attempt and no result, with code dependency_failed, or run_cancelled if the run was cancelled |
| RunFacts.StartsAreReported | packages/harness/scheduler.py:209-278 | for every node the attempts reported are the operations started, zero where none, and a started node's outcome is that of its last attempt |
| RunFacts.StartedAfterSuccess | packages/harness/scheduler.py:190-198 | every dependency of a started node was started and succeeded |
| RunFacts.BlockedByFailure | packages/harness/scheduler.py:173-188 | a node cancelled for a dependency has one that did not succeed |
| RunFacts.StartedExactly | packages/harness/scheduler.py:173-198 | in a run that was not cancelled exactly the nodes whose dependencies all succeeded were started |
| Scheduler.DependenciesSucceedFirst | packages/harness/scheduler.py:190-198 | an operation starts only after each dependency ran in an earlier round and succeeded |
| Scheduler.RunsInOneRound | packages/harness/scheduler.py:209-212 | no task is run in two rounds |
| Scheduler.LevelCount | packages/harness/scheduler.py:162-214 | rounds that are the longest-path levels are as many as the longest chain has nodes |
| Scheduler.AllSucceed | packages/harness/scheduler.py:162-214 | when all succeed uncancelled the run cannot raise, the rounds are the sets peeled by validation, equally the longest-path levels, cover all nodes, and are as many as the longest chain has nodes |
| Scheduler.FailingChainDeadlocks | packages/harness/scheduler.py:200-202 | a concrete validated run that raises |
| Repository.ApplyKeepsIndex | packages/harness/persistence/repository.py:163-170 | every call keeps the insertion order and the task table about the same tasks |
| Repository.MemoryHarnessRepository.AddTasks | packages/harness/persistence/repository.py:178-192 | performs that step in place: the loop over the records finds the first fault, a faulty batch changes nothing |
| Repository.MemoryHarnessRepository.LeaseNextTask | packages/harness/persistence/repository.py:194-235 | performs that step in place: the loop over the tasks finds the one to hand out |
| Repository.MemoryHarnessRepository.RecoverExpiredLeases | packages/harness/persistence/repository.py:280-311 | performs that step in place: the loop over the tasks recovers each expired one and counts them |
| Repository.MemoryHarnessRepository.LeaseOutbox | packages/harness/persistence/repository.py:400-432 | performs that step in place: repeated search for the first row gives the sorted batch |
| RunHistory.KnownRunsWereCreated | packages/harness/persistence/repository.py:172-176 | in any history the known runs are exactly those an earlier call asked to create |
| RunHistory.RunIsCreatedOnce | packages/harness/persistence/repository.py:172-176 | the first call for a run registers it and nothing else; every later one raises and changes nothing |
| RunHistory.EveryRecordHasARun | packages/harness/persistence/repository.py:178-398 | in every reachable store each task and each event belongs to a known run |
| QueueFacts.AddingIsExact | packages/harness/persistence/repository.py:178-192 | a batch is refused for a repeated id, a stored id, or its first record with an unknown run or dependency, in that order, and then changes nothing; any other is added |
| QueueFacts.BatchIsStored | packages/harness/persistence/repository.py:178-192 | an added batch is stored record by record in order after what was there, which is kept |
| QueueFacts.LeaseHandsOutTheFirst | packages/harness/persistence/repository.py:194-235 | a granted task waits, is due, before its deadline, of the run asked for and with its dependencies succeeded, and of all such tasks has the highest priority, then the earliest creation, then was added first; it gets the lease and one more attempt, nothing else changes; no task is returned exactly if none qualifies |
| QueueFacts.HigherPriorityFirst | packages/harness/persistence/repository.py:223-223 | of two waiting tasks the one with the lower priority is never handed out |
| QueueFacts.LeaseMustLast | packages/harness/persistence/repository.py:201-202 | a lease or heartbeat is refused exactly for less than a second |
| QueueFacts.HeartbeatIsExact | packages/harness/persistence/repository.py:256-278 | a heartbeat renews exactly for the holder before the end of the lease, and only the lease and the instants change |
| QueueFacts.LateHeartbeatIsRefused | packages/harness/persistence/repository.py:256-278 | a heartbeat at or after the lease's end, or by another worker, is refused |
| QueueFacts.RecoveryIsExact | packages/harness/persistence/repository.py:280-311 | exactly the tasks whose lease has ended lose it and wait for a retry, or have failed if no attempt is left; the others are unchanged and the count is right |
| OutboxFacts.ClaimTakesTheOldest | packages/harness/persistence/repository.py:400-432 | a claim takes the due rows that were created first, then come first by id, up to the limit, leases and returns them in that order, and leaves the others alone |
| OutboxFacts.ClaimMustBePositive | packages/harness/persistence/repository.py:408-409 | a claim is refused exactly for a lease or a limit below one |
| OutboxFacts.MarkingIsExact | packages/harness/persistence/repository.py:434-446 | a row is marked exactly for the worker that holds it, once, and loses its lease |
| OutboxFacts.AppendingIsExact | packages/harness/persistence/repository.py:334-343 | an event is stored exactly if its run is known and no stored event of the run has its key; a taken key is answered quietly |
| OutboxFacts.AppendingBothIsExact | packages/harness/persistence/repository.py:354-366 | with a row the same, the row must name the event, and both are stored or neither |
| Repository.FindMostUrgent | packages/harness/persistence/repository.py:201-224 | the loop over the tasks finds the selected one |
| Repository.BatchMeaning | packages/harness/persistence/repository.py:410-421 | a batch holds distinct due rows in order, as many as fit, and every due row left out comes after all of them |
| Repository.TakeBatch | packages/harness/persistence/repository.py:410-421 | selecting the soonest row repeatedly gives that batch |
| LeaseHistory.SelectMeaning | packages/harness/persistence/repository.py:203-224 | the loop's selection: no leasable task before it is as urgent and none after it is more urgent |
| LeaseHistory.ChangeHappens | packages/harness/persistence/repository.py:194-311 | any call leaves a task alone or grants, renews, recovers or completes it, each under its own condition |
| LeaseHistory.GrantIsReplied | packages/harness/persistence/repository.py:226-235 | a worker is told that a task is granted exactly when the call granted that task |
| LeaseHistory.AlwaysSound | packages/harness/persistence/repository.py:178-311 | in every reachable store attempts are bounded, exactly the leased tasks carry a lease, and every started task has its dependencies succeeded |
| LeaseHistory.LeaseExclusion | packages/harness/persistence/repository.py:194-311 | between two replies that grant one task lies a recovery strictly after the end of the first lease with all its heartbeats, and the first worker holds the task until then |
| LeaseHistory.NoGrantAfterSuccess | packages/harness/persistence/repository.py:194-250 | a succeeded task stays succeeded and is never granted again |
| LeaseHistory.CompletionAfterGrant | packages/harness/persistence/repository.py:194-311 | the worker of a task's latest grant completes it by a later call exactly if no recovery or completion of the task came in between, the lease's end notwithstanding |
| LeaseHistory.CompletionIsExact | packages/harness/persistence/repository.py:237-250 | completion succeeds exactly for the owner of a leased task whatever the lease's end, changes that task only, and otherwise raises and changes nothing |
| QueueFacts.CompletedRecord | packages/harness/persistence/repository.py:237-250 | a completed task keeps everything but its state, its lease and its instants |
| QueueExamples.LeasedIsNotOffered | packages/harness/persistence/repository.py:203-212 | no call grants a leased task, expired or not |
| QueueExamples.LateHistory | packages/harness/persistence/repository.py:172-235 | a store with a leased task is reached by three calls |
| QueueExamples.ExpiredLease | packages/harness/persistence/repository.py:194-311 | in that store, after the lease's end, a lease call returns nothing, after a recovery it grants the task, and without one the first worker still completes it |
| QueueProgress.TransitiveDependenciesSucceeded | packages/harness/persistence/repository.py:205-220 | a task that was ever started has all its transitive dependencies succeeded |
| QueueProgress.CyclesStayPending | packages/harness/persistence/repository.py:178-235 | a task on or downstream of a dependency cycle is pending with no attempt in every state of the history |
| QueueProgress.BoundedWork | packages/harness/persistence/repository.py:194-311 | grants, recoveries and completions of any history total at most twice the sum of the allowed attempts |
| QueueProgress.AttemptsAreBounded | packages/harness/persistence/repository.py:205-229 | attempts never exceed the limit and a waiting task has one left |
| QueueProgress.QueueIsNotStuck | packages/harness/persistence/repository.py:194-235 | with nothing failed or leased and everything due, any unfinished task that reaches no cycle makes the next lease call grant |
| QueueProgress.GrantedWaitsForNoCycle | packages/harness/persistence/repository.py:194-235 | in a reachable store a lease call that grants implies an unfinished task that reaches no cycle |
| QueueProgress.QueueMovesExactly | packages/harness/persistence/repository.py:178-235 | in a reachable store with nothing failed or leased and everything due, a lease call grants exactly if some unfinished task reaches no cycle |
| QueueExamples.CyclicBatchIsAccepted | packages/harness/persistence/repository.py:178-192 | after creating a run, adding two tasks that depend on each other succeeds |
| QueueExamples.AcceptedTasksAreOnACycle | packages/harness/persistence/repository.py:178-192 | both tasks of that stored batch lie on a cycle |
| QueueExamples.CyclicQueueIsStuck | packages/harness/persistence/repository.py:178-235 | in that store nothing failed, is leased or must wait, and still no lease call grants a task |
| OutboxHistory.RaisingChangesNothing | packages/harness/persistence/repository.py:172-446 | a call that raises leaves the store as it was |
| OutboxHistory.RowChangeHappens | packages/harness/persistence/repository.py:354-446 | any call leaves a row alone or claims or publishes it, each under its own condition |
| OutboxHistory.CompletionIsAllOrNothing | packages/harness/persistence/repository.py:368-398 | completion commits exactly when the caller owns the lease, event and row fit and the key is new, and then commits all of it |
| OutboxHistory.LogAlwaysOk | packages/harness/persistence/repository.py:334-398 | with fresh ids, in every reachable store each row names a stored event and each key belongs to exactly one event |
| OutboxHistory.ClaimsAreDisjoint | packages/harness/persistence/repository.py:400-432 | successive claims of one row have disjoint lease windows |
| OutboxHistory.PublishedOnce | packages/harness/persistence/repository.py:434-446 | a published row is never claimed, published or changed again |
| Recovery.PublishedAfterHandling | packages/harness/recovery.py:120-135 | with any number of interleaved publishers that alone mark rows, every published row was accepted by a handler before |
| Recovery.DrainAlonePublishes | packages/harness/recovery.py:120-135 | in that world a drain with no other move in between claims a batch and publishes it row by row |
| Recovery.HandedRowsAreMarked | packages/harness/recovery.py:129-135 | in whatever state the rows are: all handed over were accepted, all of them end up marked save the last one when its lease is lost, and each error has its cause |
| Recovery.OthersAreUntouched | packages/harness/recovery.py:129-135 | publishing a batch marks only accepted rows the worker held, once, and leaves every other row alone |
| Recovery.ClaimedRowsArePublished | packages/harness/recovery.py:120-135 | if nobody interferes after the claim no lease is lost and the marked rows are those accepted before the handler first raised |
| Recovery.OutboxPublisher.DrainOnce | packages/harness/recovery.py:120-135 | without another caller in between, marks exactly the claimed rows the handler accepted before it first raised, in order, and returns their number when it accepted all |
| Recovery.OutboxPublisher.PublishRows | packages/harness/recovery.py:129-135 | hands over and marks the rows one by one in whatever state they are, with the lost-lease and handler errors |
| Blackboard.AlwaysValid | packages/harness/blackboard.py:140-160 | after any writes the versions under a key are exactly 1 to its head, both indices are in bijection, and parents precede their children in one run |
| BoardFacts.GetFindsByFields | packages/harness/blackboard.py:162-166 | a read returns exactly the stored artifact of that run, task, type and version |
| Blackboard.GetIsExact | packages/harness/blackboard.py:162-166 | a version is found exactly when it lies between 1 and the head |
| BoardFacts.LatestFindsByFields | packages/harness/blackboard.py:168-179 | the latest is the stored artifact of that run, task and type with the largest version, and missing exactly if there is none |
| Blackboard.MemoryBlackboard.Read | packages/harness/blackboard.py:162-166 | reads that version from the two indices |
| Blackboard.MemoryBlackboard.ReadLatest | packages/harness/blackboard.py:168-179 | reads the latest through the head |
| BoardFacts.HeadCountsVersions | packages/harness/blackboard.py:140-160 | the head of a run, task and type counts the artifacts stored for them |
| BoardFacts.WriteIsExact | packages/harness/blackboard.py:140-160 | a write is judged by how many artifacts are stored for its run, task and type, then by its id and its parents; it adds the artifact or changes nothing |
| BoardFacts.WrittenIsLatest | packages/harness/blackboard.py:140-179 | what was written is found under its fields at once, as the latest |
| Blackboard.OneWriterWins | packages/harness/blackboard.py:142-147 | of writers expecting the same version of a key at most one succeeds |
| Blackboard.LineageIsExact | packages/harness/blackboard.py:181-197 | the recursive search returns the reflexive-transitive parent closure, duplicate-free, parents first, the artifact last, all of one run |
| Blackboard.LineageNeverChanges | packages/harness/blackboard.py:181-197 | no later write changes a lineage |
| Blackboard.MemoryBlackboard.WriteArtifact | packages/harness/blackboard.py:140-160 | updates all three indices together or rejects with the first applicable error and changes nothing |
| Blackboard.MemoryBlackboard.LineageOf | packages/harness/blackboard.py:181-197 | terminates without a missing key and returns the lineage's records |
| Repair.DependencyClosure | packages/workflow/repair.py:218-228 | the loop reaches exactly the tasks the seeds affect, the least superset closed under dependents, in table order |
| Repair.Invalidate | packages/workflow/repair.py:122-122 | on the real tables every affected task occurs once and after its dependencies |
| Repair.Plan | packages/workflow/repair.py:58-130 | each refusal exactly for its condition, among them the record's own bound of two rounds whatever limit the controller has; a coordinator patch waits for the user; else the plan targets what the patches affect |
| Repair.Resume | packages/workflow/repair.py:58-159 | each refusal exactly for its condition, the record's bound included; else the plan targets what the answered fields affect |
| RepairFacts.PatchesInvalidate | packages/workflow/repair.py:112-130 | patches invalidate exactly the tasks of their agents and, by name, what follows from them |
| RepairFacts.SeedsByAnswer | packages/workflow/repair.py:144-151 | answers about lodging and transport concern one task, answers about the destination the other, a mixture both |
| RepairFacts.TargetsAreTheTasks | packages/workflow/repair.py:218-228 | which of the five tasks are run again, one by one |
| RepairFacts.TargetsAreInOrder | packages/workflow/repair.py:228-228 | they are run again in the order of the workflow |
| RepairFacts.FieldsAsked | packages/workflow/repair.py:99-111 | the user is asked for the field a coordinator's patch names, or for the whole request |
| RepairFacts.QuestionsKeepTheirOrder | packages/workflow/repair.py:99-106 | later patches only add questions after the earlier ones |
| RepairExecution.TargetedRepairController.Execute | packages/workflow/repair.py:161-216 | whatever the outcome exactly a prefix of the plan is published in order, and an error is the one the next task leads to |
| RepairExecution.ExecutionIsTargeted | packages/workflow/repair.py:161-216 | each published artifact is its key's head plus one, every other key and all stored artifacts are untouched |
| RepairExecution.HandlersSeeFreshRefs | packages/workflow/repair.py:174-198 | a handler gets the reference just published for a dependency repaired in this round and the old latest for any other |
| RepairFacts.StoredDependency | packages/workflow/repair.py:176-190 | for a dependency not repaired in the round a handler gets the reference of the stored artifact of the run, the task and the task's type with the largest version |
| RepairFacts.PublishedExactly | packages/workflow/repair.py:166-213 | a task is published exactly if it has a handler, every dependency has a reference, and the handler returns an artifact of the run and task that brings the next version, a new id and stored parents |
| RepairFacts.ErrorsHaveTheirCause | packages/workflow/repair.py:166-213 | for a task that is not published the error says what is missing: handler, task, reference, a return, the right run and task, the next version, or a new id and stored parents |
| RepairFacts.PublishedDependency | packages/workflow/repair.py:177-180 | for a repaired one the reference of what was published for it, field by field |
| RepairFacts.PatchesInOrder | packages/workflow/repair.py:195-199 | the patches handed over are chosen one by one and keep their order |
| RepairFacts.PatchOfAgent | packages/workflow/repair.py:195-199 | a task's handler gets a patch exactly if it is for the agent of that task |
| RepairExecution.PlannedHandlersAreFresh | packages/workflow/repair.py:161-216 | for plans that planning or resuming made, every handler is given the current reference of each dependency, a repaired one having been published before |
| RouteOrder.OrderIsExact | packages/agents/itinerary_planning.py:66-86 | the backtracking search returns a permutation of the places along given routes, and nothing only if no such permutation exists |
| RouteOrder.OrderIsFirst | packages/agents/itinerary_planning.py:66-86 | of all such permutations it returns the first: where another one parts from it, that one takes a place listed later |
| RouteOrder.WithoutIsCut | packages/agents/itinerary_planning.py:77-81 | dropping the candidate's identifier removes exactly that place |
| DaySchedule.EarliestStartIsExact | packages/agents/itinerary_planning.py:301-338 | the chosen start is the earliest that keeps opening period, appointment and window, and the error says why none does |
| DaySchedule.TimeStops | packages/agents/itinerary_planning.py:294-359 | the cursor loop succeeds exactly when the order can be timed at all, and then starts every stop as early as any timing could |
| DaySchedule.ScheduleDay | packages/agents/itinerary_planning.py:273-374 | a day is scheduled exactly when an order exists, it can be timed and keeps the activity limit; each error has its cause |
| DayFacts.ItemsAreTravelled | packages/agents/itinerary_planning.py:294-300 | every item but the first names the last listed route from the place before, and starts no earlier than the end before plus that route's minutes |
| DayFacts.StartsOnArrivalOrOpening | packages/agents/itinerary_planning.py:294-334 | without an appointment a visit starts at the later of arrival and opening, and lasts as the strategy says |
| DayFacts.StartsWithAppointment | packages/agents/itinerary_planning.py:309-324 | with an appointment it starts and ends with it |
| DayFacts.VisitsWhileOpen | packages/agents/itinerary_planning.py:301-338 | every visit lies inside the daily window and the first period listed for the weekday, on a day without special closure |
| DayFacts.ItemDescribesPlace | packages/agents/itinerary_planning.py:339-357 | identifier, place, cost, claims and evidence of an item |
| DayFacts.OpeningIsExact | packages/agents/itinerary_planning.py:377-384 | the opening period is the first listed for the weekday, unless the place is closed on the date |
| DayFacts.RouteBetweenIsLast | packages/agents/itinerary_planning.py:288-290 | of several routes joining two places the last listed is used |
| Partition.LastNamedIsExact | packages/agents/itinerary_planning.py:258-262 | an appointment's place is found exactly when some place has the name |
| Partition.PlaceAppointments | packages/agents/itinerary_planning.py:257-264 | the first loop places each appointment on its date and takes its identifier |
| Partition.PlacedByDate | packages/agents/itinerary_planning.py:260-263 | each day then holds exactly its own appointments' places in order |
| Partition.LeastLoaded | packages/agents/itinerary_planning.py:266-269 | the day with the fewest places, the earliest among equals |
| Partition.Spread | packages/agents/itinerary_planning.py:265-271 | every other place is added once, to a day no other day was less loaded than, filling empty days first |
| Partition.NobodyIsLost | packages/agents/itinerary_planning.py:258-270 | appointment places and the others together are all places, each once |
| Partition.PartitionPlaces | packages/agents/itinerary_planning.py:253-271 | all places are distributed, appointments on their dates, loads levelled; a day stays empty exactly when other places are fewer than days without appointment |
| Itinerary.CostTotal | packages/agents/itinerary_planning.py:51-63 | a total is unknown exactly when a cost is, and otherwise bounds the sum |
| Itinerary.TotalOfOne | packages/agents/itinerary_planning.py:51-63 | the total of one cost is that cost, a range of no width being a known amount |
| PlanAudit.DailyTotalsAddUp | packages/agents/itinerary_planning.py:221-221 | totalling the daily totals is totalling all items |
| PlanAudit.OrderLeavesTheSum | packages/agents/itinerary_planning.py:184-188 | the priced sum does not depend on the order in which places are visited |
| PlanAudit.ItineraryCosts | packages/agents/itinerary_planning.py:184-222 | the items of the plan cost what the selected places cost, and the declared total says so |
| Overlaps.ByStartIsStableSort | packages/domain/validators.py:243-243 | the order by start is sorted, keeps every item and keeps ties in place |
| Overlaps.NeighboursDecide | packages/domain/validators.py:238-255 | no neighbours overlap exactly when no two activities of the day overlap |
| Validators.ValidateBudget | packages/domain/validators.py:87-193 | reports exactly the currency, total, unverifiable and exceeded issues, with path and severity |
| Validators.ValidateTimeWindows | packages/domain/validators.py:196-235 | reports exactly the items off their date or window and the days over the activity limit |
| Validators.ValidateOverlaps | packages/domain/validators.py:238-255 | reports each colliding neighbour pair, and nothing exactly when all days are free of overlap |
| Validators.ValidateOpeningHours | packages/domain/validators.py:258-301 | reports exactly the items at known places without hours or outside one opening period |
| References.ValidateCoordinates | packages/domain/validators.py:304-332 | reports exactly mixed systems among the places and the routes that differ from the one compared with, which is any of those in use |
| References.ValidateReferences | packages/domain/validators.py:335-475 | reports exactly the unknown places, evidence, claims and routes, the unknown required claims, and the legs whose route joins other places |
| References.ValidateItinerary | packages/domain/validators.py:478-497 | the report holds exactly the findings of all six checks, and a passing one means no overlap on any day |
| Validators.PassingMeansApart | packages/domain/validators.py:196-255 | a passing plan with different day dates keeps any two items of the whole plan apart |
| Validators.PassingMeansAffordable | packages/domain/validators.py:163-192 | a passing plan under a hard budget is fully priced and within it |
| PlanAudit.EveryItemVisits | packages/agents/itinerary_planning.py:297-359 | every scheduled item keeps its date, the window and one opening period of its place |
| PlanAudit.PlanIssueIsForeign | packages/agents/itinerary_planning.py:237-250 | the only error in an assembled plan by itself is a chosen price in a foreign currency |
| ReferenceAudit.SourcesAreSoundExactly | packages/domain/validators.py:304-410 | the checks of the inputs find nothing exactly if there is one system, all evidence is known, routes join given places and no required claim is unknown |
| ReferenceAudit.UniqueIdsCastNoShadow | packages/workflow/orchestrator.py:57-59 | with unique route identifiers no leg of any tour is taken for another route |
| ReferenceAudit.ReferenceIssueIsShadow | packages/domain/validators.py:412-475 | with sound inputs an item of an assembled plan refers in vain only to a route whose identifier a later route between other places shares |
| ReferenceAudit.ItineraryIsClean | packages/agents/itinerary_planning.py:237-250 | a plan assembled from partition, order and schedule passes all validators exactly if no chosen price is in a foreign currency, the inputs are sound and no leg's route identifier is shadowed |
| Planner.RequiredIsChosen | packages/agents/itinerary_planning.py:168-170 | any selection meeting the posted constraints contains every required name |
| PlanAudit.ForeignPriceIsFound | packages/agents/itinerary_planning.py:237-250 | a chosen place priced in a foreign currency makes validation report an error |
| Planner.FinishVariant | packages/agents/itinerary_planning.py:221-251 | scheduled days become a validated plan exactly if the inputs are clean in that sense |
| Planner.PlanDays | packages/agents/itinerary_planning.py:209-220 | days are scheduled exactly if every day of the partition can be; the error is that of some such day, and an empty day is reported only for a shortage of places |
| Planner.AssembleVariant | packages/agents/itinerary_planning.py:206-251 | a plan is returned exactly if every day of the partition can be scheduled and the inputs are clean; it is then an itinerary of exactly the selected places; otherwise the error is that of some day or the failed validation |
| Planner.BuildVariant | packages/agents/itinerary_planning.py:146-251 | the same for any selection meeting the constraints; unpriced candidates under a hard budget and an infeasible model are reported exactly when they occur |
| Planner.AttemptsAreExact | packages/agents/itinerary_planning.py:124-134 | trying the strategies in order returns three plans exactly if each meets its own condition; otherwise all before the first that fails brought a plan and its error is returned |
| Planner.CheckRequest | packages/agents/itinerary_planning.py:106-122 | a request passes exactly if it can be answered, and otherwise the first failing check is named |
| Planner.Solve | packages/agents/itinerary_planning.py:92-144 | a run mismatch and each request error exactly for its condition; otherwise the outcome of trying the three strategies, successful exactly if each meets its condition; a failed validation shows in the inputs |
| Planner.TightVariantsRunShort | packages/agents/itinerary_planning.py:161-166 | for economy and relaxed the shortage of places can be read off the request |
| CrowdedTrip.RequestIsWellPosed | packages/agents/itinerary_planning.py:103-123 | the crowded two-day trip passes the checks of the request |
| CrowdedTrip.TightChoice | packages/agents/itinerary_planning.py:161-170 | for that trip the economy and relaxed variants have exactly one selection, the two appointments' places |
| CrowdedTrip.TightVariantsLeaveADayEmpty | packages/agents/itinerary_planning.py:206-220 | for that trip that selection always ends in the empty second day |
| CrowdedTrip.AllThreeMakeAPlan | packages/agents/itinerary_planning.py:206-251 | selecting all three candidates always makes a plan |
| CrowdedTrip.BalancedMaySelectAll | packages/agents/itinerary_planning.py:161-170 | the constraints of the balanced variant allow that selection |
| ExcludedPlaces.ExclusionIsSoundExactly | packages/agents/itinerary_planning.py:104-105 | inputs sound for all places found stay sound for the candidates exactly if no route starts or ends at an excluded place |
| ExcludedPlaces.ReachingExcludedFails | packages/agents/itinerary_planning.py:237-250 | with such a route in a matrix that fits all places, the first variant already fails and no plan is returned |
| ExcludedPlaces.MatrixIsSound | packages/workflow/orchestrator.py:53-66 | the example's matrix fits the places found, and all its inputs are sound for them |
| ExcludedPlaces.OneSelection | packages/agents/itinerary_planning.py:161-170 | in the example every variant has exactly one selection |
| ExcludedPlaces.RouteToExcludedFails | packages/agents/itinerary_planning.py:237-250 | in the example every variant fails its validation with the route to the excluded place and succeeds without it |
| PlanFacts.AppointmentIsKept | packages/agents/itinerary_planning.py:309-324 | every appointment is on its date, exactly from its start to its end, at a place of its name |
| PlanFacts.RequiredIsVisited | packages/agents/itinerary_planning.py:158-170 | every required name is visited |
| PlanFacts.NothingIsVisitedTwice | packages/agents/itinerary_planning.py:345-348 | items visit selected places only, no place twice, and item identifiers never repeat, as the plan model demands |
| PlanFacts.VariantDays | packages/agents/itinerary_planning.py:210-220 | the days follow each other from the start date and none is empty |
| PlanFacts.NothingOverlaps | packages/agents/itinerary_planning.py:237-251 | no two items of a returned plan overlap |
| PlanFacts.TravelIsKept | packages/agents/itinerary_planning.py:294-300 | in every returned plan consecutive items leave the minutes of the given route between them |
| PlanFacts.PlansInOrder | packages/agents/itinerary_planning.py:124-134 | the plans are the balanced, the economy and the relaxed one, in that order |
| PlanFacts.MinimumIsExact | packages/agents/itinerary_planning.py:158-162 | the required count is the larger of the days and of the places that must be visited or have an appointment |
| PlanFacts.CandidatesInOrder | packages/agents/itinerary_planning.py:105-105 | the candidates keep the order of the places found |
| PlanFacts.ChosenInOrder | packages/agents/itinerary_planning.py:206-208 | the chosen places keep that order |
| PlanFacts.LoadsAreLevel | packages/agents/itinerary_planning.py:265-270 | a day that took another place had no more than any other day before, and fewer than any earlier one |
| JsonDiff.DiffMeansDiffers | apps/api/run_service.py:354-376 | a path is reported exactly when the values along it first differ in type, scalar or presence there |
| JsonDiff.EmptyDiffMeansEqual | apps/api/run_service.py:354-376 | nothing is reported exactly when the trees are equal, types included |
| JsonDiff.DiffIsPrefixFree | apps/api/run_service.py:354-376 | no reported path leads on from another |
| JsonDiff.DiffIsSymmetric | apps/api/run_service.py:354-376 | both directions report the same paths in the same order |
| JsonDiff.DiffHasNoRepeats | apps/api/run_service.py:354-376 | no path is reported twice |
| DiffOrder.DiffIsInOrder | apps/api/run_service.py:358-369 | the paths are reported in order of the first step at which they part, keys as strings and positions as numbers |
| JsonPatch.PatchRestoresAfter | apps/api/run_service.py:354-376 | replacing, inserting and deleting in the old tree at exactly the reported paths gives the new tree |
| DiffText.TextsFollowPaths | apps/api/run_service.py:354-376 | the reported strings are the texts of those paths, in order |
| DiffText.TextIsSpelled | apps/api/run_service.py:355-371 | the strings start with a dollar sign, keys follow a dot, positions stand in brackets |
| DiffText.DecimalStandsForNumber | apps/api/run_service.py:367-371 | positions are written in decimal without leading zero |
| DiffText.ClearTextsAreReadable | apps/api/run_service.py:362-371 | over keys without a dot that do not end like a list position a string stands for one path only |
| DiffText.KeyIsClearExactly | apps/api/run_service.py:362-371 | a key is told apart from every other path exactly if it is such a key |
| DiffText.ClearDiffIsReadable | apps/api/run_service.py:273-273 | for trees over such keys all reported strings are different |
| DiffText.AmbiguousKeyCollides | apps/api/run_service.py:362-371 | every other key occurs in two trees with two changes reported under one string |
| HttpProvider.RateLimiter.Wait | packages/tools/http_provider.py:100-106 | the caller proceeds at the later of now and the reserved slot, and the next slot is one interval on |
| HttpProvider.SlotsAreSpaced | packages/tools/http_provider.py:100-106 | for any clock readings slots i and j are at least j-i intervals apart |
| HttpProvider.SlotsAreNotEarly | packages/tools/http_provider.py:102-104 | no slot lies before its own clock reading |
| HttpProvider.SlotsJoin | packages/tools/http_provider.py:100-106 | calls one after the other share the slots as one longer sequence of waits would |
| HttpProvider.WindowIsBounded | packages/tools/http_provider.py:93-106 | any window holds at most floor(length times rate) plus one slots |
| HttpProvider.OpenMeansThresholdReached | packages/tools/http_provider.py:198-242 | over every interleaving of updates the circuit is open exactly while the failures since the last reset reach the threshold |
| HttpProvider.OpenedByAFailure | packages/tools/http_provider.py:218-220 | an open circuit carries the instant of the latest failure, and only admissions were read since |
| HttpProvider.ResilientHttpProvider.Attempts | packages/tools/http_provider.py:168-196 | every attempt waits for its own slot; all but the last met a transport error, status 429 or a status of at least 500, and the last did not or was the last allowed |
| HttpProvider.ResilientHttpProvider.RequestJson | packages/tools/http_provider.py:133-242 | an unexpired cached reply, a refusal while the circuit is open, or such attempts; a body closes the circuit and is cached, anything else counts one failure and opens it at the threshold |

## Left out

- PostgreSQL backends, SQL schema and migrations: only the ordering of `latest` is stated about them.
- The asyncio loop, locks, timers, the concurrency semaphore and the futures of `_run_attempt`: locked methods are atomic steps and an attempt's result is an arbitrary input.
- Scheduler.Run: an operation's result does not depend on what other operations of the round do, and the cancellation flag is read at the rounds' and attempts' beginnings only.
- The constraint solver: any selection that meets the posted constraints may be returned, or none; that it maximises the objective is not stated.
- Planner.Solve: plan titles, scores and risks are not modelled, and the claims and evidence of an item are sets without order.
- Itinerary.CostTotal: amounts are unbounded cents; the twelve-digit limit of the amount type is not modelled.
- Time zones, seconds and daylight saving: one zone, whole minutes. Weekday names come from the calendar, not from a locale.
- Recovery.OutboxPublisher.DrainOnce: describes one publisher alone; lost leases under interleaving appear in `Publish` and in the world model of the same file.
- Recovery.OutboxPublisher.PublishRows: calls of others between two rows of one batch appear in that world model only.
- LeaseHistory.LeaseExclusion: tasks are never removed and the clock of the calls never goes back.
- OutboxHistory.LogAlwaysOk: assumes new event and row identifiers, which the in-memory store does not check and the database enforces by primary key.
- RepairExecution.TargetedRepairController.Execute: handlers are functions of their context and do not write to the blackboard themselves; as in the source the artifact's type is not compared with the table.
- JsonDiff.EmptyDiffMeansEqual: floats are real numbers, so not-a-number, which differs from itself, is not modelled.
- HttpProvider.ResilientHttpProvider.RequestJson: request hashing, response size, back-off sleeping and audit records are not modelled; awaits inside a call are covered by the interleaving lemma about the breaker.
- HttpProvider.RateLimiter.Wait: clock readings and the interval are real numbers, not floats.
- Checkpoints, the heartbeat loop and the recovery coordinator: they forward to repository steps.
- A scheduler that closes the blocked set transitively: not the code's behaviour.
- Hashes, tokens and identifier patterns: plain values with equality.
- Agents, model and tool adapters, security filters, telemetry, routes, user interface, aggregation and rendering: input, output and plumbing, or correct but easy.
