# NUTS task lifecycle: a Dafny model

NUTS turns events into tasks and drives every task through a configurable state machine. This
project models the parts of it where correctness is hard to see from the code, and proves what they
guarantee:

- the **state-machine validator** (`Validator`, `CycleSearch`, `ValidatorGuarantees`): breadth-first
  and depth-first searches over the configured graph, three-colour cycle detection, and what its
  verdict means for every later run;
- the **task store** (`StateIndex`, `Tasks`, `Listing`, `TaskStores`): a database map with a sorted
  secondary index, optimistic versions, trimmed history, archiving;
- the **engine** and the **core handlers** (`Engine`, `Lives`, `RetryTiming`, `Runs`, `Core`):
  creation, transition commands, timeouts, retries, archiving, restart and clean-up;
- `Outcomes`: what a timeout leaves behind, field by field;
- three whole-run analyses over them: **lives of tasks** (`RunInvariants`), **concurrency slots**
  (`Slots`) and **timeout sweeps** (`Sweeps`, `TimeoutHeap`); runs that show which of their conditions
  are needed (`WitnessRuns`), and what happens when check and commit of a command are pulled apart
  (`Races`);
- four self-contained structures: the Snowflake generator (`Snowflake`), the ring-buffer event log
  (`RingLog`), the database event log (`DbLog`) and the buffered data source (`EventBuffer`).

## How it is built

Code that changes things step by step is a class or a method with loops. Each such method is proved
against a function on values (`Tasks.Transitioned`, `Runs.CommandHandled`, ...), and the theorems are
lemmas about those functions. `Runs.Sys` is the whole state of the task side: stored tasks, index,
deadline heap, slots taken, and, as history variables, the complete past of every task. `Runs.Event`
lists the atomic steps, `Runs.IsRunOf` the serialized runs made of them; results "in every run" are
proved by induction over such runs.

Assumptions, all of them visible in the definitions:

- JSON encoding is the identity and database calls succeed; the order in which the database lists its
  keys is an arbitrary parameter.
- Handlers are serialized: each store operation, each handler round and each sweep round is one step.
  `Races` says exactly what goes wrong otherwise.
- New tasks and new log entries get IDs that were never used before.
- Times are integers; the clock never runs backwards within a run. The Snowflake model makes no such
  assumption.
- `Settings` holds the values after defaults have been filled in (limit 100, rebuild interval 5, check
  interval 30s), so the limit is positive.
- Both ends of a transition have a name, as the configuration loader leaves them
  (`pkg/task/sm_factory.go`); only the runs built in `WitnessRuns` rely on it.
- Publishing an event is a post-commit hook whose result is ignored, so it does not appear.

Where the code and its comments differ, the code is modelled: the wait between sweeps is not capped by
the check interval (`Sweeps.WakeIsNotCapped`); the loop check of the validator can miss a loop
(`ValidatorGuarantees.OrderDecidesVerdict`, `ValidatorGuarantees.BlankHidesLoop`); a repeated command
to a terminal state gives back a slot a second time (`Slots.RepeatBreaksBalance`), which breaks the
concurrency limit (`WitnessRuns.LimitHoldsExactly`); a retry into a terminal state gives back none
(`Slots.RetryLeaksExactlyIntoTerminal`, `WitnessRuns.SlotsLeakExactly`); a ring-buffer push reports
nothing when it evicts an event (`EventBuffer.RingBuffer.Push`).

## Main results

- `ValidatorGuarantees.VerdictIsExact`: for names without blanks, and if no non-terminal state shares a
  cycle with a terminal one, the validator accepts exactly the configurations in which all names are declared, every state is
  reachable and can end, and no loop avoids terminal states. Both conditions are needed:
  `OrderDecidesVerdict` gives, for any three names, two configurations with the same edges and the
  same endless loop of which one is accepted, so no condition on the edges alone is exact;
  `BlankHidesLoop` does the same for blanks. Without the conditions, `MissedLoopMeetsTerminal` says
  what a missed loop must look like, and `SoundIsAccepted` that nothing sound is refused.
- `RunInvariants.TasksEndInEveryRun`: in every run of an accepted configuration, under the same two
  conditions, a task changes state fewer times than there are states before it ends.
- `RunInvariants.IndexIsExactInEveryRun`, `LifeInEveryRun`, `StaleCopiesAreRefused`: in every run the
  index, histories, attempts, archiving, retry counts and versions are what they should be.
- `WitnessRuns.SlotsLeakExactly` with `Slots.SlotsNeverLeak`: no run leaks a slot if and only if no
  state a task can get into has an allowed automatic retry into a terminal state.
- `Slots.SlotsMatchActiveTasks` with `Slots.RestartBalances` and `Slots.RepeatBreaksBalance`: from any
  start-up whose active tasks fit the limit, slots and active tasks match until a command repeats a
  reached terminal target. `WitnessRuns.LimitHoldsExactly`: such commands defeat the limit altogether.
- `Sweeps.SweepAmongOthers`, `Sweeps.LateTasksFire`, `Sweeps.RebuiltSweepFiresExactlyTheLate`,
  `Sweeps.HeapCoversDeadlines`, `Sweeps.WakesInTime`, `Sweeps.RebuildsAreFrequent`.
- `Listing.IndexedReadRefinesScan`, `Listing.PagedReadIsExact`, `Races.RacingCommands`,
  `Tasks.RestartIsInvisible`, `Tasks.TransitionKeepsIndex`.
- `Outcomes.TimeoutEndsTask`, `Outcomes.TimeoutRetriesTask`: where a timeout takes a task, for every
  configuration, with its deadline, result and slot.
- `Snowflake.IdsIncrease` with `Snowflake.StepOutcome`, `DbLog.QueriesFindTheSurvivors`,
  `EventBuffer.AcceptedIsNeverLost` with `EventBuffer.SourceIsAccountedFor`.

## Model

| member | source | states |
|---|---|---|
| CycleSearch.NormalizeMeaning | pkg/task/sm_validator.go:183-198 | a normalized cycle is a rotation of the original that starts with a smallest name |
| CycleSearch.NormalizeCycle | pkg/task/sm_validator.go:183-198 | the two loops compute that rotation |
| CycleSearch.KeyInjective | pkg/task/sm_validator.go:204 | the printed text identifies a non-empty list of names without blanks |
| CycleSearch.UniqueMeaning | pkg/task/sm_validator.go:200-211 | removing duplicates keeps only given cycles, and exactly one for every printed text |
| CycleSearch.UniqueCycles | pkg/task/sm_validator.go:200-211 | the loop with the seen-set computes that list |
| CycleSearch.CycleFinder.Dfs | pkg/task/sm_validator.go:157-178 | the recursive search changes colours, stack and cycle list as the search function says, and restores the stack |
| CycleSearch.CycleFinder.ExtractLoop | pkg/task/sm_validator.go:165-171 | walking the stack down from the top collects exactly the part from the back edge's target on |
| CycleSearch.FindCycles | pkg/task/sm_validator.go:152-181 | the reported cycles are the distinct recorded ones of a search from the start; terminates on every graph |
| CycleSearch.ReportedAreCycles | pkg/task/sm_validator.go:152-181 | every reported cycle is a cycle of the graph through distinct states |
| CycleSearch.SearchComplete | pkg/task/sm_validator.go:157-178 | the search finishes every reachable state, and every edge out of a finished state leads to an earlier finished one or lies on a recorded cycle |
| CycleSearch.EveryCycleIsTouched | pkg/task/sm_validator.go:152-181 | for every reachable closed walk some reported cycle shares a state with it (names without blanks) |
| Validator.GraphEdges | pkg/task/sm_validator.go:46-78 | the graph's edges are the allowed transitions and, from a state that retries, one to the state its retry names, or to the initial state if it names none, unless that is the state itself |
| Validator.BuildGraph | pkg/task/sm_validator.go:46-78 | the graph is built in configuration order, or refused exactly when an allowed transition, or a state a retry names, is undeclared |
| Validator.ReachableStates | pkg/task/sm_validator.go:114-128 | returns exactly the states some walk from the start leads to |
| Validator.TerminalSearch.Dfs | pkg/task/sm_validator.go:133-148 | success returns an extended walk to a terminal state; failure leaves only non-terminal states visited, closed under edges |
| Validator.CanReachTerminal | pkg/task/sm_validator.go:130-150 | true exactly when some walk leads to a terminal state, and the path returned is such a walk |
| Validator.CheckReachability | pkg/task/sm_validator.go:80-95 | passes exactly when every state is reachable and every non-terminal state can reach a terminal one |
| Validator.CheckCycles | pkg/task/sm_validator.go:97-109 | passes exactly when every reported cycle contains a terminal state |
| Validator.Validate | pkg/task/sm_validator.go:29-112 | accepts exactly the configurations that pass all checks, whatever order maps are walked in |
| ValidatorGuarantees.MissedLoopMeetsTerminal | pkg/task/sm_validator.go:97-109 | a loop without terminal state that is let through has a state mutually reachable with a terminal one |
| ValidatorGuarantees.AcceptedHasNoEndlessLoop | pkg/task/sm_validator.go:19-28 | the documented promise holds when no non-terminal state shares a cycle with a terminal one |
| ValidatorGuarantees.FinalIsApart | pkg/task/sm_validator.go:97-109 | that is so whenever no edge leads out of the terminal states |
| ValidatorGuarantees.VerdictIsExact | pkg/task/sm_validator.go:19-112 | under that condition acceptance is equivalent to the documented checks |
| ValidatorGuarantees.SoundIsAccepted | pkg/task/sm_validator.go:97-109 | a configuration without endless loops is never refused for one, under no condition |
| ValidatorGuarantees.NonTerminalWalkIsShort | pkg/task/sm_validator.go:19-28 | a walk through non-terminal states is shorter than the number of states |
| ValidatorGuarantees.OrderDecidesVerdict | pkg/task/sm_validator.go:152-181 | two configurations with the same edges and the same endless loop, one accepted and one refused |
| ValidatorGuarantees.BlankHidesLoop | pkg/task/sm_validator.go:200-211 | a configuration with final terminal states, accepted although it has an endless loop, because two cycles print alike |
| StateIndex.AddMirrors | pkg/task/engine_store.go:110-123 | inserting a task that is not listed keeps the index exact and sorted |
| StateIndex.RemoveMirrors | pkg/task/engine_store.go:126-142 | removing a listed task keeps the index exact, sorted and without empty buckets |
| StateIndex.BucketIsExact | pkg/task/engine_store.go:34-36 | a bucket lists exactly the live tasks of its state, each once, newest first |
| StateIndex.MirrorIsUnique | pkg/task/engine_store.go:110-174 | an exact index is unique up to the order of tasks created at the same time |
| Tasks.CreateKeepsIndex | pkg/task/engine_store.go:74-107 | creation keeps the index exact if and only if the task is not archived and its ID is not live |
| Tasks.UpdateKeepsIndex | pkg/task/engine_store.go:177-204 | an update keeps the index exact if and only if it archives, or leaves state and creation time of an un-archived task |
| Tasks.DeleteKeepsIndex | pkg/task/engine_store.go:207-226 | deletion keeps the index exact |
| Tasks.TransitionKeepsIndex | pkg/task/engine_store.go:448-523 | TransitionState keeps the index exact except in two uses on an archived task, and then it does not |
| Tasks.RecordKeepsIndex | pkg/task/engine_store.go:400-443 | recording a state keeps the index exact if and only if the task is not archived or stays in its state |
| Tasks.UpdateStateKeepsIndex | pkg/task/engine_store.go:363-397 | the same for UpdateState |
| Tasks.RebuildMirrors | pkg/task/engine_store.go:154-174 | a rebuild is exact for the keys read so far, in any order |
| Tasks.RestartIsInvisible | pkg/task/engine_store.go:154-174 | the rebuilt index has the same tasks per state as the live one, and equals it when creation times differ |
| Tasks.CreateWrites | pkg/task/engine_store.go:74-107 | every field of the stored task, defaults filled in; other tasks untouched |
| Tasks.UpdateWrites | pkg/task/engine_store.go:177-204 | when it succeeds, and that it takes over everything but version and update time |
| Tasks.DeleteWrites | pkg/task/engine_store.go:207-226 | the task is gone, the others are untouched |
| Tasks.UpdateStateWrites | pkg/task/engine_store.go:363-397 | every field after UpdateState |
| Tasks.RecordWrites | pkg/task/engine_store.go:400-443 | every field after recording a state, last record included |
| Tasks.TransitionWrites | pkg/task/engine_store.go:448-523 | every field after a transition: archiving, deadline and retry count as asked for, last record included |
| Tasks.ResultWrites | pkg/task/engine_store.go:541-555 | the result is stored, and only it, version and update time change |
| Listing.FetchIsScan | pkg/task/engine_store.go:293-347 | without paging an indexed read is a scan: every matching task once, newest first |
| Listing.FilterMeaning | pkg/task/engine_store.go:582-599 | what a filter asks of a task, field by field |
| Listing.PageMeaning | pkg/task/engine_store.go:278-287 | which elements a page holds |
| Listing.IndexedReadRefinesScan | pkg/task/engine_store.go:229-347 | for un-archived tasks with distinct creation times the indexed read returns the page the full scan returns: with paging if only the state is constrained, and for any filter without paging |
| Listing.PagedReadIsExact | pkg/task/engine_store.go:293-347 | with paging and any filter, which is applied after the page is cut, it does so if and only if the page fits: all skipped entries match and so does the page or nothing after it, or there are no more matches than are skipped |
| Listing.BucketCountsMatches | pkg/task/engine_store.go:351-360 | the length of a bucket is the number of matching tasks |
| Listing.ArchivedAreInvisible | pkg/task/engine_store.go:293-347 | a state query that asks for archived tasks is complete if and only if none matches |
| TaskStores.TaskStore.constructor | pkg/task/engine_store.go:47-57 | opening the store rebuilds the index |
| TaskStores.TaskStore.SearchPosition | pkg/task/engine_store.go:116-118 | the binary search finds the first entry that is not newer |
| TaskStores.TaskStore.AddToStateIndex | pkg/task/engine_store.go:110-123 | inserts at that position |
| TaskStores.TaskStore.RemoveFromStateIndex | pkg/task/engine_store.go:126-142 | drops the task's first entry and an emptied bucket |
| TaskStores.TaskStore.MoveInStateIndex | pkg/task/engine_store.go:145-151 | moves an entry, or does nothing for the same state |
| TaskStores.TaskStore.Create | pkg/task/engine_store.go:74-107 | fills in defaults, stores and indexes; refuses an empty ID |
| TaskStores.TaskStore.Update | pkg/task/engine_store.go:177-204 | missing task, version conflict or replaced content with the version raised by one |
| TaskStores.TaskStore.Delete | pkg/task/engine_store.go:207-226 | removes task and index entry, or nothing |
| TaskStores.TaskStore.UpdateState | pkg/task/engine_store.go:363-397 | records the change as a first attempt and moves the index entry, which stays exact if and only if the task is not archived or stays in its state |
| TaskStores.TaskStore.UpdateStateWithRecord | pkg/task/engine_store.go:400-443 | records the change with its attempt, trims, moves the index entry |
| TaskStores.TaskStore.TransitionState | pkg/task/engine_store.go:448-523 | all fields of the transition change in one step, index included |
| TaskStores.TaskStore.UpdateResult | pkg/task/engine_store.go:541-555 | only result, update time and version change |
| TaskStores.TaskStore.List | pkg/task/engine_store.go:229-290 | a state query is the indexed read; any other returns a page of some scan, a negative offset counting as none; every task returned has the state, priority, creation times and archiving asked for |
| TaskStores.TaskStore.Scan | pkg/task/engine_store.go:235-276 | every matching task once, sorted newest first, ties in any order |
| TaskStores.TaskStore.ListByState | pkg/task/engine_store.go:293-347 | pages the bucket, then fetches and filters |
| TaskStores.TaskStore.Count | pkg/task/engine_store.go:351-360 | the number of matching tasks: by the shortcut for a plain state filter, and for any filter without paging |
| Engine.CreationKeepsIndex | pkg/task/state_machine_engine.go:115-179 | creating a task with a new ID keeps the index exact |
| Engine.CommandKeepsIndex | pkg/task/state_machine_engine.go:182-310 | every command keeps the index exact, un-archiving included |
| Engine.CreationWritesSpec | pkg/task/state_machine_engine.go:115-179 | the stored task carries the priority and rule timeout asked for and starts in the initial state |
| Engine.CommandOutcome | pkg/task/state_machine_engine.go:184-207 | when a command succeeds and which error it gets otherwise; a refused one changes nothing |
| Engine.CommandWrites | pkg/task/state_machine_engine.go:209-285 | every field after a change of state: archived exactly in terminal states, the deadline given, or else cleared if passed and the target is not terminal, or else kept |
| Engine.RepeatWrites | pkg/task/state_machine_engine.go:189-198 | a command to the present state writes a retry count or nothing |
| Races.LateCommitKeepsIndex | pkg/task/state_machine_engine.go:184-285 | a change worked out from an old copy keeps index and archiving right if and only if it does not lead out of a terminal state the task has entered since |
| Races.LateCommitRecord | pkg/task/state_machine_engine.go:184-285 | its record is legal if and only if the target differs from, and may follow, the state the task has by then |
| Races.RacingCommands | pkg/task/state_machine_engine.go:184-285 | for two commands checked against the same copy and both committed: exactly when the second record is legal, and exactly when index and archiving survive |
| Engine.StateMachineEngine.CreateTask | pkg/task/state_machine_engine.go:115-179 | stores, records the initial state and returns the stored task; a failed payload build changes nothing |
| Engine.StateMachineEngine.HandleTransitionCommand | pkg/task/state_machine_engine.go:182-310 | repeated, mismatched, denied and committed commands, with what each does to the store |
| Lives.RecordKeepsHistory | pkg/task/engine_store.go:413-432 | appending keeps: stored history is the tail of the full one, records chain, attempts count runs of equal targets in the full history |
| Lives.UpdateStateKeepsHistory | pkg/task/engine_store.go:363-397 | UpdateState raises the version and keeps tail and chain; attempts stay right if and only if the state changes |
| Lives.TrimAppend | pkg/task/engine_store.go:476-479 | trimming before or after appending gives the same, and the last record survives |
| Lives.OnlyFreshCopiesAreAccepted | pkg/task/engine_store.go:177-204 | a copy of any earlier version is accepted if and only if it is the current one |
| Lives.RetriesNeverDrop | pkg/core/core.go:1241-1267 | retry counts never go down over the stored versions |
| Lives.CreationGivesLife | pkg/task/state_machine_engine.go:145-166 | a created task starts a proper life in the initial state |
| Lives.CommandKeepsLife | pkg/task/state_machine_engine.go:182-310 | a committed command keeps history, version log, rules, archiving and retry count proper |
| Lives.VisitedIsWalk | pkg/task/engine_store.go:468-476 | the states a history moves through form a walk of the validator's graph |
| Lives.StateIsReached | pkg/task/state_machine_engine.go:200-207 | a task is only ever in states that allowed transitions lead to from the initial one |
| Lives.LivesAreBounded | pkg/task/sm_validator.go:19-112 | in an accepted configuration, terminal states sharing no cycle with others, a task changes state fewer times than there are states before it ends |
| RetryTiming.EffectiveTimeout | pkg/core/core.go:1199-1209 | the rule's timeout if it is positive and shorter than the default, which is thirty minutes unless a positive one is configured |
| RetryTiming.BackoffIsIntended | pkg/core/core.go:1212-1222 | the 64-bit backoff is min(2^n, cap) seconds if and only if n is at most 62 and 2^n or the cap fits a duration (9223372036 seconds); from 63 on it is zero |
| RunInvariants.CommitKeepsBase | pkg/core/core.go:985-992 | a command keeps index and lives proper |
| RunInvariants.TimeoutKeepsBase | pkg/core/core.go:1142-1194 | so does the timeout handler, retrying or archiving |
| RunInvariants.SetTimeoutKeepsBase | pkg/core/core.go:1081-1093 | a deadline is only written to a copy that is still current, and keeps everything proper |
| RunInvariants.CleanupKeepsIndex | pkg/task/archive.go:77-107 | clean-up removes exactly the expired archived tasks it goes through and keeps the index exact |
| RunInvariants.RecoveryArchivesOrphans | pkg/core/core.go:583-612 | on any consistent store exactly the terminal tasks that are not archived get archived, and the index follows |
| RunInvariants.RunsKeepBase | pkg/core/core.go:495-612 | in every run the index mirrors the stored tasks and every task has led a proper life |
| RunInvariants.IndexIsExactInEveryRun | pkg/task/engine_store.go:34-36 | in every run a bucket lists exactly the un-archived tasks of its state, each once, newest first, and no bucket is empty |
| RunInvariants.TasksEndInEveryRun | pkg/task/sm_validator.go:19-28 | in every run of an accepted configuration, terminal states sharing no cycle with others, state changes before a terminal state are fewer than the states |
| RunInvariants.LifeInEveryRun | pkg/task/engine_store.go:448-523 | in every run history, attempts, allowed transitions, archiving and retry counts are as promised |
| RunInvariants.StaleCopiesAreRefused | pkg/task/engine_store.go:177-204 | in every run a copy can be written back if and only if it is the latest version |
| Outcomes.RetryRefused | pkg/core/core.go:1225-1267 | before its backoff has elapsed, or if its transition is not allowed, a retry does nothing |
| Outcomes.RetryOutcome | pkg/core/core.go:1225-1280 | otherwise the task is in the state the retry names, or in the initial state if it names none, one retry further, and the stored deadline is the pushed one if the state changed |
| Outcomes.ArchiveOutcome | pkg/core/core.go:1283-1331 | a task that has not ended enters the first terminal state allowed, is archived with a failed result and frees a slot; if none is allowed, nothing changes |
| Outcomes.TimeoutEndsTask | pkg/core/core.go:1142-1194 | that is what a timeout does to a task that cannot retry |
| Outcomes.TimeoutRetriesTask | pkg/core/core.go:1142-1194 | and a task with retries left is retried exactly if its backoff is over and the transition allowed |
| Outcomes.TimeoutIgnored | pkg/core/core.go:1142-1171 | timeouts of tasks that are gone or have moved on change nothing |
| Outcomes.ReceiveOutcome | pkg/core/core.go:909-1002 | a received command with all names is carried out, and success in a terminal state frees a slot |
| Outcomes.FirstDeadlineOutcome | pkg/core/core.go:1081-1093 | a new task's deadline, the rule's timeout if it is set and shorter than the default, is stored and pushed |
| Outcomes.RoundOutcome | pkg/task/timeout_checker.go:142-172 | a round takes its entry away and hands the task on exactly if its deadline is strictly past |
| Outcomes.SweepStartOutcome | pkg/task/timeout_checker.go:114-235 | the heap is rebuilt exactly if it is stale, empty or was kept long enough, with one entry per un-archived task with a deadline |
| Outcomes.CleanupOutcome | pkg/task/archive.go:77-107 | clean-up deletes exactly the tasks archived before the cutoff |
| Slots.CommitActive | pkg/core/core.go:985-1001 | a commit changes the number of active tasks by exactly its own task's change |
| Slots.ReceiveKeepsSlots | pkg/core/core.go:909-1002 | a received command gives back at most one slot per task that stops being active |
| Slots.TimeoutKeepsSlots | pkg/core/core.go:1142-1331 | so does the timeout handler, for a task it cannot retry into a terminal state |
| Slots.RetryLeaksExactlyIntoTerminal | pkg/core/core.go:1225-1280 | from matching slots, a retry that is carried out leaves a slot without a task if and only if it leads into a terminal state |
| Slots.SlotsNeverLeak | pkg/core/core.go:556-577 | if no state a task can get into retries into a terminal state, the slots taken are in every run at most the un-archived tasks plus the creations in progress |
| WitnessRuns.LeakyRetryLeaks | pkg/core/core.go:1225-1280 | if one does, there is a run that leaves a slot without a task |
| WitnessRuns.SlotsLeakExactly | pkg/core/core.go:556-577 | so no run leaks a slot if and only if no reachable state retries into a terminal state |
| Slots.RestartBalances | pkg/core/core.go:556-577 | start-up gives every active task a slot if and only if they fit the limit, whatever happened before |
| Slots.SlotsMatchActiveTasks | pkg/core/core.go:556-577 | with closed terminal states and retries that stay open, slots and active tasks are equal and within the limit from any start-up whose active tasks fit it, as long as no later command repeats a reached terminal target |
| Slots.RepeatBreaksBalance | pkg/core/core.go:994-1001 | an event unbalances slots and active tasks if and only if it is a command that repeats a reached terminal target while a slot is taken |
| WitnessRuns.EndingsBreakLimit | pkg/core/core.go:994-1001 | if a terminal state can be reached, repeated commands exceed the concurrency limit in some run |
| WitnessRuns.LimitHoldsExactly | pkg/core/core.go:994-1065 | with closed terminal states and retries that stay open, no run exceeds the limit if and only if no terminal state can be reached |
| Sweeps.PopTakesOneDue | pkg/task/timeout_checker.go:128-172 | a round takes exactly one due entry away, whatever its callback pushes |
| Sweeps.SweepRoundsAreBounded | pkg/task/timeout_checker.go:128-172 | rounds made plus entries still due is the number due at the start |
| Sweeps.SweepAmongOthers | pkg/task/timeout_checker.go:114-206 | the same in every run with commands, creations and clean-ups between the rounds; deadlines after the sweep's clock reading stay covered meanwhile |
| Sweeps.SweepCanGoOn | pkg/task/timeout_checker.go:128-145 | while an entry is due a round is possible |
| Sweeps.SweepContinuesRun | pkg/task/timeout_checker.go:114-199 | a sweep is part of a run, so all results about runs hold throughout it |
| Sweeps.LateTasksFire | pkg/task/timeout_checker.go:148-172 | whatever the heap held, a finished sweep fires for exactly the tasks with a due entry that were strictly past their deadline, at most once per entry |
| Sweeps.SweepFiresOnce | pkg/task/timeout_checker.go:148-172 | if no task has two due entries, each fires at most once, exactly if it had one and was strictly past its deadline |
| Sweeps.RebuiltSweepFiresExactlyTheLate | pkg/task/timeout_checker.go:114-240 | a finished sweep that rebuilt the heap fired exactly once for every un-archived task past its deadline and for no other |
| Sweeps.HeapCoversDeadlines | pkg/task/timeout_checker.go:201-235 | with closed terminal states every un-archived task whose deadline is ahead has an entry at that deadline, from the first rebuild on |
| Sweeps.WakesInTime | pkg/task/timeout_checker.go:174-198 | with closed terminal states, whatever ran between the rounds, the next sweep is never later than a deadline after this sweep's clock reading, or 100ms after that reading if that is later |
| Sweeps.WakeIsNotCapped | pkg/task/timeout_checker.go:110-113 | with entries left, the wait stays within the check interval, or 100ms if that is longer, if and only if an entry falls due by then |
| WitnessRuns.WaitCanExceedInterval | pkg/task/timeout_checker.go:110-113 | if the default timeout is longer than that, some sweep of some run waits longer |
| Sweeps.RebuildsAreFrequent | pkg/task/timeout_checker.go:115-121 | fewer than rebuildInterval sweeps in a row go without a rebuild |
| TimeoutHeap.TopIsSmallest | pkg/task/timeout_checker.go:22-32 | the first entry of a heap has the smallest deadline |
| TimeoutHeap.Push | pkg/task/timeout_checker.go:202-206 | adds one entry and keeps the heap order |
| TimeoutHeap.Pop | pkg/task/timeout_checker.go:142-144 | removes an entry with the smallest deadline and keeps the heap order |
| TimeoutHeap.Init | pkg/task/timeout_checker.go:229 | orders any list of entries into a heap |
| Core.Core.constructor | pkg/core/core.go:508-580 | start-up leaves the state of a restart: rebuilt index, orphans archived, one slot per active task up to the limit, empty heap |
| Core.Core.HandleTransitionCommand | pkg/core/core.go:909-1002 | commit, then release a slot for a terminal target |
| Core.Core.HandlePolicyMatchedEvent | pkg/core/core.go:1005-1093 | takes a slot, creates the task and sets its deadline, or gives the slot back |
| Core.Core.HandleTimeoutEvent | pkg/core/core.go:1142-1194 | ignores vanished or changed tasks, otherwise retries or archives |
| Core.Core.HandleTaskRetry | pkg/core/core.go:1225-1280 | waits for the backoff, then commits the retry with its deadline and pushes it |
| Core.Core.HandleTaskArchive | pkg/core/core.go:1283-1331 | enters the first terminal state that can be entered, writes the result, releases a slot |
| Core.Core.RebuildHeap | pkg/task/timeout_checker.go:209-235 | the heap holds exactly one entry per un-archived task with a deadline, past ones due now |
| Core.Core.CheckTimeouts | pkg/task/timeout_checker.go:114-199 | a sweep: terminates after as many rounds as entries were due, leaves nothing due, fires as the rounds say, returns the wait |
| Core.Core.RecoverOrphanedTasks | pkg/core/core.go:583-612 | recovery over all un-archived tasks, in scan order |
| Core.Core.Clean | pkg/task/archive.go:77-107 | clean-up over all tasks: those archived before the cutoff are gone, and their number is returned |
| Snowflake.PackIsSum | pkg/common/id.go:106-108 | the shifts and ors of the ID are a sum of non-overlapping fields |
| Snowflake.PackDecodes | pkg/common/id.go:106-108 | time, machine and sequence can be read back from an ID |
| Snowflake.StepMovesForward | pkg/common/id.go:62-104 | whatever the clock does, time and sequence move forward, compared in that order |
| Snowflake.StepOutcome | pkg/common/id.go:62-104 | time and sequence in terms of the clock: the first reading that caught up, the next sequence number or the next millisecond, and what happens at the deadlines |
| Snowflake.IdsIncrease | pkg/common/id.go:62-111 | the IDs of a generator strictly increase for every sequence of clock readings within 41 bits |
| Snowflake.MachinesNeverCollide | pkg/common/id.go:106-108 | different machine numbers never give the same ID |
| Snowflake.SnowflakeGenerator.Generate | pkg/common/id.go:62-111 | a clock that has moved on restarts the sequence at its time, one that stands still counts it up; the time is a reading taken, the last one or one past it; the ID carries time, machine and sequence |
| Snowflake.NewSnowflakeGenerator | pkg/common/id.go:52-59 | refuses exactly the machine numbers outside ten bits |
| EventLogs.SelectByIds | pkg/eventlog/ringbuffer.go:203-217 | with distinct IDs, selecting by listed IDs is selecting by key |
| EventLogs.RemoveId | pkg/eventlog/ringbuffer.go:68-93 | drops the first occurrence and an emptied list |
| EventLogs.Span | pkg/eventlog/ringbuffer.go:109-133 | the time from the earliest to the latest entry |
| RingLog.TracksEvict | pkg/eventlog/ringbuffer.go:44-48 | evicting the oldest entry leaves the index of the rest, even if IDs repeat |
| RingLog.RingBufferEventLog.Append | pkg/eventlog/ringbuffer.go:36-66 | the log holds exactly the newest entries that fit, in order, and both indexes list exactly their IDs |
| RingLog.RingBufferEventLog.FindByIDs | pkg/eventlog/ringbuffer.go:203-217 | the live entries with a listed ID, oldest first |
| RingLog.RingBufferEventLog.QueryByTraceID | pkg/eventlog/ringbuffer.go:95-135 | with distinct IDs, exactly the live entries of the trace, with their span and tasks |
| RingLog.RingBufferEventLog.QueryByTaskID | pkg/eventlog/ringbuffer.go:137-147 | with distinct IDs, exactly the live entries of the task |
| RingLog.RingBufferEventLog.Query | pkg/eventlog/ringbuffer.go:149-185 | the live entries with all the fields and times asked for, in order, cut to the first `limit` |
| DbLog.CleanupRemovesTheOld | pkg/eventlog/store.go:174-195 | clean-up removes exactly the listed entries older than the cutoff and keeps the indexes exact |
| DbLog.LogRunsStaySound | pkg/eventlog/store.go:46-292 | in every run of appends with new IDs, clean-ups and restarts the indexes stay exact |
| DbLog.StoredAreTheSurvivors | pkg/eventlog/store.go:46-195 | in every run an entry is stored if and only if it was appended and no later clean-up had a cutoff after its time |
| DbLog.QueriesFindTheSurvivors | pkg/eventlog/store.go:79-134 | in every run a trace or task query finds exactly its survivors, each once |
| DbLog.RestartChangesNothing | pkg/eventlog/store.go:272-292 | the indexes of a run list the same IDs per key as a rebuild would, in any order |
| DbLog.FetchedIsExact | pkg/eventlog/store.go:203-218 | an indexed query returns every stored entry with that key, once |
| DbLog.DbEventLog.constructor | pkg/eventlog/store.go:35-44 | opening the log rebuilds both indexes |
| DbLog.DbEventLog.Append | pkg/eventlog/store.go:46-77 | the entry is stored under its ID, or under the generated one if it has none; a new ID keeps the indexes exact |
| DbLog.DbEventLog.Cleanup | pkg/eventlog/store.go:174-195 | afterwards exactly the entries not older than the cutoff are stored; returns how many went |
| DbLog.DbEventLog.QueryByTraceID | pkg/eventlog/store.go:79-122 | exactly the stored entries of the trace, with duration latest minus earliest |
| DbLog.DbEventLog.QueryByTaskID | pkg/eventlog/store.go:124-134 | exactly the stored entries of the task |
| EventBuffer.RingBuffer.Push | pkg/datasource/buffered.go:64-83 | appends, evicting the oldest event when full; the result never names the evicted event |
| EventBuffer.RingBuffer.Pop | pkg/datasource/buffered.go:85-97 | removes and returns the oldest event |
| EventBuffer.AcceptedIsNeverLost | pkg/datasource/buffered.go:246-307 | under DropNewest and Block, in every interleaving, accepted is delivered followed by buffered; under Block everything received is accepted |
| EventBuffer.SourceIsAccountedFor | pkg/datasource/buffered.go:228-307 | in every interleaving each event received was accepted in order, is still held, or was turned away by a full buffer; every turn of the consumer that finds an event delivers one |
| EventBuffer.DeliveryKeepsOrder | pkg/datasource/buffered.go:239-307 | under every policy delivery is an in-order part of what was accepted, and pushes are pops plus evictions plus buffered |

## Left out

- HTTP, authentication, command line, terminal UI, logging, metrics and tracing: input, output and counters.
- The gRPC event bus, serializers and generated code; the NRI, containerd and mock data sources: foreign libraries.
- The policy engine: it evaluates CEL programs, which are a library.
- Locks and unsynchronized interleavings inside the store: every store operation is atomic here, apart from the check-then-commit race of `Races`.
- Task names, descriptions and metadata other than the policy timeout, which creation and retry both take from the stored task; log messages and the text of history reasons.
- TaskStores.TaskStore.List: a state query with a negative offset is not modelled; the indexed read then fails at run time.
- Snowflake.SnowflakeGenerator.Generate: that the ten-millisecond waits end is taken from the clock; the readings of one wait are a finite list.
- Writing back through the caller's pointer in `Update`: the copy passed in is a value here.
- Loading the configuration from TOML.
- Event log clean-up scheduling, the asynchronous log wrapper and the plain `Query` of the database log, which would only add easy members.
- `sm_validator` error texts: a refusal carries a fixed reason, and which of several faults is reported depends on map order, as in the source.
- `pkg/metrics/sliding_window.go`, `internal/api` and `internal/service`.
