# Verification model of the scheduler control plane

A Dafny model of the scheduler's algorithms and state machines, and proofs of what they promise. Paths
below are relative to the root of the scheduler's repository. `dafny verify dfyconfig.toml` checks
the whole project.

## What is modelled

| part | modules |
|---|---|
| Chain compiler and executor (`chain.py`) | `SortedIds`, `ChainCompiler`, `ChainTheorems`, `ChainArrangement`, `ChainOrder`, `ChainRaw`, `ChainExecutor` |
| Trigger arithmetic, tick, create and PATCH (`trigger.py`, `tick.py`, `api/schedules.py`) | `Trigger`, `Tick`, `ScheduleWrites`, `TickHistory`, `TickGrid`, `TickOccurrences`, `TickTrace` |
| Leader lock (`leader.py`) | `LeaderLease` (atomic calls, real time), `LeaderRace` (single cache operations interleaved) |
| Run lifecycle (`worker.py`, `api/runs.py`, `api/approvals.py`, `quotas.py`) | `RunLifecycle`, `RunHistory`, `RunMeanings`, `RunStability`, `ApprovalSafety`, `RetryForest`, `Admission`, `RunHandlers` |
| MCP failure classifier (`adapters/registered_tool.py`) | `JsonValues`, `McpFailure` |
| Audit query and export (`audit.py`, `api/audit.py`) | `Audit` |

Code that changes state step by step is imperative here too: the compiler's loops are methods over
`indeg`, `ready` and `order`; the schedule table, the run table and the leader's cache key are classes
(`ScheduleStore`, `RunStore`, `LeaderCache`). Each method is proved equal to a specification function of
its inputs or of the old state, and the theorems are about those functions: over all inputs, or over all
histories (`After`), in which any enabled event may come next. Each call of a `RunStore` method is one event
of such a history, so whatever holds in every history holds of the store (`StoreKeepsPromises`).

External pieces are parameters that carry only what the code relies on: cron evaluation is an oracle that
answers strictly after its base and whose refusals do not depend on the base (`Trigger.CronOracle`);
`json.loads` returns values no larger than their text (`McpFailure.Loads`); `str` of a truthy value is not
empty (`McpFailure.Render`); `str.lower` is any function (`Audit.Lower`); step executors are any functions
that may raise. Instants are microseconds. The job queue delivers each job at most once, and transactions
commit or roll back.

## What the code does not promise, and exactly when it does

Each of these is a property one would expect, or that the code's own comments state, and that is false in
general. The project has the exact condition and a concrete run or the whole family of failing ones.

- **A rejected chain need not be cyclic.** `indeg` counts a repeated need twice and is decremented once, so
  an acyclic chain that repeats a need is rejected as cyclic. Compilation succeeds iff the needs are known,
  the graph is acyclic and no step repeats a need (`CompileSucceedsIff`, `RepeatedNeedRejected`).
- **A PATCH of `trigger_spec: null` is not checked.** It alone does not recompute the next fire, so it leaves a trigger
  that cannot be computed; the tick swallows the error and fires the same instant again on every tick.
  An accepted PATCH keeps the trigger computable iff it is not of this form or the schedule is manual
  (`PatchKeepsSoundIff`); two ticks fire one instant iff the trigger is not computable
  (`RefiresIffUnsound`, `NulledSpecRefires`, `NulledSpecFiresTwice`).
- **`evaluate` never reports due.** Its docstring says that it does when a fire instant is at or before
  `now`, but it only looks at instants strictly after `now` (`NeverDue`).
- **`acquire` does not exclude.** Two callers that both read before either sets can both be told that
  they hold the lock, with nothing expired or released in the meantime (`TwoHolders`). The window is exact: `HeldIffQuiet`, `RaceWindow`, `BothHoldIff`. An
  acquire whose read follows a live write is always refused (`LateReaderRefused`). `leased_until` is the time
  of the call and not the end of the lease, so the lease ends used here are those of the cache entry.
- **Cancelling is not final.** Dispatch ignores the row's status: a run cancelled while queued is executed,
  and a cancel during execution is overwritten (`CancelledRunSucceeds`). A cancelled run stays cancelled
  whatever happens next iff its job is not waiting in the queue and no adapter is running for it
  (`CancelIsFinalIff`). What a dispatch wrote last is final, except that a
  blocked run may be cancelled, and then stays so (`DispatchIsFinal`, `FinalForever`). A dispatch that raises after the run is
  marked running, as a non-numeric `timeout_seconds` makes it do, leaves it running until it is cancelled.
- **The quota bounds active runs only while nothing bypasses it.** An event raises a schedule's active count
  iff it admits a run (`GrowthIff`); the tick, run_now through A2A or MCP, retry, and dispatching a cancelled
  run admit without the check (`RevivalExceedsQuota`, `RevivedRunExceedsQuota`).
- **The gate follows the latest event, not the latest request.** Granting an older request opens the gate
  while a newer one is undecided (`OlderGrantOpensGate`). A grant opens the gate over an undecided request
  iff another request of that schedule was undecided before it (`GrantOpensOverPending`); over a history,
  an open gate always means that nothing is undecided iff no grant was of this kind (`OpenGateIsDecidedIff`).
- **The export is incomplete beyond 200 rows.** Its page size is 500, the reader clamps to 200, and a short
  page ends the loop. For any page size the export is complete iff the size is at most 200 or
  there are at most 200 matches (`IterAllMatching`, `ShippedExportTruncates`).
- **Late ticks skip grid points.** A gap between two ticks that holds several grid points fires only the
  first; the others are never fired (`SecondPointSkipped`). Gaps of at most one period skip none
  (`NoPointSkipped`).

## Model

| member | source | states |
|---|---|---|
| `ChainCompiler.Compile` | src/scheduler_mcp/chain.py:62-112 | The compiler's result, error cases included, is that of the counter-free specification |
| `ChainCompiler.CheckNeeds` | src/scheduler_mcp/chain.py:84-90 | Reports the first unknown need or self-dependency in step order, or none |
| `ChainCompiler.CountNeeds` | src/scheduler_mcp/chain.py:92-95 | The counters start at the number of needs, repeats included |
| `ChainCompiler.InitiallyReady` | src/scheduler_mcp/chain.py:96 | The initial ready list is the steps without needs, sorted |
| `ChainCompiler.Release` | src/scheduler_mcp/chain.py:101-107 | One round of decrements keeps every counter equal to needs minus distinct needs done, and collects exactly the steps whose needs are all done and never repeated |
| `ChainCompiler.TopologicalOrder` | src/scheduler_mcp/chain.py:92-108 | The counter-based loop ends and emits the order of the counter-free specification |
| `ChainCompiler.PendingZero` | src/scheduler_mcp/chain.py:103-106 | A counter is zero iff the step's needs are distinct and all done |
| `ChainTheorems.CompileSucceedsIff` | src/scheduler_mcp/chain.py:84-112 | Once the steps parse, compilation succeeds iff needs are known, the graph is acyclic and no need is repeated; the order then holds every step once, after its needs |
| `ChainRaw.CompilesToIff` | src/scheduler_mcp/chain.py:62-112 | Over the raw definition, without parser or algorithm: it compiles to a chain iff its list is not empty and denotes exactly the chain's steps (identifier, type, config and every need), identifiers are distinct, needs are known and not repeated, there is no cycle, and the order is the topological one by last need and string order |
| `ChainRaw.StepDenotes` | src/scheduler_mcp/chain.py:67-82 | A raw step parses to a step iff it denotes it: step_id, or id where that is blank; a whitelisted type; config, or {}; and exactly the listed strings as needs |
| `ChainRaw.RawNeedsComeFirst` | src/scheduler_mcp/chain.py:79-112 | Every need listed in the definition stands in the execution order before the step that lists it |
| `ChainRaw.StepFault` | src/scheduler_mcp/chain.py:67-82 | Which error a bad raw step is refused with, in the order of the checks |
| `ChainRaw.FirstFault` | src/scheduler_mcp/chain.py:66-82 | A refused step list is refused for its first bad step |
| `ChainRaw.FirstBadNeed` | src/scheduler_mcp/chain.py:84-90 | Needs are refused for the first, in step and list order, that is unknown or the step itself |
| `ChainRaw.RefusedFor` | src/scheduler_mcp/chain.py:62-112 | The refusals in their order; a cycle is reported iff the steps are otherwise fine and have a cycle or a repeated need |
| `ChainOrder.KahnOrderIff` | src/scheduler_mcp/chain.py:92-108 | The emitted order is the one topological arrangement in which steps stand by the position of their last need, ties in string order |
| `SortedIds.LessMeans` | src/scheduler_mcp/chain.py:96-108 | Strings compare at the first position at which they differ |
| `ChainTheorems.KahnCompleteIff` | src/scheduler_mcp/chain.py:92-110 | Kahn's loop emits every step iff the graph is acyclic and no need is repeated |
| `ChainTheorems.StuckMeansCycle` | src/scheduler_mcp/chain.py:109-110 | With no repeated needs, a step left over means a cycle: following unmet needs longer than there are steps repeats one |
| `ChainTheorems.TopologicalIsAcyclic` | src/scheduler_mcp/chain.py:96-110 | A graph with a topological arrangement has no cycle |
| `ChainTheorems.CompleteOrderIsArrangement` | src/scheduler_mcp/chain.py:96-110 | A complete order is a duplicate-free, topological arrangement of the steps, and no need is repeated |
| `ChainTheorems.RepeatedNeedRejected` | src/scheduler_mcp/chain.py:92-110 | Two steps, the second needing the first twice: acyclic, yet rejected as a cycle |
| `ChainTheorems.NeedsErrorMeans` | src/scheduler_mcp/chain.py:85-90 | The needs check passes iff every need is a known step other than the step itself |
| `ChainTheorems.KahnIsLayered` | src/scheduler_mcp/chain.py:96-108 | Steps come out in non-decreasing depth, the depth being the length of the longest walk along needs |
| `ChainTheorems.DepthIsLongestWalk` | src/scheduler_mcp/chain.py:96-108 | The recursive depth of a step is the length of its longest walk, both reached and never exceeded |
| `ChainArrangement.ArrangementIrrelevant` | src/scheduler_mcp/chain.py:67-112 | Definitions whose steps, and whose needs lists, are permutations of each other are accepted alike and get the same execution order |
| `ChainArrangement.SameKahnOrder` | src/scheduler_mcp/chain.py:92-108 | Kahn's loop gives one order for all arrangements of the same steps |
| `ChainArrangement.ParseStepsMeans` | src/scheduler_mcp/chain.py:67-82 | The step list parses iff each step parses on its own and the identifiers are distinct; the result is the steps in order |
| `SortedIds.SortedCanonical` | src/scheduler_mcp/chain.py:96-108 | Sorting duplicate-free identifiers depends only on which they are |
| `ChainExecutor.Execute` | src/scheduler_mcp/chain.py:176-198 | The loop over context and results is the recursive run; overrides win over defaults; a missing executor or a raising step ends it |
| `ChainExecutor.Confluence` | src/scheduler_mcp/chain.py:189-198 | For executors that read only their needs and the initial context, any two topological orders give the same results, or both raise |
| `ChainExecutor.RunIffSolution` | src/scheduler_mcp/chain.py:189-198 | A run along a topological order returns r iff r holds for each step what the step yields from r |
| `ChainExecutor.RunIsEvaluation` | src/scheduler_mcp/chain.py:189-198 | A run returns r iff the recursive evaluator along needs gives r for every step |
| `ChainExecutor.ContextAtTurn` | src/scheduler_mcp/chain.py:191-197 | For any executors, each step of a successful run runs once, on the initial context plus exactly the earlier results, all its needs among them |
| `ChainExecutor.FailsAt` | src/scheduler_mcp/chain.py:191-197 | A failing run fails at the first step that has no executor or raises, after the results of all steps before it, and the error says which |
| `Trigger.FirstAfterIsLeast` | src/scheduler_mcp/trigger.py:106-111 | The floor-division arithmetic gives the least grid point strictly after the base |
| `Trigger.LeastGridPoint` | src/scheduler_mcp/trigger.py:89-152 | Interval and condition_watch fire next at the least point of their grid after the base, anchored at start_at, else the last fire, else the base |
| `Trigger.DecidedPeriod` | src/scheduler_mcp/trigger.py:89-152 | With a positive every_seconds, or for condition_watch with a positive poll_seconds or interval_seconds where the earlier ones are falsy, the call succeeds with the least point after from_time of the grid of that many seconds |
| `Trigger.UndecidedPeriod` | src/scheduler_mcp/trigger.py:89-152 | Every other periodic trigger is refused, by int() iff the deciding member is no number, else as a bad spec |
| `Trigger.OneShotAnswer` | src/scheduler_mcp/trigger.py:113-125 | A one_shot answers its fire_at iff that is after from_time and after the last fire |
| `Trigger.StrictProgress` | src/scheduler_mcp/trigger.py:73-157 | Every computed fire is strictly after from_time |
| `Trigger.RaisesIffIllFormed` | src/scheduler_mcp/trigger.py:77-157 | The call raises iff the trigger is ill-formed, whatever from_time and last_fire_at are; a periodic one is well-formed iff the member that decides is a positive number and start_at is not malformed |
| `Trigger.NeverDue` | src/scheduler_mcp/trigger.py:160-182 | evaluate answers with the computed next fire and never reports due |
| `Tick.ScheduleStore.TickOnce` | src/scheduler_mcp/tick.py:46-167 | A tick that acquires the lock creates one run for each due schedule, for its pending instant, submits its job, advances each row once, audits the runs, reports the counts and leaves the lock free; a tick that does not changes no row, run or job |
| `Tick.ScheduleStore.FireDue` | src/scheduler_mcp/tick.py:62-130 | The scan and loop of a tick, over any answer of the query: every due row fires once, in the query's order |
| `Tick.ScheduleStore.FireRow` | src/scheduler_mcp/tick.py:78-129 | A due row gets a run and a job submission, and is advanced unless the computation raises, when it stays in place |
| `Tick.ScheduleStore.PatchSchedule` | src/scheduler_mcp/api/schedules.py:183-215 | A PATCH is refused without effect (404, 422 for the target type, 400 for the trigger, or a failed commit), or writes its fields and recomputes the fire iff a trigger field is sent with a value |
| `Tick.ScheduleStore.CreateSchedule` | src/scheduler_mcp/api/schedules.py:114-169 | A create is refused by the schedule quota, the minimum interval, the target type or the trigger, in this order and without effect; otherwise the row is stored with its first fire |
| `Tick.AcceptedComesThrough` | src/scheduler_mcp/tick.py:97-111 | What is submitted, or audited, is each run once whose schedule's submission works, and nothing else, in the order of the runs |
| `Tick.TickRunsFireDue` | src/scheduler_mcp/tick.py:62-89 | The runs a tick creates are one for each active, enabled, unpaused schedule whose pending instant has come, for that instant, in the order of the query |
| `ScheduleWrites.PatchWrites` | src/scheduler_mcp/api/schedules.py:198-215 | An accepted PATCH writes exactly the fields sent, and recomputes the next fire from the new trigger iff type, spec or time zone is sent with a value |
| `ScheduleWrites.PatchRefusedIff` | src/scheduler_mcp/api/schedules.py:183-215 | A PATCH is refused iff the target type is unknown, the new trigger cannot be computed, or a null is sent that its column does not take; 422 and 400 exactly when the first or a bad spec is the reason |
| `ScheduleWrites.CreateAcceptedIff` | src/scheduler_mcp/api/schedules.py:114-169 | A create is accepted iff the owner has room, an interval is not below the minimum, the target type is known and the trigger can be computed; the row holds what was sent, active and unpaused, with its first fire |
| `ScheduleWrites.CreateRefusal` | src/scheduler_mcp/api/schedules.py:120-142 | Which refusal a create gets: quotas first, then the target type, then the trigger |
| `TickHistory.TickFiresIff` | src/scheduler_mcp/tick.py:62-76 | In any state, a tick fires a schedule iff it is active, enabled and not paused and its pending instant has come |
| `TickHistory.AdvancedAre` | src/scheduler_mcp/tick.py:113-129 | The advanced count is the number of due schedules whose trigger can be computed |
| `TickHistory.FiresAreTickRuns` | src/scheduler_mcp/tick.py:78-89 | The fires recorded in a history are the run rows that the tick creates |
| `TickHistory.NoInstantFiresTwice` | src/scheduler_mcp/tick.py:70-127 | In every run of create, PATCH, delete and ticks without a spec-nulling PATCH, each schedule's fired instants strictly increase and the next lies after all of them |
| `TickHistory.PatchKeepsSoundIff` | src/scheduler_mcp/api/schedules.py:200-210 | An accepted PATCH keeps the trigger computable iff it does not just null the spec of a non-manual schedule |
| `TickHistory.AdvanceMovesIff` | src/scheduler_mcp/tick.py:114-129 | A due row is advanced, past now, iff its trigger can be computed; otherwise it is unchanged |
| `TickHistory.RefiresIffUnsound` | src/scheduler_mcp/tick.py:114-129 | After a tick, a due row is still due for the same instant iff its trigger cannot be computed |
| `TickHistory.NulledSpecRefires` | src/scheduler_mcp/api/schedules.py:200-210 | Nulling the spec of any scanned non-manual schedule with a pending fire makes the next two ticks fire one instant twice |
| `TickHistory.NulledSpecFiresTwice` | src/scheduler_mcp/api/schedules.py:200-210 | A concrete run from the empty system in which an instant is fired twice |
| `TickHistory.OneShotFiresOnce` | src/scheduler_mcp/trigger.py:113-125 | In every such run, a one-shot fires at most once per write of its trigger fields, and a pending one waits for its fire_at |
| `TickHistory.OneShotFireCompletes` | src/scheduler_mcp/tick.py:114-127 | In every such run, each tick that fires a one-shot fires it for its fire_at and completes it, with nothing pending |
| `TickGrid.CreateStarts` | src/scheduler_mcp/api/schedules.py:139-142 | An accepted create of an enabled periodic schedule leaves a row as the refinement theorem assumes it |
| `TickGrid.NextIsOnGrid` | src/scheduler_mcp/tick.py:114-123 | After any ticks, an unpatched periodic schedule waits for the first point of its original grid after the last tick |
| `TickGrid.TickRefinement` | src/scheduler_mcp/tick.py:69-127 | Each tick creates a run iff the gap since the previous tick holds a grid point, and then for the first one |
| `TickGrid.Reanchor` | src/scheduler_mcp/tick.py:116-123 | Anchoring at the fired instant instead of the original anchor does not move the grid, however late the tick |
| `TickGrid.NoPointSkipped` | src/scheduler_mcp/tick.py:69-127 | Ticks at most one period apart fire every grid point |
| `TickGrid.SecondPointSkipped` | src/scheduler_mcp/tick.py:69-127 | A second grid point in one gap is never fired |
| `TickOccurrences.CronRefinement` | src/scheduler_mcp/tick.py:69-127 | For a cron oracle that steps through one list of occurrences, each tick creates a run iff an occurrence lies in the gap since the previous tick, and then for the first one |
| `TickOccurrences.CronIsLeast` | src/scheduler_mcp/trigger.py:77-87 | Such an oracle answers with the least occurrence after its base |
| `TickOccurrences.OneShotRefinement` | src/scheduler_mcp/tick.py:69-127 | The first tick at or after fire_at, and no other, creates the one-shot's run; it is completed iff that tick has come; a fire_at already past when the row is written never fires |
| `TickTrace.HistoryFollowsRow` | src/scheduler_mcp/tick.py:69-127 | In every history, a schedule that is neither patched nor deleted is its own row under the history's ticks, and its fires are what that row fires, whatever happens to other schedules |
| `TickTrace.PeriodicInHistory` | src/scheduler_mcp/tick.py:69-127 | From any moment at which a periodic schedule was just started, a history that leaves it alone records for it exactly the first grid points of the gaps between ticks |
| `TickTrace.CreatedPeriodicFires` | src/scheduler_mcp/tick.py:69-127 | The same from its creation: these are all the fires it ever has |
| `TickTrace.GridFiringsAreFirst` | src/scheduler_mcp/trigger.py:89-111 | The fires so listed are exactly the least grid points of the gaps that hold one |
| `TickTrace.PatchStarts` | src/scheduler_mcp/api/schedules.py:200-210 | A PATCH that recomputes a scanned periodic schedule starts it anew at that instant |
| `TickTrace.CreatedOneShotFires` | src/scheduler_mcp/tick.py:69-127 | In every history, a created one-shot that is left alone fires once for its fire_at, not before it, and is completed, iff a tick reaches a fire_at still ahead at creation; otherwise it never fires |
| `TickTrace.CreatedManualNeverFires` | src/scheduler_mcp/trigger.py:154-155 | In every history, a manual schedule that is left alone is never fired |
| `LeaderLease.LeaderCache.Acquire` | src/scheduler_mcp/leader.py:83-98 | Sets the entry iff none is live, and then reports held |
| `LeaderLease.LeaderCache.Renew` | src/scheduler_mcp/leader.py:101-107 | Extends the live entry of the same token; anyone else's call leaves the cache unchanged |
| `LeaderLease.LeaderCache.Release` | src/scheduler_mcp/leader.py:110-114 | Deletes the live entry of the same token; anyone else's call leaves the cache unchanged |
| `LeaderLease.LeasesDisjoint` | src/scheduler_mcp/leader.py:83-114 | With atomic calls under a non-decreasing clock, no instant lies in two leases, and a live lease is the one the cache shows |
| `LeaderLease.AlwaysConsistent` | src/scheduler_mcp/leader.py:83-114 | Every lease ends before the next starts, and the cache entry is always the newest lease |
| `LeaderRace.CacheAfter` | src/scheduler_mcp/leader.py:71-114 | What each single operation leaves in the cache |
| `LeaderRace.RaceWindow` | src/scheduler_mcp/leader.py:91-97 | If two acquires are both held, the earlier setter confirmed before the later set; unless the entry was cleared in between, the later setter had read before the earlier set |
| `LeaderRace.HeldIffQuiet` | src/scheduler_mcp/leader.py:94-97 | A confirmed acquire is held iff nothing was written, expired or deleted between its set and its confirming read |
| `LeaderRace.BothHoldIff` | src/scheduler_mcp/leader.py:91-97 | Two undisturbed contenders both hold iff the first setter confirms before the second sets |
| `LeaderRace.LateReaderRefused` | src/scheduler_mcp/leader.py:91-93 | An acquire that reads after a live write is refused and never writes |
| `LeaderRace.TwoHolders` | src/scheduler_mcp/leader.py:83-98 | An interleaving exists in which the entry is never cleared and two acquires that both read before either set are both held |
| `LeaderRace.AlwaysExplained` | src/scheduler_mcp/leader.py:83-114 | In every interleaving the log accounts for each call's reads, set and confirm, and every write is a call's own set or a renewal after its confirm |
| `RunHandlers.RunStore.TriggerRun` | src/scheduler_mcp/api/runs.py:136-228 | One event of the store's history: 404, 409 or 429 without effect, or a new scheduled run and its job |
| `RunHandlers.RunStore.CancelRun` | src/scheduler_mcp/api/runs.py:294-309 | One event of the store's history: refused for terminal runs, otherwise cancelled with a finish time |
| `RunHandlers.RunStore.RetryRun` | src/scheduler_mcp/api/runs.py:312-392 | One event of the store's history: refused unless the run is retriable and its schedule runnable, otherwise a new run linked to it with the next attempt; the old row stays |
| `RunHandlers.RunStore.DeleteRun` | src/scheduler_mcp/api/runs.py:395-409 | One event of the store's history: only finished or blocked runs are removed, and only that row |
| `RunHandlers.RunStore.BeginDispatch` | src/scheduler_mcp/worker.py:214-297 | One event of the store's history: missing schedule, closed gate, stub in production and unknown target end the run; otherwise it is marked running, and only then is an adapter called |
| `RunHandlers.RunStore.FinishDispatch` | src/scheduler_mcp/worker.py:345-359 | One event of the store's history: the adapter's outcome is written over whatever the row holds |
| `RunHandlers.RunStore.FailDispatch` | src/scheduler_mcp/worker.py:300-305 | One event of the store's history: a dispatch that raises after the run is marked running, before its adapter is called, writes nothing more |
| `RunHandlers.RunStore.TickRun` | src/scheduler_mcp/mcp_tools.py:85-135 | One event of the store's history: a run of an existing schedule, created without looking at quota, pause or status, as the tick and run_now through A2A or MCP do |
| `RunHandlers.RunStore.DropSchedule` | src/scheduler_mcp/api/schedules.py:218-228 | One event of the store's history: the schedule's row goes, with its runs and requests when the database cascades |
| `RunHandlers.RunStore.CreateApproval` | src/scheduler_mcp/api/approvals.py:72-106 | One event of the store's history: a pending request is added and the schedule set to pending |
| `RunHandlers.RunStore.Decide` | src/scheduler_mcp/api/approvals.py:144-179 | One event of the store's history: an undecided request of an existing schedule is decided together with the schedule, otherwise nothing changes |
| `RunHandlers.StoreKeepsPromises` | src/scheduler_mcp/api/runs.py:136-409 | Every store that the handlers lead to has ordered run times, approval statuses that are the fold of their events, a retry forest and, unless something bypassed the check, active runs within the quota |
| `RunMeanings.TriggerMeans` | src/scheduler_mcp/api/runs.py:150-188 | A run is added iff the schedule exists, is unpaused and active and has fewer scheduled, claimed, queued and running runs than the quota; which of 404, 409 and 429 answers otherwise |
| `RunMeanings.CancelMeans` | src/scheduler_mcp/api/runs.py:294-309 | Status by status, what a cancel changes |
| `RunMeanings.RetryMeans` | src/scheduler_mcp/api/runs.py:312-349 | A retry adds a linked run, one attempt further, iff the run is finished or blocked and its schedule is runnable |
| `RunMeanings.DeleteMeans` | src/scheduler_mcp/api/runs.py:395-409 | Status by status, which rows a delete removes |
| `RunMeanings.BeginMeans` | src/scheduler_mcp/worker.py:225-297 | Exactly when the first half of a dispatch blocks, fails or starts a run, and the times it writes |
| `RunMeanings.FinishMeans` | src/scheduler_mcp/worker.py:345-359 | The status after the second half is succeeded, cancelled or failed iff the adapter reported that, with the finish time; no other row changes |
| `RunMeanings.RequestMeans` | src/scheduler_mcp/api/approvals.py:72-106 | A request of an existing schedule is added undecided and the schedule set to pending |
| `RunMeanings.DecideMeans` | src/scheduler_mcp/api/approvals.py:144-179 | A decision marks the request granted and the schedule approved iff it grants, refused and rejected iff it does not, and nothing else; which of 404 and 409 answers otherwise |
| `RunMeanings.DropMeans` | src/scheduler_mcp/api/schedules.py:218-228 | Deleting a schedule keeps all other rows, and its own runs and requests exactly without a cascade |
| `RunMeanings.EndIsRecorded` | src/scheduler_mcp/worker.py:225-359 | The status a dispatch leaves is the one recorded as its final status |
| `RunMeanings.EndedTells` | src/scheduler_mcp/worker.py:225-359 | In every history, a run kept as succeeded had its adapter report success, and so on for each status a dispatch can write |
| `RunMeanings.ReportIsKept` | src/scheduler_mcp/worker.py:345-359 | And the other way round: what an adapter reported is what is kept of its run, in the rest of the history |
| `RunStability.DispatchIsFinal` | src/scheduler_mcp/worker.py:214-377 | In every history a run's dispatch happens once; afterwards its status is what the dispatch wrote, except blocked to cancelled; finished runs have a finish time not before their start |
| `RunStability.FinalForever` | src/scheduler_mcp/worker.py:345-359 | What a dispatch wrote at any moment is what every later moment of the history finds, with that exception; a dispatched run that is once cancelled stays cancelled |
| `RunStability.CancelIsFinalIff` | src/scheduler_mcp/api/runs.py:294-309 | In every history, a cancelled run stays cancelled in every continuation, as long as its row exists, iff its job is not queued and no adapter is running for it |
| `RunStability.CancelledRunSucceeds` | src/scheduler_mcp/worker.py:345-359 | A concrete history in which a run cancelled during execution ends as succeeded |
| `ApprovalSafety.ApprovalsAreSafe` | src/scheduler_mcp/worker.py:235-245 | In every history approval_status is the fold of the schedule's approval events, each request is decided at most once, and every adapter call found no event or a grant as the latest |
| `ApprovalSafety.BeginCallsOnlyWhenOpen` | src/scheduler_mcp/worker.py:235-297 | A dispatch calls at most one adapter, and only for an existing run and schedule with the gate open |
| `ApprovalSafety.OlderGrantOpensGate` | src/scheduler_mcp/api/approvals.py:144-179 | Granting the older of two undecided requests opens the gate |
| `ApprovalSafety.GrantOpensOverPending` | src/scheduler_mcp/api/approvals.py:144-179 | After an accepted grant the gate is open with an undecided request of its schedule iff another request of that schedule was undecided before |
| `ApprovalSafety.OpenGateIsDecidedIff` | src/scheduler_mcp/api/approvals.py:144-179 | Over every history, an open gate always means that every request of its schedule is decided iff no grant left another one undecided |
| `RetryForest.RetriesFormForest` | src/scheduler_mcp/api/runs.py:312-349 | In every history, deletions included, retry links point to strictly older runs, following them ends in the one root of the tree, and attempt is one more than the number of links |
| `RetryForest.AncestorIsOlder` | src/scheduler_mcp/api/runs.py:335-349 | Every run on the way to the root is older, has the same root, and has one attempt fewer per link |
| `RetryForest.AttemptCountsLinks` | src/scheduler_mcp/api/runs.py:335-349 | In a retry forest, attempt is one plus the number of links to the root |
| `RetryForest.ActiveRunsUntouched` | src/scheduler_mcp/api/runs.py:322-409 | Retry and delete never act on a scheduled, claimed, queued or running run |
| `Admission.GrowthIff` | src/scheduler_mcp/api/runs.py:161-188 | An event raises a schedule's active count, by one, iff it admits a run |
| `Admission.ActiveRunsBounded` | src/scheduler_mcp/quotas.py:83-91 | In every history without bypassing events, no schedule exceeds the quota |
| `Admission.OrdinaryRunsBounded` | src/scheduler_mcp/api/runs.py:136-188 | Without ticks, retries and cancels the quota holds with no further condition |
| `Admission.RevivalExceedsQuota` | src/scheduler_mcp/worker.py:292-297 | At the quota, dispatching any run cancelled while queued, through an open gate, exceeds it |
| `Admission.RevivedRunExceedsQuota` | src/scheduler_mcp/worker.py:292-297 | Under a quota of one: post, cancel, post, dispatch the first gives two active runs |
| `McpFailure.FailureIffMarkerReachable` | src/scheduler_mcp/adapters/registered_tool.py:58-93 | The classifier reports a failure iff an error marker is reachable through result, structuredContent, data or parsed content text, and its message is then that of a reachable envelope |
| `McpFailure.FindMarker` | src/scheduler_mcp/adapters/registered_tool.py:58-93 | For every failing answer, the path to an envelope whose own message is the verdict |
| `McpFailure.ReachableMarkerFails` | src/scheduler_mcp/adapters/registered_tool.py:58-93 | A marker at the end of any path makes the answer a failure |
| `McpFailure.ErrorObjectMessage` | src/scheduler_mcp/adapters/registered_tool.py:62-65 | An error object gives its message, where that is blank its code, where both are a fixed label |
| `McpFailure.ErrorValueMessage` | src/scheduler_mcp/adapters/registered_tool.py:66 | Any other error value gives its text without surrounding white space, or a fixed label when nothing is left |
| `McpFailure.FlagMessage` | src/scheduler_mcp/adapters/registered_tool.py:67-70 | The messages for isError and for ok false |
| `McpFailure.FirstMemberSays` | src/scheduler_mcp/adapters/registered_tool.py:72-77 | Without a marker of its own an answer takes the first failing verdict of result, structuredContent, data and content |
| `McpFailure.FirstItemSays` | src/scheduler_mcp/adapters/registered_tool.py:78-93 | Among content items the first failing one gives the verdict: its flag, or that on the value its text parses to |
| `McpFailure.EnvelopeClassifies` | src/scheduler_mcp/adapters/registered_tool.py:58-93 | The verdict, message included, is a structural recursion over the envelope, which holds no domain data at any level, embedded texts included |
| `McpFailure.DomainMemberIgnored` | src/scheduler_mcp/adapters/registered_tool.py:58-93 | Any member that is not inspected can be added, changed or removed anywhere in an object without changing its envelope |
| `McpFailure.ItemMemberIgnored` | src/scheduler_mcp/adapters/registered_tool.py:73-92 | The same in a content item for every member except isError and text |
| `McpFailure.SameEnvelopeSameVerdict` | src/scheduler_mcp/adapters/registered_tool.py:58-59 | Answers with the same envelope, so differing only in domain data at any level, get the same verdict |
| `McpFailure.TextByEnvelope` | src/scheduler_mcp/adapters/registered_tool.py:82-92 | Of a text, only the envelope of the value that it parses to matters |
| `McpFailure.ParsedTextIsSmaller` | src/scheduler_mcp/adapters/registered_tool.py:83-92 | A value parsed from embedded text is smaller than the item that carries it, so re-parsing ends |
| `Audit.RunQuery` | src/scheduler_mcp/audit.py:302-322 | A query returns the number of matches and a page of them: matching rows only, oldest first iff the order is asc in lower case, else newest first, of exactly the length that limit (default 50, between 1 and 200) and offset leave |
| `Audit.RankingIsTheStableOrder` | src/scheduler_mcp/audit.py:312-316 | A sequence is the ranking iff it is ordered as asked and holds the matching rows, those with equal times in log order, whichever way the order goes |
| `Audit.RankingIsComplete` | src/scheduler_mcp/audit.py:302-316 | The ranking holds exactly the log's matching rows, each as often as the log does |
| `Audit.MatchesIff` | src/scheduler_mcp/audit.py:231-250 | Which rows pass the filters, the actor's id by containment without regard to case |
| `Audit.MatchingConcat` | src/scheduler_mcp/audit.py:304-310 | Matching goes line by line in log order |
| `Audit.SortIsStable` | src/scheduler_mcp/audit.py:313-316 | The sort is an ordered permutation that keeps rows with equal keys in order, descending too |
| `Audit.PagesTile` | src/scheduler_mcp/audit.py:317-321 | Consecutive pages of one size put together are a prefix of the ranking: no gap, no repeat |
| `Audit.IterAllMatching` | src/scheduler_mcp/api/audit.py:111-143 | For every page size the export ends and yields a prefix of the ranking: all of it iff the size is at most 200 or there are at most 200 matches; as shipped, the first 200 |
| `Audit.ShippedExportTruncates` | src/scheduler_mcp/api/audit.py:46 | Logs with more matches than an export yields exist for every count above 200 |

## Left out

- Floating point in `total_seconds() // every`: modelled as exact integer division, which it is for gaps below about 2^32 seconds.
- Overflow of `datetime` beyond year 9999, naive timestamps in the audit log (comparing them with aware ones raises), and parsing of ISO-8601 text.
- croniter, zoneinfo and daylight saving: only that cron answers come strictly after their base and that validity does not depend on it; expressions with a year field, which run out, are outside the model.
- Unicode case folding: `str.lower` is a parameter.
- `RecursionError` on deeply nested JSON: the classifier's termination is proved, not its stack depth.
- Embedded JSON with an integer of more than 4300 digits: `json.loads` raises a plain `ValueError`, which the classifier does not catch. In the model a text parses or is skipped.
- Creating schedules through A2A, which does not pass the time zone, and through MCP.
- Tick.ScheduleStore.CreateSchedule: the number of schedules that the caller owns is an argument; who created a row and when are not stored.
- Tick.ScheduleStore.PatchSchedule: a status string outside the enumeration, which fails at commit, cannot be written down; who changed a row and when are not stored.
- `check_context_size`: a single comparison.
- The bodies of the default step executors: they read only their step's configuration. Executors that change the context they are given are outside the model.
- Mutation of a step's `config` after compilation, and the metric that counts compile errors.
- `_job_envelope` and `_find_job_envelope`, waiting for sibling jobs, and all other network code of the adapters.
- Adapters: an adapter is an arbitrary outcome (succeeded, failed, cancelled, or failed by timeout or exception). Runtime templates in `target_spec` are not expanded.
- Texts and codes of errors in run rows; report rendering; audit rows other than the tick's; metrics; authentication and scopes.
- Time to live in `LeaderRace`: there the entry may expire at any moment, which covers every timing. Time is exact in `LeaderLease`.
- Tick.ScheduleStore.TickOnce: no other caller uses the lock between its acquire and its release. Overlapping ticks, which the lock's race window allows, are not part of the tick theorems, which assume that ticks are serialised.
- RunHandlers.RunStore.BeginDispatch: requires that the run's job is in the queue, which is the queue's at-most-once delivery.
- A tick whose commit fails after its jobs are submitted: transactions commit.
- Misfire, concurrency and retry policy columns and fire windows: stored, and not read by the code modelled here.
- Registry loading, configuration, migrations, the web interface and FastAPI routing.
