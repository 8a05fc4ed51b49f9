# Durable watchdog controller — Dafny model

A model of the control core of an Azure Durable Functions watchdog. One
watchdog per pool repeatedly fetches the pool's next task, sleeps until the
task is due (unless a stop request cancels the sleep), executes it, reports
it done, sleeps a fixed ten-second interval and starts over with
`ContinueAsNew`. A static registry of cancellation tokens, one per pool, lets
a stop orchestration interrupt either sleep. Two HTTP triggers start and stop
the watchdog, each admitting a new orchestration only when its own instance
is absent, completed, failed or terminated.

Substrate outcomes become inputs. These are the task the fetch activity
returns, the outcome of each timer-versus-cancellation race (`Elapsed` or
`Cancelled`), the orchestration's current time in integer seconds, and the
stop orchestration's `IsReplaying` flag. With these fixed, every run is
deterministic. What a run makes visible is one interleaved trace of events:
status publications (`SetCustomStatus`), activity calls, token arming and
cancelling, and sub-orchestration starts. `Trace.Published` and `Trace.Calls`
extract the published statuses and the activity calls from it, in order.

Modules:

- `Wrappers`: `Option`, for C# null.
- `DotNet`: `string.IsNullOrEmpty`, `string.IsNullOrWhiteSpace` (with the
  exact `char.IsWhiteSpace` set) and `CancellationTokenSource.TryReset`.
- `Status`: the `TaskExecution` descriptor and the published
  `StatusSnapshot`. `TaskStatus` is the mutable status object. `Project` is
  the status shown at each phase of a run.
- `Trace`: events, exits and the views of a trace.
- `Tokens`: the token registry. It has pure `Armed`/`Stopped` transitions,
  the `TokenRegistry` class whose methods update its map in place, and
  lemmas over histories of arms and stops.
- `Orchestrations`: `RunTaskWatchdog` is an imperative method. It mutates one
  `TaskStatus` object field by field and snapshots it at each publication.
  It is proved equal to `RunSpec`, a phase-by-phase definition of the run
  built from `Project`. The start-up and stop orchestrations are here too,
  along with the trace properties of a run.
- `Continuation`: the `ContinueAsNew` loop as a chain of generations, with
  the properties that hold over any number of runs.
- `HttpStarters`: the admission gate over an instance table.

Behaviours of the code worth knowing, which the model keeps as written:

- Re-arming does not clear a cancellation. The start-up's comment at
  Orchestrations.cs:35, "Create a new CancellationTokenSource", states the
  intent of a fresh token per run. But arming a pool that already has a
  token calls `TryReset`, and `TryReset` does nothing once cancellation was
  requested. So a stop followed by a restart leaves the pool's token
  cancelled (`Tokens.StopThenRestartStaysCancelled`), and within one host
  process nothing in any later history clears it
  (`Tokens.CancelledStaysCancelled`).
- The run sleeps whenever the task has a `NextExecution`. It never compares
  that time with the current time.
- A task with a `NextExecution` is announced as "Need to wait to respect
  task delay", never as "Got task".
- The token is armed by the start-up orchestration, after the pool is
  cleaned and started. The HTTP trigger does not arm it.
- Status publication is not gated on replay. Only the stop orchestration's
  `Cancel` is gated on replay.
- The stop trigger checks the stop orchestration's own instance
  (`stop-watchdog_testTaskId`), not the watchdog's.

## Model

| member | source | states |
|---|---|---|
| `Status.TaskStatus.constructor` | TestDurableOrchestrator/Orchestrations.cs:64-68 | the new status object has the pool name and message given, not in error, no current task and no next execution |
| `Status.Project` | TestDurableOrchestrator/Orchestrations.cs:64-145 | every status shown names the pool and is not in error; the current task is shown exactly in the got-task, waiting-for-delay and cancelled-while-sleeping phases, and the next execution exactly in the two waiting phases, each with that phase's task or time |
| `DotNet.TryReset` | TestDurableOrchestrator/Orchestrations.cs:39 | a reset succeeds exactly when no cancellation was requested, and never changes whether cancellation was requested |
| `DotNet.EmptyIsWhiteSpace` | TestDurableOrchestrator/Orchestrations.cs:81 | a null-or-empty name is null-or-white-space, but " " is null-or-white-space without being null-or-empty |
| `Tokens.Armed` | TestDurableOrchestrator/Orchestrations.cs:35-39 | arming adds the pool if absent, uncancelled; a present entry keeps its state, so a cancelled one stays cancelled; other pools are unchanged |
| `Tokens.Stopped` | TestDurableOrchestrator/Orchestrations.cs:52-53 | a stop cancels the entry only if it exists and the stop is not replaying; it creates no entry and leaves every other entry alone |
| `Tokens.TokenRegistry.constructor` | TestDurableOrchestrator/Orchestrations.cs:15 | the registry starts empty |
| `Tokens.TokenRegistry.Arm` | TestDurableOrchestrator/Orchestrations.cs:36-39 | the map after an in-place TryAdd/TryReset is `Armed` of the map before |
| `Tokens.TokenRegistry.Stop` | TestDurableOrchestrator/Orchestrations.cs:52-53 | the map after the guarded in-place Cancel is `Stopped` of the map before |
| `Tokens.StopThenRestartStaysCancelled` | TestDurableOrchestrator/Orchestrations.cs:36-53 | arm, stop (not replaying), arm again: the pool's token is still cancelled |
| `Tokens.StopWithoutEffect` | TestDurableOrchestrator/Orchestrations.cs:52-53 | a replayed stop, or a stop of a pool with no token, leaves the registry unchanged |
| `Tokens.ArmIdempotent` | TestDurableOrchestrator/Orchestrations.cs:36-39 | arming twice equals arming once |
| `Tokens.CancelledStaysCancelled` | TestDurableOrchestrator/Orchestrations.cs:36-53 | once a pool's token is cancelled, it is still present and cancelled after any history of arms and stops |
| `Tokens.KeysOfHistory` | TestDurableOrchestrator/Orchestrations.cs:36-53 | after a history, the registry's pools are the initial ones plus those armed; stops never add or remove entries |
| `Tokens.ArmedPoolsMembers` | TestDurableOrchestrator/Orchestrations.cs:36-39 | a pool is among the armed pools of a history exactly when some operation of that history arms it |
| `Tokens.OtherPoolsIsolated` | TestDurableOrchestrator/Orchestrations.cs:36-53 | arms and stops of other pools never create, remove or change a pool's entry |
| `Orchestrations.RunTaskWatchdog` | TestDurableOrchestrator/Orchestrations.cs:59-150 | mutating one status object and snapshotting it at each SetCustomStatus gives exactly the trace and exit of the phase-by-phase run definition; the token lookup is required only on runs that reach a timer |
| `Orchestrations.CleanAndRunScrapingWatchdog` | TestDurableOrchestrator/Orchestrations.cs:22-43 | CleanupPool, then StartPool, then the token is armed, then the sub-orchestration `<instanceId>:wd` starts with the pool name; the registry is armed for the pool, so the watchdog's token lookup succeeds |
| `Orchestrations.StopWatchdog` | TestDurableOrchestrator/Orchestrations.cs:45-57 | the token is cancelled (first execution only, existing entry only) before StopPool, which is always called; the registry becomes `Stopped` of the old one |
| `Orchestrations.RunSpec` | TestDurableOrchestrator/Orchestrations.cs:63-149 | one run, phase by phase: the fetch, then the end taken for no task, an invalid task, a cancelled delay, or execution followed by the interval; a run either returns or continues as new with its own pool |
| `Orchestrations.StatusBeforeFetch` | TestDurableOrchestrator/Orchestrations.cs:63-72 | the first event of every run publishes the pool with "Getting next task"; the second calls the fetch activity for the pool |
| `Orchestrations.NoTaskEndsRun` | TestDurableOrchestrator/Orchestrations.cs:75-80 | a null task: the statuses are "Getting next task" then "Unable to get a task", the fetch is the only call, and the run returns without ContinueAsNew |
| `Orchestrations.InvalidTaskEndsRun` | TestDurableOrchestrator/Orchestrations.cs:81-86 | a null or empty task name: the last status carries the task's Error as message with no current task, the fetch is the only call, and the run returns |
| `Orchestrations.DelayedTaskAnnounced` | TestDurableOrchestrator/Orchestrations.cs:88-100 | a task with a NextExecution is published as "Need to wait to respect task delay" with that time and the task, for any current time, and no status of the run says "Got task" |
| `Orchestrations.UndelayedTaskAnnounced` | TestDurableOrchestrator/Orchestrations.cs:88-120 | a task without a NextExecution is published as "Got task" with the task and no next execution |
| `Orchestrations.CancelDuringDelay` | TestDurableOrchestrator/Orchestrations.cs:102-112 | a cancelled delay sleep publishes "Operation cancelled while sleeping", with no next execution and the task still shown, and only then calls CancelExecutingTask for the pool, once; the only calls are the fetch and that cancel; nothing is executed or reported done; the run returns |
| `Orchestrations.ExecuteAndReport` | TestDurableOrchestrator/Orchestrations.cs:122-134 | past the delay, the calls are exactly the fetch, the execute activity with the task's name, then SetExecutingTaskDone for the pool; in the trace, the announcing status is followed by the execute call, then the done call, then "Waiting next execution" at now + 10 with no current task |
| `Orchestrations.CancelDuringInterval` | TestDurableOrchestrator/Orchestrations.cs:136-146 | a cancelled interval wait ends with "Operation cancelled" with no task and no next execution, makes no CancelExecutingTask call, and returns |
| `Orchestrations.RunExit` | TestDurableOrchestrator/Orchestrations.cs:136-149 | a run ends with ContinueAsNew of its own pool name exactly when it executed its task and the interval elapsed; otherwise it returns |
| `Orchestrations.NeverInError` | TestDurableOrchestrator/Orchestrations.cs:64-145 | every status published names the run's pool and has InError unset |
| `Orchestrations.RunCounts` | TestDurableOrchestrator/Orchestrations.cs:72-134 | one run fetches exactly once, calls execute and done equally often, and calls CancelExecutingTask at most once and only on a run that returns |
| `Orchestrations.RunCallsAccepted` | TestDurableOrchestrator/Activities.cs:21-101 | with a non-blank pool and task name, every activity call's argument passes the activities' null-or-white-space guard |
| `Orchestrations.WhiteSpaceTaskNameReachesExecute` | TestDurableOrchestrator/Orchestrations.cs:81-123 | a task named " " passes the run's null-or-empty check and reaches the execute call, whose argument the activity guard refuses |
| `Continuation.Chain` | TestDurableOrchestrator/Orchestrations.cs:149 | the `ContinueAsNew` loop: runs follow one another with the same pool until one returns, and the chain's exit is a return or a continuation with that pool |
| `Continuation.ChainKeepsPool` | TestDurableOrchestrator/Orchestrations.cs:149 | over any number of ContinueAsNew generations the exit carries the same pool name, and every published status names that pool and is not in error |
| `Continuation.GenerationsRun` | TestDurableOrchestrator/Orchestrations.cs:136-149 | the number of generations that run is at most the number supplied, and at least one when any is supplied |
| `Continuation.GenerationsRunUntilReturn` | TestDurableOrchestrator/Orchestrations.cs:136-149 | a chain returns exactly when the last generation run returned, and every earlier generation continued as new |
| `Continuation.ChainCounts` | TestDurableOrchestrator/Orchestrations.cs:72-149 | over a chain, execute and done calls are equally many; CancelExecutingTask is called at most once, only by a chain that has returned; the fetches equal the generations actually run, which on a live chain are all of them |
| `Continuation.LiveChainExecutedEveryGeneration` | TestDurableOrchestrator/Orchestrations.cs:122-149 | a chain that still continues as new executed the task of every generation and waited out every interval |
| `HttpStarters.StartWatchdogTrigger` | TestDurableOrchestrator/HttpStarters.cs:57-76 | "Watchdog started" exactly when the admission test passes on `start-watchdog_testTaskId`, and then that id holds a new pending CleanAndRunScrapingWatchdog instance with input "testTaskId"; otherwise "Watchdog already started" and the table is unchanged |
| `HttpStarters.StopWatchdogTrigger` | TestDurableOrchestrator/HttpStarters.cs:79-98 | "Watchdog stoping" exactly when the admission test passes on `stop-watchdog_testTaskId`, and then that id holds a new pending StopWatchdog instance with input "testTaskId"; otherwise "Watchdog already stoping" and the table is unchanged |
| `HttpStarters.MayStartNew` | TestDurableOrchestrator/HttpStarters.cs:66-69 | the admission test: no instance, or one that completed, failed or was terminated; `HttpStarters.AdmissionIff` states both directions |
| `HttpStarters.AdmissionIff` | TestDurableOrchestrator/HttpStarters.cs:66-69 | admitted exactly when there is no instance or it is Completed, Failed or Terminated; Unknown, Running, ContinuedAsNew, Canceled, Pending and Suspended are refused |
| `HttpStarters.InstanceIdsDistinct` | TestDurableOrchestrator/HttpStarters.cs:18-19 | the derived ids are "start-watchdog_testTaskId" and "stop-watchdog_testTaskId"; they differ from each other and from the watchdog's `:wd` sub-orchestration id |
| `HttpStarters.StartWhileLiveRejected` | TestDurableOrchestrator/HttpStarters.cs:64-75 | while the watchdog instance is unfinished, a start is refused and creates no instance |
| `HttpStarters.RepeatedStartsWhileLive` | TestDurableOrchestrator/HttpStarters.cs:64-75 | against an unfinished watchdog instance, any number of start requests admits none and leaves the table unchanged |
| `HttpStarters.RepeatedStartsAdmitAtMostOnce` | TestDurableOrchestrator/HttpStarters.cs:62-75 | back-to-back start requests admit at most one, and the table then holds that single pending watchdog instance |
| `HttpStarters.StopIgnoresWatchdogInstance` | TestDurableOrchestrator/HttpStarters.cs:84-91 | the stop trigger's answer does not depend on the watchdog instance's entry, whatever it is or whether it exists |

## Left out

- The activities' own work (TestDurableOrchestrator/Activities.cs). Delays, random durations, the clock and hard-coded results are stubs. The activities are calls recorded in the trace.
- Activity boolean results: the run never reads the results of the execute, done and cancel activities, so they are not inputs. Whether `true` means success or error does not matter to the model.
- The execute activity name: Orchestrations.cs:123 calls `ExecuteTaskActivity`, which Activities.cs does not define (it defines `ExecuteResearchActivity`, Activities.cs:97-98). The model records that call and gives it no behaviour of its own. It assumes that activity has the null-or-white-space guard of `ExecuteResearchActivity` (Activities.cs:100); `Orchestrations.ActivityAccepts`, `Orchestrations.RunCallsAccepted` and `Orchestrations.WhiteSpaceTaskNameReachesExecute` rely on that guard.
- Activity failures: an activity that throws, including its `ArgumentNullException` guard, would fail the orchestration. That path is not modelled. `Orchestrations.RunCallsAccepted` states when the guards pass.
- Replay, durable timers, sub-orchestration lifetime and `ContinueAsNew` internals: these belong to the durable substrate. Race outcomes and `IsReplaying` are inputs. When a timer fires, and so whether the wait until `NextExecution` lasted exactly as long as intended, is not modelled.
- A token that is already cancelled when a timer is created: the model does not force that race to be `Cancelled`, because the race outcome is free input.
- `ConcurrentDictionary` concurrency: the check-then-act at Orchestrations.cs:36-39 is modelled sequentially, with no atomicity claim.
- Concurrent HTTP requests: each trigger reads the instance status (HttpStarters.cs:64, 86) and starts an instance (HttpStarters.cs:71, 93) in separate awaits. The model treats each trigger as one atomic step. So two concurrent start (or stop) requests, which could both see no instance and both start one, are not covered; `HttpStarters.RepeatedStartsAdmitAtMostOnce` is about sequential requests only.
- The `KeyNotFound` that `tokens[poolName]` (Orchestrations.cs:100, 138) throws when the pool is absent from the running process's dictionary: `Orchestrations.RunTaskWatchdog` requires the entry on runs that reach a timer.
- The token registry's lifetime: the model has one registry for all orchestrations. The program's is a private static dictionary (Orchestrations.cs:15) per host process, empty after a restart and on any other worker. There a replayed or continued run's lookup at Orchestrations.cs:100/138 throws, a start-up's `TryAdd` (Orchestrations.cs:37) creates a fresh uncancelled token, and a stop handled by another worker cancels nothing.
- Null orchestration inputs: pool names are non-null strings.
- `DateTime`: times are integer seconds, and `AddSeconds(10)` is `+ 10`. UTC versus local time is not modelled.
- HTTP plumbing: `CleanupOrchestration` (history purge), `TerminateAllOrchestration` with its exception-swallowing loop, and the `IActionResult` wrapping are not modelled. A response is its result kind and body.
