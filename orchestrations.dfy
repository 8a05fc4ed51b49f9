/**
 * The three orchestrator functions of the watchdog: the start-up
 * (clean, start, arm the token, run the watchdog), the stop (guarded cancel,
 * stop the pool) and one run of the watchdog itself, which publishes a status,
 * fetches a task, optionally sleeps until it is due, executes it, reports it
 * done, sleeps the interval and continues as new.
 *
 * The substrate's outcomes are inputs: the task the fetch activity returns,
 * the outcome of each timer-versus-cancellation race, the orchestration's
 * current time (in seconds) after the task was reported done, and whether
 * the stop orchestration is replaying.
 */
module Orchestrations {
  import opened Wrappers
  import opened DotNet
  import opened Status
  import opened Trace
  import opened Tokens

  /** Seconds between two runs of the watchdog (`AddSeconds(10)`). */
  const WatchdogInterval := 10

  /** The suffix of the watchdog sub-orchestration's instance id. */
  const WatchdogIdSuffix := ":wd"

  /** How waiting on a durable timer created with the pool's token ends: the timer fired, or the token cancelled it. */
  datatype Race = Elapsed | Cancelled

  datatype RunResult = RunResult(trace: seq<Event>, exit: Exit)

  /** The fetched task passes both checks, so the run reaches a timer (and looks its token up). */
  predicate IsRunnable(fetched: Option<TaskExecution>) {
    fetched.Some? && !IsNullOrEmpty(fetched.value.TaskName)
  }

  /** The run sleeps until the task is due and the sleep is cancelled. */
  predicate CancelledInDelay(fetched: Option<TaskExecution>, delay: Race) {
    IsRunnable(fetched) && fetched.value.NextExecution.Some? && delay == Cancelled
  }

  /** The run gets as far as executing its task. */
  predicate Executes(fetched: Option<TaskExecution>, delay: Race) {
    IsRunnable(fetched) && !CancelledInDelay(fetched, delay)
  }

  function Pub(pool: string, phase: Phase): seq<Event> {
    [Publish(Project(pool, phase))]
  }

  function Inv(activity: Activity, arg: string): seq<Event> {
    [Invoke(Call(activity, arg))]
  }

  /**
   * One run of the watchdog of `pool`, as the sequence of phases it passes
   * through (each shown by the status projector) and the calls between them.
   */
  function RunSpec(pool: string, fetched: Option<TaskExecution>, delay: Race, interval: Race, now: int): (r: RunResult)
    ensures r.exit == Return || r.exit == ContinueAsNew(pool)
  {
    var fetch := Pub(pool, GettingNextTask) + Inv(GetNextResearchForExecution, pool);
    if fetched.None? then
      RunResult(fetch + Pub(pool, NoTask), Return)
    else
      var task := fetched.value;
      if IsNullOrEmpty(task.TaskName) then
        RunResult(fetch + Pub(pool, InvalidTask(task.Error)), Return)
      else
        if CancelledInDelay(fetched, delay) then
          RunResult(fetch + Pub(pool, Announce(task)) + Pub(pool, CancelledWhileSleeping(task))
                      + Inv(CancelExecutingTask, pool), Return)
        else
          var executed := fetch + Pub(pool, Announce(task))
                          + Inv(ExecuteTaskActivity, task.TaskName.value) + Inv(SetExecutingTaskDone, pool)
                          + Pub(pool, WaitingNextExecution(now + WatchdogInterval));
          if interval == Cancelled then RunResult(executed + Pub(pool, CancelledWaiting), Return)
          else RunResult(executed, ContinueAsNew(pool))
  }

  /**
   * `RunTaskWatchdog`: one run, mutating a single status object and
   * publishing a snapshot of it at each `SetCustomStatus`. The lookup
   * of the pool's token happens only when a timer is created.
   */
  method RunTaskWatchdog(registry: TokenRegistry, poolName: string, fetched: Option<TaskExecution>,
                         delay: Race, interval: Race, now: int)
    returns (trace: seq<Event>, exit: Exit)
    requires IsRunnable(fetched) ==> poolName in registry.tokens
    ensures RunResult(trace, exit) == RunSpec(poolName, fetched, delay, interval, now)
  {
    var output := new TaskStatus(poolName, Some("Getting next task"));
    trace := [Publish(output.Snapshot())];

    trace := trace + [Invoke(Call(GetNextResearchForExecution, poolName))];

    if fetched.None? {
      output.Message := Some("Unable to get a task");
      trace := trace + [Publish(output.Snapshot())];
      return trace, Return;
    }
    var task := fetched.value;
    if IsNullOrEmpty(task.TaskName) {
      output.Message := task.Error;
      trace := trace + [Publish(output.Snapshot())];
      return trace, Return;
    }

    output.Message := Some("Got task");
    output.CurrentTask := Some(task);
    if task.NextExecution.Some? {
      output.Message := Some("Need to wait to respect task delay");
      output.NextExcecution := Some(task.NextExecution.value);
      trace := trace + [Publish(output.Snapshot())];

      var token := registry.tokens[poolName];  // the token the timer is created with
      if delay == Cancelled {
        output.Message := Some("Operation cancelled while sleeping");
        output.NextExcecution := None;
        trace := trace + [Publish(output.Snapshot())];
        trace := trace + [Invoke(Call(CancelExecutingTask, poolName))];
        return trace, Return;
      }
    } else {
      trace := trace + [Publish(output.Snapshot())];
    }

    trace := trace + [Invoke(Call(ExecuteTaskActivity, task.TaskName.value))];
    trace := trace + [Invoke(Call(SetExecutingTaskDone, poolName))];

    var nextTask := now + WatchdogInterval;
    output.Message := Some("Waiting next execution");
    output.NextExcecution := Some(nextTask);
    output.CurrentTask := None;
    trace := trace + [Publish(output.Snapshot())];

    var token := registry.tokens[poolName];  // the token the timer is created with
    if interval == Cancelled {
      output.Message := Some("Operation cancelled");
      output.NextExcecution := None;
      trace := trace + [Publish(output.Snapshot())];
      return trace, Return;
    }

    exit := ContinueAsNew(poolName);
  }

  /**
   * `CleanAndRunScrapingWatchdog`: clean and start the pool, arm its token,
   * then start the watchdog as the sub-orchestration `<instanceId>:wd`.
   */
  method CleanAndRunScrapingWatchdog(registry: TokenRegistry, instanceId: string, poolName: string)
    returns (trace: seq<Event>)
    modifies registry
    ensures trace == [Invoke(Call(CleanupPool, poolName)), Invoke(Call(StartPool, poolName)),
                      ArmToken(poolName), StartSubOrchestration(instanceId + WatchdogIdSuffix, poolName)]
    ensures registry.tokens == Armed(old(registry.tokens), poolName)
    ensures poolName in registry.tokens
  {
    var id := instanceId + WatchdogIdSuffix;
    trace := [Invoke(Call(CleanupPool, poolName))];
    trace := trace + [Invoke(Call(StartPool, poolName))];
    registry.Arm(poolName);
    trace := trace + [ArmToken(poolName)];
    trace := trace + [StartSubOrchestration(id, poolName)];
  }

  /** `StopWatchdog`: cancel the pool's token (first execution only, if it exists), then stop the pool. */
  method StopWatchdog(registry: TokenRegistry, poolName: string, isReplaying: bool)
    returns (trace: seq<Event>)
    modifies registry
    ensures trace == (if !isReplaying && poolName in old(registry.tokens) then [CancelToken(poolName)] else [])
                     + [Invoke(Call(StopPool, poolName))]
    ensures registry.tokens == Stopped(old(registry.tokens), poolName, isReplaying)
  {
    trace := [];
    if !isReplaying && poolName in registry.tokens {
      trace := [CancelToken(poolName)];
    }
    registry.Stop(poolName, isReplaying);
    trace := trace + [Invoke(Call(StopPool, poolName))];
  }

  /** The opening of every run: the first status, then the fetch. */
  lemma FetchViews(pool: string)
    ensures var t := Pub(pool, GettingNextTask) + Inv(GetNextResearchForExecution, pool);
            Published(t) == [Project(pool, GettingNextTask)]
            && Calls(t) == [Call(GetNextResearchForExecution, pool)]
  {
    var e0 := Publish(Project(pool, GettingNextTask));
    ViewsSnoc([], e0);
    assert [] + [e0] == [e0];
    ViewsSnoc([e0], Invoke(Call(GetNextResearchForExecution, pool)));
  }

  /** The status that announces a valid task. */
  function Announce(task: TaskExecution): Phase {
    if task.NextExecution.Some? then WaitingForDelay(task, task.NextExecution.value) else GotTask(task)
  }

  /** The statuses and calls of a run that ends at one of the checks on the fetched task. */
  lemma RejectedViews(pool: string, fetched: Option<TaskExecution>, delay: Race, interval: Race, now: int)
    requires !IsRunnable(fetched)
    ensures var r := RunSpec(pool, fetched, delay, interval, now);
            && Published(r.trace) == [Project(pool, GettingNextTask),
                                      Project(pool, if fetched.None? then NoTask else InvalidTask(fetched.value.Error))]
            && Calls(r.trace) == [Call(GetNextResearchForExecution, pool)]
  {
    FetchViews(pool);
    var fetch := Pub(pool, GettingNextTask) + Inv(GetNextResearchForExecution, pool);
    ViewsSnoc(fetch, Publish(Project(pool, if fetched.None? then NoTask else InvalidTask(fetched.value.Error))));
  }

  /** The statuses and calls of a run whose delay sleep is cancelled. */
  lemma DelayCancelledViews(pool: string, fetched: Option<TaskExecution>, delay: Race, interval: Race, now: int)
    requires CancelledInDelay(fetched, delay)
    ensures var r := RunSpec(pool, fetched, delay, interval, now);
            && Published(r.trace) == [Project(pool, GettingNextTask), Project(pool, Announce(fetched.value)),
                                      Project(pool, CancelledWhileSleeping(fetched.value))]
            && Calls(r.trace) == [Call(GetNextResearchForExecution, pool), Call(CancelExecutingTask, pool)]
  {
    FetchViews(pool);
    var task := fetched.value;
    var t1 := Pub(pool, GettingNextTask) + Inv(GetNextResearchForExecution, pool);
    var e2 := Publish(Project(pool, Announce(task)));
    var e3 := Publish(Project(pool, CancelledWhileSleeping(task)));
    ViewsSnoc(t1, e2);
    ViewsSnoc(t1 + [e2], e3);
    var e4 := Invoke(Call(CancelExecutingTask, pool));
    ViewsSnoc(t1 + [e2] + [e3], e4);
    assert RunSpec(pool, fetched, delay, interval, now).trace == t1 + [e2] + [e3] + [e4];
  }

  /** The statuses and calls of a run that executes its task. */
  lemma ExecutedViews(pool: string, fetched: Option<TaskExecution>, delay: Race, interval: Race, now: int)
    requires Executes(fetched, delay)
    ensures var r := RunSpec(pool, fetched, delay, interval, now);
            && Published(r.trace) == [Project(pool, GettingNextTask), Project(pool, Announce(fetched.value)),
                                      Project(pool, WaitingNextExecution(now + WatchdogInterval))]
                                     + (if interval == Cancelled then [Project(pool, CancelledWaiting)] else [])
            && Calls(r.trace) == [Call(GetNextResearchForExecution, pool),
                                  Call(ExecuteTaskActivity, fetched.value.TaskName.value),
                                  Call(SetExecutingTaskDone, pool)]
  {
    FetchViews(pool);
    var task := fetched.value;
    var t1 := Pub(pool, GettingNextTask) + Inv(GetNextResearchForExecution, pool);
    var e2 := Publish(Project(pool, Announce(task)));
    var e3 := Invoke(Call(ExecuteTaskActivity, task.TaskName.value));
    var e4 := Invoke(Call(SetExecutingTaskDone, pool));
    var e5 := Publish(Project(pool, WaitingNextExecution(now + WatchdogInterval)));
    ViewsSnoc(t1, e2);
    ViewsSnoc(t1 + [e2], e3);
    ViewsSnoc(t1 + [e2] + [e3], e4);
    ViewsSnoc(t1 + [e2] + [e3] + [e4], e5);
    var e6 := Publish(Project(pool, CancelledWaiting));
    ViewsSnoc(t1 + [e2] + [e3] + [e4] + [e5], e6);
    var executed := t1 + [e2] + [e3] + [e4] + [e5];
    assert RunSpec(pool, fetched, delay, interval, now).trace == if interval == Cancelled then executed + [e6] else executed;
  }

  /** Every run first publishes "Getting next task" for its pool, and only then calls the fetch activity. */
  lemma StatusBeforeFetch(pool: string, fetched: Option<TaskExecution>, delay: Race, interval: Race, now: int)
    ensures var r := RunSpec(pool, fetched, delay, interval, now);
            && |r.trace| >= 2
            && r.trace[0] == Publish(StatusSnapshot(pool, Some("Getting next task"), false, None, None))
            && r.trace[1] == Invoke(Call(GetNextResearchForExecution, pool))
  {
  }

  /** No task: "Unable to get a task" is published, the fetch is the only call, and the run returns. */
  lemma NoTaskEndsRun(pool: string, delay: Race, interval: Race, now: int)
    ensures var r := RunSpec(pool, None, delay, interval, now);
            && Published(r.trace)
               == [StatusSnapshot(pool, Some("Getting next task"), false, None, None),
                   StatusSnapshot(pool, Some("Unable to get a task"), false, None, None)]
            && Calls(r.trace) == [Call(GetNextResearchForExecution, pool)]
            && r.exit == Return
  {
    RejectedViews(pool, None, delay, interval, now);
  }

  /** A task with a null or empty name: its Error becomes the message, no task is shown, nothing runs. */
  lemma InvalidTaskEndsRun(pool: string, task: TaskExecution, delay: Race, interval: Race, now: int)
    requires IsNullOrEmpty(task.TaskName)
    ensures var r := RunSpec(pool, Some(task), delay, interval, now);
            && Published(r.trace)
               == [StatusSnapshot(pool, Some("Getting next task"), false, None, None),
                   StatusSnapshot(pool, task.Error, false, None, None)]
            && Calls(r.trace) == [Call(GetNextResearchForExecution, pool)]
            && r.exit == Return
  {
    RejectedViews(pool, Some(task), delay, interval, now);
  }

  /**
   * A task with a NextExecution is announced as a wait until that time, and
   * whatever the current time, "Got task" is never published.
   */
  lemma DelayedTaskAnnounced(pool: string, task: TaskExecution, delay: Race, interval: Race, now: int)
    requires !IsNullOrEmpty(task.TaskName) && task.NextExecution.Some?
    ensures var published := Published(RunSpec(pool, Some(task), delay, interval, now).trace);
            && |published| >= 3
            && published[1] == StatusSnapshot(pool, Some("Need to wait to respect task delay"), false,
                                              Some(task), task.NextExecution)
            && forall i :: 0 <= i < |published| ==> published[i].Message != Some("Got task")
  {
    if delay == Cancelled {
      DelayCancelledViews(pool, Some(task), delay, interval, now);
    } else {
      ExecutedViews(pool, Some(task), delay, interval, now);
    }
  }

  /** A task without a NextExecution is announced as "Got task" and shown as the current task. */
  lemma UndelayedTaskAnnounced(pool: string, task: TaskExecution, delay: Race, interval: Race, now: int)
    requires !IsNullOrEmpty(task.TaskName) && task.NextExecution.None?
    ensures var published := Published(RunSpec(pool, Some(task), delay, interval, now).trace);
            && |published| >= 3
            && published[1] == StatusSnapshot(pool, Some("Got task"), false, Some(task), None)
  {
    ExecutedViews(pool, Some(task), delay, interval, now);
  }

  /**
   * A cancelled delay sleep: "Operation cancelled while sleeping" with no
   * next execution and the task still shown, exactly one CancelExecutingTask
   * for the pool, made after that status is published, no execution and no
   * done report, and the run returns.
   */
  lemma CancelDuringDelay(pool: string, task: TaskExecution, interval: Race, now: int)
    requires !IsNullOrEmpty(task.TaskName) && task.NextExecution.Some?
    ensures var r := RunSpec(pool, Some(task), Cancelled, interval, now);
            var calls := Calls(r.trace);
            && Published(r.trace)[|Published(r.trace)| - 1]
               == StatusSnapshot(pool, Some("Operation cancelled while sleeping"), false, Some(task), None)
            && calls == [Call(GetNextResearchForExecution, pool), Call(CancelExecutingTask, pool)]
            && CountOf(calls, CancelExecutingTask) == 1
            && CountOf(calls, ExecuteTaskActivity) == 0
            && CountOf(calls, SetExecutingTaskDone) == 0
            && r.trace[2..] == [Publish(Project(pool, Announce(task))),
                                Publish(StatusSnapshot(pool, Some("Operation cancelled while sleeping"), false, Some(task), None)),
                                Invoke(Call(CancelExecutingTask, pool))]
            && r.exit == Return
  {
    DelayCancelledViews(pool, Some(task), Cancelled, interval, now);
  }

  /**
   * A run that gets past the checks and the delay calls the execute activity
   * with the task's name, then SetExecutingTaskDone for the pool, once each,
   * and only after both publishes "Waiting next execution" due ten seconds
   * after now, with no current task.
   */
  lemma ExecuteAndReport(pool: string, task: TaskExecution, delay: Race, interval: Race, now: int)
    requires Executes(Some(task), delay)
    ensures var r := RunSpec(pool, Some(task), delay, interval, now);
            var published := Published(r.trace);
            && Calls(r.trace) == [Call(GetNextResearchForExecution, pool),
                                  Call(ExecuteTaskActivity, task.TaskName.value),
                                  Call(SetExecutingTaskDone, pool)]
            && |published| >= 3
            && published[2] == StatusSnapshot(pool, Some("Waiting next execution"), false, None, Some(now + 10))
            && |r.trace| >= 6
            && r.trace[2..6] == [Publish(Project(pool, Announce(task))),
                                 Invoke(Call(ExecuteTaskActivity, task.TaskName.value)),
                                 Invoke(Call(SetExecutingTaskDone, pool)),
                                 Publish(StatusSnapshot(pool, Some("Waiting next execution"), false, None, Some(now + 10)))]
  {
    ExecutedViews(pool, Some(task), delay, interval, now);
  }

  /** A cancelled interval wait: "Operation cancelled" with nothing shown, no CancelExecutingTask, and a return. */
  lemma CancelDuringInterval(pool: string, task: TaskExecution, delay: Race, now: int)
    requires Executes(Some(task), delay)
    ensures var r := RunSpec(pool, Some(task), delay, Cancelled, now);
            var published := Published(r.trace);
            && published[|published| - 1] == StatusSnapshot(pool, Some("Operation cancelled"), false, None, None)
            && CountOf(Calls(r.trace), CancelExecutingTask) == 0
            && r.exit == Return
  {
    ExecutedViews(pool, Some(task), delay, Cancelled, now);
    CountOfThree(Call(GetNextResearchForExecution, pool), Call(ExecuteTaskActivity, task.TaskName.value),
                 Call(SetExecutingTaskDone, pool), CancelExecutingTask);
  }

  /** A run continues as new, with its own pool name, exactly when it executes its task and the interval elapses. */
  lemma RunExit(pool: string, fetched: Option<TaskExecution>, delay: Race, interval: Race, now: int)
    ensures var r := RunSpec(pool, fetched, delay, interval, now);
            && (r.exit == ContinueAsNew(pool) <==> Executes(fetched, delay) && interval == Elapsed)
            && (r.exit != ContinueAsNew(pool) ==> r.exit == Return)
  {
  }

  /** Every status a run publishes names its pool, and none is in error. */
  lemma NeverInError(pool: string, fetched: Option<TaskExecution>, delay: Race, interval: Race, now: int)
    ensures var published := Published(RunSpec(pool, fetched, delay, interval, now).trace);
            forall i :: 0 <= i < |published| ==> published[i].PoolName == pool && !published[i].InError
  {
    if !IsRunnable(fetched) {
      RejectedViews(pool, fetched, delay, interval, now);
    } else if CancelledInDelay(fetched, delay) {
      DelayCancelledViews(pool, fetched, delay, interval, now);
    } else {
      ExecutedViews(pool, fetched, delay, interval, now);
    }
  }

  /** The call counts of one run, the facts a chain of runs is built from. */
  lemma RunCounts(pool: string, fetched: Option<TaskExecution>, delay: Race, interval: Race, now: int)
    ensures var r := RunSpec(pool, fetched, delay, interval, now);
            var calls := Calls(r.trace);
            && CountOf(calls, GetNextResearchForExecution) == 1
            && CountOf(calls, ExecuteTaskActivity) == CountOf(calls, SetExecutingTaskDone)
            && CountOf(calls, CancelExecutingTask) <= 1
            && (CountOf(calls, CancelExecutingTask) == 1 ==> r.exit == Return)
  {
    if !IsRunnable(fetched) {
      RejectedViews(pool, fetched, delay, interval, now);
    } else if CancelledInDelay(fetched, delay) {
      DelayCancelledViews(pool, fetched, delay, interval, now);
    } else {
      ExecutedViews(pool, fetched, delay, interval, now);
      var x, y, z := Call(GetNextResearchForExecution, pool), Call(ExecuteTaskActivity, fetched.value.TaskName.value),
                     Call(SetExecutingTaskDone, pool);
      CountOfThree(x, y, z, GetNextResearchForExecution);
      CountOfThree(x, y, z, ExecuteTaskActivity);
      CountOfThree(x, y, z, SetExecutingTaskDone);
      CountOfThree(x, y, z, CancelExecutingTask);
    }
  }

  /** The guard every activity puts on its argument: a null or white-space argument throws. */
  predicate ActivityAccepts(c: Call) {
    !IsNullOrWhiteSpace(Some(c.arg))
  }

  /** With a non-blank pool name and a non-blank task name, every call of a run passes the activities' guard. */
  lemma RunCallsAccepted(pool: string, fetched: Option<TaskExecution>, delay: Race, interval: Race, now: int)
    requires !IsNullOrWhiteSpace(Some(pool))
    requires IsRunnable(fetched) ==> !IsNullOrWhiteSpace(fetched.value.TaskName)
    ensures var calls := Calls(RunSpec(pool, fetched, delay, interval, now).trace);
            forall i :: 0 <= i < |calls| ==> ActivityAccepts(calls[i])
  {
    if !IsRunnable(fetched) {
      RejectedViews(pool, fetched, delay, interval, now);
    } else if CancelledInDelay(fetched, delay) {
      DelayCancelledViews(pool, fetched, delay, interval, now);
    } else {
      ExecutedViews(pool, fetched, delay, interval, now);
    }
  }

  /**
   * The run's own check is only "null or empty": a task named " " passes it
   * and is handed to the execute activity, whose guard refuses it.
   */
  lemma WhiteSpaceTaskNameReachesExecute(pool: string, now: int)
    ensures var calls := Calls(RunSpec(pool, Some(TaskExecution(Some(" "), None, None)), Elapsed, Elapsed, now).trace);
            && |calls| == 3
            && calls[1] == Call(ExecuteTaskActivity, " ")
            && !ActivityAccepts(calls[1])
  {
    var task := TaskExecution(Some(" "), None, None);
    assert !IsNullOrEmpty(task.TaskName);
    ExecutedViews(pool, Some(task), Elapsed, Elapsed, now);
    assert IsWhiteSpace(" "[0]);
  }
}
