/**
 * The records the watchdog reports: the task descriptor returned by the
 * task service, the externally visible status object that the orchestration
 * mutates field by field, and the status projector that names each status
 * the state machine publishes.
 */
module Status {
  import opened Wrappers

  /** A task descriptor as fetched from the pool; null C# strings are `None`. */
  datatype TaskExecution = TaskExecution(
    TaskName: Option<string>,
    NextExecution: Option<int>,   // seconds; `DateTime?`
    Error: Option<string>)

  /** The value of a `TaskStatus` object at the moment it is published (serialised). */
  datatype StatusSnapshot = StatusSnapshot(
    PoolName: string,
    Message: Option<string>,
    InError: bool,
    CurrentTask: Option<TaskExecution>,
    NextExcecution: Option<int>)

  /** The mutable status object `output` of the watchdog run. */
  class TaskStatus {
    var PoolName: string
    var Message: Option<string>
    var InError: bool
    var CurrentTask: Option<TaskExecution>
    var NextExcecution: Option<int>

    /** A status object created with a pool name and a message; the other properties keep their defaults. */
    constructor (poolName: string, message: Option<string>)
      ensures Snapshot() == StatusSnapshot(poolName, message, false, None, None)
    {
      PoolName := poolName;
      Message := message;
      InError := false;
      CurrentTask := None;
      NextExcecution := None;
    }

    /** What `SetCustomStatus(this)` makes visible. */
    function Snapshot(): StatusSnapshot
      reads this
    {
      StatusSnapshot(PoolName, Message, InError, CurrentTask, NextExcecution)
    }
  }

  /** The points of one watchdog run at which a status is published. */
  datatype Phase =
    | GettingNextTask
    | NoTask
    | InvalidTask(error: Option<string>)
    | GotTask(task: TaskExecution)
    | WaitingForDelay(task: TaskExecution, until: int)
    | CancelledWhileSleeping(task: TaskExecution)
    | WaitingNextExecution(until: int)
    | CancelledWaiting

  /** The status projector: the status that a phase of the run of `pool` shows. */
  function Project(pool: string, phase: Phase): (s: StatusSnapshot)
    ensures s.PoolName == pool && !s.InError
    ensures s.CurrentTask.Some? <==> phase.GotTask? || phase.WaitingForDelay? || phase.CancelledWhileSleeping?
    ensures s.CurrentTask.Some? ==> s.CurrentTask.value == phase.task
    ensures s.NextExcecution.Some? <==> phase.WaitingForDelay? || phase.WaitingNextExecution?
    ensures s.NextExcecution.Some? ==> s.NextExcecution.value == phase.until
  {
    match phase
    case GettingNextTask =>
      StatusSnapshot(pool, Some("Getting next task"), false, None, None)
    case NoTask =>
      StatusSnapshot(pool, Some("Unable to get a task"), false, None, None)
    case InvalidTask(error) =>
      StatusSnapshot(pool, error, false, None, None)
    case GotTask(task) =>
      StatusSnapshot(pool, Some("Got task"), false, Some(task), None)
    case WaitingForDelay(task, until) =>
      StatusSnapshot(pool, Some("Need to wait to respect task delay"), false, Some(task), Some(until))
    case CancelledWhileSleeping(task) =>
      StatusSnapshot(pool, Some("Operation cancelled while sleeping"), false, Some(task), None)
    case WaitingNextExecution(until) =>
      StatusSnapshot(pool, Some("Waiting next execution"), false, None, Some(until))
    case CancelledWaiting =>
      StatusSnapshot(pool, Some("Operation cancelled"), false, None, None)
  }
}
