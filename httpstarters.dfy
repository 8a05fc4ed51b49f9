/**
 * The HTTP start and stop triggers: each looks up the orchestration
 * instance under its own fixed id and starts a new one only when there is
 * none or the existing one has finished.
 */
module HttpStarters {
  import opened Wrappers

  const WatchdogScrapingFunctionId := "start-watchdog"
  const StopWatchdogScrapingFunctionId := "stop-watchdog"
  /** The pool both triggers work on. */
  const TaskName := "testTaskId"

  /** `OrchestrationRuntimeStatus`. */
  datatype RuntimeStatus = Unknown | Running | Completed | ContinuedAsNew | Failed | Canceled | Terminated | Pending | Suspended

  datatype Orchestrator = CleanAndRunScrapingWatchdog | StopWatchdog

  /** An orchestration instance as far as the triggers see it. */
  datatype Instance = Instance(orchestrator: Orchestrator, input: string, RuntimeStatus: RuntimeStatus)

  /** The task hub's instances by id. */
  type InstanceTable = map<string, Instance>

  datatype HttpResponse = OkObject(value: string) | BadRequestObject(value: string)

  datatype StarterResult = StarterResult(instances: InstanceTable, response: HttpResponse)

  /** An instance id: the function id and the task name joined by an underscore. */
  function InstanceId(functionId: string, taskName: string): string {
    functionId + "_" + taskName
  }

  /** The status lookup of an instance id: its runtime status, or null when there is none. */
  function GetStatus(instances: InstanceTable, id: string): Option<RuntimeStatus> {
    if id in instances then Some(instances[id].RuntimeStatus) else None
  }

  /** The admission test shared by both triggers. */
  predicate MayStartNew(existing: Option<RuntimeStatus>) {
    || existing.None?
    || existing.value == Completed
    || existing.value == Failed
    || existing.value == Terminated
  }

  /** Starting a new orchestration under an id: the instance is (re)created as pending. */
  function StartNew(instances: InstanceTable, orchestrator: Orchestrator, id: string, input: string): InstanceTable {
    instances[id := Instance(orchestrator, input, Pending)]
  }

  /** `StartWatchdogTrigger`. */
  function StartWatchdogTrigger(instances: InstanceTable): (r: StarterResult)
    ensures var id := "start-watchdog_testTaskId";
            && (r.response == OkObject("Watchdog started") <==> MayStartNew(GetStatus(instances, id)))
            && (r.response.OkObject? ==> r.instances == instances[id := Instance(CleanAndRunScrapingWatchdog, "testTaskId", Pending)])
            && (!r.response.OkObject? ==> r.response == BadRequestObject("Watchdog already started") && r.instances == instances)
  {
    var id := InstanceId(WatchdogScrapingFunctionId, TaskName);
    assert id == "start-watchdog_testTaskId";
    if MayStartNew(GetStatus(instances, id)) then
      StarterResult(StartNew(instances, CleanAndRunScrapingWatchdog, id, TaskName), OkObject("Watchdog started"))
    else
      StarterResult(instances, BadRequestObject("Watchdog already started"))
  }

  /** `StopWatchdogTrigger`. */
  function StopWatchdogTrigger(instances: InstanceTable): (r: StarterResult)
    ensures var id := "stop-watchdog_testTaskId";
            && (r.response == OkObject("Watchdog stoping") <==> MayStartNew(GetStatus(instances, id)))
            && (r.response.OkObject? ==> r.instances == instances[id := Instance(StopWatchdog, "testTaskId", Pending)])
            && (!r.response.OkObject? ==> r.response == BadRequestObject("Watchdog already stoping") && r.instances == instances)
  {
    var id := InstanceId(StopWatchdogScrapingFunctionId, TaskName);
    assert id == "stop-watchdog_testTaskId";
    if MayStartNew(GetStatus(instances, id)) then
      StarterResult(StartNew(instances, StopWatchdog, id, TaskName), OkObject("Watchdog stoping"))
    else
      StarterResult(instances, BadRequestObject("Watchdog already stoping"))
  }

  /** A new instance is admitted exactly when none exists or the existing one completed, failed or was terminated. */
  lemma AdmissionIff(existing: Option<RuntimeStatus>)
    ensures MayStartNew(existing) <==>
            existing.None? || existing.value in {Completed, Failed, Terminated}
    ensures existing.Some? && existing.value in {Unknown, Running, ContinuedAsNew, Canceled, Pending, Suspended}
            ==> !MayStartNew(existing)
  {
  }

  /** The two triggers and the watchdog sub-orchestration use three different instance ids. */
  lemma InstanceIdsDistinct()
    ensures InstanceId(WatchdogScrapingFunctionId, TaskName) == "start-watchdog_testTaskId"
    ensures InstanceId(StopWatchdogScrapingFunctionId, TaskName) == "stop-watchdog_testTaskId"
    ensures "start-watchdog_testTaskId" != "stop-watchdog_testTaskId"
    ensures "start-watchdog_testTaskId:wd" != "start-watchdog_testTaskId"
    ensures "start-watchdog_testTaskId:wd" != "stop-watchdog_testTaskId"
  {
    assert "start-watchdog_testTaskId"[2] != "stop-watchdog_testTaskId"[2];
    assert |"start-watchdog_testTaskId:wd"| != |"start-watchdog_testTaskId"|;
  }

  /** While the watchdog instance has not finished, a start request is refused and changes nothing. */
  lemma StartWhileLiveRejected(instances: InstanceTable)
    requires !MayStartNew(GetStatus(instances, "start-watchdog_testTaskId"))
    ensures StartWatchdogTrigger(instances) == StarterResult(instances, BadRequestObject("Watchdog already started"))
  {
  }

  /** `n` start requests with the instance table as the previous requests left it; the number admitted. */
  function StartRepeatedly(instances: InstanceTable, n: nat): (InstanceTable, nat)
    decreases n
  {
    if n == 0 then (instances, 0)
    else
      var r := StartWatchdogTrigger(instances);
      var rest := StartRepeatedly(r.instances, n - 1);
      (rest.0, rest.1 + if r.response.OkObject? then 1 else 0)
  }

  /** Against a live watchdog instance, no number of start requests admits any or changes the table. */
  lemma {:induction false} RepeatedStartsWhileLive(instances: InstanceTable, n: nat)
    requires !MayStartNew(GetStatus(instances, "start-watchdog_testTaskId"))
    ensures StartRepeatedly(instances, n) == (instances, 0)
    decreases n
  {
    if n > 0 {
      StartWhileLiveRejected(instances);
      RepeatedStartsWhileLive(instances, n - 1);
    }
  }

  /**
   * Requests repeated before the first watchdog instance has finished start
   * it at most once: the instance a start creates is pending, so every later
   * request is refused.
   */
  lemma {:induction false} RepeatedStartsAdmitAtMostOnce(instances: InstanceTable, n: nat)
    ensures StartRepeatedly(instances, n).1 <= 1
    ensures StartRepeatedly(instances, n).1 == 1 ==>
              StartRepeatedly(instances, n).0
              == instances["start-watchdog_testTaskId" := Instance(CleanAndRunScrapingWatchdog, "testTaskId", Pending)]
  {
    if n > 0 {
      var r := StartWatchdogTrigger(instances);
      if r.response.OkObject? {
        RepeatedStartsWhileLive(r.instances, n - 1);
      } else {
        RepeatedStartsAdmitAtMostOnce(instances, n - 1);
      }
    }
  }

  /** The stop trigger's answer depends only on the stop instance, never on the watchdog's own instance. */
  lemma StopIgnoresWatchdogInstance(instances: InstanceTable, watchdog: Option<Instance>)
    ensures var changed := if watchdog.Some? then instances["start-watchdog_testTaskId" := watchdog.value]
                           else instances - {"start-watchdog_testTaskId"};
            StopWatchdogTrigger(changed).response == StopWatchdogTrigger(instances).response
  {
    InstanceIdsDistinct();
  }
}
