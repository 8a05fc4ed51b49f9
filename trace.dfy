/**
 * What an orchestration does that an observer can see, in order: status
 * publications, activity calls, changes to the cancellation tokens and the
 * start of a sub-orchestration; and how a run ends.
 */
module Trace {
  import opened Status

  /** The activity functions the orchestrations call. */
  datatype Activity =
    | CleanupPool
    | StartPool
    | StopPool
    | GetNextResearchForExecution
    | CancelExecutingTask
    | SetExecutingTaskDone
    | ExecuteTaskActivity

  /** A call of an activity function with its one argument. */
  datatype Call = Call(activity: Activity, arg: string)

  datatype Event =
    | Publish(status: StatusSnapshot)                   // SetCustomStatus
    | Invoke(call: Call)                                // CallActivityAsync
    | ArmToken(pool: string)                            // TryAdd / TryReset on the pool's token
    | CancelToken(pool: string)                         // Cancel on the pool's token
    | StartSubOrchestration(instanceId: string, input: string)  // CallSubOrchestratorAsync(RunTaskWatchdog, ...)

  /** How a run of an orchestrator function ends. */
  datatype Exit = Return | ContinueAsNew(input: string)

  /** The statuses published in a trace, in order. */
  function Published(t: seq<Event>): (r: seq<StatusSnapshot>)
    ensures |r| <= |t|
  {
    if t == [] then []
    else (if t[0].Publish? then [t[0].status] else []) + Published(t[1..])
  }

  /** The activity calls made in a trace, in order. */
  function Calls(t: seq<Event>): (r: seq<Call>)
    ensures |r| <= |t|
  {
    if t == [] then []
    else (if t[0].Invoke? then [t[0].call] else []) + Calls(t[1..])
  }

  /** How many of `calls` go to `activity`. */
  function CountOf(calls: seq<Call>, activity: Activity): (n: nat)
    ensures n <= |calls|
  {
    if calls == [] then 0
    else (if calls[0].activity == activity then 1 else 0) + CountOf(calls[1..], activity)
  }

  lemma {:induction false} PublishedAppend(a: seq<Event>, b: seq<Event>)
    ensures Published(a + b) == Published(a) + Published(b)
  {
    if a == [] {
      assert a + b == b;
    } else {
      var head := if a[0].Publish? then [a[0].status] else [];
      assert (a + b)[0] == a[0];
      assert (a + b)[1..] == a[1..] + b;
      assert Published(a + b) == head + Published(a[1..] + b);
      PublishedAppend(a[1..], b);
      assert head + (Published(a[1..]) + Published(b)) == (head + Published(a[1..])) + Published(b);
    }
  }

  lemma {:induction false} CallsAppend(a: seq<Event>, b: seq<Event>)
    ensures Calls(a + b) == Calls(a) + Calls(b)
  {
    if a == [] {
      assert a + b == b;
    } else {
      var head := if a[0].Invoke? then [a[0].call] else [];
      assert (a + b)[0] == a[0];
      assert (a + b)[1..] == a[1..] + b;
      assert Calls(a + b) == head + Calls(a[1..] + b);
      CallsAppend(a[1..], b);
      assert head + (Calls(a[1..]) + Calls(b)) == (head + Calls(a[1..])) + Calls(b);
    }
  }

  lemma {:induction false} CountOfAppend(a: seq<Call>, b: seq<Call>, activity: Activity)
    ensures CountOf(a + b, activity) == CountOf(a, activity) + CountOf(b, activity)
  {
    if a == [] {
      assert a + b == b;
    } else {
      assert (a + b)[1..] == a[1..] + b;
      CountOfAppend(a[1..], b, activity);
    }
  }

  /** How many of three calls go to `activity`. */
  lemma CountOfThree(x: Call, y: Call, z: Call, activity: Activity)
    ensures CountOf([x, y, z], activity)
            == (if x.activity == activity then 1 else 0) + (if y.activity == activity then 1 else 0)
               + (if z.activity == activity then 1 else 0)
  {
    assert [z][1..] == [];
    assert CountOf([z], activity) == (if z.activity == activity then 1 else 0);
    assert [y, z][1..] == [z];
    assert CountOf([y, z], activity) == (if y.activity == activity then 1 else 0) + CountOf([z], activity);
    assert [x, y, z][1..] == [y, z];
  }

  /** Both views of a trace grown by one event. */
  lemma ViewsSnoc(t: seq<Event>, e: Event)
    ensures Published(t + [e]) == Published(t) + (if e.Publish? then [e.status] else [])
    ensures Calls(t + [e]) == Calls(t) + (if e.Invoke? then [e.call] else [])
  {
    PublishedAppend(t, [e]);
    CallsAppend(t, [e]);
    assert [e][1..] == [];
  }
}
