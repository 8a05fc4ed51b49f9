/**
 * The watchdog's unbounded loop: each run that ends with
 * `ContinueAsNew(poolName)` is followed by a fresh run with the same input.
 * A chain of generations strings the runs together until one returns.
 */
module Continuation {
  import opened Wrappers
  import opened Status
  import opened Trace
  import opened Orchestrations

  /** What the substrate supplies to one generation. */
  datatype Generation = Generation(fetched: Option<TaskExecution>, delay: Race, interval: Race, now: int)

  function RunOf(pool: string, g: Generation): RunResult {
    RunSpec(pool, g.fetched, g.delay, g.interval, g.now)
  }

  /**
   * The generations of the watchdog of `pool` run one after the other; the
   * chain stops at the first run that returns. With no generation left the
   * chain is still about to continue as new with `pool`.
   */
  function Chain(pool: string, gens: seq<Generation>): (r: RunResult)
    ensures r.exit == Return || r.exit == ContinueAsNew(pool)
    decreases |gens|
  {
    if gens == [] then RunResult([], ContinueAsNew(pool))
    else
      var first := RunOf(pool, gens[0]);
      if first.exit == Return then first
      else
        var rest := Chain(pool, gens[1..]);
        RunResult(first.trace + rest.trace, rest.exit)
  }

  /**
   * How many generations of `gens` actually run: all of them up to and
   * including the first that returns.
   */
  function GenerationsRun(pool: string, gens: seq<Generation>): (n: nat)
    ensures n <= |gens|
    ensures gens != [] ==> n >= 1
    decreases |gens|
  {
    if gens == [] then 0
    else if RunOf(pool, gens[0]).exit == Return then 1
    else 1 + GenerationsRun(pool, gens[1..])
  }

  /** A chain returns exactly when some generation returned, and the generations run are exactly those up to it. */
  lemma {:induction false} GenerationsRunUntilReturn(pool: string, gens: seq<Generation>)
    ensures var n := GenerationsRun(pool, gens);
            && (Chain(pool, gens).exit == Return <==> n >= 1 && RunOf(pool, gens[n - 1]).exit == Return)
            && forall i :: 0 <= i < n - 1 ==> RunOf(pool, gens[i]).exit != Return
    decreases |gens|
  {
    if gens != [] && RunOf(pool, gens[0]).exit != Return {
      var rest := gens[1..];
      GenerationsRunUntilReturn(pool, rest);
      var n := GenerationsRun(pool, gens);
      assert n == 1 + GenerationsRun(pool, rest);
      if n >= 2 { assert gens[n - 1] == rest[n - 2]; }
      forall i | 0 <= i < n - 1 ensures RunOf(pool, gens[i]).exit != Return {
        if i > 0 { assert gens[i] == rest[i - 1]; }
      }
    }
  }

  /**
   * However many generations run, the chain always carries the same pool
   * name, and every status it publishes names that pool and is not in error.
   */
  lemma {:induction false} ChainKeepsPool(pool: string, gens: seq<Generation>)
    ensures var r := Chain(pool, gens);
            && (r.exit == Return || r.exit == ContinueAsNew(pool))
            && forall i :: 0 <= i < |Published(r.trace)| ==>
                 Published(r.trace)[i].PoolName == pool && !Published(r.trace)[i].InError
    decreases |gens|
  {
    if gens != [] {
      var g := gens[0];
      RunExit(pool, g.fetched, g.delay, g.interval, g.now);
      NeverInError(pool, g.fetched, g.delay, g.interval, g.now);
      if RunOf(pool, g).exit != Return {
        ChainKeepsPool(pool, gens[1..]);
        PublishedAppend(RunOf(pool, g).trace, Chain(pool, gens[1..]).trace);
      }
    }
  }

  /**
   * Over the whole chain every execution is followed by a done report, so
   * the two counts agree; CancelExecutingTask is called at most once, and only
   * by the run that ends the chain; each generation that runs fetches exactly
   * one task, and on a live chain every generation has run.
   */
  lemma {:induction false} ChainCounts(pool: string, gens: seq<Generation>)
    ensures var r := Chain(pool, gens);
            var calls := Calls(r.trace);
            && CountOf(calls, ExecuteTaskActivity) == CountOf(calls, SetExecutingTaskDone)
            && CountOf(calls, CancelExecutingTask) <= 1
            && (CountOf(calls, CancelExecutingTask) == 1 ==> r.exit == Return)
            && CountOf(calls, GetNextResearchForExecution) == GenerationsRun(pool, gens)
            && (r.exit.ContinueAsNew? ==> GenerationsRun(pool, gens) == |gens|)
    decreases |gens|
  {
    if gens != [] {
      var g := gens[0];
      RunCounts(pool, g.fetched, g.delay, g.interval, g.now);
      var first := RunOf(pool, g);
      if first.exit != Return {
        var rest := Chain(pool, gens[1..]);
        ChainCounts(pool, gens[1..]);
        CallsAppend(first.trace, rest.trace);
        forall a: Activity
          ensures CountOf(Calls(first.trace + rest.trace), a) == CountOf(Calls(first.trace), a) + CountOf(Calls(rest.trace), a)
        {
          CountOfAppend(Calls(first.trace), Calls(rest.trace), a);
        }
      }
    }
  }

  /** A chain that is still going has not been cancelled: every generation executed its task and waited out its interval. */
  lemma {:induction false} LiveChainExecutedEveryGeneration(pool: string, gens: seq<Generation>)
    requires Chain(pool, gens).exit.ContinueAsNew?
    ensures forall i :: 0 <= i < |gens| ==> Executes(gens[i].fetched, gens[i].delay) && gens[i].interval == Elapsed
    decreases |gens|
  {
    if gens != [] {
      var g := gens[0];
      RunExit(pool, g.fetched, g.delay, g.interval, g.now);
      LiveChainExecutedEveryGeneration(pool, gens[1..]);
      forall i | 0 <= i < |gens| ensures Executes(gens[i].fetched, gens[i].delay) && gens[i].interval == Elapsed {
        if i > 0 { assert gens[i] == gens[1..][i - 1]; }
      }
    }
  }
}
