/**
 * The static `tokens` dictionary of the orchestrations: one
 * CancellationTokenSource per pool, represented by whether cancellation has
 * been requested on it.
 */
module Tokens {
  import opened DotNet

  /** Pool name to "cancellation requested". */
  type Registry = map<string, bool>

  /**
   * The registry after the watchdog start-up arms `pool`: an absent pool gets
   * a fresh, uncancelled source (`TryAdd`); a present one is `TryReset`, which
   * cannot undo a requested cancellation.
   */
  function Armed(m: Registry, pool: string): (r: Registry)
    ensures r.Keys == m.Keys + {pool}
    ensures pool !in m ==> !r[pool]
    ensures pool in m ==> r[pool] == m[pool]
    ensures forall p :: p in m && p != pool ==> r[p] == m[p]
  {
    if pool !in m then m[pool := false]
    else m[pool := TryReset(m[pool]).1]
  }

  /**
   * The registry after the stop orchestration's guarded `Cancel`: only a
   * first (non-replayed) execution cancels, and only a source that exists.
   */
  function Stopped(m: Registry, pool: string, isReplaying: bool): (r: Registry)
    ensures r.Keys == m.Keys
    ensures pool in m && !isReplaying ==> r[pool]
    ensures forall p :: p in m && (p != pool || isReplaying) ==> r[p] == m[p]
  {
    if !isReplaying && pool in m then m[pool := true] else m
  }

  /** The shared registry object. */
  class TokenRegistry {
    var tokens: Registry

    constructor ()
      ensures tokens == map[]
    {
      tokens := map[];
    }

    /** Arms `pool` in place: an absent pool gets a fresh uncancelled source; a present one is reset, which fails on a cancelled source. */
    method Arm(pool: string)
      modifies this
      ensures tokens == Armed(old(tokens), pool)
    {
      if pool !in tokens {
        tokens := tokens[pool := false];
      } else {
        var (_, cancelled) := TryReset(tokens[pool]);
        tokens := tokens[pool := cancelled];
      }
    }

    /** Cancels the pool's source in place, but only on a first (non-replayed) execution and only if the pool has a source. */
    method Stop(pool: string, isReplaying: bool)
      modifies this
      ensures tokens == Stopped(old(tokens), pool, isReplaying)
    {
      if !isReplaying && pool in tokens {
        tokens := tokens[pool := true];
      }
    }
  }

  /** A stop followed by a restart of the same pool leaves its token cancelled. */
  lemma StopThenRestartStaysCancelled(m: Registry, pool: string)
    ensures var r := Armed(Stopped(Armed(m, pool), pool, false), pool);
            pool in r && r[pool]
  {
  }

  /** A replayed stop and a stop of an unknown pool change nothing. */
  lemma StopWithoutEffect(m: Registry, pool: string, isReplaying: bool)
    requires isReplaying || pool !in m
    ensures Stopped(m, pool, isReplaying) == m
  {
  }

  /** Arming twice is the same as arming once. */
  lemma ArmIdempotent(m: Registry, pool: string)
    ensures Armed(Armed(m, pool), pool) == Armed(m, pool)
  {
  }

  /** One operation on the registry, as issued by a start-up or a stop orchestration. */
  datatype Op = ArmOp(pool: string) | StopOp(pool: string, isReplaying: bool)

  function Step(m: Registry, op: Op): Registry {
    match op
    case ArmOp(pool) => Armed(m, pool)
    case StopOp(pool, isReplaying) => Stopped(m, pool, isReplaying)
  }

  /** The registry after a history of operations, oldest first. */
  function Apply(m: Registry, ops: seq<Op>): Registry
    decreases |ops|
  {
    if ops == [] then m else Apply(Step(m, ops[0]), ops[1..])
  }

  /** The pools armed somewhere in `ops`. */
  function ArmedPools(ops: seq<Op>): set<string>
    decreases |ops|
  {
    if ops == [] then {}
    else (if ops[0].ArmOp? then {ops[0].pool} else {}) + ArmedPools(ops[1..])
  }

  /** A pool is among the armed pools exactly when some operation of the history arms it. */
  lemma {:induction false} ArmedPoolsMembers(ops: seq<Op>, p: string)
    ensures p in ArmedPools(ops) <==> exists i :: 0 <= i < |ops| && ops[i] == ArmOp(p)
    decreases |ops|
  {
    if ops != [] {
      ArmedPoolsMembers(ops[1..], p);
      if p in ArmedPools(ops[1..]) {
        var i :| 0 <= i < |ops[1..]| && ops[1..][i] == ArmOp(p);
        assert ops[i + 1] == ArmOp(p);
      }
      if exists i :: 0 <= i < |ops| && ops[i] == ArmOp(p) {
        var i :| 0 <= i < |ops| && ops[i] == ArmOp(p);
        if i > 0 { assert ops[1..][i - 1] == ArmOp(p); }
      }
    }
  }

  /** Once cancellation has been requested for a pool, no history of arms and stops undoes it. */
  lemma {:induction false} CancelledStaysCancelled(m: Registry, ops: seq<Op>, pool: string)
    requires pool in m && m[pool]
    ensures pool in Apply(m, ops) && Apply(m, ops)[pool]
    decreases |ops|
  {
    if ops != [] {
      CancelledStaysCancelled(Step(m, ops[0]), ops[1..], pool);
    }
  }

  /** Entries are created only by arming and never removed. */
  lemma {:induction false} KeysOfHistory(m: Registry, ops: seq<Op>)
    ensures Apply(m, ops).Keys == m.Keys + ArmedPools(ops)
    decreases |ops|
  {
    if ops != [] {
      KeysOfHistory(Step(m, ops[0]), ops[1..]);
    }
  }

  /** Operations on other pools never touch a pool's entry. */
  lemma {:induction false} OtherPoolsIsolated(m: Registry, ops: seq<Op>, pool: string)
    requires forall i :: 0 <= i < |ops| ==> ops[i].pool != pool
    ensures pool in Apply(m, ops) <==> pool in m
    ensures pool in m ==> Apply(m, ops)[pool] == m[pool]
    decreases |ops|
  {
    if ops != [] {
      OtherPoolsIsolated(Step(m, ops[0]), ops[1..], pool);
    }
  }
}
