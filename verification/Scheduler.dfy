/** kern/sched.c, and the status changes of kern/env.c and kern/trap.c, in place. */
module Scheduler {
  import opened Basics
  import opened EnvIds
  import opened EnvState
  import S = Sched

  class Processors {
    var status: seq<Status>            // envs[].env_status
    var cpuEnv: seq<Option<nat>>       // cpus[].cpu_env

    function State(): S.Machine
      reads this
    {
      S.Machine(status, cpuEnv)
    }

    method EnvRun(c: nat, e: nat)
      requires S.Formed(State()) && c < |cpuEnv| && e < NENV
      modifies this
      ensures State() == S.EnvRun(old(State()), c, e)
    {
      if cpuEnv[c].Some? && status[cpuEnv[c].value] == ENV_RUNNING {
        status := status[cpuEnv[c].value := ENV_RUNNABLE];
      }
      cpuEnv := cpuEnv[c := Some(e)];
      status := status[e := ENV_RUNNING];
    }

    /** True when it enters the kernel monitor, for good. */
    method SchedYield(c: nat) returns (monitor: bool)
      requires S.Formed(State()) && c < |cpuEnv|
      modifies this
      ensures S.Exit(State(), monitor) == S.Yield(old(State()), c)
    {
      hide S.SlotAt, S.NothingLeft;
      var idle := cpuEnv[c];
      var start := if idle.Some? then idle.value else 0;
      var i, first := start, true;
      WrapsOnce(start, 0);
      ghost var k := 0;
      while i != start || first
        invariant unchanged(this) && k <= NENV && i == S.SlotAt(start, k) && (first <==> k == 0)
        invariant S.PickFrom(status, start, k) == S.Pick(status, start)
        decreases NENV - k
      {
        WrapsOnce(start, k);
        if status[i] == ENV_RUNNABLE {
          EnvRun(c, i);
          return false;
        }
        i := (i + 1) % NENV;
        first := false;
        k := k + 1;
      }
      WrapsOnce(start, k);
      if idle.Some? && status[idle.value] == ENV_RUNNING {
        EnvRun(c, idle.value);
        return false;
      }
      monitor := SchedHalt(c);
    }

    method SchedHalt(c: nat) returns (monitor: bool)
      requires S.Formed(State()) && c < |cpuEnv|
      modifies this
      ensures monitor == S.NothingLeft(old(State()))
      ensures State() == if monitor then old(State()) else S.Machine(old(status), old(cpuEnv)[c := None])
    {
      var i := 0;
      while i < NENV
        invariant 0 <= i <= NENV && unchanged(this)
        invariant forall e | 0 <= e < i :: status[e] != ENV_RUNNABLE && status[e] != ENV_RUNNING && status[e] != ENV_DYING
      {
        if status[i] == ENV_RUNNABLE || status[i] == ENV_RUNNING || status[i] == ENV_DYING {
          break;
        }
        i := i + 1;
      }
      if i == NENV {
        return true;
      }
      cpuEnv := cpuEnv[c := None];
      return false;
    }

    /** env_destroy, with the sched_yield at its end: gone is whether it does not return. */
    method EnvDestroy(c: nat, e: nat) returns (gone: bool, monitor: bool)
      requires S.Formed(State()) && c < |cpuEnv| && e < NENV && cpuEnv[c].Some?
      modifies this
      ensures gone == (old(cpuEnv)[c] == Some(e))
      ensures var m := old(State());
              if gone then
                S.Exit(State(), monitor) == S.Yield(S.Machine(m.status[e := ENV_FREE], m.cpus[c := None]), c)
              else !monitor && State() == m.(status := m.status[e := if m.status[e] == ENV_RUNNING then ENV_DYING else ENV_FREE])
    {
      if status[e] == ENV_RUNNING && cpuEnv[c] != Some(e) {
        status := status[e := ENV_DYING];
        return false, false;
      }
      status := status[e := ENV_FREE];
      if cpuEnv[c] == Some(e) {
        cpuEnv := cpuEnv[c := None];
        monitor := SchedYield(c);
        return true, monitor;
      }
      return false, false;
    }

    /** trap, on processor c. */
    method Trap(c: nat, call: S.Call) returns (monitor: bool)
      requires S.Formed(State()) && c < |cpuEnv| && S.Possible(State(), call)
      modifies this
      ensures S.Exit(State(), monitor) == S.Trap(old(State()), c, call)
    {
      if cpuEnv[c].Some? {
        if status[cpuEnv[c].value] == ENV_DYING {
          status := status[cpuEnv[c].value := ENV_FREE];
          cpuEnv := cpuEnv[c := None];
          monitor := SchedYield(c);
          return;
        }
        match call
        case SetStatus(e, st) => status := status[e := st];
        case Destroy(e) =>
          var gone;
          gone, monitor := EnvDestroy(c, e);
          if gone {
            return;
          }
        case Exofork(e) => status := status[e := ENV_NOT_RUNNABLE];
        case SysYield =>
          monitor := SchedYield(c);
          return;
        case Other =>
      }
      if cpuEnv[c].Some? && status[cpuEnv[c].value] == ENV_RUNNING {
        EnvRun(c, cpuEnv[c].value);
        return false;
      }
      monitor := SchedYield(c);
    }
  }

  lemma WrapsOnce(start: nat, k: nat)
    requires start < NENV && k <= NENV
    ensures S.SlotAt(start, k) == start <==> k == 0 || k == NENV
    ensures (S.SlotAt(start, k) + 1) % NENV == S.SlotAt(start, k + 1)
  {
    assert S.SlotAt(start, k) == if start + k < NENV then start + k else start + k - NENV;
  }
}
