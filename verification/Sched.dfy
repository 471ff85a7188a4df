/** Who runs where: the round-robin scheduler (kern/sched.c) and the parts of env_run,
    env_destroy (kern/env.c) and trap (kern/trap.c) that change an environment's status or a
    processor's current environment. Each kernel entry is one step (the big kernel lock). */
module Sched {
  import opened Basics
  import opened EnvIds
  import opened EnvState

  /** status: env_status of every slot; cpus: cpu_env of every processor. */
  datatype Machine = Machine(status: seq<Status>, cpus: seq<Option<nat>>)

  predicate Formed(m: Machine) {
    |m.status| == NENV && forall c | 0 <= c < |m.cpus| :: m.cpus[c].Some? ==> m.cpus[c].value < NENV
  }

  predicate OnCpu(m: Machine, e: nat, c: nat) {
    c < |m.cpus| && m.cpus[c] == Some(e)
  }

  ghost predicate OnAny(m: Machine, e: nat) { exists c: nat :: OnCpu(m, e, c) }

  /** An environment is RUNNING or DYING if and only if it is on a processor, and then on one
      only. */
  ghost predicate Consistent(m: Machine) {
    && Formed(m)
    && (forall e: nat | e < NENV :: m.status[e] in {ENV_RUNNING, ENV_DYING} <==> OnAny(m, e))
    && (forall e: nat, c: nat, d: nat | OnCpu(m, e, c) && OnCpu(m, e, d) :: c == d)
  }

  // ---- The scan ----

  /** How many slots after `start` slot e comes in the circular scan. */
  function Distance(start: nat, e: nat): (d: nat)
    ensures start < NENV && e < NENV ==> d < NENV && (start + d) % NENV == e && (d == 0 <==> start == e)
  {
    if start < NENV && e < NENV then (if e >= start then e - start else e + NENV - start) else 0
  }

  /** The k-th slot of the circular scan. */
  function SlotAt(start: nat, k: nat): (i: nat)
    ensures i < NENV
  {
    (start + k) % NENV
  }

  /** The first runnable slot, looking from the k-th after start. */
  function PickFrom(status: seq<Status>, start: nat, k: nat): Option<nat>
    requires |status| == NENV && start < NENV
    decreases NENV - k
  {
    if k >= NENV then None
    else if status[SlotAt(start, k)] == ENV_RUNNABLE then Some(SlotAt(start, k))
    else PickFrom(status, start, k + 1)
  }

  function Pick(status: seq<Status>, start: nat): Option<nat>
    requires |status| == NENV && start < NENV
  {
    PickFrom(status, start, 0)
  }

  lemma {:induction false} PickFromIsFirst(status: seq<Status>, start: nat, k: nat)
    requires |status| == NENV && start < NENV && k <= NENV
    ensures match PickFrom(status, start, k)
            case None => forall f: nat | f < NENV && Distance(start, f) >= k :: status[f] != ENV_RUNNABLE
            case Some(e) =>
              && e < NENV && status[e] == ENV_RUNNABLE && Distance(start, e) >= k
              && forall f: nat | f < NENV && k <= Distance(start, f) < Distance(start, e) :: status[f] != ENV_RUNNABLE
    decreases NENV - k
  {
    if k < NENV {
      var e := (start + k) % NENV;
      assert Distance(start, e) == k;
      PickFromIsFirst(status, start, k + 1);
      forall f: nat | f < NENV && Distance(start, f) == k ensures f == e {
        assert (start + Distance(start, f)) % NENV == f;
      }
    }
  }

  /** The scan finds the runnable environment that comes first, the current one's slot included,
      and finds one whenever there is one: it visits every slot. */
  lemma PickIsFirst(status: seq<Status>, start: nat)
    requires |status| == NENV && start < NENV
    ensures match Pick(status, start)
            case None => forall f: nat | f < NENV :: status[f] != ENV_RUNNABLE
            case Some(e) =>
              && e < NENV && status[e] == ENV_RUNNABLE
              && forall f: nat | f < NENV && status[f] == ENV_RUNNABLE :: Distance(start, e) <= Distance(start, f)
  {
    PickFromIsFirst(status, start, 0);
  }

  // ---- Steps ----

  function EnvRun(m: Machine, c: nat, e: nat): (t: Machine)
    requires Formed(m) && c < |m.cpus| && e < NENV
    ensures |t.cpus| == |m.cpus|
  {
    var cur := m.cpus[c];
    var status := if cur.Some? && m.status[cur.value] == ENV_RUNNING then m.status[cur.value := ENV_RUNNABLE] else m.status;
    Machine(status[e := ENV_RUNNING], m.cpus[c := Some(e)])
  }

  /** Nothing to run, here or on another processor. */
  predicate NothingLeft(m: Machine) {
    forall e | 0 <= e < |m.status| :: m.status[e] != ENV_RUNNABLE && m.status[e] != ENV_RUNNING && m.status[e] != ENV_DYING
  }

  /** How a kernel entry ends: back to user mode or halted, or for good in the kernel monitor. */
  datatype Exit = Exit(m: Machine, monitor: bool)

  /** sched_yield with sched_halt. */
  function Yield(m: Machine, c: nat): (t: Exit)
    requires Formed(m) && c < |m.cpus|
    ensures t.monitor ==> NothingLeft(m) && t.m == m
    ensures |t.m.cpus| == |m.cpus|
  {
    var idle := m.cpus[c];
    match Pick(m.status, if idle.Some? then idle.value else 0)
    case Some(e) =>
      PickIsFirst(m.status, if idle.Some? then idle.value else 0);
      Exit(EnvRun(m, c, e), false)
    case None =>
      if idle.Some? && m.status[idle.value] == ENV_RUNNING then Exit(EnvRun(m, c, idle.value), false)
      else if NothingLeft(m) then Exit(m, true)
      else Exit(m.(cpus := m.cpus[c := None]), false)
  }

  /** What an environment may ask for. Exofork names the slot that env_alloc takes; Other is any
      call or fault that changes no status. */
  datatype Call = SetStatus(e: nat, status: Status) | Destroy(e: nat) | Exofork(e: nat) | SysYield | Other

  predicate Possible(m: Machine, call: Call)
    requires Formed(m)
  {
    match call
    case SetStatus(e, status) => e < NENV && m.status[e] != ENV_FREE && (status == ENV_RUNNABLE || status == ENV_NOT_RUNNABLE)
    case Destroy(e) => e < NENV && m.status[e] != ENV_FREE
    case Exofork(e) => e < NENV && m.status[e] == ENV_FREE
    case _ => true
  }

  /** trap: the whole kernel entry on processor c, up to the return to user mode or the halt.
      A halted processor takes an interrupt and has no call. */
  function Trap(m: Machine, c: nat, call: Call): (t: Exit)
    requires Formed(m) && c < |m.cpus| && Possible(m, call)
  {
    var cur := m.cpus[c];
    if cur.None? then Yield(m, c)
    else if m.status[cur.value] == ENV_DYING then
      Yield(Machine(m.status[cur.value := ENV_FREE], m.cpus[c := None]), c)
    else
      match call
      case SetStatus(e, status) => Return(m.(status := m.status[e := status]), c)
      case Destroy(e) =>
        if m.status[e] == ENV_RUNNING && cur != Some(e) then Return(m.(status := m.status[e := ENV_DYING]), c)
        else if cur == Some(e) then Yield(Machine(m.status[e := ENV_FREE], m.cpus[c := None]), c)
        else Return(m.(status := m.status[e := ENV_FREE]), c)
      case Exofork(e) => Return(m.(status := m.status[e := ENV_NOT_RUNNABLE]), c)
      case SysYield => Yield(m, c)
      case Other => Return(m, c)
  }

  /** The end of trap: back to the current environment if it is RUNNING. */
  function Return(m: Machine, c: nat): Exit
    requires Formed(m) && c < |m.cpus|
  {
    var cur := m.cpus[c];
    if cur.Some? && m.status[cur.value] == ENV_RUNNING then Exit(EnvRun(m, c, cur.value), false) else Yield(m, c)
  }

  // ---- What every step keeps ----

  /** The state at a point inside the kernel on processor c: all is well but for the status of
      the current environment. */
  ghost predicate ConsistentBut(m: Machine, c: nat) {
    && Formed(m) && c < |m.cpus|
    && (forall e: nat | e < NENV && m.cpus[c] != Some(e) :: m.status[e] in {ENV_RUNNING, ENV_DYING} <==> OnAny(m, e))
    && (forall e: nat, c: nat, d: nat | OnCpu(m, e, c) && OnCpu(m, e, d) :: c == d)
    && (m.cpus[c].Some? ==> m.status[m.cpus[c].value] != ENV_DYING)
  }

  lemma RunKeeps(m: Machine, c: nat, e: nat)
    requires ConsistentBut(m, c) && e < NENV && (m.cpus[c] == Some(e) || m.status[e] == ENV_RUNNABLE)
    ensures Consistent(EnvRun(m, c, e))
  {
    var t := EnvRun(m, c, e);
    assert !(exists d: nat :: d != c && OnCpu(m, e, d)) by {
      assert m.cpus[c] == Some(e) ==> OnCpu(m, e, c);
      forall d: nat | d != c ensures !OnCpu(m, e, d) {
        assert OnCpu(m, e, d) ==> OnAny(m, e);
      }
    }
    forall f: nat, d: nat ensures OnCpu(t, f, d) <==> d < |t.cpus| && (if d == c then f == e else OnCpu(m, f, d)) {}
    forall f: nat | f < NENV ensures t.status[f] in {ENV_RUNNING, ENV_DYING} <==> OnAny(t, f) {
      RunStatus(m, c, e, f);
    }
  }

  lemma RunStatus(m: Machine, c: nat, e: nat, f: nat)
    requires ConsistentBut(m, c) && e < NENV && f < NENV && (m.cpus[c] == Some(e) || m.status[e] == ENV_RUNNABLE)
    ensures var t := EnvRun(m, c, e); t.status[f] in {ENV_RUNNING, ENV_DYING} <==> OnAny(t, f)
  {
    var t := EnvRun(m, c, e);
    assert OnCpu(t, e, c);
    if f != e {
      forall d: nat ensures OnCpu(t, f, d) <==> d != c && OnCpu(m, f, d) {}
      if m.cpus[c] == Some(f) {
        assert OnCpu(m, f, c);
        assert !OnAny(t, f);
      } else {
        assert OnAny(t, f) <==> OnAny(m, f);
      }
    }
  }

  lemma HaltKeeps(m: Machine, c: nat)
    requires ConsistentBut(m, c) && (m.cpus[c].Some? ==> m.status[m.cpus[c].value] != ENV_RUNNING)
    ensures Consistent(m.(cpus := m.cpus[c := None]))
  {
    var t := m.(cpus := m.cpus[c := None]);
    forall f: nat, d: nat ensures OnCpu(t, f, d) <==> d != c && OnCpu(m, f, d) {}
    forall f: nat | f < NENV ensures t.status[f] in {ENV_RUNNING, ENV_DYING} <==> OnAny(t, f) {
      if m.cpus[c] == Some(f) {
        assert OnCpu(m, f, c);
        assert !OnAny(t, f);
      } else {
        assert OnAny(t, f) <==> OnAny(m, f);
      }
    }
  }

  lemma YieldKeeps(m: Machine, c: nat)
    requires ConsistentBut(m, c)
    ensures !Yield(m, c).monitor ==> Consistent(Yield(m, c).m)
  {
    hide Consistent, NothingLeft;
    var idle := m.cpus[c];
    var start := if idle.Some? then idle.value else 0;
    PickIsFirst(m.status, start);
    var e := Pick(m.status, start);
    if e.Some? {
      RunKeeps(m, c, e.value);
    } else if idle.Some? && m.status[idle.value] == ENV_RUNNING {
      RunKeeps(m, c, idle.value);
    } else {
      HaltKeeps(m, c);
    }
  }

  lemma ReturnKeeps(m: Machine, c: nat)
    requires ConsistentBut(m, c)
    ensures !Return(m, c).monitor ==> Consistent(Return(m, c).m)
  {
    hide Consistent;
    var cur := m.cpus[c];
    if cur.Some? && m.status[cur.value] == ENV_RUNNING {
      RunKeeps(m, c, cur.value);
    } else {
      YieldKeeps(m, c);
    }
  }

  /** Giving a status to an environment that is on no processor, or is the current one. */
  lemma StatusSet(m: Machine, c: nat, e: nat, status: Status)
    requires Consistent(m) && c < |m.cpus| && e < NENV && status !in {ENV_RUNNING, ENV_DYING}
    requires m.cpus[c].Some? && m.status[m.cpus[c].value] != ENV_DYING
    requires m.cpus[c] == Some(e) || m.status[e] !in {ENV_RUNNING, ENV_DYING}
    ensures ConsistentBut(m.(status := m.status[e := status]), c)
  {
    SameCpus(m, m.(status := m.status[e := status]));
  }

  lemma SameCpus(m: Machine, t: Machine)
    requires t.cpus == m.cpus
    ensures forall f: nat, d: nat :: OnCpu(t, f, d) <==> OnCpu(m, f, d)
    ensures forall f: nat :: OnAny(t, f) <==> OnAny(m, f)
  {
    forall f: nat, d: nat ensures OnCpu(t, f, d) <==> OnCpu(m, f, d) {}
    forall f: nat ensures OnAny(t, f) <==> OnAny(m, f) {
      if OnAny(t, f) {
        var d: nat :| OnCpu(t, f, d);
        assert OnCpu(m, f, d);
      }
      if OnAny(m, f) {
        var d: nat :| OnCpu(m, f, d);
        assert OnCpu(t, f, d);
      }
    }
  }

  /** Freeing the current environment leaves the processor without one. */
  lemma CurrentFreed(m: Machine, c: nat)
    requires Consistent(m) && c < |m.cpus| && m.cpus[c].Some?
    ensures ConsistentBut(Machine(m.status[m.cpus[c].value := ENV_FREE], m.cpus[c := None]), c)
  {
    var e := m.cpus[c].value;
    var t := Machine(m.status[e := ENV_FREE], m.cpus[c := None]);
    assert OnCpu(m, e, c);
    forall f: nat, d: nat ensures OnCpu(t, f, d) <==> d != c && OnCpu(m, f, d) {}
    forall f: nat | f < NENV ensures t.status[f] in {ENV_RUNNING, ENV_DYING} <==> OnAny(t, f) {
      if f == e {
        assert !OnAny(t, f);
      } else {
        assert OnAny(t, f) <==> OnAny(m, f);
      }
    }
  }

  /** An environment elsewhere that is no longer RUNNING nor DYING. */
  lemma ElsewhereBroken(m: Machine, c: nat, e: nat, status: Status)
    requires Consistent(m) && c < |m.cpus| && e < NENV && status !in {ENV_RUNNING, ENV_DYING}
    requires m.cpus[c].Some? && m.cpus[c] != Some(e) && m.status[m.cpus[c].value] != ENV_DYING
    requires m.status[e] in {ENV_RUNNING, ENV_DYING}
    ensures var t := Return(m.(status := m.status[e := status]), c);
            !t.monitor && !Consistent(t.m)
  {
    var cur := m.cpus[c].value;
    assert OnCpu(m, cur, c) && OnAny(m, cur);
    var t := EnvRun(m.(status := m.status[e := status]), c, cur);
    assert OnAny(m, e);
    var d: nat :| OnCpu(m, e, d);
    assert OnCpu(t, e, d);
    assert e != cur && t.status[e] == status && OnAny(t, e);
  }

  /** Calls that respect the other processors: no status is set for an environment running or
      dying elsewhere, and no dying one is destroyed. */
  predicate Respectful(m: Machine, c: nat, call: Call)
    requires Formed(m) && c < |m.cpus| && Possible(m, call)
  {
    m.cpus[c].Some? && m.status[m.cpus[c].value] != ENV_DYING ==>
      match call
      case SetStatus(e, _) => m.cpus[c] == Some(e) || m.status[e] !in {ENV_RUNNING, ENV_DYING}
      case Destroy(e) => m.status[e] != ENV_DYING
      case _ => true
  }

  /** A kernel entry keeps statuses and processors consistent if and only if its call respects
      the other processors. */
  lemma TrapKeepsIff(m: Machine, c: nat, call: Call)
    requires Consistent(m) && c < |m.cpus| && Possible(m, call)
    ensures !Respectful(m, c, call) ==> !Trap(m, c, call).monitor
    ensures !Trap(m, c, call).monitor ==> (Consistent(Trap(m, c, call).m) <==> Respectful(m, c, call))
  {
    hide OnAny, Yield, Return;
    var cur := m.cpus[c];
    if cur.None? {
      YieldKeeps(m, c);
    } else {
      var u := Machine(m.status[cur.value := ENV_FREE], m.cpus[c := None]);
      CurrentFreed(m, c);
      YieldKeeps(u, c);
      if m.status[cur.value] != ENV_DYING {
        match call
        case SetStatus(e, status) =>
          if Respectful(m, c, call) {
            StatusSet(m, c, e, status);
            ReturnKeeps(m.(status := m.status[e := status]), c);
          } else {
            ElsewhereBroken(m, c, e, status);
          }
        case Destroy(e) => DestroyKeepsIff(m, c, e);
        case Exofork(e) =>
          StatusSet(m, c, e, ENV_NOT_RUNNABLE);
          ReturnKeeps(m.(status := m.status[e := ENV_NOT_RUNNABLE]), c);
        case SysYield => YieldKeeps(m, c);
        case Other => ReturnKeeps(m, c);
      }
    }
  }

  lemma DestroyKeepsIff(m: Machine, c: nat, e: nat)
    requires Consistent(m) && c < |m.cpus| && Possible(m, Call.Destroy(e))
    requires m.cpus[c].Some? && m.status[m.cpus[c].value] != ENV_DYING
    ensures var t := Trap(m, c, Call.Destroy(e));
            (m.status[e] == ENV_DYING ==> !t.monitor) && (!t.monitor ==> (Consistent(t.m) <==> m.status[e] != ENV_DYING))
  {
    hide OnAny, Yield, Return;
    var cur := m.cpus[c];
    assert OnCpu(m, cur.value, c);
    if cur == Some(e) {
      CurrentFreed(m, c);
      YieldKeeps(Machine(m.status[e := ENV_FREE], m.cpus[c := None]), c);
    } else if m.status[e] == ENV_RUNNING {
      var t := m.(status := m.status[e := ENV_DYING]);
      SameCpus(m, t);
      ReturnKeeps(t, c);
    } else if m.status[e] == ENV_DYING {
      ElsewhereBroken(m, c, e, ENV_FREE);
    } else {
      StatusSet(m, c, e, ENV_FREE);
      ReturnKeeps(m.(status := m.status[e := ENV_FREE]), c);
    }
  }

  /** With one processor every call is respectful. */
  lemma OneCpuIsRespectful(m: Machine, call: Call)
    requires Consistent(m) && |m.cpus| == 1 && Possible(m, call)
    ensures Respectful(m, 0, call)
  {
    if call.SetStatus? || call.Destroy? {
      assert m.status[call.e] in {ENV_RUNNING, ENV_DYING} <==> OnAny(m, call.e);
      assert forall d: nat :: OnCpu(m, call.e, d) ==> d == 0;
    }
  }

  /** In t processor c runs an environment that was runnable in m, no later in the scan than f. */
  predicate SwitchedTo(m: Machine, t: Machine, c: nat, f: nat) {
    && Formed(m) && Formed(t) && c < |m.cpus| == |t.cpus| && t.cpus[c].Some?
    && var e, start := t.cpus[c].value, if m.cpus[c].Some? then m.cpus[c].value else 0;
       && m.status[e] == ENV_RUNNABLE && t.status[e] == ENV_RUNNING && Distance(start, e) <= Distance(start, f)
       && (forall d | 0 <= d < |m.cpus| && d != c :: t.cpus[d] == m.cpus[d])
       && forall g | 0 <= g < NENV && g != e ::
            t.status[g] == if m.cpus[c] == Some(g) && m.status[g] == ENV_RUNNING then ENV_RUNNABLE else m.status[g]
  }

  /** sched_yield runs the first runnable environment after the current one, puts a RUNNING current
      one back among the runnable, and changes nothing else. */
  lemma YieldRunsFirst(m: Machine, c: nat, f: nat)
    requires Formed(m) && c < |m.cpus| && f < NENV && m.status[f] == ENV_RUNNABLE
    ensures !Yield(m, c).monitor && SwitchedTo(m, Yield(m, c).m, c, f)
  {
    PickIsFirst(m.status, if m.cpus[c].Some? then m.cpus[c].value else 0);
  }

  // ---- Runs ----

  datatype Entry = Entry(c: nat, call: Call)

  /** Kernel entries, one after the other, on any processors in any order; the run stops if the
      monitor takes over. */
  predicate Run(m: Machine, es: seq<Entry>)
    decreases |es|
  {
    es == [] ||
    (Formed(m) && es[0].c < |m.cpus| && Possible(m, es[0].call) && (|m.cpus| > 1 ==> Respectful(m, es[0].c, es[0].call))
     && var t := Trap(m, es[0].c, es[0].call); !t.monitor && Run(t.m, es[1..]))
  }

  function After(m: Machine, es: seq<Entry>): Machine
    requires Run(m, es)
    decreases |es|
  {
    if es == [] then m else After(Trap(m, es[0].c, es[0].call).m, es[1..])
  }

  lemma {:induction false} RunKeepsConsistent(m: Machine, es: seq<Entry>)
    requires Consistent(m) && Run(m, es)
    ensures Consistent(After(m, es)) && |After(m, es).cpus| == |m.cpus|
    decreases |es|
  {
    if es != [] {
      hide Consistent, Trap, Respectful;
      TrapKeepsIff(m, es[0].c, es[0].call);
      if |m.cpus| == 1 {
        OneCpuIsRespectful(m, es[0].call);
      }
      SameNumber(m, es[0].c, es[0].call);
      RunKeepsConsistent(Trap(m, es[0].c, es[0].call).m, es[1..]);
    }
  }

  lemma SameNumber(m: Machine, c: nat, call: Call)
    requires Formed(m) && c < |m.cpus| && Possible(m, call)
    ensures |Trap(m, c, call).m.cpus| == |m.cpus|
  {
  }

  /** Before the first environment runs. */
  lemma BootConsistent(m: Machine)
    requires |m.status| == NENV && (forall c | 0 <= c < |m.cpus| :: m.cpus[c] == None)
    requires forall e | 0 <= e < NENV :: m.status[e] in {ENV_FREE, ENV_RUNNABLE}
    ensures Consistent(m)
  {
    forall e: nat, c: nat ensures !OnCpu(m, e, c) {}
  }

  // ---- Bounded bypass ----

  /** One yield brings the scan closer to any environment that it does not choose. */
  lemma YieldComesCloser(status: seq<Status>, cur: nat, e: nat)
    requires |status| == NENV && cur < NENV && e < NENV && status[cur] != ENV_RUNNABLE && status[e] == ENV_RUNNABLE
    ensures Pick(status, cur).Some?
    ensures var p := Pick(status, cur).value; p < NENV && p != cur && Distance(p, e) < Distance(cur, e)
  {
    PickIsFirst(status, cur);
  }

  /** The call does not end, stop or wake the current environment. */
  predicate Steady(m: Machine, call: Call) {
    match call
    case SetStatus(e, _) => |m.cpus| > 0 && m.cpus[0] != Some(e)
    case Destroy(e) => |m.cpus| > 0 && m.cpus[0] != Some(e)
    case _ => true
  }

  /** A run on one processor in which e is RUNNABLE before and after every kernel entry, and so is
      never chosen, and no environment ends or stops while it is the current one. */
  predicate Waits(m: Machine, es: seq<Entry>, e: nat)
    requires Run(m, es)
    decreases |es|
  {
    && e < |m.status| && m.status[e] == ENV_RUNNABLE
    && (es == [] || (Steady(m, es[0].call) && Waits(Trap(m, es[0].c, es[0].call).m, es[1..], e)))
  }

  /** How often the processor was yielded, by sys_yield or a timer interrupt. */
  function YieldsIn(es: seq<Entry>): nat {
    if es == [] then 0 else (if es[0].call == SysYield then 1 else 0) + YieldsIn(es[1..])
  }

  /** What one entry does to the current environment of the one processor. */
  lemma SteadyStep(m: Machine, call: Call, e: nat)
    requires Consistent(m) && |m.cpus| == 1 && m.cpus[0].Some? && m.status[m.cpus[0].value] == ENV_RUNNING && Possible(m, call) && Steady(m, call)
    requires e < NENV && m.status[e] == ENV_RUNNABLE
    ensures !Trap(m, 0, call).monitor
    ensures var t := Trap(m, 0, call).m;
            && t.cpus[0].Some? && t.cpus[0].value < NENV && |t.status| == NENV && t.status[t.cpus[0].value] == ENV_RUNNING
            && if call == SysYield then t.status[e] == ENV_RUNNABLE ==> Distance(t.cpus[0].value, e) < Distance(m.cpus[0].value, e)
               else t.cpus == m.cpus
  {
    hide Consistent, Distance;
    ConsistentFormed(m);
    var cur := m.cpus[0].value;
    if call == SysYield {
      YieldComesCloser(m.status, cur, e);
      YieldRunsFirst(m, 0, e);
    }
  }

  lemma ConsistentFormed(m: Machine)
    requires Consistent(m)
    ensures Formed(m)
  {
  }

  /** An environment that stays runnable on one processor, while the others only yield to each
      other, is bypassed fewer times than there are slots between the current one and it: the
      processor cannot be yielded NENV - 1 times without choosing it. */
  lemma {:induction false} BoundedBypass(m: Machine, es: seq<Entry>, e: nat)
    requires Consistent(m) && |m.cpus| == 1 && m.cpus[0].Some? && m.status[m.cpus[0].value] == ENV_RUNNING
    requires Run(m, es) && e < NENV && Waits(m, es, e)
    ensures YieldsIn(es) < Distance(m.cpus[0].value, e) < NENV
    decreases |es|
  {
    if es == [] {
      assert m.cpus[0].value != e;
    } else {
      var t := Trap(m, es[0].c, es[0].call).m;
      SteadyStep(m, es[0].call, e);
      OneCpuIsRespectful(m, es[0].call);
      TrapKeepsIff(m, 0, es[0].call);
      SameNumber(m, 0, es[0].call);
      BoundedBypass(t, es[1..], e);
    }
  }

  /** When the current environment ends, the scan starts again at slot 0: ends are not bounded
      in the same way. */
  lemma EndRestartsScan(m: Machine)
    requires Consistent(m) && |m.cpus| == 1 && m.cpus[0].Some? && m.status[m.cpus[0].value] == ENV_RUNNING
    requires m.status[0] == ENV_RUNNABLE
    ensures var cur := m.cpus[0].value;
            Possible(m, Call.Destroy(cur)) && !Trap(m, 0, Call.Destroy(cur)).monitor && Trap(m, 0, Call.Destroy(cur)).m.cpus[0] == Some(0)
  {
    var cur := m.cpus[0].value;
    PickIsFirst(m.status[cur := ENV_FREE], 0);
  }

  /** A caller that made itself RUNNABLE is chosen again, at once: others can wait forever. */
  lemma RunnableCallerStays(status: seq<Status>, cur: nat)
    requires |status| == NENV && cur < NENV && status[cur] == ENV_RUNNABLE
    ensures Pick(status, cur) == Some(cur)
  {
    PickIsFirst(status, cur);
  }
}
