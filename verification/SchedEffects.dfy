/** What a kernel entry does to the status of every environment and to every processor: what the
    call does by itself, and what the scheduler does then. */
module SchedEffects {
  import opened Basics
  import opened EnvIds
  import opened EnvState
  import opened S = Sched

  // ---- The scheduler ----

  predicate Stopped(status: Status) { status == ENV_FREE || status == ENV_NOT_RUNNABLE }

  /** Processor c, where cur is the current environment, goes on with the statuses `given`. stays: cur
      is to go on. Otherwise the RUNNABLE environment next after cur, or after slot 0, runs; if there is none cur goes
      on if it is RUNNING; and if it is not the processor halts, or enters the monitor if nothing will ever run. */
  ghost predicate Scheduled(given: seq<Status>, cpus: seq<Option<nat>>, c: nat, cur: Option<nat>, stays: bool, t: Exit) {
    && |given| == |t.m.status| == NENV && c < |cpus| == |t.m.cpus| && (cur.Some? ==> cur.value < NENV)
    && (forall d | 0 <= d < |cpus| && d != c :: t.m.cpus[d] == cpus[d])
    && if stays then Continues(given, c, cur, t)
       else if exists e: nat :: e < NENV && given[e] == ENV_RUNNABLE then Switches(given, c, cur, t)
       else if cur.Some? && given[cur.value] == ENV_RUNNING then Continues(given, c, cur, t)
       else && t.m.status == given && (t.monitor <==> forall e: nat | e < NENV :: Stopped(given[e]))
            && t.m.cpus[c] == if t.monitor then cur else None
  }

  ghost predicate Continues(given: seq<Status>, c: nat, cur: Option<nat>, t: Exit)
    requires c < |t.m.cpus|
  {
    !t.monitor && cur.Some? && t.m.cpus[c] == cur && t.m.status == given
  }

  ghost predicate Switches(given: seq<Status>, c: nat, cur: Option<nat>, t: Exit)
    requires |given| == |t.m.status| == NENV && c < |t.m.cpus|
  {
    && !t.monitor && t.m.cpus[c].Some? && t.m.cpus[c].value < NENV
    && var e, start := t.m.cpus[c].value, if cur.Some? then cur.value else 0;
       && given[e] == ENV_RUNNABLE && t.m.status[e] == ENV_RUNNING
       && (forall f: nat | f < NENV && given[f] == ENV_RUNNABLE :: (e - start) % NENV <= (f - start) % NENV)
       && (forall f: nat | f < NENV && f != e ::
             t.m.status[f] == if cur == Some(f) && given[f] == ENV_RUNNING then ENV_RUNNABLE else given[f])
  }

  lemma DistanceIs(start: nat, e: nat)
    requires start < NENV && e < NENV
    ensures Distance(start, e) == (e - start) % NENV
  {
  }

  lemma YieldSchedules(m: Machine, c: nat)
    requires S.Formed(m) && c < |m.cpus|
    ensures Scheduled(m.status, m.cpus, c, m.cpus[c], false, Yield(m, c))
  {
    hide Distance, Pick, Switches, NothingLeft;
    var cur := m.cpus[c];
    var start := if cur.Some? then cur.value else 0;
    PickIsFirst(m.status, start);
    NothingLeftIff(m);
    if Pick(m.status, start).Some? {
      PickSwitches(m, c, Pick(m.status, start).value);
    } else {
      forall e: nat | e < NENV ensures m.status[e] != ENV_RUNNABLE {}
    }
  }

  lemma PickSwitches(m: Machine, c: nat, e: nat)
    requires S.Formed(m) && c < |m.cpus| && e < NENV && m.status[e] == ENV_RUNNABLE
    requires var start := if m.cpus[c].Some? then m.cpus[c].value else 0;
             forall f: nat | f < NENV && m.status[f] == ENV_RUNNABLE :: Distance(start, e) <= Distance(start, f)
    ensures Switches(m.status, c, m.cpus[c], Exit(S.EnvRun(m, c, e), false))
  {
    hide Distance;
    var start := if m.cpus[c].Some? then m.cpus[c].value else 0;
    forall f: nat | f < NENV ensures Distance(start, f) == (f - start) % NENV {
      DistanceIs(start, f);
    }
  }

  lemma NothingLeftIff(m: Machine)
    requires S.Formed(m)
    ensures NothingLeft(m) <==> forall e: nat | e < NENV :: Stopped(m.status[e])
  {
    if forall e: nat | e < NENV :: Stopped(m.status[e]) {
      forall e | 0 <= e < NENV ensures m.status[e] != ENV_RUNNABLE && m.status[e] != ENV_RUNNING && m.status[e] != ENV_DYING {
        assert Stopped(m.status[e as nat]);
      }
    }
  }

  lemma ReturnSchedules(m: Machine, c: nat)
    requires S.Formed(m) && c < |m.cpus|
    ensures var cur := m.cpus[c];
            Scheduled(m.status, m.cpus, c, cur, cur.Some? && m.status[cur.value] == ENV_RUNNING, Return(m, c))
  {
    hide Yield, Switches;
    YieldSchedules(m, c);
  }

  // ---- A whole entry ----

  /** Only environment e has another status than before: this one. */
  predicate Only(before: seq<Status>, after: seq<Status>, e: nat, status: Status) {
    && e < |after| == |before| && after[e] == status
    && forall f: nat | f < |before| && f != e :: after[f] == before[f]
  }

  /** What the entry does by itself: a DYING current environment is freed; sys_env_set_status gives the
      asked status; one that is destroyed is freed, or DYING if it runs elsewhere; a child is
      not runnable; no other call changes a status. */
  ghost predicate Asked(m: Machine, c: nat, call: Call, given: seq<Status>)
    requires S.Formed(m) && c < |m.cpus|
  {
    var cur := m.cpus[c];
    if cur.Some? && m.status[cur.value] == ENV_DYING then Only(m.status, given, cur.value, ENV_FREE)
    else if cur == None then given == m.status
    else
      match call
      case SetStatus(e, status) => Only(m.status, given, e, status)
      case Destroy(e) => e < NENV && Only(m.status, given, e, if m.status[e] == ENV_RUNNING && cur != Some(e) then ENV_DYING else ENV_FREE)
      case Exofork(e) => Only(m.status, given, e, ENV_NOT_RUNNABLE)
      case _ => given == m.status
  }

  /** A kernel entry: the call's own effect, and then the scheduler's; it goes on with the current
      environment if that is RUNNING and did not yield. */
  lemma TrapExact(m: Machine, c: nat, call: Call) returns (given: seq<Status>)
    requires S.Formed(m) && c < |m.cpus| && Possible(m, call) && (m.cpus[c].Some? ==> m.status[m.cpus[c].value] != ENV_FREE)
    ensures Asked(m, c, call, given) && |Trap(m, c, call).m.status| == NENV
    ensures var cur := m.cpus[c];
            var left := if cur.Some? && given[cur.value] == ENV_FREE then None else cur;
            Scheduled(given, m.cpus, c, left, left.Some? && given[left.value] == ENV_RUNNING && call != SysYield, Trap(m, c, call))
  {
    hide Yield, Return, Switches, Continues;
    var cur := m.cpus[c];
    given := m.status;
    if cur.Some? && m.status[cur.value] == ENV_DYING {
      given := m.status[cur.value := ENV_FREE];
      FreedSchedules(m, c, given);
    } else if cur.None? {
      YieldSchedules(m, c);
    } else {
      match call
      case SetStatus(e, status) => given := m.status[e := status]; ReturnSchedules(m.(status := given), c);
      case Destroy(e) =>
        given := m.status[e := if m.status[e] == ENV_RUNNING && cur != Some(e) then ENV_DYING else ENV_FREE];
        if cur == Some(e) {
          FreedSchedules(m, c, given);
        } else {
          ReturnSchedules(m.(status := given), c);
        }
      case Exofork(e) => given := m.status[e := ENV_NOT_RUNNABLE]; ReturnSchedules(m.(status := given), c);
      case SysYield => YieldSchedules(m, c);
      case Other => ReturnSchedules(m, c);
    }
  }

  lemma FreedSchedules(m: Machine, c: nat, given: seq<Status>)
    requires S.Formed(m) && c < |m.cpus| && |given| == NENV
    ensures Scheduled(given, m.cpus, c, None, false, Yield(Machine(given, m.cpus[c := None]), c))
  {
    hide Yield, Switches;
    YieldSchedules(Machine(given, m.cpus[c := None]), c);
  }

  // ---- Zombies ----

  /** An entry on a processor whose current environment is DYING frees that environment, and it is on
      no processor any more. */
  lemma ZombieFreed(m: Machine, c: nat, call: Call)
    requires Consistent(m) && c < |m.cpus| && Possible(m, call) && m.cpus[c].Some? && m.status[m.cpus[c].value] == ENV_DYING
    ensures var z, t := m.cpus[c].value, Trap(m, c, call);
            z < |t.m.status| && t.m.status[z] == ENV_FREE && !OnAny(t.m, z)
  {
    hide Trap;
    var z := m.cpus[c].value;
    assert OnCpu(m, z, c);
    var given := TrapExact(m, c, call);
    var t := Trap(m, c, call);
    forall d: nat ensures !OnCpu(t.m, z, d) {
      assert d != c && OnCpu(t.m, z, d) ==> OnCpu(m, z, d);
    }
  }

  /** Over any run in which its slot is not taken again, an environment that is DYING is never RUNNABLE,
      RUNNING or waiting again: it stays DYING until it is freed. */
  lemma {:induction false} DyingEnds(m: Machine, es: seq<Entry>, e: nat)
    requires Consistent(m) && S.Run(m, es) && e < NENV && (m.status[e] == ENV_DYING || m.status[e] == ENV_FREE)
    requires forall i | 0 <= i < |es| :: es[i].call != Call.Exofork(e)
    ensures |After(m, es).status| == NENV && (After(m, es).status[e] == ENV_DYING || After(m, es).status[e] == ENV_FREE)
    decreases |es|
  {
    if es == [] {
      ConsistentFormed(m);
    } else {
      hide Consistent, Trap, Respectful;
      var t := Trap(m, es[0].c, es[0].call);
      if |m.cpus| == 1 {
        OneCpuIsRespectful(m, es[0].call);
      }
      TrapKeepsIff(m, es[0].c, es[0].call);
      SameNumber(m, es[0].c, es[0].call);
      DyingStep(m, es[0].c, es[0].call, e);
      DyingEnds(t.m, es[1..], e);
    }
  }

  lemma DyingStep(m: Machine, c: nat, call: Call, e: nat)
    requires Consistent(m) && c < |m.cpus| && Possible(m, call) && Respectful(m, c, call) && call != Call.Exofork(e)
    requires e < NENV && (m.status[e] == ENV_DYING || m.status[e] == ENV_FREE)
    ensures |Trap(m, c, call).m.status| == NENV && (Trap(m, c, call).m.status[e] == ENV_DYING || Trap(m, c, call).m.status[e] == ENV_FREE)
  {
    hide Trap;
    assert m.cpus[c].Some? ==> OnCpu(m, m.cpus[c].value, c) && OnAny(m, m.cpus[c].value);
    var given := TrapExact(m, c, call);
    if m.cpus[c] == Some(e) {
      assert OnCpu(m, e, c) && OnAny(m, e);
    }
  }

  /** sched_yield enters the monitor if and only if no environment will ever run again. */
  lemma MonitorIff(m: Machine, c: nat)
    requires S.Formed(m) && c < |m.cpus|
    ensures Yield(m, c).monitor <==> forall e: nat | e < NENV :: Stopped(m.status[e])
  {
    hide Yield;
    YieldSchedules(m, c);
  }
}
