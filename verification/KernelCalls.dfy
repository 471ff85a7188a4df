/** kern/env.c and the memory system calls of kern/syscall.c, changing the environments and the
    memory in place, on one CPU. */
module KernelCalls {
  import opened Basics
  import Words
  import opened Mmu
  import opened FreeChain
  import opened PageSpace
  import opened PageWords
  import opened Pmap
  import opened EnvIds
  import opened EnvState
  import opened EnvRuns

  /** curenv's env_pgdir. */
  function CurDir(k: State): Option<nat>
    requires Formed(k)
  {
    if k.cur.None? then None else Some(k.envs[k.cur.value].pgdir)
  }

  /** What comes of sys_env_set_pgfault_upcall: no such environment; environment e has the upcall; it
      has, and is destroyed for it; or the kernel has faulted itself. */
  datatype Upcall = NoEnv | Set(e: nat) | SetAndDestroyed(e: nat) | Halted

  /** The pages of the upcall's first 4 bytes are user mappings. */
  ghost predicate UpcallThere(mem: Frames, d: nat, func: nat) {
    forall pn | func / 4096 <= pn < RoundedEnd(func, 4) / 4096 :: Checked(mem, d, func, pn, PTE_U)
  }

  /** The bytes lie on two pages, the first one is there, and the second has no table. */
  ghost predicate UpcallHalts(mem: Frames, d: nat, func: nat, cr3: nat) {
    exists pn: nat :: FirstFailing(mem, d, func, 4, PTE_U, pn) && pn != func / 4096 && NoTable(mem, d, pn) && Walk(mem, cr3, 0).None?
  }

  class Kernel {
    const pm: Memory
    var envs: seq<Env>              // envs[]
    var envLink: seq<Option<nat>>   // envs[].env_link
    var envFree: Option<nat>        // env_free_list
    var cur: Option<nat>            // curenv
    ghost var k: State              // what the fields and the memory represent

    ghost predicate Valid()
      reads this, pm
    {
      && pm.Valid() && pm.CpuValid() && pm.s == k.s
      && envs == k.envs && cur == k.cur && Formed(k)
      && |envLink| == NENV && Chain(envFree, envLink, k.free)
      && pm.cur == CurDir(k)
    }

    /** env_init, on the memory that mem_init left. */
    constructor (memory: Memory)
      requires memory.Valid() && memory.CpuValid() && memory.s.dirs == {} && memory.cur == None
      ensures pm == memory && Valid() && k == BootState(memory.s)
      ensures |k.free| == |envs| == 1024 && forall i | 0 <= i < 1024 :: k.free[i] == i && envs[i] == Env(0, 0, ENV_FREE, 0, 0)
    {
      pm, cur := memory, None;
      envs, envLink, envFree := seq(NENV, _ => Env(0, 0, ENV_FREE, 0, 0)), seq(NENV, _ => None), None;
      k := BootState(memory.s);
      new;
      ghost var list := k.free;
      assert |list| == NENV && forall i | 0 <= i < NENV :: list[i] == i;
      var temp := NENV;
      while temp > 0
        invariant 0 <= temp <= NENV && |envLink| == NENV
        invariant envs == k.envs && cur == None && k == BootState(memory.s)
        invariant Chain(envFree, envLink, list[temp..])
      {
        temp := temp - 1;
        ChainIgnoresOthers(envFree, envLink, list[temp + 1..], temp, envFree);
        assert list[temp..] == [temp] + list[temp + 1..];
        envLink := envLink[temp := envFree];
        envFree := Some(temp);
      }
      assert list[0..] == list;
    }

    /** None for -E_BAD_ENV. */
    method LookupEnv(envid: int, checkperm: bool) returns (e: Option<nat>)
      requires Valid() && cur.Some?
      ensures e == Envid2Env(k, envid, checkperm)
    {
      if envid == 0 {
        return cur;
      }
      var x := EnvX(envid);
      if envs[x].status == ENV_FREE || envs[x].id != envid {
        return None;
      }
      if checkperm && x != cur.value && envs[x].parent != envs[cur.value].id {
        return None;
      }
      return Some(x);
    }

    /** The new id or an error, and the new slot. */
    method AllocEnv(parent: int) returns (r: int, e: nat)
      requires Valid() && KInv(k)
      modifies this, pm
      ensures Valid()
      ensures (k, r) == EnvAlloc(old(k), parent, ENV_RUNNABLE)
      ensures r >= 0 ==> old(k.free) != [] && e == old(k.free[0])
      ensures pm.DataUntouched() && pm.cr3 == old(pm.cr3)
    {
      hide Inv, Rep, Slots, FreeEnvs, OwnDirs, IdAfter, TlbAgrees;
      e := 0;
      if envFree.None? {
        return NO_FREE_ENV, e;
      }
      e := envFree.value;
      AllocIds(k);
      var p := pm.SetupVm({});
      if p.None? {
        return NO_MEM, e;
      }
      var id := NextId(envs[e].id, e);
      envs := envs[e := Env(id, parent, ENV_RUNNABLE, p.value, 0)];
      envFree := envLink[e];
      k := State(pm.s, envs, k.free[1..], cur, k.allocs[e := k.allocs[e] + 1]);
      return id, e;
    }

    /** env_free. curenv may still be the freed environment; its env_pgdir is then NULL. */
    method FreeEnv(e: nat)
      requires Valid() && KInv(k) && Live(k, e)
      modifies this, pm
      ensures Valid() && k == EnvFree(old(k), e)
      ensures old(cur) == Some(e) ==> pm.cr3 == pm.kern
      ensures pm.DataUntouched()
    {
      hide Inv, Rep, Slots, FreeEnvs, OwnDirs, IdAfter, TlbAgrees, FreeSpace, Chain, IsTable, KInv;
      FreeIds(k, e);
      PushEnv(envFree, envLink, k.free, e);
      if cur == Some(e) {
        pm.Lcr3(pm.kern);
      }
      pm.FreeUserSpace(envs[e].pgdir, {});
      if cur == Some(e) {
        pm.cur := Some(0);
      }
      envs := envs[e := envs[e].(status := ENV_FREE, pgdir := 0)];
      envLink := envLink[e := envFree];
      envFree := Some(e);
      k := EnvFree(k, e);
      FreedFormed(old(k), e);
    }

    /** env_destroy up to the call of sched_yield: true when the caller must not return. */
    method DestroyEnv(e: nat) returns (mustYield: bool)
      requires Valid() && KInv(k) && Live(k, e)
      modifies this, pm
      ensures Valid() && k == EnvDestroy(old(k), e)
      ensures mustYield <==> old(cur) == Some(e)
      ensures pm.DataUntouched()
    {
      hide Inv, Rep, Slots, FreeEnvs, OwnDirs, TlbAgrees, FreeSpace, Chain;
      if envs[e].status == ENV_RUNNING && cur != Some(e) {
        envs := envs[e := envs[e].(status := ENV_DYING)];
        k := SetStatus(k, e, ENV_DYING);
        return false;
      }
      FreeIds(k, e);
      FreeEnv(e);
      FreedFormed(old(k), e);
      mustYield := cur == Some(e);
      if mustYield {
        cur := None;
        pm.cur := None;
        k := k.(cur := None);
      }
    }

    /** env_run, up to the return to user mode. */
    method RunEnv(e: nat)
      requires Valid() && KInv(k) && Live(k, e)
      modifies this, pm
      ensures Valid() && k == EnvRun(old(k), e)
      ensures pm.cr3 == k.envs[e].pgdir && pm.mem == old(pm.mem)
    {
      hide Inv, Rep, Slots, FreeEnvs, TlbAgrees, Chain;
      if cur.Some? && envs[cur.value].status == ENV_RUNNING {
        envs := envs[cur.value := envs[cur.value].(status := ENV_RUNNABLE)];
        k := SetStatus(k, cur.value, ENV_RUNNABLE);
      }
      cur := Some(e);
      envs := envs[e := envs[e].(status := ENV_RUNNING)];
      pm.cur := Some(envs[e].pgdir);
      k := SetStatus(k, e, ENV_RUNNING).(cur := Some(e));
      pm.Lcr3(envs[e].pgdir);
    }

    // ---- System calls of the current environment ----

    method SysExofork() returns (r: int)
      requires Valid() && KInv(k) && cur.Some?
      modifies this, pm
      ensures Valid() && (k, r) == EnvState.SysExofork(old(k))
      ensures pm.DataUntouched() && pm.cr3 == old(pm.cr3)
    {
      hide Inv, Rep, Slots, FreeEnvs, OwnDirs, TlbAgrees, Chain, IdAfter;
      var e;
      if k.free != [] {
        AllocIds(k);
      }
      r, e := AllocEnv(envs[cur.value].id);
      if r < 0 {
        return;
      }
      envs := envs[e := envs[e].(status := ENV_NOT_RUNNABLE)];
      k := SetStatus(k, e, ENV_NOT_RUNNABLE);
      assert envs == old(envs)[e := envs[e]];
    }

    method SysEnvSetStatus(envid: int, status: Option<Status>) returns (r: int)
      requires Valid() && KInv(k) && cur.Some?
      modifies this
      ensures Valid() && (k, r) == EnvState.SysEnvSetStatus(old(k), envid, status)
    {
      hide Inv, Rep, Slots, FreeEnvs, OwnDirs, TlbAgrees, Chain;
      var e := LookupEnv(envid, true);
      if e.None? {
        return BAD_ENV;
      }
      if status != Some(ENV_RUNNABLE) && status != Some(ENV_NOT_RUNNABLE) {
        return INVAL;
      }
      envs := envs[e.value := envs[e.value].(status := status.value)];
      k := SetStatus(k, e.value, status.value);
      return 0;
    }

    /** The upcall is set before it is checked, and the result is 0 even if the check has destroyed the
        environment. */
    method SysEnvSetPgfaultUpcall(envid: int, func: nat) returns (r: Upcall)
      requires Valid() && KInv(k) && cur.Some? && func < Words.WORDS
      modifies this, pm
      ensures Valid()
      ensures match Envid2Env(old(k), envid, true)
              case None => r == NoEnv && k == old(k) && pm.mem == old(pm.mem)
              case Some(e) =>
                var d := old(k.envs[e].pgdir);
                && (r == Set(e) <==> UpcallThere(old(pm.mem), d, func)) && (r == Halted <==> UpcallHalts(old(pm.mem), d, func, old(pm.cr3)))
                && (r == SetAndDestroyed(e) ||
                    ((r == Set(e) || r == Halted) && k == SetUpcall(old(k), e, func) && pm.mem == old(pm.mem) && pm.cr3 == old(pm.cr3)))
      ensures r != Halted ==> k == EnvState.SysEnvSetPgfaultUpcall(old(k), envid, func, r.Set?).0
    {
      hide Inv, Rep, Slots, FreeEnvs, OwnDirs, TlbAgrees, Chain, Checked, NoTable, FirstFailing, Walk;
      var e := LookupEnv(envid, true);
      if e.None? {
        return NoEnv;
      }
      ResolvedIsLive(k, envid, true);
      UpcallKeeps(k, e.value, func);
      envs := envs[e.value := envs[e.value].(upcall := func)];
      k := SetUpcall(k, e.value, func);
      var ok := pm.UserMemCheck(envs[e.value].pgdir, func, 4, PTE_U, {});
      if ok == Zero {
        return Set(e.value);
      } else if ok == KernelPanic {
        return Halted;
      }
      var mustYield := DestroyEnv(e.value);
      r := SetAndDestroyed(e.value);
    }

    method SysPageAlloc(envid: int, va: nat, perm: Word) returns (r: int)
      requires Valid() && KInv(k) && cur.Some?
      modifies this, pm
      ensures Valid() && (k, r) == EnvState.SysPageAlloc(old(k), envid, va, perm)
      ensures r == 0 ==>
                && old(k.s.free) != [] && old(k.s.free[0]) < |pm.mem| == |old(pm.mem)|
                && pm.mem[old(k.s.free[0])] == ZeroPage()
      ensures SamePages(old(pm.mem), pm.mem, old(k.s), k.s, if old(k.s.free) == [] then |pm.mem| else old(k.s.free[0]))
      ensures pm.cr3 == old(pm.cr3)
    {
      hide Inv, Rep, Slots, FreeEnvs, OwnDirs, TlbAgrees, Chain, HasU, HasP, PermBits, Insert, IsTable, Insertable;
      var e := LookupEnv(envid, true);
      if e.None? {
        return BAD_ENV;
      }
      if va >= UTOP || va % PGSIZE != 0 {
        return INVAL;
      }
      if !HasU(perm.flags) || !HasP(perm.flags) {
        return INVAL;
      }
      if !PermBits(perm) {
        return NO_MEM;
      }
      ResolvedIsLive(k, envid, true);
      if k.s.free != [] {
        FreshPage(k.s, perm.flags);
        FreeUndoesAlloc(k.s);
        FreshInsert(k.s, PageAt(envs[e.value].pgdir, va), perm.flags);
      }
      var pp := pm.PageAlloc(true, {});
      if pp.None? {
        return NO_MEM;
      }
      var ok := pm.PageInsert(envs[e.value].pgdir, pp.value, va, perm.flags, {pp.value});
      if !ok {
        pm.PageFree(pp.value);
        k := k.(s := pm.s);
        return NO_MEM;
      }
      k := k.(s := pm.s);
      return 0;
    }

    method SysPageMap(srcid: int, srcva: nat, dstid: int, dstva: nat, perm: Word) returns (r: int)
      requires Valid() && KInv(k) && cur.Some?
      modifies this, pm
      ensures Valid() && (k, r) == EnvState.SysPageMap(old(k), srcid, srcva, dstid, dstva, perm)
      ensures pm.DataUntouched() && pm.cr3 == old(pm.cr3)
    {
      hide Inv, Rep, Slots, FreeEnvs, OwnDirs, TlbAgrees, Chain, HasU, HasP, HasW, PermOk, Insert;
      var src := LookupEnv(srcid, true);
      var dst := LookupEnv(dstid, true);
      if src.None? || dst.None? {
        return BAD_ENV;
      }
      if srcva >= UTOP || srcva % PGSIZE != 0 || dstva >= UTOP || dstva % PGSIZE != 0 {
        return INVAL;
      }
      if !PermOk(perm) {
        return INVAL;
      }
      ResolvedIsLive(k, srcid, true);
      ResolvedIsLive(k, dstid, true);
      var pp, pte := pm.PageLookup(envs[src.value].pgdir, srcva, {});
      if pp.None? {
        return INVAL;
      }
      if HasW(perm.flags) && !HasW(pm.mem[pte.value][Ptx(srcva)].flags) {
        return INVAL;
      }
      LookedUpInsertable(k.s, PageAt(envs[src.value].pgdir, srcva), perm.flags);
      var ok := pm.PageInsert(envs[dst.value].pgdir, pp.value, dstva, perm.flags, {});
      if !ok {
        return NO_MEM;
      }
      k := k.(s := pm.s);
      return 0;
    }

    method SysPageUnmap(envid: int, va: nat) returns (r: int)
      requires Valid() && KInv(k) && cur.Some?
      modifies this, pm
      ensures Valid() && (k, r) == EnvState.SysPageUnmap(old(k), envid, va)
      ensures pm.DataUntouched() && pm.cr3 == old(pm.cr3)
    {
      hide Inv, Rep, Slots, FreeEnvs, OwnDirs, TlbAgrees, Chain, Remove;
      var e := LookupEnv(envid, true);
      if e.None? {
        return BAD_ENV;
      }
      if va >= UTOP || va % PGSIZE != 0 {
        return INVAL;
      }
      ResolvedIsLive(k, envid, true);
      pm.PageRemove(envs[e.value].pgdir, va, {});
      k := k.(s := pm.s);
      return 0;
    }

    method SysEnvDestroy(envid: int) returns (r: int, mustYield: bool)
      requires Valid() && KInv(k) && cur.Some?
      modifies this, pm
      ensures Valid() && (k, r) == EnvState.SysEnvDestroy(old(k), envid)
      ensures mustYield <==> Envid2Env(old(k), envid, true) == old(cur)
      ensures pm.DataUntouched()
    {
      hide Inv, Rep, Slots, FreeEnvs, OwnDirs, TlbAgrees, Chain, EnvDestroy;
      var e := LookupEnv(envid, true);
      if e.None? {
        return BAD_ENV, false;
      }
      ResolvedIsLive(k, envid, true);
      mustYield := DestroyEnv(e.value);
      return 0, mustYield;
    }
  }

  lemma PushEnv(head: Option<nat>, link: seq<Option<nat>>, free: seq<nat>, e: nat)
    requires Chain(head, link, free) && e < |link| && e !in free
    ensures Chain(Some(e), link[e := head], [e] + free)
  {
    ChainIgnoresOthers(head, link, free, e, head);
    assert ([e] + free)[1..] == free;
  }

  /** What a successful env_alloc relies on. */
  lemma AllocIds(k: State)
    requires KInv(k) && k.free != []
    ensures k.free[0] < NENV && !Live(k, k.free[0]) && k.cur != Some(k.free[0])
    ensures NextId(k.envs[k.free[0]].id, k.free[0]) > 0
  {
    hide Inv, IdAfter;
    var e := k.free[0];
    assert e in k.free;
    IdStep(e, k.allocs[e]);
    IdNamesSlot(e, k.allocs[e] + 1);
  }

  /** What env_free relies on: the directory is the environment's alone, and is not loaded
      unless the environment is the current one. */
  lemma FreeIds(k: State, e: nat)
    requires KInv(k) && Live(k, e)
    ensures Inv(k.s, {}) && e < NENV && e !in k.free && k.envs[e].pgdir in k.s.dirs && k.envs[e].pgdir != k.s.kern
    ensures k.cur.Some? ==> Live(k, k.cur.value) && (k.envs[k.cur.value].pgdir == k.envs[e].pgdir ==> k.cur == Some(e))
  {
  }

  lemma FreedFormed(k: State, e: nat)
    requires Formed(k) && e < NENV
    ensures Formed(EnvFree(k, e))
  {
    hide FreeSpace;
    var t := EnvFree(k, e);
    forall i | 0 <= i < |t.free| ensures t.free[i] < NENV {
      assert i > 0 ==> t.free[i] == k.free[i - 1];
    }
  }

  /** The page that sys_page_alloc gets may be inserted. */
  lemma FreshPage(s: Space, perm: bv12)
    requires Inv(s, {}) && s.free != []
    ensures Inv(Alloc(s), {s.free[0]}) && Insertable(Alloc(s), s.free[0], perm)
    ensures s.free[0] < |s.ref| && s.ref[s.free[0]] == 0 && s.free[0] !in s.free[1..]
    ensures !IsTable(s.tabs, s.free[0]) && s.free[0] !in s.dirs && s.free[0] != s.kern
  {
    hide Refs;
    AllocKeeps(s, {});
    assert {} + {s.free[0]} == {s.free[0]};
    Unreferenced(Alloc(s), s.free[0]);
  }

  /** Frames that are neither tables nor directories, before or after, hold the same words;
      p excepted. */
  ghost predicate SamePages(before: Frames, after: Frames, s: Space, t: Space, p: nat) {
    && |before| == |after|
    && forall f | 0 <= f < |after| && f != p && !IsDir(s, f) && !IsDir(t, f) && !IsTable(s.tabs, f) && !IsTable(t.tabs, f) ::
         after[f] == before[f]
  }
}
