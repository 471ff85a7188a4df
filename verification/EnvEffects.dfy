/** What each system call and env_run do to every environment: who may ask, what is answered,
    which environment changes, and that no other does. */
module EnvEffects {
  import opened Basics
  import opened Mmu
  import opened PageSpace
  import opened PageWords
  import Teardown
  import EnvIds
  import opened EnvState
  import EnvRuns

  /** envid, given by the current environment, is environment e, and e is the caller or its child. */
  predicate Names(k: State, envid: int, e: nat)
    requires Formed(k) && k.cur.Some?
  {
    && Live(k, e) && (if envid == 0 then k.cur.value == e else k.envs[e].id == envid)
    && (k.cur.value == e || k.envs[e].parent == k.envs[k.cur.value].id)
  }

  lemma NamesIsResolved(k: State, envid: int, e: nat)
    requires KInv(k) && k.cur.Some?
    ensures Names(k, envid, e) <==> Envid2Env(k, envid, true) == Some(e)
  {
    hide Inv, Slots, FreeEnvs, OwnDirs;
    if envid != 0 {
      EnvRuns.ResolvesIff(k, envid, e);
    }
  }

  lemma NobodyNamed(k: State, envid: int)
    requires KInv(k) && k.cur.Some?
    ensures (forall e: nat :: !Names(k, envid, e)) <==> Envid2Env(k, envid, true) == None
  {
    hide Inv, Slots, FreeEnvs, OwnDirs, Names;
    if Envid2Env(k, envid, true).Some? {
      NamesIsResolved(k, envid, Envid2Env(k, envid, true).value);
    }
    forall e: nat ensures Names(k, envid, e) <==> Envid2Env(k, envid, true) == Some(e) {
      NamesIsResolved(k, envid, e);
    }
  }

  /** All environments but e are as they were. */
  predicate OthersSame(k: State, t: State, e: nat) {
    |t.envs| == |k.envs| && forall f | 0 <= f < |k.envs| && f != e :: t.envs[f] == k.envs[f]
  }

  // ---- Environments end, stop and start ----

  /** The environment's slot is on the free list, and its directory, tables and mappings are gone, and
      nobody else's. */
  ghost predicate Freed(k: State, t: State, e: nat)
    requires e < |k.envs|
  {
    var d := k.envs[e].pgdir;
    && OthersSame(k, t, e) && t.envs[e] == Env(k.envs[e].id, k.envs[e].parent, ENV_FREE, 0, t.envs[e].upcall)
    && t.free == [e] + k.free
    && t.s.dirs == k.s.dirs - {d} && t.s.kern == k.s.kern && Inv(t.s, {})
    && t.s.maps == (map v | v in k.s.maps && v.slot.dir != d :: k.s.maps[v])
    && t.s.tabs == map i | i in k.s.tabs && i.dir != d :: k.s.tabs[i]
  }

  lemma FreesExactly(k: State, e: nat)
    requires KInv(k) && Live(k, e)
    ensures Freed(k, EnvFree(k, e), e)
  {
    hide Inv, Slots, FreeEnvs, FreeSpace;
    assert k.envs[e].pgdir in k.s.dirs;
    Teardown.FreeSpaceExact(k.s, {}, k.envs[e].pgdir);
  }

  /** sys_env_destroy: an environment that runs on another processor becomes DYING, and nothing else
      changes; any other is freed at once, and the caller has no current environment if it was that. */
  lemma DestroyExact(k: State, envid: int, e: nat)
    requires KInv(k) && k.cur.Some? && Names(k, envid, e)
    ensures var (t, r) := SysEnvDestroy(k, envid);
            && r == 0 && t.allocs == k.allocs
            && if k.envs[e].status == ENV_RUNNING && k.cur.value != e then
                 OthersSame(k, t, e) && t.envs[e] == k.envs[e].(status := ENV_DYING) && t.s == k.s && t.free == k.free && t.cur == k.cur
               else Freed(k, t, e) && t.cur == if k.cur.value == e then None else k.cur
  {
    hide Inv, Slots, FreeEnvs, OwnDirs, FreeSpace, Freed;
    NamesIsResolved(k, envid, e);
    FreesExactly(k, e);
    FreedNoCur(k, EnvFree(k, e), e);
  }

  lemma FreedNoCur(k: State, t: State, e: nat)
    requires e < |k.envs| && Freed(k, t, e)
    ensures Freed(k, t.(cur := None), e)
  {
    hide Inv;
  }

  /** sys_env_set_status gives the environment one of two statuses and changes nothing else. */
  lemma SetStatusExact(k: State, envid: int, e: nat, status: Option<Status>)
    requires KInv(k) && k.cur.Some? && Names(k, envid, e)
    ensures var (t, r) := SysEnvSetStatus(k, envid, status);
            if status == Some(ENV_RUNNABLE) || status == Some(ENV_NOT_RUNNABLE) then
              && r == 0 && OthersSame(k, t, e) && t.envs[e] == k.envs[e].(status := status.value)
              && t.s == k.s && t.free == k.free && t.cur == k.cur && t.allocs == k.allocs
            else r == -3 && t == k
  {
    hide KInv;
    NamesIsResolved(k, envid, e);
  }

  /** sys_env_set_pgfault_upcall sets the upcall of that environment alone; if the check does not pass
      the environment is freed, or marked, with it. */
  lemma SetHandlerExact(k: State, envid: int, e: nat, func: nat, there: bool)
    requires KInv(k) && k.cur.Some? && Names(k, envid, e)
    ensures var (t, r) := SysEnvSetPgfaultUpcall(k, envid, func, there);
            && r == 0 && OthersSame(k, t, e)
            && if there then t.envs[e] == k.envs[e].(upcall := func) && t.s == k.s && t.free == k.free && t.cur == k.cur
               else if k.envs[e].status == ENV_RUNNING && k.cur.value != e then
                 t.envs[e] == k.envs[e].(status := ENV_DYING, upcall := func) && t.s == k.s && t.free == k.free && t.cur == k.cur
               else Freed(k, t, e) && t.cur == if k.cur.value == e then None else k.cur
  {
    hide Inv, Slots, FreeEnvs, OwnDirs, FreeSpace, Freed;
    NamesIsResolved(k, envid, e);
    if !there {
      var u := SetUpcall(k, e, func);
      EnvRuns.UpcallKeeps(k, e, func);
      FreesExactly(u, e);
      FreedToo(k, u, EnvFree(u, e), e);
      FreedNoCur(k, EnvFree(u, e), e);
    }
  }

  lemma FreedToo(k: State, u: State, t: State, e: nat)
    requires e < |k.envs| == |u.envs| && u == k.(envs := k.envs[e := k.envs[e].(upcall := u.envs[e].upcall)]) && Freed(u, t, e)
    ensures Freed(k, t, e)
  {
    hide Inv;
  }

  /** Calls that name nobody, or a stranger, are refused and change nothing. */
  lemma StrangersRefused(k: State, envid: int, va: nat, perm: Word, status: Option<Status>, func: nat, there: bool)
    requires KInv(k) && k.cur.Some? && forall e: nat :: !Names(k, envid, e)
    ensures SysEnvDestroy(k, envid) == SysEnvSetStatus(k, envid, status) == SysEnvSetPgfaultUpcall(k, envid, func, there) == (k, -2)
    ensures SysPageAlloc(k, envid, va, perm) == SysPageUnmap(k, envid, va) == (k, -2)
    ensures forall other: int, x: nat :: SysPageMap(k, envid, va, other, x, perm) == SysPageMap(k, other, x, envid, va, perm) == (k, -2)
  {
    hide KInv, Names;
    NobodyNamed(k, envid);
  }

  /** env_alloc: the first free slot, a new id, the first free page for the directory, which owns
      nothing yet; no upcall. */
  ghost predicate Created(k: State, t: State, r: int, parent: int, status: Status) {
    && k.free != [] && k.s.free != [] && k.free[0] < |k.envs| && |k.allocs| == |k.envs| == EnvIds.NENV
    && var e, d := k.free[0], k.s.free[0];
       && OthersSame(k, t, e) && t.envs[e] == Env(r, parent, status, d, 0) && r > 0 && r % 1024 == e
       && r == (k.allocs[e] % 0x7_FFFF + 1) * 4096 + e
       && (forall f: nat | Live(k, f) :: k.envs[f].id != r)
       && t.free == k.free[1..] && t.cur == k.cur && t.allocs == k.allocs[e := k.allocs[e] + 1]
       && t.s.dirs == k.s.dirs + {d} && t.s.free == k.s.free[1..] && t.s.maps == k.s.maps && t.s.tabs == k.s.tabs && d !in k.s.dirs
  }

  lemma CreateExact(k: State, parent: int, status: Status)
    requires KInv(k) && status != ENV_FREE
    ensures var (t, r) := EnvAlloc(k, parent, status);
            if k.free == [] then t == k && r == -5
            else if k.s.free == [] then t == k && r == -4
            else Created(k, t, r, parent, status)
  {
    hide Inv, Slots, OwnDirs, EnvIds.NextId, EnvIds.IdAfter;
    if k.free != [] && k.s.free != [] {
      var e, t := k.free[0], EnvAlloc(k, parent, status).0;
      assert e in k.free;
      EnvRuns.EnvAllocKeeps(k, parent, status);
      EnvRuns.AllocSpace(k);
      NewIds(k, t, e);
    }
  }

  lemma NewIds(k: State, t: State, e: nat)
    requires KInv(k) && KInv(t) && e < EnvIds.NENV && !Live(k, e) && Live(t, e)
    requires t.envs == k.envs[e := t.envs[e]] && t.allocs == k.allocs[e := k.allocs[e] + 1]
    ensures t.envs[e].id == (k.allocs[e] % 0x7_FFFF + 1) * 4096 + e && t.envs[e].id > 0 && t.envs[e].id % 1024 == e
    ensures forall f: nat | Live(k, f) :: k.envs[f].id != t.envs[e].id
  {
    hide Inv, FreeEnvs, OwnDirs, EnvIds.IdAfter;
    EnvIds.IdForm(e, t.allocs[e]);
    EnvIds.IdNamesSlot(e, t.allocs[e]);
    forall f: nat | Live(k, f) ensures k.envs[f].id != t.envs[e].id {
      assert Live(t, f);
      EnvRuns.LiveIdsDistinct(t, e, f);
    }
  }

  /** sys_exofork creates a child of the caller that is not runnable. */
  lemma ExoforkExact(k: State)
    requires KInv(k) && k.cur.Some?
    ensures var (t, r) := SysExofork(k);
            if k.free == [] then t == k && r == -5
            else if k.s.free == [] then t == k && r == -4
            else Created(k, t, r, k.envs[k.cur.value].id, ENV_NOT_RUNNABLE)
  {
    hide Inv, Slots, FreeEnvs, OwnDirs, Created, EnvAlloc;
    CreateExact(k, k.envs[k.cur.value].id, ENV_NOT_RUNNABLE);
  }

  /** env_run: e is RUNNING and the current one; the one before, if it was still RUNNING, is RUNNABLE;
      nothing else changes. */
  lemma RunExact(k: State, e: nat)
    requires Formed(k) && e < EnvIds.NENV
    ensures var t := EnvRun(k, e);
            && t == k.(envs := t.envs, cur := Some(e)) && |t.envs| == |k.envs| && t.envs[e] == k.envs[e].(status := ENV_RUNNING)
            && forall f: nat | f < EnvIds.NENV && f != e ::
                 t.envs[f] == if k.cur == Some(f) && k.envs[f].status == ENV_RUNNING then k.envs[f].(status := ENV_RUNNABLE) else k.envs[f]
  {
  }

  // ---- What the memory calls answer ----

  /** A page-aligned address below UTOP. */
  predicate UserAddress(va: nat) { va < 0xEEC0_0000 && va % 4096 == 0 }

  /** PTE_U and PTE_P, and nothing outside PTE_AVAIL, PTE_W, PTE_U and PTE_P. */
  predicate UserBits(perm: Word) { HasU(perm.flags) && HasP(perm.flags) && perm.frame == 0 && perm.flags & 0x1F8 == 0 }

  lemma BitsOk(perm: Word)
    ensures UserBits(perm) <==> PermOk(perm)
    ensures PermBits(perm) <==> perm.frame == 0 && perm.flags & 0x1F8 == 0
  {
    hide HasU, HasP;
    assert !PTE_SYSCALL == 0x1F8;
  }

  /** sys_page_alloc: which error, and that it succeeds if and only if the arguments are good and
      there are two free pages, or one and the table. */
  lemma PageAllocAnswers(k: State, envid: int, e: nat, va: nat, perm: Word)
    requires KInv(k) && k.cur.Some? && Names(k, envid, e)
    ensures var (t, r) := SysPageAlloc(k, envid, va, perm);
            if !UserAddress(va) || !HasU(perm.flags) || !HasP(perm.flags) then r == -3 && t == k
            else if UserBits(perm) && (|k.s.free| >= 2 || (k.s.free != [] && PageAt(k.envs[e].pgdir, va).slot in k.s.tabs)) then r == 0
            else r == -4 && t == k
  {
    hide Inv, Slots, FreeEnvs, OwnDirs, HasU, HasP, PermBits, PermOk, Pdx, Ptx;
    NamesIsResolved(k, envid, e);
    BitsOk(perm);
    EnvRuns.PageAllocKeeps(k, envid, va, perm);
    if k.s.free != [] {
      PrepareFails(Alloc(k.s), k.s.free[0], PageAt(k.envs[e].pgdir, va));
    }
  }

  /** sys_page_map: which error. A source page that is not mapped is refused only without its table, or if it
      is to be writable. */
  lemma PageMapAnswers(k: State, srcid: int, a: nat, srcva: nat, dstid: int, b: nat, dstva: nat, perm: Word)
    requires KInv(k) && k.cur.Some? && Names(k, srcid, a) && Names(k, dstid, b)
    ensures var v, w := PageAt(k.envs[a].pgdir, srcva), PageAt(k.envs[b].pgdir, dstva);
            var (t, r) := SysPageMap(k, srcid, srcva, dstid, dstva, perm);
            if !UserAddress(srcva) || !UserAddress(dstva) || !UserBits(perm) then r == -3 && t == k
            else if v.slot !in k.s.tabs || (HasW(perm.flags) && !(v in k.s.maps && HasW(k.s.maps[v].flags))) then r == -3 && t == k
            else if w.slot !in k.s.tabs && k.s.free == [] then r == -4 && t == k
            else r == 0
  {
    hide Inv, Slots, FreeEnvs, OwnDirs, HasU, HasP, PermBits, UserBits, PermOk, Pdx, Ptx;
    NamesIsResolved(k, srcid, a);
    NamesIsResolved(k, dstid, b);
    BitsOk(perm);
    EnvRuns.PageMapKeepsIff(k, srcid, srcva, dstid, dstva, perm);
  }

  /** sys_page_unmap: a bad address is refused; a mapped page is gone afterwards, and nothing else. */
  lemma PageUnmapExact(k: State, envid: int, e: nat, va: nat)
    requires KInv(k) && k.cur.Some? && Names(k, envid, e)
    ensures var (t, r) := SysPageUnmap(k, envid, va);
            if !UserAddress(va) then r == -3 && t == k
            else && r == 0 && t == k.(s := t.s) && t.s.maps == k.s.maps - {PageAt(k.envs[e].pgdir, va)}
                 && t.s.tabs == k.s.tabs && t.s.dirs == k.s.dirs
                 && (PageAt(k.envs[e].pgdir, va).slot !in k.s.tabs ==> t == k)
  {
    hide Inv, Slots, FreeEnvs, OwnDirs, Pdx, Ptx;
    NamesIsResolved(k, envid, e);
    var v := PageAt(k.envs[e].pgdir, va);
    if v in k.s.maps {
      EnvRuns.HasTableToo(k.s, v);
    }
  }
}
