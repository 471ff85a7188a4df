/** The kernel's calls as events of copy-on-write runs: what module Cow proves of runs of
    events holds of runs of the kernel and its user programs. (UserStore's postcondition is a
    store event; loads and scheduling change nothing.) */
module CowEvents {
  import opened Mmu
  import opened PageSpace
  import opened PageWords
  import Teardown
  import EnvIds
  import opened EnvState
  import EnvRuns
  import KernelCalls
  import opened Cow

  /** Frames that stay mapped, by pages that are not new, are not touched by a system call. */
  lemma MappedFramesKept(m: Frames, m': Frames, s: Space, t: Space, x: nat)
    requires KernelCalls.SamePages(m, m', s, t, x) && Inv(s, {}) && Inv(t, {}) && t.kern == s.kern && t.boot == s.boot && |m| == |s.ref|
    requires forall u | IsUser(t, u) && t.maps[u].frame != x :: !Unmapped(s, t.maps[u].frame)
    ensures Between(Machine(s, m), Machine(t, m'), x)
  {
    hide Counted, FreeList, Owned, HasW;
    forall f: nat | f < |m| && f != x && !Unmapped(t, f) ensures m'[f] == m[f] {
      var u :| IsUser(t, u) && t.maps[u].frame == f;
      assert DataFrame(t, f, t.maps[u].flags);
      var v :| IsUser(s, v) && s.maps[v].frame == f;
      assert DataFrame(s, f, s.maps[v].flags);
    }
  }

  /** The end of an environment is an exit event. */
  lemma ExitHappens(k: State, e: nat, m: Frames, m': Frames)
    requires KInv(k) && Live(k, e) && |m| == |k.s.ref| && KernelCalls.SamePages(m, m', k.s, EnvFree(k, e).s, |m|)
    ensures var t := EnvFree(k, e).s;
            Happens(Machine(k.s, m), Machine(t, m'), Exit(k.envs[e].pgdir, Shown(k.s, t)))
  {
    hide Inv, FreeSpace, Slots, FreeEnvs, HasW, Shown;
    var d := k.envs[e].pgdir;
    var t := FreeSpace(k.s, d);
    Teardown.FreeSpaceExact(k.s, {}, d);
    KernOwnsNone(k.s, d);
    assert t.maps == (map v | v in k.s.maps && v.slot.dir != d :: k.s.maps[v]);
    assert forall u | IsUser(t, u) :: IsUser(k.s, u);
    MappedFramesKept(m, m', k.s, t, |m|);
  }

  lemma FreeIsUnmapped(s: Space, x: nat)
    requires Inv(s, {}) && x in s.free
    ensures Unmapped(s, x)
  {
    forall v | IsUser(s, v) ensures s.maps[v].frame != x {
      assert s.maps[v].frame == x ==> v in DataRefs(s, x);
    }
  }

  /** sys_page_alloc that succeeds is an allocation event. */
  lemma PageAllocHappens(k: State, envid: int, va: nat, perm: Word, m: Frames, m': Frames)
    requires KInv(k) && k.cur.Some? && k.s.free != [] && k.s.free[0] < |m| == |m'| == |k.s.ref|
    requires EnvState.SysPageAlloc(k, envid, va, perm).1 == 0 && m'[k.s.free[0]] == ZeroPage()
    requires KernelCalls.SamePages(m, m', k.s, EnvState.SysPageAlloc(k, envid, va, perm).0.s, k.s.free[0])
    ensures Envid2Env(k, envid, true).Some?
    ensures var v := PageAt(k.envs[Envid2Env(k, envid, true).value].pgdir, va);
            var t := EnvState.SysPageAlloc(k, envid, va, perm).0.s;
            Happens(Machine(k.s, m), Machine(t, m'), Event.PageAlloc(v, perm.flags, k.s.free[0], Shown(k.s, t)))
  {
    hide Inv, Slots, FreeEnvs, OwnDirs, Insert, HasU, HasP, HasW, PermBits, Pdx, Ptx, Shown;
    var x, v := k.s.free[0], PageAt(k.envs[Envid2Env(k, envid, true).value].pgdir, va);
    EnvRuns.ResolvedIsLive(k, envid, true);
    EnvRuns.UserVa(k.s, v.slot.dir, va);
    EnvRuns.FreshInsert(k.s, v, perm.flags);
    assert x in k.s.free;
    FreeIsUnmapped(k.s, x);
    var t := Insert(Alloc(k.s), x, v, perm.flags).value;
    assert forall u | IsUser(t, u) && u != v :: IsUser(k.s, u);
    MappedFramesKept(m, m', k.s, t, x);
  }

  /** sys_page_map that succeeds (PageMapExact says what it changes) is a mapping event. */
  lemma PageMapHappens(k: State, t: State, v: Page, w: Page, perm: bv12, m: Frames, m': Frames)
    requires KInv(k) && KInv(t) && |m| == |k.s.ref| && KernelCalls.SamePages(m, m', k.s, t.s, |m|)
    requires IsUser(k.s, v) && w.slot.dir in k.s.dirs && t.s.kern == k.s.kern && t.s.boot == k.s.boot
    requires t.s.maps == k.s.maps[w := Entry(k.s.maps[v].frame, perm)]
    requires HasW(perm) ==> HasW(k.s.maps[v].flags)
    ensures Happens(Machine(k.s, m), Machine(t.s, m'), Event.PageMap(v, w, perm, Exposed(t.s, w), Source(k.s, v), Shown(k.s, t.s)))
  {
    hide Inv, Slots, FreeEnvs, OwnDirs, HasW, Shown, Exposed;
    assert forall u | IsUser(t.s, u) && u != w :: IsUser(k.s, u);
    MappedFramesKept(m, m', k.s, t.s, |m|);
  }

  /** sys_page_unmap of a mapped page is an unmapping event. */
  lemma PageUnmapHappens(k: State, t: State, v: Page, m: Frames, m': Frames)
    requires KInv(k) && KInv(t) && |m| == |k.s.ref| && KernelCalls.SamePages(m, m', k.s, t.s, |m|) && v.slot.dir in k.s.dirs
    requires t.s.maps == k.s.maps - {v} && t.s.kern == k.s.kern && t.s.boot == k.s.boot
    ensures Happens(Machine(k.s, m), Machine(t.s, m'), Event.PageUnmap(v, Shown(k.s, t.s)))
  {
    hide Inv, Slots, FreeEnvs, OwnDirs, HasW, Shown;
    assert forall u | IsUser(t.s, u) :: IsUser(k.s, u);
    MappedFramesKept(m, m', k.s, t.s, |m|);
  }

  /** A new environment shares nothing, and nobody sees it. */
  lemma ExoforkHappens(k: State, m: Frames, m': Frames)
    requires KInv(k) && k.cur.Some? && |m| == |k.s.ref| && KernelCalls.SamePages(m, m', k.s, EnvState.SysExofork(k).0.s, |m|)
    ensures Happens(Machine(k.s, m), Machine(EnvState.SysExofork(k).0.s, m'), Quiet)
  {
    hide Inv, Slots, FreeEnvs, OwnDirs, NewDir, HasW, EnvIds.IdAfter;
    var t := EnvState.SysExofork(k).0;
    EnvRuns.EnvAllocKeeps(k, k.envs[k.cur.value].id, ENV_NOT_RUNNABLE);
    NewDirFields(k.s);
    assert forall u | IsUser(t.s, u) :: IsUser(k.s, u);
    MappedFramesKept(m, m', k.s, t.s, |m|);
  }

  lemma NewDirFields(s: Space)
    ensures s.free != [] ==> NewDir(s).maps == s.maps && NewDir(s).kern == s.kern && NewDir(s).boot == s.boot && |NewDir(s).free| == |s.free| - 1
  {
  }
}
