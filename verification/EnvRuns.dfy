/** Every kernel entry keeps the state consistent, except exactly the two kinds of call that
    the code gets wrong; and what follows for whole runs. */
module EnvRuns {
  import opened Basics
  import opened Mmu
  import opened PageSpace
  import opened PageWords
  import Teardown
  import opened EnvIds
  import opened EnvState

  lemma ResolvedIsLive(k: State, envid: int, checkperm: bool)
    requires KInv(k) && k.cur.Some?
    ensures var e := Envid2Env(k, envid, checkperm);
            e.Some? ==> e.value < NENV && Live(k, e.value) && k.envs[e.value].pgdir in k.s.dirs
  {
    hide Inv;
  }

  /** A memory operation that leaves the directories alone is judged by Inv alone. */
  lemma MemoryOnly(k: State, t: Space)
    requires KInv(k) && t.dirs == k.s.dirs
    ensures KInv(k.(s := t)) <==> Inv(t, {})
  {
    hide Inv;
    var u := k.(s := t);
    assert forall e :: Live(u, e) <==> Live(k, e);
    assert OwnDirs(u);
  }

  lemma UserVa(s: Space, d: nat, va: nat)
    requires d in s.dirs && VaOk(va)
    ensures UserPage(s, PageAt(d, va))
  {
    assert va / 0x40_0000 < 955;
  }

  lemma PageAllocKeeps(k: State, envid: int, va: nat, perm: Word)
    requires KInv(k) && k.cur.Some?
    ensures var (t, r) := SysPageAlloc(k, envid, va, perm); KInv(t) && (r != 0 ==> t == k)
  {
    hide Inv, Slots, FreeEnvs, OwnDirs, HasU, HasP, PermBits;
    ResolvedIsLive(k, envid, true);
    var (t, r) := SysPageAlloc(k, envid, va, perm);
    var e := Envid2Env(k, envid, true);
    if e.Some? && VaOk(va) && k.s.free != [] {
      FreeUndoesAlloc(k.s);
      FreshInsert(k.s, PageAt(k.envs[e.value].pgdir, va), perm.flags);
      MemoryOnly(k, t.s);
    }
  }

  /** Mapping a page just allocated always keeps the invariant: its count is zero. */
  lemma FreshInsert(s: Space, v: Page, perm: bv12)
    requires Inv(s, {}) && s.free != [] && v.slot.dir in s.dirs && v.slot.pdx < UTOP_PDX && v.ptx < 1024
    ensures match Insert(Alloc(s), s.free[0], v, perm)
            case None => true
            case Some(t) => Inv(t, {}) && t.dirs == s.dirs && t.maps == s.maps[v := Entry(s.free[0], perm)]
                            && t.kern == s.kern && t.boot == s.boot && (forall k | k in s.tabs :: k in t.tabs)
                            && !IsTable(t.tabs, s.free[0]) && s.free[0] !in s.dirs && s.free[0] != s.kern
  {
    hide Refs, IsTable;
    var p := s.free[0];
    AllocKeeps(s, {});
    assert {} + {p} == {p} && {p} - {p} == {};
    Unreferenced(Alloc(s), p);
    InsertKeepsIff(Alloc(s), {p}, p, v, perm);
  }

  lemma PageUnmapKeepsIff(k: State, envid: int, va: nat)
    requires KInv(k) && k.cur.Some?
    ensures KInv(SysPageUnmap(k, envid, va).0) <==> Sound(k, PageUnmap(envid, va))
  {
    hide Slots, FreeEnvs, OwnDirs, Counted, FreeList, Owned, Mapped;
    ResolvedIsLive(k, envid, true);
    var e := Envid2Env(k, envid, true);
    if e.Some? && VaOk(va) {
      var v := PageAt(k.envs[e.value].pgdir, va);
      RemoveKeepsIff(k.s, {}, v);
      MemoryOnly(k, Remove(k.s, v));
    }
  }

  /** A page that page_lookup finds may be inserted with no more rights than it has. */
  lemma LookedUpInsertable(s: Space, v: Page, perm: bv12)
    requires Inv(s, {}) && v.slot.dir in s.dirs && v.slot in s.tabs
    requires HasW(perm) ==> HasW(Pte(s, v).flags)
    ensures Insertable(s, Pte(s, v).frame, perm)
  {
    LookedUpInUse(s, {}, v);
    assert !HasW(0);
    assert TableSlot(s, v.slot);
    assert !IsTable(s.tabs, 0);
  }

  lemma PageMapKeepsIff(k: State, a: int, x: nat, b: int, y: nat, perm: Word)
    requires KInv(k) && k.cur.Some?
    ensures KInv(SysPageMap(k, a, x, b, y, perm).0) <==> Sound(k, PageMap(a, x, b, y, perm))
    ensures SysPageMap(k, a, x, b, y, perm).1 != 0 ==> SysPageMap(k, a, x, b, y, perm).0 == k
  {
    hide Slots, FreeEnvs, OwnDirs, Inv, HasU, HasP, HasW, PermOk;
    ResolvedIsLive(k, a, true);
    ResolvedIsLive(k, b, true);
    var (t, r) := SysPageMap(k, a, x, b, y, perm);
    if r == 0 {
      var v := PageAt(k.envs[Envid2Env(k, a, true).value].pgdir, x);
      var w := PageAt(k.envs[Envid2Env(k, b, true).value].pgdir, y);
      LookedUpInsertable(k.s, v, perm.flags);
      UserVa(k.s, w.slot.dir, y);
      InsertKeepsIff(k.s, {}, Pte(k.s, v).frame, w, perm.flags);
      assert {} - {Pte(k.s, v).frame} == {};
      MemoryOnly(k, t.s);
    }
  }

  /** Where sys_page_map departs from its comment: a source page that is not mapped is refused
      only when its whole table is missing; otherwise frame 0 is mapped in its stead. */
  lemma MapOfUnmapped(k: State, a: int, x: nat, b: int, y: nat, perm: Word)
    requires KInv(k) && k.cur.Some?
    requires Envid2Env(k, a, true).Some? && Envid2Env(k, b, true).Some? && VaOk(x) && VaOk(y) && PermOk(perm)
    requires !HasW(perm.flags) && PageAt(k.envs[Envid2Env(k, a, true).value].pgdir, x) !in k.s.maps
    ensures var v := PageAt(k.envs[Envid2Env(k, a, true).value].pgdir, x);
            var w := PageAt(k.envs[Envid2Env(k, b, true).value].pgdir, y);
            var (t, r) := SysPageMap(k, a, x, b, y, perm);
            && (r == INVAL <==> v.slot !in k.s.tabs)
            && (r == 0 ==> w in t.s.maps && t.s.maps[w].frame == 0)
  {
    hide Inv, Slots, FreeEnvs, OwnDirs;
  }

  /** An id other than 0 resolves to the one live environment that has it, and, for a call that
      checks permission, only if that is the caller or a child of the caller. */
  lemma ResolvesIff(k: State, envid: int, e: nat)
    requires KInv(k) && k.cur.Some? && envid != 0
    ensures Envid2Env(k, envid, false) == Some(e) <==> Live(k, e) && k.envs[e].id == envid
    ensures Envid2Env(k, envid, true) == Some(e) <==>
              Live(k, e) && k.envs[e].id == envid && (k.cur == Some(e) || k.envs[e].parent == k.envs[k.cur.value].id)
  {
    hide Inv, FreeEnvs, OwnDirs, IdAfter;
    if Live(k, e) {
      IdNamesSlot(e, k.allocs[e]);
    }
  }

  /** sys_page_map gives the destination the source's frame with exactly the asked permission, no
      write permission that the source lacks, and leaves every other page of everybody alone. */
  lemma PageMapExact(k: State, a: int, x: nat, b: int, y: nat, perm: Word)
    requires KInv(k) && k.cur.Some? && SysPageMap(k, a, x, b, y, perm).1 == 0
    ensures Envid2Env(k, a, true).Some? && Envid2Env(k, b, true).Some?
    ensures var v := PageAt(k.envs[Envid2Env(k, a, true).value].pgdir, x);
            var w := PageAt(k.envs[Envid2Env(k, b, true).value].pgdir, y);
            var t := SysPageMap(k, a, x, b, y, perm).0;
            && t == k.(s := t.s) && t.s.dirs == k.s.dirs && t.s.kern == k.s.kern && t.s.boot == k.s.boot
            && t.s.maps == k.s.maps[w := Entry(Pte(k.s, v).frame, perm.flags)]
            && (HasW(t.s.maps[w].flags) ==> HasW(Pte(k.s, v).flags))
            && UserPage(k.s, w) && PermOk(perm)
  {
    hide Slots, FreeEnvs, OwnDirs, Inv, HasU, HasP, HasW, PermOk, Insert;
    ResolvedIsLive(k, a, true);
    ResolvedIsLive(k, b, true);
    var v := PageAt(k.envs[Envid2Env(k, a, true).value].pgdir, x);
    var w := PageAt(k.envs[Envid2Env(k, b, true).value].pgdir, y);
    LookedUpInsertable(k.s, v, perm.flags);
    UserVa(k.s, w.slot.dir, y);
    InsertKeepsIff(k.s, {}, Pte(k.s, v).frame, w, perm.flags);
  }

  /** sys_page_alloc maps a page that nobody had, and leaves every other page of everybody alone. */
  lemma PageAllocExact(k: State, envid: int, va: nat, perm: Word)
    requires KInv(k) && k.cur.Some? && SysPageAlloc(k, envid, va, perm).1 == 0
    ensures Envid2Env(k, envid, true).Some? && k.s.free != [] && PermOk(perm)
    ensures var v := PageAt(k.envs[Envid2Env(k, envid, true).value].pgdir, va);
            var t := SysPageAlloc(k, envid, va, perm).0;
            && t == k.(s := t.s) && t.s.dirs == k.s.dirs && t.s.maps == k.s.maps[v := Entry(k.s.free[0], perm.flags)]
            && forall u | u in k.s.maps && u.slot.dir != k.s.kern :: k.s.maps[u].frame != k.s.free[0]
  {
    hide Inv, Slots, FreeEnvs, OwnDirs, HasU, HasP, HasW, PermBits, Insert;
    ResolvedIsLive(k, envid, true);
    var v := PageAt(k.envs[Envid2Env(k, envid, true).value].pgdir, va);
    UserVa(k.s, v.slot.dir, va);
    FreshInsert(k.s, v, perm.flags);
    FreeIsUnmapped(k.s, k.s.free[0]);
  }

  lemma FreeIsUnmapped(s: Space, x: nat)
    requires Inv(s, {}) && s.free != [] && x == s.free[0]
    ensures forall u | u in s.maps && u.slot.dir != s.kern :: s.maps[u].frame != x
  {
    assert x in s.free;
    forall u | u in s.maps && u.slot.dir != s.kern ensures s.maps[u].frame != x {
      assert s.maps[u].frame == x ==> u in DataRefs(s, x);
    }
  }

  // ---- env_alloc, env_free, env_run ----

  lemma AllocSpace(k: State)
    requires KInv(k) && k.s.free != []
    ensures Inv(NewDir(k.s), {}) && NewDir(k.s).dirs == k.s.dirs + {k.s.free[0]} && k.s.free[0] !in k.s.dirs
  {
    hide Refs;
    NewDirKeeps(k.s, {});
  }

  /** A failed env_alloc changes nothing; a successful one takes the first free slot. */
  lemma EnvAllocKeeps(k: State, parent: int, status: Status)
    requires KInv(k) && status != ENV_FREE
    ensures var (t, r) := EnvAlloc(k, parent, status);
            KInv(t) && (r < 0 ==> t == k) && (r >= 0 ==> r > 0 && EnvX(r) == k.free[0])
  {
    hide Inv, NewDir, IdAfter;
    if k.free != [] && k.s.free != [] {
      var e := k.free[0];
      assert e in k.free;
      var t := EnvAlloc(k, parent, status).0;
      AllocSpace(k);
      IdNamesSlot(e, t.allocs[e]);
      IdStep(e, k.allocs[e]);
      forall f: nat | f < NENV && f != e ensures t.envs[f] == k.envs[f] && t.allocs[f] == k.allocs[f] {}
      SlotsAfterAlloc(k, t, e);
      FreeAfterAlloc(k, t, e);
      DirsAfterAlloc(k, t, e);
    }
  }

  lemma IdStep(e: nat, n: nat)
    ensures IdAfter(e, n + 1) == NextId(IdAfter(e, n), e)
  {
  }

  lemma SlotsAfterAlloc(k: State, t: State, e: nat)
    requires Formed(k) && Slots(k) && e < NENV && Formed(t)
    requires t.allocs == k.allocs[e := k.allocs[e] + 1] && t.envs == k.envs[e := t.envs[e]]
    requires t.envs[e].id == IdAfter(e, t.allocs[e])
    ensures Slots(t)
  {
    hide IdAfter;
  }

  lemma FreeAfterAlloc(k: State, t: State, e: nat)
    requires Formed(k) && FreeEnvs(k) && k.free != [] && e == k.free[0] < NENV
    requires t.free == k.free[1..] && |t.envs| == NENV && t.envs == k.envs[e := t.envs[e]] && Live(t, e)
    ensures FreeEnvs(t)
  {
    forall f: nat ensures f in t.free <==> f < |t.envs| && !Live(t, f) {
      assert f in k.free <==> f in t.free || f == e;
    }
  }

  lemma DirsAfterAlloc(k: State, t: State, e: nat)
    requires Formed(k) && OwnDirs(k) && e < NENV && !Live(k, e) && Live(t, e)
    requires |t.envs| == NENV && t.envs == k.envs[e := t.envs[e]]
    requires t.s.dirs == k.s.dirs + {t.envs[e].pgdir} && t.envs[e].pgdir !in k.s.dirs
    ensures OwnDirs(t)
  {
    assert forall f: nat | f != e :: Live(t, f) <==> Live(k, f);
  }

  lemma EnvFreeKeeps(k: State, e: nat)
    requires KInv(k) && Live(k, e)
    ensures var t := EnvFree(k, e); KInv(if k.cur == Some(e) then t.(cur := None) else t)
  {
    hide Inv, FreeSpace, IdAfter;
    var t := EnvFree(k, e);
    Teardown.FreeSpaceExact(k.s, {}, k.envs[e].pgdir);
    assert Live(k, e) && e !in k.free;
    forall f: nat | f != e ensures Live(t, f) <==> Live(k, f) {}
    forall f: nat ensures f in t.free <==> f == e || f in k.free {
      assert t.free[0] == e;
    }
    DirsAfterFree(k, t, e);
  }

  lemma DirsAfterFree(k: State, t: State, e: nat)
    requires Formed(k) && OwnDirs(k) && Live(k, e) && !Live(t, e)
    requires |t.envs| == NENV && t.envs == k.envs[e := t.envs[e]] && t.s.dirs == k.s.dirs - {k.envs[e].pgdir}
    ensures OwnDirs(t)
  {
    assert forall f: nat | f != e :: Live(t, f) <==> Live(k, f);
    forall d | d in t.s.dirs ensures exists f: nat :: Live(t, f) && t.envs[f].pgdir == d {
      var f: nat :| Live(k, f) && k.envs[f].pgdir == d;
      assert Live(t, f);
    }
  }

  lemma StatusKeeps(k: State, e: nat, status: Status)
    requires KInv(k) && Live(k, e) && status != ENV_FREE
    ensures KInv(SetStatus(k, e, status)) && Live(SetStatus(k, e, status), e)
  {
    hide Inv, IdAfter, OwnDirs, FreeEnvs;
    var t := SetStatus(k, e, status);
    assert forall f: nat :: Live(t, f) <==> Live(k, f);
    SameLive(k, t);
  }

  lemma UpcallKeeps(k: State, e: nat, func: nat)
    requires KInv(k) && Live(k, e)
    ensures KInv(SetUpcall(k, e, func)) && Live(SetUpcall(k, e, func), e)
  {
    hide Inv, IdAfter, OwnDirs, FreeEnvs;
    var t := SetUpcall(k, e, func);
    assert forall f: nat :: Live(t, f) <==> Live(k, f);
    SameLive(k, t);
  }

  /** Which environments are live, and with which directories, decides about slots and
      directories. */
  lemma SameLive(k: State, t: State)
    requires Formed(k) && Formed(t) && t.free == k.free && t.s == k.s
    requires forall f: nat :: Live(t, f) <==> Live(k, f)
    requires forall f: nat | f < NENV :: t.envs[f].pgdir == k.envs[f].pgdir
    ensures FreeEnvs(k) ==> FreeEnvs(t)
    ensures OwnDirs(k) ==> OwnDirs(t)
  {
    hide Live;
    assert forall f: nat :: Live(k, f) ==> f < NENV by { LiveInRange(k); }
  }

  lemma LiveInRange(k: State)
    requires Formed(k)
    ensures forall f: nat :: Live(k, f) ==> f < NENV
  {
  }

  lemma EnvRunKeeps(k: State, e: nat)
    requires KInv(k) && Live(k, e)
    ensures KInv(EnvRun(k, e))
  {
    var t := k;
    if k.cur.Some? && k.envs[k.cur.value].status == ENV_RUNNING {
      StatusKeeps(k, k.cur.value, ENV_RUNNABLE);
      t := SetStatus(k, k.cur.value, ENV_RUNNABLE);
    }
    StatusKeeps(t, e, ENV_RUNNING);
    hide Inv, Slots, FreeEnvs;
    var u := SetStatus(t, e, ENV_RUNNING);
    CurKeeps(u, Some(e));
  }

  lemma CurKeeps(k: State, cur: Option<nat>)
    requires KInv(k) && (cur.Some? ==> Live(k, cur.value))
    ensures KInv(k.(cur := cur))
  {
    hide Inv, IdAfter;
    var t := k.(cur := cur);
    assert forall f: nat :: Live(t, f) <==> Live(k, f);
    assert OwnDirs(t);
    assert FreeEnvs(t);
  }

  lemma DestroyKeeps(k: State, e: nat)
    requires KInv(k) && Live(k, e)
    ensures KInv(EnvDestroy(k, e))
  {
    hide KInv, EnvFree;
    if k.envs[e].status == ENV_RUNNING && k.cur != Some(e) {
      StatusKeeps(k, e, ENV_DYING);
    } else {
      EnvFreeKeeps(k, e);
    }
  }

  // ---- Whole runs ----

  /** Any kernel entry keeps the invariant if and only if it is a call the code carries out
      correctly. */
  lemma StepKeepsIff(k: State, op: Op)
    requires KInv(k) && Enabled(k, op)
    ensures KInv(Step(k, op)) <==> Sound(k, op)
  {
    hide Inv, Slots, FreeEnvs, OwnDirs;
    match op
    case Exofork => EnvAllocKeeps(k, k.envs[k.cur.value].id, ENV_NOT_RUNNABLE);
    case PageAlloc(envid, va, perm) => PageAllocKeeps(k, envid, va, perm);
    case PageMap(a, x, b, y, perm) => PageMapKeepsIff(k, a, x, b, y, perm);
    case PageUnmap(envid, va) => PageUnmapKeepsIff(k, envid, va);
    case EnvStatus(envid, status) =>
      ResolvedIsLive(k, envid, true);
      var e := Envid2Env(k, envid, true);
      if e.Some? && (status == Some(ENV_RUNNABLE) || status == Some(ENV_NOT_RUNNABLE)) {
        StatusKeeps(k, e.value, status.value);
      }
    case SetHandler(envid, func, there) =>
      ResolvedIsLive(k, envid, true);
      var e := Envid2Env(k, envid, true);
      if e.Some? {
        UpcallKeeps(k, e.value, func);
        if !there {
          DestroyKeeps(SetUpcall(k, e.value, func), e.value);
        }
      }
    case Destroy(envid) =>
      ResolvedIsLive(k, envid, true);
      var e := Envid2Env(k, envid, true);
      if e.Some? {
        DestroyKeeps(k, e.value);
      }
    case Create(parent) => EnvAllocKeeps(k, parent, ENV_RUNNABLE);
    case Run(e) => EnvRunKeeps(k, e);
    case Halt => CurKeeps(k, None);
  }

  /** A run in which every step can happen and is carried out correctly. */
  predicate SoundRun(k: State, ops: seq<Op>)
    decreases |ops|
  {
    ops == [] || (Formed(k) && Enabled(k, ops[0]) && Sound(k, ops[0]) && SoundRun(Step(k, ops[0]), ops[1..]))
  }

  function Exec(k: State, ops: seq<Op>): State
    requires SoundRun(k, ops)
    decreases |ops|
  {
    if ops == [] then k else Exec(Step(k, ops[0]), ops[1..])
  }

  /** The kernel after page_init, boot_map_region and env_init: no environment yet. */
  function BootState(s: Space): State {
    State(s, seq(NENV, _ => Env(0, 0, ENV_FREE, 0, 0)), seq(NENV, i => i), None, seq(NENV, _ => 0))
  }

  lemma BootKeeps(s: Space)
    requires Inv(s, {}) && s.dirs == {}
    ensures KInv(BootState(s))
  {
    hide Inv;
    var k := BootState(s);
    forall e: nat ensures e in k.free <==> e < |k.envs| && !Live(k, e) {
      if e < NENV {
        assert k.free[e] == e;
      }
    }
  }

  /** The reference counts and the free list are exact in every reachable state. */
  lemma {:induction false} RunKeeps(k: State, ops: seq<Op>)
    requires KInv(k) && SoundRun(k, ops)
    ensures KInv(Exec(k, ops))
    decreases |ops|
  {
    hide KInv, Step, Sound;
    if ops != [] {
      StepKeepsIff(k, ops[0]);
      RunKeeps(Step(k, ops[0]), ops[1..]);
    }
  }

  /** An environment that has just been created and runs. */
  lemma FirstRuns(s: Space)
    requires Inv(s, {}) && s.dirs == {} && s.free != []
    ensures SoundRun(BootState(s), [Create(0), Run(0)])
    ensures var k := Exec(BootState(s), [Create(0), Run(0)]);
            && KInv(k) && k.cur == Some(0) && k.s == NewDir(s) && k.envs[0].pgdir == s.free[0]
            && |k.s.free| == |s.free| - 1 && (forall v | v in k.s.maps :: v.slot.dir != s.free[0])
  {
    hide Inv, NewDir, KInv, IdAfter;
    BootKeeps(s);
    var k := BootState(s);
    var k1 := Step(k, Create(0));
    StepKeepsIff(k, Create(0));
    StepKeepsIff(k1, Run(0));
    var ops := [Create(0), Run(0)];
    assert ops[1..] == [Run(0)] && ops[1..][1..] == [];
    NoPagesYet(s);
  }

  lemma NoPagesYet(s: Space)
    requires Inv(s, {}) && s.dirs == {} && s.free != []
    ensures |NewDir(s).free| == |s.free| - 1 && forall v | v in NewDir(s).maps :: v.slot.dir != s.free[0]
  {
    assert s.free[0] in s.free;
  }

  lemma AllocSucceeds(k: State, va: nat)
    requires KInv(k) && k.cur.Some? && VaOk(va) && |k.s.free| >= 2
    ensures SysPageAlloc(k, 0, va, Word(0, PTE_U | PTE_P)).1 == 0
  {
    hide KInv;
  }

  /** The invariant does fail in a run: the first environment allocates the page at UTEXT and
      unmaps the one above it, which is empty. */
  lemma RunThatBreaks(s: Space)
    requires Inv(s, {}) && s.dirs == {} && |s.free| >= 3
    ensures SoundRun(BootState(s), [Create(0), Run(0)])
    ensures var k := Exec(BootState(s), [Create(0), Run(0)]);
            var alloc, unmap := PageAlloc(0, UTEXT, Word(0, PTE_U | PTE_P)), PageUnmap(0, UTEXT + PGSIZE);
            && Formed(k) && Enabled(k, alloc) && Sound(k, alloc) && KInv(Step(k, alloc))
            && Enabled(Step(k, alloc), unmap) && !KInv(Step(Step(k, alloc), unmap))
  {
    hide Inv, NewDir, Slots, FreeEnvs, OwnDirs, Exec, SoundRun, Insert, Remove, BootState, SysPageAlloc, SysPageUnmap;
    FirstRuns(s);
    var k, perm := Exec(BootState(s), [Create(0), Run(0)]), Word(0, PTE_U | PTE_P);
    AllocSucceeds(k, UTEXT);
    PageAllocExact(k, 0, UTEXT, perm);
    PageAllocKeeps(k, 0, UTEXT, perm);
    var t := SysPageAlloc(k, 0, UTEXT, perm).0;
    StepKeepsIff(t, PageUnmap(0, UTEXT + PGSIZE));
    HasTableToo(t.s, PageAt(s.free[0], UTEXT));
    assert PageAt(s.free[0], UTEXT + PGSIZE) == Page(Slot(s.free[0], 2), 1) && PageAt(s.free[0], UTEXT) == Page(Slot(s.free[0], 2), 0);
  }

  lemma HasTableToo(s: Space, v: Page)
    requires Inv(s, {}) && v in s.maps
    ensures v.slot in s.tabs
  {
  }

  // ---- Ids over runs ----

  /** Live ids are positive, name their slots, and are pairwise distinct. */
  lemma LiveIdsDistinct(k: State, e: nat, f: nat)
    requires KInv(k) && Live(k, e) && Live(k, f)
    ensures k.envs[e].id > 0 && EnvX(k.envs[e].id) == e && (k.envs[e].id == k.envs[f].id ==> e == f)
  {
    hide Inv, IdAfter;
    IdNamesSlot(e, k.allocs[e]);
    IdNamesSlot(f, k.allocs[f]);
  }

  lemma {:induction false} AllocsGrow(k: State, ops: seq<Op>, e: nat)
    requires KInv(k) && SoundRun(k, ops) && e < NENV
    ensures |Exec(k, ops).allocs| == NENV && k.allocs[e] <= Exec(k, ops).allocs[e]
    decreases |ops|
  {
    hide Inv, Slots, FreeEnvs, OwnDirs, Step, Sound;
    if ops != [] {
      AllocsStep(k, ops[0], e);
      StepKeepsIff(k, ops[0]);
      AllocsGrow(Step(k, ops[0]), ops[1..], e);
    }
  }

  lemma AllocsStep(k: State, op: Op, e: nat)
    requires KInv(k) && Enabled(k, op) && e < NENV
    ensures |Step(k, op).allocs| == NENV && k.allocs[e] <= Step(k, op).allocs[e]
  {
    hide Inv, Insert, Remove, FreeSpace, NewDir;
  }

  /** An id that was valid at some moment of a run never resolves to a later environment of its
      slot, as long as that slot was allocated fewer than 2^19 - 1 times since. */
  lemma StaleIdsNeverResolve(k: State, ops: seq<Op>, e: nat, checkperm: bool)
    requires KInv(k) && Live(k, e) && SoundRun(k, ops) && Exec(k, ops).cur.Some?
    requires Formed(Exec(k, ops))
    ensures var t := Exec(k, ops);
            var r := Envid2Env(t, k.envs[e].id, checkperm);
            r.Some? ==> r == Some(e) && (t.allocs[e] - k.allocs[e] < GENERATIONS ==> t.allocs[e] == k.allocs[e])
  {
    hide Inv, IdAfter, Exec, SoundRun;
    var t := Exec(k, ops);
    RunKeeps(k, ops);
    AllocsGrow(k, ops, e);
    IdNamesSlot(e, k.allocs[e]);
    IdsRecur(e, k.allocs[e], t.allocs[e]);
  }

  // ---- Conservation over runs ----

  /** The page tables of kern_pgdir. */
  ghost predicate SameKernelTables(s: Space, t: Space) {
    && s.kern == t.kern && s.boot == t.boot
    && forall k: Slot | k.dir == s.kern :: (k in s.tabs <==> k in t.tabs) && (k in s.tabs ==> s.tabs[k] == t.tabs[k])
  }

  lemma InsertTables(s: Space, p: nat, v: Page, perm: bv12)
    requires v.slot.dir != s.kern
    ensures Insert(s, p, v, perm).Some? ==> SameKernelTables(s, Insert(s, p, v, perm).value)
  {
  }

  lemma NotKernel(s: Space, d: nat)
    requires Inv(s, {}) && d in s.dirs
    ensures d != s.kern
  {
  }

  lemma DestroyKernelTables(k: State, envid: int, func: nat, there: bool)
    requires KInv(k) && k.cur.Some?
    ensures SameKernelTables(k.s, SysEnvDestroy(k, envid).0.s)
    ensures SameKernelTables(k.s, SysEnvSetPgfaultUpcall(k, envid, func, there).0.s)
  {
    hide Inv, Slots, FreeEnvs, OwnDirs, FreeSpace;
    ResolvedIsLive(k, envid, true);
    var e := Envid2Env(k, envid, true);
    if e.Some? {
      Teardown.FreeSpaceExact(k.s, {}, k.envs[e.value].pgdir);
      NotKernel(k.s, k.envs[e.value].pgdir);
    }
  }

  lemma AllocKernelTables(k: State, envid: int, va: nat, perm: Word)
    requires KInv(k) && k.cur.Some?
    ensures SameKernelTables(k.s, SysPageAlloc(k, envid, va, perm).0.s)
  {
    hide Inv, Slots, FreeEnvs, OwnDirs, Insert, HasU, HasP, PermBits;
    ResolvedIsLive(k, envid, true);
    var e := Envid2Env(k, envid, true);
    if e.Some? && k.s.free != [] {
      NotKernel(k.s, k.envs[e.value].pgdir);
      InsertTables(Alloc(k.s), k.s.free[0], PageAt(k.envs[e.value].pgdir, va), perm.flags);
    }
  }

  lemma MapKernelTables(k: State, a: int, x: nat, b: int, y: nat, perm: Word)
    requires KInv(k) && k.cur.Some?
    ensures SameKernelTables(k.s, SysPageMap(k, a, x, b, y, perm).0.s)
  {
    hide Inv, Slots, FreeEnvs, OwnDirs, Insert, HasW, PermOk;
    ResolvedIsLive(k, a, true);
    ResolvedIsLive(k, b, true);
    var src, dst := Envid2Env(k, a, true), Envid2Env(k, b, true);
    if src.Some? && dst.Some? {
      NotKernel(k.s, k.envs[dst.value].pgdir);
      var v := PageAt(k.envs[src.value].pgdir, x);
      InsertTables(k.s, Pte(k.s, v).frame, PageAt(k.envs[dst.value].pgdir, y), perm.flags);
    }
  }

  lemma StepKernelTables(k: State, op: Op)
    requires KInv(k) && Enabled(k, op)
    ensures SameKernelTables(k.s, Step(k, op).s)
  {
    hide Inv, Slots, FreeEnvs, OwnDirs, SysPageAlloc, SysPageMap, SysEnvDestroy, SysEnvSetPgfaultUpcall, IdAfter, NextId;
    match op {
      case Destroy(envid) => DestroyKernelTables(k, envid, 0, true);
      case SetHandler(envid, func, there) => DestroyKernelTables(k, envid, func, there);
      case PageAlloc(envid, va, perm) => AllocKernelTables(k, envid, va, perm);
      case PageMap(a, x, b, y, perm) => MapKernelTables(k, a, x, b, y, perm);
      case _ =>
    }
  }

  lemma {:induction false} RunKernelTables(k: State, ops: seq<Op>)
    requires KInv(k) && SoundRun(k, ops)
    ensures SameKernelTables(k.s, Exec(k, ops).s)
    decreases |ops|
  {
    hide KInv, Step, Sound;
    if ops != [] {
      StepKeepsIff(k, ops[0]);
      StepKernelTables(k, ops[0]);
      RunKernelTables(Step(k, ops[0]), ops[1..]);
    }
  }

  /** However many environments came, forked, mapped memory and went: when none is left, every
      count and the set of free pages are back to what they were before the first. */
  lemma RunConserves(k: State, ops: seq<Op>)
    requires KInv(k) && k.s.dirs == {} && SoundRun(k, ops) && Exec(k, ops).s.dirs == {}
    ensures var t := Exec(k, ops).s; t.ref == k.s.ref && forall p: nat :: p in t.free <==> p in k.s.free
  {
    hide Refs, Counted, FreeList, Exec, SoundRun, Slots, FreeEnvs, OwnDirs;
    var t := Exec(k, ops).s;
    RunKeeps(k, ops);
    RunKernelTables(k, ops);
    assert t.tabs == k.s.tabs;
    Teardown.AllFreed(k.s, t);
  }
}
