/** The system calls and memory accesses of lib/fork.c and user/dumbfork.c, made by the current
    environment, each with the event that it is. */
module LibCalls {
  import opened Basics
  import opened Mmu
  import opened PageSpace
  import opened PageWords
  import Pmap
  import EnvIds
  import opened EnvState
  import opened EnvRuns
  import opened KernelCalls
  import opened Cow
  import CowEvents

  function Me(k: State): int
    requires Formed(k) && k.cur.Some?
  {
    k.envs[k.cur.value].id
  }

  function Dir(k: State): nat
    requires Formed(k) && k.cur.Some?
  {
    k.envs[k.cur.value].pgdir
  }

  /** A current environment runs in its own address space. */
  ghost predicate Ready(kn: Kernel)
    reads kn, kn.pm
  {
    kn.Valid() && KInv(kn.k) && kn.cur.Some? && kn.pm.cr3 == Dir(kn.k)
  }

  ghost function Now(kn: Kernel): Machine
    reads kn, kn.pm
  {
    Machine(kn.k.s, kn.pm.mem)
  }

  lemma MyIdResolves(k: State)
    requires KInv(k) && k.cur.Some?
    ensures Me(k) > 0 && Envid2Env(k, Me(k), true) == k.cur && Dir(k) in k.s.dirs && Dir(k) != k.s.kern
  {
    hide Inv, EnvIds.IdAfter;
    LiveIdsDistinct(k, k.cur.value, k.cur.value);
    KernOwnsNone(k.s, Dir(k));
  }

  lemma PageAddress(d: nat, pn: nat)
    requires pn < 955 * 1024
    ensures VaOk(pn * 4096) && PageAt(d, pn * 4096) == PageNo(d, pn)
  {
    assert pn * 4096 / 0x40_0000 == pn / 1024;
  }

  lemma RepSized(mem: Frames, s: Space)
    requires Rep(mem, s)
    ensures |mem| == |s.ref|
  {
  }

  lemma MappedHasTable(s: Space, v: Page)
    requires Shaped(s) && v in s.maps
    ensures v.slot in s.tabs && v.ptx < 1024
  {
  }

  const UPW: bv12 := PTE_U | PTE_P | PTE_W

  lemma UpwOk()
    ensures PermOk(Word(0, UPW)) && HasU(UPW) && HasP(UPW) && PermBits(Word(0, UPW)) && HasW(UPW)
  {
  }

  lemma DupPermOk(flags: bv12)
    ensures PermOk(Word(0, DupPerm(flags)))
  {
  }

  // ---- sys_page_map ----

  /** sys_page_map when its arguments are in order. */
  lemma MapCall(k: State, a: int, x: nat, b: int, y: nat, perm: bv12)
    requires Formed(k) && k.cur.Some? && VaOk(x) && VaOk(y) && PermOk(Word(0, perm))
    requires Envid2Env(k, a, true).Some? && Envid2Env(k, b, true).Some?
    requires var v := PageAt(k.envs[Envid2Env(k, a, true).value].pgdir, x);
             v in k.s.maps && v.slot in k.s.tabs && (HasW(perm) ==> HasW(k.s.maps[v].flags))
    ensures var v := PageAt(k.envs[Envid2Env(k, a, true).value].pgdir, x);
            var w := PageAt(k.envs[Envid2Env(k, b, true).value].pgdir, y);
            EnvState.SysPageMap(k, a, x, b, y, Word(0, perm)) ==
              match Insert(k.s, k.s.maps[v].frame, w, perm)
              case None => (k, NO_MEM)
              case Some(t) => (k.(s := t), 0)
  {
    hide Insert, HasW, PermOk, VaOk;
  }

  /** t comes from s by mapping page v's frame at w, or t is s because a table could not be made. */
  ghost predicate Mapped1(s: Space, t: Space, v: Page, w: Page, perm: bv12, ok: bool) {
    v in s.maps && match Insert(s, s.maps[v].frame, w, perm)
                   case None => !ok && t == s && w.slot !in s.tabs && s.free == []
                   case Some(u) => ok && t == u
  }

  lemma InsertChanges(k: State, v: Page, w: Page, perm: bv12)
    requires KInv(k) && v in k.s.maps && v.slot.dir in k.s.dirs && UserPage(k.s, w)
    requires (HasW(perm) ==> HasW(k.s.maps[v].flags)) && Room(k.s, k.s.maps[v].frame, w)
    ensures match Insert(k.s, k.s.maps[v].frame, w, perm)
            case None => w.slot !in k.s.tabs && k.s.free == []
            case Some(t) =>
              && KInv(k.(s := t)) && t.maps == k.s.maps[w := Entry(k.s.maps[v].frame, perm)]
              && t.dirs == k.s.dirs && t.kern == k.s.kern && t.boot == k.s.boot && |t.ref| == |k.s.ref|
  {
    hide Slots, FreeEnvs, OwnDirs, Counted, Owned, FreeList, HasW, Insert;
    var f := k.s.maps[v].frame;
    KernOwnsNone(k.s, v.slot.dir);
    assert Pte(k.s, v) == k.s.maps[v];
    LookedUpInsertable(k.s, v, perm) by { MappedHasTable(k.s, v); }
    InsertKeepsIff(k.s, {}, f, w, perm);
    assert {} - {f} == {};
    var t := Insert(k.s, f, w, perm);
    if t.Some? {
      MemoryOnly(k, t.value);
    }
  }

  /** Page va of environment id is v. */
  predicate PageOf(k: State, id: int, va: nat, v: Page) {
    && Formed(k) && k.cur.Some? && VaOk(va) && Envid2Env(k, id, true).Some?
    && v == PageAt(k.envs[Envid2Env(k, id, true).value].pgdir, va)
  }

  ghost predicate MapArgs(k: State, srcid: int, srcva: nat, dstid: int, dstva: nat, perm: bv12, v: Page, w: Page) {
    && PageOf(k, srcid, srcva, v) && PageOf(k, dstid, dstva, w) && PermOk(Word(0, perm))
    && v in k.s.maps && Room(k.s, k.s.maps[v].frame, w)
    && (HasW(perm) ==> HasW(k.s.maps[v].flags) && ThroughTemp(k.s, k.s.maps[v].frame, w))
  }

  /** sys_page_map of a mapped page, in the library's ways. a is an earlier state. */
  method MapPage(kn: Kernel, srcid: int, srcva: nat, dstid: int, dstva: nat, perm: bv12, ghost a: Machine, ghost v: Page, ghost w: Page)
    returns (r: int)
    requires Ready(kn) && MapArgs(kn.k, srcid, srcva, dstid, dstva, perm, v, w) && Reaches(a, Now(kn))
    modifies kn, kn.pm
    ensures Ready(kn) && kn.k == old(kn.k).(s := kn.k.s) && (r == 0 || r < 0)
    ensures Mapped1(old(kn.k.s), kn.k.s, v, w, perm, r == 0)
    ensures Reaches(a, Now(kn)) && Between(old(Now(kn)), Now(kn), |old(kn.pm.mem)|)
  {
    hide Inv, Rep, FreeChain.Chain, Pmap.TlbAgrees, Slots, FreeEnvs, OwnDirs, HasU, HasP, HasW, PermOk, VaOk, Insert, Exposed, Shown, ThroughTemp, Reaches,
      EnvState.SysPageMap, Between, Happens, Pdx, Ptx;
    ghost var k, m := kn.k, kn.pm.mem;
    ResolvedIsLive(k, srcid, true);
    ResolvedIsLive(k, dstid, true);
    UserVa(k.s, w.slot.dir, dstva);
    InvShaped(k.s, {});
    MappedHasTable(k.s, v);
    InsertChanges(k, v, w, perm);
    MapCall(k, srcid, srcva, dstid, dstva, perm);
    RepSized(m, k.s);
    r := kn.SysPageMap(srcid, srcva, dstid, dstva, Word(0, perm));
    assert SamePages(m, kn.pm.mem, k.s, kn.k.s, |m|) by { assert kn.pm.DataUntouched(); }
    MapReaches(a, k, kn.k, v, w, perm, m, kn.pm.mem);
  }

  lemma MapReaches(a: Machine, k: State, t: State, v: Page, w: Page, perm: bv12, m: Frames, m': Frames)
    requires KInv(k) && KInv(t) && |m| == |k.s.ref| && SamePages(m, m', k.s, t.s, |m|) && Reaches(a, Machine(k.s, m))
    requires v in k.s.maps && v.slot.dir in k.s.dirs && w.slot.dir in k.s.dirs && t.s.kern == k.s.kern && t.s.boot == k.s.boot
    requires t.s == k.s || t.s.maps == k.s.maps[w := Entry(k.s.maps[v].frame, perm)]
    requires (HasW(perm) ==> HasW(k.s.maps[v].flags) && ThroughTemp(k.s, k.s.maps[v].frame, w))
    ensures Reaches(a, Machine(t.s, m')) && Between(Machine(k.s, m), Machine(t.s, m'), |m|)
  {
    hide Inv, Slots, FreeEnvs, OwnDirs, HasW, Exposed, Shown, ThroughTemp, Reaches, Between;
    KernOwnsNone(k.s, v.slot.dir);
    if t.s == k.s {
      assert forall u | IsUser(t.s, u) :: !Unmapped(k.s, t.s.maps[u].frame);
      CowEvents.MappedFramesKept(m, m', k.s, t.s, |m|);
      ReachesOne(a, Machine(k.s, m), Machine(t.s, m'), Quiet);
    } else {
      CowEvents.PageMapHappens(k, t, v, w, perm, m, m');
      ReachesOne(a, Machine(k.s, m), Machine(t.s, m'), Event.PageMap(v, w, perm, Exposed(t.s, w), Source(k.s, v), Shown(k.s, t.s)));
    }
  }

  // ---- What page_insert does to counts, tables and the free list ----

  /** page_insert costs a page only for a table, and gives one back only if the frame it replaces
      had no other reference. */
  lemma InsertCost(s: Space, held: set<nat>, p: nat, v: Page, perm: bv12)
    requires Inv(s, held) && p < |s.ref| && p !in s.free && (v in s.maps ==> v.slot in s.tabs && v.slot.dir != s.kern)
    ensures match Insert(s, p, v, perm)
            case None => v.slot !in s.tabs && s.free == []
            case Some(t) =>
              && t.tabs.Keys == s.tabs.Keys + {v.slot} && |t.ref| == |s.ref|
              && |t.free| == |s.free| - (if v.slot in s.tabs then 0 else 1)
                             + (if v in s.maps && s.maps[v].frame != p && s.maps[v].frame < |s.ref| && s.ref[s.maps[v].frame] == 1 then 1 else 0)
  {
    hide Owned, Mapped, Refs;
    if s.free != [] {
      assert s.free[0] in s.free;
    }
    if v in s.maps {
      LookedUpInUse(s, held, v);
      assert s.ref[s.maps[v].frame] < 65536;
    }
  }

  // ---- sys_page_alloc ----

  /** Pages given back when v is mapped anew. */
  function Released(s: Space, v: Page): (n: nat)
    ensures n <= 1
  {
    if v in s.maps && s.maps[v].frame < |s.ref| && s.ref[s.maps[v].frame] == 1 then 1 else 0
  }

  /** t comes from s by mapping the fresh page x, writable, at v. */
  ghost predicate FreshAt(s: Space, t: Space, v: Page, x: nat) {
    && s.free != [] && x == s.free[0] && x < |t.ref| == |s.ref| && t.ref[x] == 1
    && t.maps == s.maps[v := Entry(x, UPW)] && t.dirs == s.dirs && t.kern == s.kern && t.boot == s.boot
    && t.tabs.Keys == s.tabs.Keys + {v.slot}
    && |t.free| == |s.free| - 1 - (if v.slot in s.tabs then 0 else 1) + Released(s, v)
  }

  lemma FreshMapped(t: Space, v: Page)
    requires Inv(t, {}) && t.free != [] && UserPage(t, v)
    ensures match Insert(Alloc(t), t.free[0], v, UPW)
            case None => v.slot !in t.tabs && |t.free| == 1
            case Some(u) => FreshAt(t, u, v, t.free[0]) && Inv(u, {}) && (|t.free| >= 2 || v.slot in t.tabs)
  {
    hide Refs, Counted, Owned, Mapped, HasW, Inv, Insert, Insertable;
    var x := t.free[0];
    FreshPageAlone(t, v);
    FreshInsert(t, v, UPW);
    InsertKeepsIff(Alloc(t), {x}, x, v, UPW);
    InsertCost(Alloc(t), {x}, x, v, UPW);
    NeedsTable(Alloc(t), x, v);
  }

  lemma NeedsTable(s: Space, p: nat, v: Page)
    ensures Insert(s, p, v, UPW).Some? ==> v.slot in s.tabs || s.free != []
  {
  }

  lemma FreshPageAlone(t: Space, v: Page)
    requires Inv(t, {}) && t.free != [] && UserPage(t, v)
    ensures var x := t.free[0];
            && Inv(Alloc(t), {x}) && Insertable(Alloc(t), x, UPW) && x < |t.ref| && x !in t.free[1..] && v.slot.dir != t.kern
            && (v in t.maps ==> v.slot in t.tabs && t.maps[v].frame != x)
    ensures match Insert(Alloc(t), t.free[0], v, UPW)
            case None => true
            case Some(u) => t.free[0] < |u.ref| && u.ref[t.free[0]] == 1
  {
    hide Refs, Counted, Owned, HasW;
    FreshPage(t, UPW);
    assert t.free[0] !in t.free[1..] && t.free[0] in t.free;
    CowEvents.FreeIsUnmapped(t, t.free[0]);
    KernOwnsNone(t, v.slot.dir);
    assert v in t.maps ==> IsUser(t, v);
  }

  lemma AllocCall(k: State, a: int, x: nat, v: Page)
    requires KInv(k) && PageOf(k, a, x, v)
    ensures var (t, r) := EnvState.SysPageAlloc(k, a, x, Word(0, UPW));
            && KInv(t) && t == k.(s := t.s)
            && (r == 0 <==> |k.s.free| >= 2 || (k.s.free != [] && v.slot in k.s.tabs))
            && if r == 0 then FreshAt(k.s, t.s, v, k.s.free[0]) else r < 0 && t == k
  {
    hide Inv, Slots, FreeEnvs, OwnDirs, HasU, HasP, PermBits, Insert, VaOk, Pdx, Ptx, FreshAt, UPW;
    ResolvedIsLive(k, a, true);
    UpwOk();
    UserVa(k.s, v.slot.dir, x);
    PageAllocKeeps(k, a, x, Word(0, UPW));
    if k.s.free != [] {
      FreshMapped(k.s, v);
      FreeUndoesAlloc(k.s);
    }
  }

  /** sys_page_alloc of a writable page v. */
  method AllocPage(kn: Kernel, id: int, va: nat, ghost a: Machine, ghost v: Page) returns (r: int, ghost x: nat)
    requires Ready(kn) && PageOf(kn.k, id, va, v) && Reaches(a, Now(kn))
    modifies kn, kn.pm
    ensures Ready(kn) && kn.k == old(kn.k).(s := kn.k.s) && (r == 0 || r < 0)
    ensures r == 0 <==> |old(kn.k.s.free)| >= 2 || (old(kn.k.s.free) != [] && v.slot in old(kn.k.s.tabs))
    ensures if r == 0 then FreshAt(old(kn.k.s), kn.k.s, v, x) && x < |kn.pm.mem| == |old(kn.pm.mem)| && kn.pm.mem[x] == ZeroPage() && Unmapped(old(kn.k.s), x)
            else kn.k == old(kn.k)
    ensures Reaches(a, Now(kn)) && Between(old(Now(kn)), Now(kn), x)
  {
    hide Inv, Rep, FreeChain.Chain, Pmap.TlbAgrees, Slots, FreeEnvs, OwnDirs, HasU, HasP, HasW, PermOk, VaOk, Exposed, Shown, Reaches,
      EnvState.SysPageAlloc, Between, Happens, Pdx, Ptx, FreshAt, Unmapped;
    ghost var k, m := kn.k, kn.pm.mem;
    ResolvedIsLive(k, id, true);
    RepSized(m, k.s);
    AllocCall(k, id, va, v);
    x := if k.s.free == [] then |m| else k.s.free[0];
    r := kn.SysPageAlloc(id, va, Word(0, UPW));
    AllocReaches(a, k, kn.k, r, id, va, v, x, m, kn.pm.mem);
  }

  /** A page that was allocated and freed again belonged to nobody. */
  lemma UnallocatedKept(s: Space, x: nat, m: Frames, m': Frames)
    requires Inv(s, {}) && |m| == |s.ref| && SamePages(m, m', s, s, x) && (x == |m| || x in s.free)
    ensures Between(Machine(s, m), Machine(s, m'), |m|) && Between(Machine(s, m), Machine(s, m'), x)
  {
    hide Inv, HasW;
    if x in s.free {
      CowEvents.FreeIsUnmapped(s, x);
    }
    assert forall u | IsUser(s, u) :: !Unmapped(s, s.maps[u].frame);
    CowEvents.MappedFramesKept(m, m', s, s, x);
  }

  lemma AllocReaches(a: Machine, k: State, t: State, r: int, id: int, va: nat, v: Page, x: nat, m: Frames, m': Frames)
    requires KInv(k) && KInv(t) && |m| == |k.s.ref| && Reaches(a, Machine(k.s, m)) && PageOf(k, id, va, v)
    requires SamePages(m, m', k.s, t.s, x) && x == if k.s.free == [] then |m| else k.s.free[0]
    requires (t, r) == EnvState.SysPageAlloc(k, id, va, Word(0, UPW)) && (r == 0 ==> k.s.free != [] && x < |m| && m'[x] == ZeroPage())
    requires r != 0 ==> t == k
    ensures Reaches(a, Machine(t.s, m')) && Between(Machine(k.s, m), Machine(t.s, m'), x)
    ensures r == 0 ==> Unmapped(k.s, x)
  {
    hide Inv, Slots, FreeEnvs, OwnDirs, HasW, Exposed, Shown, Reaches, EnvState.SysPageAlloc, Pdx, Ptx, VaOk, Unmapped;
    if r == 0 {
      CowEvents.PageAllocHappens(k, id, va, Word(0, UPW), m, m');
      ReachesOne(a, Machine(k.s, m), Machine(t.s, m'), Event.PageAlloc(v, UPW, x, Shown(k.s, t.s)));
    } else {
      UnallocatedKept(k.s, x, m, m');
      ReachesOne(a, Machine(k.s, m), Machine(t.s, m'), Quiet);
    }
  }

  // ---- sys_page_unmap ----

  lemma Unmapping(k: State, v: Page)
    requires KInv(k) && v.slot.dir in k.s.dirs && v in k.s.maps
    ensures var t := Remove(k.s, v);
            && KInv(k.(s := t)) && t.maps == k.s.maps - {v} && t.dirs == k.s.dirs && t.kern == k.s.kern && t.boot == k.s.boot
            && t.tabs == k.s.tabs && |t.ref| == |k.s.ref| && |t.free| == |k.s.free| + Released(k.s, v)
  {
    hide Refs, Owned, FreeList, Slots, FreeEnvs, OwnDirs;
    KernOwnsNone(k.s, v.slot.dir);
    RemovePresentKeeps(k.s, {}, v);
    LookedUpInUse(k.s, {}, v);
    MemoryOnly(k, Remove(k.s, v));
  }

  /** sys_page_unmap of a mapped page v. */
  method UnmapPage(kn: Kernel, id: int, va: nat, ghost a: Machine, ghost v: Page) returns (r: int)
    requires Ready(kn) && PageOf(kn.k, id, va, v) && v in kn.k.s.maps && Reaches(a, Now(kn))
    modifies kn, kn.pm
    ensures Ready(kn) && kn.k == old(kn.k).(s := kn.k.s) && r == 0 && kn.k.s == Remove(old(kn.k.s), v)
    ensures Reaches(a, Now(kn)) && Between(old(Now(kn)), Now(kn), |old(kn.pm.mem)|)
  {
    hide Inv, Rep, FreeChain.Chain, Pmap.TlbAgrees, Slots, FreeEnvs, OwnDirs, HasU, HasP, HasW, VaOk, Shown, Reaches, Between, Happens, Pdx, Ptx, Remove;
    ghost var k, m := kn.k, kn.pm.mem;
    ResolvedIsLive(k, id, true);
    Unmapping(k, v);
    RepSized(m, k.s);
    r := kn.SysPageUnmap(id, va);
    assert SamePages(m, kn.pm.mem, k.s, kn.k.s, |m|) by { assert kn.pm.DataUntouched(); }
    UnmapReaches(a, k, kn.k, v, m, kn.pm.mem);
  }

  lemma UnmapReaches(a: Machine, k: State, t: State, v: Page, m: Frames, m': Frames)
    requires KInv(k) && KInv(t) && |m| == |k.s.ref| && SamePages(m, m', k.s, t.s, |m|) && Reaches(a, Machine(k.s, m))
    requires v.slot.dir in k.s.dirs && t.s.maps == k.s.maps - {v} && t.s.kern == k.s.kern && t.s.boot == k.s.boot
    ensures Reaches(a, Machine(t.s, m')) && Between(Machine(k.s, m), Machine(t.s, m'), |m|)
  {
    hide Inv, Slots, FreeEnvs, OwnDirs, HasW, Shown, Reaches, Between;
    CowEvents.PageUnmapHappens(k, t, v, m, m');
    ReachesOne(a, Machine(k.s, m), Machine(t.s, m'), Event.PageUnmap(v, Shown(k.s, t.s)));
  }

  // ---- Loads and stores ----

  lemma StoreReaches(a: Machine, s: Space, w: Page, off: nat, word: Word, m: Frames)
    requires Inv(s, {}) && |m| == |s.ref| && w in s.maps && HasW(s.maps[w].flags) && w.slot.dir in s.dirs && off < 1024
    requires s.maps[w].frame < |m| && |m[s.maps[w].frame]| == 1024 && Reaches(a, Machine(s, m))
    ensures Reaches(a, Machine(s, Poke(m, s.maps[w].frame, off, word)))
  {
    hide Inv, HasW, Reaches;
    ReachesOne(a, Machine(s, m), Machine(s, Poke(m, s.maps[w].frame, off, word)), Store(w, off, word, Others(s, w)));
  }

  /** A store of the current environment; false if it faults. */
  method StoreWord(kn: Kernel, va: nat, word: Word, ghost a: Machine, ghost w: Page) returns (ok: bool)
    requires Ready(kn) && va < UTOP && w == PageAt(Dir(kn.k), va) && Reaches(a, Now(kn))
    modifies kn.pm
    ensures Ready(kn) && kn.k == old(kn.k) && Reaches(a, Now(kn))
    ensures ok <==> w in kn.k.s.maps && HasU(kn.k.s.maps[w].flags) && HasW(kn.k.s.maps[w].flags)
    ensures if ok then
              var f := kn.k.s.maps[w].frame;
              f < |old(kn.pm.mem)| && |old(kn.pm.mem)[f]| == 1024 && kn.pm.mem == Poke(old(kn.pm.mem), f, PgOff(va) / 4, word)
            else kn.pm.mem == old(kn.pm.mem)
  {
    hide Inv, Rep, FreeChain.Chain, Pmap.TlbAgrees, Slots, FreeEnvs, OwnDirs, HasU, HasW, Pdx, Ptx, Reaches;
    ghost var m := kn.pm.mem;
    MyIdResolves(kn.k);
    RepSized(m, kn.k.s);
    ok := kn.pm.UserStore(va, word, {});
    if ok {
      StoreReaches(a, kn.k.s, w, PgOff(va) / 4, word, m);
    }
  }

  lemma WordAddress(d: nat, va: nat, j: nat)
    requires VaOk(va) && j < 1024
    ensures va + 4 * j < UTOP && PageAt(d, va + 4 * j) == PageAt(d, va) && PgOff(va + 4 * j) / 4 == j
  {
    assert (va + 4 * j) / 4096 == va / 4096;
    assert (va + 4 * j) / 0x40_0000 == va / 4096 / 1024 == va / 0x40_0000;
  }

  lemma UserFrame(s: Space, v: Page)
    requires Shaped(s) && v in s.maps && v.slot.dir in s.dirs
    ensures s.maps[v].frame < |s.ref|
  {
    assert DataFrame(s, s.maps[v].frame, s.maps[v].flags);
  }

  lemma CopiedSoFar(m: Frames, f: nat, g: nat, j: nat)
    requires f < |m| && g < |m| && f != g && |m[f]| == |m[g]| == 1024 && j <= 1024
    ensures j == 0 ==> m[g := m[f][..j] + m[g][j..]] == m
    ensures j < 1024 ==> Poke(m[g := m[f][..j] + m[g][j..]], g, j, m[f][j]) == m[g := m[f][..j + 1] + m[g][j + 1..]]
    ensures j == 1024 ==> m[g := m[f][..j] + m[g][j..]] == m[g := m[f]]
  {
    assert m[f][..0] + m[g][0..] == m[g];
    if j < 1024 {
      assert (m[f][..j] + m[g][j..])[j := m[f][j]] == m[f][..j + 1] + m[g][j + 1..];
    } else {
      assert m[f][..j] + m[g][j..] == m[f];
    }
  }

  /** memmove(dst, src, PGSIZE) between two pages of the current environment, word by word. */
  method CopyPage(kn: Kernel, dst: nat, src: nat, ghost a: Machine, ghost w: Page, ghost v: Page)
    requires Ready(kn) && VaOk(dst) && VaOk(src) && w == PageAt(Dir(kn.k), dst) && v == PageAt(Dir(kn.k), src) && Reaches(a, Now(kn))
    requires v in kn.k.s.maps && HasU(kn.k.s.maps[v].flags)
    requires w in kn.k.s.maps && HasU(kn.k.s.maps[w].flags) && HasW(kn.k.s.maps[w].flags)
    requires kn.k.s.maps[v].frame != kn.k.s.maps[w].frame
    modifies kn.pm
    ensures Ready(kn) && kn.k == old(kn.k) && Reaches(a, Now(kn))
    ensures var f, g := kn.k.s.maps[v].frame, kn.k.s.maps[w].frame;
            f < |old(kn.pm.mem)| && g < |old(kn.pm.mem)| && kn.pm.mem == old(kn.pm.mem)[g := old(kn.pm.mem)[f]]
  {
    hide Inv, FreeChain.Chain, DirRep, TableRep, Pmap.TlbAgrees, HasU, HasW, Pdx, Ptx, VaOk, PgOff, Reaches, KInv;
    ghost var k, m := kn.k, kn.pm.mem;
    ghost var f, g := k.s.maps[v].frame, k.s.maps[w].frame;
    MyIdResolves(k);
    InvOf(k);
    UserFrame(k.s, v);
    UserFrame(k.s, w);
    var j := 0;
    CopiedSoFar(m, f, g, 0);
    while j < 1024
      invariant j <= 1024 && Ready(kn) && kn.k == k && Reaches(a, Now(kn))
      invariant kn.pm.mem == m[g := m[f][..j] + m[g][j..]]
    {
      WordAddress(Dir(k), src, j);
      WordAddress(Dir(k), dst, j);
      var word := kn.pm.UserLoad(src + 4 * j, {});
      var ok := StoreWord(kn, dst + 4 * j, word.value, a, w);
      CopiedSoFar(m, f, g, j);
      j := j + 1;
    }
    CopiedSoFar(m, f, g, 1024);
  }

  lemma InvOf(k: State)
    requires KInv(k)
    ensures Inv(k.s, {}) && Shaped(k.s)
  {
  }

  // ---- The self-map ----

  /** uvpt[pn]; None if the page has no table, so that the load faults. */
  method ReadUvpt(kn: Kernel, pn: nat) returns (pte: Option<Word>)
    requires Ready(kn) && pn < 955 * 1024
    ensures var v := PageNo(Dir(kn.k), pn); pte == if v.slot in kn.k.s.tabs then Some(Pte(kn.k.s, v)) else None
  {
    hide Counted, FreeList, Owned, Mapped, Slots, FreeEnvs, Pmap.TlbAgrees, Load, HasP;
    ghost var s, d := kn.k.s, Dir(kn.k);
    SelfMapReadsPte(kn.pm.mem, s, d, pn);
    PageAddress(d, pn);
    assert TableSlot(s, Slot(d, pn / 1024));
    PdeRead(kn.pm.mem, s, d, pn / 1024);
    if Slot(d, pn / 1024) in s.tabs {
      PteRead(kn.pm.mem, s, PageNo(d, pn));
    }
    return Load(kn.pm.mem, kn.pm.cr3, UVPT + 4 * pn);
  }

  /** uvpd[i] & PTE_P. */
  method HasTable(kn: Kernel, i: nat) returns (present: bool)
    requires Ready(kn) && i < UTOP_PDX
    ensures present <==> Slot(Dir(kn.k), i) in kn.k.s.tabs
  {
    hide Counted, FreeList, Owned, Mapped, Slots, FreeEnvs, Pmap.TlbAgrees, Load;
    ghost var s, d := kn.k.s, Dir(kn.k);
    SelfMapReadsPde(kn.pm.mem, s, d, i);
    assert TableSlot(s, Slot(d, i));
    PdeRead(kn.pm.mem, s, d, i);
    var w := Load(kn.pm.mem, kn.pm.cr3, UVPT + UVPT / 4096 * 4 + 4 * i);
    return HasP(w.value.flags);
  }
}
