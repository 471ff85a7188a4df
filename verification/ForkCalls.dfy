/** Each call of fork, from one state in progress to the next. */
module ForkCalls {
  import opened Basics
  import Words
  import opened Mmu
  import opened PageSpace
  import opened PageWords
  import Pmap
  import EnvIds
  import opened EnvState
  import EnvRuns
  import FreeChain
  import KernelCalls
  import opened Cow
  import opened LibCalls
  import PgfaultLib
  import opened ForkSteps
  import opened ForkPlan
  import opened ForkTally
  import ForkViews
  import opened ForkState

  // ---- sys_exofork ----

  /** Nothing writable is shared, PFTEMP is free, the exception stack is there (set_pgfault_handler
      allocates it), and no count of references can overflow. */
  ghost predicate CanFork(s: Space, pd: nat) {
    && CowInv(s) && ForkRoom(s, pd, 2048) && PfTemp(pd) !in s.maps
    && ExceptionPage(pd) in s.maps && HasU(s.maps[ExceptionPage(pd)].flags) && HasW(s.maps[ExceptionPage(pd)].flags)
  }

  ghost function Begun(s: Space, pd: nat): Prog { Prog(2048, false, None, true, false, AtStart(s, pd), []) }

  lemma SameView(a: Machine, b: Machine)
    requires Between(a, b, |a.mem|) && b.s.maps == a.s.maps
    ensures View(b) == View(a)
  {
    hide Inv, HasW, View, Between;
    QuietIsEager(a, b);
  }

  lemma Exoforked(k: State)
    requires KInv(k) && k.cur.Some?
    ensures var (k1, r) := EnvState.SysExofork(k);
            if r < 0 then k1 == k && (k.free == [] || k.s.free == [])
            else && r > 0 && k.free != [] && k.s.free != [] && k.free[0] < EnvIds.NENV && KInv(k1) && k1.cur == k.cur && k1.s == NewDir(k.s)
                 && k1.envs == k.envs[k.free[0] := Env(r, Me(k), ENV_NOT_RUNNABLE, k.s.free[0], 0)]
                 && Dir(k1) == Dir(k) && Me(k1) == Me(k) && Envid2Env(k1, r, true) == Some(k.free[0])
  {
    hide Inv, Slots, FreeEnvs, OwnDirs, NewDir, EnvIds.IdAfter;
    EnvRuns.EnvAllocKeeps(k, Me(k), ENV_NOT_RUNNABLE);
    if k.free != [] && k.s.free != [] {
      KernelCalls.AllocIds(k);
      MyIdResolves(k);
      EnvIds.IdNamesSlot(k.free[0], k.allocs[k.free[0]] + 1);
    }
  }

  /** sys_exofork, which nobody sees. */
  method NewChild(kn: KernelCalls.Kernel) returns (r: int)
    requires Ready(kn)
    modifies kn, kn.pm
    ensures Ready(kn) && (kn.k, r) == EnvState.SysExofork(old(kn.k)) && |old(kn.pm.mem)| == |old(kn.k.s.ref)| && Inv(old(kn.k.s), {})
    ensures KernelCalls.SamePages(old(kn.pm.mem), kn.pm.mem, old(kn.k.s), kn.k.s, |old(kn.pm.mem)|)
    ensures if r < 0 then (old(kn.k.free) == [] || old(kn.k.s.free) == []) && Reaches(old(Now(kn)), Now(kn))
            else r > 0 && old(kn.k.free) != [] && old(kn.k.s.free) != []
  {
    hide Inv, Rep, FreeChain.Chain, Pmap.TlbAgrees, Slots, FreeEnvs, OwnDirs, Reaches, EnvState.SysExofork;
    ghost var k, m := kn.k, kn.pm.mem;
    InvOf(k);
    RepSized(m, k.s);
    Exoforked(k);
    r := kn.SysExofork();
    assert KernelCalls.SamePages(m, kn.pm.mem, k.s, kn.k.s, |m|) by { assert kn.pm.DataUntouched(); }
    if r < 0 {
      UnallocatedKept(k.s, |m|, m, kn.pm.mem);
      ReachesItself(Machine(k.s, m));
      ReachesOne(Machine(k.s, m), Machine(k.s, m), Now(kn), Quiet);
    }
  }

  /** fork has begun. */
  lemma Begins(k: State, m: Frames, m': Frames)
    requires KInv(k) && k.cur.Some? && CanFork(k.s, Dir(k)) && |m| == |k.s.ref|
    requires EnvState.SysExofork(k).1 >= 0 && KernelCalls.SamePages(m, m', k.s, EnvState.SysExofork(k).0.s, |m|)
    ensures k.free != [] && k.s.free != []
    ensures var k1 := EnvState.SysExofork(k).0;
            var x := Ctx(k.s, View(Machine(k.s, m)), Machine(k.s, m), k1, k.free[0]);
            Fine(x, Begun(k.s, Dir(k)), k1, m') && Pd(x) == Dir(k) && Cd(x) == k.s.free[0]
  {
    hide Inv, Slots, FreeEnvs, OwnDirs, NewDir, HasU, HasW, HasCow, CowInv, ForkRoom, Progress, View, Reaches, Copied, Watched, EnvState.SysExofork, Between,
      KernelCalls.SamePages, Accounted, ForkCost;
    Exoforked(k);
    MyIdResolves(k);
    var k1 := EnvState.SysExofork(k).0;
    var x := Ctx(k.s, View(Machine(k.s, m)), Machine(k.s, m), k1, k.free[0]);
    InvOf(k);
    Started(k.s, Dir(k));
    CowEvents.NewDirFields(k.s);
    CowEvents.ExoforkHappens(k, m, m');
    var a, b := Machine(k.s, m), Machine(k1.s, m');
    ForkViews.BetweenFacts(a, b, |m|);
    SameView(a, b);
    SameCow(k.s, k1.s);
    AllSeen(a, Dir(k));
    ReachesItself(a);
    ReachesOne(a, a, b, Quiet);
    NothingWatched(x.e0, Dir(k), k.s.free[0], k.s);
    NoPageOf(k.s, k.s.free[0]) by { FreshDir(k.s); }
    AccountedStart(k.s, k1.s, Dir(k), k.s.free[0]);
    NothingMade(k.s, Dir(k));
  }

  lemma NothingMade(s: Space, pd: nat)
    requires s.free != []
    ensures NewDir(s).tabs == s.tabs && (HasTemp(s, pd, AtStart(s, pd), false) <==> Slot(pd, 1) in s.tabs)
  {
  }

  /** What Core says of the parent's rights, and that mapping a page elsewhere makes no table at PFTEMP. */
  lemma RightsOf(x: Ctx, g: Prog, k: State, mem: Frames)
    requires Core(x, g, k, mem)
    ensures RightRights(x.s, k.s, Pd(x), g.own) && (Slot(Pd(x), 1) in k.s.tabs <==> HasTemp(x.s, Pd(x), g.own, g.lent)) && (g.gap ==> g.complete)
  {
    hide KInv, Progress, Setting, View, Watched, CowInv, Gap, RightRights, RightPages, RightShared, RightFrames, RightCopies, RightAlone, HasTemp;
  }

  lemma TempStays(x: Ctx, g: Prog, h: Prog, s: Space, t: Space, k: Slot)
    requires t.tabs.Keys == s.tabs.Keys + {k} && k != Slot(Pd(x), 1) && h.own.faults == g.own.faults && h.lent == g.lent
    requires Slot(Pd(x), 1) in s.tabs <==> HasTemp(x.s, Pd(x), g.own, g.lent)
    ensures Slot(Pd(x), 1) in t.tabs <==> HasTemp(x.s, Pd(x), h.own, h.lent)
  {
    KeysGrow(s, t, k);
  }

  lemma FreshDir(s: Space)
    requires Inv(s, {}) && s.free != []
    ensures s.free[0] !in s.dirs && s.free[0] != s.kern
  {
    assert s.free[0] in s.free;
  }

  lemma SameCow(s: Space, t: Space)
    requires CowInv(s) && t.maps == s.maps && t.kern == s.kern
    ensures CowInv(t)
  {
    hide HasW;
    forall v, w | IsUser(t, v) && Writes(t, w, t.maps[v].frame) ensures v == w {
      assert Writes(s, w, s.maps[v].frame);
    }
  }

  /** With nothing writable shared, all pages are visible. */
  lemma AllSeen(a: Machine, pd: nat)
    requires CowInv(a.s) && Inv(a.s, {}) && |a.mem| == |a.s.ref| && pd != a.s.kern
    ensures forall v: Page | v.slot.dir == pd :: v in View(a) <==> v in a.s.maps
  {
    hide Inv, View, CowInv, HasW;
    forall v: Page | v.slot.dir == pd ensures v in View(a) <==> v in a.s.maps {
      Visible(a, v);
      if v in a.s.maps {
        CowShowsAll(a.s, v);
        FrameInMemory(a.s, v);
      }
    }
  }

  lemma NothingWatched(e: Private, pd: nat, cd: nat, s: Space)
    ensures Watched(e, e, pd, cd, 2048, [], true)
  {
    hide Copied;
    assert forall v: Page :: v in e ==> Applied(e[v], [], pd, v) == e[v];
  }

  // ---- Pages that are not there ----

  lemma Skips(x: Ctx, g: Prog, k: State, mem: Frames, m: nat)
    requires Core(x, g, k, mem) && !g.gap && g.stack == None && g.n <= m && NoneBetween(x.s, Pd(x), g.n, m)
    ensures Core(x, g.(n := m), k, mem)
  {
    hide Inv, KInv, CowInv, Progress, View, Copied, Setting, NoneBetween, Watched, Accounted, ForkCost;
    SettingFacts(x);
    Skip(x.s, k.s, Pd(x), Cd(x), g.n, m, g.complete, g.own.kept);
    if g.complete {
      AccountedLater(x.s, k.s, Pd(x), Cd(x), g.n, m, g.own);
    }
    WatchedSkip(x.e0, View(Machine(k.s, mem)), Pd(x), Cd(x), g.n, m, g.ws, g.complete, x.s);
  }

  /** What the self-map shows of a page of the range. */
  lemma PageSeen(x: Ctx, g: Prog, k: State, mem: Frames, v: Page)
    requires Core(x, g, k, mem) && v.slot.dir == Pd(x) && InRange(v)
    ensures k.cur.Some? && Dir(k) == Pd(x) && Me(k) == Me(x.k1) && Me(k) > 0 && Envid2Env(k, Me(k), true) == k.cur
    ensures (v in k.s.maps <==> v in x.s.maps) && (v.slot in k.s.tabs <==> v.slot in x.s.tabs)
    ensures v in k.s.maps ==> v.slot in k.s.tabs && DupPerm(k.s.maps[v].flags) == DupPerm(x.s.maps[v].flags)
    ensures Pte(k.s, v) == if v in k.s.maps then k.s.maps[v] else ZERO
    ensures v in k.s.maps ==> HasP(k.s.maps[v].flags) && IsUser(k.s, v)
  {
    hide Inv, KInv, HasW, HasCow, HasU, View, Copied, Setting, Watched, CowInv, DupPerm, ForkRoom, Tables, ChildPage, HasP, Accounted;
    SettingFacts(x);
    MyIdResolves(k);
    InvOf(k);
    if v in k.s.maps {
      SamePerm(x.s.maps[v].flags, k.s.maps[v].flags);
      MappedHasTable(k.s, v);
      PresentPage(k.s, v);
    }
    BeforeException(v);
  }

  lemma PresentPage(s: Space, v: Page)
    requires Shaped(s) && v in s.maps
    ensures HasP(s.maps[v].flags)
  {
  }

  // ---- The page's mapping in the child ----

  /** Page n is there to be duplicated. */
  ghost predicate AtPage(x: Ctx, g: Prog) {
    g.n < 955 * 1024 && InRange(PageNo(Pd(x), g.n)) && PageNo(Pd(x), g.n) in x.s.maps && g.stack == None
  }

  function ChildId(x: Ctx): int { if x.c < |x.k1.envs| then x.k1.envs[x.c].id else 0 }

  lemma ChildArgs(x: Ctx, g: Prog, k: State, mem: Frames, perm: bv12)
    requires Core(x, g, k, mem) && !g.gap && AtPage(x, g)
    requires perm == DupPerm(x.s.maps[PageNo(Pd(x), g.n)].flags)
    ensures k.cur.Some?
    ensures MapArgs(k, Me(k), g.n * 4096, ChildId(x), g.n * 4096, perm, PageNo(Pd(x), g.n), PageNo(Cd(x), g.n))
  {
    hide Inv, Slots, FreeEnvs, OwnDirs, HasW, HasCow, HasU, HasP, View, Copied, Watched, CowInv, DupPerm, ForkMaps, ForkRoom, Tables, InRange, Exposed, PermOk,
      Pdx, Ptx, Accounted;
    var v, w := PageNo(Pd(x), g.n), PageNo(Cd(x), g.n);
    SettingFacts(x);
    PageSeen(x, g, k, mem, v);
    PageAddress(Pd(x), g.n);
    PageAddress(Cd(x), g.n);
    DupPermOk(x.s.maps[v].flags);
    CowShowsAll(k.s, v);
    PageHasRoom(k.s, Pd(x), g.n, w);
  }

  ghost predicate MappedTo(k: State, k': State, mem: Frames, mem': Frames, v: Page, w: Page, perm: bv12, ok: bool) {
    && KInv(k') && k' == k.(s := k'.s) && Mapped1(k.s, k'.s, v, w, perm, ok)
    && Between(Machine(k.s, mem), Machine(k'.s, mem'), |mem|)
  }

  /** The state after the child's mapping of page n, or its failure. */
  function AfterChild(x: Ctx, g: Prog, ok: bool): Prog
    requires AtPage(x, g)
  {
    var v := PageNo(Pd(x), g.n);
    if !ok then g.(n := g.n + 1, complete := false)
    else if Shareable(x.s.maps[v].flags) then g.(gap := true, own := InChild(g.own, v))
    else g.(n := g.n + 1, own := InChild(g.own, v))
  }

  lemma ChildDone(x: Ctx, g: Prog, k: State, mem: Frames, k': State, mem': Frames, ok: bool)
    requires Core(x, g, k, mem) && !g.gap && AtPage(x, g)
    requires MappedTo(k, k', mem, mem', PageNo(Pd(x), g.n), PageNo(Cd(x), g.n), DupPerm(x.s.maps[PageNo(Pd(x), g.n)].flags), ok)
    ensures Core(x, AfterChild(x, g, ok), k', mem')
  {
    hide Inv, Slots, FreeEnvs, OwnDirs, HasW, HasCow, HasU, HasP, View, Copied, Watched, CowInv, DupPerm, ForkMaps, ForkRoom, Tables, InRange, Exposed,
      Insert, Between, CowBut, Progress, Entry, Accounted;
    var v, w := PageNo(Pd(x), g.n), PageNo(Cd(x), g.n);
    SettingFacts(x);
    ForkViews.BetweenFacts(Machine(k.s, mem), Machine(k'.s, mem'), |mem|);
    if ok {
      ChildMade(x, g, k, mem, k', mem');
    } else {
      DupFails(x.s, k.s, Pd(x), Cd(x), g.n, g.complete, g.own.kept);
      RightsOf(x, g, k, mem);
      SameView(Machine(k.s, mem), Machine(k'.s, mem'));
      WatchedLess(x.e0, View(Machine(k.s, mem)), Pd(x), Cd(x), g.n, g.n + 1, g.ws, g.complete);
    }
  }

  lemma NoGapCow(s: Space, p: Page, q: Page)
    requires CowBut(s, p, q) && p in s.maps && !HasW(s.maps[p].flags)
    ensures CowInv(s)
  {
    hide HasW;
  }

  /** What the two mappings of page n rely on. */
  lemma AtPageFacts(x: Ctx, g: Prog, k: State, mem: Frames)
    requires Core(x, g, k, mem) && AtPage(x, g)
    ensures var v, w := PageNo(Pd(x), g.n), PageNo(Cd(x), g.n);
            && v in k.s.maps && IsUser(k.s, v) && v != w && v.slot.dir in k.s.dirs && w.slot.dir != k.s.kern && w.slot == Slot(Cd(x), g.n / 1024)
            && (Shareable(k.s.maps[v].flags) <==> Shareable(x.s.maps[v].flags)) && UserPage(k.s, w) && UserPage(k.s, v)
            && Inv(k.s, {}) && |mem| == |k.s.ref| && (!g.gap ==> w !in k.s.maps && Room(k.s, k.s.maps[v].frame, w))
            && Room(k.s, k.s.maps[v].frame, v) && v in x.e0
            && DupPerm(k.s.maps[v].flags) == DupPerm(x.s.maps[v].flags)
  {
    hide Inv, Slots, FreeEnvs, OwnDirs, HasW, HasCow, HasU, HasP, View, Copied, Watched, CowInv, DupPerm, ForkRoom, Tables, InRange, Exposed, ChildPage, Accounted;
    var v, w := PageNo(Pd(x), g.n), PageNo(Cd(x), g.n);
    SettingFacts(x);
    RangeFields(v);
    InRangeFields(v);
    PageSeen(x, g, k, mem, v);
    if !g.gap {
      NotYet(x.s, k.s, Pd(x), Cd(x), g.n, g.complete);
      PageHasRoom(k.s, Pd(x), g.n, w);
    }
  }

  lemma InRangeFields(v: Page)
    requires InRange(v)
    ensures 2 <= v.slot.pdx < UTOP_PDX && v.ptx < 1024
  {
  }

  lemma ChildMade(x: Ctx, g: Prog, k: State, mem: Frames, k': State, mem': Frames)
    requires Core(x, g, k, mem) && !g.gap && AtPage(x, g)
    requires MappedTo(k, k', mem, mem', PageNo(Pd(x), g.n), PageNo(Cd(x), g.n), DupPerm(x.s.maps[PageNo(Pd(x), g.n)].flags), true)
    ensures Core(x, AfterChild(x, g, true), k', mem')
  {
    hide Inv, Slots, FreeEnvs, OwnDirs, HasW, HasCow, HasU, HasP, View, Copied, Watched, CowInv, DupPerm, ForkMaps, ForkRoom, Tables, InRange, Exposed,
      Insert, Between, CowBut, Progress, Entry, Shareable, Accounted, ForkCost;
    var v, w := PageNo(Pd(x), g.n), PageNo(Cd(x), g.n);
    var a, b := Machine(k.s, mem), Machine(k'.s, mem');
    var perm := DupPerm(x.s.maps[v].flags);
    SettingFacts(x);
    AtPageFacts(x, g, k, mem);
    InsertChanges(k, v, w, perm);
    EntryOf(k.s.maps[v].frame, perm);
    ForkViews.BetweenFacts(a, b, |mem|);
    ForkViews.ChildMapped(a, b, v, w, Entry(k.s.maps[v].frame, perm));
    DupChild(x.s, k.s, k'.s, Pd(x), Cd(x), g.n, g.complete, g.own.kept);
    NumberedOnly(v, v, w, g.n);
    RightsOf(x, g, k, mem);
    TempStays(x, g, AfterChild(x, g, true), k.s, k'.s, w.slot) by { ForkSteps.FrameOfUser(k.s, v); InsertCost(k.s, {}, k.s.maps[v].frame, w, perm); }
    if g.complete {
      MapsOf(x, g, k, mem);
      AccountedChild(x.s, k.s, k'.s, Pd(x), Cd(x), g.n, g.own, v, perm);
    }
    if !HasW(k.s.maps[v].flags) {
      WatchedChild(x.e0, View(a), Pd(x), Cd(x), g.n, g.ws, g.complete, w, View(a)[v]);
    }
    if Shareable(x.s.maps[v].flags) {
      GapOpens(x, g, k'.s, View(b));
    } else {
      NotWritable(k.s.maps[v].flags);
      NoGapCow(k'.s, v, w);
      ChildCounted(x, g, k, mem, View(b));
    }
  }

  lemma EntryOf(f: nat, perm: bv12)
    ensures Entry(f, perm).frame == f && (!HasW(perm) ==> !HasW(Entry(f, perm).flags))
  {
  }

  lemma NotWritable(flags: bv12)
    ensures !Shareable(flags) ==> !HasW(flags)
  {
  }

  lemma GapOpens(x: Ctx, g: Prog, s: Space, e: Private)
    requires AtPage(x, g) && Shareable(x.s.maps[PageNo(Pd(x), g.n)].flags)
    requires var v, w := PageNo(Pd(x), g.n), PageNo(Cd(x), g.n); CowBut(s, v, w) && v in s.maps && w in s.maps && s.maps[v].frame == s.maps[w].frame
    ensures Gap(x, g.(gap := true), s, e)
  {
    hide CowBut, HasW, InRange, Shareable, Copied;
  }

  /** A page that is not writable is visible in the child at once. */
  lemma ChildCounted(x: Ctx, g: Prog, k: State, mem: Frames, f: Private)
    requires Core(x, g, k, mem) && AtPage(x, g)
    requires var v, w, e := PageNo(Pd(x), g.n), PageNo(Cd(x), g.n), View(Machine(k.s, mem));
             v in e && v in x.e0 && f == e[w := e[v]] && Watched(x.e0, f, Pd(x), Cd(x), g.n, g.ws, g.complete)
    ensures Watched(x.e0, f, Pd(x), Cd(x), g.n + 1, g.ws, g.complete)
  {
    hide Inv, KInv, HasW, View, Copied, CowInv, InRange, Progress, Applied, Accounted;
    var v, w := PageNo(Pd(x), g.n), PageNo(Cd(x), g.n);
    NumberedOnly(v, v, w, g.n);
    CopiedNow(x.e0, f, Pd(x), Cd(x), g.ws, v);
    WatchedNext(x.e0, f, Pd(x), Cd(x), g.n, g.ws, g.complete);
  }

  // ---- The page's second mapping, in the parent ----

  lemma ParentArgs(x: Ctx, g: Prog, k: State, mem: Frames, perm: bv12)
    requires Core(x, g, k, mem) && g.gap && AtPage(x, g) && perm == DupPerm(x.s.maps[PageNo(Pd(x), g.n)].flags)
    ensures k.cur.Some? && var v := PageNo(Pd(x), g.n); MapArgs(k, Me(k), g.n * 4096, Me(k), g.n * 4096, perm, v, v)
  {
    hide Inv, Slots, FreeEnvs, OwnDirs, HasW, HasCow, HasU, HasP, View, Copied, Watched, CowInv, DupPerm, ForkMaps, ForkRoom, Tables, InRange, Exposed, PermOk,
      Pdx, Ptx, CowBut, Accounted;
    var v, w := PageNo(Pd(x), g.n), PageNo(Cd(x), g.n);
    AtPageFacts(x, g, k, mem);
    PageSeen(x, g, k, mem, v);
    PageAddress(Pd(x), g.n);
    DupPermOk(x.s.maps[v].flags);
    ForkViews.CowButShows(k.s, v, w, v);
  }

  function AfterParent(x: Ctx, g: Prog): Prog { g.(gap := false, n := g.n + 1, own := Sealed(g.own, PageNo(Pd(x), g.n))) }

  /** Mapping the page again, in place, never fails: from then on the copy shows what the page
      held at that moment. */
  lemma ParentDone(x: Ctx, g: Prog, k: State, mem: Frames, k': State, mem': Frames, ok: bool)
    requires Core(x, g, k, mem) && g.gap && AtPage(x, g)
    requires var v := PageNo(Pd(x), g.n); MappedTo(k, k', mem, mem', v, v, DupPerm(x.s.maps[v].flags), ok)
    ensures ok && Core(x, AfterParent(x, g), k', mem')
  {
    hide Inv, Slots, FreeEnvs, OwnDirs, HasW, HasCow, HasU, HasP, View, Copied, Watched, CowInv, DupPerm, ForkMaps, ForkRoom, Tables, InRange, Exposed,
      Insert, Between, CowBut, Progress, Entry, Shareable, Accounted;
    var v, w := PageNo(Pd(x), g.n), PageNo(Cd(x), g.n);
    var a, b := Machine(k.s, mem), Machine(k'.s, mem');
    var perm := DupPerm(x.s.maps[v].flags);
    SettingFacts(x);
    AtPageFacts(x, g, k, mem);
    PageSeen(x, g, k, mem, v);
    InsertChanges(k, v, v, perm);
    EntryOf(k.s.maps[v].frame, perm);
    ForkViews.BetweenFacts(a, b, |mem|);
    ForkViews.ParentSealed(a, b, v, w, Entry(k.s.maps[v].frame, perm));
    DupParent(x.s, k.s, k'.s, Pd(x), Cd(x), g.n + 1, g.complete, g.own.kept, v, k.s.maps[v].flags);
    RightsOf(x, g, k, mem);
    InRangeFields(v);
    TempStays(x, g, AfterParent(x, g), k.s, k'.s, v.slot) by { ForkSteps.FrameOfUser(k.s, v); InsertCost(k.s, {}, k.s.maps[v].frame, v, perm); }
    if g.complete {
      MapsOf(x, g, k, mem);
      AccountedSealed(x.s, k.s, k'.s, Pd(x), Cd(x), g.n + 1, g.own, v, perm);
    }
    GapCounted(x, g, k, mem, View(b));
  }

  lemma GapCounted(x: Ctx, g: Prog, k: State, mem: Frames, f: Private)
    requires Core(x, g, k, mem) && g.gap && Pd(x) != Cd(x)
    requires var v, w, e := PageNo(Pd(x), g.n), PageNo(Cd(x), g.n), View(Machine(k.s, mem));
             && v in e && v in x.e0 && v in k.s.maps && w in k.s.maps && (k.s.maps[w].frame != k.s.maps[v].frame ==> w in e)
             && f == e[w := if k.s.maps[w].frame == k.s.maps[v].frame then e[v] else e[w]]
    ensures Watched(x.e0, f, Pd(x), Cd(x), g.n + 1, g.ws, g.complete)
  {
    hide Inv, KInv, HasW, View, Copied, CowInv, InRange, Progress, Applied, CowBut, Shareable, Watched, Accounted;
    var v, w, e := PageNo(Pd(x), g.n), PageNo(Cd(x), g.n), View(Machine(k.s, mem));
    SettingFacts(x);
    NumberedOnly(v, v, w, g.n);
    WatchedChild(x.e0, e, Pd(x), Cd(x), g.n, g.ws, g.complete, w, f[w]);
    if k.s.maps[w].frame == k.s.maps[v].frame {
      OwnWords(x.e0, e, Pd(x), Cd(x), g.n, g.ws, g.complete, v);
      CopiedNow(x.e0, f, Pd(x), Cd(x), g.ws, v);
    } else {
      CopiedKept(x.e0, e, f, Pd(x), Cd(x), g.ws, [], v);
      assert g.ws + [] == g.ws;
    }
    WatchedNext(x.e0, f, Pd(x), Cd(x), g.n, g.ws, g.complete);
  }

  lemma OwnWords(e0: Private, e: Private, pd: nat, cd: nat, n: nat, ws: seq<Write>, complete: bool, v: Page)
    requires Watched(e0, e, pd, cd, n, ws, complete) && v.slot.dir == pd && v in e0 && InRange(v)
    ensures v in e && e[v] == Applied(e0[v], ws, pd, v)
  {
  }

  // ---- The child's exception page ----

  lemma StackArgs(x: Ctx, g: Prog, k: State, mem: Frames)
    requires Core(x, g, k, mem)
    ensures k.cur.Some? && Dir(k) == Pd(x) && Me(k) == Me(x.k1) && Me(k) > 0 && Envid2Env(k, Me(k), true) == k.cur && Cd(x) != k.s.kern && Cd(x) != Pd(x)
    ensures PageOf(k, ChildId(x), PgfaultLib.XSTACK, ExceptionPage(Cd(x))) && PageOf(k, Me(k), PFTEMP, PfTemp(Pd(x)))
    ensures Inv(k.s, {}) && |mem| == |k.s.ref|
  {
    hide Inv, Slots, FreeEnvs, OwnDirs, HasW, HasCow, HasU, View, Watched, CowInv, ForkMaps, ForkRoom, Tables, Gap, Accounted;
    SettingFacts(x);
    MyIdResolves(k);
    PgfaultLib.FixedPages(Pd(x));
    PgfaultLib.FixedPages(Cd(x));
  }

  lemma StackDone(x: Ctx, g: Prog, k: State, mem: Frames, k': State, mem': Frames, y: nat)
    requires Core(x, g, k, mem) && !g.gap && g.n == LAST && g.stack == None && KInv(k') && k' == k.(s := k'.s)
    requires FreshAt(k.s, k'.s, ExceptionPage(Cd(x)), y) && y < |mem'| && mem'[y] == ZeroPage() && Unmapped(k.s, y)
    requires Between(Machine(k.s, mem), Machine(k'.s, mem'), y)
    ensures g.complete && Core(x, g.(stack := Some(y)), k', mem')
  {
    hide Inv, Slots, FreeEnvs, OwnDirs, HasW, HasCow, HasU, HasP, View, Copied, Watched, CowInv, ForkMaps, ForkRoom, Tables, Exposed,
      Between, Progress, Entry, UPW, Unmapped, Accounted;
    var a, b := Machine(k.s, mem), Machine(k'.s, mem');
    SettingFacts(x);
    StackArgs(x, g, k, mem);
    ForkViews.BetweenFacts(a, b, y);
    StackAllocated(x.s, k.s, k'.s, Pd(x), Cd(x), g.complete, g.own.kept, y);
    NoStackYet(x.s, k.s, Pd(x), Cd(x), g.complete) by { MapsOf(x, g, k, mem); }
    AccountedStack(x.s, k.s, k'.s, Pd(x), Cd(x), g.n, g.own, y) by { MapsOf(x, g, k, mem); }
    ForkViews.FreshSeen(a, b, ExceptionPage(Cd(x)), y);
    NotInRange(Cd(x));
    WatchedChild(x.e0, View(a), Pd(x), Cd(x), g.n, g.ws, g.complete, ExceptionPage(Cd(x)), ZeroPage());
  }

  lemma MapsOf(x: Ctx, g: Prog, k: State, mem: Frames)
    requires Core(x, g, k, mem)
    ensures ForkMaps(x.s, k.s, Pd(x), Cd(x), InChildTo(g), g.stack, g.complete) && Pd(x) != Cd(x) && Pd(x) != x.s.kern && Cd(x) != x.s.kern
    ensures k.s.kern == x.s.kern && k.s.boot == x.s.boot && (g.complete ==> Accounted(x.s, k.s, Pd(x), Cd(x), InChildTo(g), g.own))
  {
    hide KInv, HasW, View, Watched, CowInv, ForkMaps, ForkRoom, Tables, Accounted, Setting;
  }

  lemma NotInRange(d: nat)
    ensures !InRange(ExceptionPage(d)) && !InRange(PfTemp(d))
  {
  }

  // ---- While the child's exception page is at PFTEMP too ----

  /** Only the words of frames that nobody maps differ. */
  ghost predicate SameMapped(s: Space, mem: Frames, mem': Frames) {
    |mem'| == |mem| && forall v | IsUser(s, v) && s.maps[v].frame < |mem| :: mem'[s.maps[v].frame] == mem[s.maps[v].frame]
  }

  lemma SameMappedView(s: Space, mem: Frames, mem': Frames)
    requires SameMapped(s, mem, mem')
    ensures View(Machine(s, mem')) == View(Machine(s, mem))
  {
    hide HasW;
  }

  lemma CoreFrames(x: Ctx, g: Prog, k: State, mem: Frames, mem': Frames)
    requires Core(x, g, k, mem) && !g.gap && SameMapped(k.s, mem, mem')
    ensures Core(x, g, k, mem')
  {
    hide Inv, KInv, HasW, View, Watched, CowInv, Progress, Setting, SameMapped, Accounted;
    SameMappedView(k.s, mem, mem');
    assert |mem'| == |mem| by { SameMappedSize(k.s, mem, mem'); }
  }

  lemma SameMappedSize(s: Space, mem: Frames, mem': Frames)
    requires SameMapped(s, mem, mem')
    ensures |mem'| == |mem|
  {
  }

  /** The child's exception page is at frame y, and nowhere else. */
  lemma StackHeld(x: Ctx, g: Prog, k: State, mem: Frames, y: nat)
    requires Core(x, g, k, mem) && !g.gap && g.stack == Some(y)
    ensures var q := ExceptionPage(Cd(x)); q in k.s.maps && k.s.maps[q] == Entry(y, UPW) && IsUser(k.s, q) && HasW(k.s.maps[q].flags)
    ensures y < |k.s.ref| && k.s.ref[y] == 1 && forall v | IsUser(k.s, v) && k.s.maps[v].frame == y :: v == ExceptionPage(Cd(x))
  {
    hide Inv, Slots, FreeEnvs, OwnDirs, HasW, HasCow, HasU, View, Watched, ForkRoom, Tables, InRange, DupPerm, SameRights, Entry, UPW, Accounted;
    SettingFacts(x);
    NotInRange(Pd(x));
    var q := ExceptionPage(Cd(x));
    WritableEntry(y);
    assert Writes(k.s, q, y);
    FreshNotBoot(k.s, q, y);
    PgfaultLib.DataCount(k.s, q);
    assert DataRefs(k.s, y) == {q};
  }

  lemma WritableEntry(y: nat)
    ensures HasW(Entry(y, UPW).flags) && HasU(Entry(y, UPW).flags) && Entry(y, UPW).frame == y && HasW(UPW)
  {
    UpwOk();
  }

  lemma LendArgs(x: Ctx, g: Prog, k: State, mem: Frames, y: nat)
    requires Core(x, g, k, mem) && !g.gap && g.stack == Some(y)
    ensures k.cur.Some? && MapArgs(k, ChildId(x), PgfaultLib.XSTACK, Me(k), PFTEMP, UPW, ExceptionPage(Cd(x)), PfTemp(Pd(x)))
  {
    hide Inv, Slots, FreeEnvs, OwnDirs, HasW, HasCow, HasU, View, Watched, ForkMaps, ForkRoom, Tables, Exposed, UPW, PermOk, Entry, CowInv, Accounted;
    StackArgs(x, g, k, mem);
    StackHeld(x, g, k, mem, y);
    CowShowsAll(k.s, ExceptionPage(Cd(x)));
    UpwOk();
    WritableEntry(y);
  }

  /** k differs from kt, a state of fork in progress, by the mapping at PFTEMP. */
  ghost predicate Lent(x: Ctx, g: Prog, y: nat, kt: State, k: State, mem: Frames) {
    && Core(x, g, kt, mem) && !g.gap && g.n == LAST && g.stack == Some(y) && g.complete
    && KInv(k) && k == kt.(s := k.s) && k.s.maps == kt.s.maps[PfTemp(Pd(x)) := Entry(y, UPW)]
    && k.s.dirs == kt.s.dirs && k.s.kern == kt.s.kern && k.s.boot == kt.s.boot && |k.s.ref| == |kt.s.ref|
    && k.s.tabs.Keys == kt.s.tabs.Keys + {Slot(Pd(x), 1)}
    && |k.s.free| == |kt.s.free| - (if Slot(Pd(x), 1) in kt.s.tabs then 0 else 1)
    && PfTemp(Pd(x)) !in kt.s.maps && Pd(x) != Cd(x) && Pd(x) in k.s.dirs && Pd(x) != k.s.kern
  }

  lemma LendDone(x: Ctx, g: Prog, k: State, mem: Frames, k': State, mem': Frames, ok: bool, y: nat)
    requires Core(x, g, k, mem) && !g.gap && g.n == LAST && g.stack == Some(y)
    requires MappedTo(k, k', mem, mem', ExceptionPage(Cd(x)), PfTemp(Pd(x)), UPW, ok)
    ensures g.complete && (ok <==> |x.s.free| >= ForkCost(x.s, Pd(x)) + g.own.kept)
    ensures ok ==> Lent(x, g, y, k, k', mem')
  {
    hide Inv, Slots, FreeEnvs, OwnDirs, HasW, HasCow, HasU, View, Watched, ForkMaps, ForkRoom, Tables, Exposed, UPW, PermOk, Entry, CowInv, Insert, ForkCost,
      Between, Unmapped, Accounted;
    var v, w := ExceptionPage(Cd(x)), PfTemp(Pd(x));
    SettingFacts(x);
    StackArgs(x, g, k, mem);
    StackHeld(x, g, k, mem, y);
    TempDecides(x.s, k.s, Pd(x), Cd(x), y, g.complete, g.own.kept);
    NotMappedTemp(x.s, k.s, Pd(x), Cd(x), g.n, g.stack, g.complete);
    UpwOk();
    WritableEntry(y);
    InsertChanges(k, v, w, UPW);
    if ok {
      FrameOfUser(k.s, v);
      InsertCost(k.s, {}, y, w, UPW);
      LentFrames(k.s, k'.s, mem, mem', w);
      CoreFrames(x, g, k, mem, mem');
    }
  }

  lemma LentFrames(s: Space, t: Space, mem: Frames, mem': Frames, w: Page)
    requires Between(Machine(s, mem), Machine(t, mem'), |mem|) && w !in s.maps && w in t.maps && t.maps == s.maps[w := t.maps[w]]
    ensures SameMapped(s, mem, mem')
  {
    hide Inv, HasW, Accounted;
    forall v | IsUser(s, v) && s.maps[v].frame < |mem| ensures mem'[s.maps[v].frame] == mem[s.maps[v].frame] {
      assert IsUser(t, v) && t.maps[v] == s.maps[v];
    }
  }

  /** An own page during that time. */
  lemma WindowPage(x: Ctx, g: Prog, y: nat, kt: State, k: State, mem: Frames, va: nat)
    requires Lent(x, g, y, kt, k, mem) && OwnPage(x.s, Pd(x), va)
    ensures var v := PageAt(Pd(x), va);
            && k.cur.Some? && Dir(k) == Pd(x) && v in k.s.maps && v in kt.s.maps && k.s.maps[v] == kt.s.maps[v] && HasU(k.s.maps[v].flags)
            && v.slot.dir in k.s.dirs && Inv(k.s, {}) && (v in g.own.writable <==> HasW(k.s.maps[v].flags))
            && (!HasW(k.s.maps[v].flags) ==> PgfaultLib.Repairable(k.s, v)) && PfTemp(Pd(x)) in k.s.maps
  {
    hide Inv, Slots, FreeEnvs, OwnDirs, HasW, HasCow, HasU, View, Watched, ForkMaps, ForkRoom, Tables, Exposed, UPW, Entry, CowInv, Progress, CowBut, Pdx, Ptx,
      InRange, Accounted;
    var v := PageAt(Pd(x), va);
    BeforeException(v);
    NotInRange(Pd(x));
    NotInRange(Cd(x));
    OwnPageFine(x, g, kt, mem, va);
    StackHeld(x, g, kt, mem, y);
    forall u | Writes(k.s, u, k.s.maps[v].frame) ensures u == v {
      assert Writes(kt.s, u, kt.s.maps[v].frame);
    }
    OnlyWriter(k.s, v);
  }

  lemma OnlyWriter(s: Space, v: Page)
    requires v in s.maps && forall u | Writes(s, u, s.maps[v].frame) :: u == v
    ensures !Exposed(s, v)
  {
    hide HasW;
  }

  lemma WindowStore(x: Ctx, g: Prog, y: nat, kt: State, k: State, mem: Frames, mem': Frames, w: Write)
    requires Lent(x, g, y, kt, k, mem) && OwnPage(x.s, Pd(x), w.va)
    requires var v := PageAt(Pd(x), w.va);
             v in k.s.maps && HasW(k.s.maps[v].flags)
             && var f := k.s.maps[v].frame; f < |mem| && |mem[f]| == 1024 && mem' == Poke(mem, f, PgOff(w.va) / 4, w.word)
    ensures Lent(x, g.(ws := g.ws + [w]), y, kt, k, mem')
  {
    hide Inv, KInv, HasW, HasU, Core, OwnPage, UPW, Pdx, Ptx, Entry, Accounted;
    WindowPage(x, g, y, kt, k, mem, w.va);
    OwnStore(x, g, kt, mem, mem', w);
  }

  /** memmove from PFTEMP to the parent's own exception page. */
  lemma StackCopyArgs(x: Ctx, g: Prog, y: nat, kt: State, k: State, mem: Frames)
    requires Lent(x, g, y, kt, k, mem) && CanFork(x.s, Pd(x))
    ensures var p, w := ExceptionPage(Pd(x)), PfTemp(Pd(x));
            && k.cur.Some? && Dir(k) == Pd(x) && w in k.s.maps && k.s.maps[w].frame == y && HasU(k.s.maps[w].flags)
            && p in k.s.maps && p in kt.s.maps && k.s.maps[p] == kt.s.maps[p] == x.s.maps[p] && HasU(k.s.maps[p].flags) && HasW(k.s.maps[p].flags)
            && k.s.maps[p].frame != y && IsUser(kt.s, p)
  {
    hide Inv, Slots, FreeEnvs, OwnDirs, HasW, HasCow, HasU, View, Watched, ForkRoom, Tables, Exposed, UPW, Entry, InRange, ChildPage, SameRights, Accounted;
    var p, w := ExceptionPage(Pd(x)), PfTemp(Pd(x));
    SettingFacts(x);
    NotInRange(Pd(x));
    StackHeld(x, g, kt, mem, y);
    WritableEntry(y);
    assert Lookup(kt.s.maps, p) == Lookup(x.s.maps, p);
    assert Writes(kt.s, p, kt.s.maps[p].frame);
  }

  /** With the parent's exception page as the child's. */
  function Cleared(x: Ctx): Ctx { x.(e0 := x.e0[ExceptionPage(Pd(x)) := ZeroPage()]) }

  lemma StackCopied(x: Ctx, g: Prog, y: nat, kt: State, k: State, mem: Frames, mem': Frames)
    requires Lent(x, g, y, kt, k, mem) && CanFork(x.s, Pd(x))
    requires ExceptionPage(Pd(x)) in k.s.maps
    requires var f := k.s.maps[ExceptionPage(Pd(x))].frame; f < |mem| && y < |mem| && mem' == mem[f := mem[y]]
    ensures Lent(Cleared(x), g, y, kt, k, mem')
  {
    hide Inv, Slots, FreeEnvs, OwnDirs, HasW, HasCow, HasU, View, Watched, ForkMaps, ForkRoom, Tables, Exposed, UPW, Entry, CowInv, InRange, Accounted,
      Progress, ForkCost;
    var p, q := ExceptionPage(Pd(x)), ExceptionPage(Cd(x));
    var a, b := Machine(kt.s, mem), Machine(kt.s, mem');
    SettingFacts(x);
    NotInRange(Pd(x));
    StackHeld(x, g, kt, mem, y);
    WritableEntry(y);
    StackCopyArgs(x, g, y, kt, k, mem);
    OnlyMapping(kt.s, p);
    CowShowsAll(kt.s, p);
    CowShowsAll(kt.s, q);
    InvOf(kt);
    ForkViews.CopySeen(a, b, q, p);
    WatchedClear(x.e0, View(a), Pd(x), Cd(x), g.n, g.ws, g.complete, p, ZeroPage());
  }

  lemma OnlyMapping(s: Space, p: Page)
    requires CowInv(s) && IsUser(s, p) && HasW(s.maps[p].flags)
    ensures forall u | IsUser(s, u) && s.maps[u].frame == s.maps[p].frame :: u == p
  {
    hide HasW;
    assert Writes(s, p, s.maps[p].frame);
  }

  /** A page of the parent outside the range is given other words, before and after. */
  lemma WatchedClear(e0: Private, e: Private, pd: nat, cd: nat, n: nat, ws: seq<Write>, complete: bool, p: Page, page: seq<Word>)
    requires Watched(e0, e, pd, cd, n, ws, complete) && pd != cd && p.slot.dir == pd && !InRange(p) && p in e0
    ensures Watched(e0[p := page], e[p := page], pd, cd, n, ws, complete)
  {
    hide InRange, Copied, Applied;
    if complete {
      forall v: Page | v in e0 && v.slot.dir == pd && InRange(v) && Number(v) < n ensures Copied(e0[p := page], e[p := page], pd, cd, ws, v) {
        CopiedElsewhere(e0, e, pd, cd, ws, v, p, page);
      }
    }
  }

  lemma CopiedElsewhere(e0: Private, e: Private, pd: nat, cd: nat, ws: seq<Write>, v: Page, p: Page, page: seq<Word>)
    requires Copied(e0, e, pd, cd, ws, v) && p != v && p.slot.dir == pd != cd
    ensures Copied(e0[p := page], e[p := page], pd, cd, ws, v)
  {
    var j: nat :| j <= |ws| && e[Twin(v, cd)] == Applied(e0[v], ws[..j], pd, v);
  }

  lemma ReturnDone(x: Ctx, g: Prog, y: nat, kt: State, k: State, mem: Frames, k': State, mem': Frames)
    requires Lent(x, g, y, kt, k, mem) && KInv(k') && k' == k.(s := k'.s) && k'.s == Remove(k.s, PfTemp(Pd(x)))
    requires Between(Machine(k.s, mem), Machine(k'.s, mem'), |mem|)
    ensures Core(x, g.(lent := true), k', mem') && Slot(Pd(x), 1) in k'.s.tabs
  {
    hide Inv, Slots, FreeEnvs, OwnDirs, HasW, HasCow, HasU, View, Watched, Tables, Exposed, UPW, Entry, CowInv, InRange, Remove, Between, ForkMaps, ForkRoom,
      Progress, Accounted;
    var w := PfTemp(Pd(x));
    SettingFacts(x);
    WritableEntry(y);
    Unmapping(k, w);
    ForkViews.BetweenFacts(Machine(k.s, mem), Machine(k'.s, mem'), |mem|);
    StackHeld(x, g, kt, mem, y);
    InvOf(k);
    PgfaultLib.TwoMappings(k.s, ExceptionPage(Cd(x)), w, y);
    assert k'.s.maps == kt.s.maps;
    assert Slot(Pd(x), 1) in k.s.tabs.Keys;
    ReturnedFrames(kt.s, k'.s, k.s, mem, mem');
    CoreFrames(x, g, kt, mem, mem');
    SameCow(kt.s, k'.s);
    SameMapsView(kt.s, k'.s, mem');
    TempReturned(x.s, kt.s, k'.s, Pd(x), Cd(x), y, g.complete, g.own.kept);
    MapsOf(x, g, kt, mem);
    if g.complete {
      AccountedSame(x.s, kt.s, k'.s, Pd(x), Cd(x), g.n, g.own);
    }
  }

  lemma ReturnedFrames(s: Space, t: Space, z: Space, mem: Frames, mem': Frames)
    requires Between(Machine(z, mem), Machine(t, mem'), |mem|) && t.maps == s.maps && t.kern == s.kern
    ensures SameMapped(s, mem, mem')
  {
    hide Inv, HasW, Accounted;
    forall v | IsUser(s, v) && s.maps[v].frame < |mem| ensures mem'[s.maps[v].frame] == mem[s.maps[v].frame] {
      assert IsUser(t, v);
    }
  }

  lemma SameMapsView(s: Space, t: Space, mem: Frames)
    requires t.maps == s.maps && t.kern == s.kern
    ensures View(Machine(t, mem)) == View(Machine(s, mem))
  {
    hide HasW, View, Exposed;
    SameExposed(s, t);
    forall v ensures (v in View(Machine(t, mem)) <==> v in View(Machine(s, mem)))
                  && (v in View(Machine(t, mem)) ==> View(Machine(t, mem))[v] == View(Machine(s, mem))[v]) {
      Visible(Machine(s, mem), v);
      Visible(Machine(t, mem), v);
    }
  }

  lemma TempReturned(s: Space, t: Space, u: Space, pd: nat, cd: nat, y: nat, complete: bool, net: nat)
    requires Progress(s, t, pd, cd, LAST, Some(y), complete, net) && Inv(u, {})
    requires u.maps == t.maps && u.dirs == t.dirs && u.kern == t.kern && u.boot == t.boot && |u.ref| == |t.ref|
    requires u.tabs.Keys == t.tabs.Keys + {Slot(pd, 1)} && |u.free| == |t.free| - (if Slot(pd, 1) in t.tabs then 0 else 1)
    ensures Progress(s, u, pd, cd, LAST, Some(y), complete, net)
  {
    hide HasW, HasCow, HasU, Inv, InRange, DupPerm, Entry, Tables, UPW, Todo, ChildPage, SameRights;
    KeysGrow(t, u, Slot(pd, 1));
    forall g: nat | g < |u.ref| ensures u.ref[g] + |Todo(u, pd, LAST, g)| < 65536 {
      NothingToDo(u, pd, g);
      CountBounds(u, g);
    }
  }

  // ---- The child's upcall ----

  /** The pages of the upcall, which is 4 bytes of the program at least, are pages that fork copies. */
  ghost predicate UpcallMapped(s: Space, pd: nat, func: nat) {
    func < Words.WORDS && forall pn | func / 4096 <= pn < RoundedEnd(func, 4) / 4096 :: RangePage(s, pd, PageNo(pd, pn)) && pn < LAST
  }

  /** So the child has them, and sys_env_set_pgfault_upcall finds nothing amiss. */
  lemma ChildHasUpcall(x: Ctx, g: Prog, k: State, mem: Frames, func: nat)
    requires Core(x, g, k, mem) && !g.gap && g.n == LAST && g.complete && UpcallMapped(x.s, Pd(x), func) && Rep(mem, k.s)
    ensures KernelCalls.UpcallThere(mem, Cd(x), func) && k.cur.Some? && Envid2Env(k, ChildId(x), true) == Some(x.c) && x.c < EnvIds.NENV && k.envs[x.c].pgdir == Cd(x)
  {
    hide Inv, Slots, FreeEnvs, OwnDirs, HasW, HasCow, HasU, View, Watched, CowInv, Tables, ForkRoom, DupPerm, SameRights, Accounted, Rep, Granted, InRange;
    SettingFacts(x);
    InvOf(k);
    forall pn | func / 4096 <= pn < RoundedEnd(func, 4) / 4096 ensures Checked(mem, Cd(x), func, pn, PTE_U) {
      var v, w := PageNo(Pd(x), pn), PageNo(Cd(x), pn);
      InRangeBelow(v, pn);
      NotInRange(Cd(x));
      assert w == Twin(v, Cd(x)) && Twin(w, Pd(x)) == v && InRange(w) by { TwinRange(v, Cd(x)); }
      assert ChildPage(x.s, Pd(x), Cd(x), LAST, g.stack, w, k.s.maps[w]);
      UserEntry(DupPerm(x.s.maps[v].flags));
      GrantedIsMapped(mem, k.s, Cd(x), pn, PTE_U);
    }
  }

  lemma InRangeBelow(v: Page, n: nat)
    requires InRange(v) && v == PageNo(v.slot.dir, n)
    ensures Number(v) < LAST
  {
    BeforeException(v);
  }

  lemma UserEntry(perm: bv12)
    requires HasU(perm)
    ensures HasAll(Entry(0, perm).flags, PTE_U | PTE_P)
  {
  }

  // ---- The end ----

  /** What everybody sees after a complete fork: other environments, what they saw; the parent,
      its pages after its own stores, and a cleared exception page; the child, copies of the
      parent's pages and a cleared exception page, and nothing else. */
  ghost predicate ForkedView(e0: Private, e: Private, pd: nat, cd: nat, ws: seq<Write>) {
    && (forall v: Page | v.slot.dir != pd && v.slot.dir != cd :: (v in e <==> v in e0) && (v in e ==> e[v] == e0[v]))
    && (forall v: Page | v.slot.dir == pd && v != ExceptionPage(pd) :: (v in e <==> v in e0) && (v in e ==> e[v] == Written(e0[v], ws, pd, v)))
    && (forall v: Page | v.slot.dir == pd && v in e0 && InRange(v) :: Copied(e0, e, pd, cd, ws, v))
    && Zeroed(e, ExceptionPage(pd)) && Zeroed(e, ExceptionPage(cd))
    && (forall v: Page | v.slot.dir == cd && v in e && v != ExceptionPage(cd) :: InRange(v) && Twin(v, pd) in e0)
  }

  lemma Ends(x: Ctx, g: Prog, k: State, mem: Frames, e0: Private)
    requires Core(x, g, k, mem) && !g.gap && g.n == LAST && g.stack.Some? && g.complete
    requires x.e0 == e0[ExceptionPage(Pd(x)) := ZeroPage()] && ExceptionPage(Pd(x)) in e0
    ensures ForkedView(e0, View(Machine(k.s, mem)), Pd(x), Cd(x), g.ws)
  {
    hide Inv, KInv, HasW, HasU, HasCow, View, Copied, CowInv, InRange, Applied, Progress, Accounted;
    var e := View(Machine(k.s, mem));
    SettingFacts(x);
    NotInRange(Pd(x));
    forall v: Page | v.slot.dir == Pd(x) && v in e0 && InRange(v) ensures Copied(e0, e, Pd(x), Cd(x), g.ws, v) {
      BeforeException(v);
      CopiedSame(x.e0, e0, e, Pd(x), Cd(x), g.ws, v);
    }
    forall v: Page | v.slot.dir == Cd(x) && v in e && v != ExceptionPage(Cd(x)) ensures InRange(v) && Twin(v, Pd(x)) in e0 {
      ChildSeen(x, g, k, mem, v);
    }
  }

  lemma ChildSeen(x: Ctx, g: Prog, k: State, mem: Frames, v: Page)
    requires Core(x, g, k, mem) && v.slot.dir == Cd(x) && v in View(Machine(k.s, mem)) && v != ExceptionPage(Cd(x))
    ensures InRange(v) && Twin(v, Pd(x)) in x.e0 && Twin(v, Pd(x)) != ExceptionPage(Pd(x))
  {
    hide Inv, KInv, HasW, HasU, HasCow, View, Copied, CowInv, InRange, Tables, ForkRoom, DupPerm, SameRights, Watched, Accounted;
    SettingFacts(x);
    Visible(Machine(k.s, mem), v);
    TwinRange(v, Pd(x));
    BeforeException(Twin(v, Pd(x)));
  }

  /** The pages that fork and the parent's faults took. */
  lemma Spent(x: Ctx, g: Prog, k: State, mem: Frames)
    requires Core(x, g, k, mem) && !g.gap && g.n == LAST && g.stack.Some? && g.complete && Slot(Pd(x), 1) in k.s.tabs
    ensures |k.s.free| == |x.s.free| - ForkCost(x.s, Pd(x)) - g.own.kept
  {
    hide Inv, KInv, HasW, View, Watched, CowInv, Tables, ForkRoom, ForkMaps, Setting, Accounted;
    AllTables(x.s, Pd(x), LAST);
  }

  lemma CopiedSame(d0: Private, e0: Private, e: Private, pd: nat, cd: nat, ws: seq<Write>, v: Page)
    requires Copied(d0, e, pd, cd, ws, v) && v in e0 && d0[v] == e0[v]
    ensures Copied(e0, e, pd, cd, ws, v)
  {
    var j: nat :| j <= |ws| && e[Twin(v, cd)] == Applied(d0[v], ws[..j], pd, v);
  }
}
