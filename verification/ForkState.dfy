/** fork in progress: the kernel's state, what everybody sees, and the stores that the parent's own
    code makes between the calls - its stack, for one, is a page that fork shares. */
module ForkState {
  import opened Basics
  import opened Mmu
  import opened PageSpace
  import opened PageWords
  import EnvIds
  import opened EnvState
  import opened Cow
  import opened LibCalls
  import opened PgfaultLib
  import opened ForkSteps
  import opened ForkPlan
  import opened ForkTally
  import ForkViews

  // ---- The parent's own stores ----

  /** The words of page v after the writes of directory d's environment. */
  function Applied(page: seq<Word>, ws: seq<Write>, d: nat, v: Page): (r: seq<Word>)
    ensures |r| == |page|
  {
    if ws == [] then page
    else
      var p, w := Applied(page, ws[..|ws| - 1], d, v), ws[|ws| - 1];
      if PageAt(d, w.va) == v && PgOff(w.va) / 4 < |p| then p[PgOff(w.va) / 4 := w.word] else p
  }

  lemma AppliedMore(page: seq<Word>, ws: seq<Write>, w: Write, d: nat, v: Page)
    ensures var p := Applied(page, ws, d, v);
            Applied(page, ws + [w], d, v) ==
              if PageAt(d, w.va) == v && PgOff(w.va) / 4 < |p| then p[PgOff(w.va) / 4 := w.word] else p
  {
    assert (ws + [w])[..|ws|] == ws;
  }

  /** Pages without stores are as they were. */
  lemma {:induction false} AppliedNowhere(page: seq<Word>, ws: seq<Write>, d: nat, v: Page)
    requires Untouched(ws, d, v)
    ensures Applied(page, ws, d, v) == page
    decreases |ws|
  {
    if ws != [] {
      AppliedNowhere(page, ws[..|ws| - 1], d, v);
    }
  }

  // ---- What everybody sees ----

  /** The parent's page v after its own stores. */
  function Written(page: seq<Word>, ws: seq<Write>, pd: nat, v: Page): seq<Word> {
    if InRange(v) then Applied(page, ws, pd, v) else page
  }

  /** The child sees of page v what the parent's page held after some of its stores. */
  ghost predicate Copied(e0: Private, e: Private, pd: nat, cd: nat, ws: seq<Write>, v: Page) {
    v in e0 && Twin(v, cd) in e && exists j: nat :: j <= |ws| && e[Twin(v, cd)] == Applied(e0[v], ws[..j], pd, v)
  }

  /** From e0, what was seen before fork, to e: nothing has changed for others; the parent sees its
      own stores; the child sees copies of the pages numbered below n. */
  ghost predicate Watched(e0: Private, e: Private, pd: nat, cd: nat, n: nat, ws: seq<Write>, complete: bool) {
    && (forall u: Page | u.slot.dir != pd && u.slot.dir != cd :: (u in e <==> u in e0) && (u in e ==> e[u] == e0[u]))
    && (forall v: Page | v.slot.dir == pd :: (v in e <==> v in e0) && (v in e ==> e[v] == Written(e0[v], ws, pd, v)))
    && (complete ==> forall v: Page | v in e0 && v.slot.dir == pd && InRange(v) && Number(v) < n :: Copied(e0, e, pd, cd, ws, v))
  }

  lemma CopiedKept(e0: Private, e: Private, f: Private, pd: nat, cd: nat, ws: seq<Write>, xs: seq<Write>, v: Page)
    requires Copied(e0, e, pd, cd, ws, v) && Twin(v, cd) in f && f[Twin(v, cd)] == e[Twin(v, cd)]
    ensures Copied(e0, f, pd, cd, ws + xs, v)
  {
    var j: nat :| j <= |ws| && e[Twin(v, cd)] == Applied(e0[v], ws[..j], pd, v);
    assert (ws + xs)[..j] == ws[..j];
  }

  lemma CopiedNow(e0: Private, e: Private, pd: nat, cd: nat, ws: seq<Write>, v: Page)
    requires v in e0 && Twin(v, cd) in e && e[Twin(v, cd)] == Applied(e0[v], ws, pd, v)
    ensures Copied(e0, e, pd, cd, ws, v)
  {
    assert ws[..|ws|] == ws;
  }

  /** A store of the parent. */
  lemma WatchedStore(e0: Private, e: Private, pd: nat, cd: nat, n: nat, ws: seq<Write>, complete: bool, w: Write)
    requires Watched(e0, e, pd, cd, n, ws, complete) && pd != cd && PageAt(pd, w.va) in e && |e[PageAt(pd, w.va)]| == 1024 && InRange(PageAt(pd, w.va))
    ensures var v := PageAt(pd, w.va);
            Watched(e0, e[v := e[v][PgOff(w.va) / 4 := w.word]], pd, cd, n, ws + [w], complete)
  {
    hide InRange, Copied, Applied, Pdx, Ptx;
    var v := PageAt(pd, w.va);
    var f := e[v := e[v][PgOff(w.va) / 4 := w.word]];
    forall u: Page | u.slot.dir == pd ensures (u in f <==> u in e0) && (u in f ==> f[u] == Written(e0[u], ws + [w], pd, u)) {
      if u in e0 {
        AppliedMore(e0[u], ws, w, pd, u);
      }
    }
    if complete {
      forall u: Page | u in e0 && u.slot.dir == pd && InRange(u) && Number(u) < n ensures Copied(e0, f, pd, cd, ws + [w], u) {
        CopiedIn(e0, e, pd, cd, ws, u);
        CopiedKept(e0, e, f, pd, cd, ws, [w], u);
      }
    }
  }

  lemma CopiedIn(e0: Private, e: Private, pd: nat, cd: nat, ws: seq<Write>, v: Page)
    requires Copied(e0, e, pd, cd, ws, v)
    ensures Twin(v, cd) in e
  {
  }

  /** Only a page of the child changes, one not counted yet. */
  lemma WatchedChild(e0: Private, e: Private, pd: nat, cd: nat, n: nat, ws: seq<Write>, complete: bool, w: Page, page: seq<Word>)
    requires Watched(e0, e, pd, cd, n, ws, complete) && pd != cd && w.slot.dir == cd && (InRange(w) ==> Number(w) >= n)
    ensures Watched(e0, e[w := page], pd, cd, n, ws, complete)
  {
    hide InRange, Copied, Applied;
    var f := e[w := page];
    if complete {
      forall u: Page | u in e0 && u.slot.dir == pd && InRange(u) && Number(u) < n ensures Copied(e0, f, pd, cd, ws, u) {
        CopiedIn(e0, e, pd, cd, ws, u);
        TwinRange(u, cd);
        CopiedKept(e0, e, f, pd, cd, ws, [], u);
        assert ws + [] == ws;
      }
    }
  }

  lemma TwinRange(v: Page, d: nat)
    ensures InRange(Twin(v, d)) <==> InRange(v)
    ensures Number(Twin(v, d)) == Number(v)
  {
  }

  /** One more page of the child is counted. */
  lemma WatchedNext(e0: Private, e: Private, pd: nat, cd: nat, n: nat, ws: seq<Write>, complete: bool)
    requires Watched(e0, e, pd, cd, n, ws, complete)
    requires complete && PageNo(pd, n) in e0 && InRange(PageNo(pd, n)) ==> Copied(e0, e, pd, cd, ws, PageNo(pd, n))
    ensures Watched(e0, e, pd, cd, n + 1, ws, complete)
  {
    hide InRange, Copied, Applied;
    forall v: Page | v.slot.dir == pd && InRange(v) && Number(v) == n ensures v == PageNo(pd, n) {
      RangeFields(v);
      NumberedOnly(v, PageNo(pd, n), PageNo(cd, n), n);
    }
  }

  /** Pages that are not in the range, or not there, need no copy. */
  lemma WatchedSkip(e0: Private, e: Private, pd: nat, cd: nat, n: nat, m: nat, ws: seq<Write>, complete: bool, s: Space)
    requires Watched(e0, e, pd, cd, n, ws, complete) && NoneBetween(s, pd, n, m)
    requires forall v: Page | v in e0 && v.slot.dir == pd :: v in s.maps
    ensures Watched(e0, e, pd, cd, m, ws, complete)
  {
    hide InRange, Copied, Applied;
  }

  lemma WatchedLess(e0: Private, e: Private, pd: nat, cd: nat, n: nat, m: nat, ws: seq<Write>, complete: bool)
    requires Watched(e0, e, pd, cd, n, ws, complete)
    ensures Watched(e0, e, pd, cd, m, ws, false)
  {
  }

  // ---- fork in progress ----

  /** fork was called in state a, of space s, seen as e0; k1 is the kernel after sys_exofork, c the
      child's slot. */
  datatype Ctx = Ctx(s: Space, e0: Private, a: Machine, k1: State, c: nat)

  /** Pages numbered below n are done; gap: page n is mapped into the child, and the parent's not
      yet mapped again. stack: the child's exception page. complete: no call has failed.
      lent: PFTEMP has been in use. own: the tally of the parent's own faults; ws: its own stores. */
  datatype Prog = Prog(n: nat, gap: bool, stack: Option<nat>, complete: bool, lent: bool, own: Tally, ws: seq<Write>)

  /** Pages numbered below are in the child. */
  function InChildTo(g: Prog): nat { if g.gap then g.n + 1 else g.n }

  function Pd(x: Ctx): nat { if Formed(x.k1) && x.k1.cur.Some? then Dir(x.k1) else 0 }

  function Cd(x: Ctx): nat { if x.c < |x.k1.envs| then x.k1.envs[x.c].pgdir else 0 }

  ghost predicate Setting(x: Ctx) {
    && Formed(x.k1) && x.k1.cur.Some? && x.c < EnvIds.NENV && Inv(x.s, {})
    && x.k1.envs[x.c].id > 0 && Envid2Env(x.k1, x.k1.envs[x.c].id, true) == Some(x.c)
    && forall v: Page | v.slot.dir == Pd(x) :: v in x.e0 <==> v in x.s.maps
  }

  ghost predicate Gap(x: Ctx, g: Prog, s: Space, e: Private) {
    var v, w := PageNo(Pd(x), g.n), PageNo(Cd(x), g.n);
    && v in s.maps && w in s.maps && v in x.s.maps && InRange(v) && Shareable(x.s.maps[v].flags) && g.stack == None
    && CowBut(s, v, w) && (s.maps[v].frame == s.maps[w].frame || Copied(x.e0, e, Pd(x), Cd(x), g.ws, v))
  }

  ghost predicate Core(x: Ctx, g: Prog, k: State, mem: Frames) {
    && Setting(x) && KInv(k) && k == x.k1.(s := k.s) && |mem| == |k.s.ref|
    && Progress(x.s, k.s, Pd(x), Cd(x), InChildTo(g), g.stack, g.complete, g.own.kept)
    && Watched(x.e0, View(Machine(k.s, mem)), Pd(x), Cd(x), g.n, g.ws, g.complete)
    && (if g.complete then Accounted(x.s, k.s, Pd(x), Cd(x), InChildTo(g), g.own) else RightRights(x.s, k.s, Pd(x), g.own) && !g.gap)
    && (Slot(Pd(x), 1) in k.s.tabs <==> HasTemp(x.s, Pd(x), g.own, g.lent))
    && (g.stack.Some? ==> g.n >= LAST) && (g.own.late > 0 ==> |x.s.free| >= ForkCost(x.s, Pd(x)) + g.own.late)
    && (g.stack.Some? ==> Zeroed(View(Machine(k.s, mem)), ExceptionPage(Cd(x))))
    && if g.gap then Gap(x, g, k.s, View(Machine(k.s, mem))) else CowInv(k.s)
  }

  ghost predicate Zeroed(e: Private, v: Page) { v in e && e[v] == ZeroPage() }

  ghost predicate Fine(x: Ctx, g: Prog, k: State, mem: Frames) {
    Core(x, g, k, mem) && Reaches(x.a, Machine(k.s, mem))
  }

  /** What Core says of one of the parent's own pages. */
  lemma OwnPageFine(x: Ctx, g: Prog, k: State, mem: Frames, va: nat)
    requires Core(x, g, k, mem) && OwnPage(x.s, Pd(x), va)
    ensures var v := PageAt(Pd(x), va);
            && k.cur.Some? && Dir(k) == Pd(x) && Pd(x) != Cd(x) && Pd(x) != k.s.kern && Pd(x) in k.s.dirs
            && v in k.s.maps && HasU(k.s.maps[v].flags) && Shareable(k.s.maps[v].flags) && IsUser(k.s, v)
            && !Exposed(k.s, v)
            && (forall u | Writes(k.s, u, k.s.maps[v].frame) :: u == v)
            && (!HasW(k.s.maps[v].flags) ==> Repairable(k.s, v))
            && CowBut(k.s, PageNo(Pd(x), g.n), PageNo(Cd(x), g.n)) && v != PageNo(Cd(x), g.n)
            && PfTemp(Pd(x)) !in k.s.maps && PfTemp(Pd(x)) !in x.s.maps
            && RangePage(x.s, Pd(x), v) && (v in g.own.writable <==> HasW(k.s.maps[v].flags))
  {
    hide Inv, KInv, HasW, HasU, HasCow, Watched, Copied, ForkRoom, Tables, Reaches, View, InRange, Pdx, Ptx, ChildPage, Setting, Exposed;
    var v, p, q := PageAt(Pd(x), va), PageNo(Pd(x), g.n), PageNo(Cd(x), g.n);
    SettingFacts(x);
    if !g.gap {
      ForkViews.CowIsCowBut(k.s, p, q);
    }
    ForkViews.CowButShows(k.s, p, q, v);
    BeforeException(v);
    NotMappedTemp(x.s, k.s, Pd(x), Cd(x), InChildTo(g), g.stack, g.complete);
    assert forall u | Writes(k.s, u, k.s.maps[v].frame) :: u == v;
  }

  lemma SettingFacts(x: Ctx)
    requires Setting(x)
    ensures Formed(x.k1) && x.k1.cur.Some? && Pd(x) == Dir(x.k1) && x.c < EnvIds.NENV && Cd(x) == x.k1.envs[x.c].pgdir
    ensures x.k1.envs[x.c].id > 0 && Envid2Env(x.k1, x.k1.envs[x.c].id, true) == Some(x.c)
    ensures forall v: Page | v.slot.dir == Pd(x) :: v in x.e0 <==> v in x.s.maps
  {
  }

  /** A store of the parent between two calls. */
  lemma OwnStore(x: Ctx, g: Prog, k: State, mem: Frames, mem': Frames, w: Write)
    requires Core(x, g, k, mem) && OwnPage(x.s, Pd(x), w.va)
    requires var v := PageAt(Pd(x), w.va);
             v in k.s.maps && HasW(k.s.maps[v].flags)
             && var f := k.s.maps[v].frame; f < |mem| && |mem[f]| == 1024 && mem' == Poke(mem, f, PgOff(w.va) / 4, w.word)
    ensures Core(x, g.(ws := g.ws + [w]), k, mem')
  {
    hide KInv, HasW, HasU, HasCow, Copied, ForkRoom, Tables, Reaches, View, InRange, Pdx, Ptx, Setting, Exposed, Watched, Progress, CowInv, CowBut, Inv;
    var v := PageAt(Pd(x), w.va);
    OwnPageFine(x, g, k, mem, w.va);
    InvOf(k);
    ForkViews.StoreSeen(Machine(k.s, mem), Machine(k.s, mem'), v, PgOff(w.va) / 4, w.word);
    var e, f := View(Machine(k.s, mem)), View(Machine(k.s, mem'));
    WatchedStore(x.e0, e, Pd(x), Cd(x), g.n, g.ws, g.complete, w);
    if g.gap && Copied(x.e0, e, Pd(x), Cd(x), g.ws, PageNo(Pd(x), g.n)) {
      CopiedIn(x.e0, e, Pd(x), Cd(x), g.ws, PageNo(Pd(x), g.n));
      CopiedKept(x.e0, e, f, Pd(x), Cd(x), g.ws, [w], PageNo(Pd(x), g.n));
    }
  }

  /** One of the parent's own pages is repaired. */
  ghost predicate FaultsTo(k: State, k': State, mem: Frames, mem': Frames, v: Page, y: nat) {
    && KInv(k') && k' == k.(s := k'.s) && v in k.s.maps && !HasW(k.s.maps[v].flags)
    && Repaired(Machine(k.s, mem), Machine(k'.s, mem'), v, y)
  }

  function Faulted(x: Ctx, g: Prog, v: Page): Prog { g.(own := AfterFault(x.s, g.own, v, g.stack.Some?)) }

  /** A page fault of the parent between two calls. */
  lemma OwnFault(x: Ctx, g: Prog, k: State, k': State, mem: Frames, mem': Frames, va: nat, y: nat)
    requires Core(x, g, k, mem) && OwnPage(x.s, Pd(x), va) && FaultsTo(k, k', mem, mem', PageAt(Pd(x), va), y) && CanRepair(k.s, PageAt(Pd(x), va))
    ensures g.complete && PageAt(Pd(x), va) !in g.own.writable
    ensures Core(x, Faulted(x, g, PageAt(Pd(x), va)), k', mem')
  {
    hide KInv, HasW, HasU, HasCow, Copied, ForkRoom, Tables, Reaches, View, InRange, Pdx, Ptx, Setting, Exposed, Watched, Progress, CowInv, CowBut, Inv,
      Repaired, Repairable, Accounted, AfterFault, ForkCost, CanRepair, RangePage;
    var v, p, q := PageAt(Pd(x), va), PageNo(Pd(x), g.n), PageNo(Cd(x), g.n);
    var a, b := Machine(k.s, mem), Machine(k'.s, mem');
    OwnPageFine(x, g, k, mem, va);
    ForkViews.FaultUnseen(a, b, v, y, p, q);
    FaultKeeps(x.s, a, b, Pd(x), Cd(x), InChildTo(g), g.stack, g.complete, g.own.kept, v, y);
    RepairedFacts(a, b, v, y);
    TallyFault(x, g, k, mem, b, v, y);
    if g.gap {
      GapFault(x, g, k, mem, k', mem', v, y);
    } else {
      FaultKeepsCow(a, b, v, y);
    }
  }

  /** The tally of that fault. */
  lemma TallyFault(x: Ctx, g: Prog, k: State, mem: Frames, b: Machine, v: Page, y: nat)
    requires Core(x, g, k, mem) && RangePage(x.s, Pd(x), v) && v in k.s.maps && !HasW(k.s.maps[v].flags) && Repaired(Machine(k.s, mem), b, v, y) && CanRepair(k.s, v)
    ensures g.complete && v !in g.own.writable && g.own.kept + 1 - Released(k.s, v) == AfterFault(x.s, g.own, v, g.stack.Some?).kept
    ensures var p := AfterFault(x.s, g.own, v, g.stack.Some?);
            Accounted(x.s, b.s, Pd(x), Cd(x), InChildTo(g), p) && (p.late > 0 ==> |x.s.free| >= ForkCost(x.s, Pd(x)) + p.late)
            && Slot(Pd(x), 1) in b.s.tabs && HasTemp(x.s, Pd(x), p, g.lent)
  {
    hide KInv, HasW, HasU, HasCow, Copied, ForkRoom, Tables, View, InRange, Exposed, Watched, CowInv, Gap, Inv, ChildPage, SameRights, RightPages, RightShared,
      RightFrames,
      RightCopies, RightAlone, Gives, ForkCost, CanRepair, UPW, Entry;
    BeforeException(v);
    SettingFacts(x);
    NotMappedTemp(x.s, k.s, Pd(x), Cd(x), InChildTo(g), g.stack, g.complete);
    assert b.s.maps == k.s.maps[v := Entry(y, UPW)];
    assert PfTemp(Pd(x)).slot == Slot(Pd(x), 1) && Slot(Pd(x), 1) in b.s.tabs.Keys;
    ForkViews.BetweenFacts(Machine(k.s, mem), b, y);
    FreshNotBoot(b.s, v, y);
    GivesReleased(x.s, k.s, Pd(x), Cd(x), InChildTo(g), g.own, v);
    AccountedFault(x.s, k.s, b.s, Pd(x), Cd(x), InChildTo(g), g.own, v, y, g.stack.Some?);
    if g.stack.Some? {
      LateFault(x.s, k.s, Pd(x), Cd(x), InChildTo(g), g.stack, g.complete, g.own.kept, v);
    }
  }

  lemma RepairedFacts(a: Machine, b: Machine, v: Page, x: nat)
    requires Repaired(a, b, v, x)
    ensures |b.mem| == |b.s.ref| && b.s.kern == a.s.kern && forall u | u != v && u != PfTemp(v.slot.dir) :: Lookup(b.s.maps, u) == Lookup(a.s.maps, u)
  {
    hide Inv;
  }

  /** In the gap, a fault of the page itself makes its copy final. */
  lemma GapFault(x: Ctx, g: Prog, k: State, mem: Frames, k': State, mem': Frames, v: Page, y: nat)
    requires Core(x, g, k, mem) && g.gap && k'.s.kern == k.s.kern && KInv(k') && v in k.s.maps && !HasW(k.s.maps[v].flags)
    requires Repaired(Machine(k.s, mem), Machine(k'.s, mem'), v, y) && v.slot.dir == Pd(x) && v != PageNo(Cd(x), g.n)
    requires View(Machine(k'.s, mem')) == View(Machine(k.s, mem)) && CowBut(k'.s, PageNo(Pd(x), g.n), PageNo(Cd(x), g.n))
    ensures Gap(x, g, k'.s, View(Machine(k'.s, mem')))
  {
    hide KInv, HasW, HasU, HasCow, Copied, ForkRoom, Tables, Reaches, View, InRange, Setting, Exposed, CowInv, CowBut, Inv, Between, Progress, Watched, Entry,
      UPW, Unmapped;
    var p, q := PageNo(Pd(x), g.n), PageNo(Cd(x), g.n);
    var e := View(Machine(k.s, mem));
    BeforeException(p);
    if v == p && k.s.maps[p].frame == k.s.maps[q].frame {
      GapCopied(x, g, k, mem);
    }
  }

  /** Once the page cannot be written, its copy shows what it holds. */
  lemma GapCopied(x: Ctx, g: Prog, k: State, mem: Frames)
    requires Core(x, g, k, mem) && g.gap
    requires var p, q := PageNo(Pd(x), g.n), PageNo(Cd(x), g.n); !HasW(k.s.maps[p].flags) && k.s.maps[p].frame == k.s.maps[q].frame
    ensures Copied(x.e0, View(Machine(k.s, mem)), Pd(x), Cd(x), g.ws, PageNo(Pd(x), g.n))
  {
    hide KInv, HasW, HasU, HasCow, Copied, ForkRoom, Tables, Reaches, View, InRange, Setting, Exposed, CowInv, Inv, CowBut;
    var p, q := PageNo(Pd(x), g.n), PageNo(Cd(x), g.n);
    NumberedOnly(p, p, q, g.n);
    SettingFacts(x);
    InvOf(k);
    SealedSeen(Machine(k.s, mem), p, q);
    CopiedNow(x.e0, View(Machine(k.s, mem)), Pd(x), Cd(x), g.ws, p);
  }

  lemma SealedSeen(a: Machine, p: Page, q: Page)
    requires Inv(a.s, {}) && |a.mem| == |a.s.ref| && CowBut(a.s, p, q) && IsUser(a.s, p) && IsUser(a.s, q) && p != q
    requires !HasW(a.s.maps[p].flags) && a.s.maps[p].frame == a.s.maps[q].frame
    ensures p in View(a) && q in View(a) && View(a)[q] == View(a)[p]
  {
    hide Inv, HasW, View;
    ForkViews.Seen(a, p);
    ForkViews.Seen(a, q);
  }
}
