/** user/dumbfork.c: fork by copying every page, and what copy-on-write fork has in common
    with it. */
module DumbforkLib {
  import opened Basics
  import opened Mmu
  import opened PageSpace
  import opened PageWords
  import Pmap
  import EnvIds
  import opened EnvState
  import EnvRuns
  import opened KernelCalls
  import opened Cow
  import opened LibCalls
  import opened PgfaultLib
  import ForkSteps
  import opened ForkPlan
  import opened ForkViews
  import opened ForkState
  import opened ForkCalls
  import ForkLib

  const UTEMP: nat := 0x40_0000

  function TempPage(d: nat): Page { Page(Slot(d, 1), 0) }

  /** A page that dumbfork copies: mapped for the user, in the range. */
  predicate Copyable(s: Space, v: Page) { v in s.maps && HasU(s.maps[v].flags) && InRange(v) }

  /** The parent stores to pages that it may write: a program without copy-on-write pages. */
  predicate PlainPage(s: Space, pd: nat, va: nat) {
    va < UTOP && var v := PageAt(pd, va); Copyable(s, v) && HasW(s.maps[v].flags)
  }

  predicate PlainCode(s: Space, pd: nat, code: seq<seq<Write>>) {
    forall i, j | 0 <= i < |code| && 0 <= j < |code[i]| :: PlainPage(s, pd, code[i][j].va)
  }

  // ---- dumbfork in progress ----

  /** What everybody sees, but for the temporary page. */
  ghost function Seen0(x: Ctx, s: Space, mem: Frames): Private {
    View(Machine(s, mem)) - {TempPage(Pd(x))}
  }

  ghost predicate Begun(x: Ctx) {
    && Formed(x.k1) && x.k1.cur.Some? && x.c < EnvIds.NENV && Inv(x.s, {})
    && x.k1.envs[x.c].id > 0 && Envid2Env(x.k1, x.k1.envs[x.c].id, true) == Some(x.c)
    && Pd(x) != Cd(x) && Pd(x) in x.s.dirs && Pd(x) != x.s.kern && Cd(x) != x.s.kern
  }

  /** The parent's pages as they were, and the child's: writable copies of the pages in done, and
      the page w that is being made. */
  ghost predicate CopyMaps(x: Ctx, done: set<Page>, w: Page, s: Space) {
    && s.kern == x.s.kern && s.boot == x.s.boot && s.dirs == x.s.dirs + {Cd(x)} && |s.ref| == |x.s.ref|
    && (forall v: Page | v.slot.dir == Pd(x) && v != TempPage(Pd(x)) :: Lookup(s.maps, v) == Lookup(x.s.maps, v))
    && (forall v: Page | v.slot.dir == Cd(x) && v in s.maps ::
          (Twin(v, Pd(x)) in done || v == w) && s.maps[v] == Entry(s.maps[v].frame, UPW))
  }

  /** The pages in done have been copied. The frame of w may also be at the temporary page. */
  ghost predicate Copying(x: Ctx, done: set<Page>, ws: seq<Write>, w: Page, k: State, mem: Frames) {
    && Begun(x) && KInv(k) && k == x.k1.(s := k.s) && |mem| == |k.s.ref|
    && CopyMaps(x, done, w, k.s) && PairShares(k.s, w, TempPage(Pd(x))) && w.slot.dir == Cd(x)
    && Watched(x.e0, Seen0(x, k.s, mem), Pd(x), Cd(x), 0, ws, false)
    && (forall v | v in done :: v.slot.dir == Pd(x) && Copyable(x.s, v) && Copied(x.e0, Seen0(x, k.s, mem), Pd(x), Cd(x), ws, v))
    && Reaches(x.a, Machine(k.s, mem))
  }

  lemma CopyingMeans(x: Ctx, done: set<Page>, ws: seq<Write>, w: Page, k: State, mem: Frames)
    requires Copying(x, done, ws, w, k, mem)
    ensures k == x.k1.(s := k.s) && KInv(k) && k.cur.Some? && Inv(k.s, {}) && |mem| == |k.s.ref| && k.s.kern == x.s.kern && k.s.dirs == x.s.dirs + {Cd(x)}
    ensures Reaches(x.a, Machine(k.s, mem)) && PairShares(k.s, w, TempPage(Pd(x))) && w.slot.dir == Cd(x)
    ensures Pd(x) == Dir(k) && Pd(x) != Cd(x) && Pd(x) in k.s.dirs && Cd(x) in k.s.dirs && Pd(x) != k.s.kern && Cd(x) != k.s.kern
    ensures Me(k) > 0 && Envid2Env(k, Me(k), true) == k.cur == Envid2Env(k, 0, true)
    ensures Formed(x.k1) && x.c < EnvIds.NENV && ChildId(x) > 0 && Envid2Env(k, ChildId(x), true) == Some(x.c) && k.envs[x.c].pgdir == Cd(x)
  {
    hide Inv, Slots, FreeEnvs, OwnDirs, HasW, Watched, View, Copied, PairShares;
    MyIdResolves(k);
  }

  /** One of the parent's pages, which nobody else writes. */
  lemma ParentPage(x: Ctx, done: set<Page>, ws: seq<Write>, w: Page, k: State, mem: Frames, v: Page)
    requires Copying(x, done, ws, w, k, mem) && v.slot.dir == Pd(x) && Copyable(x.s, v)
    ensures v in k.s.maps && k.s.maps[v] == x.s.maps[v] && IsUser(k.s, v) && !Exposed(k.s, v) && v != TempPage(Pd(x)) && v != w
    ensures forall u | Writes(k.s, u, k.s.maps[v].frame) :: u == v
  {
    hide Inv, KInv, HasU, HasW, Watched, View, Copied;
    BeforeException(v);
    assert Lookup(k.s.maps, v) == Lookup(x.s.maps, v);
  }

  /** A store of the parent. */
  lemma PlainStore(x: Ctx, done: set<Page>, ws: seq<Write>, w: Page, k: State, mem: Frames, mem': Frames, st: Write)
    requires Copying(x, done, ws, w, k, mem) && PlainPage(x.s, Pd(x), st.va)
    requires var v := PageAt(Pd(x), st.va);
             v in k.s.maps && var f := k.s.maps[v].frame; f < |mem| && |mem[f]| == 1024 && mem' == Poke(mem, f, PgOff(st.va) / 4, st.word)
    requires Reaches(x.a, Machine(k.s, mem'))
    ensures Copying(x, done, ws + [st], w, k, mem')
  {
    hide Inv, KInv, HasU, HasW, View, Copied, PairShares, Exposed, Reaches, Watched, InRange, Pdx, Ptx, CopyMaps;
    var v := PageAt(Pd(x), st.va);
    ParentPage(x, done, ws, w, k, mem, v);
    InvOf(k);
    StoreSeen(Machine(k.s, mem), Machine(k.s, mem'), v, PgOff(st.va) / 4, st.word);
    var e, f := Seen0(x, k.s, mem), Seen0(x, k.s, mem');
    assert f == e[v := e[v][PgOff(st.va) / 4 := st.word]];
    WatchedStore(x.e0, e, Pd(x), Cd(x), 0, ws, false, st);
    forall u | u in done ensures Copied(x.e0, f, Pd(x), Cd(x), ws + [st], u) {
      CopiedIn(x.e0, e, Pd(x), Cd(x), ws, u);
      CopiedKept(x.e0, e, f, Pd(x), Cd(x), ws, [st], u);
    }
  }

  // ---- One page ----

  /** The child's page w is fresh. */
  lemma MadeFresh(x: Ctx, done: set<Page>, ws: seq<Write>, w0: Page, k: State, mem: Frames, k': State, mem': Frames, w: Page, y: nat)
    requires Copying(x, done, ws, w0, k, mem) && CowInv(k.s) && w.slot.dir == Cd(x) && KInv(k') && k' == k.(s := k'.s)
    requires FreshAt(k.s, k'.s, w, y) && y < |mem'| && mem'[y] == ZeroPage() && Unmapped(k.s, y)
    requires Between(Machine(k.s, mem), Machine(k'.s, mem'), y) && Reaches(x.a, Machine(k'.s, mem'))
    requires forall v: Page | v in k.s.maps && v.slot.dir == Cd(x) :: Twin(v, Pd(x)) in done
    ensures Copying(x, done - {Twin(w, Pd(x))}, ws, w, k', mem') && CowInv(k'.s)
  {
    hide Inv, KInv, HasU, HasW, View, Copied, PairShares, Exposed, Reaches, Watched, InRange, CowInv, Between, UPW, Entry, Unmapped;
    var a, b := Machine(k.s, mem), Machine(k'.s, mem');
    CopyingMeans(x, done, ws, w0, k, mem);
    BetweenFacts(a, b, y);
    FreshSeen(a, b, w, y);
    var e, f := Seen0(x, k.s, mem), Seen0(x, k'.s, mem');
    assert f == e[w := ZeroPage()];
    WatchedChildLess(x.e0, e, Pd(x), Cd(x), ws, w, ZeroPage());
    PairOfNone(k'.s, w, TempPage(Pd(x)));
    forall v | v in done && v != Twin(w, Pd(x)) ensures Copied(x.e0, f, Pd(x), Cd(x), ws, v) {
      StillCopied(x.e0, e, f, Pd(x), Cd(x), ws, v, w, ZeroPage());
    }
    FreshEntry(y);
  }

  lemma FreshEntry(y: nat)
    ensures Entry(y, UPW).frame == y
  {
  }

  lemma WatchedChildLess(e0: Private, e: Private, pd: nat, cd: nat, ws: seq<Write>, w: Page, page: seq<Word>)
    requires Watched(e0, e, pd, cd, 0, ws, false) && pd != cd && w.slot.dir == cd
    ensures Watched(e0, e[w := page], pd, cd, 0, ws, false)
  {
    hide InRange, Applied;
  }

  /** Another page of the child changes. */
  lemma StillCopied(e0: Private, e: Private, f: Private, pd: nat, cd: nat, ws: seq<Write>, v: Page, w: Page, page: seq<Word>)
    requires Copied(e0, e, pd, cd, ws, v) && f == e[w := page] && w.slot.dir == cd && v.slot.dir == pd && v != Twin(w, pd)
    ensures Copied(e0, f, pd, cd, ws, v)
  {
    hide Applied;
    CopiedIn(e0, e, pd, cd, ws, v);
    CopiedKept(e0, e, f, pd, cd, ws, [], v);
    assert ws + [] == ws;
  }

  /** The same frame is at the temporary page too. */
  lemma MadeTemp(x: Ctx, done: set<Page>, ws: seq<Write>, w: Page, k: State, mem: Frames, k': State, mem': Frames)
    requires Copying(x, done, ws, w, k, mem) && CowInv(k.s) && KInv(k') && k' == k.(s := k'.s) && w in k.s.maps && HasW(k.s.maps[w].flags)
    requires k'.s.maps == k.s.maps[TempPage(Pd(x)) := Entry(k.s.maps[w].frame, UPW)] && k'.s.dirs == k.s.dirs && k'.s.boot == k.s.boot
    requires Between(Machine(k.s, mem), Machine(k'.s, mem'), |mem|) && Reaches(x.a, Machine(k'.s, mem'))
    ensures Copying(x, done, ws, w, k', mem')
  {
    hide Inv, KInv, HasU, HasW, View, Copied, PairShares, Exposed, Reaches, Watched, InRange, CowInv, Between, UPW, Entry;
    var a, b := Machine(k.s, mem), Machine(k'.s, mem');
    CopyingMeans(x, done, ws, w, k, mem);
    BetweenFacts(a, b, |mem|);
    LentSeen(a, b, w, TempPage(Pd(x)));
    assert Seen0(x, k'.s, mem') == Seen0(x, k.s, mem);
  }

  /** memmove. */
  lemma MadeCopy(x: Ctx, done: set<Page>, ws: seq<Write>, w: Page, k: State, mem: Frames, mem': Frames, v: Page)
    requires Copying(x, done, ws, w, k, mem) && v.slot.dir == Pd(x) && Copyable(x.s, v) && v in x.e0 && w == Twin(v, Cd(x))
    requires w in k.s.maps && v in k.s.maps && Reaches(x.a, Machine(k.s, mem'))
    requires var f, g := k.s.maps[v].frame, k.s.maps[w].frame; f < |mem| && g < |mem| && mem' == mem[g := mem[f]]
    ensures Copying(x, done + {v}, ws, w, k, mem')
  {
    hide Inv, KInv, HasU, HasW, View, Copied, PairShares, Exposed, Reaches, Watched, InRange, Entry, UPW;
    var a, b, t := Machine(k.s, mem), Machine(k.s, mem'), TempPage(Pd(x));
    CopyingMeans(x, done, ws, w, k, mem);
    ParentPage(x, done, ws, w, k, mem, v);
    WritableEntry(k.s.maps[w].frame);
    CopyThrough(a, b, v, w, t);
    var e, f := Seen0(x, k.s, mem), Seen0(x, k.s, mem');
    assert f == e[w := e[v]];
    WatchedChildLess(x.e0, e, Pd(x), Cd(x), ws, w, e[v]);
    OwnWords(x.e0, f, Pd(x), Cd(x), 0, ws, false, v);
    assert Twin(w, Pd(x)) == v;
    forall u | u in done + {v} ensures Copied(x.e0, f, Pd(x), Cd(x), ws, u) {
      if u == v {
        CopiedNow(x.e0, f, Pd(x), Cd(x), ws, v);
      } else {
        StillCopied(x.e0, e, f, Pd(x), Cd(x), ws, u, w, e[v]);
      }
    }
  }

  /** The temporary page goes. */
  lemma MadeAlone(x: Ctx, done: set<Page>, ws: seq<Write>, w: Page, k: State, mem: Frames, k': State, mem': Frames)
    requires Copying(x, done, ws, w, k, mem) && KInv(k') && k' == k.(s := k'.s) && w in k.s.maps && HasW(k.s.maps[w].flags)
    requires k'.s.maps == k.s.maps - {TempPage(Pd(x))} && k'.s.dirs == k.s.dirs && k'.s.boot == k.s.boot
    requires Between(Machine(k.s, mem), Machine(k'.s, mem'), |mem|) && Reaches(x.a, Machine(k'.s, mem'))
    ensures Copying(x, done, ws, w, k', mem') && CowInv(k'.s)
  {
    hide Inv, KInv, HasU, HasW, View, Copied, PairShares, Exposed, Reaches, Watched, InRange, CowInv, Between, UPW, Entry;
    var a, b := Machine(k.s, mem), Machine(k'.s, mem');
    CopyingMeans(x, done, ws, w, k, mem);
    BetweenFacts(a, b, |mem|);
    ReturnedSeen(a, b, w, TempPage(Pd(x)));
    PairOfNone(k'.s, w, TempPage(Pd(x)));
    assert Seen0(x, k'.s, mem') == Seen0(x, k.s, mem);
  }

  // ---- What it costs ----

  ghost function Idx(done: set<Page>): set<nat> { set v | v in done :: v.slot.pdx }

  function NewTable(s: Space, pd: nat): nat { if Slot(pd, 1) in s.tabs then 0 else 1 }

  /** The page that was at UTEMP before, if nobody else maps its frame, is given back when the first
      copy is mapped there. */
  function Back(x: Ctx, given: bool): nat { if given then Released(x.s, TempPage(Pd(x))) else 0 }

  /** The child has tables for the copies and nothing else; each copy took a page. given: UTEMP has
      been mapped anew. */
  ghost predicate Paid(x: Ctx, done: set<Page>, given: bool, s: Space) {
    && (forall i: nat :: Slot(Cd(x), i) in s.tabs <==> i in Idx(done))
    && (Slot(Pd(x), 1) in x.s.tabs ==> Slot(Pd(x), 1) in s.tabs)
    && |s.free| == |x.s.free| - 1 - |Idx(done)| - |done| - ForkSteps.TempTable(x.s, s, Pd(x)) + Back(x, given)
    && (!given ==> Released(s, TempPage(Pd(x))) == Released(x.s, TempPage(Pd(x))) && (TempPage(Pd(x)) in s.maps ==> TempPage(Pd(x)) in x.s.maps))
  }

  /** One page for each of so many copies, one for each table, one for the directory. */
  ghost function Cost(x: Ctx, tables: set<nat>, pages: nat): nat {
    1 + |tables| + pages + NewTable(x.s, Pd(x))
  }

  lemma IdxMore(done: set<Page>, v: Page)
    ensures Idx(done + {v}) == Idx(done) + {v.slot.pdx}
    ensures |done + {v}| == |done| + (if v in done then 0 else 1)
    ensures |Idx(done + {v})| == |Idx(done)| + (if v.slot.pdx in Idx(done) then 0 else 1)
  {
    ForkSteps.WithOneMore(Idx(done), v.slot.pdx);
    assert v in done ==> done + {v} == done;
    var i := Idx(done + {v});
    assert forall j :: j in i ==> j in Idx(done) + {v.slot.pdx};
    assert forall u :: u in done ==> u in done + {v};
  }

  /** A page that only the child maps has one reference. */
  lemma ChildCount(s: Space, w: Page)
    requires Inv(s, {}) && CowInv(s) && IsUser(s, w) && s.maps[w] == Entry(s.maps[w].frame, UPW)
    ensures Released(s, w) == 1
  {
    UpwOk();
    hide Inv, HasW, HasU, UPW, CowInv;
    var f := s.maps[w].frame;
    OnlyMapping(s, w) by { assert HasW(s.maps[w].flags); }
    ForkSteps.FreshNotBoot(s, w, f);
    DataCount(s, w);
    assert DataRefs(s, f) == {w};
  }

  lemma AllocPaid(x: Ctx, done: set<Page>, s: Space, t: Space, v: Page, y: nat)
    requires Paid(x, done, done != {}, s) && FreshAt(s, t, Twin(v, Cd(x)), y) && Cd(x) != Pd(x) && Pd(x) != s.kern
    requires Inv(s, {}) && Inv(t, {}) && Unmapped(s, y)
    requires if v in done then Released(s, Twin(v, Cd(x))) == 1 else Twin(v, Cd(x)) !in s.maps
    requires done != {} ==> TempPage(Pd(x)) !in s.maps
    ensures Paid(x, done + {v}, done != {}, t) && (done != {} ==> TempPage(Pd(x)) !in t.maps) && (Slot(Pd(x), 1) in s.tabs ==> Slot(Pd(x), 1) in t.tabs)
    ensures var w := Twin(v, Cd(x)); w in t.maps && HasW(t.maps[w].flags) && t.maps[w].frame < |t.ref| && t.ref[t.maps[w].frame] == 1
  {
    hide UPW, Entry, Idx, Inv, Unmapped;
    IdxMore(done, v);
    ForkSteps.KeysGrow(s, t, Twin(v, Cd(x)).slot);
    WritableEntry(y);
    if done == {} && TempPage(Pd(x)) in s.maps {
      SameReleased(s, t, TempPage(Pd(x)), Twin(v, Cd(x)), y);
    }
  }

  /** Where sys_page_alloc fails, memory does not suffice. */
  lemma AllocShort(x: Ctx, done: set<Page>, given: bool, s: Space, v: Page, tables: set<nat>, pages: nat)
    requires Paid(x, done, given, s) && Idx(done + {v}) <= tables && |done| < pages
    requires |s.free| < 2 && (s.free == [] || Slot(Cd(x), v.slot.pdx) !in s.tabs)
    ensures |x.s.free| + Back(x, given) < Cost(x, tables, pages)
  {
    hide Idx, Released;
    IdxMore(done, v);
    SubsetSize(Idx(done + {v}), tables);
  }

  lemma MapShort(x: Ctx, done: set<Page>, given: bool, s: Space, tables: set<nat>, pages: nat)
    requires Paid(x, done, given, s) && Idx(done) <= tables && |done| <= pages && s.free == [] && Slot(Pd(x), 1) !in s.tabs
    ensures |x.s.free| + Back(x, given) < Cost(x, tables, pages)
  {
    hide Idx, Released;
    SubsetSize(Idx(done), tables);
  }

  /** The temporary mapping costs a table at most, and gives back what was there. */
  lemma TempPaid(x: Ctx, done: set<Page>, given: bool, s: Space, t: Space, w: Page)
    requires Paid(x, done, given, s) && Inv(s, {}) && IsUser(s, w) && w.slot.dir == Cd(x) && Cd(x) != Pd(x) && s.kern != Pd(x)
    requires s.maps[w].frame < |s.ref| && s.ref[s.maps[w].frame] == 1
    requires Insert(s, s.maps[w].frame, TempPage(Pd(x)), UPW) == Some(t)
    requires given ==> TempPage(Pd(x)) !in s.maps
    ensures Paid(x, done, true, t) && Slot(Pd(x), 1) in t.tabs
  {
    hide UPW, Idx, Insert, Inv;
    var p := TempPage(Pd(x));
    ForkSteps.FrameOfUser(s, w);
    InvShaped(s, {});
    if p in s.maps {
      MappedHasTable(s, p);
      if s.maps[p].frame == s.maps[w].frame {
        TwoMappings(s, w, p, s.maps[w].frame);
      }
    }
    InsertCost(s, {}, s.maps[w].frame, p, UPW);
    ForkSteps.KeysGrow(s, t, Slot(Pd(x), 1));
  }

  /** Success: there was memory for one page more than there were copies. u is the state after the
      allocation. */
  lemma PaidAll(x: Ctx, done: set<Page>, s: Space, v: Page, u: Space, t: Space)
    requires Paid(x, done, done != {}, s) && Paid(x, done + {v}, done != {}, u) && Paid(x, done + {v}, true, t) && (v in done ==> s.free != [])
    requires (done != {} ==> Slot(Pd(x), 1) in s.tabs) && Slot(Pd(x), 1) in t.tabs && Inv(x.s, {})
    ensures |x.s.free| + Back(x, done != {}) >= Cost(x, Idx(done + {v}), |done| + 1)
  {
    hide Idx, Inv;
    IdxMore(done, v);
    if v in done {
      assert done + {v} == done;
    }
    if TempPage(Pd(x)) in x.s.maps {
      MappedHasTable(x.s, TempPage(Pd(x))) by { InvShaped(x.s, {}); }
    }
  }

  // ---- duppage ----

  method StorePlain(kn: Kernel, st: Write, ghost x: Ctx, ghost done: set<Page>, ghost ws: seq<Write>, ghost w: Page)
    requires Ready(kn) && Copying(x, done, ws, w, kn.k, kn.pm.mem) && PlainPage(x.s, Pd(x), st.va)
    modifies kn.pm
    ensures Ready(kn) && kn.k == old(kn.k) && Copying(x, done, ws + [st], w, kn.k, kn.pm.mem)
  {
    hide KInv, FreeChain.Chain, Rep, Pmap.TlbAgrees, Copying, HasU, HasW, InRange, Pdx, Ptx, Reaches;
    ghost var mem, v := kn.pm.mem, PageAt(Pd(x), st.va);
    CopyingMeans(x, done, ws, w, kn.k, mem);
    ParentPage(x, done, ws, w, kn.k, mem, v);
    var ok := StoreWord(kn, st.va, st.word, x.a, v);
    PlainStore(x, done, ws, w, kn.k, mem, kn.pm.mem, st);
  }

  lemma PlainAt(s: Space, pd: nat, code: seq<seq<Write>>, t: nat)
    requires PlainCode(s, pd, code)
    ensures forall i | 0 <= i < |GapCode(code, t)| :: PlainPage(s, pd, GapCode(code, t)[i].va)
  {
    hide PlainPage;
  }

  /** The parent's code in the t-th gap. */
  method RunPlain(kn: Kernel, code: seq<seq<Write>>, t: nat, ghost x: Ctx, ghost done: set<Page>, ghost w: Page)
    requires Ready(kn) && Copying(x, done, Joined(code, t), w, kn.k, kn.pm.mem) && PlainCode(x.s, Pd(x), code)
    modifies kn.pm
    ensures Ready(kn) && kn.k == old(kn.k)
    ensures Copying(x, done, Joined(code, t + 1), w, kn.k, kn.pm.mem)
  {
    hide KInv, FreeChain.Chain, Rep, Pmap.TlbAgrees, Copying, PlainPage, PlainCode, Reaches;
    var ws := GapCode(code, t);
    PlainAt(x.s, Pd(x), code, t);
    ghost var before := Joined(code, t);
    var i := 0;
    assert before + ws[..0] == before;
    while i < |ws|
      invariant i <= |ws| && Ready(kn) && kn.k == old(kn.k)
      invariant Copying(x, done, before + ws[..i], w, kn.k, kn.pm.mem)
    {
      StorePlain(kn, ws[i], x, done, before + ws[..i], w);
      assert before + ws[..i] + [ws[i]] == before + ws[..i + 1];
      i := i + 1;
    }
    assert before + ws[..i] == Joined(code, t + 1);
  }

  /** Between two calls of duppage. */
  ghost predicate Ours(kn: Kernel, code: seq<seq<Write>>, t: nat, x: Ctx, done: set<Page>, w: Page)
    reads kn, kn.pm
  {
    && Ready(kn) && Copying(x, done, Joined(code, t), w, kn.k, kn.pm.mem) && PlainCode(x.s, Pd(x), code)
  }

  ghost predicate Settled(kn: Kernel, code: seq<seq<Write>>, t: nat, x: Ctx, done: set<Page>, w: Page)
    reads kn, kn.pm
  {
    && Ours(kn, code, t, x, done, w) && CowInv(kn.k.s) && Paid(x, done, done != {}, kn.k.s)
    && (done != {} ==> Slot(Pd(x), 1) in kn.k.s.tabs && TempPage(Pd(x)) !in kn.k.s.maps)
    && (forall v: Page | v in kn.k.s.maps && v.slot.dir == Cd(x) :: Twin(v, Pd(x)) in done)
    && (forall v: Page | v.slot.dir == Pd(x) :: v in x.s.maps && v != TempPage(Pd(x)) ==> v in x.e0)
  }

  /** sys_page_alloc of the child's page. */
  method AllocCopy(kn: Kernel, dstenv: int, addr: nat, code: seq<seq<Write>>, t: nat, ghost x: Ctx, ghost done: set<Page>, ghost w0: Page,
                   ghost tables: set<nat>, ghost pages: nat)
    returns (r: int)
    requires Settled(kn, code, t, x, done, w0) && VaOk(addr) && dstenv == ChildId(x)
    requires var v := PageAt(Pd(x), addr); Idx(done + {v}) <= tables && |done| < pages
    modifies kn, kn.pm
    ensures r == 0 || r < 0
    ensures var v := PageAt(Pd(x), addr); var w := Twin(v, Cd(x));
            if r == 0 then
              && Ours(kn, code, t, x, done - {v}, w) && CowInv(kn.k.s) && Paid(x, done + {v}, done != {}, kn.k.s)
              && w in kn.k.s.maps && HasW(kn.k.s.maps[w].flags) && kn.k.s.maps[w].frame < |kn.k.s.ref| && kn.k.s.ref[kn.k.s.maps[w].frame] == 1
              && (done != {} ==> TempPage(Pd(x)) !in kn.k.s.maps)
              && (Slot(Pd(x), 1) in old(kn.k.s.tabs) ==> Slot(Pd(x), 1) in kn.k.s.tabs)
            else Ready(kn) && Reaches(x.a, Now(kn)) && kn.k == x.k1.(s := kn.k.s) && |x.s.free| + Back(x, done != {}) < Cost(x, tables, pages)
    ensures r == 0 ==> old(kn.k.s.free) != []
  {
    hide KInv, FreeChain.Chain, Rep, Pmap.TlbAgrees, Copying, HasU, HasW, InRange, Pdx, Ptx, Reaches, CowInv, Paid, VaOk, Between, UPW, Idx, PlainCode, Entry,
      Exposed, Joined, Back, Cost, Released,
      FreshAt, Unmapped;
    ghost var k, mem := kn.k, kn.pm.mem;
    ghost var v := PageAt(Pd(x), addr);
    ghost var w, ws := Twin(v, Cd(x)), Joined(code, t);
    CopyingMeans(x, done, ws, w0, k, mem);
    AllocFacts(x, done, ws, w0, k, mem, v);
    ghost var y;
    r, y := AllocPage(kn, dstenv, addr, x.a, w);
    if r == 0 {
      MadeFresh(x, done, ws, w0, k, mem, kn.k, kn.pm.mem, w, y);
      InvOf(kn.k);
      AllocPaid(x, done, k.s, kn.k.s, v, y);
    } else {
      AllocShort(x, done, done != {}, k.s, v, tables, pages);
    }
  }

  lemma AllocFacts(x: Ctx, done: set<Page>, ws: seq<Write>, w0: Page, k: State, mem: Frames, v: Page)
    requires Copying(x, done, ws, w0, k, mem) && CowInv(k.s) && v.slot.dir == Pd(x)
    requires forall u: Page | u in k.s.maps && u.slot.dir == Cd(x) :: Twin(u, Pd(x)) in done
    ensures var w := Twin(v, Cd(x)); if v in done then Released(k.s, w) == 1 else w !in k.s.maps
    ensures Twin(Twin(v, Cd(x)), Pd(x)) == v
  {
    hide KInv, Inv, HasU, HasW, InRange, Reaches, CowInv, View, Watched, PairShares, UPW, Entry, Released;
    CopyingMeans(x, done, ws, w0, k, mem);
    var w := Twin(v, Cd(x));
    if v in done {
      CopiedIn(x.e0, Seen0(x, k.s, mem), Pd(x), Cd(x), ws, v);
      Visible(Machine(k.s, mem), w);
      ChildCount(k.s, w);
    }
  }

  /** The child's page w is there, with a frame of its own. */
  ghost predicate Made(s: Space, w: Page) {
    w in s.maps && HasW(s.maps[w].flags) && s.maps[w].frame < |s.ref|
  }

  /** sys_page_map of the child's page to UTEMP. */
  method MapCopy(kn: Kernel, dstenv: int, addr: nat, code: seq<seq<Write>>, t: nat, ghost x: Ctx, ghost done: set<Page>, ghost paid: set<Page>, ghost given: bool,
                 ghost w: Page, ghost tables: set<nat>, ghost pages: nat)
    returns (r: int)
    requires Ours(kn, code, t, x, done, w) && CowInv(kn.k.s) && Paid(x, paid, given, kn.k.s) && VaOk(addr) && dstenv == ChildId(x) && w == PageAt(Cd(x), addr)
    requires Made(kn.k.s, w) && kn.k.s.ref[kn.k.s.maps[w].frame] == 1 && Idx(paid) <= tables && |paid| <= pages
    requires given ==> TempPage(Pd(x)) !in kn.k.s.maps
    modifies kn, kn.pm
    ensures r == 0 || r < 0
    ensures if r == 0 then
              && Ours(kn, code, t, x, done, w) && Paid(x, paid, true, kn.k.s) && Slot(Pd(x), 1) in kn.k.s.tabs
              && Made(kn.k.s, w) && TempPage(Pd(x)) in kn.k.s.maps && kn.k.s.maps[TempPage(Pd(x))] == Entry(kn.k.s.maps[w].frame, UPW)
            else Ready(kn) && Reaches(x.a, Now(kn)) && kn.k == x.k1.(s := kn.k.s) && |x.s.free| + Back(x, given) < Cost(x, tables, pages)
  {
    hide KInv, FreeChain.Chain, Rep, Pmap.TlbAgrees, Copying, HasU, HasW, InRange, Pdx, Ptx, Reaches, CowInv, Paid, VaOk, Between, UPW, Idx, PlainCode, Entry,
      Exposed, Joined, Insert, MapArgs, Back, Cost, Mapped1, Made;
    ghost var k, mem, p := kn.k, kn.pm.mem, TempPage(Pd(x));
    ghost var ws := Joined(code, t);
    CopyingMeans(x, done, ws, w, k, mem);
    MapCopyArgs(x, done, ws, w, k, mem, addr);
    r := MapPage(kn, dstenv, addr, 0, UTEMP, UPW, x.a, w, p);
    CopyMapped(x, done, paid, given, ws, w, k, mem, kn.k, kn.pm.mem, addr, r == 0, tables, pages);
  }

  lemma CopyLent(x: Ctx, done: set<Page>, paid: set<Page>, given: bool, ws: seq<Write>, w: Page, k: State, mem: Frames, k': State, mem': Frames)
    requires Copying(x, done, ws, w, k, mem) && CowInv(k.s) && Paid(x, paid, given, k.s) && Made(k.s, w) && k.s.ref[k.s.maps[w].frame] == 1
    requires given ==> TempPage(Pd(x)) !in k.s.maps
    requires KInv(k') && k' == k.(s := k'.s) && Insert(k.s, k.s.maps[w].frame, TempPage(Pd(x)), UPW) == Some(k'.s)
    requires k'.s.maps == k.s.maps[TempPage(Pd(x)) := Entry(k.s.maps[w].frame, UPW)] && k'.s.dirs == k.s.dirs && k'.s.boot == k.s.boot && |k'.s.ref| == |k.s.ref|
    requires Between(Machine(k.s, mem), Machine(k'.s, mem'), |mem|) && Reaches(x.a, Machine(k'.s, mem'))
    ensures Copying(x, done, ws, w, k', mem') && Paid(x, paid, true, k'.s) && Slot(Pd(x), 1) in k'.s.tabs
    ensures Made(k'.s, w) && TempPage(Pd(x)) in k'.s.maps && k'.s.maps[TempPage(Pd(x))] == Entry(k'.s.maps[w].frame, UPW)
  {
    hide KInv, Inv, Copying, HasU, HasW, InRange, Reaches, CowInv, Paid, Between, UPW, Idx, Entry, Insert, PairShares, Pd, Cd, Envid2Env, ChildId;
    CopyingMeans(x, done, ws, w, k, mem);
    MadeTemp(x, done, ws, w, k, mem, k', mem');
    TempPaid(x, paid, given, k.s, k'.s, w);
  }

  lemma CopyMapped(x: Ctx, done: set<Page>, paid: set<Page>, given: bool, ws: seq<Write>, w: Page, k: State, mem: Frames, k': State, mem': Frames, addr: nat, ok: bool,
                   tables: set<nat>, pages: nat)
    requires Copying(x, done, ws, w, k, mem) && CowInv(k.s) && Paid(x, paid, given, k.s) && VaOk(addr) && w == PageAt(Cd(x), addr)
    requires Made(k.s, w) && k.s.ref[k.s.maps[w].frame] == 1 && Idx(paid) <= tables && |paid| <= pages
    requires given ==> TempPage(Pd(x)) !in k.s.maps
    requires MappedTo(k, k', mem, mem', w, TempPage(Pd(x)), UPW, ok) && Reaches(x.a, Machine(k'.s, mem'))
    ensures if ok then
              && Copying(x, done, ws, w, k', mem') && Paid(x, paid, true, k'.s) && Slot(Pd(x), 1) in k'.s.tabs
              && Made(k'.s, w) && TempPage(Pd(x)) in k'.s.maps && k'.s.maps[TempPage(Pd(x))] == Entry(k'.s.maps[w].frame, UPW)
            else |x.s.free| + Back(x, given) < Cost(x, tables, pages)
  {
    hide KInv, Copying, HasU, HasW, InRange, Pdx, Ptx, Reaches, CowInv, Paid, VaOk, Between, UPW, Idx, Entry, Exposed, Insert, MapArgs, Cost, Pd, Cd,
      Envid2Env, ChildId, PairShares;
    CopyingMeans(x, done, ws, w, k, mem);
    MapCopyArgs(x, done, ws, w, k, mem, addr);
    if ok {
      CopyLent(x, done, paid, given, ws, w, k, mem, k', mem');
    } else {
      MapShort(x, paid, given, k.s, tables, pages);
    }
  }

  lemma FixedTemp(d: nat)
    ensures VaOk(UTEMP) && PageAt(d, UTEMP) == TempPage(d) && IsTemp(TempPage(d))
  {
  }

  lemma MapCopyArgs(x: Ctx, done: set<Page>, ws: seq<Write>, w: Page, k: State, mem: Frames, addr: nat)
    requires Copying(x, done, ws, w, k, mem) && CowInv(k.s) && VaOk(addr) && w == PageAt(Cd(x), addr)
    requires Made(k.s, w) && k.s.ref[k.s.maps[w].frame] == 1
    ensures k.cur.Some? && MapArgs(k, ChildId(x), addr, 0, UTEMP, UPW, w, TempPage(Pd(x)))
    ensures KInv(k) && UserPage(k.s, TempPage(Pd(x))) && IsUser(k.s, w) && w.slot.dir in k.s.dirs
    ensures match Insert(k.s, k.s.maps[w].frame, TempPage(Pd(x)), UPW)
            case None => true
            case Some(t) =>
              && t.maps == k.s.maps[TempPage(Pd(x)) := Entry(k.s.maps[w].frame, UPW)] && t.dirs == k.s.dirs && t.kern == k.s.kern
              && t.boot == k.s.boot && |t.ref| == |k.s.ref|
  {
    hide Inv, Slots, FreeEnvs, OwnDirs, HasU, HasW, Watched, View, Copied, PairShares, Exposed, CowInv, PermOk, Pdx, Ptx, UPW, Insert, Entry;
    CopyingMeans(x, done, ws, w, k, mem);
    FixedTemp(Pd(x));
    UpwOk();
    CowShowsAll(k.s, w);
    InsertChanges(k, w, TempPage(Pd(x)), UPW);
  }

  /** memmove(UTEMP, addr, PGSIZE). */
  method MoveCopy(kn: Kernel, addr: nat, code: seq<seq<Write>>, t: nat, ghost x: Ctx, ghost done: set<Page>, ghost w: Page)
    requires Ours(kn, code, t, x, done, w) && VaOk(addr) && Made(kn.k.s, w) && Copyable(x.s, PageAt(Pd(x), addr))
    requires w == Twin(PageAt(Pd(x), addr), Cd(x)) && PageAt(Pd(x), addr) in x.e0
    requires TempPage(Pd(x)) in kn.k.s.maps && kn.k.s.maps[TempPage(Pd(x))] == Entry(kn.k.s.maps[w].frame, UPW)
    modifies kn.pm
    ensures Ours(kn, code, t, x, done + {PageAt(Pd(x), addr)}, w) && kn.k == old(kn.k)
  {
    hide KInv, FreeChain.Chain, Rep, Pmap.TlbAgrees, Copying, HasU, HasW, InRange, Pdx, Ptx, Reaches, VaOk, UPW, PlainCode, Entry, Exposed, Joined, PairShares;
    ghost var k, mem, p := kn.k, kn.pm.mem, TempPage(Pd(x));
    ghost var ws, v := Joined(code, t), PageAt(Pd(x), addr);
    CopyingMeans(x, done, ws, w, k, mem);
    ParentPage(x, done, ws, w, k, mem, v);
    FixedTemp(Pd(x));
    WritableEntry(k.s.maps[w].frame);
    assert Writes(k.s, w, k.s.maps[w].frame);
    CopyPage(kn, UTEMP, addr, x.a, p, v);
    MadeCopy(x, done, ws, w, k, mem, kn.pm.mem, v);
  }

  lemma ReturnPaid(x: Ctx, paid: set<Page>, k: State, w: Page)
    requires Paid(x, paid, true, k.s) && KInv(k) && Made(k.s, w) && IsUser(k.s, w) && Pd(x) in k.s.dirs && Pd(x) != k.s.kern && w.slot.dir != Pd(x)
    requires TempPage(Pd(x)) in k.s.maps && k.s.maps[TempPage(Pd(x))].frame == k.s.maps[w].frame
    ensures Paid(x, paid, true, Remove(k.s, TempPage(Pd(x))))
  {
    hide Inv, Slots, FreeEnvs, OwnDirs, HasW, Idx, Remove;
    var p := TempPage(Pd(x));
    Unmapping(k, p);
    TwoMappings(k.s, w, p, k.s.maps[w].frame);
  }

  /** sys_page_unmap of UTEMP. */
  method UnmapCopy(kn: Kernel, code: seq<seq<Write>>, t: nat, ghost x: Ctx, ghost done: set<Page>, ghost w: Page)
    returns (r: int)
    requires Ours(kn, code, t, x, done, w) && Paid(x, done, true, kn.k.s) && Slot(Pd(x), 1) in kn.k.s.tabs && Made(kn.k.s, w)
    requires TempPage(Pd(x)) in kn.k.s.maps && kn.k.s.maps[TempPage(Pd(x))] == Entry(kn.k.s.maps[w].frame, UPW)
    modifies kn, kn.pm
    ensures r == 0 && Ours(kn, code, t, x, done, w) && CowInv(kn.k.s) && Paid(x, done, true, kn.k.s) && Slot(Pd(x), 1) in kn.k.s.tabs
    ensures TempPage(Pd(x)) !in kn.k.s.maps
  {
    hide KInv, FreeChain.Chain, Rep, Pmap.TlbAgrees, Copying, HasU, HasW, InRange, Reaches, UPW, PlainCode, Entry, Exposed, Joined, PairShares, Paid, Between,
      CowInv, Remove, VaOk, Pdx, Ptx;
    ghost var k, mem, p := kn.k, kn.pm.mem, TempPage(Pd(x));
    ghost var ws := Joined(code, t);
    CopyingMeans(x, done, ws, w, k, mem);
    FixedTemp(Pd(x));
    WritableEntry(k.s.maps[w].frame);
    Unmapping(k, p);
    ReturnPaid(x, done, k, w);
    r := UnmapPage(kn, 0, UTEMP, x.a, p);
    MadeAlone(x, done, ws, w, k, mem, kn.k, kn.pm.mem);
  }

  /** The calls after sys_page_alloc, with the parent's code before each. */
  method FillCopy(kn: Kernel, dstenv: int, addr: nat, code: seq<seq<Write>>, t: nat, ghost x: Ctx, ghost done: set<Page>, ghost paid: set<Page>, ghost given: bool,
                  ghost w: Page, ghost tables: set<nat>, ghost pages: nat)
    returns (ok: bool, t': nat)
    requires Ours(kn, code, t, x, done, w) && CowInv(kn.k.s) && Paid(x, paid, given, kn.k.s) && VaOk(addr) && dstenv == ChildId(x)
    requires var v := PageAt(Pd(x), addr); w == Twin(v, Cd(x)) && Copyable(x.s, v) && v in x.e0 && paid == done + {v}
    requires Made(kn.k.s, w) && kn.k.s.ref[kn.k.s.maps[w].frame] == 1 && Idx(paid) <= tables && |paid| <= pages
    requires given ==> TempPage(Pd(x)) !in kn.k.s.maps
    modifies kn, kn.pm
    ensures if ok then
              && Ours(kn, code, t', x, paid, w) && CowInv(kn.k.s) && Paid(x, paid, true, kn.k.s) && Slot(Pd(x), 1) in kn.k.s.tabs
              && TempPage(Pd(x)) !in kn.k.s.maps
            else Ready(kn) && Reaches(x.a, Now(kn)) && kn.k == x.k1.(s := kn.k.s) && |x.s.free| + Back(x, given) < Cost(x, tables, pages)
  {
    hide KInv, FreeChain.Chain, Rep, Pmap.TlbAgrees, Copying, HasU, HasW, InRange, Reaches, UPW, PlainCode, Entry, Joined, Paid, CowInv, VaOk, Pdx, Ptx, Idx, Cost, Back;
    RunPlain(kn, code, t, x, done, w);
    t' := t + 1;
    var r := MapCopy(kn, dstenv, addr, code, t', x, done, paid, given, w, tables, pages);
    if r < 0 {
      return false, t';
    }
    RunPlain(kn, code, t', x, done, w);
    t' := t' + 1;
    CopySource(x, PageAt(Pd(x), addr));
    MoveCopy(kn, addr, code, t', x, done, w);
    RunPlain(kn, code, t', x, paid, w);
    t' := t' + 1;
    r := UnmapCopy(kn, code, t', x, paid, w);
    return true, t';
  }

  /** dumbfork's duppage; false when it panics, for want of memory. */
  method Duppage(kn: Kernel, dstenv: int, addr: nat, code: seq<seq<Write>>, t: nat, ghost x: Ctx, ghost done: set<Page>, ghost w0: Page,
                 ghost tables: set<nat>, ghost pages: nat)
    returns (ok: bool, t': nat, ghost w: Page)
    requires Settled(kn, code, t, x, done, w0) && VaOk(addr) && dstenv == ChildId(x) && Copyable(x.s, PageAt(Pd(x), addr))
    requires Idx(done + {PageAt(Pd(x), addr)}) <= tables && |done| < pages
    modifies kn, kn.pm
    ensures if ok then Settled(kn, code, t', x, done + {PageAt(Pd(x), addr)}, w)
            else Ready(kn) && Reaches(x.a, Now(kn)) && kn.k == x.k1.(s := kn.k.s) && |x.s.free| + Back(x, done != {}) < Cost(x, tables, pages)
    ensures ok ==> TempPage(Pd(x)) !in kn.k.s.maps
    ensures ok ==> |x.s.free| + Back(x, done != {}) >= Cost(x, Idx(done + {PageAt(Pd(x), addr)}), |done| + 1)
  {
    hide KInv, FreeChain.Chain, Rep, Pmap.TlbAgrees, Copying, HasU, HasW, InRange, Reaches, UPW, PlainCode, Entry, Joined, Paid, CowInv, VaOk, Pdx, Ptx, Idx,
      Made, Cost, Back;
    ghost var v := PageAt(Pd(x), addr);
    w := Twin(v, Cd(x));
    RunPlain(kn, code, t, x, done, w0);
    t' := t + 1;
    ghost var s := kn.k.s;
    var r := AllocCopy(kn, dstenv, addr, code, t', x, done, w0, tables, pages);
    if r < 0 {
      return false, t', w;
    }
    ghost var u := kn.k.s;
    IdxMore(done, v);
    MadeIs(u, w);
    CopySource(x, v);
    assert done - {v} + {v} == done + {v};
    ok, t' := FillCopy(kn, dstenv, addr, code, t', x, done - {v}, done + {v}, done != {}, w, tables, pages);
    if !ok {
      return;
    }
    Finished(kn.k, kn.pm.mem, x, done + {v}, Joined(code, t'), w);
    PaidAll(x, done, s, v, u, kn.k.s) by { BegunInv(kn.k, kn.pm.mem, x, done + {v}, Joined(code, t'), w); }
  }

  lemma BegunInv(k: State, mem: Frames, x: Ctx, done: set<Page>, ws: seq<Write>, w: Page)
    requires Copying(x, done, ws, w, k, mem)
    ensures Inv(x.s, {})
  {
    hide Inv, KInv, HasW, Watched, View, Copied, PairShares;
  }

  lemma MadeIs(s: Space, w: Page)
    ensures Made(s, w) <==> w in s.maps && HasW(s.maps[w].flags) && s.maps[w].frame < |s.ref|
  {
  }

  lemma CopySource(x: Ctx, v: Page)
    ensures Copyable(x.s, v) ==> v != TempPage(Pd(x))
  {
    BeforeException(v);
  }

  lemma Finished(k: State, mem: Frames, x: Ctx, done: set<Page>, ws: seq<Write>, w: Page)
    requires Copying(x, done, ws, w, k, mem) && Twin(w, Pd(x)) in done
    ensures forall v: Page | v in k.s.maps && v.slot.dir == Cd(x) :: Twin(v, Pd(x)) in done
  {
    hide KInv, Inv, HasU, HasW, InRange, Reaches, View, Watched, PairShares, UPW, Entry, Copied;
  }

  // ---- dumbfork ----

  /** Pages from UTEXT up to an end. */
  function PagesTo(end: nat): nat { if end <= UTEXT then 0 else (end + 4095) / 4096 - 2048 }

  /** The pages of pd numbered from PGNUM(UTEXT) up to n. */
  ghost function DoneTo(pd: nat, n: nat): set<Page> {
    if n <= 2048 then {} else DoneTo(pd, n - 1) + {PageNo(pd, n - 1)}
  }

  /** What dumbfork copies: the program, and the page of the stack. */
  ghost function ToCopy(pd: nat, end: nat, sp: nat): set<Page> {
    DoneTo(pd, 2048 + PagesTo(end)) + {PageAt(pd, sp)}
  }

  /** The child's directory and tables, a page for each copy - a second one for the stack's page if
      the program ends above it - and the table of UTEMP if there is none. */
  ghost function DumbCost(s: Space, pd: nat, end: nat, sp: nat): nat {
    1 + |Idx(ToCopy(pd, end, sp))| + PagesTo(end) + 1 + NewTable(s, pd)
  }

  /** Pages that dumbfork needs: the page at UTEMP, if it is given back, helps with all copies but the
      first. */
  ghost function DumbNeed(s: Space, pd: nat, end: nat, sp: nat): int {
    DumbCost(s, pd, end, sp) - if PagesTo(end) > 0 then Released(s, TempPage(pd)) else 0
  }

  lemma {:induction false} DoneSize(pd: nat, n: nat)
    requires n >= 2048
    ensures |DoneTo(pd, n)| == n - 2048 && forall v | v in DoneTo(pd, n) :: 2048 <= Number(v) < n && v.ptx < 1024 && v.slot.dir == pd
    decreases n
  {
    if n > 2048 {
      DoneSize(pd, n - 1);
    }
  }

  lemma {:induction false} DoneGrows(pd: nat, n: nat, m: nat)
    requires n <= m
    ensures DoneTo(pd, n) <= DoneTo(pd, m)
    decreases m
  {
    if n < m {
      DoneGrows(pd, n, m - 1);
    }
  }

  lemma IdxOfMore(a: set<Page>, b: set<Page>)
    requires a <= b
    ensures Idx(a) <= Idx(b)
  {
    forall i | i in Idx(a) ensures i in Idx(b) {
      var v :| v in a && v.slot.pdx == i;
      assert v in b;
    }
  }

  /** What everybody sees after dumbfork: as after fork, but for the child, which has copies of the
      pages in done only, and for the parent, whose exception page is as it was. */
  ghost predicate DumbView(e0: Private, e: Private, pd: nat, cd: nat, ws: seq<Write>, done: set<Page>) {
    && (forall v: Page | v.slot.dir != pd && v.slot.dir != cd :: (v in e <==> v in e0) && (v in e ==> e[v] == e0[v]))
    && (forall v: Page | v.slot.dir == pd && v != TempPage(pd) :: (v in e <==> v in e0) && (v in e ==> e[v] == Written(e0[v], ws, pd, v)))
    && (forall v | v in done :: v in e0 && v.slot.dir == pd && InRange(v) && Copied(e0, e, pd, cd, ws, v))
    && (forall v: Page | v.slot.dir == cd && v in e :: Twin(v, pd) in done)
  }

  /** dumbfork starts. */
  lemma DumbBegins(kn: Kernel, k: State, m: Frames, code: seq<seq<Write>>)
    requires KInv(k) && k.cur.Some? && CowInv(k.s) && |m| == |k.s.ref| && EnvState.SysExofork(k).1 >= 0
    requires Ready(kn) && kn.k == EnvState.SysExofork(k).0 && SamePages(m, kn.pm.mem, k.s, kn.k.s, |m|) && PlainCode(k.s, Dir(k), code)
    ensures k.free != [] && k.s.free != []
    ensures var x := Ctx(k.s, View(Machine(k.s, m)) - {TempPage(Dir(k))}, Machine(k.s, m), kn.k, k.free[0]);
            Settled(kn, code, 0, x, {}, ExceptionPage(k.s.free[0])) && Pd(x) == Dir(k) && Cd(x) == k.s.free[0]
  {
    hide Inv, Slots, FreeEnvs, OwnDirs, NewDir, HasU, HasW, HasCow, CowInv, View, Reaches, Copied, Watched, EnvState.SysExofork, Between, SamePages, PlainCode,
      PairShares, Rep, Pmap.TlbAgrees, FreeChain.Chain;
    Exoforked(k);
    MyIdResolves(k);
    var k1, mem := kn.k, kn.pm.mem;
    var x := Ctx(k.s, View(Machine(k.s, m)) - {TempPage(Dir(k))}, Machine(k.s, m), k1, k.free[0]);
    InvOf(k);
    NewDirIs(k.s, Dir(k));
    CowEvents.ExoforkHappens(k, m, mem);
    var a, b := Machine(k.s, m), Machine(k1.s, mem);
    BetweenFacts(a, b, |m|);
    SameView(a, b);
    SameCow(k.s, k1.s);
    AllSeen(a, Dir(k));
    ReachesItself(a);
    ReachesOne(a, a, b, Quiet);
    NothingWatched(x.e0, Dir(k), k.s.free[0], k.s);
    WatchedLess(x.e0, x.e0, Dir(k), k.s.free[0], 2048, 0, [], true);
    PairOfNone(k1.s, ExceptionPage(k.s.free[0]), TempPage(Dir(k)));
    assert Idx({}) == {};
  }

  /** The new directory: nothing is mapped in it, and it took one page. */
  lemma NewDirIs(s: Space, pd: nat)
    requires Inv(s, {}) && s.free != [] && pd in s.dirs
    ensures var t, cd := NewDir(s), s.free[0];
            && Inv(t, {}) && t.maps == s.maps && t.tabs == s.tabs && t.kern == s.kern && t.boot == s.boot && t.dirs == s.dirs + {cd}
            && |t.ref| == |s.ref| && |t.free| == |s.free| - 1 && cd !in s.dirs && cd != s.kern && pd != cd && pd != s.kern
            && (forall i: nat :: Slot(cd, i) !in t.tabs) && (forall v: Page | v in t.maps :: v.slot.dir != cd)
            && (forall v: Page | v.slot.dir == pd :: Released(t, v) == Released(s, v))
  {
    NewDirKeeps(s, {});
    KernOwnsNone(s, pd);
    ForkSteps.FreeIsNotKern(s, s.free[0]);
    forall v: Page | v.slot.dir == pd && v in s.maps ensures Released(NewDir(s), v) == Released(s, v) {
      SameCount(s, NewDir(s), v);
    }
  }

  lemma SameCount(s: Space, t: Space, v: Page)
    requires Inv(s, {}) && Inv(t, {}) && t.maps == s.maps && t.boot == s.boot && t.kern == s.kern && IsUser(s, v)
    ensures Released(t, v) == Released(s, v)
  {
    hide Inv;
    DataCount(s, v);
    DataCount(t, v);
    assert DataRefs(t, s.maps[v].frame) == DataRefs(s, s.maps[v].frame);
  }

  lemma DumbRunnable(x: Ctx, done: set<Page>, ws: seq<Write>, w: Page, k: State, mem: Frames)
    requires Copying(x, done, ws, w, k, mem)
    ensures k.cur.Some?
    ensures var (t, r) := EnvState.SysEnvSetStatus(k, ChildId(x), Some(ENV_RUNNABLE));
            r == 0 && KInv(t) && t == SetStatus(k, x.c, ENV_RUNNABLE) && t.s == k.s && t.cur == k.cur && Dir(t) == Dir(k)
  {
    hide Inv, Slots, FreeEnvs, OwnDirs, HasW, CowInv, View, Watched, Copied, PairShares;
    CopyingMeans(x, done, ws, w, k, mem);
    EnvRuns.ResolvedIsLive(k, ChildId(x), true);
    EnvRuns.StatusKeeps(k, x.c, ENV_RUNNABLE);
  }

  /** What dumbfork has done when it returns: the child has writable copies of the pages in done. */
  ghost predicate HasCopied(k: State, m: Frames, t: State, m': Frames, ws: seq<Write>, done: set<Page>)
    requires Formed(k) && k.cur.Some? && k.s.free != []
  {
    var pd, cd, p := Dir(k), k.s.free[0], TempPage(Dir(k));
    && CowInv(t.s) && p !in t.s.maps
    && (forall v: Page | v.slot.dir == cd && v in t.s.maps :: HasW(t.s.maps[v].flags))
    && DumbView(View(Machine(k.s, m)) - {p}, View(Machine(t.s, m')), pd, cd, ws, done)
  }

  lemma DumbEnds(k: State, m: Frames, x: Ctx, done: set<Page>, ws: seq<Write>, w: Page, t: State, m': Frames)
    requires KInv(k) && k.cur.Some? && EnvState.SysExofork(k).1 >= 0 && k.free != [] && k.s.free != []
    requires x == Ctx(k.s, View(Machine(k.s, m)) - {TempPage(Dir(k))}, Machine(k.s, m), EnvState.SysExofork(k).0, k.free[0])
    requires Pd(x) == Dir(k) && Cd(x) == k.s.free[0] && Copying(x, done, ws, w, t, m') && CowInv(t.s) && TempPage(Dir(k)) !in t.s.maps
    requires forall v: Page | v in t.s.maps && v.slot.dir == Cd(x) :: Twin(v, Pd(x)) in done
    ensures ForkLib.HasChild(k, SetStatus(t, x.c, ENV_RUNNABLE), ChildId(x), ENV_RUNNABLE, 0) && HasCopied(k, m, SetStatus(t, x.c, ENV_RUNNABLE), m', ws, done)
  {
    hide Inv, Slots, FreeEnvs, OwnDirs, NewDir, HasU, HasW, CowInv, View, Reaches, Copied, PairShares, UPW, Entry, InRange, Applied, EnvIds.IdAfter;
    Exoforked(k);
    var e := View(Machine(t.s, m'));
    forall v ensures v in e ==> v in t.s.maps {
      Visible(Machine(t.s, m'), v);
    }
    assert Seen0(x, t.s, m') == e;
    forall v: Page | v.slot.dir == Cd(x) && v in t.s.maps ensures HasW(t.s.maps[v].flags) {
      WritableEntry(t.s.maps[v].frame);
    }
    forall v | v in done ensures v in x.e0 && InRange(v) {
      CopiedFrom(x.e0, e, Pd(x), Cd(x), ws, v);
    }
  }

  lemma CopiedFrom(e0: Private, e: Private, pd: nat, cd: nat, ws: seq<Write>, v: Page)
    requires Copied(e0, e, pd, cd, ws, v)
    ensures v in e0
  {
  }

  /** dumbfork's loop, and the call for the stack. */
  method CopyAll(kn: Kernel, envid: int, end: nat, sp: nat, code: seq<seq<Write>>, ghost x: Ctx)
    returns (ok: bool, t: nat, ghost w: Page)
    requires Settled(kn, code, 0, x, {}, ExceptionPage(Cd(x))) && envid == ChildId(x)
    requires end <= UTOP && sp < UTOP && Copyable(x.s, PageAt(Pd(x), sp))
    requires forall pn: nat | 2048 <= pn && pn * 4096 < end :: Copyable(x.s, PageNo(Pd(x), pn))
    modifies kn, kn.pm
    ensures if ok then Settled(kn, code, t, x, ToCopy(Pd(x), end, sp), w)
            else Ready(kn) && Reaches(x.a, Now(kn)) && kn.k == x.k1.(s := kn.k.s)
    ensures ok ==> TempPage(Pd(x)) !in kn.k.s.maps
    ensures ok <==> |x.s.free| >= DumbNeed(x.s, Pd(x), end, sp)
  {
    hide KInv, Inv, Rep, FreeChain.Chain, Pmap.TlbAgrees, Reaches, HasU, HasW, InRange, Settled, Idx, DoneTo, Pdx, Ptx, Released;
    ghost var d := Pd(x);
    ghost var tables := Idx(ToCopy(d, end, sp));
    var addr := UTEXT;
    ok, t, w := true, 0, ExceptionPage(Cd(x));
    NoneDone(d);
    while addr < end
      invariant ok && addr % 4096 == 0 && UTEXT <= addr && (addr == UTEXT || addr < end + 4096)
      invariant Settled(kn, code, t, x, DoneTo(d, addr / 4096), w)
    {
      AddressPage(d, addr);
      PartDone(d, addr, end, sp);
      ghost var done, v := DoneTo(d, addr / 4096), PageNo(d, addr / 4096);
      OneTable(v, tables);
      ok, t, w := Duppage(kn, envid, addr, code, t, x, done, w, if done == {} then Idx({v}) else tables, if done == {} then 1 else PagesTo(end) + 1);
      if !ok {
        return;
      }
      addr := addr + PGSIZE;
    }
    AllDone(d, addr, end);
    AddressPage(d, sp);
    DoneSize(d, 2048 + PagesTo(end));
    ok, t, w := Duppage(kn, envid, sp / PGSIZE * PGSIZE, code, t, x, DoneTo(d, 2048 + PagesTo(end)), w, tables, PagesTo(end) + 1);
  }

  /** The first copy needs one table. */
  lemma OneTable(v: Page, tables: set<nat>)
    ensures {} + {v} == {v} && |Idx({v})| == 1 && (Idx({v}) <= tables ==> |tables| >= 1)
  {
    assert Idx({v}) == {v.slot.pdx};
    if Idx({v}) <= tables {
      SubsetSize({v.slot.pdx}, tables);
    }
  }

  lemma NoneDone(d: nat)
    ensures DoneTo(d, UTEXT / 4096) == {}
  {
  }

  lemma PartDone(d: nat, addr: nat, end: nat, sp: nat)
    requires addr % 4096 == 0 && UTEXT <= addr < end
    ensures var done, v := DoneTo(d, addr / 4096), PageNo(d, addr / 4096);
            && DoneTo(d, addr / 4096 + 1) == done + {v} && (addr + 4096) / 4096 == addr / 4096 + 1
            && |done| < PagesTo(end) + 1 && Idx(done + {v}) <= Idx(ToCopy(d, end, sp))
            && addr / 4096 >= 2048 && addr / 4096 * 4096 < end && addr / 4096 * 4096 == addr
  {
    hide Idx;
    var n := addr / 4096;
    DoneSize(d, n);
    DoneGrows(d, n + 1, 2048 + PagesTo(end));
    IdxOfMore(DoneTo(d, n + 1), ToCopy(d, end, sp));
  }

  lemma AllDone(d: nat, addr: nat, end: nat)
    requires addr % 4096 == 0 && UTEXT <= addr && (addr == UTEXT || addr < end + 4096) && end <= addr
    ensures addr / 4096 == 2048 + PagesTo(end)
  {
    if end > UTEXT {
      assert addr / 4096 == (end + 4095) / 4096;
    }
  }

  /** The parent's code before the last call, and that call. */
  method StartCopy(kn: Kernel, envid: int, code: seq<seq<Write>>, t: nat, ghost x: Ctx, ghost done: set<Page>, ghost w: Page, ghost k: State, ghost m: Frames)
    returns (r: int)
    requires KInv(k) && k.cur.Some? && EnvState.SysExofork(k).1 >= 0 && k.free != [] && k.s.free != []
    requires x == Ctx(k.s, View(Machine(k.s, m)) - {TempPage(Dir(k))}, Machine(k.s, m), EnvState.SysExofork(k).0, k.free[0])
    requires Pd(x) == Dir(k) && Cd(x) == k.s.free[0] && envid == ChildId(x)
    requires Settled(kn, code, t, x, done, w) && TempPage(Dir(k)) !in kn.k.s.maps
    modifies kn, kn.pm
    ensures r == envid && Ready(kn) && Reaches(x.a, Now(kn))
    ensures ForkLib.HasChild(k, kn.k, r, ENV_RUNNABLE, 0) && HasCopied(k, m, kn.k, kn.pm.mem, Joined(code, t + 1), done)
  {
    hide Inv, Slots, FreeEnvs, OwnDirs, Rep, FreeChain.Chain, Pmap.TlbAgrees, Reaches, CowInv, PlainCode, EnvState.SysExofork, EnvState.SysEnvSetStatus,
      Joined, Paid, Copying, ForkLib.HasChild, HasCopied;
    RunPlain(kn, code, t, x, done, w);
    ghost var ws := Joined(code, t + 1);
    CopyingMeans(x, done, ws, w, kn.k, kn.pm.mem);
    DumbRunnable(x, done, ws, w, kn.k, kn.pm.mem);
    DumbEnds(k, m, x, done, ws, w, kn.k, kn.pm.mem);
    r := kn.SysEnvSetStatus(envid, Some(ENV_RUNNABLE));
    if r < 0 {
      return -1;
    }
    return envid;
  }

  /** dumbfork in the parent; -1 when it panics. `end` is the linker's symbol, sp the stack pointer,
      code what the parent's own code stores between dumbfork's calls, t the number of gaps. It
      succeeds if and only if there is a free slot and memory for the copies, where a page that is at
      UTEMP and is given back counts; the child then has private copies of the program and
      of the stack's page, each as the parent's was at some moment, and nobody else's memory has
      changed. */
  method Dumbfork(kn: Kernel, end: nat, sp: nat, code: seq<seq<Write>>) returns (r: int, t: nat)
    requires Ready(kn) && CowInv(kn.k.s) && PlainCode(kn.k.s, Dir(kn.k), code)
    requires end <= UTOP && sp < UTOP && Copyable(kn.k.s, PageAt(Dir(kn.k), sp))
    requires forall pn: nat | 2048 <= pn && pn * 4096 < end :: Copyable(kn.k.s, PageNo(Dir(kn.k), pn))
    modifies kn, kn.pm
    ensures Ready(kn) && Reaches(old(Now(kn)), Now(kn)) && (r == -1 || r > 0)
    ensures r == -1 ==> kn.k == old(kn.k) || ForkLib.Unfinished(old(kn.k), kn.k, 0)
    ensures r > 0 <==> old(kn.k.free) != [] && |old(kn.k.s.free)| >= DumbNeed(old(kn.k.s), Dir(old(kn.k)), end, sp)
    ensures r > 0 ==>
              && ForkLib.HasChild(old(kn.k), kn.k, r, ENV_RUNNABLE, 0)
              && HasCopied(old(kn.k), old(kn.pm.mem), kn.k, kn.pm.mem, Joined(code, t), ToCopy(Dir(old(kn.k)), end, sp))
  {
    hide KInv, Inv, Rep, FreeChain.Chain, Pmap.TlbAgrees, Reaches, CowInv, PlainCode, EnvState.SysExofork, EnvState.SysEnvSetStatus, Joined, HasU, HasW, InRange, Settled,
      Idx, DoneTo, Cost, DumbNeed, Copying, ForkLib.HasChild, HasCopied, SamePages, ForkLib.Unfinished;
    ghost var k, d, m := kn.k, Dir(kn.k), kn.pm.mem;
    t := 0;
    r := NewChild(kn);
    if r < 0 {
      DumbNeedPositive(k.s, d, end, sp);
      ForkLib.ExoforkFailed(k);
      return -1, t;
    }
    Exoforked(k);
    DumbBegins(kn, k, m, code);
    ghost var x := Ctx(k.s, View(Machine(k.s, m)) - {TempPage(d)}, Machine(k.s, m), kn.k, k.free[0]);
    var ok;
    ghost var w;
    ok, t, w := CopyAll(kn, r, end, sp, code, x);
    if !ok {
      ForkLib.LeftBehind(k, x, kn.k, 0);
      return -1, t;
    }
    r := StartCopy(kn, r, code, t, x, ToCopy(d, end, sp), w, k, m);
    t := t + 1;
  }

  lemma DumbNeedPositive(s: Space, pd: nat, end: nat, sp: nat)
    ensures DumbNeed(s, pd, end, sp) > 0
  {
    hide Idx;
  }

  /** fork against dumbfork from the same state: each page that dumbfork's child has, fork's child
      has too, and if the parent does not store to it meanwhile, with the same words; what others
      see is the same after either. */
  lemma ForkRefinesDumbfork(e0: Private, f: Private, g: Private, pd: nat, cd: nat, fs: seq<Write>, gs: seq<Write>, done: set<Page>, u: Page)
    requires ForkedView(e0, f, pd, cd, fs) && DumbView(e0 - {TempPage(pd)}, g, pd, cd, gs, done) && pd != cd
    ensures u.slot.dir == cd && u in g ==> u in f
    ensures u.slot.dir == cd && u in g && Untouched(fs, pd, Twin(u, pd)) && Untouched(gs, pd, Twin(u, pd)) ==> g[u] == f[u] == e0[Twin(u, pd)]
    ensures u.slot.dir != cd && u.slot.dir != pd ==> (u in f <==> u in g) && (u in f ==> f[u] == g[u])
  {
    hide InRange, Applied, Pdx, Ptx;
    if u.slot.dir == cd && u in g {
      var v := Twin(u, pd);
      assert Copied(e0 - {TempPage(pd)}, g, pd, cd, gs, v) && Copied(e0, f, pd, cd, fs, v);
      if Untouched(fs, pd, v) && Untouched(gs, pd, v) {
        CopiedUntouched(e0, f, pd, cd, fs, v);
        CopiedUntouched(e0 - {TempPage(pd)}, g, pd, cd, gs, v);
      }
    }
  }

  lemma CopiedUntouched(e0: Private, e: Private, pd: nat, cd: nat, ws: seq<Write>, v: Page)
    requires Copied(e0, e, pd, cd, ws, v) && Untouched(ws, pd, v)
    ensures e[Twin(v, cd)] == e0[v]
  {
    hide Applied, Pdx, Ptx;
    var j: nat :| j <= |ws| && e[Twin(v, cd)] == Applied(e0[v], ws[..j], pd, v);
    AppliedNowhere(e0[v], ws[..j], pd, v);
  }
}
