/** What the plan of fork comes to: which stores meet PFTEMP in use, and how many pages the faults
    can take. */
module ForkBounds {
  import opened Mmu
  import opened PageSpace
  import opened PageWords
  import opened Cow
  import PgfaultLib
  import opened ForkSteps
  import opened ForkPlan

  // ---- Writable means stored to since ----

  lemma {:induction false} StoresWritable(s: Space, pd: nat, o: Tally, ws: seq<Write>, late: bool, v: Page)
    ensures v in AfterStores(s, pd, o, ws, late).writable <==> v in o.writable || !Untouched(ws, pd, v)
    decreases |ws|
  {
    hide Gives, Pdx, Ptx;
    if ws != [] {
      var rest := ws[..|ws| - 1];
      StoresWritable(s, pd, o, rest, late, v);
      assert Untouched(ws, pd, v) <==> Untouched(rest, pd, v) && PageAt(pd, ws[|ws| - 1].va) != v;
    }
  }

  /** duppage of another page adds the pages stored to in its gaps. */
  lemma DuppedWritable(s: Space, pd: nat, code: seq<seq<Write>>, o: Tally, u: Page, t: nat, v: Page)
    requires u in s.maps && u != v
    ensures v in Dupped(s, pd, code, o, u, t).writable <==>
            v in o.writable || StoredIn(pd, code, t, t + if Shareable(s.maps[u].flags) then 3 else 2, v)
  {
    hide Untouched, AfterStores, Shareable;
    var a := AfterStores(s, pd, o, GapCode(code, t), false);
    var b := AfterStores(s, pd, a, GapCode(code, t + 1), false);
    StoresWritable(s, pd, o, GapCode(code, t), false, v);
    StoresWritable(s, pd, a, GapCode(code, t + 1), false, v);
    StoresWritable(s, pd, InChild(b, u), GapCode(code, t + 2), false, v);
  }

  lemma NumbersApart(pd: nat, v: Page, n: nat)
    requires v.slot.dir == pd && InRange(v) && InRange(PageNo(pd, n))
    ensures v == PageNo(pd, n) <==> Number(v) == n
  {
  }

  lemma {:induction false} PlanWritable(s: Space, pd: nat, code: seq<seq<Write>>, n: nat, v: Page)
    requires RangePage(s, pd, v) && Shareable(s.maps[v].flags) && Number(v) < n
    ensures GapsTo(s, pd, n) >= GapsTo(s, pd, Number(v)) + 3
    ensures v in PlanTo(s, pd, code, n).writable <==> StoredIn(pd, code, GapsTo(s, pd, Number(v)) + 3, GapsTo(s, pd, n), v)
    decreases n
  {
    hide StoredIn, Shareable, InRange, AfterStores;
    var u := PageNo(pd, n - 1);
    InLoop(v);
    if Number(v) == n - 1 {
      NumberBack(pd, v);
      assert v !in PlanTo(s, pd, code, n).writable;
      assert !StoredIn(pd, code, GapsTo(s, pd, n), GapsTo(s, pd, n), v) by { NoGaps(pd, code, GapsTo(s, pd, n), v); }
    } else {
      PlanWritable(s, pd, code, n - 1, v);
      if RangePage(s, pd, u) {
        var t := GapsTo(s, pd, n - 1);
        assert u != v;
        assert PlanTo(s, pd, code, n) == Dupped(s, pd, code, PlanTo(s, pd, code, n - 1), u, t);
        DuppedWritable(s, pd, code, PlanTo(s, pd, code, n - 1), u, t, v);
        StoredSplit(pd, code, GapsTo(s, pd, Number(v)) + 3, t, GapsTo(s, pd, n), v);
      }
    }
  }

  lemma InLoop(v: Page)
    requires InRange(v)
    ensures 2048 <= Number(v) < LAST
  {
    BeforeException(v);
  }

  lemma NumberBack(pd: nat, v: Page)
    requires v.slot.dir == pd && InRange(v)
    ensures PageNo(pd, Number(v)) == v
  {
    RangeFields(v);
  }

  lemma NoGaps(pd: nat, code: seq<seq<Write>>, t: nat, v: Page)
    ensures !StoredIn(pd, code, t, t, v)
  {
  }

  lemma StoredSplit(pd: nat, code: seq<seq<Write>>, a: nat, b: nat, c: nat, v: Page)
    requires a <= b <= c
    ensures StoredIn(pd, code, a, c, v) <==> StoredIn(pd, code, a, b, v) || StoredIn(pd, code, b, c, v)
  {
    hide Untouched;
  }

  /** When fork reaches PFTEMP, the parent can write those of its pages that fork has made
      copy-on-write that it has stored to since. */
  lemma RenewedIsWritable(s: Space, pd: nat, code: seq<seq<Write>>, v: Page)
    requires RangePage(s, pd, v) && Shareable(s.maps[v].flags)
    ensures v in Renewed(s, pd, code) <==> v in AtTemp(s, pd, code).writable
  {
    hide StoredIn, Shareable, AfterStores, PlanTo, GapsTo, Untouched;
    var t, o := LoopGaps(s, pd), PlanTo(s, pd, code, LAST);
    InLoop(v) by { OfRange(s, pd, v); }
    PlanWritable(s, pd, code, LAST, v);
    StoresWritable(s, pd, o, GapCode(code, t), false, v);
    StoresWritable(s, pd, AfterStores(s, pd, o, GapCode(code, t), false), GapCode(code, t + 1), true, v);
    StoredSplit(pd, code, GapsTo(s, pd, Number(v)) + 3, t, t + 2, v);
    assert StoredIn(pd, code, t, t + 2, v) <==> !Untouched(GapCode(code, t), pd, v) || !Untouched(GapCode(code, t + 1), pd, v) by { TwoGaps(pd, code, t, v); }
  }

  lemma TwoGaps(pd: nat, code: seq<seq<Write>>, t: nat, v: Page)
    ensures StoredIn(pd, code, t, t + 2, v) <==> !Untouched(GapCode(code, t), pd, v) || !Untouched(GapCode(code, t + 1), pd, v)
  {
    hide Untouched;
  }

  /** So for the parent's own code, all of a gap's stores go to renewed pages if and only if none faults. */
  lemma AllRenewed(s: Space, pd: nat, code: seq<seq<Write>>, t: nat)
    requires OwnCode(s, pd, code)
    ensures AllIn(pd, Renewed(s, pd, code), GapCode(code, t)) <==> AllIn(pd, AtTemp(s, pd, code).writable, GapCode(code, t))
  {
    hide Renewed, AtTemp, OwnCode, Shareable, Pdx, Ptx;
    var ws := GapCode(code, t);
    OwnAt(s, pd, code, t);
    forall i | 0 <= i < |ws| ensures PageAt(pd, ws[i].va) in Renewed(s, pd, code) <==> PageAt(pd, ws[i].va) in AtTemp(s, pd, code).writable {
      RenewedIsWritable(s, pd, code, PageAt(pd, ws[i].va));
    }
  }

  // ---- How many faults there can be ----

  /** Stores to the pages of a set fault at most once for each, and once more for each that is
      write-protected again. w: how many of them were writable at the start; seals: how many have been
      write-protected. */
  predicate Bounded(pages: set<Page>, w: nat, o: Tally, seals: nat) {
    Need(o) <= o.faults && o.faults + w <= |o.writable * pages| + seals
  }

  lemma BoundedStore(s: Space, pd: nat, pages: set<Page>, w: nat, o: Tally, seals: nat, x: Write, late: bool)
    requires Bounded(pages, w, o, seals) && PageAt(pd, x.va) in pages
    ensures Bounded(pages, w, AfterStore(s, pd, o, x, late), seals)
  {
    hide Gives, Pdx, Ptx;
    var v := PageAt(pd, x.va);
    if v !in o.writable {
      assert (o.writable + {v}) * pages == o.writable * pages + {v};
    }
  }

  lemma {:induction false} BoundedStores(s: Space, pd: nat, pages: set<Page>, w: nat, o: Tally, seals: nat, ws: seq<Write>, late: bool)
    requires Bounded(pages, w, o, seals) && AllIn(pd, pages, ws)
    ensures Bounded(pages, w, AfterStores(s, pd, o, ws, late), seals)
    decreases |ws|
  {
    hide Bounded, Gives, Pdx, Ptx, AfterStore;
    if ws != [] {
      var rest := ws[..|ws| - 1];
      BoundedStores(s, pd, pages, w, o, seals, rest, late);
      BoundedStore(s, pd, pages, w, AfterStores(s, pd, o, rest, late), seals, ws[|ws| - 1], late);
    }
  }

  lemma BoundedSealed(pages: set<Page>, w: nat, o: Tally, seals: nat, v: Page)
    requires Bounded(pages, w, o, seals)
    ensures Bounded(pages, w, Sealed(o, v), seals + if v in pages then 1 else 0)
  {
    if v in pages {
      assert o.writable * pages <= (o.writable - {v}) * pages + {v};
      PgfaultLib.SubsetSize(o.writable * pages, (o.writable - {v}) * pages + {v});
    } else {
      assert (o.writable - {v}) * pages == o.writable * pages;
    }
  }

  function Below(pages: set<Page>, n: nat): set<Page> { set v | v in pages && Number(v) < n }

  lemma BelowGrows(pages: set<Page>, pd: nat, n: nat)
    requires InRange(PageNo(pd, n))
    ensures |Below(pages, n)| + (if PageNo(pd, n) in pages then 1 else 0) <= |Below(pages, n + 1)|
  {
    hide InRange;
    var v := PageNo(pd, n);
    NumbersApart(pd, v, n);
    if v in pages {
      PgfaultLib.SubsetSize(Below(pages, n) + {v}, Below(pages, n + 1));
    } else {
      PgfaultLib.SubsetSize(Below(pages, n), Below(pages, n + 1));
    }
  }

  lemma BoundedMore(pages: set<Page>, w: nat, o: Tally, a: nat, b: nat)
    requires Bounded(pages, w, o, a) && a <= b
    ensures Bounded(pages, w, o, b)
  {
  }

  lemma BoundedDup(s: Space, pd: nat, code: seq<seq<Write>>, pages: set<Page>, w: nat, o: Tally, n: nat, t: nat)
    requires PageNo(pd, n) in s.maps && InRange(PageNo(pd, n)) && Bounded(pages, w, o, |Below(pages, n)|)
    requires forall i | t <= i < t + if Shareable(s.maps[PageNo(pd, n)].flags) then 3 else 2 :: AllIn(pd, pages, GapCode(code, i))
    ensures Bounded(pages, w, Dupped(s, pd, code, o, PageNo(pd, n), t), |Below(pages, n + 1)|)
  {
    hide AllIn, AfterStores, InRange, Shareable, Below, Bounded;
    var v, k := PageNo(pd, n), |Below(pages, n)|;
    var a := AfterStores(s, pd, o, GapCode(code, t), false);
    var b := AfterStores(s, pd, a, GapCode(code, t + 1), false);
    BelowGrows(pages, pd, n);
    BoundedStores(s, pd, pages, w, o, k, GapCode(code, t), false);
    BoundedStores(s, pd, pages, w, a, k, GapCode(code, t + 1), false);
    BoundedInChild(pages, w, b, k, v);
    if Shareable(s.maps[v].flags) {
      var c := AfterStores(s, pd, InChild(b, v), GapCode(code, t + 2), false);
      BoundedStores(s, pd, pages, w, InChild(b, v), k, GapCode(code, t + 2), false);
      BoundedSealed(pages, w, c, k, v);
      BoundedMore(pages, w, Sealed(c, v), k + if v in pages then 1 else 0, |Below(pages, n + 1)|);
    } else {
      BoundedMore(pages, w, InChild(b, v), k, |Below(pages, n + 1)|);
    }
  }

  lemma BoundedInChild(pages: set<Page>, w: nat, o: Tally, seals: nat, v: Page)
    requires Bounded(pages, w, o, seals)
    ensures Bounded(pages, w, InChild(o, v), seals)
  {
  }

  ghost predicate StoresTo(pd: nat, code: seq<seq<Write>>, pages: set<Page>, to: nat) {
    forall t | 0 <= t < to :: AllIn(pd, pages, GapCode(code, t))
  }

  lemma {:induction false} PlanBounded(s: Space, pd: nat, code: seq<seq<Write>>, pages: set<Page>, n: nat)
    requires StoresTo(pd, code, pages, GapsTo(s, pd, n)) && n >= 2048
    ensures Bounded(pages, |AtStart(s, pd).writable * pages|, PlanTo(s, pd, code, n), |Below(pages, n)|)
    decreases n
  {
    hide AllIn, Dupped, Below, InRange, AtStart;
    if n == 2048 {
      assert AtStart(s, pd).faults == Need(AtStart(s, pd)) == 0 by { NoneAtStart(s, pd); }
    } else {
      var v, w, o := PageNo(pd, n - 1), |AtStart(s, pd).writable * pages|, PlanTo(s, pd, code, n - 1);
      PlanBounded(s, pd, code, pages, n - 1);
      if RangePage(s, pd, v) {
        BoundedDup(s, pd, code, pages, w, o, n - 1, GapsTo(s, pd, n - 1));
      } else {
        BelowMore(pages, n - 1);
        BoundedMore(pages, w, o, |Below(pages, n - 1)|, |Below(pages, n)|);
      }
    }
  }

  lemma BelowMore(pages: set<Page>, n: nat)
    ensures |Below(pages, n)| <= |Below(pages, n + 1)|
  {
    PgfaultLib.SubsetSize(Below(pages, n), Below(pages, n + 1));
  }

  lemma NoneAtStart(s: Space, pd: nat)
    ensures AtStart(s, pd).faults == AtStart(s, pd).kept == AtStart(s, pd).late == 0
  {
  }

  lemma TempBounded(s: Space, pd: nat, code: seq<seq<Write>>, pages: set<Page>)
    requires StoresTo(pd, code, pages, LoopGaps(s, pd) + 2)
    ensures Bounded(pages, |AtStart(s, pd).writable * pages|, AtTemp(s, pd, code), |pages|)
  {
    hide AllIn, Below, AtStart, AfterStores, PlanTo, GapsTo, Bounded;
    var w, t, o := |AtStart(s, pd).writable * pages|, LoopGaps(s, pd), PlanTo(s, pd, code, LAST);
    PlanBounded(s, pd, code, pages, LAST);
    BelowAll(pages, LAST);
    BoundedMore(pages, w, o, |Below(pages, LAST)|, |pages|);
    BoundedStores(s, pd, pages, w, o, |pages|, GapCode(code, t), false);
    BoundedStores(s, pd, pages, w, AfterStores(s, pd, o, GapCode(code, t), false), |pages|, GapCode(code, t + 1), true);
  }

  lemma BelowAll(pages: set<Page>, n: nat)
    ensures |Below(pages, n)| <= |pages|
  {
    PgfaultLib.SubsetSize(Below(pages, n), pages);
  }

  /** If all the stores go to the pages of a set, their faults need no more pages than there are
      faults, and there are at most two for each page, and at most one for a page that was writable
      before fork. */
  lemma FaultsBounded(s: Space, pd: nat, code: seq<seq<Write>>, pages: set<Page>)
    requires StoresTo(pd, code, pages, AllGaps(s, pd))
    ensures Need(AtEnd(s, pd, code)) <= AtEnd(s, pd, code).faults <= 2 * |pages| - |AtStart(s, pd).writable * pages|
  {
    hide AllIn, Below, AtStart, AfterStores, PlanTo, GapsTo, AtTemp;
    var w, t, o := |AtStart(s, pd).writable * pages|, LoopGaps(s, pd), AtTemp(s, pd, code);
    TempBounded(s, pd, code, pages);
    BoundedStores(s, pd, pages, w, o, |pages|, GapCode(code, t + 4), true);
    BoundedStores(s, pd, pages, w, AfterStores(s, pd, o, GapCode(code, t + 4), true), |pages|, GapCode(code, t + 5), true);
    PgfaultLib.SubsetSize(AtEnd(s, pd, code).writable * pages, pages);
  }

  // ---- Code that clashes, and code that does not ----

  /** Code whose stores around the memmove go to pages stored to in the gap before never clashes. */
  lemma StoredBefore(s: Space, pd: nat, code: seq<seq<Write>>)
    requires OwnCode(s, pd, code)
    requires forall t, v: Page | LoopGaps(s, pd) + 2 <= t <= LoopGaps(s, pd) + 3 ::
               !Untouched(GapCode(code, t), pd, v) ==> !Untouched(GapCode(code, LoopGaps(s, pd) + 1), pd, v)
    ensures !Clashing(s, pd, code)
  {
    hide Pdx, Ptx, GapsTo, LoopGaps, Shareable, InRange;
    var l := LoopGaps(s, pd);
    forall t, i | l + 2 <= t <= l + 3 && 0 <= i < |GapCode(code, t)| ensures PageAt(pd, GapCode(code, t)[i].va) in Renewed(s, pd, code) {
      var v := PageAt(pd, GapCode(code, t)[i].va);
      OwnAt(s, pd, code, t);
      assert !Untouched(GapCode(code, t), pd, v);
      InLoop(v);
      PlanWritable(s, pd, code, LAST, v);
      TheLoop(s, pd);
    }
  }

  lemma TheLoop(s: Space, pd: nat)
    ensures LoopGaps(s, pd) == GapsTo(s, pd, LAST)
  {
  }

  /** Code that is silent until PFTEMP is in use and then stores to a page of its own. */
  function Silent(t: nat, w: Write): seq<seq<Write>> { seq(t, _ => []) + [[w]] }

  /** Such code clashes, whichever page it stores to, and takes no fault before. */
  lemma SilentClashes(s: Space, pd: nat, w: Write)
    requires OwnPage(s, pd, w.va)
    ensures var code := Silent(LoopGaps(s, pd) + 2, w);
            OwnCode(s, pd, code) && Clashing(s, pd, code) && AtTemp(s, pd, code).faults == Need(AtTemp(s, pd, code)) == 0
  {
    hide OwnPage, GapsTo, LoopGaps, Need, Pdx, Ptx, AtTemp, AtStart, RangePage;
    var l := LoopGaps(s, pd);
    var code := Silent(l + 2, w);
    assert forall t: nat | t < l + 2 :: GapCode(code, t) == [];
    assert GapCode(code, l + 2) == [w];
    assert PageAt(pd, w.va) !in Renewed(s, pd, code);
    assert GapCode(code, l + 2)[0] == w;
    TempBounded(s, pd, code, {});
  }

  // ---- Code that only pushes on its stack ----

  /** Page p has been duplicated and not been stored to since. */
  predicate NotPushed(s: Space, o: Tally, p: Page) {
    p in s.maps && p in o.left && o.moved == {} && o.kept == 0 && p !in o.writable
  }

  predicate Pushed(o: Tally, p: Page) { p in o.writable && o.kept == 1 }

  lemma FirstFault(s: Space, o: Tally, p: Page)
    requires Inv(s, {}) && IsUser(s, p) && NotPushed(s, o, p)
    ensures Gives(s, o, p) == 0
  {
    hide Inv;
    PgfaultLib.DataCount(s, p);
    var f := s.maps[p].frame;
    assert p in DataRefs(s, f) && p in Having(s, o.left, f);
    assert Having(s, o.moved, f) == {};
  }

  lemma {:induction false} StackStores(s: Space, pd: nat, o: Tally, ws: seq<Write>, late: bool, p: Page)
    requires Inv(s, {}) && IsUser(s, p) && AllIn(pd, {p}, ws)
    ensures var q := AfterStores(s, pd, o, ws, late);
            && (p in o.writable ==> q == o)
            && (NotPushed(s, o, p) ==> if ws == [] then q == o else Pushed(q, p))
    decreases |ws|
  {
    hide Inv, Gives, Pdx, Ptx;
    if ws != [] {
      StackStores(s, pd, o, ws[..|ws| - 1], late, p);
      if NotPushed(s, o, p) {
        FirstFault(s, o, p);
      }
      assert PageAt(pd, ws[|ws| - 1].va) == p;
    }
  }

  /** The tally when fork has reached page n. */
  predicate OnePage(s: Space, o: Tally, p: Page, n: nat) {
    if Number(p) < n then NotPushed(s, o, p) || Pushed(o, p) else p in o.writable && o.moved == {} && o.kept == 0
  }

  lemma StackDup(s: Space, pd: nat, code: seq<seq<Write>>, p: Page, o: Tally, n: nat, t: nat)
    requires Inv(s, {}) && IsUser(s, p) && RangePage(s, pd, p) && Shareable(s.maps[p].flags) && RangePage(s, pd, PageNo(pd, n))
    requires OnePage(s, o, p, n)
    requires forall i | t <= i < t + if Shareable(s.maps[PageNo(pd, n)].flags) then 3 else 2 :: AllIn(pd, {p}, GapCode(code, i))
    ensures OnePage(s, Dupped(s, pd, code, o, PageNo(pd, n), t), p, n + 1)
  {
    hide Inv, InRange, Shareable, AfterStores, AllIn, NotPushed;
    var v := PageNo(pd, n);
    var a := AfterStores(s, pd, o, GapCode(code, t), false);
    var b := AfterStores(s, pd, a, GapCode(code, t + 1), false);
    NumbersApart(pd, p, n);
    StackStores(s, pd, o, GapCode(code, t), false, p);
    StackStores(s, pd, a, GapCode(code, t + 1), false, p);
    StackInChild(s, b, v, p);
    if Shareable(s.maps[v].flags) {
      StackStores(s, pd, InChild(b, v), GapCode(code, t + 2), false, p);
      StackSealed(s, AfterStores(s, pd, InChild(b, v), GapCode(code, t + 2), false), v, p);
    }
  }

  lemma StackInChild(s: Space, o: Tally, v: Page, p: Page)
    ensures var q := InChild(o, v);
            && (NotPushed(s, o, p) ==> NotPushed(s, q, p)) && (Pushed(o, p) ==> Pushed(q, p))
            && q.writable == o.writable && q.moved == o.moved && q.kept == o.kept && (v !in o.moved ==> v in q.left)
  {
  }

  lemma StackSealed(s: Space, o: Tally, v: Page, p: Page)
    ensures var q := Sealed(o, v);
            && (v != p && NotPushed(s, o, p) ==> NotPushed(s, q, p)) && (v != p && Pushed(o, p) ==> Pushed(q, p))
            && (v == p && p in s.maps && p in o.left && o.moved == {} && o.kept == 0 ==> NotPushed(s, q, p))
            && (v != p && p in o.writable ==> p in q.writable) && q.moved == o.moved && q.kept == o.kept
  {
  }

  lemma {:induction false} StackPlan(s: Space, pd: nat, code: seq<seq<Write>>, p: Page, n: nat)
    requires Inv(s, {}) && IsUser(s, p) && RangePage(s, pd, p) && HasW(s.maps[p].flags) && n >= 2048
    requires StoresTo(pd, code, {p}, GapsTo(s, pd, n))
    ensures OnePage(s, PlanTo(s, pd, code, n), p, n)
    decreases n
  {
    hide Inv, HasW, HasCow, AllIn, Dupped, InRange, OnePage;
    var v := PageNo(pd, n - 1);
    InLoop(p);
    if n == 2048 {
      assert OnePage(s, AtStart(s, pd), p, n) by { StackStart(s, pd, p); }
    } else {
      StackPlan(s, pd, code, p, n - 1);
      if RangePage(s, pd, v) {
        WritableShareable(s.maps[p].flags);
        StackDup(s, pd, code, p, PlanTo(s, pd, code, n - 1), n - 1, GapsTo(s, pd, n - 1));
      } else {
        assert Number(p) != n - 1 by { if Number(p) == n - 1 { NumberBack(pd, p); } }
        StackPasses(s, PlanTo(s, pd, code, n), p, n - 1);
      }
    }
  }

  lemma StackStart(s: Space, pd: nat, p: Page)
    requires RangePage(s, pd, p) && HasW(s.maps[p].flags) && Number(p) >= 2048
    ensures OnePage(s, AtStart(s, pd), p, 2048)
  {
    hide HasW, InRange;
  }

  lemma WritableAtStart(s: Space, pd: nat, p: Page)
    requires RangePage(s, pd, p) && HasW(s.maps[p].flags)
    ensures p in AtStart(s, pd).writable
  {
    hide HasW, InRange;
  }

  lemma StackPasses(s: Space, o: Tally, p: Page, n: nat)
    requires OnePage(s, o, p, n) && Number(p) != n
    ensures OnePage(s, o, p, n + 1)
  {
  }

  lemma WritableShareable(flags: bv12)
    requires HasW(flags)
    ensures Shareable(flags)
  {
  }

  /** Code that only stores to one page, writable before fork - its stack, that is - and does so just
      before PFTEMP is in use: it never clashes, and all its faults need one page. */
  lemma StackOnly(s: Space, pd: nat, code: seq<seq<Write>>, p: Page)
    requires Inv(s, {}) && pd != s.kern && OwnCode(s, pd, code) && RangePage(s, pd, p) && HasW(s.maps[p].flags)
    requires StoresTo(pd, code, {p}, AllGaps(s, pd)) && GapCode(code, LoopGaps(s, pd) + 1) != []
    ensures !Clashing(s, pd, code) && Need(AtTemp(s, pd, code)) == Need(AtEnd(s, pd, code)) == 1
  {
    hide Inv, HasW, HasCow, InRange, AtStart, AfterStores, PlanTo, GapsTo, Pdx, Ptx, Dupped, Renewed, Clashing, OnePage, OwnCode, NotPushed, AllIn;
    var t, o := LoopGaps(s, pd), PlanTo(s, pd, code, LAST);
    var a, z := AfterStores(s, pd, o, GapCode(code, t), false), AtTemp(s, pd, code);
    StackPlan(s, pd, code, p, LAST);
    assert NotPushed(s, o, p) || Pushed(o, p) by { InLoop(p); StackPassed(s, o, p); }
    StackStores(s, pd, o, GapCode(code, t), false, p);
    StackStores(s, pd, a, GapCode(code, t + 1), true, p);
    StackStores(s, pd, z, GapCode(code, t + 4), true, p);
    StackStores(s, pd, AfterStores(s, pd, z, GapCode(code, t + 4), true), GapCode(code, t + 5), true, p);
    FaultsBounded(s, pd, code, {p});
    EndGrows(s, pd, code);
    assert AtStart(s, pd).writable * {p} == {p} by { WritableAtStart(s, pd, p); }
    assert !Clashing(s, pd, code) by {
      OneStored(pd, code, p, t + 1);
      OneStored(pd, code, p, t + 2);
      OneStored(pd, code, p, t + 3);
      StoredBefore(s, pd, code);
    }
  }

  lemma StackPassed(s: Space, o: Tally, p: Page)
    requires OnePage(s, o, p, LAST) && Number(p) < LAST
    ensures NotPushed(s, o, p) || Pushed(o, p)
  {
  }

  lemma OneStored(pd: nat, code: seq<seq<Write>>, p: Page, t: nat)
    requires AllIn(pd, {p}, GapCode(code, t))
    ensures forall v: Page :: !Untouched(GapCode(code, t), pd, v) <==> v == p && GapCode(code, t) != []
  {
    hide Pdx, Ptx;
    if GapCode(code, t) != [] {
      assert PageAt(pd, GapCode(code, t)[0].va) == p;
    }
  }
}
