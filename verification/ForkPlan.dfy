/** What fork will meet, from the state before it and the parent's own stores between its calls:
    which of these stores fault, and what the faults take. */
module ForkPlan {
  import opened Mmu
  import opened PageSpace
  import opened PageWords
  import opened Cow
  import ForkSteps

  // ---- The parent's own stores ----

  datatype Write = Write(va: nat, word: Word)

  /** A page of the range that the parent may write: it is writable, or becomes so by a fault. */
  predicate OwnPage(s: Space, pd: nat, va: nat) {
    va < UTOP && var v := PageAt(pd, va); v in s.maps && InRange(v) && HasU(s.maps[v].flags) && Shareable(s.maps[v].flags)
  }

  /** code[i]: the stores that the parent makes in the i-th gap between fork's calls. */
  predicate OwnCode(s: Space, pd: nat, code: seq<seq<Write>>) {
    forall i, j | 0 <= i < |code| && 0 <= j < |code[i]| :: OwnPage(s, pd, code[i][j].va)
  }

  function GapCode(code: seq<seq<Write>>, t: nat): seq<Write> { if t < |code| then code[t] else [] }

  /** All stores up to the t-th gap. */
  function Joined(code: seq<seq<Write>>, t: nat): seq<Write> {
    if t == 0 then [] else Joined(code, t - 1) + GapCode(code, t - 1)
  }

  lemma OwnAt(s: Space, pd: nat, code: seq<seq<Write>>, t: nat)
    requires OwnCode(s, pd, code)
    ensures forall i | 0 <= i < |GapCode(code, t)| :: OwnPage(s, pd, GapCode(code, t)[i].va)
  {
    hide OwnPage;
  }

  /** No store goes to the page. */
  predicate Untouched(ws: seq<Write>, d: nat, v: Page) {
    forall i | 0 <= i < |ws| :: PageAt(d, ws[i].va) != v
  }

  predicate RangePage(s: Space, pd: nat, v: Page) { v in s.maps && v.slot.dir == pd && InRange(v) }

  // ---- The tally of faults ----

  /** The parent's pages: writable ones; moved ones, which a fault has given another frame than they
      had before fork; ones left to the child with the frame they had before fork; and ones whose
      frame the child's page has too. faults so far; kept: pages that these took and did not give
      back; late: the most that a fault after the allocation of the child's exception page needed, beside fork's own. */
  datatype Tally = Tally(writable: set<Page>, moved: set<Page>, left: set<Page>, shared: set<Page>, faults: nat, kept: nat, late: nat)

  function Having(s: Space, pages: set<Page>, f: nat): set<Page> {
    set v | v in pages && v in s.maps && s.maps[v].frame == f
  }

  /** A fault gives its page's old frame back if nobody else maps that. */
  function Gives(s: Space, o: Tally, v: Page): (n: nat)
    ensures n <= 1
  {
    if v in o.moved then (if v in o.shared then 0 else 1)
    else if v in s.maps && s.maps[v].frame < |s.ref|
            && s.ref[s.maps[v].frame] + |Having(s, o.left, s.maps[v].frame)| - |Having(s, o.moved, s.maps[v].frame)| == 1 then 1
    else 0
  }

  function AfterFault(s: Space, o: Tally, v: Page, late: bool): Tally {
    Tally(o.writable + {v}, o.moved + {v}, o.left, o.shared - {v}, o.faults + 1, o.kept + 1 - Gives(s, o, v),
          if late && o.kept + 1 > o.late then o.kept + 1 else o.late)
  }

  function AfterStore(s: Space, pd: nat, o: Tally, w: Write, late: bool): Tally {
    var v := PageAt(pd, w.va);
    if v in o.writable then o else AfterFault(s, o, v, late)
  }

  function AfterStores(s: Space, pd: nat, o: Tally, ws: seq<Write>, late: bool): Tally {
    if ws == [] then o else AfterStore(s, pd, AfterStores(s, pd, o, ws[..|ws| - 1], late), ws[|ws| - 1], late)
  }

  lemma AfterOneMore(s: Space, pd: nat, o: Tally, ws: seq<Write>, w: Write, late: bool)
    ensures AfterStores(s, pd, o, ws + [w], late) == AfterStore(s, pd, AfterStores(s, pd, o, ws, late), w, late)
  {
    assert (ws + [w])[..|ws|] == ws;
  }

  /** The page is mapped into the child. */
  function InChild(o: Tally, v: Page): Tally {
    o.(left := if v in o.moved then o.left else o.left + {v}, shared := o.shared + {v})
  }

  /** The page is write-protected. */
  function Sealed(o: Tally, v: Page): Tally { o.(writable := o.writable - {v}) }

  /** Pages that fork needs beside its own. */
  function Need(o: Tally): nat { if o.kept >= o.late then o.kept else o.late }

  /** The table of PFTEMP is there: it was before, a fault has made it, or fork's own use of PFTEMP. */
  predicate HasTemp(s: Space, pd: nat, o: Tally, lent: bool) { Slot(pd, 1) in s.tabs || o.faults > 0 || lent }

  // ---- fork's course ----

  ghost function AtStart(s: Space, pd: nat): Tally {
    Tally(set v | v in s.maps && v.slot.dir == pd && InRange(v) && HasW(s.maps[v].flags), {}, {}, {}, 0, 0, 0)
  }

  /** The gaps before page n: duppage has one before it reads uvpt, one before its first call, and
      one before its second. */
  ghost function GapsTo(s: Space, pd: nat, n: nat): nat {
    if n <= 2048 then 0
    else
      var v := PageNo(pd, n - 1);
      GapsTo(s, pd, n - 1) + if !RangePage(s, pd, v) then 0 else if Shareable(s.maps[v].flags) then 3 else 2
  }

  /** duppage of page v, with its first gap the t-th. */
  ghost function Dupped(s: Space, pd: nat, code: seq<seq<Write>>, o: Tally, v: Page, t: nat): Tally
    requires v in s.maps
  {
    var b := AfterStores(s, pd, AfterStores(s, pd, o, GapCode(code, t), false), GapCode(code, t + 1), false);
    if Shareable(s.maps[v].flags) then Sealed(AfterStores(s, pd, InChild(b, v), GapCode(code, t + 2), false), v) else InChild(b, v)
  }

  /** The tally when fork has reached page n. */
  ghost function PlanTo(s: Space, pd: nat, code: seq<seq<Write>>, n: nat): Tally {
    if n <= 2048 then AtStart(s, pd)
    else
      var v, o := PageNo(pd, n - 1), PlanTo(s, pd, code, n - 1);
      if RangePage(s, pd, v) then Dupped(s, pd, code, o, v, GapsTo(s, pd, n - 1)) else o
  }

  ghost function LoopGaps(s: Space, pd: nat): nat { GapsTo(s, pd, ForkSteps.LAST) }

  /** Before the child's exception page is mapped at PFTEMP. */
  ghost function AtTemp(s: Space, pd: nat, code: seq<seq<Write>>): Tally {
    var t := LoopGaps(s, pd);
    AfterStores(s, pd, AfterStores(s, pd, PlanTo(s, pd, code, ForkSteps.LAST), GapCode(code, t), false), GapCode(code, t + 1), true)
  }

  /** All the stores go to pages in the set. */
  predicate AllIn(pd: nat, pages: set<Page>, ws: seq<Write>) {
    forall i | 0 <= i < |ws| :: PageAt(pd, ws[i].va) in pages
  }

  /** A store of the gaps from..to-1 goes to the page. */
  predicate StoredIn(pd: nat, code: seq<seq<Write>>, from: nat, to: nat, v: Page) {
    exists t | from <= t < to :: !Untouched(GapCode(code, t), pd, v)
  }

  /** Pages that fork shares for writing and that have been stored to since, before it reaches PFTEMP:
      duppage write-protects such a page after its third gap. */
  ghost function Renewed(s: Space, pd: nat, code: seq<seq<Write>>): set<Page> {
    set v | v in s.maps && RangePage(s, pd, v) && StoredIn(pd, code, GapsTo(s, pd, Number(v)) + 3, LoopGaps(s, pd) + 2, v)
  }

  /** While PFTEMP is in use - in two gaps, around the memmove - a store goes to a page that has not
      been stored to since its own duppage. */
  ghost predicate Clashing(s: Space, pd: nat, code: seq<seq<Write>>) {
    var pages, t := Renewed(s, pd, code), LoopGaps(s, pd);
    !(AllIn(pd, pages, GapCode(code, t + 2)) && AllIn(pd, pages, GapCode(code, t + 3)))
  }

  /** When fork makes its child runnable. */
  ghost function AtEnd(s: Space, pd: nat, code: seq<seq<Write>>): Tally {
    var t := LoopGaps(s, pd);
    AfterStores(s, pd, AfterStores(s, pd, AtTemp(s, pd, code), GapCode(code, t + 4), true), GapCode(code, t + 5), true)
  }

  ghost function AllGaps(s: Space, pd: nat): nat { LoopGaps(s, pd) + 6 }

  // ---- Pages that are not there ----

  lemma {:induction false} PlanSkips(s: Space, pd: nat, code: seq<seq<Write>>, n: nat, m: nat)
    requires ForkSteps.NoneBetween(s, pd, n, m) && n <= m
    ensures PlanTo(s, pd, code, m) == PlanTo(s, pd, code, n) && GapsTo(s, pd, m) == GapsTo(s, pd, n)
    decreases m
  {
    hide Dupped, InRange, AtStart;
    if n < m {
      PlanSkips(s, pd, code, n, m - 1);
      assert Number(PageNo(pd, m - 1)) == m - 1;
    }
  }

  // ---- More is never needed less ----

  lemma {:induction false} StoresGrow(s: Space, pd: nat, o: Tally, ws: seq<Write>, late: bool)
    ensures var p := AfterStores(s, pd, o, ws, late);
            o.kept <= p.kept && o.late <= p.late && Need(o) <= Need(p) && o.faults <= p.faults <= o.faults + |ws|
            && p.kept - o.kept <= p.faults - o.faults && o.writable <= p.writable
    decreases |ws|
  {
    hide Gives;
    if ws != [] {
      StoresGrow(s, pd, o, ws[..|ws| - 1], late);
    }
  }

  lemma {:induction false} PrefixGrows(s: Space, pd: nat, o: Tally, ws: seq<Write>, late: bool, i: nat)
    requires i <= |ws|
    ensures Need(AfterStores(s, pd, o, ws[..i], late)) <= Need(AfterStores(s, pd, o, ws, late))
    decreases |ws|
  {
    hide Gives, Need;
    if i < |ws| {
      var rest := ws[..|ws| - 1];
      assert ws[..i] == rest[..i];
      PrefixGrows(s, pd, o, rest, late, i);
      StoreGrows(s, pd, AfterStores(s, pd, o, rest, late), ws[|ws| - 1], late);
    } else {
      assert ws[..i] == ws;
    }
  }

  lemma StoreGrows(s: Space, pd: nat, o: Tally, w: Write, late: bool)
    ensures Need(o) <= Need(AfterStore(s, pd, o, w, late))
  {
  }

  lemma DuppedGrows(s: Space, pd: nat, code: seq<seq<Write>>, o: Tally, v: Page, t: nat)
    requires v in s.maps
    ensures Need(o) <= Need(Dupped(s, pd, code, o, v, t))
  {
    hide AfterStores;
    var a := AfterStores(s, pd, o, GapCode(code, t), false);
    var b := AfterStores(s, pd, a, GapCode(code, t + 1), false);
    StoresGrow(s, pd, o, GapCode(code, t), false);
    StoresGrow(s, pd, a, GapCode(code, t + 1), false);
    StoresGrow(s, pd, InChild(b, v), GapCode(code, t + 2), false);
  }

  lemma {:induction false} PlanGrows(s: Space, pd: nat, code: seq<seq<Write>>, n: nat, m: nat)
    requires n <= m
    ensures Need(PlanTo(s, pd, code, n)) <= Need(PlanTo(s, pd, code, m))
    decreases m
  {
    hide Dupped, AtStart, RangePage;
    if n < m && m > 2048 {
      PlanGrows(s, pd, code, n, m - 1);
      if RangePage(s, pd, PageNo(pd, m - 1)) {
        assert PageNo(pd, m - 1) in s.maps by { OfRange(s, pd, PageNo(pd, m - 1)); }
        DuppedGrows(s, pd, code, PlanTo(s, pd, code, m - 1), PageNo(pd, m - 1), GapsTo(s, pd, m - 1));
      }
    }
  }

  lemma OfRange(s: Space, pd: nat, v: Page)
    requires RangePage(s, pd, v)
    ensures v in s.maps && v.slot.dir == pd && InRange(v)
  {
  }

  lemma EndGrows(s: Space, pd: nat, code: seq<seq<Write>>)
    ensures Need(PlanTo(s, pd, code, ForkSteps.LAST)) <= Need(AtTemp(s, pd, code)) <= Need(AtEnd(s, pd, code))
  {
    hide AfterStores, PlanTo;
    var t := LoopGaps(s, pd);
    var a := AfterStores(s, pd, PlanTo(s, pd, code, ForkSteps.LAST), GapCode(code, t), false);
    StoresGrow(s, pd, PlanTo(s, pd, code, ForkSteps.LAST), GapCode(code, t), false);
    StoresGrow(s, pd, a, GapCode(code, t + 1), true);
    var b := AfterStores(s, pd, AtTemp(s, pd, code), GapCode(code, t + 4), true);
    StoresGrow(s, pd, AtTemp(s, pd, code), GapCode(code, t + 4), true);
    StoresGrow(s, pd, b, GapCode(code, t + 5), true);
  }
}
