/** Copy-on-write sharing (lib/fork.c) against private copies (user/dumbfork.c), one system call
    or store at a time: what every environment sees is what it would see if sys_page_map copied
    pages instead of sharing them. */
module Cow {
  import opened Basics
  import opened Mmu
  import opened PageSpace
  import opened PageWords

  /** [UTEXT, UXSTACKTOP - PGSIZE): the pages fork duplicates. */
  predicate InRange(v: Page) {
    2 <= v.slot.pdx < UTOP_PDX && v.ptx < 1024 && Number(v) != EXCEPTION_PN
  }

  const EXCEPTION_PN: nat := 954 * 1024 + 1023   // PGNUM(UXSTACKTOP - PGSIZE)

  function ExceptionPage(d: nat): Page { Page(Slot(d, 954), 1023) }

  function PfTemp(d: nat): Page { Page(Slot(d, 1), 1023) }

  /** The pages from UTEMP up to UTEXT, where the library maps pages for a moment. */
  predicate IsTemp(v: Page) { v.slot.pdx == 1 }

  lemma BeforeException(v: Page)
    ensures InRange(v) ==> Number(v) < EXCEPTION_PN && !IsTemp(v) && v != ExceptionPage(v.slot.dir)
  {
  }

  /** The same virtual page in directory d. */
  function Twin(v: Page, d: nat): Page { Page(Slot(d, v.slot.pdx), v.ptx) }

  predicate IsUser(s: Space, v: Page) { v in s.maps && v.slot.dir != s.kern }

  predicate Shareable(flags: bv12) { HasW(flags) || HasCow(flags) }

  /** duppage's permission: never writable, and marked if it should become so again. */
  function DupPerm(flags: bv12): (perm: bv12)
    ensures !HasW(perm) && HasU(perm) && HasP(perm) && (HasCow(perm) <==> Shareable(flags))
  {
    if Shareable(flags) then PTE_U | PTE_P | PTE_COW else PTE_U | PTE_P
  }

  // ---- Who can write a frame ----

  predicate Writes(s: Space, v: Page, f: nat) {
    IsUser(s, v) && s.maps[v].frame == f && HasW(s.maps[v].flags)
  }

  /** The page is not writable, but somebody else can write its frame. */
  ghost predicate Exposed(s: Space, v: Page)
    requires v in s.maps
  {
    !HasW(s.maps[v].flags) && exists u :: Writes(s, u, s.maps[v].frame)
  }

  /** No frame with two user mappings is writable through any of them. */
  ghost predicate CowInv(s: Space) {
    forall v, w | IsUser(s, v) && Writes(s, w, s.maps[v].frame) :: v == w
  }

  /** CowInv, but for page p and its copy q: p may still be writable although q shares its frame. */
  ghost predicate CowBut(s: Space, p: Page, q: Page) {
    forall v, w | IsUser(s, v) && Writes(s, w, s.maps[v].frame) :: v == w || (v == q && w == p)
  }

  /** Two writable mappings of a frame: only while one of them is temporary. */
  ghost predicate OneWriter(s: Space) {
    forall v, w | IsUser(s, v) && HasW(s.maps[v].flags) && Writes(s, w, s.maps[v].frame) :: v == w || IsTemp(v) || IsTemp(w)
  }

  // ---- What the environments see ----

  datatype Machine = Machine(s: Space, mem: Frames)

  type Private = map<Page, seq<Word>>

  /** The words of every user page, except of those that somebody else could change: a page that a
      fork in progress has mapped into the child and not yet write-protected in the parent. */
  ghost function View(m: Machine): Private {
    map v | v in m.s.maps && v.slot.dir != m.s.kern && m.s.maps[v].frame < |m.mem| && !Exposed(m.s, v) ::
      m.mem[m.s.maps[v].frame]
  }

  lemma Visible(m: Machine, v: Page)
    ensures v in View(m) <==> IsUser(m.s, v) && m.s.maps[v].frame < |m.mem| && !Exposed(m.s, v)
    ensures v in View(m) ==> View(m)[v] == m.mem[m.s.maps[v].frame]
  {
  }

  /** A page that can write the frame, if there is one. */
  ghost function Writer(s: Space, f: nat): (v: Page)
    requires exists u :: Writes(s, u, f)
    ensures Writes(s, v, f)
  {
    var v :| Writes(s, v, f);
    v
  }

  /** From s to t, the pages that nobody else can write any more, each with the page that could. */
  ghost function Shown(s: Space, t: Space): map<Page, Page> {
    map v | v in t.maps && v in s.maps && t.maps[v] == s.maps[v] && v.slot.dir != s.kern
            && Exposed(s, v) && !Exposed(t, v) :: Writer(s, s.maps[v].frame)
  }

  // ---- Events: single system calls and stores ----

  /** shown: the pages that become visible by the event. hidden: the page mapped does not. from:
      the page whose words a mapping copies, another than v if v shows none.
      also: the other pages where the stored word appears, as the frame is writable there too. */
  datatype Event =
    | PageAlloc(v: Page, perm: bv12, x: nat, shown: map<Page, Page>)
    | PageMap(v: Page, w: Page, perm: bv12, hidden: bool, from: Page, shown: map<Page, Page>)
    | PageUnmap(v: Page, shown: map<Page, Page>)
    | Exit(d: nat, shown: map<Page, Page>)
    | Store(v: Page, off: nat, word: Word, also: set<Page>)
    | Quiet

  ghost predicate Unmapped(s: Space, f: nat) {
    forall v | IsUser(s, v) :: s.maps[v].frame != f
  }

  /** What all events have in common; x is a frame that may be overwritten. */
  ghost predicate Between(a: Machine, b: Machine, x: nat) {
    && Inv(a.s, {}) && Inv(b.s, {}) && b.s.kern == a.s.kern && |a.mem| == |b.mem| == |a.s.ref| == |b.s.ref|
    && forall f: nat | f < |a.mem| && f != x && !Unmapped(b.s, f) :: b.mem[f] == a.mem[f]
  }

  /** A page that shows the frame of page v: v, or the one that can write it. */
  ghost function Source(s: Space, v: Page): Page
    requires v in s.maps
  {
    if Exposed(s, v) then Writer(s, s.maps[v].frame) else v
  }

  /** The other pages at which the frame of page v is writable. */
  ghost function Others(s: Space, v: Page): set<Page>
    requires v in s.maps
  {
    set u | u in s.maps && u != v && Writes(s, u, s.maps[v].frame)
  }

  ghost predicate Happens(a: Machine, b: Machine, ev: Event) {
    match ev
    case PageAlloc(v, perm, x, shown) =>
      && Between(a, b, x) && shown == Shown(a.s, b.s)
      && v.slot.dir in a.s.dirs && Unmapped(a.s, x) && x < |a.mem| && b.mem[x] == ZeroPage()
      && b.s.maps == a.s.maps[v := Entry(x, perm)]
    case PageMap(v, w, perm, hidden, from, shown) =>
      && Between(a, b, |a.mem|) && shown == Shown(a.s, b.s)
      && IsUser(a.s, v) && w.slot.dir in a.s.dirs && b.s.maps == a.s.maps[w := Entry(a.s.maps[v].frame, perm)]
      && hidden == Exposed(b.s, w) && from == Source(a.s, v) && (HasW(perm) ==> HasW(a.s.maps[v].flags))
    case PageUnmap(v, shown) =>
      Between(a, b, |a.mem|) && shown == Shown(a.s, b.s) && v.slot.dir in a.s.dirs && b.s.maps == a.s.maps - {v}
    case Exit(d, shown) =>
      && Between(a, b, |a.mem|) && shown == Shown(a.s, b.s)
      && d in a.s.dirs && b.s.maps == map v | v in a.s.maps && v.slot.dir != d :: a.s.maps[v]
    case Store(v, off, word, also) =>
      && Inv(a.s, {}) && b.s == a.s && |a.mem| == |a.s.ref| && off < 1024
      && v in a.s.maps && v.slot.dir in a.s.dirs && HasW(a.s.maps[v].flags)
      && var f := a.s.maps[v].frame;
         f < |a.mem| && |a.mem[f]| == 1024 && b.mem == Poke(a.mem, f, off, word)
         && also == Others(a.s, v)
    case Quiet => Between(a, b, |a.mem|) && b.s.maps == a.s.maps
  }

  /** The mapping is at a temporary page, or replaces all others that are not. */
  ghost predicate ThroughTemp(s: Space, f: nat, w: Page) {
    IsTemp(w) || forall u | Writes(s, u, f) :: u == w || IsTemp(u)
  }

  // ---- The same events with private copies ----

  ghost function Copies(e: Private, shown: map<Page, Page>): Private {
    map v | v in shown && shown[v] in e :: e[shown[v]]
  }

  function Put(page: seq<Word>, off: nat, word: Word): seq<Word> {
    if off < |page| then page[off := word] else page
  }

  /** Each call acts on private copies: sys_page_map copies the page, or, if its source is still
      being written, at the moment when it no longer is. */
  ghost function Eager(e: Private, ev: Event): Private {
    match ev
    case PageAlloc(v, _, _, shown) => e[v := ZeroPage()] + Copies(e, shown)
    case PageMap(_, w, _, hidden, from, shown) => (if hidden || from !in e then e - {w} else e[w := e[from]]) + Copies(e, shown)
    case PageUnmap(v, shown) => (e - {v}) + Copies(e, shown)
    case Exit(d, shown) => (map v | v in e && v.slot.dir != d :: e[v]) + Copies(e, shown)
    case Store(v, off, word, also) => map u | u in e :: if u == v || u in also then Put(e[u], off, word) else e[u]
    case Quiet => e
  }

  // ---- Every event is what private copies would do ----

  lemma KernOwnsNone(s: Space, d: nat)
    requires Inv(s, {}) && d in s.dirs
    ensures d != s.kern
  {
  }

  lemma FrameInMemory(s: Space, v: Page)
    requires Inv(s, {}) && IsUser(s, v)
    ensures s.maps[v].frame < |s.ref|
  {
    assert DataFrame(s, s.maps[v].frame, s.maps[v].flags);
  }

  /** Pages that keep their entry keep what they show, and show something new only when the last
      page that could write their frame is gone. */
  lemma RestIsSame(a: Machine, b: Machine, x: nat, u: Page)
    requires Between(a, b, x) && Unmapped(a.s, x) && Lookup(a.s.maps, u) == Lookup(b.s.maps, u)
    requires forall f: nat, w | Writes(b.s, w, f) && f != x :: exists v :: Writes(a.s, v, f)
    ensures var e, f, shown := View(a), View(b), Shown(a.s, b.s);
            && (u in f <==> u in e || u in shown) && (u in shown ==> u !in e && shown[u] in e)
            && (u in f ==> f[u] == if u in shown then e[shown[u]] else e[u])
  {
    hide Inv, HasW;
    Visible(a, u);
    Visible(b, u);
    if IsUser(b.s, u) {
      FrameInMemory(b.s, u);
      if u in Shown(a.s, b.s) {
        FrameInMemory(a.s, u);
        Visible(a, Shown(a.s, b.s)[u]);
      }
      if Exposed(b.s, u) {
        assert Exposed(a.s, u);
      }
    }
  }

  function Lookup(maps: map<Page, Word>, v: Page): Option<Word> {
    if v in maps then Some(maps[v]) else None
  }

  lemma NoFrameBeyond(s: Space)
    requires Inv(s, {})
    ensures Unmapped(s, |s.ref|)
  {
    hide Inv;
    forall v | IsUser(s, v) ensures s.maps[v].frame != |s.ref| {
      FrameInMemory(s, v);
    }
  }

  lemma AllocIsEager(a: Machine, b: Machine, ev: Event)
    requires Happens(a, b, ev) && ev.PageAlloc?
    ensures View(b) == Eager(View(a), ev)
  {
    hide Inv, HasW, HasU, HasP, View, Exposed, Shown;
    KernOwnsNone(a.s, ev.v.slot.dir);
    var e, f := Eager(View(a), ev), View(b);
    forall u ensures (u in f <==> u in e) && (u in f ==> f[u] == e[u]) {
      if u == ev.v {
        Visible(b, u);
        FreshNotExposed(a.s, b.s, u, ev.x);
        NotShown(a.s, b.s, u);
      } else {
        AllocWriters(a, b, ev);
        RestIsSame(a, b, ev.x, u);
      }
    }
  }

  lemma FreshNotExposed(s: Space, t: Space, v: Page, x: nat)
    requires Unmapped(s, x) && t.kern == s.kern && v in t.maps && t.maps[v].frame == x && t.maps == s.maps[v := t.maps[v]]
    ensures !Exposed(t, v)
  {
    hide HasW;
    forall u | Writes(t, u, x) ensures u == v {
      assert u != v ==> IsUser(s, u);
    }
  }

  lemma NotShown(s: Space, t: Space, v: Page)
    requires Lookup(s.maps, v) != Lookup(t.maps, v)
    ensures v !in Shown(s, t)
  {
  }

  lemma AllocWriters(a: Machine, b: Machine, ev: Event)
    requires Happens(a, b, ev) && ev.PageAlloc?
    ensures forall f: nat, w | Writes(b.s, w, f) && f != ev.x :: exists v :: Writes(a.s, v, f)
  {
    hide Inv, HasW;
    forall f: nat, w | Writes(b.s, w, f) && f != ev.x ensures exists v :: Writes(a.s, v, f) {
      assert Writes(a.s, w, f);
    }
  }

  lemma NoNewWriters(s: Space, t: Space)
    requires t.kern == s.kern
    requires forall w | w in t.maps :: w in s.maps && t.maps[w] == s.maps[w]
    ensures forall f: nat, w | Writes(t, w, f) :: exists v :: Writes(s, v, f)
  {
    hide HasW;
    forall f: nat, w | Writes(t, w, f) ensures exists v :: Writes(s, v, f) {
      assert Writes(s, w, f);
    }
  }

  lemma MapIsEager(a: Machine, b: Machine, ev: Event)
    requires Happens(a, b, ev) && ev.PageMap?
    ensures View(b) == Eager(View(a), ev)
  {
    hide Inv, HasW, HasU, HasP, View, Exposed, Shown;
    KernOwnsNone(a.s, ev.w.slot.dir);
    NoFrameBeyond(a.s);
    MapWriters(a, b, ev);
    var e, f := Eager(View(a), ev), View(b);
    forall u ensures (u in f <==> u in e) && (u in f ==> f[u] == e[u]) {
      if Lookup(a.s.maps, u) == Lookup(b.s.maps, u) {
        RestIsSame(a, b, |a.mem|, u);
      }
      if u == ev.w {
        Visible(b, u);
        SourceIsVisible(a, ev.v);
        FrameInMemory(a.s, ev.v);
        MappedNotShown(a.s, b.s, ev.v, u);
        assert !Unmapped(b.s, b.s.maps[u].frame);
      }
    }
  }

  lemma SourceIsVisible(m: Machine, v: Page)
    requires Inv(m.s, {}) && |m.mem| == |m.s.ref| && IsUser(m.s, v)
    ensures var y := Source(m.s, v); y in View(m) && m.s.maps[v].frame < |m.mem| && View(m)[y] == m.mem[m.s.maps[v].frame]
  {
    hide Inv, HasW, View;
    FrameInMemory(m.s, v);
    Visible(m, Source(m.s, v));
  }

  lemma MapWriters(a: Machine, b: Machine, ev: Event)
    requires Happens(a, b, ev) && ev.PageMap?
    ensures forall f: nat, w | Writes(b.s, w, f) :: exists v :: Writes(a.s, v, f)
  {
    hide Inv;
    forall f: nat, w | Writes(b.s, w, f) ensures exists v :: Writes(a.s, v, f) {
      assert w != ev.w ==> Writes(a.s, w, f);
      assert w == ev.w ==> Writes(a.s, ev.v, f);
    }
  }

  /** A page that is mapped again as it was shows nothing new. */
  lemma MappedNotShown(s: Space, t: Space, v: Page, w: Page)
    requires t.kern == s.kern && IsUser(s, v) && w in t.maps && t.maps == s.maps[w := t.maps[w]] && t.maps[w].frame == s.maps[v].frame
    ensures w !in Shown(s, t)
  {
    hide HasW;
    forall u, f: nat | u != w && Writes(s, u, f) ensures Writes(t, u, f) {}
  }

  lemma UnmapIsEager(a: Machine, b: Machine, ev: Event)
    requires Happens(a, b, ev) && ev.PageUnmap?
    ensures View(b) == Eager(View(a), ev)
  {
    hide Inv, HasW, View, Exposed, Shown;
    NoFrameBeyond(a.s);
    NoNewWriters(a.s, b.s);
    var e, f := Eager(View(a), ev), View(b);
    forall u ensures (u in f <==> u in e) && (u in f ==> f[u] == e[u]) {
      if Lookup(a.s.maps, u) == Lookup(b.s.maps, u) {
        RestIsSame(a, b, |a.mem|, u);
      }
      if u == ev.v {
        Visible(b, u);
        GoneNotShown(a.s, b.s, u);
        Visible(a, u);
      }
    }
  }

  lemma GoneNotShown(s: Space, t: Space, v: Page)
    requires v !in t.maps
    ensures v !in Shown(s, t)
  {
  }

  lemma ExitIsEager(a: Machine, b: Machine, ev: Event)
    requires Happens(a, b, ev) && ev.Exit?
    ensures View(b) == Eager(View(a), ev)
  {
    hide Inv, HasW, View, Exposed, Shown;
    NoFrameBeyond(a.s);
    NoNewWriters(a.s, b.s);
    var e, f := Eager(View(a), ev), View(b);
    forall u ensures (u in f <==> u in e) && (u in f ==> f[u] == e[u]) {
      if u.slot.dir == ev.d {
        Visible(b, u);
        GoneNotShown(a.s, b.s, u);
      } else {
        RestIsSame(a, b, |a.mem|, u);
      }
    }
  }

  lemma QuietIsEager(a: Machine, b: Machine)
    requires Happens(a, b, Quiet)
    ensures View(b) == View(a) == Eager(View(a), Quiet)
  {
    hide Inv, HasW, View;
    NoFrameBeyond(a.s);
    NoNewWriters(a.s, b.s);
    SameExposed(a.s, b.s);
    forall u ensures (u in View(b) <==> u in View(a)) && (u in View(b) ==> View(b)[u] == View(a)[u]) {
      RestIsSame(a, b, |a.mem|, u);
    }
  }

  lemma SameExposed(s: Space, t: Space)
    requires t.kern == s.kern && t.maps == s.maps
    ensures Shown(s, t) == map[] && forall v | v in s.maps :: Exposed(s, v) <==> Exposed(t, v)
  {
    hide HasW;
    forall v | v in s.maps ensures Exposed(s, v) <==> Exposed(t, v) {
      assert forall u, f: nat :: Writes(s, u, f) <==> Writes(t, u, f);
    }
  }

  /** A store shows in the pages where the frame is writable: whoever else maps it does not see it. */
  lemma StoreIsEager(a: Machine, b: Machine, ev: Event)
    requires Happens(a, b, ev) && ev.Store?
    ensures View(b) == Eager(View(a), ev)
  {
    hide Inv, HasW, View, Exposed;
    KernOwnsNone(a.s, ev.v.slot.dir);
    var e, f := Eager(View(a), ev), View(b);
    forall u ensures (u in f <==> u in e) && (u in f ==> f[u] == e[u]) {
      Visible(a, u);
      Visible(b, u);
      if u != ev.v && u in f && a.s.maps[u].frame == a.s.maps[ev.v].frame {
        SeenWriter(a.s, ev.v, u);
      }
    }
  }

  lemma WriterIsVisible(s: Space, v: Page)
    requires v in s.maps && HasW(s.maps[v].flags)
    ensures !Exposed(s, v)
  {
  }

  lemma SeenWriter(s: Space, v: Page, u: Page)
    requires IsUser(s, v) && IsUser(s, u) && u != v && HasW(s.maps[v].flags) && s.maps[u].frame == s.maps[v].frame
    ensures Exposed(s, u) || u in Others(s, v)
  {
    hide HasW;
    assert Writes(s, v, s.maps[u].frame);
    assert HasW(s.maps[u].flags) ==> Writes(s, u, s.maps[v].frame);
  }

  /** A store shows in another page only while one of the two is temporary. */
  lemma AlsoIsTemp(s: Space, v: Page, u: Page)
    requires OneWriter(s) && IsUser(s, v) && HasW(s.maps[v].flags) && u in Others(s, v)
    ensures IsTemp(u) || IsTemp(v)
  {
    hide HasW;
  }

  // ---- At most one writer, always ----

  lemma AloneIsOneWriter(s: Space)
    requires CowInv(s)
    ensures OneWriter(s)
  {
  }

  lemma FewerWriters(s: Space, t: Space, w: Page)
    requires OneWriter(s) && t.kern == s.kern
    requires forall v | v in t.maps && v != w :: v in s.maps && t.maps[v] == s.maps[v]
    requires w in t.maps && HasW(t.maps[w].flags) ==> IsTemp(w) || forall u | Writes(s, u, t.maps[w].frame) :: u == w || IsTemp(u)
    ensures OneWriter(t)
  {
    hide HasW;
    forall v, u | IsUser(t, v) && HasW(t.maps[v].flags) && Writes(t, u, t.maps[v].frame) ensures v == u || IsTemp(v) || IsTemp(u) {
      assert u != w ==> Writes(s, u, t.maps[v].frame);
      assert v != w ==> Writes(s, v, t.maps[v].frame);
    }
  }

  /** The event keeps to the ways of fork, pgfault and dumbfork: a writable mapping is made a
      second time only at a temporary page, or from temporary ones. sfork does not. */
  ghost predicate Tidy(s: Space, ev: Event) {
    ev.PageMap? && HasW(ev.perm) ==> ev.v in s.maps && ThroughTemp(s, s.maps[ev.v].frame, ev.w)
  }

  lemma StepKeepsOneWriter(a: Machine, b: Machine, ev: Event)
    requires Happens(a, b, ev) && Tidy(a.s, ev) && OneWriter(a.s)
    ensures OneWriter(b.s)
  {
    hide Inv, HasW, OneWriter, Exposed, Shown, HasP, HasU;
    match ev
    case PageAlloc(v, _, x, _) =>
      assert forall u :: !Writes(a.s, u, x);
      FewerWriters(a.s, b.s, v);
    case PageMap(_, w, _, _, _, _) => FewerWriters(a.s, b.s, w);
    case PageUnmap(v, _) => FewerWriters(a.s, b.s, v);
    case Exit(d, _) => FewerWriters(a.s, b.s, ExceptionPage(d));
    case Store(v, _, _, _) =>
    case Quiet => FewerWriters(a.s, b.s, Page(Slot(0, 1), 0));
  }

  /** Every event is what private copies would do. */
  lemma StepIsEager(a: Machine, b: Machine, ev: Event)
    requires Happens(a, b, ev)
    ensures View(b) == Eager(View(a), ev)
  {
    hide Happens, View, Eager;
    match ev
    case PageAlloc(_, _, _, _) => AllocIsEager(a, b, ev);
    case PageMap(_, _, _, _, _, _) => MapIsEager(a, b, ev);
    case PageUnmap(_, _) => UnmapIsEager(a, b, ev);
    case Exit(_, _) => ExitIsEager(a, b, ev);
    case Store(_, _, _, _) => StoreIsEager(a, b, ev);
    case Quiet => QuietIsEager(a, b);
  }

  /** duppage, both of its calls: the copy appears with what the page held when it lost its write
      permission, and nothing is shared and writable. */
  lemma DupIsEager(a: Machine, b: Machine, c: Machine, first: Event, second: Event)
    requires CowInv(a.s) && first.PageMap? && second.PageMap? && Happens(a, b, first) && Happens(b, c, second)
    requires first.v != first.w && second.v == second.w == first.v && first.w !in a.s.maps
    requires !HasW(first.perm) && !HasW(second.perm)
    ensures CowInv(c.s) && first.v in View(a) && View(c) == View(a)[first.w := View(a)[first.v]]
  {
    hide Inv, HasU, HasP, HasW, View, Exposed, Shown, CowInv, Entry;
    var v, w := first.v, first.w;
    DupKeepsCow(a.s, c.s, v, w, c.s.maps[v], c.s.maps[w]);
    KernOwnsNone(a.s, w.slot.dir);
    Visible(a, v);
    CowShowsAll(a.s, v);
    FrameInMemory(a.s, v);
    forall u ensures (u in View(c) <==> u in View(a) || u == w) && (u in View(c) ==> View(c)[u] == View(a)[if u == w then v else u]) {
      Visible(a, u);
      Visible(c, u);
      CowShowsAll(a.s, u);
      CowShowsAll(c.s, u);
      if IsUser(c.s, u) {
        var f := c.s.maps[u].frame;
        assert !Unmapped(c.s, f) && !Unmapped(b.s, f);
      }
    }
  }

  lemma CowShowsAll(s: Space, v: Page)
    requires CowInv(s)
    ensures IsUser(s, v) ==> !Exposed(s, v)
  {
  }

  lemma DupKeepsCow(s: Space, t: Space, v: Page, w: Page, x: Word, y: Word)
    requires CowInv(s) && t.kern == s.kern && IsUser(s, v) && v != w && w !in s.maps
    requires t.maps == s.maps[w := y][v := x] && x.frame == y.frame == s.maps[v].frame && !HasW(x.flags) && !HasW(y.flags)
    ensures CowInv(t)
  {
    hide HasW;
    forall p, q | IsUser(t, p) && Writes(t, q, t.maps[p].frame) ensures p == q {
      assert Writes(s, q, t.maps[p].frame);
      assert IsUser(s, v);
    }
  }

  // ---- Whole runs ----

  /** ms[i] to ms[i + 1] is event evs[i]. */
  ghost predicate Trace(ms: seq<Machine>, evs: seq<Event>) {
    |ms| == |evs| + 1 && forall i | 0 <= i < |evs| :: Happens(ms[i], ms[i + 1], evs[i])
  }

  ghost function EagerRun(e: Private, evs: seq<Event>): Private {
    if evs == [] then e else Eager(EagerRun(e, evs[..|evs| - 1]), evs[|evs| - 1])
  }

  /** Copy-on-write simulates eager copying, however the system calls, stores and ends of any
      number of environments are interleaved - between the calls of a fork or a page fault
      handler too: every environment sees what private copies would hold. (A page that is mapped
      writable twice, on purpose, shows the stores through either.) */
  lemma {:induction false} RunIsEager(ms: seq<Machine>, evs: seq<Event>)
    requires Trace(ms, evs)
    ensures View(ms[|evs|]) == EagerRun(View(ms[0]), evs)
    decreases |evs|
  {
    hide Happens, View;
    if evs != [] {
      var n := |evs| - 1;
      assert Happens(ms[n], ms[n + 1], evs[n]);
      RunIsEager(ms[..n + 1], evs[..n]);
      StepIsEager(ms[n], ms[n + 1], evs[n]);
    }
  }

  ghost predicate TidyRun(ms: seq<Machine>, evs: seq<Event>)
    requires |ms| == |evs| + 1
  {
    forall i | 0 <= i < |evs| :: Tidy(ms[i].s, evs[i])
  }

  /** In a run that keeps to the library's ways no frame is ever writable at two pages, but for
      temporary ones. */
  lemma {:induction false} RunKeepsOneWriter(ms: seq<Machine>, evs: seq<Event>)
    requires Trace(ms, evs) && TidyRun(ms, evs) && OneWriter(ms[0].s)
    ensures OneWriter(ms[|evs|].s)
    decreases |evs|
  {
    hide Happens, OneWriter, Tidy;
    if evs != [] {
      var n := |evs| - 1;
      assert Happens(ms[n], ms[n + 1], evs[n]) && Tidy(ms[n].s, evs[n]);
      RunKeepsOneWriter(ms[..n + 1], evs[..n]);
      StepKeepsOneWriter(ms[n], ms[n + 1], evs[n]);
    }
  }

  /** The event is not one that changes a page of directory d. */
  predicate Elsewhere(ev: Event, d: nat) {
    match ev
    case PageAlloc(v, _, _, _) => v.slot.dir != d
    case PageMap(_, w, _, _, _, _) => w.slot.dir != d
    case PageUnmap(v, _) => v.slot.dir != d
    case Exit(d', _) => d' != d
    case Store(v, _, _, also) => v.slot.dir != d && forall u | u in also :: u.slot.dir != d
    case Quiet => true
  }

  lemma StepElsewhere(a: Machine, b: Machine, ev: Event, u: Page)
    requires Happens(a, b, ev) && Elsewhere(ev, u.slot.dir) && u in View(a)
    ensures u in View(b) && View(b)[u] == View(a)[u]
  {
    hide Inv, HasW, HasU, HasP;
    StepIsEager(a, b, ev);
    VisibleNotShown(a, b, u);
    hide View, Shown, Exposed;
  }

  lemma VisibleNotShown(a: Machine, b: Machine, u: Page)
    requires u in View(a)
    ensures u !in Shown(a.s, b.s)
  {
  }

  /** No write shows in another environment: whatever the others do, in any interleaving - storing
      to pages that are or were shared with it included - what it sees stays as it is. */
  lemma {:induction false} NoWriteShowsElsewhere(ms: seq<Machine>, evs: seq<Event>, u: Page)
    requires Trace(ms, evs) && u in View(ms[0])
    requires forall i | 0 <= i < |evs| :: Elsewhere(evs[i], u.slot.dir)
    ensures u in View(ms[|evs|]) && View(ms[|evs|])[u] == View(ms[0])[u]
    decreases |evs|
  {
    hide Happens, View, Elsewhere;
    if evs != [] {
      var n := |evs| - 1;
      assert Happens(ms[n], ms[n + 1], evs[n]);
      NoWriteShowsElsewhere(ms[..n + 1], evs[..n], u);
      StepElsewhere(ms[n], ms[n + 1], evs[n], u);
    }
  }

  /** What a load of the processor returns for a visible page is its word in the view. */
  lemma LoadsSeeView(m: Machine, d: nat, va: nat)
    requires Rep(m.mem, m.s) && Inv(m.s, {}) && d in m.s.dirs && va < UTOP && PageAt(d, va) in View(m)
    ensures Load(m.mem, d, va) == Some(View(m)[PageAt(d, va)][PgOff(va) / 4])
  {
    hide Walk, DirRep, TableRep, Counted, FreeList, Owned, HasW, Exposed;
    WalkRefinesMap(m.mem, m.s, d, va);
    var v := PageAt(d, va);
    KernOwnsNone(m.s, d);
    assert DataFrame(m.s, m.s.maps[v].frame, m.s.maps[v].flags);
  }

  /** The event gives page w a copy of page v. */
  predicate CopiesTo(ev: Event, v: Page, w: Page) {
    || (ev.PageMap? && ev.from == v && ev.w == w && !ev.hidden && w !in ev.shown)
    || (!ev.Quiet? && !ev.Store? && w in ev.shown && ev.shown[w] == v)
  }

  /** What a child sees of a page, whatever is interleaved with the fork and comes after it: what
      the parent's page was when the copy was made, as long as the child does nothing itself. */
  lemma CopyPersists(ms: seq<Machine>, evs: seq<Event>, i: nat, v: Page, w: Page)
    requires Trace(ms, evs) && i < |evs| && CopiesTo(evs[i], v, w) && v in View(ms[i])
    requires forall j | i < j < |evs| :: Elsewhere(evs[j], w.slot.dir)
    ensures w in View(ms[|evs|]) && View(ms[|evs|])[w] == View(ms[i])[v]
  {
    hide Happens, View, Elsewhere;
    assert Happens(ms[i], ms[i + 1], evs[i]);
    StepIsEager(ms[i], ms[i + 1], evs[i]);
    var rest := evs[i + 1..];
    assert forall j | 0 <= j < |rest| :: rest[j] == evs[i + 1 + j];
    NoWriteShowsElsewhere(ms[i + 1..], rest, w);
  }

  // ---- duppage, whatever comes between its two calls ----

  /** Page w has frame f, read-only, and nobody but v can write that. */
  ghost predicate Half(s: Space, v: Page, w: Page, f: nat) {
    && IsUser(s, w) && s.maps[w].frame == f && !HasW(s.maps[w].flags)
    && forall u | Writes(s, u, f) :: u == v
  }

  /** An event that is not the child's and makes no second writable mapping of page v. */
  predicate Apart(ev: Event, v: Page, w: Page) {
    Elsewhere(ev, w.slot.dir) && (ev.PageMap? && HasW(ev.perm) ==> ev.v != v)
  }

  lemma HalfStays(a: Machine, b: Machine, ev: Event, v: Page, w: Page, f: nat)
    requires Happens(a, b, ev) && Half(a.s, v, w, f) && Apart(ev, v, w) && v != w
    ensures Half(b.s, v, w, f) && f < |a.mem| == |b.mem|
    ensures b.mem[f] == a.mem[f] || (ev.Store? && Writes(b.s, v, f))
  {
    hide Inv, HasW, HasU, HasP, Shown, Exposed, Others;
    HappensIn(a, b, ev);
    FrameInMemory(a.s, w);
    assert !Unmapped(a.s, f);
    forall u | Writes(b.s, u, f) ensures u == v {
      if !Writes(a.s, u, f) {
        assert ev.PageMap? && u == ev.w ==> Writes(a.s, ev.v, f);
      }
    }
    assert IsUser(b.s, w);
    assert !Unmapped(b.s, f);
    if ev.Store? && a.s.maps[ev.v].frame == f {
      assert Writes(a.s, ev.v, f);
      assert Writes(b.s, v, f);
    }
  }

  lemma HappensIn(a: Machine, b: Machine, ev: Event)
    requires Happens(a, b, ev)
    ensures Inv(a.s, {}) && |a.mem| == |b.mem| == |a.s.ref| && b.s.kern == a.s.kern
    ensures ev.Store? ==> IsUser(a.s, ev.v)
  {
    hide Inv, HasW;
    if ev.Store? {
      KernOwnsNone(a.s, ev.v.slot.dir);
    }
  }

  /** While page v is half duplicated its frame holds what v held at some moment since. */
  lemma {:induction false} HalfDuplicated(ms: seq<Machine>, evs: seq<Event>, i: nat, m: nat, v: Page, w: Page) returns (q: nat)
    requires Trace(ms, evs) && i < m <= |evs| && v != w && IsUser(ms[i].s, v)
    requires evs[i].PageMap? && evs[i].v == v && evs[i].w == w && !HasW(evs[i].perm)
    requires forall u | Writes(ms[i].s, u, ms[i].s.maps[v].frame) :: u == v
    requires forall k | i < k < m :: Apart(evs[k], v, w)
    ensures i <= q <= m && Half(ms[m].s, v, w, ms[i].s.maps[v].frame) && v in View(ms[q])
    ensures var f := ms[i].s.maps[v].frame; f < |ms[m].mem| && ms[m].mem[f] == View(ms[q])[v]
    ensures q == m ==> Writes(ms[m].s, v, ms[i].s.maps[v].frame)
    decreases m
  {
    hide Inv, HasW, HasU, HasP, View, Exposed, Apart, Happens;
    var f := ms[i].s.maps[v].frame;
    if m == i + 1 {
      assert Happens(ms[i], ms[i + 1], evs[i]);
      FirstHalf(ms[i], ms[m], evs[i]);
      q := i;
    } else {
      q := HalfDuplicated(ms, evs, i, m - 1, v, w);
      assert Happens(ms[m - 1], ms[m], evs[m - 1]);
      HalfStays(ms[m - 1], ms[m], evs[m - 1], v, w, f);
      HappensIn(ms[m - 1], ms[m], evs[m - 1]);
      if Writes(ms[m].s, v, f) {
        WriterIsVisible(ms[m].s, v);
        Visible(ms[m], v);
        q := m;
      }
    }
  }

  lemma FirstHalf(a: Machine, b: Machine, ev: Event)
    requires Happens(a, b, ev) && ev.PageMap? && !HasW(ev.perm) && ev.v != ev.w && IsUser(a.s, ev.v)
    requires forall u | Writes(a.s, u, a.s.maps[ev.v].frame) :: u == ev.v
    ensures Half(b.s, ev.v, ev.w, a.s.maps[ev.v].frame) && ev.v in View(a)
    ensures var f := a.s.maps[ev.v].frame; f < |b.mem| && b.mem[f] == View(a)[ev.v]
  {
    hide Inv, HasW, HasU, HasP, View, Shown;
    var f := a.s.maps[ev.v].frame;
    KernOwnsNone(a.s, ev.w.slot.dir);
    FrameInMemory(a.s, ev.v);
    Visible(a, ev.v);
    forall u | Writes(b.s, u, f) ensures u == ev.v {
      assert u != ev.w ==> Writes(a.s, u, f);
    }
    assert IsUser(b.s, ev.w);
    assert !Unmapped(b.s, f);
  }

  /** duppage is right under preemption: whatever other environments do between its two calls, and
      whatever the parent itself stores and faults on, the child then sees of the page what the
      parent's page held at some moment between them. */
  lemma DuppageInterleaved(ms: seq<Machine>, evs: seq<Event>, i: nat, j: nat, v: Page, w: Page)
    requires Trace(ms, evs) && i < j < |evs| && v != w && IsUser(ms[i].s, v)
    requires evs[i].PageMap? && evs[i].v == v && evs[i].w == w && !HasW(evs[i].perm)
    requires evs[j].PageMap? && evs[j].v == v && evs[j].w == v && !HasW(evs[j].perm)
    requires forall u | Writes(ms[i].s, u, ms[i].s.maps[v].frame) :: u == v
    requires forall k | i < k < j :: Apart(evs[k], v, w)
    ensures w in View(ms[j + 1]) && exists q :: i <= q <= j && v in View(ms[q]) && View(ms[j + 1])[w] == View(ms[q])[v]
  {
    hide Inv, HasW, HasU, HasP, View, Exposed, Happens, Half, Shown;
    var f := ms[i].s.maps[v].frame;
    var q := HalfDuplicated(ms, evs, i, j, v, w);
    assert Happens(ms[j], ms[j + 1], evs[j]);
    SecondHalf(ms[j], ms[j + 1], evs[j], v, w, f);
  }

  lemma SecondHalf(a: Machine, b: Machine, ev: Event, v: Page, w: Page, f: nat)
    requires Happens(a, b, ev) && ev.PageMap? && ev.v == v == ev.w && !HasW(ev.perm) && Half(a.s, v, w, f) && v != w && f < |a.mem|
    ensures w in View(b) && View(b)[w] == a.mem[f]
  {
    hide Inv, HasW, HasU, HasP, View, Shown;
    forall u ensures !Writes(b.s, u, f) {
      assert u != v && Writes(b.s, u, f) ==> Writes(a.s, u, f);
    }
    assert IsUser(b.s, w) && b.s.maps[w].frame == f;
    assert !Unmapped(b.s, f);
    Visible(b, w);
  }

  // ---- Reachability ----

  /** b comes about from a by events of this module, in the library's ways. */
  ghost predicate Reaches(a: Machine, b: Machine) {
    exists ms, evs :: Trace(ms, evs) && TidyRun(ms, evs) && ms[0] == a && ms[|evs|] == b
  }

  lemma ReachesItself(a: Machine)
    ensures Reaches(a, a)
  {
    assert Trace([a], []) && TidyRun([a], []);
  }

  lemma ReachesOne(a: Machine, b: Machine, c: Machine, ev: Event)
    requires Reaches(a, b) && Happens(b, c, ev) && Tidy(b.s, ev)
    ensures Reaches(a, c)
  {
    hide Happens, Tidy;
    var ms, evs :| Trace(ms, evs) && TidyRun(ms, evs) && ms[0] == a && ms[|evs|] == b;
    assert Trace(ms + [c], evs + [ev]) && TidyRun(ms + [c], evs + [ev]);
  }

  lemma ReachesKeepsOneWriter(a: Machine, b: Machine)
    requires Reaches(a, b) && OneWriter(a.s)
    ensures OneWriter(b.s)
  {
    hide Happens, OneWriter, Tidy, View;
    var ms, evs :| Trace(ms, evs) && TidyRun(ms, evs) && ms[0] == a && ms[|evs|] == b;
    RunKeepsOneWriter(ms, evs);
  }
}
