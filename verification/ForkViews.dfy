/** What each call of fork, pgfault and dumbfork does to what the environments see. */
module ForkViews {
  import opened Mmu
  import opened PageSpace
  import PageWords
  import opened Cow
  import opened LibCalls
  import PgfaultLib

  /** Frames that b maps, other than x, were mapped in a: they hold what they held. */
  lemma Held(a: Machine, b: Machine, x: nat, u: Page)
    requires Between(a, b, x) && IsUser(b.s, u) && b.s.maps[u].frame != x
    ensures b.s.maps[u].frame < |b.mem| == |a.mem| && b.mem[b.s.maps[u].frame] == a.mem[b.s.maps[u].frame]
  {
    hide Inv;
    FrameInMemory(b.s, u);
    PgfaultLib.UserMapped(b.s, u);
  }

  lemma CowButShows(s: Space, p: Page, q: Page, v: Page)
    requires CowBut(s, p, q) && IsUser(s, v) && v != q
    ensures !Exposed(s, v)
  {
  }

  lemma CowIsCowBut(s: Space, p: Page, q: Page)
    requires CowInv(s)
    ensures CowBut(s, p, q)
  {
  }

  /** The page is in memory, and so visible if nobody else can write it. */
  lemma Seen(m: Machine, v: Page)
    requires Inv(m.s, {}) && |m.mem| == |m.s.ref| && IsUser(m.s, v) && !Exposed(m.s, v)
    ensures v in View(m) && View(m)[v] == m.mem[m.s.maps[v].frame]
  {
    hide Inv;
    FrameInMemory(m.s, v);
    Visible(m, v);
  }

  // ---- duppage ----

  /** The page is mapped into the child: a copy at once if nobody writes it, else a page that is
      not visible yet. */
  lemma ChildMapped(a: Machine, b: Machine, v: Page, w: Page, entry: Word)
    requires Between(a, b, |a.mem|) && CowInv(a.s) && IsUser(a.s, v) && w !in a.s.maps && w.slot.dir != a.s.kern
    requires b.s.maps == a.s.maps[w := entry] && entry.frame == a.s.maps[v].frame && !HasW(entry.flags)
    ensures CowBut(b.s, v, w) && v in View(a)
    ensures View(b) == if HasW(a.s.maps[v].flags) then View(a) else View(a)[w := View(a)[v]]
  {
    hide Inv, HasW, View, Exposed, CowInv, Between;
    BetweenFacts(a, b, |a.mem|);
    ChildMappedCow(a.s, b.s, v, w, entry);
    CowShowsAll(a.s, v);
    Seen(a, v);
    var e := if HasW(a.s.maps[v].flags) then View(a) else View(a)[w := View(a)[v]];
    forall u ensures (u in View(b) <==> u in e) && (u in View(b) ==> View(b)[u] == e[u]) {
      Visible(a, u);
      Visible(b, u);
      if IsUser(b.s, u) {
        FrameInMemory(b.s, u);
        Held(a, b, |a.mem|, u);
        CowShowsAll(a.s, u);
      }
    }
  }

  lemma BetweenFacts(a: Machine, b: Machine, x: nat)
    requires Between(a, b, x)
    ensures Inv(a.s, {}) && Inv(b.s, {}) && b.s.kern == a.s.kern && |a.mem| == |b.mem| == |a.s.ref| == |b.s.ref|
  {
  }

  lemma ChildMappedCow(s: Space, t: Space, v: Page, w: Page, entry: Word)
    requires CowInv(s) && t.kern == s.kern && IsUser(s, v) && w !in s.maps && w.slot.dir != s.kern
    requires t.maps == s.maps[w := entry] && entry.frame == s.maps[v].frame && !HasW(entry.flags)
    ensures CowBut(t, v, w) && (Exposed(t, w) <==> HasW(s.maps[v].flags))
    ensures forall u | IsUser(t, u) && u != w :: !Exposed(t, u)
  {
    hide HasW;
    forall x, y | IsUser(t, x) && Writes(t, y, t.maps[x].frame) ensures x == y || (x == w && y == v) {
      assert Writes(s, y, t.maps[x].frame);
    }
    if HasW(s.maps[v].flags) {
      assert Writes(t, v, entry.frame);
    }
  }

  /** The parent's page loses its write permission: its copy now shows what it holds. */
  lemma ParentSealed(a: Machine, b: Machine, v: Page, w: Page, entry: Word)
    requires Between(a, b, |a.mem|) && CowBut(a.s, v, w) && IsUser(a.s, v) && IsUser(a.s, w) && v != w
    requires b.s.maps == a.s.maps[v := entry] && entry.frame == a.s.maps[v].frame && !HasW(entry.flags)
    ensures CowInv(b.s) && v in View(a)
    ensures a.s.maps[w].frame != a.s.maps[v].frame ==> w in View(a)
    ensures View(b) == View(a)[w := if a.s.maps[w].frame == a.s.maps[v].frame then View(a)[v] else View(a)[w]]
  {
    hide Inv, HasW, View, Exposed, CowBut, Between;
    BetweenFacts(a, b, |a.mem|);
    ParentSealedCow(a.s, b.s, v, w, entry);
    CowButShows(a.s, v, w, v);
    Seen(a, v);
    if a.s.maps[w].frame != a.s.maps[v].frame {
      Seen(a, w);
    }
    var e := View(a)[w := if a.s.maps[w].frame == a.s.maps[v].frame then View(a)[v] else View(a)[w]];
    forall u ensures (u in View(b) <==> u in e) && (u in View(b) ==> View(b)[u] == e[u]) {
      Visible(a, u);
      Visible(b, u);
      if IsUser(b.s, u) {
        FrameInMemory(b.s, u);
        Held(a, b, |a.mem|, u);
        if u != w {
          CowButShows(a.s, v, w, u);
        }
      }
    }
  }

  lemma ParentSealedCow(s: Space, t: Space, v: Page, w: Page, entry: Word)
    requires CowBut(s, v, w) && t.kern == s.kern && IsUser(s, v) && IsUser(s, w) && v != w
    requires t.maps == s.maps[v := entry] && entry.frame == s.maps[v].frame && !HasW(entry.flags)
    ensures CowInv(t) && (forall u | IsUser(t, u) :: !Exposed(t, u))
    ensures s.maps[w].frame != s.maps[v].frame ==> !Exposed(s, w)
  {
    hide HasW;
    forall x, y | IsUser(t, x) && Writes(t, y, t.maps[x].frame) ensures x == y {
      assert Writes(s, y, t.maps[x].frame);
    }
  }

  // ---- Faults and stores ----

  /** What pgfault does cannot be seen. */
  lemma FaultUnseen(a: Machine, b: Machine, v: Page, x: nat, p: Page, q: Page)
    requires PgfaultLib.Repaired(a, b, v, x) && PgfaultLib.Repairable(a.s, v) && PfTemp(v.slot.dir) !in a.s.maps && CowBut(a.s, p, q) && v != q && v.slot.dir != a.s.kern
    ensures View(b) == View(a) && CowBut(b.s, p, q)
  {
    hide Inv, HasW, HasU, HasCow, View, Exposed, CowBut, Between, UPW, Entry;
    BetweenFacts(a, b, x);
    assert b.s.maps == a.s.maps[v := Entry(x, UPW)];
    FaultCow(a.s, b.s, v, x, p, q);
    CowButShows(a.s, p, q, v);
    Seen(a, v);
    WriterIsVisible(b.s, v);
    Seen(b, v);
    forall u ensures (u in View(b) <==> u in View(a)) && (u in View(b) ==> View(b)[u] == View(a)[u]) {
      Visible(a, u);
      Visible(b, u);
      if u != v && IsUser(b.s, u) {
        FrameInMemory(b.s, u);
        PgfaultLib.UserMapped(a.s, u);
        Held(a, b, x, u);
      }
    }
  }

  lemma FaultCow(s: Space, t: Space, v: Page, x: nat, p: Page, q: Page)
    requires CowBut(s, p, q) && t.kern == s.kern && v.slot.dir != s.kern && Unmapped(s, x) && v in s.maps && !HasW(s.maps[v].flags)
    requires t.maps == s.maps[v := Entry(x, UPW)]
    ensures CowBut(t, p, q) && HasW(t.maps[v].flags) && (forall u | IsUser(t, u) && u != v :: t.maps[u].frame != x)
    ensures forall u | IsUser(t, u) && u != v :: Exposed(t, u) <==> Exposed(s, u)
  {
    UpwOk();
    hide HasW, UPW;
    forall u | IsUser(t, u) && u != v ensures t.maps[u].frame != x && (Exposed(t, u) <==> Exposed(s, u)) {
      assert IsUser(s, u);
      forall w ensures Writes(t, w, t.maps[u].frame) <==> Writes(s, w, t.maps[u].frame) {}
    }
    forall y, z | IsUser(t, y) && Writes(t, z, t.maps[y].frame) ensures y == z || (y == q && z == p) {
      assert z != v && y != v ==> Writes(s, z, s.maps[y].frame);
    }
  }

  /** A store to a page that nobody else can write shows in that page. */
  lemma StoreSeen(a: Machine, b: Machine, v: Page, off: nat, word: Word)
    requires Inv(a.s, {}) && |a.mem| == |a.s.ref| && b.s == a.s && off < 1024 && IsUser(a.s, v) && HasW(a.s.maps[v].flags)
    requires forall u | Writes(a.s, u, a.s.maps[v].frame) :: u == v
    requires var f := a.s.maps[v].frame; f < |a.mem| && |a.mem[f]| == 1024 && b.mem == PageWords.Poke(a.mem, f, off, word)
    ensures v in View(a) && |View(a)[v]| == 1024 && View(b) == View(a)[v := View(a)[v][off := word]]
  {
    hide Inv, HasW, View, Exposed;
    WriterIsVisible(a.s, v);
    Seen(a, v);
    forall u ensures (u in View(b) <==> u in View(a)) && (u != v && u in View(b) ==> View(b)[u] == View(a)[u]) {
      Visible(a, u);
      Visible(b, u);
      if u != v && IsUser(a.s, u) && a.s.maps[u].frame == a.s.maps[v].frame {
        AlsoExposed(a.s, v, u);
      }
    }
    Visible(b, v);
  }

  lemma AlsoExposed(s: Space, v: Page, u: Page)
    requires IsUser(s, v) && HasW(s.maps[v].flags) && IsUser(s, u) && u != v && s.maps[u].frame == s.maps[v].frame
    requires forall w | Writes(s, w, s.maps[v].frame) :: w == v
    ensures Exposed(s, u)
  {
    hide HasW;
    var f := s.maps[u].frame;
    assert Writes(s, v, f) && (HasW(s.maps[u].flags) <==> Writes(s, u, f));
  }

  /** Copying a whole page onto one that nobody else can see. */
  lemma CopySeen(a: Machine, b: Machine, v: Page, w: Page)
    requires Inv(a.s, {}) && |a.mem| == |a.s.ref| && b.s == a.s && IsUser(a.s, v) && IsUser(a.s, w) && !Exposed(a.s, v) && !Exposed(a.s, w)
    requires forall u | IsUser(a.s, u) && u != w && a.s.maps[u].frame == a.s.maps[w].frame :: Exposed(a.s, u)
    requires var f, g := a.s.maps[v].frame, a.s.maps[w].frame; f < |a.mem| && g < |a.mem| && f != g && b.mem == a.mem[g := a.mem[f]]
    ensures v in View(a) && View(b) == View(a)[w := View(a)[v]]
  {
    hide Inv, HasW, View, Exposed;
    Seen(a, v);
    Seen(a, w);
    forall u ensures (u in View(b) <==> u in View(a)) && (u != w && u in View(b) ==> View(b)[u] == View(a)[u]) {
      Visible(a, u);
      Visible(b, u);
    }
    Visible(b, w);
  }

  // ---- Fresh and temporary pages ----

  /** A fresh page is zero and private. */
  lemma FreshSeen(a: Machine, b: Machine, v: Page, x: nat)
    requires Between(a, b, x) && CowInv(a.s) && Unmapped(a.s, x) && x < |b.mem| && b.mem[x] == PageWords.ZeroPage() && v.slot.dir != a.s.kern
    requires b.s.maps == a.s.maps[v := Entry(x, UPW)]
    ensures CowInv(b.s) && View(b) == View(a)[v := PageWords.ZeroPage()]
  {
    hide Inv, HasW, View, Exposed, CowInv, Between, UPW, Entry;
    BetweenFacts(a, b, x);
    FreshCow(a.s, b.s, v, x);
    var e := View(a)[v := PageWords.ZeroPage()];
    forall u ensures (u in View(b) <==> u in e) && (u in View(b) ==> View(b)[u] == e[u]) {
      Visible(a, u);
      Visible(b, u);
      CowShowsAll(a.s, u);
      CowShowsAll(b.s, u);
      if u != v && IsUser(b.s, u) {
        FrameInMemory(b.s, u);
        PgfaultLib.UserMapped(a.s, u);
        Held(a, b, x, u);
      }
    }
  }

  lemma FreshCow(s: Space, t: Space, v: Page, x: nat)
    requires CowInv(s) && t.kern == s.kern && Unmapped(s, x) && t.maps == s.maps[v := Entry(x, UPW)]
    ensures CowInv(t)
  {
    hide HasW, UPW;
    forall y, z | IsUser(t, y) && Writes(t, z, t.maps[y].frame) ensures y == z {
      assert y != v ==> IsUser(s, y);
      assert z != v ==> IsUser(s, z);
      assert z != v && y != v ==> Writes(s, z, s.maps[y].frame);
    }
  }

  /** No writable frame is shared, but by the pages p and q. */
  ghost predicate PairShares(s: Space, p: Page, q: Page) {
    forall u, y | IsUser(s, u) && Writes(s, y, s.maps[u].frame) :: u == y || (u in {p, q} && y in {p, q})
  }

  /** A private page v shown at a temporary page w as well: whoever maps the frame is v or w. */
  lemma LentSeen(a: Machine, b: Machine, v: Page, w: Page)
    requires Between(a, b, |a.mem|) && CowInv(a.s) && IsUser(a.s, v) && HasW(a.s.maps[v].flags) && w.slot.dir != a.s.kern && v != w
    requires b.s.maps == a.s.maps[w := Entry(a.s.maps[v].frame, UPW)]
    ensures v in View(a) && View(b) == View(a)[w := View(a)[v]]
    ensures PairShares(b.s, v, w)
  {
    hide Inv, HasW, View, Exposed, CowInv, Between, UPW;
    BetweenFacts(a, b, |a.mem|);
    LentCow(a.s, b.s, v, w);
    CowShowsAll(a.s, v);
    Seen(a, v);
    var e := View(a)[w := View(a)[v]];
    forall u ensures (u in View(b) <==> u in e) && (u in View(b) ==> View(b)[u] == e[u]) {
      Visible(a, u);
      Visible(b, u);
      CowShowsAll(a.s, u);
      if IsUser(b.s, u) {
        FrameInMemory(b.s, u);
        Held(a, b, |a.mem|, u);
      }
    }
  }

  lemma LentCow(s: Space, t: Space, v: Page, w: Page)
    requires CowInv(s) && t.kern == s.kern && IsUser(s, v) && HasW(s.maps[v].flags) && w.slot.dir != s.kern && v != w
    requires t.maps == s.maps[w := Entry(s.maps[v].frame, UPW)]
    ensures PairShares(t, v, w)
    ensures forall u | IsUser(t, u) :: !Exposed(t, u)
  {
    UpwOk();
    hide HasW, UPW;
    var f := s.maps[v].frame;
    assert Writes(s, v, f);
    forall u | IsUser(t, u) && u != w && t.maps[u].frame == f ensures u == v {}
    forall u, y | IsUser(t, u) && Writes(t, y, t.maps[u].frame) ensures u == y || (u in {v, w} && y in {v, w}) {
      assert y != w ==> Writes(s, y, t.maps[u].frame);
      assert y == w ==> Writes(s, v, t.maps[u].frame);
    }
  }

  /** The temporary page goes. */
  lemma ReturnedSeen(a: Machine, b: Machine, v: Page, w: Page)
    requires Between(a, b, |a.mem|) && b.s.maps == a.s.maps - {w}
    requires PairShares(a.s, v, w)
    requires v in a.s.maps && HasW(a.s.maps[v].flags)
    ensures CowInv(b.s) && View(b) == View(a) - {w}
  {
    hide Inv, HasW, View, Exposed, Between, UPW;
    BetweenFacts(a, b, |a.mem|);
    ReturnedCow(a.s, b.s, v, w);
    forall u ensures (u in View(b) <==> u in View(a) && u != w) && (u in View(b) ==> View(b)[u] == View(a)[u]) {
      Visible(a, u);
      Visible(b, u);
      if IsUser(b.s, u) {
        FrameInMemory(b.s, u);
        Held(a, b, |a.mem|, u);
      }
    }
  }

  lemma ReturnedCow(s: Space, t: Space, v: Page, w: Page)
    requires t.kern == s.kern && t.maps == s.maps - {w} && v in s.maps && HasW(s.maps[v].flags)
    requires PairShares(s, v, w)
    ensures CowInv(t) && forall u | IsUser(t, u) :: !Exposed(t, u) && !Exposed(s, u)
  {
    hide HasW;
    forall u, y | IsUser(t, u) && Writes(t, y, t.maps[u].frame) ensures u == y {
      assert Writes(s, y, s.maps[u].frame);
    }
    forall u | IsUser(t, u) ensures !Exposed(t, u) && !Exposed(s, u) {}
  }

  /** Copying page v onto the temporary page t is copying it onto the page w that t stands for. */
  lemma CopyThrough(a: Machine, b: Machine, v: Page, w: Page, t: Page)
    requires Inv(a.s, {}) && |a.mem| == |a.s.ref| && b.s == a.s && IsUser(a.s, v) && IsUser(a.s, w) && v !in {w, t} && w != t
    requires PairShares(a.s, w, t) && HasW(a.s.maps[w].flags) && !Exposed(a.s, v)
    requires var f, g := a.s.maps[v].frame, a.s.maps[w].frame; f < |a.mem| && g < |a.mem| && b.mem == a.mem[g := a.mem[f]]
    ensures v in View(a) && a.s.maps[v].frame != a.s.maps[w].frame && View(b) - {t} == View(a)[w := View(a)[v]] - {t}
  {
    hide Inv, HasW, View, Exposed;
    Seen(a, v);
    WriterIsVisible(a.s, w);
    Seen(a, w);
    assert Writes(a.s, w, a.s.maps[w].frame);
    forall u | u != t ensures (u in View(b) <==> u in View(a)) && (u != w && u in View(b) ==> View(b)[u] == View(a)[u]) {
      Visible(a, u);
      Visible(b, u);
    }
    Visible(b, w);
  }

  lemma PairOfNone(s: Space, p: Page, q: Page)
    requires CowInv(s)
    ensures PairShares(s, p, q)
  {
  }
}
