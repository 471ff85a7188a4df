/** The tally is right at every point of fork: it tells which of the parent's pages are writable, and
    what the next fault gives back. */
module ForkTally {
  import opened Mmu
  import opened PageSpace
  import PageWords
  import opened Cow
  import opened LibCalls
  import PgfaultLib
  import opened ForkPlan

  /** The tally's pages are pages of the range, and only pages numbered below n are in the child. */
  ghost predicate RightPages(s: Space, pd: nat, n: nat, o: Tally) {
    && (forall v | v in o.writable || v in o.moved || v in o.left || v in o.shared :: RangePage(s, pd, v))
    && (forall v | v in o.left || v in o.shared :: PageWords.Number(v) < n)
  }

  ghost predicate RightRights(s: Space, t: Space, pd: nat, o: Tally) {
    forall v | RangePage(s, pd, v) :: v in t.maps && (v in o.writable <==> HasW(t.maps[v].flags))
  }

  ghost predicate RightShared(t: Space, cd: nat, o: Tally) {
    forall v | v in o.shared :: v in t.maps && Twin(v, cd) in t.maps && t.maps[Twin(v, cd)].frame == t.maps[v].frame
  }

  /** Page u maps frame f since before fork, or as the child's copy of a page that did. */
  ghost predicate FromBefore(s: Space, pd: nat, cd: nat, o: Tally, u: Page, f: nat) {
    if u.slot.dir == cd then Twin(u, pd) in o.left && Twin(u, pd) in s.maps && s.maps[Twin(u, pd)].frame == f
    else u in s.maps && s.maps[u].frame == f && u !in o.moved
  }

  /** Who maps the frame of page v, if v was not moved. */
  ghost predicate Unmoved(s: Space, t: Space, pd: nat, cd: nat, o: Tally, v: Page)
    requires v in s.maps
  {
    && v in t.maps && t.maps[v].frame == s.maps[v].frame
    && forall u | u in t.maps && u.slot.dir != t.kern :: t.maps[u].frame == s.maps[v].frame ==> FromBefore(s, pd, cd, o, u, s.maps[v].frame)
  }

  ghost predicate RightFrames(s: Space, t: Space, pd: nat, cd: nat, o: Tally) {
    forall v | RangePage(s, pd, v) && v !in o.moved :: Unmoved(s, t, pd, cd, o, v)
  }

  /** Child's copies that map the frames from before. */
  ghost predicate RightCopies(s: Space, t: Space, cd: nat, o: Tally) {
    forall v | v in o.left :: v in s.maps && Twin(v, cd) in t.maps && t.maps[Twin(v, cd)].frame == s.maps[v].frame
  }

  /** A page that was moved, and has not been mapped into the child since, is alone with its frame. */
  ghost predicate Alone(t: Space, v: Page) {
    && v in t.maps && t.maps[v].frame < |t.boot| && t.boot[t.maps[v].frame] == 0
    && forall u | IsUser(t, u) && t.maps[u].frame == t.maps[v].frame :: u == v
  }

  ghost predicate RightAlone(t: Space, o: Tally) {
    forall v | v in o.moved && v !in o.shared :: Alone(t, v)
  }

  /** n: pages numbered below n have been mapped into the child. */
  ghost predicate Accounted(s: Space, t: Space, pd: nat, cd: nat, n: nat, o: Tally) {
    && RightPages(s, pd, n, o) && RightRights(s, t, pd, o) && RightShared(t, cd, o) && RightFrames(s, t, pd, cd, o)
    && RightCopies(s, t, cd, o) && RightAlone(t, o)
  }

  // ---- Steps ----

  lemma AccountedStart(s: Space, t: Space, pd: nat, cd: nat)
    requires t.maps == s.maps && t.kern == s.kern && (forall v: Page | v in s.maps :: v.slot.dir != cd)
    ensures Accounted(s, t, pd, cd, 2048, AtStart(s, pd))
  {
    hide HasW, InRange;
  }

  /** Only the mappings count. */
  lemma AccountedSame(s: Space, t: Space, u: Space, pd: nat, cd: nat, n: nat, o: Tally)
    requires Accounted(s, t, pd, cd, n, o) && u.maps == t.maps && u.kern == t.kern && u.boot == t.boot
    ensures Accounted(s, u, pd, cd, n, o)
  {
    hide HasW, InRange, FromBefore;
  }

  lemma AccountedLater(s: Space, t: Space, pd: nat, cd: nat, n: nat, m: nat, o: Tally)
    requires Accounted(s, t, pd, cd, n, o) && n <= m
    ensures Accounted(s, t, pd, cd, m, o)
  {
    hide RightRights, RightShared, RightFrames, RightCopies, RightAlone, RangePage;
  }

  /** A page fault. */
  lemma AccountedFault(s: Space, t: Space, u: Space, pd: nat, cd: nat, n: nat, o: Tally, v: Page, x: nat, late: bool)
    requires Accounted(s, t, pd, cd, n, o) && RangePage(s, pd, v) && v !in o.writable
    requires pd != cd && u.kern == t.kern == s.kern && u.boot == t.boot && pd != s.kern && cd != s.kern
    requires u.maps == t.maps[v := Entry(x, UPW)] && Unmapped(t, x) && x < |u.boot| && u.boot[x] == 0
    ensures Accounted(s, u, pd, cd, n, AfterFault(s, o, v, late))
  {
    UpwOk();
    hide HasW, InRange, Gives, UPW, FromBefore;
    var p := AfterFault(s, o, v, late);
    forall y | RangePage(s, pd, y) && y !in p.moved ensures Unmoved(s, u, pd, cd, p, y) {
      assert Unmoved(s, t, pd, cd, o, y);
      assert IsUser(t, y);
      FaultBefore(s, t, pd, cd, o, p, v);
    }
    forall y | y in p.moved && y !in p.shared ensures Alone(u, y) {
      if y != v {
        assert Alone(t, y) && IsUser(t, y);
      }
    }
    forall y | y in p.left ensures y in s.maps && Twin(y, cd) in u.maps && u.maps[Twin(y, cd)].frame == s.maps[y].frame {}
  }

  lemma FaultBefore(s: Space, t: Space, pd: nat, cd: nat, o: Tally, p: Tally, v: Page)
    requires p.left == o.left && p.moved == o.moved + {v}
    ensures forall u, f: nat | u != v :: FromBefore(s, pd, cd, o, u, f) ==> FromBefore(s, pd, cd, p, u, f)
  {
  }

  /** Page v is mapped into the child. */
  lemma AccountedChild(s: Space, t: Space, u: Space, pd: nat, cd: nat, n: nat, o: Tally, v: Page, perm: bv12)
    requires Accounted(s, t, pd, cd, n, o) && RangePage(s, pd, v) && PageWords.Number(v) == n
    requires pd != cd && u.kern == t.kern == s.kern && u.boot == t.boot && pd != s.kern && cd != s.kern
    requires Twin(v, cd) !in t.maps && u.maps == t.maps[Twin(v, cd) := Entry(t.maps[v].frame, perm)]
    ensures Accounted(s, u, pd, cd, n + 1, InChild(o, v))
  {
    hide HasW, InRange, Gives;
    var p, w := InChild(o, v), Twin(v, cd);
    forall y | RangePage(s, pd, y) && y !in p.moved ensures Unmoved(s, u, pd, cd, p, y) {
      assert Unmoved(s, t, pd, cd, o, y);
      TwinBack(v, pd, cd);
      assert IsUser(t, v);
    }
    forall y | y in p.moved && y !in p.shared ensures Alone(u, y) {
      assert Alone(t, y) && IsUser(t, v);
    }
    forall y | y in p.shared ensures y in u.maps && Twin(y, cd) in u.maps && u.maps[Twin(y, cd)].frame == u.maps[y].frame {
      TwinDiffers(y, v, pd, cd);
    }
  }

  lemma TwinBack(v: Page, pd: nat, cd: nat)
    requires v.slot.dir == pd
    ensures Twin(Twin(v, cd), pd) == v
  {
  }

  lemma TwinDiffers(y: Page, v: Page, pd: nat, cd: nat)
    requires y.slot.dir == v.slot.dir == pd
    ensures Twin(y, cd) == Twin(v, cd) <==> y == v
  {
  }

  /** The parent's page is write-protected. */
  lemma AccountedSealed(s: Space, t: Space, u: Space, pd: nat, cd: nat, n: nat, o: Tally, v: Page, perm: bv12)
    requires Accounted(s, t, pd, cd, n, o) && RangePage(s, pd, v) && pd != cd && u.kern == t.kern == s.kern && u.boot == t.boot && pd != s.kern
    requires u.maps == t.maps[v := Entry(t.maps[v].frame, perm)] && !HasW(Entry(t.maps[v].frame, perm).flags)
    ensures Accounted(s, u, pd, cd, n, Sealed(o, v))
  {
    hide HasW, InRange, Gives;
    var p := Sealed(o, v);
    forall y | RangePage(s, pd, y) && y !in p.moved ensures Unmoved(s, u, pd, cd, p, y) {
      assert Unmoved(s, t, pd, cd, o, y);
    }
    forall y | y in p.moved && y !in p.shared ensures Alone(u, y) {
      assert Alone(t, y);
    }
  }

  /** The child's exception page is allocated. */
  lemma AccountedStack(s: Space, t: Space, u: Space, pd: nat, cd: nat, n: nat, o: Tally, x: nat)
    requires Accounted(s, t, pd, cd, n, o) && pd != cd && u.kern == t.kern == s.kern && u.boot == t.boot && pd != s.kern && cd != s.kern
    requires u.maps == t.maps[ExceptionPage(cd) := Entry(x, UPW)] && Unmapped(t, x) && ExceptionPage(cd) !in t.maps
    ensures Accounted(s, u, pd, cd, n, o)
  {
    hide HasW, InRange, Gives, UPW, FromBefore;
    forall y | RangePage(s, pd, y) && y !in o.moved ensures Unmoved(s, u, pd, cd, o, y) {
      assert Unmoved(s, t, pd, cd, o, y) && IsUser(t, y);
    }
    forall y | y in o.moved && y !in o.shared ensures Alone(u, y) {
      assert Alone(t, y) && IsUser(t, y);
    }
  }

  // ---- What a fault gives back ----

  ghost function Twins(pages: set<Page>, cd: nat): set<Page> { set v | v in pages :: Twin(v, cd) }

  lemma TwinsSize(pages: set<Page>, pd: nat, cd: nat)
    requires forall v | v in pages :: v.slot.dir == pd
    ensures |Twins(pages, cd)| == |pages|
    decreases |pages|
  {
    if pages != {} {
      var v :| v in pages;
      var rest := pages - {v};
      TwinsSize(rest, pd, cd);
      forall u | u in rest ensures Twin(u, cd) != Twin(v, cd) {
        TwinDiffers(u, v, pd, cd);
      }
      assert Twins(pages, cd) == Twins(rest, cd) + {Twin(v, cd)};
    }
  }

  /** The references of a frame that an unmoved page maps. */
  lemma RefsOfUnmoved(s: Space, t: Space, pd: nat, cd: nat, n: nat, o: Tally, v: Page)
    requires Accounted(s, t, pd, cd, n, o) && RangePage(s, pd, v) && v !in o.moved && pd != cd && t.kern == s.kern && pd != s.kern && cd != s.kern
    requires forall u: Page | u.slot.dir != cd && !(u.slot.dir == pd && InRange(u)) :: Lookup(t.maps, u) == Lookup(s.maps, u)
    requires forall u: Page | u in s.maps :: u.slot.dir != cd
    ensures var f := s.maps[v].frame;
            DataRefs(t, f) == DataRefs(s, f) - Having(s, o.moved, f) + Twins(Having(s, o.left, f), cd)
  {
    hide HasW, InRange, RightRights, RightShared, RightAlone;
    var f := s.maps[v].frame;
    assert Unmoved(s, t, pd, cd, o, v);
    var a, b := DataRefs(t, f), DataRefs(s, f) - Having(s, o.moved, f) + Twins(Having(s, o.left, f), cd);
    forall u | u in a ensures u in b {
      assert FromBefore(s, pd, cd, o, u, f);
      if u.slot.dir == cd {
        assert Twin(Twin(u, pd), cd) == u;
      }
    }
    forall u | u in b ensures u in a {
      if u.slot.dir == cd {
        var y :| y in Having(s, o.left, f) && Twin(y, cd) == u;
        assert y in o.left;
      } else if u.slot.dir == pd && InRange(u) {
        assert Unmoved(s, t, pd, cd, o, u);
      } else {
        assert Lookup(t.maps, u) == Lookup(s.maps, u);
      }
    }
  }

  lemma GivesReleased(s: Space, t: Space, pd: nat, cd: nat, n: nat, o: Tally, v: Page)
    requires Inv(s, {}) && Inv(t, {}) && t.boot == s.boot && |t.ref| == |s.ref| && t.kern == s.kern && pd != cd && pd != s.kern && cd != s.kern && cd !in s.dirs
    requires forall u: Page | u.slot.dir != cd && !(u.slot.dir == pd && InRange(u)) :: Lookup(t.maps, u) == Lookup(s.maps, u)
    requires Accounted(s, t, pd, cd, n, o) && RangePage(s, pd, v)
    ensures Released(t, v) == Gives(s, o, v)
  {
    hide Inv, HasW, InRange, FromBefore;
    var w := Twin(v, cd);
    NoPageOf(s, cd);
    assert IsUser(t, v);
    PgfaultLib.DataCount(t, v);
    var f := t.maps[v].frame;
    if v in o.moved {
      if v in o.shared {
        PgfaultLib.TwoMappings(t, v, w, f);
      } else {
        assert Alone(t, v);
        assert DataRefs(t, f) == {v};
      }
    } else {
      assert Unmoved(s, t, pd, cd, o, v);
      PgfaultLib.DataCount(s, v);
      RefsOfUnmoved(s, t, pd, cd, n, o, v);
      TwinsSize(Having(s, o.left, f), pd, cd);
      assert Having(s, o.moved, f) <= DataRefs(s, f);
      assert DataRefs(s, f) !! Twins(Having(s, o.left, f), cd);
      assert DataRefs(s, f) == (DataRefs(s, f) - Having(s, o.moved, f)) + Having(s, o.moved, f);
    }
  }

  lemma NoPageOf(s: Space, cd: nat)
    requires Inv(s, {}) && cd !in s.dirs && cd != s.kern
    ensures forall u: Page | u in s.maps :: u.slot.dir != cd
  {
  }
}
