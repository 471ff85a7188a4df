/** The state between two calls of fork (lib/fork.c): what has been mapped, counted and allocated
    when it has reached page n, while the parent's own stores take page faults in between. */
module ForkSteps {
  import opened Basics
  import opened Mmu
  import opened PageSpace
  import opened PageWords
  import opened Cow
  import opened LibCalls
  import opened PgfaultLib

  // ---- What fork needs ----

  /** The page tables that the child needs for the pages numbered below n. */
  ghost function Tables(s: Space, pd: nat, n: nat): set<nat> {
    set v | v in s.maps && v.slot.dir == pd && InRange(v) && Number(v) < n :: v.slot.pdx
  }

  /** Pages that fork allocates: the child's directory and tables, its exception page, and the
      table of PFTEMP if the parent has none. */
  ghost function ForkCost(s: Space, pd: nat): nat {
    1 + |Tables(s, pd, EXCEPTION_PN) + {954}| + 1 + (if Slot(pd, 1) in s.tabs then 0 else 1)
  }

  /** The pages of pd numbered from n on that map frame f. */
  ghost function Todo(t: Space, pd: nat, n: nat, f: nat): set<Page> {
    set v | v in t.maps && v.slot.dir == pd && InRange(v) && n <= Number(v) && t.maps[v].frame == f
  }

  /** No 16-bit count overflows: a frame gains one reference for every page of the parent's
      range that maps it. */
  ghost predicate ForkRoom(t: Space, pd: nat, n: nat) {
    forall f: nat | f < |t.ref| :: t.ref[f] + |Todo(t, pd, n, f)| < 65536
  }

  // ---- The loop's state ----

  ghost predicate SameRights(a: bv12, b: bv12) {
    (Shareable(a) <==> Shareable(b)) && (HasU(a) ==> HasU(b))
  }

  /** The child's page v: a copy of one of the parent's numbered below n, not writable; or its
      exception page, once that is at frame stack. */
  ghost predicate ChildPage(s: Space, pd: nat, cd: nat, n: nat, stack: Option<nat>, v: Page, entry: Word) {
    var u := Twin(v, pd);
    || (u in s.maps && InRange(u) && Number(u) < n && entry.flags == Entry(0, DupPerm(s.maps[u].flags)).flags)
    || (v == ExceptionPage(cd) && stack.Some? && entry == Entry(stack.value, UPW))
  }

  /** The mappings: the parent's own faults may have given it private copies, with the same
      rights; everything else is as it was. */
  ghost predicate ForkMaps(s: Space, t: Space, pd: nat, cd: nat, n: nat, stack: Option<nat>, complete: bool) {
    && (forall v: Page | v.slot.dir != cd && !(v.slot.dir == pd && InRange(v)) :: Lookup(t.maps, v) == Lookup(s.maps, v))
    && (forall v: Page | v.slot.dir == pd && InRange(v) ::
          (v in t.maps <==> v in s.maps) && (v in s.maps ==> SameRights(s.maps[v].flags, t.maps[v].flags)))
    && (forall v: Page | v.slot.dir == cd && v in t.maps :: ChildPage(s, pd, cd, n, stack, v, t.maps[v]))
    && (complete ==> forall v | v in s.maps && v.slot.dir == pd && InRange(v) && Number(v) < n :: Twin(v, cd) in t.maps)
    && (stack.Some? ==> ExceptionPage(cd) in t.maps)
  }

  function TempTable(s: Space, t: Space, pd: nat): nat {
    if Slot(pd, 1) in t.tabs && Slot(pd, 1) !in s.tabs then 1 else 0
  }

  ghost function ChildTables(s: Space, pd: nat, n: nat, stack: Option<nat>): set<nat> {
    if stack.Some? then Tables(s, pd, n) + {954} else Tables(s, pd, n)
  }

  /** fork started in s and has treated the pages numbered below n. complete: no call failed, and else
      no page is free any more, for good, and the child has no table for the pages still to come. net: pages
      that the parent's own faults have taken. */
  ghost predicate Progress(s: Space, t: Space, pd: nat, cd: nat, n: nat, stack: Option<nat>, complete: bool, net: nat) {
    && pd in s.dirs && cd !in s.dirs && cd != s.kern && pd != s.kern && PfTemp(pd) !in s.maps
    && t.kern == s.kern && t.boot == s.boot && t.dirs == s.dirs + {cd} && |t.ref| == |s.ref|
    && ForkMaps(s, t, pd, cd, n, stack, complete) && ForkRoom(t, pd, n)
    && (forall k: Slot | k.dir != cd && k != Slot(pd, 1) :: k in t.tabs <==> k in s.tabs)
    && (Slot(pd, 1) in s.tabs ==> Slot(pd, 1) in t.tabs)
    && if complete then
         && (forall i: nat :: Slot(cd, i) in t.tabs <==> i in ChildTables(s, pd, n, stack))
         && |t.free| == |s.free| - 1 - |ChildTables(s, pd, n, stack)| - (if stack.Some? then 1 else 0) - TempTable(s, t, pd) - net
       else && |s.free| < ForkCost(s, pd) + net && t.free == [] && stack == None
            && forall i: nat | Slot(cd, i) in t.tabs :: (i + 1) * 1024 < n
  }

  // ---- Room ----

  /** Counts of mapped frames follow from the mappings. */
  lemma RoomFromMaps(t: Space, u: Space, pd: nat, n: nat, m: nat, x: nat)
    requires Inv(t, {}) && Inv(u, {}) && u.kern == t.kern && u.boot == t.boot && |u.ref| == |t.ref| && pd != t.kern && ForkRoom(t, pd, n)
    requires forall g: nat | Todo(u, pd, m, g) != {} && g != x ::
               !Unmapped(t, g) && |DataRefs(u, g)| + |Todo(u, pd, m, g)| <= |DataRefs(t, g)| + |Todo(t, pd, n, g)|
    requires Todo(u, pd, m, x) != {} ==> x < |u.boot| && u.boot[x] == 0 && |DataRefs(u, x)| + |Todo(u, pd, m, x)| <= 4
    ensures ForkRoom(u, pd, m)
  {
    hide Inv, HasW, InRange, DataRefs, Todo;
    forall g: nat | g < |u.ref| ensures u.ref[g] + |Todo(u, pd, m, g)| < 65536 {
      CountBounds(u, g);
      if Todo(u, pd, m, g) != {} {
        TodoIsUser(u, pd, m, g);
        if g != x {
          CountBounds(t, g);
        }
      }
    }
  }

  lemma CountBounds(s: Space, g: nat)
    requires Inv(s, {}) && g < |s.ref|
    ensures |s.ref| == |s.boot| && s.ref[g] < 65536 && (!Unmapped(s, g) ==> s.ref[g] == s.boot[g] + |DataRefs(s, g)|)
  {
    if !Unmapped(s, g) {
      var v :| IsUser(s, v) && s.maps[v].frame == g;
      DataCount(s, v);
    }
  }

  lemma TodoIsUser(s: Space, pd: nat, n: nat, g: nat)
    requires Todo(s, pd, n, g) != {} && pd != s.kern
    ensures !Unmapped(s, g)
  {
    var v :| v in Todo(s, pd, n, g);
    assert IsUser(s, v);
  }

  /** Page n can take another reference. */
  lemma PageHasRoom(t: Space, pd: nat, n: nat, w: Page)
    requires Inv(t, {}) && ForkRoom(t, pd, n) && pd != t.kern && PageNo(pd, n) in t.maps && InRange(PageNo(pd, n))
    ensures Room(t, t.maps[PageNo(pd, n)].frame, w)
  {
    hide Inv, HasW, InRange;
    var v := PageNo(pd, n);
    FrameInMemory(t, v);
    var f := t.maps[v].frame;
    assert v in Todo(t, pd, n, f);
    assert |Todo(t, pd, n, f)| >= 1;
  }

  // ---- After sys_exofork ----

  lemma Started(s: Space, pd: nat)
    requires Inv(s, {}) && s.free != [] && pd in s.dirs && PfTemp(pd) !in s.maps && ForkRoom(s, pd, 2048)
    ensures Progress(s, NewDir(s), pd, s.free[0], 2048, None, true, 0) && Inv(NewDir(s), {})
  {
    hide HasW, HasCow, HasU, Entry, DupPerm, Counted, Owned, Refs, Mapped, FreeList, Todo;
    var t, cd := NewDir(s), s.free[0];
    NewDirKeeps(s, {});
    KernOwnsNone(s, pd);
    FreeIsNotKern(s, cd);
    assert Tables(s, pd, 2048) == {};
    NewDirRoom(s, pd);
  }

  lemma FreeIsNotKern(s: Space, f: nat)
    requires Inv(s, {}) && f in s.free
    ensures f != s.kern
  {
  }

  lemma NewDirRoom(s: Space, pd: nat)
    requires Inv(s, {}) && s.free != [] && pd != s.kern && ForkRoom(s, pd, 2048) && Inv(NewDir(s), {})
    ensures ForkRoom(NewDir(s), pd, 2048)
  {
    hide Inv, HasW, InRange;
    var t := NewDir(s);
    assert t.maps == s.maps && t.kern == s.kern && t.boot == s.boot;
    forall g: nat ensures DataRefs(t, g) == DataRefs(s, g) && Todo(t, pd, 2048, g) == Todo(s, pd, 2048, g) {}
    forall g: nat | Todo(t, pd, 2048, g) != {} ensures !Unmapped(s, g) {
      TodoIsUser(s, pd, 2048, g);
    }
    SameSize(s);
    RoomFromMaps(s, t, pd, 2048, 2048, |s.ref|) by { NothingBeyond(t, pd, 2048, |s.ref|); }
  }

  lemma SameSize(s: Space)
    requires s.free != []
    ensures |NewDir(s).ref| == |s.ref|
  {
  }

  lemma NothingBeyond(t: Space, pd: nat, n: nat, g: nat)
    requires Inv(t, {}) && g >= |t.ref| && pd != t.kern
    ensures Todo(t, pd, n, g) == {}
  {
    hide Inv, HasW;
    if Todo(t, pd, n, g) != {} {
      var v :| v in Todo(t, pd, n, g);
      FrameInMemory(t, v);
      assert false;
    }
  }

  // ---- Pages that are not there ----

  /** No page numbered from n up to m is mapped in the range. */
  ghost predicate NoneBetween(s: Space, pd: nat, n: nat, m: nat) {
    forall v | v in s.maps && v.slot.dir == pd && InRange(v) :: Number(v) < n || m <= Number(v)
  }

  lemma Skip(s: Space, t: Space, pd: nat, cd: nat, n: nat, m: nat, complete: bool, net: nat)
    requires Progress(s, t, pd, cd, n, None, complete, net) && n <= m && NoneBetween(s, pd, n, m)
    ensures Progress(s, t, pd, cd, m, None, complete, net)
  {
    hide HasW, HasCow, HasU, Entry, DupPerm, InRange, SameRights;
    assert Tables(s, pd, n) == Tables(s, pd, m);
    forall g: nat | g < |t.ref| ensures t.ref[g] + |Todo(t, pd, m, g)| < 65536 {
      assert Todo(t, pd, m, g) <= Todo(t, pd, n, g);
      SubsetSize(Todo(t, pd, m, g), Todo(t, pd, n, g));
    }
  }

  lemma TableMissing(s: Space, pd: nat, i: nat)
    requires Shaped(s) && Slot(pd, i) !in s.tabs
    ensures NoneBetween(s, pd, i * 1024, (i + 1) * 1024)
  {
    forall v | v in s.maps && v.slot.dir == pd && InRange(v) ensures Number(v) < i * 1024 || (i + 1) * 1024 <= Number(v) {
      assert v.slot == Slot(pd, v.slot.pdx);
    }
  }

  lemma NoPage(s: Space, pd: nat, n: nat)
    requires PageNo(pd, n) !in s.maps
    ensures NoneBetween(s, pd, n, n + 1)
  {
    forall v | v in s.maps && v.slot.dir == pd && InRange(v) ensures Number(v) != n {
      assert Number(v) == n ==> v == PageNo(pd, n);
    }
  }

  lemma PastTheRange(s: Space, pd: nat, m: nat)
    ensures NoneBetween(s, pd, EXCEPTION_PN, m)
  {
    forall v | v in s.maps && v.slot.dir == pd && InRange(v) ensures Number(v) < EXCEPTION_PN {
      BeforeException(v);
    }
  }

  // ---- One page ----

  lemma NumberedOnly(x: Page, v: Page, w: Page, n: nat)
    requires v == PageNo(v.slot.dir, n) && w == PageNo(w.slot.dir, n)
    ensures Number(x) == n && x.ptx < 1024 && x.slot.dir == v.slot.dir ==> x == v
    ensures var u := Twin(x, v.slot.dir); x.slot.dir == w.slot.dir && InRange(u) && Number(u) == n ==> x == w
    ensures Number(v) == n && Number(w) == n && Twin(w, v.slot.dir) == v && Twin(v, w.slot.dir) == w
    ensures Number(Twin(x, v.slot.dir)) == Number(x)
  {
  }

  lemma MoreTables(s: Space, pd: nat, n: nat)
    requires var v := PageNo(pd, n); v in s.maps && InRange(v)
    ensures Tables(s, pd, n + 1) == Tables(s, pd, n) + {n / 1024}
    ensures Tables(s, pd, n + 1) <= Tables(s, pd, EXCEPTION_PN)
  {
    var v := PageNo(pd, n);
    forall i | i in Tables(s, pd, n + 1) ensures i in Tables(s, pd, n) || i == n / 1024 {
      var w :| w in s.maps && w.slot.dir == pd && InRange(w) && Number(w) < n + 1 && w.slot.pdx == i;
      assert Number(w) == n ==> w == v;
    }
    BeforeException(v);
  }

  lemma WithOneMore(a: set<nat>, x: nat)
    ensures |a + {x}| == |a| + (if x in a then 0 else 1)
  {
    assert x in a ==> a + {x} == a;
  }

  /** Pages that fork has allocated by the time it has reached page n never exceed its cost. */
  lemma CostSoFar(s: Space, pd: nat, n: nat)
    ensures |Tables(s, pd, n)| <= |Tables(s, pd, EXCEPTION_PN) + {954}|
    ensures |Tables(s, pd, n) + {954}| <= |Tables(s, pd, EXCEPTION_PN) + {954}|
  {
    forall v ensures InRange(v) ==> Number(v) < EXCEPTION_PN { BeforeException(v); }
    assert Tables(s, pd, n) <= Tables(s, pd, EXCEPTION_PN);
    SubsetSize(Tables(s, pd, n), Tables(s, pd, EXCEPTION_PN) + {954});
    SubsetSize(Tables(s, pd, n) + {954}, Tables(s, pd, EXCEPTION_PN) + {954});
  }

  /** The child's mapping fails only for want of a page. */
  lemma DupFails(s: Space, t: Space, pd: nat, cd: nat, n: nat, complete: bool, net: nat)
    requires Progress(s, t, pd, cd, n, None, complete, net) && t.free == [] && Slot(cd, n / 1024) !in t.tabs
    requires var v := PageNo(pd, n); v in s.maps && InRange(v)
    ensures Progress(s, t, pd, cd, n + 1, None, false, net)
  {
    hide HasW, HasCow, HasU, InRange, SameRights, Entry, DupPerm, Tables, ForkMaps, ForkRoom;
    CostSoFar(s, pd, n);
    DupFailsMaps(s, t, pd, cd, n, complete);
    LessRoom(t, pd, n);
    forall i: nat | Slot(cd, i) in t.tabs ensures (i + 1) * 1024 < n + 1 {
      if complete {
        TableBefore(s, pd, n, i);
      }
    }
  }

  lemma DupFailsMaps(s: Space, t: Space, pd: nat, cd: nat, n: nat, complete: bool)
    requires ForkMaps(s, t, pd, cd, n, None, complete)
    ensures ForkMaps(s, t, pd, cd, n + 1, None, false)
  {
    hide HasW, HasCow, HasU, InRange, SameRights, DupPerm;
  }

  lemma LessRoom(t: Space, pd: nat, n: nat)
    requires ForkRoom(t, pd, n)
    ensures ForkRoom(t, pd, n + 1)
  {
    hide InRange;
    forall g: nat | g < |t.ref| ensures t.ref[g] + |Todo(t, pd, n + 1, g)| < 65536 {
      assert Todo(t, pd, n + 1, g) <= Todo(t, pd, n, g);
      SubsetSize(Todo(t, pd, n + 1, g), Todo(t, pd, n, g));
    }
  }

  lemma TableBefore(s: Space, pd: nat, n: nat, i: nat)
    requires i in Tables(s, pd, n)
    ensures i * 1024 < n
  {
    hide InRange;
  }

  /** The child has page n too. */
  lemma DupChild(s: Space, t: Space, u: Space, pd: nat, cd: nat, n: nat, complete: bool, net: nat)
    requires Progress(s, t, pd, cd, n, None, complete, net) && Inv(t, {}) && Inv(u, {})
    requires var v := PageNo(pd, n); v in s.maps && InRange(v) && v in t.maps
    requires var v, w := PageNo(pd, n), PageNo(cd, n);
             var f, perm := t.maps[v].frame, DupPerm(t.maps[v].flags);
             && Insert(t, f, w, perm) == Some(u) && u.maps == t.maps[w := Entry(f, perm)]
             && u.dirs == t.dirs && u.kern == t.kern && u.boot == t.boot && |u.ref| == |t.ref|
    ensures complete && Progress(s, u, pd, cd, n + 1, None, complete, net)
  {
    hide HasW, HasCow, HasU, Inv, InRange, DupPerm, Entry, Tables, ForkMaps, ForkRoom, Insert;
    var v, w := PageNo(pd, n), PageNo(cd, n);
    NumberedOnly(w, v, w, n);
    assert w !in t.maps by { NotYet(s, t, pd, cd, n, complete); }
    DupChildMaps(s, t, u, pd, cd, n, complete);
    DupChildRoom(t, u, pd, cd, n);
    FrameOfUser(t, v);
    InsertCost(t, {}, t.maps[v].frame, w, DupPerm(t.maps[v].flags));
    KeysGrow(t, u, w.slot);
    MoreTables(s, pd, n);
    WithOneMore(Tables(s, pd, n), n / 1024);
  }

  lemma FrameOfUser(t: Space, v: Page)
    requires Inv(t, {}) && IsUser(t, v)
    ensures t.maps[v].frame < |t.ref| && t.maps[v].frame !in t.free
  {
    InUse(t, v);
  }

  lemma NotYet(s: Space, t: Space, pd: nat, cd: nat, n: nat, complete: bool)
    requires ForkMaps(s, t, pd, cd, n, None, complete)
    ensures PageNo(cd, n) !in t.maps
  {
    hide HasW, HasCow, HasU, InRange, DupPerm, Entry;
    NumberedOnly(PageNo(cd, n), PageNo(pd, n), PageNo(cd, n), n);
  }

  lemma KeysGrow(t: Space, u: Space, k: Slot)
    requires u.tabs.Keys == t.tabs.Keys + {k}
    ensures forall l :: l in u.tabs <==> l in t.tabs || l == k
  {
    forall l ensures l in u.tabs <==> l in t.tabs || l == k {
      assert l in u.tabs <==> l in u.tabs.Keys;
      assert l in t.tabs <==> l in t.tabs.Keys;
    }
  }

  lemma SamePerm(a: bv12, b: bv12)
    requires SameRights(a, b)
    ensures DupPerm(a) == DupPerm(b)
  {
  }

  lemma DupChildMaps(s: Space, t: Space, u: Space, pd: nat, cd: nat, n: nat, complete: bool)
    requires ForkMaps(s, t, pd, cd, n, None, complete) && pd != cd
    requires var v := PageNo(pd, n); v in s.maps && InRange(v) && v in t.maps
    requires var v, w := PageNo(pd, n), PageNo(cd, n);
             u.maps == t.maps[w := Entry(t.maps[v].frame, DupPerm(t.maps[v].flags))]
    ensures ForkMaps(s, u, pd, cd, n + 1, None, complete)
  {
    hide HasW, HasCow, HasU, InRange, DupPerm, SameRights, Shareable;
    var v, w := PageNo(pd, n), PageNo(cd, n);
    SamePerm(s.maps[v].flags, t.maps[v].flags);
    forall x ensures Number(x) == n && x.ptx < 1024 && x.slot.dir == pd ==> x == v {
      NumberedOnly(x, v, w, n);
    }
    NumberedOnly(w, v, w, n);
    assert forall x | x in u.maps && x.slot.dir == cd :: x == w || x in t.maps;
    forall x | x in s.maps && x.slot.dir == pd && InRange(x) ensures x.ptx < 1024 { RangeFields(x); }
  }

  lemma RangeFields(x: Page)
    ensures InRange(x) ==> x.ptx < 1024
  {
  }

  lemma DupChildRoom(t: Space, u: Space, pd: nat, cd: nat, n: nat)
    requires Inv(t, {}) && Inv(u, {}) && ForkRoom(t, pd, n) && pd != t.kern && pd != cd && cd != t.kern
    requires var v, w := PageNo(pd, n), PageNo(cd, n);
             v in t.maps && InRange(v) && w !in t.maps && exists perm :: u.maps == t.maps[w := Entry(t.maps[v].frame, perm)]
    requires u.kern == t.kern && u.boot == t.boot && |u.ref| == |t.ref|
    ensures ForkRoom(u, pd, n + 1)
  {
    hide Inv, HasW, InRange;
    var v, w := PageNo(pd, n), PageNo(cd, n);
    var f := t.maps[v].frame;
    forall g: nat | Todo(u, pd, n + 1, g) != {}
      ensures !Unmapped(t, g) && |DataRefs(u, g)| + |Todo(u, pd, n + 1, g)| <= |DataRefs(t, g)| + |Todo(t, pd, n, g)|
    {
      var x :| x in Todo(u, pd, n + 1, g);
      assert IsUser(t, x);
      if g == f {
        assert DataRefs(u, g) == DataRefs(t, g) + {w};
        assert v in Todo(t, pd, n, g) && Todo(u, pd, n + 1, g) <= Todo(t, pd, n, g) - {v};
        SubsetSize(Todo(u, pd, n + 1, g), Todo(t, pd, n, g) - {v});
      } else {
        assert DataRefs(u, g) == DataRefs(t, g);
        assert Todo(u, pd, n + 1, g) <= Todo(t, pd, n, g);
        SubsetSize(Todo(u, pd, n + 1, g), Todo(t, pd, n, g));
      }
    }
    NothingBeyond(u, pd, n + 1, |u.ref|);
    RoomFromMaps(t, u, pd, n, n + 1, |u.ref|);
  }

  /** The parent's page is mapped again, without write permission. */
  lemma DupParent(s: Space, t: Space, u: Space, pd: nat, cd: nat, n: nat, complete: bool, net: nat, v: Page, flags: bv12)
    requires Progress(s, t, pd, cd, n, None, complete, net) && Inv(t, {}) && Inv(u, {})
    requires v.slot.dir == pd && v in s.maps && v in t.maps && InRange(v) && Shareable(flags) && Shareable(s.maps[v].flags)
    requires Insert(t, t.maps[v].frame, v, DupPerm(flags)) == Some(u)
    requires u.maps == t.maps[v := Entry(t.maps[v].frame, DupPerm(flags))]
    requires u.dirs == t.dirs && u.kern == t.kern && u.boot == t.boot && |u.ref| == |t.ref|
    ensures Progress(s, u, pd, cd, n, None, complete, net)
  {
    hide HasW, HasCow, HasU, Inv, Shaped, Shareable, InRange, DupPerm, Entry, Tables, ForkMaps, ForkRoom, Insert;
    FrameOfUser(t, v);
    InvShaped(t, {});
    MappedHasTable(t, v);
    InsertCost(t, {}, t.maps[v].frame, v, DupPerm(flags));
    KeysGrow(t, u, v.slot);
    DupParentMaps(s, t, u, pd, cd, n, complete, v, flags);
    DupParentRoom(t, u, pd, n, v);
  }

  lemma DupParentMaps(s: Space, t: Space, u: Space, pd: nat, cd: nat, n: nat, complete: bool, v: Page, flags: bv12)
    requires ForkMaps(s, t, pd, cd, n, None, complete) && pd != cd
    requires v.slot.dir == pd && v in s.maps && v in t.maps && InRange(v) && Shareable(flags) && Shareable(s.maps[v].flags)
    requires u.maps == t.maps[v := Entry(t.maps[v].frame, DupPerm(flags))]
    ensures ForkMaps(s, u, pd, cd, n, None, complete)
  {
    hide HasW, HasCow, HasU, InRange, DupPerm;
  }

  lemma DupParentRoom(t: Space, u: Space, pd: nat, n: nat, v: Page)
    requires Inv(t, {}) && Inv(u, {}) && ForkRoom(t, pd, n) && pd != t.kern && v in t.maps && v in u.maps
    requires u.maps == t.maps[v := u.maps[v]] && u.maps[v].frame == t.maps[v].frame
    requires u.kern == t.kern && u.boot == t.boot && |u.ref| == |t.ref|
    ensures ForkRoom(u, pd, n)
  {
    hide Inv, HasW, InRange;
    forall g: nat ensures DataRefs(u, g) == DataRefs(t, g) && Todo(u, pd, n, g) == Todo(t, pd, n, g) {}
    forall g: nat | Todo(u, pd, n, g) != {} ensures !Unmapped(t, g) {
      TodoIsUser(t, pd, n, g);
    }
    NothingBeyond(u, pd, n, |u.ref|);
    RoomFromMaps(t, u, pd, n, n, |u.ref|);
  }

  // ---- The parent's own faults ----

  /** pgfault on one of the parent's pages between two calls of fork. */
  lemma FaultKeeps(s: Space, a: Machine, b: Machine, pd: nat, cd: nat, n: nat, stack: Option<nat>, complete: bool, net: nat, v: Page, x: nat)
    requires Progress(s, a.s, pd, cd, n, stack, complete, net) && Repaired(a, b, v, x)
    requires v.slot.dir == pd && v in s.maps && InRange(v) && Shareable(s.maps[v].flags)
    ensures Progress(s, b.s, pd, cd, n, stack, complete, net + 1 - Released(a.s, v))
  {
    hide HasW, HasCow, HasU, Inv, InRange, DupPerm, Entry, Tables, ForkMaps, ForkRoom, UPW;
    FaultMaps(s, a, b, pd, cd, n, stack, complete, v, x);
    FaultRoom(a, b, pd, n, v, x);
    KeysGrow(a.s, b.s, Slot(pd, 1));
    NotMappedTemp(s, a.s, pd, cd, n, stack, complete);
  }

  lemma NotMappedTemp(s: Space, t: Space, pd: nat, cd: nat, n: nat, stack: Option<nat>, complete: bool)
    requires ForkMaps(s, t, pd, cd, n, stack, complete) && PfTemp(pd) !in s.maps && pd != cd
    ensures PfTemp(pd) !in t.maps
  {
    hide HasW, HasCow, HasU, SameRights, ChildPage;
    assert Lookup(t.maps, PfTemp(pd)) == Lookup(s.maps, PfTemp(pd));
  }

  lemma FaultMaps(s: Space, a: Machine, b: Machine, pd: nat, cd: nat, n: nat, stack: Option<nat>, complete: bool, v: Page, x: nat)
    requires ForkMaps(s, a.s, pd, cd, n, stack, complete) && pd != cd && PfTemp(pd) !in s.maps
    requires v.slot.dir == pd && v in s.maps && InRange(v) && Shareable(s.maps[v].flags) && v in a.s.maps
    requires b.s.maps == a.s.maps[v := Entry(x, UPW)] - {PfTemp(pd)}
    ensures ForkMaps(s, b.s, pd, cd, n, stack, complete)
  {
    UpwOk();
    hide HasW, HasCow, HasU, InRange, DupPerm, UPW, ChildPage;
    BeforeException(v);
    NotMappedTemp(s, a.s, pd, cd, n, stack, complete);
    assert b.s.maps == a.s.maps[v := Entry(x, UPW)];
  }

  lemma FaultRoom(a: Machine, b: Machine, pd: nat, n: nat, v: Page, x: nat)
    requires Repaired(a, b, v, x) && ForkRoom(a.s, pd, n) && pd != a.s.kern && v.slot.dir == pd && InRange(v)
    ensures ForkRoom(b.s, pd, n)
  {
    hide Inv, HasW, InRange, Entry, UPW;
    BeforeException(v);
    var t, u := a.s, b.s;
    forall g: nat | Todo(u, pd, n, g) != {} && g != x
      ensures !Unmapped(t, g) && |DataRefs(u, g)| + |Todo(u, pd, n, g)| <= |DataRefs(t, g)| + |Todo(t, pd, n, g)|
    {
      var y :| y in Todo(u, pd, n, g);
      assert IsUser(t, y);
      assert DataRefs(u, g) <= DataRefs(t, g) && Todo(u, pd, n, g) <= Todo(t, pd, n, g);
      SubsetSize(DataRefs(u, g), DataRefs(t, g));
      SubsetSize(Todo(u, pd, n, g), Todo(t, pd, n, g));
    }
    assert DataRefs(u, x) <= {v} && Todo(u, pd, n, x) <= {v};
    SubsetSize(DataRefs(u, x), {v});
    SubsetSize(Todo(u, pd, n, x), {v});
    FreshNotBoot(u, v, x);
    RoomFromMaps(t, u, pd, n, n, x);
  }

  lemma FreshNotBoot(u: Space, v: Page, x: nat)
    requires Inv(u, {}) && IsUser(u, v) && u.maps[v] == Entry(x, UPW)
    ensures x < |u.boot| && u.boot[x] == 0
  {
    UpwOk();
    hide HasW, UPW, Counted, FreeList, Owned;
    assert DataFrame(u, x, u.maps[v].flags);
  }

  /** A fault that cannot be repaired: memory does not suffice for fork and the parent's faults. */
  lemma FaultFails(s: Space, t: Space, pd: nat, cd: nat, n: nat, stack: Option<nat>, complete: bool, net: nat, v: Page)
    requires Progress(s, t, pd, cd, n, stack, complete, net) && v.slot.dir == pd && !CanRepair(t, v)
    ensures |s.free| < ForkCost(s, pd) + net + if stack.Some? then 1 else 0
  {
    hide HasW, ForkMaps, ForkRoom, Tables;
    CostSoFar(s, pd, n);
  }

  /** Where one can after the allocation of the child's exception page, memory suffices for it too. */
  lemma LateFault(s: Space, t: Space, pd: nat, cd: nat, n: nat, stack: Option<nat>, complete: bool, net: nat, v: Page)
    requires Progress(s, t, pd, cd, n, stack, complete, net) && stack.Some? && n >= LAST && v.slot.dir == pd && CanRepair(t, v)
    ensures |s.free| >= ForkCost(s, pd) + net + 1
  {
    hide HasW, ForkMaps, ForkRoom, Tables;
    AllTables(s, pd, n);
  }

  // ---- After the loop ----

  const LAST: nat := 955 * 1024

  lemma NothingToDo(t: Space, pd: nat, g: nat)
    ensures Todo(t, pd, LAST, g) == {}
  {
    forall v ensures InRange(v) ==> Number(v) < EXCEPTION_PN { BeforeException(v); }
  }

  lemma AllTables(s: Space, pd: nat, n: nat)
    requires n >= LAST
    ensures Tables(s, pd, n) == Tables(s, pd, EXCEPTION_PN)
  {
    forall v ensures InRange(v) ==> Number(v) < EXCEPTION_PN { BeforeException(v); }
  }

  /** The child's exception page is at x. */
  lemma StackAllocated(s: Space, t: Space, u: Space, pd: nat, cd: nat, complete: bool, net: nat, x: nat)
    requires Progress(s, t, pd, cd, LAST, None, complete, net) && Inv(u, {}) && FreshAt(t, u, ExceptionPage(cd), x)
    ensures complete && Progress(s, u, pd, cd, LAST, Some(x), complete, net)
  {
    hide HasW, HasCow, HasU, Inv, InRange, DupPerm, Entry, Tables, ForkMaps, UPW, Todo;
    StackMaps(s, t, u, pd, cd, complete, x);
    assert ExceptionPage(cd) !in t.maps by { NoStackYet(s, t, pd, cd, complete); }
    KeysGrow(t, u, Slot(cd, 954));
    WithOneMore(Tables(s, pd, LAST), 954);
    forall g: nat | g < |u.ref| ensures u.ref[g] + |Todo(u, pd, LAST, g)| < 65536 {
      NothingToDo(u, pd, g);
      CountBounds(u, g);
    }
  }

  lemma NoStackYet(s: Space, t: Space, pd: nat, cd: nat, complete: bool)
    requires ForkMaps(s, t, pd, cd, LAST, None, complete)
    ensures ExceptionPage(cd) !in t.maps
  {
    hide HasW, HasCow, HasU, DupPerm, Entry;
  }

  lemma StackMaps(s: Space, t: Space, u: Space, pd: nat, cd: nat, complete: bool, x: nat)
    requires ForkMaps(s, t, pd, cd, LAST, None, complete) && pd != cd
    requires u.maps == t.maps[ExceptionPage(cd) := Entry(x, UPW)]
    ensures ForkMaps(s, u, pd, cd, LAST, Some(x), complete)
  {
    hide HasW, HasCow, HasU, DupPerm, Entry, UPW, SameRights, InRange;
    assert forall v :: ChildPage(s, pd, cd, LAST, None, v, Entry(x, UPW)) ==> ChildPage(s, pd, cd, LAST, Some(x), v, Entry(x, UPW));
  }

  /** Where the remaining calls fail, memory does not suffice; where they do not, it does. */
  lemma StackFails(s: Space, t: Space, pd: nat, cd: nat, complete: bool, net: nat)
    requires Progress(s, t, pd, cd, LAST, None, complete, net)
    requires |t.free| < 2 && (t.free == [] || Slot(cd, 954) !in t.tabs)
    ensures |s.free| < ForkCost(s, pd) + net
  {
    hide HasW, ForkMaps, ForkRoom, Tables;
    AllTables(s, pd, LAST);
    WithOneMore(Tables(s, pd, LAST), 954);
  }

  lemma TempDecides(s: Space, t: Space, pd: nat, cd: nat, x: nat, complete: bool, net: nat)
    requires Progress(s, t, pd, cd, LAST, Some(x), complete, net)
    ensures complete && (t.free != [] || Slot(pd, 1) in t.tabs <==> |s.free| >= ForkCost(s, pd) + net)
  {
    hide HasW, ForkMaps, ForkRoom, Tables;
    AllTables(s, pd, LAST);
  }
}
