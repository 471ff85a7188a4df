/** How physical memory represents a Space: directories and page tables are frames of words,
    read by the hardware walk and by pgdir_walk alike. */
module PageWords {
  import opened Basics
  import opened Mmu
  import opened PageSpace
  import opened Words

  type Frames = seq<seq<Word>>

  function ZeroPage(): (z: seq<Word>)
    ensures |z| == 1024 && forall j | 0 <= j < 1024 :: z[j] == ZERO
  {
    seq(1024, _ => ZERO)
  }

  function Poke(mem: Frames, f: nat, j: nat, w: Word): Frames
    requires f < |mem| && j < |mem[f]|
  {
    mem[f := mem[f][j := w]]
  }

  ghost predicate Sized(mem: Frames, n: nat) {
    |mem| == n && forall f | 0 <= f < n :: |mem[f]| == 1024
  }

  predicate IsDir(s: Space, d: nat) { d == s.kern || d in s.dirs }

  function Pde(s: Space, k: Slot): Word {
    if k in s.tabs then Entry(s.tabs[k], PTE_P | PTE_W | PTE_U) else ZERO
  }

  function Pte(s: Space, v: Page): Word {
    if v in s.maps then s.maps[v] else ZERO
  }

  /** The words of a directory: its own tables below UTOP, itself at UVPT, and everywhere
      else what kern_pgdir holds. */
  function DirWord(s: Space, d: nat, i: nat): Word {
    if i == UVPT_PDX then Entry(d, PTE_P | PTE_U)
    else if i < UTOP_PDX then Pde(s, Slot(d, i))
    else Pde(s, Slot(s.kern, i))
  }

  ghost predicate DirRep(mem: Frames, s: Space, d: nat)
    requires Sized(mem, |s.ref|)
  {
    d < |s.ref| && forall i: nat | i < 1024 :: mem[d][i] == DirWord(s, d, i)
  }

  ghost predicate TableRep(mem: Frames, s: Space, k: Slot)
    requires Sized(mem, |s.ref|) && k in s.tabs
  {
    s.tabs[k] < |s.ref| && forall j: nat | j < 1024 :: mem[s.tabs[k]][j] == Pte(s, Page(k, j))
  }

  ghost predicate Rep(mem: Frames, s: Space) {
    && Sized(mem, |s.ref|)
    && (forall d | IsDir(s, d) :: DirRep(mem, s, d))
    && (forall k | k in s.tabs :: TableRep(mem, s, k))
  }

  function PageAt(d: nat, va: nat): Page { Page(Slot(d, Pdx(va)), Ptx(va)) }

  lemma PageAtFields(d: nat, pdx: nat, ptx: nat)
    requires pdx < UTOP_PDX && ptx < 1024
    ensures PgAddr(pdx, ptx, 0) < UTOP && PageAt(d, PgAddr(pdx, ptx, 0)) == Page(Slot(d, pdx), ptx)
  {
    hide Pdx, Ptx, PgOff, PgNum;
    AddressFields(0, pdx, ptx, 0);
  }

  // ---- Keeping the representation ----

  /** A frame that is neither a directory nor a table can hold anything. */
  lemma DataKeepsRep(mem: Frames, s: Space, f: nat, page: seq<Word>)
    requires Rep(mem, s) && f < |s.ref| && |page| == 1024 && !IsDir(s, f) && !IsTable(s.tabs, f)
    ensures Rep(mem[f := page], s)
  {
    var m := mem[f := page];
    forall d | IsDir(s, d) ensures DirRep(m, s, d) {
      assert DirRep(mem, s, d);
    }
    forall k | k in s.tabs ensures TableRep(m, s, k) {
      assert TableRep(mem, s, k);
    }
  }

  /** Counters and the free list are not in the page tables. */
  lemma RepIgnoresCounts(mem: Frames, s: Space, t: Space)
    requires Rep(mem, s) && t == s.(ref := t.ref, free := t.free) && |t.ref| == |s.ref|
    ensures Rep(mem, t)
  {
    forall d | IsDir(t, d) ensures DirRep(mem, t, d) {
      assert DirRep(mem, s, d);
    }
    forall k | k in t.tabs ensures TableRep(mem, t, k) {
      assert TableRep(mem, s, k);
    }
  }

  /** Storing one page-table entry changes the map at that page only: no other table shares
      the frame, and no directory does. */
  lemma PteKeepsRep(mem: Frames, s: Space, t: Space, v: Page, w: Word)
    requires Rep(mem, s) && Shaped(s) && v.slot in s.tabs && v.ptx < 1024
    requires t == s.(maps := t.maps) && (forall u | u != v :: Pte(t, u) == Pte(s, u)) && Pte(t, v) == w
    ensures s.tabs[v.slot] < |mem| && Rep(Poke(mem, s.tabs[v.slot], v.ptx, w), t)
  {
    var f := s.tabs[v.slot];
    assert TableRep(mem, s, v.slot);
    var m := Poke(mem, f, v.ptx, w);
    forall d | IsDir(t, d) ensures DirRep(m, t, d) {
      assert DirRep(mem, s, d);
    }
    forall k | k in t.tabs ensures TableRep(m, t, k) {
      assert TableRep(mem, s, k);
      assert k != v.slot ==> s.tabs[k] != f;
    }
  }

  /** Clearing a frame and entering it in a directory gives an empty page table. */
  lemma NewTableKeepsRep(mem: Frames, s: Space, k: Slot, f: nat)
    requires Rep(mem, s) && Shaped(s) && TableSlot(s, k) && k !in s.tabs
    requires k.dir == s.kern ==> s.dirs == {}
    requires f < |s.ref| && f !in s.dirs && f != s.kern && !IsTable(s.tabs, f)
    ensures Rep(Poke(mem[f := ZeroPage()], k.dir, k.pdx, Entry(f, PTE_P | PTE_W | PTE_U)), s.(tabs := s.tabs[k := f]))
  {
    var t := s.(tabs := s.tabs[k := f]);
    var m := mem[f := ZeroPage()];
    DataKeepsRep(mem, s, f, ZeroPage());
    assert DirRep(m, s, k.dir);
    var n := Poke(m, k.dir, k.pdx, Entry(f, PTE_P | PTE_W | PTE_U));
    forall d | IsDir(t, d) ensures DirRep(n, t, d) {
      assert DirRep(m, s, d);
    }
    forall l | l in t.tabs ensures TableRep(n, t, l) {
      if l != k {
        assert TableRep(m, s, l);
      } else {
        assert forall v | v in s.maps :: v.slot != k;
      }
    }
  }

  /** pgdir_walk's new table, as a whole. */
  lemma NewTableRep(mem: Frames, s: Space, held: set<nat>, k: Slot)
    requires Rep(mem, s) && Inv(s, held) && s.free != [] && TableSlot(s, k) && k !in s.tabs
    requires k.dir == s.kern ==> s.dirs == {}
    ensures var f := s.free[0];
            && f < |mem| && !IsDir(s, f) && !IsTable(s.tabs, f)
            && k.dir < |mem| && k.pdx < |mem[k.dir]| && k.dir != f && |mem[f]| == 1024
            && Rep(Poke(mem[f := ZeroPage()], k.dir, k.pdx, Entry(f, PTE_P | PTE_W | PTE_U)), NewTable(s, k))
  {
    hide Refs;
    var f := s.free[0];
    PopKeepsFreeList(s, held);
    Unreferenced(s, f);
    NewTableKeepsRep(mem, s, k, f);
    assert DirRep(mem, s, k.dir);
    var t := s.(tabs := s.tabs[k := f]);
    RepIgnoresCounts(Poke(mem[f := ZeroPage()], k.dir, k.pdx, Entry(f, PTE_P | PTE_W | PTE_U)), t, NewTable(s, k));
  }

  /** What pgdir_walk reads in a directory. */
  lemma PdeRead(mem: Frames, s: Space, d: nat, i: nat)
    requires Rep(mem, s) && Shaped(s) && IsDir(s, d) && i < 1024
    ensures d < |mem| && |mem[d]| == 1024
    ensures HasP(mem[d][i].flags) ==> mem[d][i].frame < |mem| && |mem[mem[d][i].frame]| == 1024
    ensures var k := Slot(d, i);
            TableSlot(s, k) ==> if k in s.tabs then HasP(mem[d][i].flags) && mem[d][i].frame == s.tabs[k]
                                else !HasP(mem[d][i].flags)
  {
    assert DirRep(mem, s, d);
    assert mem[d][i] == DirWord(s, d, i);
  }

  /** What pgdir_walk's caller reads in a table. */
  lemma PteRead(mem: Frames, s: Space, v: Page)
    requires Rep(mem, s) && Shaped(s) && v.slot in s.tabs && v.ptx < 1024
    ensures var t := s.tabs[v.slot];
            && t < |mem| && |mem[t]| == 1024
            && if v in s.maps then HasP(mem[t][v.ptx].flags) && mem[t][v.ptx] == s.maps[v]
               else mem[t][v.ptx] == ZERO
  {
    assert TableRep(mem, s, v.slot);
    assert mem[s.tabs[v.slot]][v.ptx] == Pte(s, v);
  }

  /** page_remove clears one word. */
  lemma RemoveRep(mem: Frames, s: Space, v: Page)
    requires Rep(mem, s) && Shaped(s) && v.slot in s.tabs && v.ptx < 1024
    ensures var t := s.tabs[v.slot];
            && t < |mem| && |mem[t]| == 1024 && Remove(s, v).maps == s.maps - {v}
            && Rep(Poke(mem, t, v.ptx, ZERO), Remove(s, v))
  {
    hide Owned, Mapped;
    var t := s.(maps := s.maps - {v});
    PteKeepsRep(mem, s, t, v, ZERO);
    var m := Poke(mem, s.tabs[v.slot], v.ptx, ZERO);
    RepIgnoresCounts(m, t, Remove(s, v));
  }

  /** page_insert stores one word. */
  lemma InsertRep(mem: Frames, s: Space, v: Page, w: Word)
    requires Rep(mem, s) && Shaped(s) && v.slot in s.tabs && v.ptx < 1024
    ensures var t := s.tabs[v.slot];
            && t < |mem| && |mem[t]| == 1024
            && Rep(Poke(mem, t, v.ptx, w), Incref(s, w.frame).(maps := s.maps[v := w]))
  {
    hide Owned, Mapped;
    var t := s.(maps := s.maps[v := w]);
    PteKeepsRep(mem, s, t, v, w);
    RepIgnoresCounts(Poke(mem, s.tabs[v.slot], v.ptx, w), t, Incref(t, w.frame));
  }

  /** Clearing the directory entry of an emptied table. */
  lemma DropTableKeepsRep(mem: Frames, s: Space, k: Slot)
    requires Rep(mem, s) && Shaped(s) && k in s.tabs && k.dir in s.dirs
    ensures k.dir < |mem| && k.pdx < |mem[k.dir]| && Rep(Poke(mem, k.dir, k.pdx, ZERO), s.(tabs := s.tabs - {k}))
  {
    var t := s.(tabs := s.tabs - {k});
    assert DirRep(mem, s, k.dir);
    var n := Poke(mem, k.dir, k.pdx, ZERO);
    forall d | IsDir(t, d) ensures DirRep(n, t, d) {
      assert DirRep(mem, s, d);
    }
    forall l | l in t.tabs ensures TableRep(n, t, l) {
      assert TableRep(mem, s, l);
    }
  }

  lemma DropTableRep(mem: Frames, s: Space, k: Slot)
    requires Rep(mem, s) && Shaped(s) && k in s.tabs && k.dir in s.dirs
    ensures k.dir < |mem| && k.pdx < |mem[k.dir]| && Rep(Poke(mem, k.dir, k.pdx, ZERO), DropTable(s, k))
  {
    hide Owned, Mapped;
    DropTableKeepsRep(mem, s, k);
    RepIgnoresCounts(Poke(mem, k.dir, k.pdx, ZERO), s.(tabs := s.tabs - {k}), DropTable(s, k));
  }

  /** A copy of kern_pgdir pointing to itself at UVPT is the directory of an empty space. */
  lemma NewDirKeepsRep(mem: Frames, s: Space, f: nat)
    requires Rep(mem, s) && Shaped(s) && f < |s.ref| && f !in s.dirs && f != s.kern && !IsTable(s.tabs, f)
    ensures s.kern < |mem| == |s.ref| && |mem[s.kern]| == 1024
    ensures Rep(mem[f := mem[s.kern][UVPT_PDX := Entry(f, PTE_P | PTE_U)]], s.(dirs := s.dirs + {f}))
  {
    assert DirRep(mem, s, s.kern);
    var page := mem[s.kern][UVPT_PDX := Entry(f, PTE_P | PTE_U)];
    DataKeepsRep(mem, s, f, page);
    var m, t := mem[f := page], s.(dirs := s.dirs + {f});
    forall d | IsDir(t, d) ensures DirRep(m, t, d) {
      if d != f {
        assert DirRep(m, s, d);
      } else {
        assert forall k | k in s.tabs :: k.dir == s.kern || k.dir in s.dirs;
      }
    }
    forall k | k in t.tabs ensures TableRep(m, t, k) {
      assert TableRep(m, s, k);
    }
  }

  lemma DropDirKeepsRep(mem: Frames, s: Space, d: nat)
    requires Rep(mem, s)
    ensures Rep(mem, s.(dirs := s.dirs - {d}))
  {
    var t := s.(dirs := s.dirs - {d});
    forall e | IsDir(t, e) ensures DirRep(mem, t, e) {
      assert DirRep(mem, s, e);
    }
    forall k | k in t.tabs ensures TableRep(mem, t, k) {
      assert TableRep(mem, s, k);
    }
  }

  // ---- The hardware walk ----

  /** 32-bit paging (section 4.3 of Intel SDM Volume 3A): the entry that maps an address. */
  function Walk(mem: Frames, d: nat, va: nat): Option<Word> {
    if d < |mem| && Pdx(va) < |mem[d]| && HasP(mem[d][Pdx(va)].flags) then
      var t := mem[d][Pdx(va)].frame;
      if t < |mem| && Ptx(va) < |mem[t]| && HasP(mem[t][Ptx(va)].flags) then Some(mem[t][Ptx(va)]) else None
    else None
  }

  /** The word a load from a (word aligned) address reads. */
  function Load(mem: Frames, d: nat, va: nat): Option<Word> {
    var e := Walk(mem, d, va);
    if e.Some? && e.value.frame < |mem| && PgOff(va) / 4 < |mem[e.value.frame]|
    then Some(mem[e.value.frame][PgOff(va) / 4])
    else None
  }

  /** The two-level table refines the finite map: for a user address the walk finds the mapping
      of its page, and nothing when there is none. */
  lemma WalkRefinesMap(mem: Frames, s: Space, d: nat, va: nat)
    requires Rep(mem, s) && Shaped(s) && d in s.dirs && va < UTOP
    ensures var v := PageAt(d, va); Walk(mem, d, va) == if v in s.maps then Some(s.maps[v]) else None
  {
    var v := PageAt(d, va);
    assert Pdx(va) < UTOP_PDX;
    assert DirRep(mem, s, d);
    assert mem[d][Pdx(va)] == Pde(s, v.slot);
    if v.slot in s.tabs {
      assert TableRep(mem, s, v.slot);
      assert mem[s.tabs[v.slot]][v.ptx] == Pte(s, v);
    }
  }

  /** The self-map: the word at UVPT + 4*pn is the page-table entry of page pn, which is the
      word pgdir_walk points to, for every page whose table exists; below UTOP it is the
      mapping of that page. */
  lemma SelfMapReadsPte(mem: Frames, s: Space, d: nat, pn: nat)
    requires Rep(mem, s) && Shaped(s) && IsDir(s, d) && pn < 0x10_0000
    ensures var va := pn * 4096;
            && d < |mem| && |mem[d]| == 1024
            && (if HasP(mem[d][Pdx(va)].flags)
                then mem[d][Pdx(va)].frame < |mem| && Ptx(va) < |mem[mem[d][Pdx(va)].frame]|
                     && Load(mem, d, UVPT + 4 * pn) == Some(mem[mem[d][Pdx(va)].frame][Ptx(va)])
                else Load(mem, d, UVPT + 4 * pn) == None)
  {
    var va, a := pn * 4096, UVPT + 4 * pn;
    assert Pdx(a) == UVPT_PDX && Ptx(a) == Pdx(va) && PgOff(a) / 4 == Ptx(va) by { SelfMapFields(pn); }
    assert DirRep(mem, s, d);
    assert mem[d][UVPT_PDX] == Entry(d, PTE_P | PTE_U);
    assert mem[d][Pdx(va)] == DirWord(s, d, Pdx(va));
    if Slot(d, Pdx(va)) in s.tabs {
      assert TableRep(mem, s, Slot(d, Pdx(va)));
    }
    if Slot(s.kern, Pdx(va)) in s.tabs {
      assert TableRep(mem, s, Slot(s.kern, Pdx(va)));
    }
  }

  lemma SelfMapFields(pn: nat)
    requires pn < 0x10_0000
    ensures var va, a := pn * 4096, UVPT + 4 * pn;
            Pdx(a) == UVPT_PDX && Ptx(a) == Pdx(va) && PgOff(a) / 4 == Ptx(va)
  {
    var a := UVPT + 4 * pn;
    var q, r := pn / 1024, pn % 1024;
    assert pn * 4096 / 0x40_0000 == q;
    assert a == 957 * 0x40_0000 + q * 4096 + 4 * r;
    assert a / 4096 == 957 * 1024 + q;
    assert a / 0x40_0000 == 957;
  }

  /** uvpd[i] is directory entry i. */
  lemma SelfMapReadsPde(mem: Frames, s: Space, d: nat, i: nat)
    requires Rep(mem, s) && IsDir(s, d) && i < 1024
    ensures d < |mem| && |mem[d]| == 1024 && Load(mem, d, UVPT + UVPT / 4096 * 4 + 4 * i) == Some(mem[d][i])
  {
    assert DirRep(mem, s, d);
    assert mem[d][UVPT_PDX] == Entry(d, PTE_P | PTE_U);
    var a := UVPT + UVPT / 4096 * 4 + 4 * i;
    assert a / 4096 == 957 * 1024 + 957 && PgOff(a) / 4 == i && a / 0x40_0000 == 957;
  }

  /** The directory and table entries of the address allow user mode to load, or to store. */
  predicate Allows(mem: Frames, d: nat, va: nat, store: bool) {
    && d < |mem| && |mem[d]| == 1024
    && var pde := mem[d][Pdx(va)];
       && Grants(pde.flags, store) && pde.frame < |mem| && |mem[pde.frame]| == 1024
       && Grants(mem[pde.frame][Ptx(va)].flags, store)
  }

  predicate Grants(flags: bv12, store: bool) { HasP(flags) && HasU(flags) && (store ==> HasW(flags)) }

  /** What user mode may touch: below UTOP what is mapped so; at UVPT it may read, never write,
      directory d and the tables it names; elsewhere what the kernel mapped so. */
  lemma UserMayTouch(mem: Frames, s: Space, held: set<nat>, d: nat, va: nat, store: bool)
    requires Rep(mem, s) && Inv(s, held) && d in s.dirs && va < WORDS
    ensures d < |mem| && |mem[d]| == 1024
    ensures Allows(mem, d, va, store) <==>
              if 0xEF40_0000 <= va < 0xEF80_0000 then !store && Grants(mem[d][Ptx(va)].flags, false)
              else var v := PageAt(if va < UTOP then d else s.kern, va); v in s.maps && Grants(s.maps[v].flags, store)
  {
    hide Pdx, Ptx, Owned, Counted, FreeList, Grants, Rep, TableSlot, HasP;
    PdxOf(va);
    DirRead(mem, s, d, Pdx(va));
    var v := PageAt(if va < UTOP then d else s.kern, va);
    TableGrants(store);
    if Pdx(va) == UVPT_PDX {
      DirRead(mem, s, d, Ptx(va));
    } else if v.slot in s.tabs {
      PteRead(mem, s, v);
    }
  }

  lemma DirRead(mem: Frames, s: Space, d: nat, i: nat)
    requires Rep(mem, s) && d in s.dirs && i < 1024
    ensures d < |mem| && |mem[d]| == 1024 && mem[d][i] == DirWord(s, d, i)
  {
    assert DirRep(mem, s, d);
  }

  lemma PdxOf(va: nat)
    requires va < WORDS
    ensures Pdx(va) < UTOP_PDX <==> va < UTOP
    ensures Pdx(va) == UVPT_PDX <==> 0xEF40_0000 <= va < 0xEF80_0000
  {
  }

  lemma TableGrants(store: bool)
    ensures !Grants(0, store) && Grants(PTE_P | PTE_W | PTE_U | 0x001, store)
    ensures Grants(PTE_P | PTE_U | 0x001, store) <==> !store
  {
  }

  // ---- Kernel mappings ----

  function PageNo(d: nat, pn: nat): Page { Page(Slot(d, pn / 1024), pn % 1024) }

  function Number(v: Page): nat { v.slot.pdx * 1024 + v.ptx }

  predicate InRegion(v: Page, d: nat, pn: nat, n: nat) {
    v.slot.dir == d && v.ptx < 1024 && pn <= Number(v) < pn + n
  }

  /** t maps the n kernel pages from page number pn to the frames from `frame`, and is s elsewhere. */
  ghost predicate RegionMapped(t: Space, s: Space, pn: nat, frame: nat, perm: bv12, n: nat) {
    forall v :: Pte(t, v) == if InRegion(v, s.kern, pn, n) then Entry(frame + (Number(v) - pn), perm) else Pte(s, v)
  }

  /** One more page of the region. */
  lemma RegionGrows(t: Space, s: Space, pn: nat, frame: nat, perm: bv12, n: nat, u: Space)
    requires RegionMapped(t, s, pn, frame, perm, n)
    requires u.maps == t.maps[PageNo(s.kern, pn + n) := Entry(frame + n, perm)]
    ensures RegionMapped(u, s, pn, frame, perm, n + 1)
  {
    hide Entry;
    var next := PageNo(s.kern, pn + n);
    assert Number(next) == pn + n;
    forall v ensures Pte(u, v) == if InRegion(v, s.kern, pn, n + 1) then Entry(frame + (Number(v) - pn), perm) else Pte(s, v) {
      assert Pte(t, v) == if InRegion(v, s.kern, pn, n) then Entry(frame + (Number(v) - pn), perm) else Pte(s, v);
      assert v.slot.dir == s.kern && v.ptx < 1024 && Number(v) == pn + n ==> v == next;
    }
  }

  lemma UncountedMap(s: Space, t: Space, v: Page, w: Word)
    requires v.slot.dir == s.kern && t == s.(maps := s.maps[v := w])
    ensures forall p: nat :: Refs(t, p) == Refs(s, p)
  {
    forall p: nat ensures Refs(t, p) == Refs(s, p) {
      assert DataRefs(t, p) == DataRefs(s, p);
      assert TableRefs(t, p) == TableRefs(s, p);
    }
  }

  /** Kernel mappings are not counted. */
  lemma KernelMapKeeps(s: Space, held: set<nat>, v: Page, w: Word)
    requires Inv(s, held) && v.slot.dir == s.kern && v.slot in s.tabs && v.ptx < 1024 && HasP(w.flags)
    ensures Inv(s.(maps := s.maps[v := w]), held)
  {
    hide IsTable, Refs;
    var t := s.(maps := s.maps[v := w]);
    UncountedMap(s, t, v, w);
    assert Owned(t);
    assert Mapped(t);
  }

  // ---- user_mem_check ----

  /** The page has a table and its entry has all of the bits `perm`. */
  predicate Granted(mem: Frames, d: nat, pn: nat, perm: bv12) {
    && d < |mem| && pn / 1024 < |mem[d]| && HasP(mem[d][pn / 1024].flags)
    && var t := mem[d][pn / 1024].frame;
       t < |mem| && pn % 1024 < |mem[t]| && HasAll(mem[t][pn % 1024].flags, perm)
  }

  /** Page pn passes user_mem_check's tests, made at the address va % PGSIZE into the page. */
  predicate Checked(mem: Frames, d: nat, va: nat, pn: nat, perm: bv12) {
    Granted(mem, d, pn, perm | PTE_P) && pn * 4096 + va % 4096 <= ULIM
  }

  /** pgdir_walk returns NULL for the page. */
  predicate NoTable(mem: Frames, d: nat, pn: nat) {
    d < |mem| && pn / 1024 < |mem[d]| && !HasP(mem[d][pn / 1024].flags)
  }

  /** user_mem_check's result: 0, -E_FAULT, or none because the kernel faults itself. */
  datatype Verdict = Zero | Fault | KernelPanic

  /** The first page of the range that user_mem_check refuses. */
  predicate FirstFailing(mem: Frames, d: nat, va: nat, len: nat, perm: bv12, pn: nat) {
    && va / 4096 <= pn < RoundedEnd(va, len) / 4096 && !Checked(mem, d, va, pn, perm)
    && forall q | va / 4096 <= q < pn :: Checked(mem, d, va, q, perm)
  }

  lemma OneFirst(mem: Frames, d: nat, va: nat, len: nat, perm: bv12, pn: nat)
    requires FirstFailing(mem, d, va, len, perm, pn)
    ensures forall q: nat | FirstFailing(mem, d, va, len, perm, q) :: q == pn
  {
    hide Checked;
  }

  /** ROUNDUP(va + len, PGSIZE) in 32-bit arithmetic. */
  function RoundedEnd(va: nat, len: nat): (r: nat)
    ensures r < WORDS && r % 4096 == 0
  {
    ((va + len) % WORDS + 4095) % WORDS / 4096 * 4096
  }

  /** When the rounded end does not wrap, the pages up to it are exactly those that hold a
      byte of [va, va + len), for any len but 0. */
  lemma VisitedPages(va: nat, len: nat, pn: nat)
    requires va + len + 4095 < WORDS && len > 0
    ensures va / 4096 <= pn < RoundedEnd(va, len) / 4096 <==> exists b :: va <= b < va + len && b / 4096 == pn
  {
    if va / 4096 <= pn < RoundedEnd(va, len) / 4096 {
      var b := if va / 4096 == pn then va else pn * 4096;
      assert va <= b < va + len && b / 4096 == pn;
    }
  }

  /** So user_mem_check asks of every byte of the range that its page has the bits, and of every page that the
      address at which it is tested is not above ULIM. */
  lemma CheckIsBytes(mem: Frames, d: nat, va: nat, len: nat, perm: bv12)
    requires va + len + 4095 < WORDS && len > 0
    ensures (forall pn | va / 4096 <= pn < RoundedEnd(va, len) / 4096 :: Checked(mem, d, va, pn, perm)) <==>
            forall b | va <= b < va + len :: Granted(mem, d, b / 4096, perm | 0x001) && b / 4096 * 4096 + va % 4096 <= 0xEF80_0000
  {
    hide Granted, RoundedEnd;
    if forall b | va <= b < va + len :: Granted(mem, d, b / 4096, perm | 0x001) && b / 4096 * 4096 + va % 4096 <= 0xEF80_0000 {
      forall pn: nat | va / 4096 <= pn < RoundedEnd(va, len) / 4096 ensures Checked(mem, d, va, pn, perm) {
        VisitedPages(va, len, pn);
        var b :| va <= b < va + len && b / 4096 == pn;
      }
    } else {
      var b :| va <= b < va + len && !(Granted(mem, d, b / 4096, perm | 0x001) && b / 4096 * 4096 + va % 4096 <= 0xEF80_0000);
      VisitedPages(va, len, b / 4096);
      assert !Checked(mem, d, va, b / 4096, perm);
    }
  }

  /** Page pn holds a byte of [va, va + len). */
  predicate HoldsByte(va: nat, len: nat, pn: nat) { exists b :: va <= b < va + len && b / 4096 == pn }

  /** user_mem_check looks at every page of [va, va + len), so that its 0 can be trusted, if and
      only if the range is empty or ends more than a page below 2^32. */
  lemma VisitsAllIff(va: nat, len: nat)
    requires va < WORDS && len < WORDS
    ensures (forall pn: nat | HoldsByte(va, len, pn) :: va / 4096 <= pn < RoundedEnd(va, len) / 4096) <==> len == 0 || va + len + 4095 < WORDS
  {
    if len > 0 && va + len + 4095 < WORDS {
      forall pn: nat | HoldsByte(va, len, pn) ensures va / 4096 <= pn < RoundedEnd(va, len) / 4096 {
        VisitedPages(va, len, pn);
      }
    } else if len > 0 {
      var b := if va + len < WORDS then va else WORDS - 1;
      assert va <= b < va + len && b / 4096 == b / 4096;
      assert HoldsByte(va, len, b / 4096);
      if va + len >= WORDS {
        assert b / 4096 == 0xF_FFFF;
      } else {
        assert RoundedEnd(va, len) == 0;
      }
    }
  }

  /** A range that wraps: the loop does not run at all, and user_mem_check returns 0. */
  lemma WrappedRange()
    ensures RoundedEnd(0x1000, 0xFFFF_FFFF) == 0x1000 && HoldsByte(0x1000, 0xFFFF_FFFF, 1)
  {
    assert 0x1000 <= 0x1000 < 0x1000 + 0xFFFF_FFFF && 0x1000 / 4096 == 1;
  }

  /** A range of two pages, the second one without a table: the read through NULL. */
  lemma SecondPageMissing(mem: Frames, d: nat, va: nat, len: nat, perm: bv12)
    requires va + len + 4095 < WORDS && Checked(mem, d, va, va / 4096, perm) && NoTable(mem, d, va / 4096 + 1)
    requires RoundedEnd(va, len) / 4096 > va / 4096 + 1
    ensures FirstFailing(mem, d, va, len, perm, va / 4096 + 1)
  {
  }

  /** In terms of the mappings: the page has no table. */
  lemma NoTableIsMissing(mem: Frames, s: Space, d: nat, pn: nat)
    requires Rep(mem, s) && Shaped(s) && d in s.dirs && pn < 955 * 1024
    ensures NoTable(mem, d, pn) <==> Slot(d, pn / 1024) !in s.tabs
  {
    PdeRead(mem, s, d, pn / 1024);
    assert TableSlot(s, Slot(d, pn / 1024));
    hide Rep, Owned;
  }

  /** Asking for PTE_U below UTOP is asking for a user mapping. */
  lemma GrantedIsMapped(mem: Frames, s: Space, d: nat, pn: nat, perm: bv12)
    requires Rep(mem, s) && Shaped(s) && d in s.dirs && pn < 955 * 1024
    ensures var v := Page(Slot(d, pn / 1024), pn % 1024);
            Granted(mem, d, pn, perm | PTE_P) <==> v in s.maps && HasAll(s.maps[v].flags, perm | PTE_P)
  {
    var v := Page(Slot(d, pn / 1024), pn % 1024);
    PdeRead(mem, s, d, pn / 1024);
    assert TableSlot(s, v.slot);
    hide Rep, Owned;
    if v.slot in s.tabs {
      PteRead(mem, s, v);
      assert !HasAll(0, perm | PTE_P);
    }
  }
}
