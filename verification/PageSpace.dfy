/** What the physical allocator and the page tables amount to: live page directories,
    the page tables they own, the user mappings, reference counts and the free list.
    The operations below are those of kern/pmap.c seen at this level; class Memory in
    module Pmap implements them on words and links. */
module PageSpace {
  import opened Basics
  import opened Mmu

  /** A directory slot. */
  datatype Slot = Slot(dir: nat, pdx: nat)

  /** A virtual page of an address space: an entry of the page table at `slot`. */
  datatype Page = Page(slot: Slot, ptx: nat)

  /** kern: the frame of kern_pgdir.
      boot: references fixed at boot (0 for every frame the allocator may hand out).
      dirs: directories of live environments.
      tabs: directory slot -> frame of the page table there.
      maps: virtual page -> its present page-table entry.
      ref: pp_ref of every frame, a 16-bit counter.
      free: page_free_list, head first. */
  datatype Space = Space(
    kern: nat, boot: seq<nat>, dirs: set<nat>, tabs: map<Slot, nat>, maps: map<Page, Word>,
    ref: seq<nat>, free: seq<nat>)

  // ---- Reference counts ----

  /** The user mappings of frame p (kernel mappings are not reference counted). */
  ghost function DataRefs(s: Space, p: nat): set<Page> {
    set k | k in s.maps && k.slot.dir != s.kern && s.maps[k].frame == p
  }

  ghost function TableRefs(s: Space, p: nat): set<Slot> {
    set k | k in s.tabs && s.tabs[k] == p
  }

  ghost function Refs(s: Space, p: nat): nat {
    |DataRefs(s, p)| + |TableRefs(s, p)| + (if p in s.dirs then 1 else 0)
  }

  /** Every count is exact, except that p's is off by `delta`. */
  ghost predicate CountedBut(s: Space, p: nat, delta: int)
    requires |s.boot| == |s.ref|
  {
    forall q: nat | q < |s.ref| ::
      s.ref[q] == s.boot[q] + Refs(s, q) + (if q == p then delta else 0) && s.ref[q] < 65536
  }

  ghost predicate Counted(s: Space)
    requires |s.boot| == |s.ref|
  {
    forall q: nat | q < |s.ref| :: s.ref[q] == s.boot[q] + Refs(s, q) && s.ref[q] < 65536
  }

  // ---- The invariant ----

  ghost predicate Frames(s: Space) {
    && 0 < |s.ref| == |s.boot| && s.boot[0] > 0
    && s.kern < |s.ref| && s.kern != 0 && s.boot[s.kern] > 0 && s.kern !in s.dirs
    && forall d | d in s.dirs :: d < |s.ref| && s.boot[d] == 0
  }

  /** Which directory slots may hold a page table. */
  predicate TableSlot(s: Space, k: Slot) {
    if k.dir == s.kern then UTOP_PDX <= k.pdx < 1024 && k.pdx != UVPT_PDX
    else k.dir in s.dirs && k.pdx < UTOP_PDX
  }

  /** Page tables are never shared, and are neither directories nor boot pages. */
  ghost predicate Owned(s: Space)
    requires |s.boot| == |s.ref|
  {
    && (forall k | k in s.tabs ::
          TableSlot(s, k) && s.tabs[k] < |s.ref| && s.tabs[k] !in s.dirs && s.boot[s.tabs[k]] == 0)
    && (forall k, l | k in s.tabs && l in s.tabs :: s.tabs[k] == s.tabs[l] ==> k == l)
  }

  ghost predicate IsTable(tabs: map<Slot, nat>, p: nat) { exists k :: k in tabs && tabs[k] == p }

  /** What a frame must be to appear in a user mapping with this permission. Among boot
      pages only frame 0 can appear, through an empty entry that page_lookup read. */
  ghost predicate DataFrame(s: Space, p: nat, perm: bv12)
    requires |s.boot| == |s.ref|
  {
    p < |s.ref| && p !in s.dirs && !IsTable(s.tabs, p) && (s.boot[p] > 0 ==> p == 0 && !HasW(perm))
  }

  /** Every mapping lives in an existing table; user mappings never reach tables or directories. */
  ghost predicate Mapped(s: Space)
    requires |s.boot| == |s.ref|
  {
    forall k | k in s.maps ::
      && k.slot in s.tabs && k.ptx < 1024 && HasP(s.maps[k].flags)
      && (k.slot.dir != s.kern ==> DataFrame(s, s.maps[k].frame, s.maps[k].flags))
  }

  /** The free list holds the frames with no references, once each; `held` are the
      frames that page_alloc returned and nothing references yet. */
  ghost predicate FreeList(free: seq<nat>, ref: seq<nat>, held: set<nat>) {
    && (forall i, j | 0 <= i < j < |free| :: free[i] != free[j])
    && (forall i | 0 <= i < |free| :: free[i] < |ref|)
    && (forall p: nat :: p in free <==> p < |ref| && ref[p] == 0 && p !in held)
  }

  ghost predicate Shaped(s: Space) {
    Frames(s) && Owned(s) && Mapped(s)
  }

  ghost predicate Inv(s: Space, held: set<nat>) {
    && Shaped(s)
    && Counted(s)
    && FreeList(s.free, s.ref, held)
    && (forall p | p in held :: p < |s.ref| && s.ref[p] == 0)
  }

  lemma InvShaped(s: Space, held: set<nat>)
    requires Inv(s, held)
    ensures Shaped(s)
  {
  }

  // ---- Operations ----

  function Inc16(x: nat): nat { (x + 1) % 65536 }

  function Dec16(x: nat): nat { (x + 65535) % 65536 }

  /** page_alloc, when the list is not empty. */
  function Alloc(s: Space): Space
    requires s.free != []
  {
    s.(free := s.free[1..])
  }

  /** page_free */
  function Free(s: Space, p: nat): Space {
    s.(free := [p] + s.free)
  }

  /** page_decref. (pa2page panics on a frame outside memory; the invariant excludes that.) */
  function Decref(s: Space, p: nat): (r: Space)
    ensures |r.ref| == |s.ref|
  {
    if p >= |s.ref| then s else
    var t := s.(ref := s.ref[p := Dec16(s.ref[p])]);
    if t.ref[p] == 0 then Free(t, p) else t
  }

  function Incref(s: Space, p: nat): (r: Space)
    ensures |r.ref| == |s.ref|
  {
    if p >= |s.ref| then s else s.(ref := s.ref[p := Inc16(s.ref[p])])
  }

  /** pgdir_walk with create set, when the table is missing and a page is free. */
  function NewTable(s: Space, k: Slot): (r: Space)
    requires s.free != []
    ensures |r.ref| == |s.ref|
  {
    Incref(Alloc(s), s.free[0]).(tabs := s.tabs[k := s.free[0]])
  }

  /** page_remove. An empty entry of an existing table reads as frame 0. */
  function Remove(s: Space, v: Page): (r: Space)
    ensures |r.ref| == |s.ref|
  {
    if v.slot !in s.tabs then s
    else if v in s.maps then Decref(s.(maps := s.maps - {v}), s.maps[v].frame)
    else Decref(s, 0)
  }

  /** page_insert up to the store of the new entry; None when no table could be made. */
  function Prepare(s: Space, p: nat, v: Page): (r: Option<Space>)
    ensures r.Some? ==> |r.value.ref| == |s.ref|
  {
    if v.slot in s.tabs then
      var a := if v in s.maps then Remove(s, v) else s;
      Some(if a.free != [] && a.free[0] == p then Alloc(a) else a)
    else if s.free == [] then None
    else Some(NewTable(s, v.slot))
  }

  /** page_insert */
  function Insert(s: Space, p: nat, v: Page, perm: bv12): (r: Option<Space>) {
    match Prepare(s, p, v)
    case None => None
    case Some(a) => Some(Incref(a, p).(maps := a.maps[v := Entry(p, perm)]))
  }

  /** The new directory of env_setup_vm. */
  function NewDir(s: Space): (r: Space)
    requires s.free != []
  {
    Incref(Alloc(s), s.free[0]).(dirs := s.dirs + {s.free[0]})
  }

  /** env_free dropping one emptied page table. */
  function DropTable(s: Space, k: Slot): (r: Space)
    requires k in s.tabs
  {
    Decref(s.(tabs := s.tabs - {k}), s.tabs[k])
  }

  /** env_free dropping the emptied directory. */
  function DropDir(s: Space, d: nat): (r: Space) {
    Decref(s.(dirs := s.dirs - {d}), d)
  }

  /** env_free's inner loop: unmap the entries of one table from index j on. */
  function FreeEntries(s: Space, k: Slot, j: nat): Space
    decreases 1024 - j
  {
    if j >= 1024 then s
    else FreeEntries(if Page(k, j) in s.maps then Remove(s, Page(k, j)) else s, k, j + 1)
  }

  /** One round of env_free's outer loop: empty a table and drop it. */
  function FreeTable(s: Space, k: Slot): Space {
    var t := FreeEntries(s, k, 0);
    if k in t.tabs then DropTable(t, k) else t
  }

  /** env_free's outer loop: empty and drop the tables of d from slot i on. */
  function FreeTables(s: Space, d: nat, i: nat): Space
    decreases UTOP_PDX - i
  {
    if i >= UTOP_PDX then s
    else FreeTables(if Slot(d, i) in s.tabs then FreeTable(s, Slot(d, i)) else s, d, i + 1)
  }

  /** The memory side of env_free. */
  function FreeSpace(s: Space, d: nat): Space {
    DropDir(FreeTables(s, d, 0), d)
  }

  // ---- Counting lemmas ----

  lemma AddMapRefs(s: Space, t: Space, k: Page, m: Word)
    requires k !in s.maps && k.slot.dir != s.kern && t == s.(maps := s.maps[k := m])
    ensures forall p: nat :: Refs(t, p) == Refs(s, p) + if p == m.frame then 1 else 0
  {
    forall p: nat ensures Refs(t, p) == Refs(s, p) + if p == m.frame then 1 else 0 {
      AddMapRef(s, t, k, m, p);
    }
  }

  lemma AddMapRef(s: Space, t: Space, k: Page, m: Word, p: nat)
    requires k !in s.maps && k.slot.dir != s.kern && t == s.(maps := s.maps[k := m])
    ensures Refs(t, p) == Refs(s, p) + if p == m.frame then 1 else 0
  {
    assert TableRefs(t, p) == TableRefs(s, p);
    AddDataRef(s, t, k, m, p);
  }

  lemma AddDataRef(s: Space, t: Space, k: Page, m: Word, p: nat)
    requires k !in s.maps && k.slot.dir != s.kern && t == s.(maps := s.maps[k := m])
    ensures k !in DataRefs(s, p)
    ensures DataRefs(t, p) == if p == m.frame then DataRefs(s, p) + {k} else DataRefs(s, p)
  {
  }

  lemma DropMapRefs(s: Space, t: Space, k: Page)
    requires k in s.maps && k.slot.dir != s.kern && t == s.(maps := s.maps - {k})
    ensures forall p: nat :: Refs(t, p) == Refs(s, p) - if p == s.maps[k].frame then 1 else 0
  {
    assert t.maps[k := s.maps[k]] == s.maps;
    AddMapRefs(t, s, k, s.maps[k]);
  }

  lemma AddTableRefs(s: Space, t: Space, k: Slot, f: nat)
    requires k !in s.tabs && t == s.(tabs := s.tabs[k := f])
    ensures forall p: nat :: Refs(t, p) == Refs(s, p) + if p == f then 1 else 0
  {
    forall p: nat ensures Refs(t, p) == Refs(s, p) + if p == f then 1 else 0 {
      AddTableRef(s, t, k, f, p);
    }
  }

  lemma AddTableRef(s: Space, t: Space, k: Slot, f: nat, p: nat)
    requires k !in s.tabs && t == s.(tabs := s.tabs[k := f])
    ensures Refs(t, p) == Refs(s, p) + if p == f then 1 else 0
  {
    assert DataRefs(t, p) == DataRefs(s, p);
    AddTableKey(s, t, k, f, p);
  }

  lemma AddTableKey(s: Space, t: Space, k: Slot, f: nat, p: nat)
    requires k !in s.tabs && t == s.(tabs := s.tabs[k := f])
    ensures k !in TableRefs(s, p)
    ensures TableRefs(t, p) == if p == f then TableRefs(s, p) + {k} else TableRefs(s, p)
  {
  }

  lemma DropTableRefs(s: Space, t: Space, k: Slot)
    requires k in s.tabs && t == s.(tabs := s.tabs - {k})
    ensures forall p: nat :: Refs(t, p) == Refs(s, p) - if p == s.tabs[k] then 1 else 0
  {
    assert t.tabs[k := s.tabs[k]] == s.tabs;
    AddTableRefs(t, s, k, s.tabs[k]);
  }

  /** Counts depend only on the directories, tables and mappings. */
  lemma SameRefs(s: Space, t: Space)
    requires s.kern == t.kern && s.dirs == t.dirs && s.tabs == t.tabs && s.maps == t.maps
    ensures forall p: nat :: Refs(t, p) == Refs(s, p)
  {
    forall p: nat ensures Refs(t, p) == Refs(s, p) {
      assert DataRefs(t, p) == DataRefs(s, p) && TableRefs(t, p) == TableRefs(s, p);
    }
  }

  // ---- Every operation keeps the invariant ----

  /** Counters and the free list do not matter for the shape. */
  lemma ShapeIgnoresCounts(s: Space, t: Space)
    requires Shaped(s) && t == s.(ref := t.ref, free := t.free) && |t.ref| == |s.ref|
    ensures Shaped(t)
  {
    assert forall p :: IsTable(t.tabs, p) <==> IsTable(s.tabs, p);
    assert Owned(t);
    assert Mapped(t);
  }

  lemma CountsAfterSet(s: Space, p: nat, delta: int, t: Space, delta': int)
    requires |s.boot| == |s.ref| && p < |s.ref| && CountedBut(s, p, delta)
    requires |t.ref| == |s.ref| && t == s.(ref := s.ref[p := t.ref[p]], free := t.free)
    requires t.ref[p] == s.ref[p] - delta + delta' && t.ref[p] < 65536
    ensures CountedBut(t, p, delta')
    ensures delta' == 0 ==> Counted(t)
  {
    SameRefs(s, t);
  }

  lemma PopKeepsFreeList(s: Space, held: set<nat>)
    requires FreeList(s.free, s.ref, held) && s.free != []
    ensures FreeList(Alloc(s).free, Alloc(s).ref, held + {s.free[0]}) && s.free[0] < |s.ref| && s.ref[s.free[0]] == 0
    ensures s.free[0] !in held
  {
    var t := Alloc(s);
    assert s.free[0] in s.free;
    forall p: nat ensures p in t.free <==> p < |t.ref| && t.ref[p] == 0 && p !in held + {s.free[0]} {
      assert p in s.free <==> p in t.free || p == s.free[0];
    }
  }

  lemma PushKeepsFreeList(s: Space, held: set<nat>, p: nat, t: Space)
    requires FreeList(s.free, s.ref, held) && p < |s.ref| && p !in s.free && p !in held
    requires t.free == [p] + s.free && t.ref == s.ref[p := 0]
    ensures FreeList(t.free, t.ref, held)
  {
    forall q: nat ensures q in t.free <==> q == p || q in s.free {
      assert t.free[0] == p;
    }
  }

  lemma AllocKeeps(s: Space, held: set<nat>)
    requires Inv(s, held) && s.free != []
    ensures Inv(Alloc(s), held + {s.free[0]}) && s.free[0] < |s.ref| && s.free[0] !in held
  {
    hide Refs, IsTable;
    PopKeepsFreeList(s, held);
    ShapeIgnoresCounts(s, Alloc(s));
    SameRefs(s, Alloc(s));
  }

  /** Freeing a page that was just allocated restores the very same state. */
  lemma FreeUndoesAlloc(s: Space)
    requires s.free != []
    ensures Free(Alloc(s), s.free[0]) == s
  {
    assert [s.free[0]] + s.free[1..] == s.free;
  }

  lemma DecrefKeeps(s: Space, held: set<nat>, p: nat)
    requires Shaped(s) && p < |s.ref| && CountedBut(s, p, 1) && FreeList(s.free, s.ref, held)
    requires forall q | q in held :: q < |s.ref| && s.ref[q] == 0
    ensures s.ref[p] > 0 && Decref(s, p).ref == s.ref[p := s.ref[p] - 1]
    ensures Inv(Decref(s, p), held)
  {
    hide Refs, IsTable;
    var t := Decref(s, p);
    assert s.ref[p] > 0 && p !in s.free && p !in held;
    assert t.ref == s.ref[p := s.ref[p] - 1];
    CountsAfterSet(s, p, 1, t, 0);
    ShapeIgnoresCounts(s, t);
    if t.ref[p] == 0 {
      PushKeepsFreeList(s, held, p, t);
    } else {
      assert FreeList(t.free, t.ref, held);
    }
  }

  lemma IncrefKeeps(s: Space, held: set<nat>, p: nat)
    requires Shaped(s) && p < |s.ref| && CountedBut(s, p, -1) && s.ref[p] < 65535
    requires FreeList(s.free, s.ref, held) && p !in s.free
    requires forall q | q in held :: q < |s.ref| && s.ref[q] == 0
    ensures Inv(Incref(s, p), held - {p})
  {
    hide Refs, IsTable;
    var t := Incref(s, p);
    assert t.ref == s.ref[p := s.ref[p] + 1];
    CountsAfterSet(s, p, -1, t, 0);
    ShapeIgnoresCounts(s, t);
    assert FreeList(t.free, t.ref, held - {p});
  }

  /** Where page_remove and page_lookup are meant to be called: no table, or a present entry. */
  predicate Removable(s: Space, v: Page) {
    v.slot in s.tabs ==> v in s.maps
  }

  lemma DropMapShape(s: Space, k: Page)
    requires Shaped(s)
    ensures Shaped(s.(maps := s.maps - {k}))
  {
    var t := s.(maps := s.maps - {k});
    assert forall p :: IsTable(t.tabs, p) <==> IsTable(s.tabs, p);
    assert Owned(t);
    assert Mapped(t);
  }

  lemma RemovePresentKeeps(s: Space, held: set<nat>, v: Page)
    requires Inv(s, held) && v in s.maps && v.slot.dir != s.kern
    ensures v.slot in s.tabs && Inv(Remove(s, v), held)
    ensures var f, t := s.maps[v].frame, Remove(s, v);
            s.ref[f] > 0 && t == s.(maps := s.maps - {v}, ref := s.ref[f := s.ref[f] - 1], free := t.free)
  {
    hide Refs, IsTable;
    var t := s.(maps := s.maps - {v});
    DropMapShape(s, v);
    DropMapRefs(s, t, v);
    DecrefKeeps(t, held, s.maps[v].frame);
  }

  /** Removing an empty entry drops a reference of frame 0 that nothing held. */
  lemma RemoveEmptyBreaks(s: Space, held: set<nat>, v: Page)
    requires Inv(s, held) && v !in s.maps && v.slot in s.tabs
    ensures var t := Remove(s, v);
            !Counted(t) && t.ref[0] == s.ref[0] - 1 && t.maps == s.maps && t.tabs == s.tabs && t.dirs == s.dirs
  {
    hide Refs, IsTable;
    var t := Decref(s, 0);
    SameRefs(s, t);
    assert t.ref[0] == s.ref[0] - 1;
  }

  /** page_remove keeps the invariant exactly when its entry is present or its table missing. */
  lemma RemoveKeepsIff(s: Space, held: set<nat>, v: Page)
    requires Inv(s, held) && v.slot.dir in s.dirs
    ensures Inv(Remove(s, v), held) <==> Removable(s, v)
  {
    hide Refs, FreeList, Owned, Mapped;
    if v.slot in s.tabs {
      if v in s.maps {
        RemovePresentKeeps(s, held, v);
      } else {
        RemoveEmptyBreaks(s, held, v);
      }
    }
  }

  /** The frame that page_lookup returns is in use. */
  lemma LookedUpInUse(s: Space, held: set<nat>, v: Page)
    requires Inv(s, held) && v.slot.dir != s.kern
    ensures var f := if v in s.maps then s.maps[v].frame else 0;
            f < |s.ref| && s.ref[f] > 0 && f !in s.free
  {
    if v in s.maps {
      assert v in DataRefs(s, s.maps[v].frame);
    }
  }

  lemma TableInUse(s: Space, held: set<nat>, k: Slot)
    requires Inv(s, held) && k in s.tabs
    ensures s.tabs[k] < |s.ref| && s.ref[s.tabs[k]] > 0 && s.tabs[k] !in s.free
  {
    assert k in TableRefs(s, s.tabs[k]);
  }

  lemma DirInUse(s: Space, held: set<nat>, d: nat)
    requires Inv(s, held) && d in s.dirs
    ensures d < |s.ref| && s.ref[d] > 0 && d !in s.free
  {
  }

  lemma AddTableShape(s: Space, k: Slot, f: nat)
    requires Shaped(s) && TableSlot(s, k) && k !in s.tabs
    requires f < |s.ref| && f !in s.dirs && s.boot[f] == 0 && !IsTable(s.tabs, f) && |DataRefs(s, f)| == 0
    ensures Shaped(s.(tabs := s.tabs[k := f]))
  {
    var t := s.(tabs := s.tabs[k := f]);
    forall l, m | l in t.tabs && m in t.tabs && t.tabs[l] == t.tabs[m] ensures l == m {
      assert l != k ==> IsTable(s.tabs, s.tabs[l]);
      assert m != k ==> IsTable(s.tabs, s.tabs[m]);
    }
    forall l | l in t.maps && l.slot.dir != t.kern ensures DataFrame(t, t.maps[l].frame, t.maps[l].flags) {
      assert DataFrame(s, s.maps[l].frame, s.maps[l].flags);
      var p := s.maps[l].frame;
      assert p == f ==> l in DataRefs(s, f);
      assert IsTable(t.tabs, p) ==> IsTable(s.tabs, p) || p == f;
    }
  }

  /** A frame without references plays no role yet. */
  lemma Unreferenced(s: Space, f: nat)
    requires |s.boot| == |s.ref| && Counted(s) && f < |s.ref| && s.ref[f] == 0
    ensures f !in s.dirs && s.boot[f] == 0 && !IsTable(s.tabs, f) && |DataRefs(s, f)| == 0
  {
    forall k | k in s.tabs ensures s.tabs[k] != f {
      assert s.tabs[k] == f ==> k in TableRefs(s, f);
    }
  }

  lemma NewTableKeeps(s: Space, held: set<nat>, k: Slot)
    requires Inv(s, held) && s.free != [] && TableSlot(s, k) && k !in s.tabs
    ensures s.free[0] < |s.ref| && Inv(NewTable(s, k), held)
  {
    hide Refs;
    var f := s.free[0];
    AllocKeeps(s, held);
    var a := Alloc(s);
    Unreferenced(a, f);
    AddTableShape(a, k, f);
    var t := a.(tabs := a.tabs[k := f]);
    AddTableRefs(a, t, k, f);
    IncrefKeeps(t, held + {f}, f);
    assert held + {f} - {f} == held;
    assert NewTable(s, k) == Incref(t, f);
  }

  // ---- page_insert ----

  /** What page_insert may be asked to map: a page just allocated, or one already mapped. */
  ghost predicate Insertable(s: Space, p: nat, perm: bv12) {
    |s.boot| == |s.ref| && DataFrame(s, p, perm) && p !in s.free
  }

  /** The 16-bit counter has room: it is not full, or the same page is being re-inserted. */
  predicate Room(s: Space, p: nat, v: Page) {
    p < |s.ref| ==> s.ref[p] < 65535 || (v in s.maps && s.maps[v].frame == p)
  }

  predicate UserPage(s: Space, v: Page) {
    v.slot.dir in s.dirs && v.slot.pdx < UTOP_PDX && v.ptx < 1024
  }

  /** What page_insert sees when it stores the new entry: the page is off the free list,
      the table exists, the entry is empty, and p lost the reference of that entry. */
  ghost predicate Prepared(s: Space, held: set<nat>, p: nat, v: Page, a: Space, h: set<nat>) {
    && Inv(a, h) && h - {p} == held - {p} && p !in a.free
    && a == s.(tabs := a.tabs, maps := s.maps - {v}, ref := a.ref, free := a.free)
    && v.slot in a.tabs
    && (forall k | k in s.tabs :: k in a.tabs)
    && (IsTable(a.tabs, p) ==> IsTable(s.tabs, p))
    && p < |s.ref| == |a.ref|
    && s.ref[p] == a.ref[p] + (if v in s.maps && s.maps[v].frame == p then 1 else 0)
  }

  /** If removing the old entry freed p itself, p is at the head of the list and is taken back. */
  lemma TakeBack(a: Space, held: set<nat>, p: nat) returns (b: Space, h: set<nat>)
    requires Inv(a, held) && (p in a.free ==> a.free[0] == p)
    ensures b == if a.free != [] && a.free[0] == p then Alloc(a) else a
    ensures Inv(b, h) && h - {p} == held - {p} && p !in b.free
  {
    hide Shaped, Counted;
    b, h := a, held;
    if a.free != [] && a.free[0] == p {
      AllocKeeps(a, held);
      assert p !in a.free[1..];
      b, h := Alloc(a), held + {p};
    }
  }

  lemma PrepareOverTable(s: Space, held: set<nat>, p: nat, v: Page) returns (h: set<nat>)
    requires Inv(s, held) && v.slot.dir != s.kern && p < |s.ref| && p !in s.free && v.slot in s.tabs
    ensures var a := Prepare(s, p, v); a.Some? && Prepared(s, held, p, v, a.value, h)
  {
    hide Counted, Refs, IsTable, FreeList, Shaped;
    var a, b := s, s;
    if v in s.maps {
      RemovePresentKeeps(s, held, v);
      a := Remove(s, v);
    } else {
      assert s.maps - {v} == s.maps;
    }
    b, h := TakeBack(a, held, p);
  }

  lemma PrepareWithTable(s: Space, held: set<nat>, p: nat, v: Page)
    requires Inv(s, held) && UserPage(s, v) && p < |s.ref| && p !in s.free
    requires v.slot !in s.tabs && s.free != []
    ensures var a := Prepare(s, p, v); a.Some? && Prepared(s, held, p, v, a.value, held)
  {
    hide Counted, Refs;
    NewTableKeeps(s, held, v.slot);
    var a := NewTable(s, v.slot);
    var f := s.free[0];
    assert f in s.free;
    assert s.maps - {v} == s.maps;
    assert IsTable(a.tabs, p) ==> IsTable(s.tabs, p) || p == f;
    assert p !in s.free[1..];
  }

  lemma AddMapShape(s: Space, k: Page, m: Word)
    requires Shaped(s) && k !in s.maps && k.slot.dir != s.kern && k.slot in s.tabs && k.ptx < 1024
    requires HasP(m.flags) && DataFrame(s, m.frame, m.flags)
    ensures Shaped(s.(maps := s.maps[k := m]))
  {
    hide IsTable;
    var t := s.(maps := s.maps[k := m]);
    assert Owned(t);
    assert Mapped(t);
  }

  /** The store and the increment of page_insert keep the invariant exactly when the
      counter does not wrap to zero. */
  lemma StoreKeepsIff(a: Space, h: set<nat>, k: Page, m: Word)
    requires Inv(a, h) && k !in a.maps && k.slot.dir != a.kern && k.slot in a.tabs && k.ptx < 1024
    requires HasP(m.flags) && DataFrame(a, m.frame, m.flags) && m.frame !in a.free
    ensures var t := Incref(a, m.frame).(maps := a.maps[k := m]);
            Inv(t, h - {m.frame}) <==> a.ref[m.frame] < 65535
  {
    hide Refs, IsTable;
    var b := a.(maps := a.maps[k := m]);
    AddMapShape(a, k, m);
    AddMapRefs(a, b, k, m);
    var t := Incref(b, m.frame);
    if a.ref[m.frame] < 65535 {
      IncrefKeeps(b, h, m.frame);
    } else {
      SameRefs(b, t);
      assert t.ref[m.frame] == 0;
    }
  }

  lemma RefBound(s: Space, held: set<nat>, p: nat)
    requires Inv(s, held) && p < |s.ref|
    ensures s.ref[p] < 65536 && s.kern !in s.dirs
  {
  }

  lemma PrepareFails(s: Space, p: nat, v: Page)
    ensures Prepare(s, p, v).None? <==> v.slot !in s.tabs && s.free == []
  {
  }

  /** page_insert changes exactly the named entry of the finite map, and keeps the
      invariant exactly when the page's counter has room. */
  lemma InsertKeepsIff(s: Space, held: set<nat>, p: nat, v: Page, perm: bv12)
    requires Inv(s, held) && UserPage(s, v) && Insertable(s, p, perm)
    ensures match Insert(s, p, v, perm)
            case None => v.slot !in s.tabs && s.free == []
            case Some(t) =>
              && (Inv(t, held - {p}) <==> Room(s, p, v))
              && t.maps == s.maps[v := Entry(p, perm)]
              && t.dirs == s.dirs && t.boot == s.boot && t.kern == s.kern
              && (forall k | k in s.tabs :: k in t.tabs)
  {
    hide Refs, Inv, IsTable, Prepare;
    RefBound(s, held, p);
    PrepareFails(s, p, v);
    if v.slot in s.tabs || s.free != [] {
      var a := Prepare(s, p, v).value;
      var h := held;
      if v.slot in s.tabs {
        h := PrepareOverTable(s, held, p, v);
      } else {
        PrepareWithTable(s, held, p, v);
      }
      StoreKeepsIff(a, h, v, Entry(p, perm));
      assert s.maps[v := Entry(p, perm)] == a.maps[v := Entry(p, perm)];
    }
  }

  // ---- env_setup_vm and env_free ----

  lemma NewDirShape(s: Space, f: nat)
    requires Shaped(s)
    requires f < |s.ref| && f != s.kern && s.boot[f] == 0 && !IsTable(s.tabs, f) && |DataRefs(s, f)| == 0
    ensures Shaped(s.(dirs := s.dirs + {f}))
  {
    var t := s.(dirs := s.dirs + {f});
    forall l | l in t.maps && l.slot.dir != t.kern ensures DataFrame(t, t.maps[l].frame, t.maps[l].flags) {
      assert DataFrame(s, s.maps[l].frame, s.maps[l].flags);
      assert s.maps[l].frame == f ==> l in DataRefs(s, f);
    }
  }

  /** A new directory has no tables and no mappings: nobody used its frame before. */
  lemma NewDirKeeps(s: Space, held: set<nat>)
    requires Inv(s, held) && s.free != []
    ensures Inv(NewDir(s), held) && s.free[0] < |s.ref| && s.free[0] !in s.dirs
    ensures forall k | k in s.tabs :: k.dir != s.free[0]
    ensures forall v | v in s.maps :: v.slot.dir != s.free[0]
  {
    hide Refs;
    var f := s.free[0];
    AllocKeeps(s, held);
    var a := Alloc(s);
    Unreferenced(a, f);
    NewDirShape(a, f);
    var t := a.(dirs := a.dirs + {f});
    AddDirRefs(a, t, f);
    IncrefKeeps(t, held + {f}, f);
    assert held + {f} - {f} == held;
    assert NewDir(s) == Incref(t, f);
  }

  lemma AddDirRefs(s: Space, t: Space, f: nat)
    requires f !in s.dirs && t == s.(dirs := s.dirs + {f})
    ensures forall p: nat :: Refs(t, p) == Refs(s, p) + if p == f then 1 else 0
  {
    forall p: nat ensures Refs(t, p) == Refs(s, p) + if p == f then 1 else 0 {
      assert DataRefs(t, p) == DataRefs(s, p) && TableRefs(t, p) == TableRefs(s, p);
    }
  }

  lemma DropTableShape(s: Space, k: Slot)
    requires Shaped(s) && forall v | v in s.maps :: v.slot != k
    ensures Shaped(s.(tabs := s.tabs - {k}))
  {
    var t := s.(tabs := s.tabs - {k});
    assert forall p :: IsTable(t.tabs, p) ==> IsTable(s.tabs, p);
    assert Owned(t);
    assert Mapped(t);
  }

  lemma DropTableKeeps(s: Space, held: set<nat>, k: Slot)
    requires Inv(s, held) && k in s.tabs && forall v | v in s.maps :: v.slot != k
    ensures Inv(DropTable(s, k), held)
  {
    hide Refs, IsTable;
    var t := s.(tabs := s.tabs - {k});
    DropTableShape(s, k);
    DropTableRefs(s, t, k);
    DecrefKeeps(t, held, s.tabs[k]);
  }

  lemma DropDirShape(s: Space, d: nat)
    requires Shaped(s)
    requires (forall k | k in s.tabs :: k.dir != d) && forall v | v in s.maps :: v.slot.dir != d
    ensures Shaped(s.(dirs := s.dirs - {d}))
  {
    hide IsTable;
    var t := s.(dirs := s.dirs - {d});
    assert Owned(t);
    assert Mapped(t);
  }

  lemma DropDirKeeps(s: Space, held: set<nat>, d: nat)
    requires Inv(s, held) && d in s.dirs
    requires (forall k | k in s.tabs :: k.dir != d) && forall v | v in s.maps :: v.slot.dir != d
    ensures Inv(DropDir(s, d), held)
  {
    hide Refs, IsTable;
    var t := s.(dirs := s.dirs - {d});
    DropDirShape(s, d);
    AddDirRefs(t, s, d) by { assert t.dirs + {d} == s.dirs; }
    DecrefKeeps(t, held, d);
  }
}
