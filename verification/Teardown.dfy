/** env_free (kern/env.c) on address spaces: it visits everything the environment owns, and
    gives back exactly the pages that nothing else refers to. */
module Teardown {
  import opened Mmu
  import opened PageSpace

  /** t is s without the entries of table k from index j on. */
  ghost predicate EntriesGone(t: map<Page, Word>, s: map<Page, Word>, k: Slot, j: nat) {
    && (forall v :: v in t <==> v in s && !(v.slot == k && v.ptx >= j))
    && (forall v | v in t :: t[v] == s[v])
  }

  /** t is s without the tables and entries of directory d from slot i on. */
  ghost predicate TablesGone(t: Space, s: Space, d: nat, i: nat) {
    && (forall k :: k in t.tabs <==> k in s.tabs && !(k.dir == d && k.pdx >= i))
    && (forall k | k in t.tabs :: t.tabs[k] == s.tabs[k])
    && (forall v :: v in t.maps <==> v in s.maps && !(v.slot.dir == d && v.slot.pdx >= i))
    && (forall v | v in t.maps :: t.maps[v] == s.maps[v])
  }

  lemma {:induction false} FreeEntriesExact(s: Space, held: set<nat>, k: Slot, j: nat)
    requires Inv(s, held) && k.dir in s.dirs && j <= 1024
    ensures var t := FreeEntries(s, k, j);
            && Inv(t, held)
            && t == s.(maps := t.maps, ref := t.ref, free := t.free)
            && EntriesGone(t.maps, s.maps, k, j)
    decreases 1024 - j
  {
    hide Refs, Counted, Owned, FreeList, DataFrame;
    if j < 1024 {
      var r := s;
      if Page(k, j) in s.maps {
        RemovePresentKeeps(s, held, Page(k, j));
        r := Remove(s, Page(k, j));
      }
      FreeEntriesExact(r, held, k, j + 1);
    }
  }

  /** Nothing of d lies outside the slots and entries that env_free visits. */
  lemma VisitsAll(s: Space, d: nat)
    requires Shaped(s) && d in s.dirs
    ensures forall k | k in s.tabs && k.dir == d :: k.pdx < UTOP_PDX
    ensures forall v | v in s.maps :: v.slot in s.tabs && v.ptx < 1024
  {
  }

  lemma FreeTableExact(s: Space, held: set<nat>, k: Slot)
    requires Inv(s, held) && k.dir in s.dirs && k in s.tabs
    ensures var t := FreeTable(s, k);
            && Inv(t, held)
            && t == s.(tabs := s.tabs - {k}, maps := t.maps, ref := t.ref, free := t.free)
            && EntriesGone(t.maps, s.maps, k, 0)
  {
    hide Shaped, Refs, Counted, FreeList;
    FreeEntriesExact(s, held, k, 0);
    DropTableKeeps(FreeEntries(s, k, 0), held, k);
  }

  /** The rounds add up. */
  lemma GoneByRounds(s: Space, r: Space, t: Space, d: nat, i: nat)
    requires forall v | v in s.maps :: v.slot in s.tabs
    requires var k := Slot(d, i);
             if k in s.tabs then r.tabs == s.tabs - {k} && EntriesGone(r.maps, s.maps, k, 0) else r == s
    requires forall v | v in r.maps :: v.ptx < 1024
    requires TablesGone(t, r, d, i + 1)
    ensures TablesGone(t, s, d, i)
  {
    forall v ensures v in t.maps <==> v in s.maps && !(v.slot.dir == d && v.slot.pdx >= i) {
      assert v.slot.dir == d && v.slot.pdx == i ==> v.slot == Slot(d, i);
    }
    forall k ensures k in t.tabs <==> k in s.tabs && !(k.dir == d && k.pdx >= i) {
      assert k.dir == d && k.pdx == i ==> k == Slot(d, i);
    }
  }

  lemma {:induction false} FreeTablesExact(s: Space, held: set<nat>, d: nat, i: nat)
    requires Inv(s, held) && d in s.dirs && i <= UTOP_PDX
    ensures var t := FreeTables(s, d, i);
            && Inv(t, held)
            && t == s.(tabs := t.tabs, maps := t.maps, ref := t.ref, free := t.free)
            && TablesGone(t, s, d, i)
    decreases UTOP_PDX - i
  {
    hide Shaped, Refs, Counted, FreeList, FreeTable, EntriesGone;
    VisitsAll(s, d);
    if i < UTOP_PDX {
      hide TablesGone;
      var k := Slot(d, i);
      var r := s;
      if k in s.tabs {
        FreeTableExact(s, held, k);
        r := FreeTable(s, k);
      }
      FreeTablesExact(r, held, d, i + 1);
      VisitsAll(r, d);
      GoneByRounds(s, r, FreeTables(r, d, i + 1), d, i);
    }
  }

  /** env_free takes away exactly the tables, mappings and directory of one environment. */
  lemma FreeSpaceExact(s: Space, held: set<nat>, d: nat)
    requires Inv(s, held) && d in s.dirs
    ensures var t := FreeSpace(s, d);
            && Inv(t, held)
            && t == s.(dirs := s.dirs - {d}, tabs := t.tabs, maps := t.maps, ref := t.ref, free := t.free)
            && t.tabs == (map k | k in s.tabs && k.dir != d :: s.tabs[k])
            && t.maps == map v | v in s.maps && v.slot.dir != d :: s.maps[v]
  {
    hide Shaped, Refs, Counted, FreeList, FreeTables;
    FreeTablesExact(s, held, d, 0);
    var t := FreeTables(s, d, 0);
    DropDirKeeps(t, held, d);
    assert t.tabs == map k | k in s.tabs && k.dir != d :: s.tabs[k];
    assert t.maps == map v | v in s.maps && v.slot.dir != d :: s.maps[v];
  }

  // ---- Conservation ----

  ghost function OwnData(s: Space, d: nat, p: nat): set<Page> {
    set v | v in DataRefs(s, p) && v.slot.dir == d
  }

  ghost function OwnTables(s: Space, d: nat, p: nat): set<Slot> {
    set k | k in TableRefs(s, p) && k.dir == d
  }

  /** The references to frame p that belong to directory d: mappings, page tables, itself. */
  ghost function OwnRefs(s: Space, d: nat, p: nat): nat {
    |OwnData(s, d, p)| + |OwnTables(s, d, p)| + if p == d then 1 else 0
  }

  lemma DataSplit(s: Space, t: Space, d: nat, p: nat)
    requires t.kern == s.kern && d != s.kern
    requires t.maps == map v | v in s.maps && v.slot.dir != d :: s.maps[v]
    ensures |DataRefs(s, p)| == |DataRefs(t, p)| + |OwnData(s, d, p)|
  {
    assert DataRefs(s, p) == DataRefs(t, p) + OwnData(s, d, p);
    assert DataRefs(t, p) * OwnData(s, d, p) == {};
  }

  lemma TablesSplit(s: Space, t: Space, d: nat, p: nat)
    requires t.tabs == map k | k in s.tabs && k.dir != d :: s.tabs[k]
    ensures |TableRefs(s, p)| == |TableRefs(t, p)| + |OwnTables(s, d, p)|
  {
    assert TableRefs(s, p) == TableRefs(t, p) + OwnTables(s, d, p);
    assert TableRefs(t, p) * OwnTables(s, d, p) == {};
  }

  lemma RefsSplit(s: Space, d: nat, p: nat)
    requires Inv(s, {}) && d in s.dirs
    ensures Refs(s, p) == Refs(FreeSpace(s, d), p) + OwnRefs(s, d, p)
  {
    hide FreeSpace, DataRefs, TableRefs, OwnData, OwnTables, Counted, Owned, Mapped, FreeList;
    FreeSpaceExact(s, {}, d);
    var t := FreeSpace(s, d);
    DataSplit(s, t, d, p);
    TablesSplit(s, t, d, p);
  }

  /** Every count drops by the environment's own references, and the pages that become free
      are exactly those that only this environment referred to. */
  lemma FreeConserves(s: Space, d: nat, p: nat)
    requires Inv(s, {}) && d in s.dirs && p < |s.ref|
    ensures var t := FreeSpace(s, d);
            && |t.ref| == |s.ref|
            && t.ref[p] == s.ref[p] - OwnRefs(s, d, p)
            && (p in t.free <==> p in s.free || (s.boot[p] == 0 && OwnRefs(s, d, p) == Refs(s, p) > 0))
  {
    hide Refs, OwnRefs, Owned, Mapped;
    FreeSpaceExact(s, {}, d);
    RefsSplit(s, d, p);
  }

  /** With no environment left, the counts and the set of free pages are those of any other
      such moment: the kernel's own tables are all that is referenced. */
  lemma AllFreed(s: Space, t: Space)
    requires Inv(s, {}) && Inv(t, {}) && s.dirs == {} == t.dirs
    requires s.kern == t.kern && s.boot == t.boot && s.tabs == t.tabs
    ensures s.ref == t.ref && forall p: nat :: p in s.free <==> p in t.free
  {
    forall p: nat | p < |s.ref| ensures s.ref[p] == t.ref[p] {
      NoUserMaps(s, p);
      NoUserMaps(t, p);
      assert TableRefs(s, p) == TableRefs(t, p);
    }
  }

  lemma NoUserMaps(s: Space, p: nat)
    requires Shaped(s) && s.dirs == {}
    ensures DataRefs(s, p) == {}
  {
  }
}
