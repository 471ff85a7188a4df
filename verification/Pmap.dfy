/** kern/pmap.c: physical pages, page tables and the TLB of one CPU, updated in place. */
module Pmap {
  import opened Basics
  import opened FreeChain
  import opened Mmu
  import opened PageSpace
  import opened PageWords
  import Teardown
  import opened Words

  /** Every translation cached for a user address is the one in the loaded directory. */
  ghost predicate TlbAgrees(tlb: map<(nat, nat), Word>, cr3: nat, s: Space) {
    forall x | x in tlb ::
      var v := Page(Slot(cr3, x.0), x.1); x.0 < UTOP_PDX && v in s.maps && tlb[x] == s.maps[v]
  }

  // ---- The frames page_init frees ----

  /** Every frame but 0, the AP startup page, and those from the end of base memory to the
      first page after the kernel's own data. */
  predicate BootFree(i: nat, basemem: nat, bootEnd: nat) {
    i != 0 && i != MPENTRY && (i < basemem || (i > EXTPHYS && i >= bootEnd))
  }

  /** The count page_init leaves: 0 for a free frame; the others are in use for good. */
  function BootRef(i: nat, basemem: nat, bootEnd: nat, before: nat): nat {
    if BootFree(i, basemem, bootEnd) then 0 else if i == 0 || i == MPENTRY then 1 else Inc16(before)
  }

  /** The list page_init builds: highest frame first. */
  function BootList(n: nat, basemem: nat, bootEnd: nat): seq<nat> {
    if n == 0 then []
    else if BootFree(n - 1, basemem, bootEnd) then [n - 1] + BootList(n - 1, basemem, bootEnd)
    else BootList(n - 1, basemem, bootEnd)
  }

  lemma {:induction false} BootListMembers(n: nat, basemem: nat, bootEnd: nat)
    ensures var list := BootList(n, basemem, bootEnd);
            && (forall p: nat :: p in list <==> p < n && BootFree(p, basemem, bootEnd))
            && (forall i, j | 0 <= i < j < |list| :: list[i] > list[j])
  {
    if n > 0 {
      BootListMembers(n - 1, basemem, bootEnd);
      var rest := BootList(n - 1, basemem, bootEnd);
      assert forall i | 0 <= i < |rest| :: rest[i] in rest;
      hide BootFree;
      if BootFree(n - 1, basemem, bootEnd) {
        assert forall p: nat :: p in [n - 1] + rest <==> p == n - 1 || p in rest;
      }
    }
  }

  /** Which frames the list holds, by physical address: the rest of base memory after frame 0, but for
      the page at MPENTRY_PADDR, and what lies above the page at EXTPHYSMEM and the kernel's own data; so
      nothing of the I/O hole, where base memory ends below it. */
  lemma BootListExact(n: nat, basemem: nat, bootEnd: nat)
    ensures var list := BootList(n, basemem, bootEnd);
            && Distinct(list)
            && (forall p | p in list :: p < n && p != 0 && p * 4096 != 0x7000 && (basemem <= p ==> p * 4096 > 0x10_0000 && p >= bootEnd))
            && (forall p: nat | p < n && p != 0 && p * 4096 != 0x7000 && (basemem <= p ==> p * 4096 > 0x10_0000 && p >= bootEnd) :: p in list)
            && (basemem * 4096 <= 0xA_0000 ==> forall p | p in list :: !(0xA_0000 <= p * 4096 < 0x10_0000))
  {
    BootListMembers(n, basemem, bootEnd);
  }

  /** The space right after page_init: kern_pgdir has no table yet. */
  ghost function BootSpace(kern: nat, ref: seq<nat>, free: seq<nat>): Space {
    Space(kern, ref, {}, map[], map[], ref, free)
  }

  lemma FrameZeroUsed(basemem: nat, bootEnd: nat)
    ensures !BootFree(0, basemem, bootEnd)
  {
  }

  lemma NoFrames(basemem: nat, bootEnd: nat)
    ensures BootList(0, basemem, bootEnd) == []
  {
  }

  lemma BootListStep(n: nat, basemem: nat, bootEnd: nat)
    ensures BootList(n + 1, basemem, bootEnd) == if BootFree(n, basemem, bootEnd) then [n] + BootList(n, basemem, bootEnd) else BootList(n, basemem, bootEnd)
  {
  }

  lemma NoRefs(s: Space)
    requires s.dirs == {} && s.tabs == map[] && s.maps == map[]
    ensures forall p: nat :: Refs(s, p) == 0
  {
    forall p: nat ensures Refs(s, p) == 0 {
      assert DataRefs(s, p) == {} && TableRefs(s, p) == {};
    }
  }

  lemma BootKeepsIff(kern: nat, ref: seq<nat>, basemem: nat, bootEnd: nat)
    requires 0 < kern < |ref| && !BootFree(kern, basemem, bootEnd)
    requires forall i: nat | i < |ref| :: (BootFree(i, basemem, bootEnd) ==> ref[i] == 0) && ref[i] < 65536
    ensures Inv(BootSpace(kern, ref, BootList(|ref|, basemem, bootEnd)), {}) <==>
              forall i: nat | i < |ref| :: ref[i] == 0 ==> BootFree(i, basemem, bootEnd)
  {
    hide Refs, BootFree, BootList, IsTable;
    var s := BootSpace(kern, ref, BootList(|ref|, basemem, bootEnd));
    BootListMembers(|ref|, basemem, bootEnd);
    NoRefs(s);
    FrameZeroUsed(basemem, bootEnd);
    forall i | 0 <= i < |s.free| ensures s.free[i] < |ref| {
      assert s.free[i] in s.free;
    }
  }

  lemma BootRep(mem: Frames, kern: nat, ref: seq<nat>, free: seq<nat>)
    requires Sized(mem, |ref|) && kern < |ref| && mem[kern] == ZeroPage()[UVPT_PDX := Entry(kern, PTE_P | PTE_U)]
    ensures var s := BootSpace(kern, ref, free);
            s.kern == kern && s.ref == ref && s.free == free && s.dirs == {} && s.tabs == map[] && s.maps == map[] && Rep(mem, s)
  {
    assert DirRep(mem, BootSpace(kern, ref, free), kern);
  }

  lemma NothingMapped(s: Space, pn: nat, frame: nat, perm: bv12)
    ensures RegionMapped(s, s, pn, frame, perm, 0)
  {
  }

  /** The pages of a region above UTOP that avoids the self-map lie in kernel table slots. */
  lemma KernelPage(va: nat, size: nat, i: nat)
    requires va % 4096 == 0 && UTOP <= va && va + size <= WORDS && i < size / 4096
    requires va + size <= UVPT || ULIM <= va
    ensures var a := va + i * 4096;
            && a < WORDS && UTOP_PDX <= Pdx(a) != UVPT_PDX
            && Pdx(a) == (va / 4096 + i) / 1024 && Ptx(a) == (va / 4096 + i) % 1024
  {
    var a := va + i * 4096;
    assert a / 4096 == va / 4096 + i;
    assert UTOP <= a < va + size;
  }

  lemma FreeDistinct(s: Space, held: set<nat>)
    requires Inv(s, held)
    ensures Distinct(s.free)
  {
  }

  const MPENTRY: nat := 7     // MPENTRY_PADDR / PGSIZE
  const EXTPHYS: nat := 256   // EXTPHYSMEM / PGSIZE

  class Memory {
    var mem: Frames              // physical memory
    var ref: seq<nat>            // pages[].pp_ref
    var link: seq<Option<nat>>   // pages[].pp_link
    var head: Option<nat>        // page_free_list
    var kern: nat                // frame of kern_pgdir
    var cr3: nat                 // the loaded page directory
    var tlb: map<(nat, nat), Word>  // cached translations of user pages, by (PDX, PTX)
    var cur: Option<nat>         // curenv's env_pgdir, if there is a curenv
    ghost var s: Space           // what the fields above represent

    ghost predicate Valid()
      reads this
    {
      && ref == s.ref && kern == s.kern && |link| == |ref|
      && Chain(head, link, s.free)
      && Rep(mem, s)
    }

    /** The loaded directory is kern_pgdir or the current environment's. */
    ghost predicate CpuValid()
      reads this
    {
      && (cr3 == kern || (cr3 in s.dirs && cur == Some(cr3)))
      && TlbAgrees(tlb, cr3, s)
    }

    /** Frames that were neither page tables nor directories, and still are not, are as before. */
    twostate predicate DataUntouched()
      reads this
    {
      && |mem| == |old(mem)|
      && forall f | 0 <= f < |mem| && !IsDir(old(s), f) && !IsDir(s, f) && !IsTable(old(s.tabs), f) && !IsTable(s.tabs, f) ::
           mem[f] == old(mem[f])
    }

    /** mem_init up to page_init: kern_pgdir holds nothing but itself at UVPT. mem0 and ref0 are
        what memory and pages[].pp_ref held before; mem_init does not clear the array. */
    constructor (npages: nat, kernPgdir: nat, mem0: Frames, ref0: seq<nat>)
      requires Sized(mem0, npages) && |ref0| == npages && 0 < kernPgdir < npages
      ensures kern == kernPgdir == cr3 && cur == None && tlb == map[]
      ensures |link| == npages && ref == ref0
      ensures mem == mem0[kernPgdir := ZeroPage()[UVPT_PDX := Entry(kernPgdir, PTE_P | PTE_U)]]
    {
      kern, cr3, cur, tlb := kernPgdir, kernPgdir, None, map[];
      mem := mem0[kernPgdir := ZeroPage()[UVPT_PDX := Entry(kernPgdir, PTE_P | PTE_U)]];
      head, ref, link := None, ref0, seq(npages, _ => None);
    }

    /** page_init's marking of one frame as free or in use. */
    method MarkPage(i: nat, free: bool, count: nat, ghost list: seq<nat>)
      requires i < |ref| == |link| && Chain(head, link, list) && i !in list
      modifies `ref, `link, `head
      ensures |link| == |old(link)| && ref == old(ref)[i := count]
      ensures Chain(head, link, if free then [i] + list else list)
    {
      ref := ref[i := count];
      if free {
        ChainIgnoresOthers(head, link, list, i, head);
        link := link[i := head];
        head := Some(i);
        assert ([i] + list)[1..] == list;
      } else {
        ChainIgnoresOthers(head, link, list, i, None);
        link := link[i := None];
      }
    }

    /** The loop of page_init. */
    method MarkPages(npages: nat, basemem: nat, bootEnd: nat)
      requires |ref| == |link| == npages
      modifies `ref, `link, `head
      ensures |ref| == |link| == npages && Chain(head, link, BootList(npages, basemem, bootEnd))
      ensures forall i | 0 <= i < npages :: ref[i] == BootRef(i, basemem, bootEnd, old(ref)[i])
    {
      hide Chain, BootList;
      head := None;
      var i := 0;
      NoFrames(basemem, bootEnd);
      EmptyChain(link);
      while i < npages
        invariant i <= npages && |ref| == |link| == npages
        invariant Chain(head, link, BootList(i, basemem, bootEnd))
        invariant forall j | 0 <= j < i :: ref[j] == BootRef(j, basemem, bootEnd, old(ref)[j])
        invariant forall j | i <= j < npages :: ref[j] == old(ref)[j]
      {
        BootListMembers(i, basemem, bootEnd);
        BootListStep(i, basemem, bootEnd);
        ghost var list := BootList(i, basemem, bootEnd);
        if i == 0 || i == MPENTRY {
          MarkPage(i, false, 1, list);
        } else if i < basemem {
          MarkPage(i, true, 0, list);
        } else if i <= EXTPHYS || i < bootEnd {
          MarkPage(i, false, Inc16(ref[i]), list);
        } else {
          MarkPage(i, true, 0, list);
        }
        i := i + 1;
      }
    }

    /** bootEnd is the frame that boot_alloc(0) returns. The pages array is not cleared before: what
        it leaves is right if and only if no frame in use was counted 65535 before. */
    method PageInit(npages: nat, basemem: nat, bootEnd: nat)
      requires |ref| == |link| == npages && Sized(mem, npages) && 0 < kern < npages && cr3 == kern && tlb == map[]
      requires mem[kern] == ZeroPage()[UVPT_PDX := Entry(kern, PTE_P | PTE_U)]
      requires !BootFree(kern, basemem, bootEnd) && forall i | 0 <= i < npages :: ref[i] < 65536
      modifies `ref, `link, `head, `s
      ensures Valid() && CpuValid() && s.dirs == {} && s.tabs == map[] && s.maps == map[]
      ensures Inv(s, {}) <==> forall i | 0 <= i < npages && old(ref)[i] == 65535 :: i == 0 || i == MPENTRY || BootFree(i, basemem, bootEnd)
      ensures s.free == BootList(npages, basemem, bootEnd) && Distinct(s.free)
      ensures forall p: nat :: p in s.free <==> p < npages && p != 0 && p * 4096 != 0x7000 && (basemem <= p ==> p * 4096 > 0x10_0000 && p >= bootEnd)
      ensures |ref| == npages && forall i | 0 <= i < npages ::
                ref[i] == if i in s.free then 0 else if i == 0 || i * 4096 == 0x7000 then 1 else (old(ref)[i] + 1) % 65536
    {
      hide Chain, Rep, Inv, BootList;
      BootListExact(npages, basemem, bootEnd);
      BootListMembers(npages, basemem, bootEnd);
      MarkPages(npages, basemem, bootEnd);
      BootKeepsIff(kern, ref, basemem, bootEnd);
      s := BootSpace(kern, ref, BootList(npages, basemem, bootEnd));
      BootRep(mem, kern, ref, s.free);
    }

    method PageAlloc(zero: bool, ghost held: set<nat>) returns (pp: Option<nat>)
      requires Valid() && CpuValid() && Inv(s, held)
      modifies this
      ensures Valid() && CpuValid() && unchanged(`ref, `kern, `cr3, `tlb, `cur)
      ensures old(s.free) == [] ==> pp == None && unchanged(this)
      ensures old(s.free) != [] ==>
                && pp == Some(old(s.free[0])) && s == Alloc(old(s)) && pp.value < |old(mem)|
                && mem == if zero then old(mem)[pp.value := ZeroPage()] else old(mem)
    {
      hide Refs;
      if head.None? {
        return None;
      }
      pp := head;
      AllocKeeps(s, held);
      RepIgnoresCounts(mem, s, Alloc(s));
      Unreferenced(s, s.free[0]);
      head := link[pp.value];
      s := Alloc(s);
      if zero {
        DataKeepsRep(mem, s, pp.value, ZeroPage());
        mem := mem[pp.value := ZeroPage()];
      }
    }

    method PageFree(pp: nat)
      requires Valid() && CpuValid() && pp < |ref| && ref[pp] == 0 && pp !in s.free
      modifies this
      ensures Valid() && CpuValid() && unchanged(`mem, `ref, `kern, `cr3, `tlb, `cur)
      ensures s == Free(old(s), pp)
    {
      ChainIgnoresOthers(head, link, s.free, pp, head);
      RepIgnoresCounts(mem, s, Free(s, pp));
      link := link[pp := head];
      head := Some(pp);
      s := Free(s, pp);
      assert s.free[1..] == old(s.free);
    }

    method PageDecref(pp: nat)
      requires Valid() && CpuValid() && pp < |ref| && pp !in s.free
      modifies this
      ensures Valid() && CpuValid() && unchanged(`mem, `kern, `cr3, `tlb, `cur)
      ensures s == Decref(old(s), pp)
    {
      ghost var t := s.(ref := s.ref[pp := Dec16(s.ref[pp])]);
      RepIgnoresCounts(mem, s, t);
      ref := ref[pp := Dec16(ref[pp])];
      s := t;
      if ref[pp] == 0 {
        PageFree(pp);
      }
    }

    /** The frame of the page table that covers va (the C code points to its entry). */
    method PgdirWalk(d: nat, va: nat, create: bool, ghost held: set<nat>) returns (pte: Option<nat>)
      requires Valid() && CpuValid() && Inv(s, held) && IsDir(s, d) && va < WORDS
      requires create ==> TableSlot(s, Slot(d, Pdx(va))) && (d == kern ==> s.dirs == {})
      modifies this
      ensures Valid() && CpuValid() && DataUntouched() && unchanged(`kern, `cr3, `tlb, `cur)
      ensures old(Pdx(va) < 1024 && d < |mem| && |mem[d]| == 1024)
      ensures pte.Some? ==> pte.value < |mem|
      ensures var pde := old(mem[d][Pdx(va)]);
              if HasP(pde.flags) then pte == Some(pde.frame) && unchanged(this)
              else if !create || old(s.free) == [] then pte == None && unchanged(this)
              else pte == Some(old(s.free[0])) && s == NewTable(old(s), Slot(d, Pdx(va)))
      ensures TableSlot(s, Slot(d, Pdx(va))) ==>
                pte == if Slot(d, Pdx(va)) in s.tabs then Some(s.tabs[Slot(d, Pdx(va))]) else None
    {
      hide Refs, Counted, Rep, Shaped, FreeList;
      var k := Slot(d, Pdx(va));
      PdeRead(mem, s, d, k.pdx);
      if HasP(mem[d][k.pdx].flags) {
        return Some(mem[d][k.pdx].frame);
      }
      if !create {
        return None;
      }
      if s.free != [] {
        NewTableRep(mem, s, held, k);
      }
      var pp := PageAlloc(true, held);
      if pp.None? {
        return None;
      }
      pte := pp;
      ref := ref[pp.value := Inc16(ref[pp.value])];
      mem := Poke(mem, d, k.pdx, Entry(pp.value, PTE_P | PTE_W | PTE_U));
      s := NewTable(old(s), k);
      assert k in s.tabs && s.tabs[k] == pp.value;
    }

    /** The frame that the entry for va names; an empty entry names frame 0. */
    method PageLookup(d: nat, va: nat, ghost held: set<nat>) returns (pp: Option<nat>, pte: Option<nat>)
      requires Valid() && CpuValid() && Inv(s, held) && d in s.dirs && va < UTOP
      modifies this
      ensures unchanged(this) && Valid()
      ensures var v := PageAt(d, va);
              && pte == (if v.slot in s.tabs then Some(s.tabs[v.slot]) else None)
              && pp == if v.slot !in s.tabs then None else if v in s.maps then Some(s.maps[v].frame) else Some(0)
      ensures pte.Some? ==> pte.value < |mem| && Ptx(va) < |mem[pte.value]|
                            && mem[pte.value][Ptx(va)] == Pte(s, PageAt(d, va))
    {
      hide Refs, Counted, Rep, Owned, Mapped, FreeList;
      assert TableSlot(s, Slot(d, Pdx(va)));
      pte := PgdirWalk(d, va, false, held);
      if pte.None? {
        return None, None;
      }
      PteRead(mem, s, PageAt(d, va));
      pp := Some(mem[pte.value][Ptx(va)].frame);
    }

    /** invlpg, skipped when another environment's tables are being edited. */
    method TlbInvalidate(d: nat, va: nat)
      requires Valid() && IsDir(s, d) && d != kern
      requires cr3 == kern || (cr3 in s.dirs && cur == Some(cr3))
      requires forall x | x in tlb && (cr3 != d || x != (Pdx(va), Ptx(va))) ::
                 var v := Page(Slot(cr3, x.0), x.1); x.0 < UTOP_PDX && v in s.maps && tlb[x] == s.maps[v]
      modifies `tlb
      ensures Valid() && CpuValid()
    {
      hide Rep;
      if cur == None || cur == Some(d) {
        tlb := tlb - {(Pdx(va), Ptx(va))};
      }
    }

    method PageRemove(d: nat, va: nat, ghost held: set<nat>)
      requires Valid() && CpuValid() && Inv(s, held) && d in s.dirs && va < UTOP
      modifies this
      ensures Valid() && CpuValid() && DataUntouched() && unchanged(`kern, `cr3, `cur)
      ensures s == Remove(old(s), PageAt(d, va))
    {
      hide Refs, Rep, Owned, Mapped;
      var pp, pte := PageLookup(d, va, held);
      if pp.None? {
        return;
      }
      ghost var v := PageAt(d, va);
      LookedUpInUse(s, held, v);
      RemoveRep(mem, s, v);
      PageDecref(pp.value);
      mem := Poke(mem, pte.value, Ptx(va), ZERO);
      s := s.(maps := s.maps - {v});
      assert s == Remove(old(s), v);
      TlbInvalidate(d, va);
    }

    /** page_insert up to the store: the entry of va is empty and its table is `pte`, and pp
        is not on the free list even if the old entry held its last reference. */
    method ClearEntry(d: nat, pp: nat, va: nat, ghost held: set<nat>) returns (pte: Option<nat>, ghost h: set<nat>)
      requires Valid() && CpuValid() && Inv(s, held) && d in s.dirs && va < UTOP
      requires pp < |s.ref| && pp !in s.free
      modifies this
      ensures Valid() && CpuValid() && DataUntouched() && unchanged(`kern, `cr3, `cur)
      ensures var v, t := PageAt(d, va), Prepare(old(s), pp, PageAt(d, va));
              if t == None then pte == None && unchanged(this)
              else s == t.value && Prepared(old(s), held, pp, v, s, h) && pte == Some(s.tabs[v.slot])
    {
      hide Refs, Rep, Owned, Mapped, Counted;
      ghost var v := PageAt(d, va);
      h := held;
      pte := PgdirWalk(d, va, false, held);
      if pte.Some? {
        h := PrepareOverTable(s, held, pp, v);
        PteRead(mem, s, v);
        if HasP(mem[pte.value][Ptx(va)].flags) {
          PageRemove(d, va, held);
        }
        if head == Some(pp) {
          RepIgnoresCounts(mem, s, Alloc(s));
          head := link[pp];
          s := Alloc(s);
        }
      } else {
        if s.free != [] {
          PrepareWithTable(s, held, pp, v);
        }
        pte := PgdirWalk(d, va, true, held);
      }
    }

    /** Returns false for -E_NO_MEM. */
    method PageInsert(d: nat, pp: nat, va: nat, perm: bv12, ghost held: set<nat>) returns (ok: bool)
      requires Valid() && CpuValid() && Inv(s, held) && d in s.dirs && va < UTOP && Insertable(s, pp, perm)
      modifies this
      ensures Valid() && CpuValid() && DataUntouched() && unchanged(`kern, `cr3, `cur)
      ensures var t := Insert(old(s), pp, PageAt(d, va), perm);
              ok == t.Some? && if ok then s == t.value else unchanged(this)
    {
      hide Refs, Rep, Owned, Mapped, Counted, Prepare;
      ghost var v := PageAt(d, va);
      ghost var h;
      var pte;
      pte, h := ClearEntry(d, pp, va, held);
      if pte.None? {
        return false;
      }
      InsertRep(mem, s, v, Entry(pp, perm));
      mem := Poke(mem, pte.value, Ptx(va), Entry(pp, perm));
      ref := ref[pp := Inc16(ref[pp])];
      s := Incref(s, pp).(maps := s.maps[v := Entry(pp, perm)]);
      TlbInvalidate(d, va);
      return true;
    }

    // ---- The memory side of env_setup_vm and env_free (kern/env.c) ----

    /** env_setup_vm: a directory that copies kern_pgdir, with itself at UVPT. */
    method SetupVm(ghost held: set<nat>) returns (d: Option<nat>)
      requires Valid() && CpuValid() && Inv(s, held)
      modifies this
      ensures Valid() && CpuValid() && DataUntouched() && unchanged(`kern, `cr3, `tlb, `cur)
      ensures old(s.free) == [] ==> d == None && unchanged(this)
      ensures old(s.free) != [] ==> d == Some(old(s.free[0])) && s == NewDir(old(s))
    {
      hide Refs;
      d := PageAlloc(true, held);
      if d.None? {
        return;
      }
      AllocKeeps(old(s), held);
      Unreferenced(s, d.value);
      hide Rep, Counted, Owned, Mapped, FreeList;
      NewDirKeepsRep(mem, s, d.value);
      ref := ref[d.value := Inc16(ref[d.value])];
      mem := mem[d.value := mem[kern][UVPT_PDX := Entry(d.value, PTE_P | PTE_U)]];
      RepIgnoresCounts(mem, s.(dirs := s.dirs + {d.value}), NewDir(old(s)));
      s := NewDir(old(s));
    }

    /** One entry of env_free's inner loop. */
    method UnmapEntry(d: nat, pdeno: nat, pteno: nat, pt: nat, ghost held: set<nat>)
      requires Valid() && CpuValid() && Inv(s, held) && d in s.dirs && pdeno < UTOP_PDX && pteno < 1024
      requires Slot(d, pdeno) in s.tabs && pt == s.tabs[Slot(d, pdeno)]
      modifies this
      ensures Valid() && CpuValid() && Inv(s, held) && DataUntouched() && unchanged(`kern, `cr3, `cur)
      ensures s.dirs == old(s.dirs) && s.tabs == old(s.tabs)
      ensures var v := Page(Slot(d, pdeno), pteno); s == if v in old(s.maps) then Remove(old(s), v) else old(s)
    {
      hide Refs, Rep, Owned, Mapped, Counted, FreeList, IsTable, Chain, Pdx, Ptx, PgAddr, Decref;
      ghost var v := Page(Slot(d, pdeno), pteno);
      PteRead(mem, s, v);
      if HasP(mem[pt][pteno].flags) {
        PageAtFields(d, pdeno, pteno);
        RemovePresentKeeps(s, held, v);
        PageRemove(d, PgAddr(pdeno, pteno, 0), held);
      }
    }

    /** env_free's inner loop: unmap every present entry of one table. */
    method UnmapTable(d: nat, pdeno: nat, pt: nat, ghost held: set<nat>)
      requires Valid() && CpuValid() && Inv(s, held) && d in s.dirs && pdeno < UTOP_PDX
      requires Slot(d, pdeno) in s.tabs && pt == s.tabs[Slot(d, pdeno)]
      modifies this
      ensures Valid() && CpuValid() && DataUntouched() && unchanged(`kern, `cr3, `cur)
      ensures Inv(s, held) && s == FreeEntries(old(s), Slot(d, pdeno), 0)
      ensures s.dirs == old(s.dirs) && s.tabs == old(s.tabs)
    {
      hide Inv, Rep, IsTable, Remove;
      ghost var k := Slot(d, pdeno);
      var pteno := 0;
      while pteno < 1024
        invariant pteno <= 1024 && Valid() && CpuValid() && Inv(s, held) && DataUntouched()
        invariant unchanged(`kern, `cr3, `cur)
        invariant s.dirs == old(s.dirs) && s.tabs == old(s.tabs)
        invariant FreeEntries(s, k, pteno) == FreeEntries(old(s), k, 0)
      {
        UnmapEntry(d, pdeno, pteno, pt, held);
        pteno := pteno + 1;
      }
    }

    /** One round of env_free's outer loop. */
    method FreeOneTable(d: nat, pdeno: nat, ghost held: set<nat>)
      requires Valid() && CpuValid() && Inv(s, held) && d in s.dirs && pdeno < UTOP_PDX && Slot(d, pdeno) in s.tabs
      modifies this
      ensures Valid() && CpuValid() && DataUntouched() && unchanged(`kern, `cr3, `cur)
      ensures s == FreeTable(old(s), Slot(d, pdeno))
      ensures forall f :: IsTable(s.tabs, f) ==> IsTable(old(s.tabs), f)
    {
      hide Refs, Rep, Owned, Mapped, Counted, FreeList, FreeEntries;
      ghost var k := Slot(d, pdeno);
      PdeRead(mem, s, d, pdeno);
      var pa := mem[d][pdeno].frame;
      UnmapTable(d, pdeno, pa, held);
      TableInUse(s, held, k);
      DropTableRep(mem, s, k);
      PageDecref(pa);
      mem := Poke(mem, d, pdeno, ZERO);
      s := s.(tabs := s.tabs - {k});
      assert s == FreeTable(old(s), k);
    }

    /** The memory side of env_free: every table, then the directory itself. */
    method FreeUserSpace(d: nat, ghost held: set<nat>)
      requires Valid() && CpuValid() && Inv(s, held) && d in s.dirs && cr3 != d
      modifies this
      ensures Valid() && CpuValid() && DataUntouched() && unchanged(`kern, `cr3, `cur)
      ensures s == FreeSpace(old(s), d)
    {
      hide Refs, Rep, Owned, Mapped, Counted, FreeList, FreeTable, IsTable, Chain;
      var pdeno := 0;
      while pdeno < UTOP_PDX
        invariant pdeno <= UTOP_PDX && Valid() && CpuValid() && Inv(s, held) && DataUntouched()
        invariant unchanged(`kern, `cr3, `cur)
        invariant s.dirs == old(s.dirs) && s.kern == old(s.kern)
        invariant forall f :: IsTable(s.tabs, f) ==> IsTable(old(s.tabs), f)
        invariant FreeTables(s, d, pdeno) == FreeTables(old(s), d, 0)
      {
        PdeRead(mem, s, d, pdeno);
        if HasP(mem[d][pdeno].flags) {
          Teardown.FreeTableExact(s, held, Slot(d, pdeno));
          FreeOneTable(d, pdeno, held);
        }
        pdeno := pdeno + 1;
      }
      DropDirectory(d, held);
    }

    method DropDirectory(d: nat, ghost held: set<nat>)
      requires Valid() && CpuValid() && Inv(s, held) && d in s.dirs && cr3 != d
      modifies this
      ensures Valid() && CpuValid() && unchanged(`mem, `kern, `cr3, `cur) && s == DropDir(old(s), d)
    {
      hide Refs, Rep, Owned, Mapped, Counted, FreeList, Chain;
      DirInUse(s, held, d);
      PageDecref(d);
      DropDirKeepsRep(mem, s, d);
      s := s.(dirs := s.dirs - {d});
      assert s == DropDir(old(s), d);
    }

    /** One round of user_mem_check, at any address of the page. */
    method CheckPage(d: nat, addr: nat, perm: bv12, ghost held: set<nat>) returns (ok: bool, missing: bool)
      requires Valid() && CpuValid() && Inv(s, held) && d in s.dirs && addr < WORDS
      modifies this
      ensures unchanged(this) && Valid() && CpuValid()
      ensures ok <==> Granted(mem, d, addr / 4096, perm) && addr <= ULIM
      ensures missing <==> NoTable(mem, d, addr / 4096)
    {
      hide Rep, Inv, Shaped, Chain, Pdx, Ptx, PgOff, PgAddr, PgNum, HasP, HasAll, TableSlot, TlbAgrees;
      AddressFields(addr, 0, 0, 0);
      InvShaped(s, held);
      PdeRead(mem, s, d, Pdx(addr));
      var pte := PgdirWalk(d, addr, false, held);
      missing := pte.None?;
      if missing {
        return false, missing;
      }
      if addr > ULIM {
        return false, missing;
      }
      ok := HasAll(mem[pte.value][Ptx(addr)].flags, perm);
    }

    /** user_mem_check. If the first page that fails is not the first page of the range, the code
        reads the failing entry, and if the page has no table that is a read through NULL:
        the kernel panics, unless virtual page 0 happens to be mapped. */
    method UserMemCheck(d: nat, va: nat, len: nat, perm: bv12, ghost held: set<nat>) returns (r: Verdict)
      requires Valid() && CpuValid() && Inv(s, held) && d in s.dirs && va < WORDS && len < WORDS
      modifies this
      ensures unchanged(this) && Valid() && CpuValid()
      ensures r == Zero <==> forall pn | va / 4096 <= pn < RoundedEnd(va, len) / 4096 :: Checked(mem, d, va, pn, perm)
      ensures r == KernelPanic <==>
                exists pn: nat :: FirstFailing(mem, d, va, len, perm, pn) && pn != va / 4096 && NoTable(mem, d, pn) && Walk(mem, cr3, 0).None?
    {
      hide Rep, Inv, Chain, Granted, TlbAgrees, NoTable, Walk;
      var end := RoundedEnd(va, len);
      var addr := va;
      while addr < end
        invariant unchanged(this) && Valid() && CpuValid() && Inv(s, held)
        invariant addr % 4096 == va % 4096 && va <= addr && addr < WORDS
        invariant forall pn | va / 4096 <= pn < addr / 4096 :: Checked(mem, d, va, pn, perm)
        decreases WORDS - addr
      {
        ghost var pn := addr / 4096;
        assert pn < end / 4096 && pn * 4096 + va % 4096 == addr;
        var ok, missing := CheckPage(d, addr, perm | PTE_P, held);
        if !ok {
          assert FirstFailing(mem, d, va, len, perm, pn);
          OneFirst(mem, d, va, len, perm, pn);
          assert addr == va <==> pn == va / 4096;
          if addr == va || !missing {
            return Fault;
          }
          return if Walk(mem, cr3, 0).None? then KernelPanic else Fault;
        }
        addr := addr + PGSIZE;
        assert addr / 4096 == pn + 1;
      }
      r := Zero;
    }

    // ---- The processor: loading cr3, caching translations, user loads and stores ----

    method Lcr3(d: nat)
      requires Valid() && (d == kern || (d in s.dirs && cur == Some(d)))
      modifies `cr3, `tlb
      ensures Valid() && CpuValid() && cr3 == d
    {
      hide Rep, Chain;
      cr3 := d;
      tlb := map[];
    }

    /** The translation the processor uses: a cached one if there is one, else the walk's, which
        it then may cache (section 4.10 of Intel SDM Volume 3A). Either way it is the map's. */
    method Translate(va: nat, ghost held: set<nat>) returns (e: Option<Word>)
      requires Valid() && CpuValid() && Inv(s, held) && cr3 in s.dirs && va < UTOP
      modifies `tlb
      ensures Valid() && CpuValid()
      ensures var v := PageAt(cr3, va); e == if v in s.maps then Some(s.maps[v]) else None
    {
      hide Chain, Inv, Rep;
      var x := (Pdx(va), Ptx(va));
      if x in tlb {
        return Some(tlb[x]);
      }
      InvShaped(s, held);
      WalkRefinesMap(mem, s, cr3, va);
      e := Walk(mem, cr3, va);
      if e.Some? {
        tlb := tlb[x := e.value];
      }
    }

    /** A user-mode store of a word; false for a page fault. It can only reach frames mapped
        writable for the user: never a page table, a directory or a page reserved at boot. */
    method UserStore(va: nat, w: Word, ghost held: set<nat>) returns (ok: bool)
      requires Valid() && CpuValid() && Inv(s, held) && cr3 in s.dirs && va < UTOP
      modifies `mem, `tlb
      ensures Valid() && CpuValid()
      ensures var v := PageAt(cr3, va);
              && (ok <==> v in s.maps && HasU(s.maps[v].flags) && HasW(s.maps[v].flags))
              && (!ok ==> mem == old(mem))
              && (ok ==> var f := s.maps[v].frame;
                         && f < |old(mem)| && |old(mem)[f]| == 1024 && s.boot[f] == 0
                         && mem == Poke(old(mem), f, PgOff(va) / 4, w))
    {
      hide Chain, Counted, FreeList, Owned, DirRep, TableRep;
      var e := Translate(va, held);
      if e.None? || !HasU(e.value.flags) || !HasW(e.value.flags) {
        return false;
      }
      var f := e.value.frame;
      assert DataFrame(s, f, e.value.flags);
      DataKeepsRep(mem, s, f, mem[f][PgOff(va) / 4 := w]);
      mem := Poke(mem, f, PgOff(va) / 4, w);
      return true;
    }

    /** A user-mode load of a word; None for a page fault. */
    method UserLoad(va: nat, ghost held: set<nat>) returns (w: Option<Word>)
      requires Valid() && CpuValid() && Inv(s, held) && cr3 in s.dirs && va < UTOP
      modifies `tlb
      ensures Valid() && CpuValid()
      ensures var v := PageAt(cr3, va);
              if v in s.maps && HasU(s.maps[v].flags) then
                var f := s.maps[v].frame; f < |mem| && |mem[f]| == 1024 && w == Some(mem[f][PgOff(va) / 4])
              else w == None
    {
      hide Chain, Counted, FreeList, Owned, DirRep, TableRep;
      var e := Translate(va, held);
      if e.None? || !HasU(e.value.flags) {
        return None;
      }
      assert DataFrame(s, e.value.frame, e.value.flags);
      return Some(mem[e.value.frame][PgOff(va) / 4]);
    }

    // ---- Boot-time code ----

    /** boot_map_region on kern_pgdir. It stops early, in silence, when a page table is needed
        and no page is free; `done` is how many pages it mapped. */
    method BootMapRegion(va: nat, size: nat, pa: nat, perm: bv12, ghost held: set<nat>) returns (ghost done: nat)
      requires Valid() && CpuValid() && Inv(s, held) && s.dirs == {}
      requires va % 4096 == 0 && UTOP <= va && va + size <= WORDS
      requires va + size <= UVPT || ULIM <= va
      modifies this
      ensures Valid() && CpuValid() && Inv(s, held) && s.dirs == {} && s.kern == old(s.kern) && s.boot == old(s.boot)
      ensures done <= size / 4096 && (done < size / 4096 ==> s.free == [])
      ensures RegionMapped(s, old(s), va / 4096, pa / 4096, perm, done)
    {
      hide Rep, Chain, Inv, RegionMapped;
      done := 0;
      var temp, vaNext, paNext := 0, va, pa;
      NothingMapped(s, va / 4096, pa / 4096, perm);
      while temp < size / 4096
        invariant temp == done <= size / 4096
        invariant vaNext == va + temp * 4096 && paNext / 4096 == pa / 4096 + temp
        invariant Valid() && CpuValid() && Inv(s, held) && s.dirs == {} && s.kern == old(s.kern) && s.boot == old(s.boot)
        invariant RegionMapped(s, old(s), va / 4096, pa / 4096, perm, done)
      {
        ghost var v := PageNo(kern, va / 4096 + temp);
        ghost var before := s;
        KernelPage(va, size, temp);
        var pte := MapKernelPage(vaNext, paNext, perm, v, held);
        if !pte {
          return;
        }
        RegionGrows(before, old(s), va / 4096, pa / 4096, perm, done, s);
        paNext := paNext + PGSIZE;
        vaNext := vaNext + PGSIZE;
        temp := temp + 1;
        done := done + 1;
      }
    }

    /** One round of boot_map_region; false when no page table could be made. */
    method MapKernelPage(va: nat, pa: nat, perm: bv12, ghost v: Page, ghost held: set<nat>) returns (ok: bool)
      requires Valid() && CpuValid() && Inv(s, held) && s.dirs == {}
      requires va < WORDS && v == PageAt(kern, va) && TableSlot(s, v.slot)
      modifies this
      ensures Valid() && CpuValid() && Inv(s, held) && s.dirs == {} && s.kern == old(s.kern) && s.boot == old(s.boot)
      ensures if ok then s.maps == old(s.maps)[v := Entry(pa / 4096, perm)] else unchanged(this) && s.free == []
    {
      hide Rep, Chain, Refs, Owned, Mapped, Counted, FreeList;
      PdeRead(mem, s, kern, Pdx(va));
      if v.slot !in s.tabs && s.free != [] {
        NewTableKeeps(s, held, v.slot);
      }
      var pte := PgdirWalk(kern, va, true, held);
      if pte.None? {
        return false;
      }
      assert Inv(s, held) && v.slot in s.tabs && s.kern == old(s.kern) && s.dirs == {};
      StoreKernelEntry(pte.value, Ptx(va), Entry(pa / 4096, perm), v, held);
      return true;
    }

    method StoreKernelEntry(pt: nat, ptx: nat, w: Word, ghost v: Page, ghost held: set<nat>)
      requires Valid() && CpuValid() && Inv(s, held) && v.slot.dir == s.kern && v.slot in s.tabs
      requires pt == s.tabs[v.slot] && ptx == v.ptx < 1024 && HasP(w.flags)
      modifies `mem, `s
      ensures Valid() && CpuValid() && Inv(s, held) && s == old(s).(maps := old(s.maps)[v := w])
    {
      hide Rep, Chain, Refs, Counted, FreeList, HasP, IsTable;
      PteRead(mem, s, v);
      PteKeepsRep(mem, s, s.(maps := s.maps[v := w]), v, w);
      KernelMapKeeps(s, held, v, w);
      mem := Poke(mem, pt, ptx, w);
      s := s.(maps := s.maps[v := w]);
    }

    /** The tail-pointer loop of check_page_free_list. For the low pages (true) and the high
        ones (false), first is pp1 or pp2 and tp is where the next page is stored: None for the
        address of that variable, Some(p) for &pages[p].pp_link. */
    method RunTails(limit: nat, ghost list: seq<nat>) returns (first: map<bool, Option<nat>>, tp: map<bool, Option<nat>>)
      requires Chain(head, link, list) && Distinct(list)
      modifies `link
      ensures |link| == |old(link)| && first.Keys == {true, false} == tp.Keys
      ensures Trail(first[true], tp[true], link, Select(list, limit, true))
      ensures Trail(first[false], tp[false], link, Select(list, limit, false))
    {
      hide Chain, Trail, Select;
      ghost var i := 0;
      first, tp := map[true := None, false := None], map[true := None, false := None];
      var pp: Option<nat> := head;
      assert list[0..] == list && list[..0] == [];
      EmptyTrail(link, limit);
      while pp.Some?
        invariant i <= |list| && |link| == |old(link)|
        invariant Chain(pp, link, list[i..])
        invariant first.Keys == {true, false} == tp.Keys
        invariant Trail(first[true], tp[true], link, Select(list[..i], limit, true))
        invariant Trail(first[false], tp[false], link, Select(list[..i], limit, false))
        decreases |list| - i
      {
        ChainStep(pp, link, list, i);
        SelectStep(list, limit, i);
        var low := pp.value / 1024 < limit;
        TrailGrows(first[low], tp[low], link, Select(list[..i], limit, low), list[i]);
        if tp[low].Some? {
          var q := tp[low].value;
          SelectApart(list, limit, i, low, q);
          TrailIgnoresOthers(first[!low], tp[!low], link, Select(list[..i], limit, !low), q, pp);
          ChainIgnoresOthers(pp, link, list[i..], q, pp);
          link := link[q := pp];
        } else {
          first := first[low := pp];
        }
        tp := tp[low := pp];
        ChainStep(pp, link, list, i);
        pp := link[pp.value];
        i := i + 1;
      }
      ChainStep(pp, link, list, i);
      assert list[..i] == list;
    }

    /** The end of that loop: the high pages' chain is ended, the low pages' chain is continued by it, and
        the list starts at the first low page. */
    method MoveLowPagesFirst(limit: nat, ghost held: set<nat>)
      requires Valid() && CpuValid() && Inv(s, held)
      modifies this
      ensures Valid() && CpuValid() && unchanged(`mem, `ref, `kern, `cr3, `tlb, `cur)
      ensures s == old(s).(free := Select(old(s.free), limit, true) + Select(old(s.free), limit, false))
    {
      hide Inv, Rep, Chain, Trail, Select;
      ghost var a, b := Select(s.free, limit, true), Select(s.free, limit, false);
      PartitionSides(s.free, limit);
      assert Distinct(s.free) by { FreeDistinct(s, held); }
      var first, tp := RunTails(limit, s.free);
      EmptyChain(link);
      CloseTrail(first[false], tp[false], link, b, None, []);
      assert b + [] == b;
      if tp[false].Some? {
        TrailIgnoresOthers(first[true], tp[true], link, a, tp[false].value, None);
        link := link[tp[false].value := None];
      } else {
        first := first[false := None];
      }
      CloseTrail(first[true], tp[true], link, a, first[false], b);
      if tp[true].Some? {
        link := link[tp[true].value := first[false]];
      } else {
        first := first[true := first[false]];
      }
      head := first[true];
      RepIgnoresCounts(mem, s, s.(free := a + b));
      s := s.(free := a + b);
    }
  }
}
