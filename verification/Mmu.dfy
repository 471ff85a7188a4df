/** Address arithmetic and page-table entries (inc/mmu.h, inc/memlayout.h).
    A physical address that is page aligned is written as its frame number. */
module Mmu {
  import opened Words

  const PGSIZE: nat := 4096
  const NPTENTRIES: nat := 1024

  const UTEXT: nat := 0x80_0000
  const PFTEMP: nat := 0x7F_F000
  const UXSTACKTOP: nat := 0xEEC0_0000
  const UTOP: nat := 0xEEC0_0000
  const UVPT: nat := 0xEF40_0000
  const ULIM: nat := 0xEF80_0000

  /** Directory slots below this one hold user page tables: PDX(UTOP). */
  const UTOP_PDX: nat := 955
  /** The directory slot of the self-map: PDX(UVPT). */
  const UVPT_PDX: nat := 957

  function PgNum(va: nat): nat { va / 4096 }

  function Pdx(va: nat): (i: nat)
    ensures i < 1024
  {
    va / 0x40_0000 % 1024
  }

  function Ptx(va: nat): (i: nat)
    ensures i < 1024
  {
    va / 4096 % 1024
  }

  function PgOff(va: nat): nat { va % 4096 }

  function PgAddr(pdx: nat, ptx: nat, off: nat): nat { pdx * 0x40_0000 + ptx * 4096 + off }

  /** The three fields of an address determine it, and any three fields make an address. */
  lemma AddressFields(va: nat, pdx: nat, ptx: nat, off: nat)
    requires va < WORDS && pdx < 1024 && ptx < 1024 && off < 4096
    ensures PgAddr(Pdx(va), Ptx(va), PgOff(va)) == va
    ensures Pdx(va) == va / 4096 / 1024 && Ptx(va) == va / 4096 % 1024
    ensures var a := PgAddr(pdx, ptx, off);
            a < WORDS && Pdx(a) == pdx && Ptx(a) == ptx && PgOff(a) == off && PgNum(a) == pdx * 1024 + ptx
  {
    var a := PgAddr(pdx, ptx, off);
    assert a / 4096 == pdx * 1024 + ptx;
    assert va / 0x40_0000 == va / 4096 / 1024;
  }

  // ---- Words of memory ----

  /** A 32-bit word, cut where PTE_ADDR cuts it: as a page-table or directory entry it is a
      frame number and twelve flag bits. Memory holds words of all uses. */
  datatype Word = Word(frame: nat, flags: bv12)

  const ZERO := Word(0, 0)

  const PTE_P: bv12 := 0x001
  const PTE_W: bv12 := 0x002
  const PTE_U: bv12 := 0x004
  const PTE_COW: bv12 := 0x800
  const PTE_SYSCALL: bv12 := 0xE07

  predicate HasP(flags: bv12) { flags & 0x001 != 0 }

  predicate HasW(flags: bv12) { flags & 0x002 != 0 }

  predicate HasU(flags: bv12) { flags & 0x004 != 0 }

  predicate HasCow(flags: bv12) { flags & 0x800 != 0 }

  predicate HasAll(flags: bv12, perm: bv12) { flags & perm == perm }

  /** The entry page2pa(pp) | PTE_P | perm. */
  function Entry(frame: nat, perm: bv12): (w: Word)
    ensures w.frame == frame && HasP(w.flags)
    ensures HasW(w.flags) <==> HasW(perm)
    ensures HasU(w.flags) <==> HasU(perm)
    ensures HasCow(w.flags) <==> HasCow(perm)
  {
    Word(frame, perm | 0x001)
  }
}
