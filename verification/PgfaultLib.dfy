/** The copy-on-write page fault handler of lib/fork.c, as the system calls and stores it makes. */
module PgfaultLib {
  import opened Basics
  import opened Mmu
  import opened PageSpace
  import opened PageWords
  import Pmap
  import opened EnvState
  import FreeChain
  import KernelCalls
  import opened Cow
  import opened LibCalls

  lemma FixedPages(d: nat)
    ensures VaOk(XSTACK) && VaOk(PFTEMP) && PageAt(d, XSTACK) == ExceptionPage(d) && PageAt(d, PFTEMP) == PfTemp(d)
  {
  }

  const XSTACK: nat := UXSTACKTOP - PGSIZE

  lemma AddressPage(d: nat, addr: nat)
    requires addr < UTOP
    ensures VaOk(addr / 4096 * 4096) && PageAt(d, addr / 4096 * 4096) == PageAt(d, addr)
    ensures PageNo(d, PgNum(addr)) == PageAt(d, addr) && PgNum(addr) < 955 * 1024
  {
    assert addr / 4096 * 4096 / 0x40_0000 == addr / 0x40_0000;
    assert addr / 0x40_0000 == addr / 4096 / 1024;
  }

  lemma NotCow()
    ensures !HasCow(ZERO.flags)
  {
  }

  /** A copy-on-write page that pgfault can repair: nobody can write its frame, and it is neither
      PFTEMP nor the handler's own stack. */
  ghost predicate Repairable(s: Space, v: Page) {
    && v in s.maps && HasU(s.maps[v].flags) && HasCow(s.maps[v].flags) && !HasW(s.maps[v].flags) && !Exposed(s, v)
    && v != PfTemp(v.slot.dir) && v != ExceptionPage(v.slot.dir)
  }

  /** There is memory for the copy, and for the table of PFTEMP if that is missing. */
  ghost predicate CanRepair(s: Space, v: Page) {
    |s.free| >= 2 || (s.free != [] && PfTemp(v.slot.dir).slot in s.tabs)
  }

  /** From a to b page v was given a private writable copy at frame x. */
  ghost predicate Repaired(a: Machine, b: Machine, v: Page, x: nat) {
    && Between(a, b, x) && a.s.free != [] && Unmapped(a.s, x) && x < |a.mem| && v in a.s.maps && a.s.maps[v].frame < |a.mem|
    && b.mem[x] == a.mem[a.s.maps[v].frame]
    && b.s.maps == a.s.maps[v := Entry(x, UPW)] - {PfTemp(v.slot.dir)}
    && b.s.dirs == a.s.dirs && b.s.boot == a.s.boot
    && b.s.tabs.Keys == a.s.tabs.Keys + {PfTemp(v.slot.dir).slot}
    && (PfTemp(v.slot.dir) !in a.s.maps ==>
          |b.s.free| == |a.s.free| - (if PfTemp(v.slot.dir).slot in a.s.tabs then 0 else 1) - 1 + Released(a.s, v))
  }

  /** A mapped frame is counted by its mappings alone. */
  lemma DataCount(s: Space, v: Page)
    requires Inv(s, {}) && IsUser(s, v)
    ensures s.maps[v].frame < |s.ref| == |s.boot| && s.ref[s.maps[v].frame] == s.boot[s.maps[v].frame] + |DataRefs(s, s.maps[v].frame)|
  {
    hide FreeList, Owned;
    var f := s.maps[v].frame;
    assert DataFrame(s, f, s.maps[v].flags);
    assert TableRefs(s, f) == {} by {
      assert forall k | k in s.tabs :: s.tabs[k] != f;
    }
  }

  lemma SameReleased(s: Space, t: Space, v: Page, w: Page, x: nat)
    requires Inv(s, {}) && Inv(t, {}) && IsUser(s, v) && FreshAt(s, t, w, x) && w !in s.maps && v != w && Unmapped(s, x)
    ensures Released(t, v) == Released(s, v)
  {
    hide Inv, HasW;
    DataCount(s, v);
    DataCount(t, v);
    var f := s.maps[v].frame;
    assert DataRefs(t, f) == DataRefs(s, f);
  }

  /** The page after its allocation, its copying, its mapping at v and its unmapping at PFTEMP. */
  lemma AllRepaired(a: Machine, b: Machine, c: Machine, e: Machine, f: Machine, v: Page, x: nat)
    requires Repairable(a.s, v) && v.slot.dir in a.s.dirs && Unmapped(a.s, x) && x < |a.mem|
    requires FreshAt(a.s, b.s, PfTemp(v.slot.dir), x) && Between(a, b, x)
    requires v in b.s.maps && b.s.maps[v].frame < |b.mem| && c == Machine(b.s, b.mem[x := b.mem[b.s.maps[v].frame]])
    requires Insert(b.s, x, v, UPW) == Some(e.s) && Between(c, e, |c.mem|)
    requires e.s.maps == b.s.maps[v := Entry(x, UPW)] && e.s.dirs == b.s.dirs && e.s.boot == b.s.boot && e.s.kern == b.s.kern
    requires f.s == Remove(e.s, PfTemp(v.slot.dir)) && Between(e, f, |e.mem|)
    requires f.s.maps == e.s.maps - {PfTemp(v.slot.dir)} && f.s.dirs == e.s.dirs && f.s.boot == e.s.boot && f.s.tabs == e.s.tabs
    requires |f.s.free| == |e.s.free| + Released(e.s, PfTemp(v.slot.dir))
    ensures Repaired(a, f, v, x)
  {
    hide Inv, Shaped, HasW, HasU, HasCow, Exposed, Insert, Remove, Entry, UPW, Unmapped;
    var t := PfTemp(v.slot.dir);
    KernOwnsNone(a.s, v.slot.dir);
    InvShaped(b.s, {});
    MappedHasTable(b.s, v);
    MappedHasTable(b.s, t);
    UserMapped(f.s, v);
    UserMapped(e.s, v);
    assert b.s.maps[v] == a.s.maps[v];
    SourceKept(a.s, b.s, v, x);
    assert f.s.maps == a.s.maps[v := Entry(x, UPW)] - {t};
    CountRepaired(a.s, b.s, e.s, v, x);
    forall g: nat | g < |a.mem| && g != x && !Unmapped(f.s, g) ensures f.mem[g] == a.mem[g] {
      MappedBefore(f.s, e.s, b.s, g, v, x, t);
    }
  }

  lemma UserMapped(s: Space, v: Page)
    requires IsUser(s, v)
    ensures !Unmapped(s, s.maps[v].frame)
  {
  }

  lemma SourceKept(s: Space, t: Space, v: Page, x: nat)
    requires IsUser(s, v) && v in t.maps && t.maps[v] == s.maps[v] && t.kern == s.kern && Unmapped(s, x)
    ensures s.maps[v].frame != x && !Unmapped(t, s.maps[v].frame)
  {
    assert IsUser(t, v);
  }

  lemma MappedBefore(f: Space, e: Space, b: Space, g: nat, v: Page, x: nat, t: Page)
    requires f.kern == e.kern == b.kern && e.maps == b.maps[v := Entry(x, UPW)] && f.maps == e.maps - {t}
    requires !Unmapped(f, g) && g != x
    ensures !Unmapped(e, g) && !Unmapped(b, g)
  {
    hide HasW;
    var u :| IsUser(f, u) && f.maps[u].frame == g;
    assert IsUser(e, u) && IsUser(b, u);
  }

  lemma CountRepaired(s: Space, t: Space, e: Space, v: Page, x: nat)
    requires Inv(s, {}) && Inv(t, {}) && Inv(e, {}) && IsUser(s, v) && FreshAt(s, t, PfTemp(v.slot.dir), x) && Unmapped(s, x)
    requires v != PfTemp(v.slot.dir) && Insert(t, x, v, UPW) == Some(e) && e.maps == t.maps[v := Entry(x, UPW)] && e.kern == t.kern
    ensures e.tabs.Keys == s.tabs.Keys + {PfTemp(v.slot.dir).slot}
    ensures Released(e, PfTemp(v.slot.dir)) == 0
    ensures PfTemp(v.slot.dir) !in s.maps ==>
              |e.free| == |s.free| - (if PfTemp(v.slot.dir).slot in s.tabs then 0 else 1) - 1 + Released(s, v)
  {
    hide Inv, HasW, Insert, Entry, UPW;
    var w := PfTemp(v.slot.dir);
    assert v in t.maps && t.maps[v] == s.maps[v] && s.maps[v].frame != x;
    InvShaped(t, {});
    MappedHasTable(t, v);
    InUse(t, w);
    InsertCost(t, {}, x, v, UPW);
    assert v.slot in t.tabs.Keys;
    assert e.tabs.Keys == t.tabs.Keys;
    TwoMappings(e, v, w, x);
    if w !in s.maps {
      SameReleased(s, t, v, w, x);
    }
  }

  lemma InUse(s: Space, v: Page)
    requires Inv(s, {}) && IsUser(s, v)
    ensures s.maps[v].frame < |s.ref| && s.maps[v].frame !in s.free
  {
    hide Counted, Owned, Mapped;
    LookedUpInUse(s, {}, v);
  }

  lemma TwoMappings(s: Space, v: Page, w: Page, x: nat)
    requires Inv(s, {}) && IsUser(s, v) && IsUser(s, w) && v != w && s.maps[v].frame == s.maps[w].frame == x
    ensures x < |s.ref| && s.ref[x] >= 2
  {
    hide Inv;
    DataCount(s, v);
    var refs := DataRefs(s, x);
    assert v in refs && w in refs;
    SubsetSize({v, w}, refs);
    assert |{v, w}| == 2;
  }

  lemma SubsetSize<T>(a: set<T>, b: set<T>)
    requires a <= b
    ensures |a| <= |b|
  {
    assert b == a + (b - a);
  }

  /** A repaired page is private: where nothing writable was shared, nothing is. */
  lemma FaultKeepsCow(a: Machine, b: Machine, v: Page, x: nat)
    requires Repaired(a, b, v, x) && CowInv(a.s) && v.slot.dir != a.s.kern
    ensures CowInv(b.s)
  {
    hide Inv, HasW, UPW, Between;
    assert b.s.kern == a.s.kern by { SameKern(a, b, x); }
    forall y, z | IsUser(b.s, y) && Writes(b.s, z, b.s.maps[y].frame) ensures y == z {
      assert y != v ==> IsUser(a.s, y);
      assert z != v ==> IsUser(a.s, z);
      assert z != v && y != v ==> Writes(a.s, z, a.s.maps[y].frame);
    }
  }

  lemma SameKern(a: Machine, b: Machine, x: nat)
    requires Between(a, b, x)
    ensures b.s.kern == a.s.kern
  {
    hide Inv;
  }

  /** pgfault, on a fault at faultVa; false when it panics - for a fault that is no write, also the
      one that reading uvpt takes when the page has no table. It succeeds exactly for a write to
      a copy-on-write page when there is memory for the copy. */
  method Pgfault(kn: KernelCalls.Kernel, faultVa: nat, write: bool, ghost a: Machine) returns (ok: bool, ghost x: nat)
    requires Ready(kn) && faultVa < UTOP && Reaches(a, Now(kn))
    requires var v := PageAt(Dir(kn.k), faultVa); v in kn.k.s.maps && HasCow(kn.k.s.maps[v].flags) ==> Repairable(kn.k.s, v)
    modifies kn, kn.pm
    ensures Ready(kn) && kn.k == old(kn.k).(s := kn.k.s) && Reaches(a, Now(kn))
    ensures var s, v := old(kn.k.s), PageAt(Dir(old(kn.k)), faultVa);
            && (ok <==> write && v in s.maps && HasCow(s.maps[v].flags) && CanRepair(s, v))
            && (!ok ==> kn.k == old(kn.k))
            && (ok ==> Repaired(old(Now(kn)), Now(kn), v, x))
    ensures CowInv(old(kn.k.s)) ==> CowInv(kn.k.s)
  {
    hide Inv, Slots, FreeEnvs, OwnDirs, Rep, FreeChain.Chain, Pmap.TlbAgrees, HasU, HasW, HasCow, Exposed, Pdx, Ptx, Entry, UPW, Unmapped, PgNum, VaOk,
      Reaches, Between, FreshAt, Repaired, Insert, Remove, CowInv;
    x := 0;
    if !write {
      return false, x;
    }
    ghost var k, d := kn.k, Dir(kn.k);
    ghost var v := PageAt(d, faultVa);
    AddressPage(d, faultVa);
    var pte := ReadUvpt(kn, PgNum(faultVa));
    if pte.None? {
      NoTableNoPage(k, v);
      return false, x;
    }
    NotCow();
    if !HasCow(pte.value.flags) {
      return false, x;
    }
    var envid, addr := kn.envs[kn.cur.value].id, faultVa / PGSIZE * PGSIZE;
    MyIdResolves(k);
    FixedPages(d);
    var r;
    r, x := AllocPage(kn, envid, PFTEMP, a, PfTemp(d));
    if r < 0 {
      return false, x;
    }
    RepairPage(kn, envid, addr, k, old(Now(kn)), a, v, x);
    if CowInv(k.s) {
      FaultKeepsCow(old(Now(kn)), Now(kn), v, x);
    }
    return true, x;
  }

  lemma NoTableNoPage(k: State, v: Page)
    requires KInv(k) && v.slot !in k.s.tabs
    ensures v !in k.s.maps
  {
  }

  /** The fresh page is writable at one place. */
  lemma FreshAlone(s: Space, t: Space, w: Page, x: nat)
    requires FreshAt(s, t, w, x) && Unmapped(s, x) && w.slot.dir != s.kern
    ensures w in t.maps && t.maps[w] == Entry(x, UPW) && IsUser(t, w) && !Exposed(t, w)
    ensures HasU(t.maps[w].flags) && HasW(t.maps[w].flags)
    ensures forall u :: Writes(t, u, x) ==> u == w
  {
    UpwOk();
    hide HasW, HasU, UPW;
    forall u | Writes(t, u, x) ensures u == w {
      assert u != w ==> IsUser(s, u);
    }
  }

  lemma RepairArgs(k: State, addr: nat, v: Page, x: nat)
    requires KInv(k) && k.cur.Some? && VaOk(addr) && v == PageAt(Dir(k), addr)
    requires var w := PfTemp(Dir(k)); w in k.s.maps && k.s.maps[w] == Entry(x, UPW) && !Exposed(k.s, w) && forall u :: Writes(k.s, u, x) ==> u == w
    requires x < |k.s.ref| && k.s.ref[x] == 1
    ensures MapArgs(k, Me(k), PFTEMP, Me(k), addr, UPW, PfTemp(Dir(k)), v)
  {
    UpwOk();
    FixedPages(Dir(k));
    MyIdResolves(k);
    hide Inv, Slots, FreeEnvs, OwnDirs, HasW, HasU, HasP, Exposed, Pdx, Ptx, UPW, PermOk;
    assert HasW(Entry(x, UPW).flags);
  }

  /** The rest of pgfault, once the page x is mapped at PFTEMP. m0 is from before. */
  method RepairPage(kn: KernelCalls.Kernel, envid: int, addr: nat, ghost k: State, ghost m0: Machine, ghost a: Machine, ghost v: Page, ghost x: nat)
    requires Ready(kn) && KInv(k) && k.cur.Some? && kn.k == k.(s := kn.k.s) && m0.s == k.s && Reaches(a, Now(kn))
    requires envid == Me(k) && VaOk(addr) && v == PageAt(Dir(k), addr) && Repairable(k.s, v) && Unmapped(k.s, x)
    requires FreshAt(k.s, kn.k.s, PfTemp(Dir(k)), x) && Between(m0, Now(kn), x) && x < |m0.mem| == |kn.pm.mem|
    modifies kn, kn.pm
    ensures Ready(kn) && kn.k == k.(s := kn.k.s) && Reaches(a, Now(kn))
    ensures Repaired(m0, Now(kn), v, x)
  {
    hide Inv, Slots, FreeEnvs, OwnDirs, Rep, FreeChain.Chain, Pmap.TlbAgrees, HasU, HasW, HasCow, Pdx, Ptx, Entry, UPW, Unmapped, VaOk, Reaches, Repaired,
      Insert, Remove, Between, Exposed, Writes;
    ghost var d, t := Dir(k), kn.k;
    ghost var b, w := Now(kn), PfTemp(d);
    MyIdResolves(k);
    MyIdResolves(t);
    FixedPages(d);
    FreshAlone(k.s, t.s, w, x);
    UserOf(k, v);
    SourceKept(k.s, t.s, v, x);
    CopyPage(kn, PFTEMP, addr, a, w, v);
    ghost var c := Now(kn);
    RepairArgs(t, addr, v, x);
    HasOwnTable(t, v);
    InsertChanges(t, w, v, UPW) by { RepairInserts(t, addr, v, x); }
    var r := MapPage(kn, envid, PFTEMP, envid, addr, UPW, a, w, v);
    ghost var e := Now(kn);
    ghost var z := kn.k;
    assert w in z.s.maps;
    Unmapping(z, w);
    r := UnmapPage(kn, envid, PFTEMP, a, w);
    AllRepaired(m0, b, c, e, Now(kn), v, x);
  }

  lemma UserOf(k: State, v: Page)
    requires KInv(k) && k.cur.Some? && v in k.s.maps && v.slot.dir == Dir(k)
    ensures IsUser(k.s, v) && v.slot in k.s.tabs
  {
    MyIdResolves(k);
  }

  lemma HasOwnTable(k: State, v: Page)
    requires KInv(k) && v in k.s.maps
    ensures v.slot in k.s.tabs
  {
  }

  lemma RepairInserts(k: State, addr: nat, v: Page, x: nat)
    requires KInv(k) && k.cur.Some? && VaOk(addr) && v == PageAt(Dir(k), addr) && PfTemp(Dir(k)) in k.s.maps
    requires k.s.maps[PfTemp(Dir(k))] == Entry(x, UPW) && x < |k.s.ref| && k.s.ref[x] == 1
    ensures UserPage(k.s, v) && Dir(k) in k.s.dirs && HasW(k.s.maps[PfTemp(Dir(k))].flags) && Room(k.s, x, v)
  {
    MyIdResolves(k);
    EnvRuns.UserVa(k.s, Dir(k), addr);
    UpwOk();
  }
}
