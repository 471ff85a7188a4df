/** fork of lib/fork.c as a user program: it sees its page tables through the self-map and changes
    them by system calls, while its own stores run into the pages that it has just shared. */
module ForkLib {
  import opened Basics
  import opened Mmu
  import opened PageSpace
  import opened PageWords
  import Pmap
  import EnvIds
  import opened EnvState
  import EnvRuns
  import opened KernelCalls
  import opened Cow
  import opened LibCalls
  import opened PgfaultLib
  import opened ForkSteps
  import opened ForkPlan
  import opened ForkFate
  import ForkBounds
  import ForkTally
  import opened ForkState
  import opened ForkCalls

  // ---- The parent's own code ----

  /** The parent's stores so far are those of the gaps before the t-th. */
  ghost predicate Follows(code: seq<seq<Write>>, t: nat, g: Prog) { g.ws == Joined(code, t) }

  /** Memory does not suffice for fork and the faults of the tally. */
  ghost predicate Short(x: Ctx, o: Tally) { |x.s.free| < ForkCost(x.s, Pd(x)) + Need(o) }

  /** Memory does not suffice for fork to reach PFTEMP. */
  ghost predicate TooFew(x: Ctx, code: seq<seq<Write>>) { Short(x, AtTemp(x.s, Pd(x), code)) }

  /** When fork has reached page n: as long as no call has failed, the faults are those of the plan. */
  ghost predicate OnPlan(x: Ctx, g: Prog, code: seq<seq<Write>>, t: nat, n: nat) {
    if g.complete then g.own == PlanTo(x.s, Pd(x), code, n) && t == GapsTo(x.s, Pd(x), n) else TooFew(x, code)
  }

  /** What has come of fork so far is what was foreseen, memory included. */
  ghost predicate OnCourse(x: Ctx, g: Prog, code: seq<seq<Write>>, t: nat, n: nat) {
    CourseTo(x.s, Pd(x), code, n) == Course(true, g.complete, t, g.own) && !g.lent
  }

  /** A store of the parent faults in vain before the loop is over. */
  ghost predicate Died(x: Ctx, code: seq<seq<Write>>) { !CourseTo(x.s, Pd(x), code, LAST).alive }

  ghost function StoredOne(x: Ctx, g: Prog, w: Write): Prog {
    g.(ws := g.ws + [w], own := if g.complete then AfterStore(x.s, Pd(x), g.own, w, g.stack.Some?) else g.own)
  }

  ghost function Stored(x: Ctx, g: Prog, ws: seq<Write>): Prog {
    g.(ws := g.ws + ws, own := if g.complete then AfterStores(x.s, Pd(x), g.own, ws, g.stack.Some?) else g.own)
  }

  lemma StoredMore(x: Ctx, g: Prog, ws: seq<Write>, i: nat)
    requires i < |ws|
    ensures Stored(x, g, ws[..i + 1]) == StoredOne(x, Stored(x, g, ws[..i]), ws[i])
    ensures Stored(x, g, ws[..i]).complete == g.complete && Stored(x, g, ws[..i]).stack == g.stack
    ensures g.complete && Short(x, StoredOne(x, Stored(x, g, ws[..i]), ws[i]).own) ==> Short(x, Stored(x, g, ws).own)
  {
    hide AfterStores, AfterStore, Need, ForkCost;
    assert ws[..i + 1] == ws[..i] + [ws[i]];
    AfterOneMore(x.s, Pd(x), g.own, ws[..i], ws[i], g.stack.Some?);
    PrefixGrows(x.s, Pd(x), g.own, ws, g.stack.Some?, i + 1);
  }

  lemma FaultShort(x: Ctx, g: Prog, k: State, mem: Frames, w: Write)
    requires Core(x, g, k, mem) && OwnPage(x.s, Pd(x), w.va) && !CanRepair(k.s, PageAt(Pd(x), w.va)) && PageAt(Pd(x), w.va) in k.s.maps
    requires !HasW(k.s.maps[PageAt(Pd(x), w.va)].flags)
    ensures g.complete ==> Short(x, StoredOne(x, g, w).own)
  {
    hide Inv, KInv, HasW, Progress, View, Watched, CowInv, ForkCost, Pdx, Ptx, CanRepair, Gap, ForkTally.Accounted, OwnPage, Gives;
    OwnPageFine(x, g, k, mem, w.va);
    FaultFails(x.s, k.s, Pd(x), Cd(x), InChildTo(g), g.stack, g.complete, g.own.kept, PageAt(Pd(x), w.va));
  }

  function PlaceOf(g: Prog): Place { Place(InChildTo(g), g.stack.Some?, g.lent) }

  /** The pages that are free, and so the faults that can be repaired, are those foreseen. */
  lemma SpareIs(x: Ctx, g: Prog, k: State, mem: Frames)
    requires Core(x, g, k, mem)
    ensures if g.complete then |k.s.free| == Spare(x.s, Pd(x), PlaceOf(g), g.own) else k.s.free == [] && g.stack == None
    ensures Slot(Pd(x), 1) in k.s.tabs <==> HasTemp(x.s, Pd(x), g.own, g.lent)
    ensures forall v: Page | v.slot.dir == Pd(x) :: CanRepair(k.s, v) <==> g.complete && Repairs(x.s, Pd(x), PlaceOf(g), g.own)
    ensures forall i: nat :: Slot(Cd(x), i) in k.s.tabs ==> if g.complete then i in ChildTables(x.s, Pd(x), InChildTo(g), g.stack) else (i + 1) * 1024 < g.n
    ensures g.complete ==> forall i: nat | i in ChildTables(x.s, Pd(x), InChildTo(g), g.stack) :: Slot(Cd(x), i) in k.s.tabs
  {
    hide Inv, KInv, HasW, View, Watched, CowInv, ForkMaps, ForkRoom, ForkTally.Accounted, ForkTally.RightRights, Setting, Gap, Tables, ForkCost;
  }

  lemma FineFacts(x: Ctx, g: Prog, k: State, mem: Frames)
    requires Fine(x, g, k, mem)
    ensures Reaches(x.a, Machine(k.s, mem)) && Core(x, g, k, mem) && k == x.k1.(s := k.s)
  {
    hide KInv, Progress, View, Watched, CowInv, ForkTally.Accounted, Setting;
  }

  /** One store of the parent, with the page fault that it may take; false if pgfault panics. */
  method StoreOwn(kn: Kernel, w: Write, ghost x: Ctx, ghost g: Prog) returns (ok: bool)
    requires Ready(kn) && Fine(x, g, kn.k, kn.pm.mem) && OwnPage(x.s, Pd(x), w.va)
    modifies kn, kn.pm
    ensures Ready(kn) && Reaches(x.a, Now(kn)) && kn.k == x.k1.(s := kn.k.s)
    ensures if ok then Fine(x, StoredOne(x, g, w), kn.k, kn.pm.mem) else g.complete ==> Short(x, StoredOne(x, g, w).own)
    ensures ok <==> SurvivesOne(x.s, Pd(x), PlaceOf(g), g.complete, g.own, w)
    ensures Slot(Pd(x), 1) in old(kn.k.s.tabs) ==> Slot(Pd(x), 1) in kn.k.s.tabs
  {
    hide KInv, Rep, FreeChain.Chain, Pmap.TlbAgrees, HasU, HasW, HasCow, Exposed, Pdx, Ptx, Reaches, Repaired, Core, Between, OwnPage, CanRepair, Repairable,
      Short, Writes, RangePage, AfterFault, Repairs;
    ghost var v := PageAt(Pd(x), w.va);
    ghost var h := g;
    FineFacts(x, g, kn.k, kn.pm.mem);
    OwnPageFine(x, g, kn.k, kn.pm.mem, w.va);
    OwnVa(x.s, Pd(x), w.va);
    ghost var k, mem := kn.k, kn.pm.mem;
    RepairIs(x, g, k, mem, v);
    ok := StoreWord(kn, w.va, w.word, x.a, v);
    if !ok {
      CowFaults(k.s, v);
      ghost var y;
      ok, y := Pgfault(kn, w.va, true, x.a);
      if !ok {
        FaultShort(x, g, k, mem, w);
        return;
      }
      OwnFault(x, g, k, kn.k, mem, kn.pm.mem, w.va, y);
      h := Faulted(x, g, v);
      OwnPageFine(x, h, kn.k, kn.pm.mem, w.va);
      NowWritable(Machine(k.s, mem), Now(kn), v, y);
      if Slot(Pd(x), 1) in k.s.tabs {
        TablesStay(Machine(k.s, mem), Now(kn), v, y, Slot(Pd(x), 1));
      }
      k, mem := kn.k, kn.pm.mem;
      ok := StoreWord(kn, w.va, w.word, x.a, v);
    }
    ForkState.OwnStore(x, h, k, mem, kn.pm.mem, w);
  }

  lemma RepairIs(x: Ctx, g: Prog, k: State, mem: Frames, v: Page)
    requires Core(x, g, k, mem) && v.slot.dir == Pd(x)
    ensures CanRepair(k.s, v) <==> g.complete && Repairs(x.s, Pd(x), PlaceOf(g), g.own)
  {
    hide Core, CanRepair, Repairs;
    SpareIs(x, g, k, mem);
  }

  lemma OwnVa(s: Space, pd: nat, va: nat)
    requires OwnPage(s, pd, va)
    ensures va < UTOP && PageAt(pd, va).slot.dir == pd && PageAt(pd, va) != PfTemp(pd)
  {
    BeforeException(PageAt(pd, va));
  }

  lemma CowFaults(s: Space, v: Page)
    requires v in s.maps && Shareable(s.maps[v].flags)
    ensures HasW(s.maps[v].flags) || HasCow(s.maps[v].flags)
  {
  }

  lemma TablesStay(a: Machine, b: Machine, v: Page, y: nat, k: Slot)
    requires Repaired(a, b, v, y) && k in a.s.tabs
    ensures k in b.s.tabs
  {
    hide Inv;
    assert k in b.s.tabs.Keys;
  }

  lemma NowWritable(a: Machine, b: Machine, v: Page, y: nat)
    requires Repaired(a, b, v, y) && v != PfTemp(v.slot.dir)
    ensures v in b.s.maps && HasW(b.s.maps[v].flags) && HasU(b.s.maps[v].flags)
  {
    UpwOk();
    hide Inv, HasW, HasU, UPW;
  }

  /** The parent's code in the t-th gap. */
  method RunGap(kn: Kernel, code: seq<seq<Write>>, t: nat, ghost x: Ctx, ghost g: Prog) returns (ok: bool, ghost h: Prog)
    requires Ready(kn) && Fine(x, g, kn.k, kn.pm.mem) && OwnCode(x.s, Pd(x), code) && Follows(code, t, g)
    modifies kn, kn.pm
    ensures Ready(kn) && Reaches(x.a, Now(kn)) && kn.k == x.k1.(s := kn.k.s) && h == Stored(x, g, GapCode(code, t)) && Follows(code, t + 1, h)
    ensures if ok then Fine(x, h, kn.k, kn.pm.mem) else g.complete ==> Short(x, h.own)
    ensures ok <==> Survives(x.s, Pd(x), PlaceOf(g), g.complete, g.own, GapCode(code, t))
    ensures Slot(Pd(x), 1) in old(kn.k.s.tabs) ==> Slot(Pd(x), 1) in kn.k.s.tabs
  {
    hide KInv, Rep, FreeChain.Chain, Pmap.TlbAgrees, Reaches, Fine, Core, OwnPage, Short, OwnCode, Formed, Pd, AfterStore, Stored, StoredOne,
      PlaceOf, SurvivesOne, Told;
    var ws := GapCode(code, t);
    OwnAt(x.s, Pd(x), code, t);
    FineFacts(x, g, kn.k, kn.pm.mem);
    h := Stored(x, g, ws);
    StoredNone(x, g);
    StoredFollows(x, g, code, t);
    var i := 0;
    assert ws[..0] == [];
    while i < |ws|
      invariant i <= |ws| && Ready(kn) && Reaches(x.a, Now(kn)) && Survives(x.s, Pd(x), PlaceOf(g), g.complete, g.own, ws[..i])
      invariant Fine(x, Stored(x, g, ws[..i]), kn.k, kn.pm.mem) && kn.k == x.k1.(s := kn.k.s)
      invariant Slot(Pd(x), 1) in old(kn.k.s.tabs) ==> Slot(Pd(x), 1) in kn.k.s.tabs
    {
      StoredMore(x, g, ws, i);
      StoredTold(x, g, ws[..i]);
      OneMoreSurvives(x.s, Pd(x), PlaceOf(g), g.complete, g.own, ws, i);
      ok := StoreOwn(kn, ws[i], x, Stored(x, g, ws[..i]));
      if !ok {
        NoneSurvives(x.s, Pd(x), PlaceOf(g), g.complete, g.own, ws, i + 1);
        return;
      }
      i := i + 1;
    }
    assert ws[..i] == ws;
    return true, h;
  }

  lemma StoredTold(x: Ctx, g: Prog, ws: seq<Write>)
    ensures var h := Stored(x, g, ws);
            h.own == Told(x.s, Pd(x), PlaceOf(g), g.complete, g.own, ws) && PlaceOf(h) == PlaceOf(g) && h.complete == g.complete
  {
    hide AfterStores;
  }

  lemma NoneSurvives(s: Space, pd: nat, at: Place, complete: bool, o: Tally, ws: seq<Write>, i: nat)
    requires i <= |ws| && !Survives(s, pd, at, complete, o, ws[..i])
    ensures !Survives(s, pd, at, complete, o, ws)
  {
    if Survives(s, pd, at, complete, o, ws) {
      PrefixSurvives(s, pd, at, complete, o, ws, i);
    }
  }

  lemma StoredNone(x: Ctx, g: Prog)
    ensures Stored(x, g, []) == g
  {
  }

  lemma StoredFollows(x: Ctx, g: Prog, code: seq<seq<Write>>, t: nat)
    requires Follows(code, t, g)
    ensures Follows(code, t + 1, Stored(x, g, GapCode(code, t)))
  {
    hide AfterStores;
  }

  // ---- duppage ----

  /** What happens to page g.n if memory suffices: two gaps, its mapping in the child, and, if it is
      shared for writing, a third gap and its mapping in the parent. */
  ghost function DupTwo(x: Ctx, g: Prog, code: seq<seq<Write>>, t: nat): Prog {
    Stored(x, Stored(x, g, GapCode(code, t)), GapCode(code, t + 1))
  }

  ghost function DupThree(x: Ctx, g: Prog, code: seq<seq<Write>>, t: nat): Prog
    requires AtPage(x, DupTwo(x, g, code, t))
  {
    Stored(x, AfterChild(x, DupTwo(x, g, code, t), true), GapCode(code, t + 2))
  }

  /** That is what the plan says; and where memory does not suffice for it, fork does not get to PFTEMP. */
  lemma DupPlanned(x: Ctx, g: Prog, code: seq<seq<Write>>, t: nat)
    requires AtPage(x, g) && OnPlan(x, g, code, t, g.n) && !g.gap && 2048 <= g.n
    ensures var v, a, b, o := PageNo(Pd(x), g.n), Stored(x, g, GapCode(code, t)), DupTwo(x, g, code, t), g.complete;
            && a == g.(ws := a.ws, own := a.own) && b == g.(ws := b.ws, own := b.own) && AtPage(x, b)
            && (o && Short(x, a.own) ==> TooFew(x, code)) && (o && Short(x, b.own) ==> TooFew(x, code)) && (!o ==> TooFew(x, code))
            && if Shareable(x.s.maps[v].flags) then
                 var d := DupThree(x, g, code, t);
                 && d == b.(ws := d.ws, own := d.own, gap := true) && (o && Short(x, d.own) ==> TooFew(x, code))
                 && OnPlan(x, AfterParent(x, d), code, t + 3, g.n + 1)
               else OnPlan(x, AfterChild(x, b, true), code, t + 2, g.n + 1)
  {
    hide AfterStores, InRange, ForkCost, Shareable, AtStart, AtTemp, Need, GapCode, Pd, PageNo;
    var s, pd, v := x.s, Pd(x), PageNo(Pd(x), g.n);
    AtPageRange(x, g);
    if g.complete {
      var a := AfterStores(s, pd, g.own, GapCode(code, t), false);
      var b := AfterStores(s, pd, a, GapCode(code, t + 1), false);
      StoresGrow(s, pd, a, GapCode(code, t + 1), false);
      StoresGrow(s, pd, InChild(b, v), GapCode(code, t + 2), false);
      InChildNeeds(b, v);
      SealedNeeds(AfterStores(s, pd, InChild(b, v), GapCode(code, t + 2), false), v);
      PlanGrows(s, pd, code, g.n + 1, LAST);
      EndGrows(s, pd, code);
    }
  }

  /** What was foreseen for it: where a store faults in vain, and whether its mapping fails. */
  lemma DupForeseen(x: Ctx, g: Prog, code: seq<seq<Write>>, t: nat)
    requires AtPage(x, g) && OnCourse(x, g, code, t, g.n) && !g.gap && 2048 <= g.n < LAST
    ensures var s, pd, n, v := x.s, Pd(x), g.n, PageNo(Pd(x), g.n);
            var a, b, o := Stored(x, g, GapCode(code, t)), DupTwo(x, g, code, t), g.complete;
            && AtPage(x, b) && !g.lent && (!Survives(s, pd, PlaceOf(g), o, g.own, GapCode(code, t)) ==> Died(x, code))
            && (Survives(s, pd, PlaceOf(g), o, g.own, GapCode(code, t)) ==>
                  if !Survives(s, pd, PlaceOf(a), o, a.own, GapCode(code, t + 1)) then Died(x, code)
                  else if !o || !ChildFits(s, pd, n, b.own) then OnCourse(x, AfterChild(x, b, false), code, t + 2, n + 1)
                  else
                    var c := AfterChild(x, b, true);
                    if !Shareable(s.maps[v].flags) then OnCourse(x, c, code, t + 2, n + 1)
                    else if !Survives(s, pd, PlaceOf(c), o, c.own, GapCode(code, t + 2)) then Died(x, code)
                    else OnCourse(x, AfterParent(x, DupThree(x, g, code, t)), code, t + 3, n + 1))
  {
    hide AfterStores, InRange, Shareable, AtStart, GapCode, Pd, PageNo, Survives, ChildFits;
    AtPageRange(x, g);
    assert CourseTo(x.s, Pd(x), code, g.n + 1) == CourseOf(x.s, Pd(x), code, CourseTo(x.s, Pd(x), code, g.n), g.n);
    if !CourseTo(x.s, Pd(x), code, g.n + 1).alive {
      DeadStays(x.s, Pd(x), code, g.n + 1, LAST);
    }
  }

  lemma InChildNeeds(o: Tally, v: Page)
    ensures Need(InChild(o, v)) == Need(o)
  {
  }

  lemma SealedNeeds(o: Tally, v: Page)
    ensures Need(Sealed(o, v)) == Need(o)
  {
  }

  /** A failed call of duppage has found no free page. */
  lemma ChildShort(x: Ctx, h: Prog, g: Prog, k: State, mem: Frames)
    requires Fine(x, h, k, mem) && !h.complete && h.own == g.own
    ensures Short(x, g.own)
  {
    hide Inv, KInv, HasW, View, Watched, CowInv, ForkCost, ForkMaps, ForkRoom, ForkTally.Accounted, Setting, Gap;
  }

  lemma AtPageRange(x: Ctx, g: Prog)
    requires AtPage(x, g)
    ensures RangePage(x.s, Pd(x), PageNo(Pd(x), g.n)) && 2048 <= g.n < LAST
  {
  }

  /** Duplicates page pn; r is 0, or an error that fork ignores. false if the parent panics. */
  method Duppage(kn: Kernel, envid: int, pn: nat, code: seq<seq<Write>>, t: nat, ghost x: Ctx, ghost g: Prog)
    returns (ok: bool, r: int, t': nat, ghost h: Prog)
    requires Ready(kn) && Fine(x, g, kn.k, kn.pm.mem) && OwnCode(x.s, Pd(x), code) && Follows(code, t, g) && OnPlan(x, g, code, t, pn) && OnCourse(x, g, code, t, pn)
    requires !g.gap && AtPage(x, g) && pn == g.n && envid == ChildId(x)
    modifies kn, kn.pm
    ensures Ready(kn) && Reaches(x.a, Now(kn)) && kn.k == x.k1.(s := kn.k.s)
    ensures if ok then
              && Fine(x, h, kn.k, kn.pm.mem) && Follows(code, t', h) && OnPlan(x, h, code, t', pn + 1) && OnCourse(x, h, code, t', pn + 1)
              && !h.gap && h.n == pn + 1 && h.stack == None && (h.complete <==> g.complete && r == 0)
            else TooFew(x, code) && Died(x, code)
  {
    hide KInv, Rep, FreeChain.Chain, Pmap.TlbAgrees, Reaches, Core, Short, TooFew, OwnCode, InRange, HasCow, DupPerm, Between, Shareable, Joined,
      Stored, PlanTo, GapsTo, RangePage, Fine, Survives, ChildFits, PlaceOf, OnCourse, Died;
    AtPageRange(x, g);
    DupPlanned(x, g, code, t);
    DupForeseen(x, g, code, t);
    r := 0;
    ok, h := RunGap(kn, code, t, x, g);
    t' := t + 1;
    if !ok {
      return;
    }
    ghost var k, mem := kn.k, kn.pm.mem;
    FineFacts(x, h, k, mem);
    PageSeen(x, h, k, mem, PageNo(Pd(x), pn));
    var myenvid := kn.envs[kn.cur.value].id;
    var pte := ReadUvpt(kn, pn);
    var perm := DupPerm(pte.value.flags);
    ok, h := RunGap(kn, code, t', x, h);
    t' := t' + 1;
    if !ok {
      return;
    }
    ghost var b := h;
    r, h := MapToChild(kn, myenvid, envid, pn, perm, x, h);
    FineFacts(x, h, kn.k, kn.pm.mem);
    if r < 0 {
      ChildShort(x, h, b, kn.k, kn.pm.mem);
      return;
    }
    CowOrNot(x.s.maps[PageNo(Pd(x), pn)].flags);
    if HasCow(perm) {
      ok, r, h := RemapShared(kn, myenvid, pn, perm, code, t', x, h);
      t' := t' + 1;
    } else {
      r := 0;
    }
  }

  /** duppage's second call, and the parent's code before it. */
  method RemapShared(kn: Kernel, myenvid: int, pn: nat, perm: bv12, code: seq<seq<Write>>, t: nat, ghost x: Ctx, ghost g: Prog)
    returns (ok: bool, r: int, ghost h: Prog)
    requires Ready(kn) && Fine(x, g, kn.k, kn.pm.mem) && OwnCode(x.s, Pd(x), code) && Follows(code, t, g)
    requires g.gap && AtPage(x, g) && pn == g.n && myenvid == Me(x.k1) && perm == DupPerm(x.s.maps[PageNo(Pd(x), pn)].flags)
    modifies kn, kn.pm
    ensures Ready(kn) && Reaches(x.a, Now(kn)) && kn.k == x.k1.(s := kn.k.s)
    ensures var c := Stored(x, g, GapCode(code, t));
            if ok then r == 0 && h == AfterParent(x, c) && Fine(x, h, kn.k, kn.pm.mem) && Follows(code, t + 1, h)
            else g.complete ==> Short(x, c.own)
    ensures ok <==> Survives(x.s, Pd(x), PlaceOf(g), g.complete, g.own, GapCode(code, t))
  {
    hide KInv, Rep, FreeChain.Chain, Pmap.TlbAgrees, Reaches, Core, Short, OwnCode, InRange, HasCow, DupPerm, Between, Mapped1, MapArgs, Shareable, Joined,
      Envid2Env, AfterStores, Survives, PlaceOf;
    r := 0;
    ok, h := RunGap(kn, code, t, x, g);
    if !ok {
      return;
    }
    ghost var k, mem := kn.k, kn.pm.mem;
    PageSeen(x, h, k, mem, PageNo(Pd(x), pn));
    AtPageFacts(x, h, k, mem);
    ParentArgs(x, h, k, mem, perm);
    r := MapPage(kn, myenvid, pn * PGSIZE, myenvid, pn * PGSIZE, perm, x.a, PageNo(Pd(x), pn), PageNo(Pd(x), pn));
    ParentDone(x, h, k, mem, kn.k, kn.pm.mem, r == 0);
    h := AfterParent(x, h);
  }

  /** duppage's first call. */
  method MapToChild(kn: Kernel, myenvid: int, envid: int, pn: nat, perm: bv12, ghost x: Ctx, ghost g: Prog) returns (r: int, ghost h: Prog)
    requires Ready(kn) && Fine(x, g, kn.k, kn.pm.mem) && !g.gap && AtPage(x, g) && pn == g.n && envid == ChildId(x) && myenvid == Me(x.k1)
    requires perm == DupPerm(x.s.maps[PageNo(Pd(x), pn)].flags)
    modifies kn, kn.pm
    ensures Ready(kn) && Fine(x, h, kn.k, kn.pm.mem) && (r == 0 || r < 0) && h == AfterChild(x, g, r == 0)
    ensures !g.lent ==> (r == 0 <==> g.complete && ChildFits(x.s, Pd(x), pn, g.own))
  {
    hide KInv, Rep, FreeChain.Chain, Pmap.TlbAgrees, Reaches, Core, InRange, HasCow, DupPerm, Between, Mapped1, MapArgs, Shareable, Envid2Env,
      ChildFits;
    ghost var k, mem := kn.k, kn.pm.mem;
    FineFacts(x, g, k, mem);
    PageSeen(x, g, k, mem, PageNo(Pd(x), pn));
    ChildArgs(x, g, k, mem, perm);
    r := MapPage(kn, myenvid, pn * PGSIZE, envid, pn * PGSIZE, perm, x.a, PageNo(Pd(x), pn), PageNo(Cd(x), pn));
    ChildDone(x, g, k, mem, kn.k, kn.pm.mem, r == 0);
    ChildFitsIs(x, g, k, mem, kn.k, kn.pm.mem, r == 0);
    h := AfterChild(x, g, r == 0);
  }

  lemma ChildFitsIs(x: Ctx, g: Prog, k: State, mem: Frames, k': State, mem': Frames, ok: bool)
    requires Core(x, g, k, mem) && !g.gap && AtPage(x, g)
    requires MappedTo(k, k', mem, mem', PageNo(Pd(x), g.n), PageNo(Cd(x), g.n), DupPerm(x.s.maps[PageNo(Pd(x), g.n)].flags), ok)
    ensures !g.lent ==> (ok <==> g.complete && ChildFits(x.s, Pd(x), g.n, g.own))
  {
    hide Core, KInv, Between, Tables, Spare, InRange, DupPerm;
    SpareIs(x, g, k, mem);
    InsertFits(k.s, k.s.maps[PageNo(Pd(x), g.n)].frame, PageNo(Cd(x), g.n), DupPerm(x.s.maps[PageNo(Pd(x), g.n)].flags));
  }

  lemma InsertFits(s: Space, f: nat, v: Page, perm: bv12)
    ensures Insert(s, f, v, perm).None? <==> v.slot !in s.tabs && s.free == []
  {
    PrepareFails(s, f, v);
  }

  lemma CowOrNot(flags: bv12)
    ensures HasCow(DupPerm(flags)) <==> Shareable(flags)
  {
  }

  // ---- The loops ----

  /** Between two pages: those numbered below n are done. */
  ghost predicate Looping(x: Ctx, g: Prog, kn: Kernel, code: seq<seq<Write>>, t: nat, n: nat)
    reads kn, kn.pm
  {
    && Ready(kn) && Fine(x, g, kn.k, kn.pm.mem) && OwnCode(x.s, Pd(x), code) && Follows(code, t, g)
    && OnPlan(x, g, code, t, n) && OnCourse(x, g, code, t, n) && kn.k == x.k1.(s := kn.k.s) && !g.gap && g.n == n && g.stack == None
  }

  lemma PageInTable(i: nat, j: nat, d: nat)
    requires 2 <= i < UTOP_PDX && j < 1024
    ensures PgNum(PgAddr(i, j, 0)) == i * 1024 + j && PageNo(d, i * 1024 + j) == Page(Slot(d, i), j)
    ensures i * 1024 + j != EXCEPTION_PN ==> InRange(PageNo(d, i * 1024 + j))
  {
    assert PgAddr(i, j, 0) == (i * 1024 + j) * 4096;
  }

  lemma TableSeen(x: Ctx, g: Prog, k: State, mem: Frames, i: nat)
    requires Core(x, g, k, mem) && i >= 2
    ensures k.cur.Some? && Dir(k) == Pd(x) && (Slot(Pd(x), i) in k.s.tabs <==> Slot(Pd(x), i) in x.s.tabs) && Shaped(x.s)
  {
    hide KInv, HasW, View, Watched, CowInv, ForkMaps, ForkRoom, Tables, Gap, Counted, FreeList, Owned, Mapped;
  }

  /** fork's inner loop, over the entries of one page table; false if the parent panics. */
  method DupTable(kn: Kernel, envid: int, i: nat, code: seq<seq<Write>>, t: nat, ghost x: Ctx, ghost g: Prog)
    returns (ok: bool, t': nat, ghost h: Prog)
    requires Looping(x, g, kn, code, t, i * 1024) && envid == ChildId(x)
    requires 2 <= i < UTOP_PDX && Slot(Pd(x), i) in x.s.tabs
    modifies kn, kn.pm
    ensures Ready(kn) && Reaches(x.a, Now(kn)) && kn.k == x.k1.(s := kn.k.s)
    ensures if ok then Looping(x, h, kn, code, t', (i + 1) * 1024) else TooFew(x, code) && Died(x, code)
  {
    hide KInv, Rep, FreeChain.Chain, Pmap.TlbAgrees, Reaches, Core, TooFew, OwnCode, InRange, HasP, NoneBetween, Joined, DupPerm, PlanTo, GapsTo,
      CourseTo, Died;
    ok, t', h := true, t, g;
    var j := 0;
    while j < NPTENTRIES
      invariant j <= 1024 && ok && Looping(x, h, kn, code, t', i * 1024 + j)
    {
      var pn := PgNum(PgAddr(i, j, 0));
      PageInTable(i, j, Pd(x));
      if pn == EXCEPTION_PN {
        PastTheRange(x.s, Pd(x), (i + 1) * 1024);
        Skips(x, h, kn.k, kn.pm.mem, (i + 1) * 1024);
        PlanSkips(x.s, Pd(x), code, pn, (i + 1) * 1024);
        CourseSkips(x.s, Pd(x), code, pn, (i + 1) * 1024);
        h := h.(n := (i + 1) * 1024);
        return;
      }
      PageSeen(x, h, kn.k, kn.pm.mem, PageNo(Pd(x), pn));
      var pte := ReadUvpt(kn, pn);
      AbsentPte();
      if HasP(pte.value.flags) {
        var r;
        ok, r, t', h := Duppage(kn, envid, pn, code, t', x, h);
        if !ok {
          return;
        }
      } else {
        NoPage(x.s, Pd(x), pn);
        Skips(x, h, kn.k, kn.pm.mem, pn + 1);
        PlanSkips(x.s, Pd(x), code, pn, pn + 1);
        CourseSkips(x.s, Pd(x), code, pn, pn + 1);
        h := h.(n := pn + 1);
      }
      j := j + 1;
    }
  }

  lemma AbsentPte()
    ensures !HasP(ZERO.flags)
  {
  }

  /** fork's outer loop, over the directory. */
  method DupTables(kn: Kernel, envid: int, code: seq<seq<Write>>, t: nat, ghost x: Ctx, ghost g: Prog)
    returns (ok: bool, t': nat, ghost h: Prog)
    requires Looping(x, g, kn, code, t, 2048) && envid == ChildId(x)
    modifies kn, kn.pm
    ensures Ready(kn) && Reaches(x.a, Now(kn)) && kn.k == x.k1.(s := kn.k.s)
    ensures if ok then Looping(x, h, kn, code, t', LAST) else TooFew(x, code) && Died(x, code)
  {
    hide KInv, Rep, FreeChain.Chain, Pmap.TlbAgrees, Reaches, Core, TooFew, OwnCode, NoneBetween, Joined, PlanTo, GapsTo, CourseTo, Died;
    ok, t', h := true, t, g;
    var i := Pdx(UTEXT);
    while i < Pdx(UXSTACKTOP)
      invariant 2 <= i <= 955 && ok && Looping(x, h, kn, code, t', i * 1024)
    {
      TableSeen(x, h, kn.k, kn.pm.mem, i);
      var present := HasTable(kn, i);
      if present {
        ok, t', h := DupTable(kn, envid, i, code, t', x, h);
        if !ok {
          return;
        }
      } else {
        TableMissing(x.s, Pd(x), i);
        Skips(x, h, kn.k, kn.pm.mem, (i + 1) * 1024);
        PlanSkips(x.s, Pd(x), code, i * 1024, (i + 1) * 1024);
        CourseSkips(x.s, Pd(x), code, i * 1024, (i + 1) * 1024);
        h := h.(n := (i + 1) * 1024);
      }
      i := i + 1;
    }
  }

  // ---- The child's exception page ----

  datatype Outcome =
    | Child(id: int)   // fork returned the child's id
    | Failed           // fork returned -1
    | Panicked         // pgfault panicked
    | Clash            // a page fault while PFTEMP was in use

  /** A store to va faults on a page that fork has made copy-on-write, while PFTEMP is in use. */
  ghost predicate Meets(k: State, va: nat) {
    && Formed(k) && k.cur.Some? && va < UTOP && PfTemp(Dir(k)) in k.s.maps
    && Repairable(k.s, PageAt(Dir(k), va))
  }

  /** A store in the t-th gap does. */
  ghost predicate Clashes(k: State, code: seq<seq<Write>>, t: nat) {
    exists i | 0 <= i < |GapCode(code, t)| :: Meets(k, GapCode(code, t)[i].va)
  }

  method StoreLent(kn: Kernel, w: Write, ghost x: Ctx, ghost g: Prog, ghost y: nat, ghost kt: State) returns (ok: bool)
    requires Ready(kn) && Lent(x, g, y, kt, kn.k, kn.pm.mem) && Reaches(x.a, Now(kn)) && OwnPage(x.s, Pd(x), w.va)
    modifies kn.pm
    ensures Ready(kn) && Reaches(x.a, Now(kn)) && kn.k == old(kn.k) && (ok <==> PageAt(Pd(x), w.va) in g.own.writable)
    ensures if ok then Lent(x, g.(ws := g.ws + [w]), y, kt, kn.k, kn.pm.mem) else Meets(kn.k, w.va)
  {
    hide KInv, Rep, FreeChain.Chain, Pmap.TlbAgrees, Reaches, Lent, OwnPage, HasW, HasU, HasCow, Pdx, Ptx, Shareable, Repairable;
    ghost var v, mem := PageAt(Pd(x), w.va), kn.pm.mem;
    WindowPage(x, g, y, kt, kn.k, mem, w.va);
    OwnVa(x.s, Pd(x), w.va);
    ok := StoreWord(kn, w.va, w.word, x.a, v);
    if ok {
      WindowStore(x, g, y, kt, kn.k, mem, kn.pm.mem, w);
    }
  }

  /** The parent's code while PFTEMP is in use; false at the first store that faults. */
  method RunLent(kn: Kernel, code: seq<seq<Write>>, t: nat, ghost x: Ctx, ghost g: Prog, ghost y: nat, ghost kt: State)
    returns (ok: bool, ghost h: Prog)
    requires Ready(kn) && Lent(x, g, y, kt, kn.k, kn.pm.mem) && Reaches(x.a, Now(kn)) && OwnCode(x.s, Pd(x), code) && Follows(code, t, g)
    modifies kn.pm
    ensures Ready(kn) && Reaches(x.a, Now(kn)) && kn.k == old(kn.k) && h == g.(ws := h.ws)
    ensures ok <==> AllIn(Pd(x), g.own.writable, GapCode(code, t))
    ensures if ok then Lent(x, h, y, kt, kn.k, kn.pm.mem) && Follows(code, t + 1, h) else Clashes(kn.k, code, t)
  {
    hide KInv, Rep, FreeChain.Chain, Pmap.TlbAgrees, Reaches, Lent, OwnPage, OwnCode, Meets, Pd, PageAt;
    var ws := GapCode(code, t);
    OwnAt(x.s, Pd(x), code, t);
    ok, h := true, g;
    var i := 0;
    while i < |ws|
      invariant i <= |ws| && ok && Ready(kn) && Reaches(x.a, Now(kn)) && kn.k == old(kn.k) && Lent(x, h, y, kt, kn.k, kn.pm.mem)
      invariant h == g.(ws := g.ws + ws[..i]) && forall j | 0 <= j < i :: PageAt(Pd(x), ws[j].va) in g.own.writable
    {
      ok := StoreLent(kn, ws[i], x, h, y, kt);
      if !ok {
        return;
      }
      h := h.(ws := h.ws + [ws[i]]);
      i := i + 1;
    }
  }

  /** Maps the child's exception page at the parent's PFTEMP too. */
  method LendStack(kn: Kernel, envid: int, ghost x: Ctx, ghost g: Prog, ghost y: nat) returns (r: int)
    requires Ready(kn) && Fine(x, g, kn.k, kn.pm.mem) && !g.gap && g.n == LAST && g.stack == Some(y) && envid == ChildId(x)
    modifies kn, kn.pm
    ensures Ready(kn) && Reaches(x.a, Now(kn)) && kn.k == x.k1.(s := kn.k.s) && (r == 0 || r < 0)
    ensures (r == 0 <==> !Short(x, g.own)) && (r == 0 ==> Lent(x, g, y, old(kn.k), kn.k, kn.pm.mem))
    ensures g.complete && (!g.lent ==> (r == 0 <==> LoanFits(x.s, Pd(x), g.own)))
  {
    hide KInv, Rep, FreeChain.Chain, Pmap.TlbAgrees, Reaches, Core, Between, Mapped1, MapArgs, UPW, HasW, HasU, Lent, Exposed, ForkCost, Short, LoanFits;
    ghost var k, mem := kn.k, kn.pm.mem;
    FineFacts(x, g, k, mem);
    StackArgs(x, g, k, mem);
    LendArgs(x, g, k, mem, y);
    LateEnough(x, g, k, mem);
    if !g.lent {
      LoanFitsIs(x, g, k, mem, y);
    }
    var myenvid := kn.envs[kn.cur.value].id;
    r := MapPage(kn, envid, XSTACK, myenvid, PFTEMP, UPW, x.a, ExceptionPage(Cd(x)), PfTemp(Pd(x)));
    LendDone(x, g, k, mem, kn.k, kn.pm.mem, r == 0, y);
  }

  lemma LoanFitsIs(x: Ctx, g: Prog, k: State, mem: Frames, y: nat)
    requires Core(x, g, k, mem) && !g.gap && g.n == LAST && g.stack == Some(y) && !g.lent
    ensures LoanFits(x.s, Pd(x), g.own) <==> |x.s.free| >= ForkCost(x.s, Pd(x)) + g.own.kept
  {
    hide KInv, Inv, HasW, View, Watched, CowInv, Setting, ForkTally.Accounted, Spare, ForkCost, Gap, ForkMaps, ForkRoom;
    SpareIs(x, g, k, mem);
    TempDecides(x.s, k.s, Pd(x), Cd(x), y, g.complete, g.own.kept);
  }

  /** Memory has sufficed for the faults since the child's exception page was allocated. */
  lemma LateEnough(x: Ctx, g: Prog, k: State, mem: Frames)
    requires Core(x, g, k, mem)
    ensures Short(x, g.own) <==> |x.s.free| < ForkCost(x.s, Pd(x)) + g.own.kept
  {
    hide Inv, KInv, HasW, Progress, View, Watched, CowInv, ForkCost, Gap, ForkTally.Accounted, Setting;
  }

  ghost predicate Passed(x: Ctx, g: Prog, h: Prog, kn: Kernel, y: nat)
    reads kn, kn.pm
  {
    && Core(Cleared(x), h, kn.k, kn.pm.mem) && !h.gap && h.n == LAST && h.stack == Some(y)
    && h == g.(ws := h.ws, lent := true) && h.complete && Slot(Pd(x), 1) in kn.k.s.tabs
  }

  /** memmove, which copies the child's empty page over the parent's exception page and not the
      other way round, and sys_page_unmap. */
  method ReturnStack(kn: Kernel, code: seq<seq<Write>>, t: nat, ghost x: Ctx, ghost g: Prog, ghost y: nat, ghost kt: State)
    returns (ok: bool, ghost h: Prog)
    requires Ready(kn) && Lent(x, g, y, kt, kn.k, kn.pm.mem) && Reaches(x.a, Now(kn)) && OwnCode(x.s, Pd(x), code) && Follows(code, t, g)
    requires CanFork(x.s, Pd(x)) && kn.k == x.k1.(s := kn.k.s)
    modifies kn, kn.pm
    ensures Ready(kn) && Reaches(x.a, Now(kn)) && kn.k == x.k1.(s := kn.k.s)
    ensures ok <==> AllIn(Pd(x), g.own.writable, GapCode(code, t)) && AllIn(Pd(x), g.own.writable, GapCode(code, t + 1))
    ensures if ok then Passed(x, g, h, kn, y) && Follows(code, t + 2, h) else Clashes(kn.k, code, t) || Clashes(kn.k, code, t + 1)
  {
    hide KInv, Rep, FreeChain.Chain, Pmap.TlbAgrees, Reaches, Core, OwnCode, Between, UPW, Entry, HasW, HasU, Clashes, Remove, Joined, Lent, Unmapped, AllIn;
    ok, h := RunLent(kn, code, t, x, g, y, kt);
    if !ok {
      return;
    }
    ghost var mem := kn.pm.mem;
    FixedPages(Pd(x));
    StackCopyArgs(x, h, y, kt, kn.k, mem);
    CopyPage(kn, XSTACK, PFTEMP, x.a, ExceptionPage(Pd(x)), PfTemp(Pd(x)));
    StackCopied(x, h, y, kt, kn.k, mem, kn.pm.mem);
    SameCtx(x);
    ok, h := RunLent(kn, code, t + 1, Cleared(x), h, y, kt);
    if !ok {
      return;
    }
    ghost var z := kn.k;
    mem := kn.pm.mem;
    LentFacts(Cleared(x), h, y, kt, z, mem);
    var myenvid := kn.envs[kn.cur.value].id;
    var r := UnmapPage(kn, myenvid, PFTEMP, x.a, PfTemp(Pd(x)));
    ReturnDone(Cleared(x), h, y, kt, z, mem, kn.k, kn.pm.mem);
    h := h.(lent := true);
  }

  lemma SameCtx(x: Ctx)
    ensures Pd(Cleared(x)) == Pd(x) && Cd(Cleared(x)) == Cd(x) && ChildId(Cleared(x)) == ChildId(x) && Cleared(x).s == x.s && Cleared(x).a == x.a
    ensures forall o :: Short(Cleared(x), o) <==> Short(x, o)
  {
  }

  lemma LentFacts(x: Ctx, g: Prog, y: nat, kt: State, k: State, mem: Frames)
    requires Lent(x, g, y, kt, k, mem)
    ensures k.cur.Some? && Dir(k) == Pd(x) && Me(k) == Me(x.k1) && Envid2Env(k, Me(k), true) == k.cur
    ensures PfTemp(Pd(x)) in k.s.maps && k == x.k1.(s := k.s) && !g.gap && g.n == LAST && g.stack == Some(y) && Core(x, g, kt, mem)
    ensures PageOf(k, Me(k), PFTEMP, PfTemp(Pd(x))) && g.complete
  {
    hide KInv, Inv, HasW, View, Watched, Progress, UPW, Entry, CowInv, ForkTally.Accounted;
    SettingFacts(x);
    FixedPages(Pd(x));
    MyIdResolves(k);
  }

  /** sys_page_alloc of the child's exception page. */
  method AllocStack(kn: Kernel, envid: int, ghost x: Ctx, ghost g: Prog) returns (r: int, ghost y: nat)
    requires Ready(kn) && Fine(x, g, kn.k, kn.pm.mem) && !g.gap && g.n == LAST && g.stack == None && envid == ChildId(x)
    modifies kn, kn.pm
    ensures Ready(kn) && Reaches(x.a, Now(kn)) && kn.k == x.k1.(s := kn.k.s) && (r == 0 || r < 0)
    ensures if r == 0 then g.complete && Fine(x, g.(stack := Some(y)), kn.k, kn.pm.mem) else Short(x, g.own)
    ensures !g.lent ==> (r == 0 <==> g.complete && StackFits(x.s, Pd(x), g.own))
  {
    hide KInv, Rep, FreeChain.Chain, Pmap.TlbAgrees, Reaches, Core, Short, Between, UPW, HasW, HasU, Exposed, FreshAt, Unmapped, ForkCost,
      StackFits;
    ghost var k, mem := kn.k, kn.pm.mem;
    FineFacts(x, g, k, mem);
    if !g.lent {
      StackFitsIs(x, g, k, mem);
    }
    StackArgs(x, g, k, mem);
    r, y := AllocPage(kn, envid, XSTACK, x.a, ExceptionPage(Cd(x)));
    if r == 0 {
      StackDone(x, g, k, mem, kn.k, kn.pm.mem, y);
    } else {
      StackShort(x, g, k, mem);
    }
  }

  lemma StackFitsIs(x: Ctx, g: Prog, k: State, mem: Frames)
    requires Core(x, g, k, mem) && !g.gap && g.n == LAST && g.stack == None && !g.lent
    ensures g.complete && StackFits(x.s, Pd(x), g.own) <==> |k.s.free| >= 2 || (k.s.free != [] && ExceptionPage(Cd(x)).slot in k.s.tabs)
  {
    hide Core, Tables, Spare;
    SpareIs(x, g, k, mem);
  }

  lemma StackShort(x: Ctx, g: Prog, k: State, mem: Frames)
    requires Core(x, g, k, mem) && !g.gap && g.n == LAST && g.stack == None
    requires |k.s.free| < 2 && (k.s.free == [] || Slot(Cd(x), 954) !in k.s.tabs)
    ensures Short(x, g.own)
  {
    hide Inv, KInv, HasW, Progress, View, Watched, CowInv, ForkCost, ForkTally.Accounted;
    StackFails(x.s, k.s, Pd(x), Cd(x), g.complete, g.own.kept);
  }

  // ---- The last calls ----

  /** fork's child is complete and runnable. */
  ghost predicate Forked(x: Ctx, h: Prog, k: State, mem: Frames) {
    && x.c < |x.k1.envs| && k == SetStatus(x.k1, x.c, ENV_RUNNABLE).(s := k.s) && CowInv(k.s) && h.stack.Some?
    && ForkMaps(x.s, k.s, Pd(x), Cd(x), LAST, h.stack, true)
    && |x.s.free| == |k.s.free| + ForkCost(x.s, Pd(x)) + h.own.kept && ForkedView(x.e0, View(Machine(k.s, mem)), Pd(x), Cd(x), h.ws)
  }

  lemma ForkEnds(x: Ctx, h: Prog, k: State, mem: Frames)
    requires x.c < EnvIds.NENV == |x.k1.envs| && ExceptionPage(Pd(x)) in x.e0 && h.complete
    requires Core(Cleared(x), h, k, mem) && !h.gap && h.n == LAST && h.stack.Some? && Slot(Pd(x), 1) in k.s.tabs
    ensures Forked(x, h, SetStatus(k, x.c, ENV_RUNNABLE), mem) && !Short(x, h.own)
  {
    hide Inv, KInv, HasW, View, Watched, CowInv, ForkCost, ForkMaps, ForkRoom, Tables, ForkedView, Setting, ForkTally.Accounted;
    SameCtx(x);
    Ends(Cleared(x), h, k, mem, x.e0);
    Spent(Cleared(x), h, k, mem);
  }

  /** The last call makes the child runnable. */
  lemma SetRunnable(x: Ctx, h: Prog, k: State, mem: Frames)
    requires Core(x, h, k, mem)
    ensures k.cur.Some?
    ensures var (t, r) := EnvState.SysEnvSetStatus(k, ChildId(x), Some(ENV_RUNNABLE));
            r == 0 && KInv(t) && t == SetStatus(k, x.c, ENV_RUNNABLE) && t.s == k.s && t.cur == k.cur && Dir(t) == Dir(k)
  {
    hide Inv, Slots, FreeEnvs, OwnDirs, HasW, CowInv, View, Watched, Progress, ForkTally.Accounted;
    SettingFacts(x);
    EnvRuns.ResolvedIsLive(k, ChildId(x), true);
    EnvRuns.StatusKeeps(k, x.c, ENV_RUNNABLE);
  }

  lemma StackSeen(x: Ctx, g: Prog, k: State, mem: Frames)
    requires Core(x, g, k, mem) && CanFork(x.s, Pd(x))
    ensures ExceptionPage(Pd(x)) in x.e0 && x.c < EnvIds.NENV == |x.k1.envs|
  {
    hide KInv, HasW, CowInv, View, Watched, Progress, ForkTally.Accounted;
  }

  /** After sys_env_set_pgfault_upcall for the child. */
  function WithUpcall(x: Ctx, upcall: nat): Ctx
    requires x.c < |x.k1.envs|
  {
    x.(k1 := EnvState.SetUpcall(x.k1, x.c, upcall))
  }

  lemma SameWithUpcall(x: Ctx, upcall: nat)
    requires x.c < |x.k1.envs|
    ensures var z := WithUpcall(x, upcall);
            Pd(z) == Pd(x) && Cd(z) == Cd(x) && ChildId(z) == ChildId(x) && z == x.(k1 := z.k1) && z.k1 == x.k1.(envs := z.k1.envs)
    ensures forall o :: Short(WithUpcall(x, upcall), o) <==> Short(x, o)
  {
  }

  lemma UpcallSet(x: Ctx, g: Prog, k: State, mem: Frames, upcall: nat)
    requires Core(x, g, k, mem)
    ensures x.c < |x.k1.envs| == |k.envs| && KInv(EnvState.SetUpcall(k, x.c, upcall)) && Core(WithUpcall(x, upcall), g, EnvState.SetUpcall(k, x.c, upcall), mem)
  {
    hide Inv, Slots, FreeEnvs, OwnDirs, HasW, CowInv, View, Watched, Progress, ForkTally.Accounted, ForkTally.RightRights, HasTemp, Copied, ForkCost, CowBut, Shareable;
    SettingFacts(x);
    EnvRuns.ResolvedIsLive(k, ChildId(x), true);
    EnvRuns.UpcallKeeps(k, x.c, upcall);
    SameWithUpcall(x, upcall);
  }

  /** sys_env_set_pgfault_upcall for the child, which is complete: the check of the upcall's address,
      for which the kernel would destroy the child, passes. */
  method SetUpcall(kn: Kernel, envid: int, upcall: nat, ghost x: Ctx, ghost g: Prog) returns (r: int)
    requires Ready(kn) && Fine(x, g, kn.k, kn.pm.mem) && !g.gap && g.n == LAST && g.complete && envid == ChildId(x) && UpcallMapped(x.s, Pd(x), upcall)
    requires x.c < |x.k1.envs|
    modifies kn, kn.pm
    ensures Ready(kn) && kn.pm.mem == old(kn.pm.mem) && r == 0 && kn.k.s == old(kn.k.s) && Fine(WithUpcall(x, upcall), g, kn.k, kn.pm.mem)
  {
    hide KInv, Rep, FreeChain.Chain, Pmap.TlbAgrees, Reaches, Core, KernelCalls.UpcallThere, KernelCalls.UpcallHalts, Envid2Env, EnvState.SysEnvSetPgfaultUpcall;
    ghost var k := kn.k;
    FineFacts(x, g, kn.k, kn.pm.mem);
    ChildHasUpcall(x, g, kn.k, kn.pm.mem, upcall);
    UpcallSet(x, g, kn.k, kn.pm.mem, upcall);
    SameWithUpcall(x, upcall);
    var e := kn.SysEnvSetPgfaultUpcall(envid, upcall);
    r := if e.NoEnv? then -2 else 0;
  }

  /** The tally after two more gaps. */
  ghost function TwoMore(x: Ctx, o: Tally, code: seq<seq<Write>>, t: nat): Tally {
    AfterStores(x.s, Pd(x), AfterStores(x.s, Pd(x), o, GapCode(code, t), true), GapCode(code, t + 1), true)
  }

  lemma StillShort(x: Ctx, o: Tally, code: seq<seq<Write>>, t: nat)
    ensures Short(x, AfterStores(x.s, Pd(x), o, GapCode(code, t), true)) ==> Short(x, TwoMore(x, o, code, t))
  {
    hide ForkCost, AfterStores;
    StoresGrow(x.s, Pd(x), AfterStores(x.s, Pd(x), o, GapCode(code, t), true), GapCode(code, t + 1), true);
  }

  /** The last two calls, and the parent's code before each of them. */
  method StartChild(kn: Kernel, envid: int, upcall: nat, code: seq<seq<Write>>, t: nat, ghost x: Ctx, ghost g: Prog)
    returns (out: Outcome, ghost h: Prog)
    requires Ready(kn) && Fine(Cleared(x), g, kn.k, kn.pm.mem) && OwnCode(x.s, Pd(x), code) && Follows(code, t, g) && UpcallMapped(x.s, Pd(x), upcall)
    requires !g.gap && g.n == LAST && g.stack.Some? && g.complete && g.lent && Slot(Pd(x), 1) in kn.k.s.tabs && envid == ChildId(x)
    requires ExceptionPage(Pd(x)) in x.e0 && x.c < EnvIds.NENV == |x.k1.envs|
    modifies kn, kn.pm
    ensures Ready(kn) && Reaches(x.a, Now(kn))
    ensures out.Child? <==> ToEnd(x.s, Pd(x), code, Course(true, true, t, g.own)).alive
    ensures match out
            case Child(id) =>
              && id == envid && Forked(WithUpcall(x, upcall), h, kn.k, kn.pm.mem) && !Short(x, h.own) && Follows(code, t + 2, h)
              && h.own == TwoMore(x, g.own, code, t)
            case Panicked =>
              && Short(x, TwoMore(x, g.own, code, t))
              && (kn.k == x.k1.(s := kn.k.s) || kn.k == WithUpcall(x, upcall).k1.(s := kn.k.s))
            case _ => false
  {
    hide KInv, Rep, FreeChain.Chain, Pmap.TlbAgrees, Reaches, Core, OwnCode, Joined, Forked, Short, EnvState.SysEnvSetStatus, UpcallMapped, AfterStores,
      Survives, EnvState.SetUpcall;
    SameCtx(x);
    StillShort(x, g.own, code, t);
    var ok;
    ok, h := RunGap(kn, code, t, Cleared(x), g);
    if !ok {
      return Panicked, h;
    }
    ghost var z := WithUpcall(Cleared(x), upcall);
    SameWithUpcall(Cleared(x), upcall);
    SameWithUpcall(x, upcall);
    var r := SetUpcall(kn, envid, upcall, Cleared(x), h);
    if r < 0 {
      return Failed, h;
    }
    ok, h := RunGap(kn, code, t + 1, z, h);
    if !ok {
      return Panicked, h;
    }
    FineFacts(z, h, kn.k, kn.pm.mem);
    SetRunnable(z, h, kn.k, kn.pm.mem);
    ForkEnds(WithUpcall(x, upcall), h, kn.k, kn.pm.mem);
    r := kn.SysEnvSetStatus(envid, Some(ENV_RUNNABLE));
    if r < 0 {
      return Failed, h;
    }
    return Child(envid), h;
  }

  // ---- fork ----

  /** What makes fork fail: too little memory to reach PFTEMP, or to end. */
  ghost predicate DoesFail(x: Ctx, code: seq<seq<Write>>) {
    TooFew(x, code) || (!Clashing(x.s, Pd(x), code) && Short(x, AtEnd(x.s, Pd(x), code)))
  }

  /** The tally before PFTEMP, where memory does not suffice on the way. */
  lemma ShortBeforeTemp(x: Ctx, code: seq<seq<Write>>)
    ensures var o, t := PlanTo(x.s, Pd(x), code, LAST), LoopGaps(x.s, Pd(x));
            Short(x, AfterStores(x.s, Pd(x), o, GapCode(code, t), false)) ==> TooFew(x, code)
  {
    hide ForkCost, AfterStores, PlanTo;
    var o, t := PlanTo(x.s, Pd(x), code, LAST), LoopGaps(x.s, Pd(x));
    StoresGrow(x.s, Pd(x), AfterStores(x.s, Pd(x), o, GapCode(code, t), false), GapCode(code, t + 1), true);
  }

  /** fork after the loop, up to the mapping at PFTEMP. */
  method ReachTemp(kn: Kernel, envid: int, code: seq<seq<Write>>, t: nat, ghost x: Ctx, ghost g: Prog)
    returns (out: Outcome, ghost h: Prog, ghost y: nat, ghost kt: State)
    requires Looping(x, g, kn, code, t, LAST) && envid == ChildId(x)
    modifies kn, kn.pm
    ensures Ready(kn) && Reaches(x.a, Now(kn)) && kn.k == x.k1.(s := kn.k.s)
    ensures ToTemp(x.s, Pd(x), code) ==
              if out.Child? then Goes(Course(true, true, t + 2, h.own)) else Stops(if out.Failed? then Fails else Panics)
    ensures if out == Child(envid) then
              && !TooFew(x, code) && Lent(x, h, y, kt, kn.k, kn.pm.mem) && t == LoopGaps(x.s, Pd(x)) && Follows(code, t + 2, h)
              && h.own == AtTemp(x.s, Pd(x), code) && !h.lent && h.complete
            else TooFew(x, code) && !out.Child? && out != Clash
  {
    hide KInv, Rep, FreeChain.Chain, Pmap.TlbAgrees, Reaches, Core, OwnCode, Lent, Joined, Short, AfterStores, PlanTo, GapsTo,
      CourseTo, Survives, StackFits, LoanFits;
    y, kt := 0, kn.k;
    ShortBeforeTemp(x, code);
    var ok, r;
    ok, h := RunGap(kn, code, t, x, g);
    if !ok {
      return Panicked, h, y, kt;
    }
    r, y := AllocStack(kn, envid, x, h);
    if r < 0 {
      return Failed, h, y, kt;
    }
    h := h.(stack := Some(y));
    ok, h := RunGap(kn, code, t + 1, x, h);
    if !ok {
      return Panicked, h, y, kt;
    }
    kt := kn.k;
    r := LendStack(kn, envid, x, h, y);
    out := if r < 0 then Failed else Child(envid);
  }

  /** The rest of fork, after the loop. */
  method FinishFork(kn: Kernel, envid: int, upcall: nat, code: seq<seq<Write>>, t: nat, ghost x: Ctx, ghost g: Prog)
    returns (out: Outcome, ghost h: Prog)
    requires Looping(x, g, kn, code, t, LAST) && envid == ChildId(x) && CanFork(x.s, Pd(x)) && UpcallMapped(x.s, Pd(x), upcall)
    modifies kn, kn.pm
    ensures Ready(kn) && Reaches(x.a, Now(kn))
    ensures FateOf(x.s, Pd(x), code) == Means(out) && x.c < |x.k1.envs|
    ensures match out
            case Child(id) =>
              && id == envid && Forked(WithUpcall(x, upcall), h, kn.k, kn.pm.mem) && Follows(code, AllGaps(x.s, Pd(x)), h)
              && h.own == AtEnd(x.s, Pd(x), code) && !Clashing(x.s, Pd(x), code) && !Short(x, AtEnd(x.s, Pd(x), code))
            case Clash => ClashesThere(x.s, Pd(x), kn.k, code) && !TooFew(x, code) && kn.k == x.k1.(s := kn.k.s)
            case _ => DoesFail(x, code) && (kn.k == x.k1.(s := kn.k.s) || (out.Panicked? && kn.k == WithUpcall(x, upcall).k1.(s := kn.k.s)))
  {
    hide KInv, Rep, FreeChain.Chain, Pmap.TlbAgrees, Reaches, Core, OwnCode, Lent, ForkCost, CanFork, Clashes, Joined, Forked, TooFew, Short, AtTemp, AllIn,
      Renewed, AfterStores, UpcallMapped, PlanTo, GapsTo, ToTemp, ToEnd;
    ghost var y, kt;
    StackSeen(x, g, kn.k, kn.pm.mem);
    ForkBounds.AllRenewed(x.s, Pd(x), code, t + 2);
    ForkBounds.AllRenewed(x.s, Pd(x), code, t + 3);
    out, h, y, kt := ReachTemp(kn, envid, code, t, x, g);
    if out != Child(envid) {
      return;
    }
    ghost var o := h;
    var ok;
    ok, h := ReturnStack(kn, code, t + 2, x, h, y, kt);
    if !ok {
      return Clash, h;
    }
    SameCtx(x);
    out, h := StartChild(kn, envid, upcall, code, t + 4, x, h);
  }

  function Means(out: Outcome): Fate {
    match out
    case Child(_) => Forks
    case Failed => Fails
    case Panicked => Panics
    case Clash => Collides
  }

  /** fork meets PFTEMP in use: as foreseen, and in the state k. */
  ghost predicate ClashesThere(s: Space, pd: nat, k: State, code: seq<seq<Write>>) {
    Clashing(s, pd, code) && (Clashes(k, code, LoopGaps(s, pd) + 2) || Clashes(k, code, LoopGaps(s, pd) + 3))
  }

  /** A child with id r, in the first free slot and with the first free page for its directory. */
  ghost predicate HasChild(k: State, t: State, r: int, status: Status, upcall: nat) {
    && Formed(k) && k.cur.Some? && k.free != [] && k.s.free != []
    && r > 0 && t.envs == k.envs[k.free[0] := Env(r, Me(k), status, k.s.free[0], upcall)]
    && t.cur == k.cur && t.free == k.free[1..]
  }

  /** The child's pages are marked PTE_U and PTE_P, and PTE_COW where the parent could write; its exception
      page is marked PTE_U, PTE_P and PTE_W. */
  ghost predicate ChildRights(s: Space, t: Space, pd: nat, cd: nat) {
    forall v | v in t.maps && v.slot.dir == cd ::
      if v == ExceptionPage(cd) then t.maps[v].flags == 0x007
      else Twin(v, pd) in s.maps && t.maps[v].flags == if Shareable(s.maps[Twin(v, pd)].flags) then 0x805 else 0x005
  }

  lemma ChildRightsAre(s: Space, t: Space, pd: nat, cd: nat, y: nat)
    requires ForkMaps(s, t, pd, cd, LAST, Some(y), true)
    ensures ChildRights(s, t, pd, cd)
  {
    hide HasW, HasU, SameRights, Shareable, InRange;
    NotInRange(cd);
    UpwOk();
    forall v | v in t.maps && v.slot.dir == cd
      ensures if v == ExceptionPage(cd) then t.maps[v].flags == 0x007
              else Twin(v, pd) in s.maps && t.maps[v].flags == if Shareable(s.maps[Twin(v, pd)].flags) then 0x805 else 0x005 {
      assert ChildPage(s, pd, cd, LAST, Some(y), v, t.maps[v]);
      TwinRange(v, pd);
    }
  }

  /** What fork has done when it returns the child's id. The child's pages are the parent's, not
      writable, and marked copy-on-write if the parent could write them, and an exception page;
      the parent has the rights that it had. fork has taken its own pages and those that the
      faults of the parent's stores have kept. */
  ghost predicate Shares(k: State, m: Frames, t: State, m': Frames, code: seq<seq<Write>>)
    requires Formed(k) && k.cur.Some? && k.s.free != []
  {
    var s, pd, cd := k.s, Dir(k), k.s.free[0];
    && CowInv(t.s) && ExceptionPage(cd) in t.s.maps
    && ForkMaps(s, t.s, pd, cd, LAST, Some(t.s.maps[ExceptionPage(cd)].frame), true) && ChildRights(s, t.s, pd, cd)
    && ForkedView(View(Machine(s, m)), View(Machine(t.s, m')), pd, cd, Joined(code, AllGaps(s, pd)))
    && |s.free| == |t.s.free| + ForkCost(s, pd) + AtEnd(s, pd, code).kept
  }

  /** A free slot, and free pages for fork and for the faults of the tally. */
  ghost predicate Affords(k: State, o: Tally)
    requires Formed(k) && k.cur.Some?
  {
    k.free != [] && |k.s.free| >= ForkCost(k.s, Dir(k)) + Need(o)
  }

  /** fork has left a child behind that is not runnable. */
  ghost predicate Unfinished(k: State, t: State, upcall: nat) { exists r :: HasChild(k, t, r, ENV_NOT_RUNNABLE, upcall) }

  /** fork, in the parent. code[i] is what the parent's own code stores in the i-th gap between
      fork's calls. The state before fork and these stores decide what comes of it. Without a slot or
      a page for the directory it returns -1 and changes nothing. Otherwise FateOf tells whether it
      returns a child, returns -1, panics, or meets PFTEMP in use: the last, if and only if it can afford to
      get there and a store then goes to a page not stored to since its own duppage; and a child, if and
      only if it can afford to end and meets no such store. That child has the upcall and is runnable; else
      one that is not is left behind. A call of duppage that failed, which fork does not look at, has left
      no page to end with: every child is complete. */
  method Fork(kn: Kernel, upcall: nat, code: seq<seq<Write>>) returns (out: Outcome)
    requires Ready(kn) && CanFork(kn.k.s, Dir(kn.k)) && OwnCode(kn.k.s, Dir(kn.k), code) && UpcallMapped(kn.k.s, Dir(kn.k), upcall)
    modifies kn, kn.pm
    ensures Ready(kn) && Reaches(old(Now(kn)), Now(kn))
    ensures var k, pd := old(kn.k), Dir(old(kn.k));
            && (if k.free == [] || k.s.free == [] then out == Failed && kn.k == k else FateOf(k.s, pd, code) == Means(out))
            && (out == Clash <==> Affords(k, AtTemp(k.s, pd, code)) && Clashing(k.s, pd, code))
            && (out.Child? <==> Affords(k, AtEnd(k.s, pd, code)) && !Clashing(k.s, pd, code))
    ensures match out
            case Child(id) =>
              HasChild(old(kn.k), kn.k, id, ENV_RUNNABLE, upcall) && Shares(old(kn.k), old(kn.pm.mem), kn.k, kn.pm.mem, code)
            case Clash => ClashesThere(old(kn.k).s, Dir(old(kn.k)), kn.k, code) && Unfinished(old(kn.k), kn.k, 0)
            case Failed => kn.k == old(kn.k) || Unfinished(old(kn.k), kn.k, 0)
            case Panicked => Unfinished(old(kn.k), kn.k, 0) || Unfinished(old(kn.k), kn.k, upcall)
  {
    hide KInv, Inv, Rep, FreeChain.Chain, Pmap.TlbAgrees, Reaches, Core, CanFork, OwnCode, Clashes, EnvState.SysExofork, ForkCost, Forked, Need, AtTemp, AtEnd, Renewed,
      UpcallMapped, Clashing, FateOf, Unfinished, CourseTo, HasChild;
    ghost var k, m := kn.k, kn.pm.mem;
    var envid := NewChild(kn);
    if envid < 0 {
      if k.s.free == [] {
        NoPagesShort(k);
      }
      ExoforkFailed(k);
      return Failed;
    }
    Exoforked(k);
    Begins(k, m, kn.pm.mem);
    ghost var x := Ctx(k.s, View(Machine(k.s, m)), Machine(k.s, m), kn.k, k.free[0]);
    ghost var h;
    var ok, t;
    EndGrows(k.s, Dir(k), code);
    AtFirst(k.s, Dir(k), code);
    ok, t, h := DupTables(kn, envid, code, 0, x, Begun(k.s, Dir(k)));
    if !ok {
      DiedPanics(x, code);
      LeftBehind(k, x, kn.k, upcall);
      return Panicked;
    }
    out, h := FinishFork(kn, envid, upcall, code, t, x, h);
    LeftBehind(k, x, kn.k, upcall);
    if out.Child? {
      ForkedShares(k, m, x, h, kn.k, kn.pm.mem, code, upcall);
    }
  }

  lemma ExoforkFailed(k: State)
    requires KInv(k) && k.cur.Some? && EnvState.SysExofork(k).1 < 0
    ensures (k.free == [] || k.s.free == []) && EnvState.SysExofork(k).0 == k
  {
    hide KInv, EnvState.SysExofork;
    Exoforked(k);
  }

  lemma DiedPanics(x: Ctx, code: seq<seq<Write>>)
    requires Died(x, code)
    ensures FateOf(x.s, Pd(x), code) == Panics
  {
    hide CourseTo, Survives;
  }

  lemma LeftBehind(k: State, x: Ctx, t: State, upcall: nat)
    requires KInv(k) && k.cur.Some? && EnvState.SysExofork(k).1 >= 0 && k.free != [] && k.s.free != []
    requires x.k1 == EnvState.SysExofork(k).0 && x.c == k.free[0] && x.c < |x.k1.envs|
    ensures t == x.k1.(s := t.s) ==> Unfinished(k, t, 0)
    ensures t == WithUpcall(x, upcall).k1.(s := t.s) ==> Unfinished(k, t, upcall)
  {
    hide Inv, Slots, FreeEnvs, OwnDirs, NewDir, EnvIds.IdAfter, EnvIds.NextId;
    Exoforked(k);
    var r := EnvState.SysExofork(k).1;
    assert t == x.k1.(s := t.s) ==> HasChild(k, t, r, ENV_NOT_RUNNABLE, 0);
    assert t == WithUpcall(x, upcall).k1.(s := t.s) ==> HasChild(k, t, r, ENV_NOT_RUNNABLE, upcall);
  }

  lemma AtFirst(s: Space, pd: nat, code: seq<seq<Write>>)
    ensures CourseTo(s, pd, code, 2048) == Course(true, true, 0, AtStart(s, pd))
    ensures PlanTo(s, pd, code, 2048) == AtStart(s, pd) && GapsTo(s, pd, 2048) == 0 && Joined(code, 0) == []
  {
  }

  lemma NoPagesShort(k: State)
    requires KInv(k) && k.cur.Some? && k.s.free == []
    ensures |k.s.free| < ForkCost(k.s, Dir(k))
  {
    hide KInv, Tables;
  }

  lemma ForkedShares(k: State, m: Frames, x: Ctx, h: Prog, t: State, m': Frames, code: seq<seq<Write>>, upcall: nat)
    requires KInv(k) && k.cur.Some? && EnvState.SysExofork(k).1 >= 0 && k.free != [] && k.s.free != []
    requires x == Ctx(k.s, View(Machine(k.s, m)), Machine(k.s, m), EnvState.SysExofork(k).0, k.free[0])
    requires Pd(x) == Dir(k) && Cd(x) == k.s.free[0] && x.c < |x.k1.envs| && Forked(WithUpcall(x, upcall), h, t, m')
    requires h.own == AtEnd(k.s, Dir(k), code) && h.ws == Joined(code, AllGaps(k.s, Dir(k)))
    ensures HasChild(k, t, ChildId(x), ENV_RUNNABLE, upcall) && Shares(k, m, t, m', code)
  {
    hide ChildRights, Inv, Slots, FreeEnvs, OwnDirs, NewDir, ForkMaps, ForkedView, ForkCost, View, CowInv, EnvIds.IdAfter, AtEnd, AllGaps, Joined;
    Exoforked(k);
    SameWithUpcall(x, upcall);
    ChildRightsAre(k.s, t.s, Dir(k), k.s.free[0], h.stack.value);
    StackAt(k.s, t.s, Dir(k), k.s.free[0], h.stack.value);
  }

  lemma StackAt(s: Space, t: Space, pd: nat, cd: nat, y: nat)
    requires ForkMaps(s, t, pd, cd, LAST, Some(y), true)
    ensures ExceptionPage(cd) in t.maps && t.maps[ExceptionPage(cd)].frame == y
  {
    hide HasW, HasU, SameRights, UPW, DupPerm;
    WritableEntry(y);
    NotInRange(cd);
    assert ChildPage(s, pd, cd, LAST, Some(y), ExceptionPage(cd), t.maps[ExceptionPage(cd)]);
  }

  /** PFTEMP is not mapped, and to unmap it would take a reference from frame 0. */
  ghost predicate TempLost(s: Space, w: Page) {
    var t := Remove(s, w);
    && w !in s.maps && w.slot in s.tabs && |s.ref| > 0 && t.ref[0] + 1 == s.ref[0]
    && |t.boot| == |t.ref| && !Counted(t)
  }

  /** The fault that meets PFTEMP in use. Either pgfault finds no page and panics, or it takes PFTEMP
      away from fork: memmove's next load from it then faults, and pgfault panics as that is no
      write; or sys_page_unmap meets an empty entry, and frame 0 loses a reference that it does not have. */
  method FaultInClash(kn: Kernel, va: nat, ghost a: Machine) returns (ok: bool)
    requires Ready(kn) && Meets(kn.k, va) && Reaches(a, Now(kn))
    modifies kn, kn.pm
    ensures Ready(kn) && Reaches(a, Now(kn)) && (ok <==> CanRepair(old(kn.k.s), PageAt(Dir(old(kn.k)), va)))
    ensures ok ==> TempLost(kn.k.s, PfTemp(Dir(kn.k)))
  {
    hide KInv, Rep, FreeChain.Chain, Pmap.TlbAgrees, Reaches, Repaired, CanRepair, Repairable, TempLost;
    ghost var b, v := Now(kn), PageAt(Dir(kn.k), va);
    RepairableFacts(kn.k.s, v);
    ghost var y;
    ok, y := Pgfault(kn, va, true, a);
    if ok {
      TakesTemp(b, Now(kn), v, y);
    }
  }

  lemma RepairableFacts(s: Space, v: Page)
    requires Repairable(s, v)
    ensures v in s.maps && HasCow(s.maps[v].flags)
  {
  }

  lemma TakesTemp(a: Machine, b: Machine, v: Page, y: nat)
    requires Repaired(a, b, v, y)
    ensures TempLost(b.s, PfTemp(v.slot.dir))
  {
    hide Inv, Counted;
    var w := PfTemp(v.slot.dir);
    assert w.slot in b.s.tabs.Keys;
    InvShaped(b.s, {});
    RemoveEmptyBreaks(b.s, {}, w);
  }

  /** A page that the parent's code does not store to is the same in both, and as it was. */
  lemma UnwrittenIsShared(e0: Private, e: Private, pd: nat, cd: nat, ws: seq<Write>, v: Page)
    requires ForkedView(e0, e, pd, cd, ws) && v in e0 && v.slot.dir == pd && InRange(v)
    requires Untouched(ws, pd, v)
    ensures v in e && Twin(v, cd) in e && e[Twin(v, cd)] == e[v] == e0[v]
  {
    hide InRange, Applied, Pdx, Ptx;
    var j: nat :| j <= |ws| && e[Twin(v, cd)] == Applied(e0[v], ws[..j], pd, v) by { assert Copied(e0, e, pd, cd, ws, v); }
    BeforeException(v);
    AppliedNowhere(e0[v], ws[..j], pd, v);
    AppliedNowhere(e0[v], ws, pd, v);
  }

  /** After fork, what any environment sees of its pages is its own: no run of the others' calls and
      stores, however interleaved, changes it; and as long as nobody makes a second writable mapping of a
      frame, no frame gets a second writer. */
  lemma ForkedPagesAreOwn(ms: seq<Machine>, evs: seq<Event>, u: Page)
    requires Trace(ms, evs) && CowInv(ms[0].s) && u in View(ms[0])
    requires forall i | 0 <= i < |evs| :: Elsewhere(evs[i], u.slot.dir)
    ensures u in View(ms[|evs|]) && View(ms[|evs|])[u] == View(ms[0])[u]
    ensures TidyRun(ms, evs) ==> OneWriter(ms[|evs|].s)
  {
    hide View, Elsewhere, CowInv, OneWriter;
    NoWriteShowsElsewhere(ms, evs, u);
    if TidyRun(ms, evs) {
      AloneIsOneWriter(ms[0].s);
      RunKeepsOneWriter(ms, evs);
    }
  }
}
