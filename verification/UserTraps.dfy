/** User page-fault frames: page_fault_handler (kern/trap.c) pushes one, _pgfault_upcall
    (lib/pfentry.S) unwinds it. Memory is byte by byte; words are little endian. */
module UserTraps {
  import opened Mmu
  import opened Words

  type Byte = x: nat | x < 256

  function ByteOf(v: nat, i: nat): Byte
    requires i < 4
  {
    match i
    case 0 => v % 256
    case 1 => v / 256 % 256
    case 2 => v / 65536 % 256
    case _ => v / 16777216 % 256
  }

  /** The word at address a. */
  function Load(m: seq<Byte>, a: nat): (v: nat)
    ensures v < WORDS
  {
    if a + 4 <= |m| then (m[a] as int) + 256 * (m[a + 1] as int) + 65536 * (m[a + 2] as int) + 16777216 * (m[a + 3] as int) else 0
  }

  function Store(m: seq<Byte>, a: nat, v: nat): (n: seq<Byte>)
    ensures |n| == |m|
  {
    if a + 4 <= |m|
    then m[a := ByteOf(v, 0)][a + 1 := ByteOf(v, 1)][a + 2 := ByteOf(v, 2)][a + 3 := ByteOf(v, 3)]
    else m
  }

  lemma LoadStored(m: seq<Byte>, a: nat, v: nat)
    requires a + 4 <= |m| && v < WORDS
    ensures Load(Store(m, a, v), a) == v
  {
    var b0, b1, b2, b3 := v % 256, v / 256 % 256, v / 65536 % 256, v / 16777216 % 256;
    assert v / 16777216 < 256;
    assert v == b0 + 256 * (v / 256) && v / 256 == b1 + 256 * (v / 256 / 256) && v / 256 / 256 == v / 65536;
    assert v / 65536 == b2 + 256 * (v / 65536 / 256) && v / 65536 / 256 == v / 16777216;
  }

  lemma LoadElsewhere(m: seq<Byte>, a: nat, v: nat, b: nat)
    requires a + 4 <= b || b + 4 <= a
    ensures Load(Store(m, a, v), b) == Load(m, b)
  {
  }

  function Sub32(x: nat, y: nat): nat { (x + WORDS - y % WORDS) % WORDS }

  function Add32(x: nat, y: nat): nat { (x + y) % WORDS }

  // ---- The processor ----

  /** What a trap must give back: the general registers, eflags, eip and esp. */
  datatype Cpu = Cpu(edi: nat, esi: nat, ebp: nat, ebx: nat, edx: nat, ecx: nat, eax: nat, eip: nat, eflags: nat, esp: nat)

  predicate Word32(r: Cpu) {
    && r.edi < WORDS && r.esi < WORDS && r.ebp < WORDS && r.ebx < WORDS && r.edx < WORDS && r.ecx < WORDS
    && r.eax < WORDS && r.eip < WORDS && r.eflags < WORDS && r.esp < WORDS
  }

  /** alu: the flags that the next addition or subtraction leaves, whatever they are. */
  datatype X86 = X86(cpu: Cpu, mem: seq<Byte>, alu: nat)

  datatype Instr =
    | AddEsp(n: nat)              // addl $n, %esp
    | MovEspEbx                   // movl %esp, %ebx
    | LoadEax(off: nat)           // movl off(%esp), %eax
    | LoadEsp(off: nat)           // movl off(%esp), %esp
    | PushEax                     // pushl %eax
    | MovEbxEsp                   // movl %ebx, %esp
    | SubMem(n: nat, off: nat)    // subl $n, off(%esp)
    | PopEax                      // popl %eax
    | PopAll                      // popal
    | PopFlags                    // popfl
    | PopEsp                      // popl %esp
    | Ret                         // ret

  function Step(s: X86, i: Instr): X86 {
    var c := s.cpu;
    match i
    case AddEsp(n) => s.(cpu := c.(esp := Add32(c.esp, n), eflags := s.alu))
    case MovEspEbx => s.(cpu := c.(ebx := c.esp))
    case LoadEax(off) => s.(cpu := c.(eax := Load(s.mem, Add32(c.esp, off))))
    case LoadEsp(off) => s.(cpu := c.(esp := Load(s.mem, Add32(c.esp, off))))
    case PushEax => var a := Sub32(c.esp, 4); s.(cpu := c.(esp := a), mem := Store(s.mem, a, c.eax))
    case MovEbxEsp => s.(cpu := c.(esp := c.ebx))
    case SubMem(n, off) =>
      var a := Add32(c.esp, off);
      s.(cpu := c.(eflags := s.alu), mem := Store(s.mem, a, Sub32(Load(s.mem, a), n)))
    case PopEax => s.(cpu := c.(eax := Load(s.mem, c.esp), esp := Add32(c.esp, 4)))
    case PopAll => s.(cpu := PopRegs(c, s.mem))
    case PopFlags => s.(cpu := c.(eflags := Load(s.mem, c.esp), esp := Add32(c.esp, 4)))
    case PopEsp => s.(cpu := c.(esp := Load(s.mem, c.esp)))
    case Ret => s.(cpu := c.(eip := Load(s.mem, c.esp), esp := Add32(c.esp, 4)))
  }

  /** popal: eight words, the saved esp among them skipped. */
  function PopRegs(c: Cpu, m: seq<Byte>): Cpu {
    Cpu(Load(m, c.esp), Load(m, Add32(c.esp, 4)), Load(m, Add32(c.esp, 8)), Load(m, Add32(c.esp, 16)),
        Load(m, Add32(c.esp, 20)), Load(m, Add32(c.esp, 24)), Load(m, Add32(c.esp, 28)), c.eip, c.eflags, Add32(c.esp, 32))
  }

  function Exec(s: X86, code: seq<Instr>): X86
    decreases |code|
  {
    if code == [] then s else Exec(Step(s, code[0]), code[1..])
  }

  /** _pgfault_upcall from the point where the C handler has returned. */
  const UNWIND: seq<Instr> := [
    AddEsp(4), MovEspEbx, LoadEax(40), LoadEsp(48), PushEax, MovEbxEsp, SubMem(4, 48),
    PopEax, PopEax, PopAll, AddEsp(4), PopFlags, PopEsp, Ret
  ]

  function Unwind(s: X86): X86 { Exec(s, UNWIND) }

  // ---- The frame ----

  /** struct UTrapframe at u, but for the fault address, the error code and reg_oesp. */
  predicate FrameAt(m: seq<Byte>, u: nat, r: Cpu) {
    && Load(m, u + 8) == r.edi && Load(m, u + 12) == r.esi && Load(m, u + 16) == r.ebp
    && Load(m, u + 24) == r.ebx && Load(m, u + 28) == r.edx && Load(m, u + 32) == r.ecx && Load(m, u + 36) == r.eax
    && Load(m, u + 40) == r.eip && Load(m, u + 44) == r.eflags && Load(m, u + 48) == r.esp
  }

  predicate InExceptionPage(a: nat) { UXSTACKTOP - PGSIZE <= a <= UXSTACKTOP - 1 }

  /** Where the kernel puts the frame: below a scratch word if the fault was taken on the
      exception stack, else at the stack's top. */
  function FrameBase(esp: nat): (u: nat) {
    if InExceptionPage(esp) then esp - 52 - 4 else UXSTACKTOP - 52
  }

  /** The word below the trap-time stack pointer has a user address. */
  predicate ScratchMapped(esp: nat) { 4 <= esp <= UXSTACKTOP }

  /** The frame and the scratch word do not overlap, unless the stack pointer is exactly the top
      of the exception page: that is not taken for a fault on the exception stack. */
  lemma ScratchApartIff(esp: nat)
    requires ScratchMapped(esp)
    ensures var u := FrameBase(esp); (esp <= u || u + 52 <= esp - 4) <==> esp != UXSTACKTOP
  {
  }

  // ---- Unwinding ----

  lemma ExecOne(s: X86, k: nat)
    requires k < |UNWIND|
    ensures Exec(s, UNWIND[k..]) == Exec(Step(s, UNWIND[k]), UNWIND[k + 1..])
  {
    assert UNWIND[k..][1..] == UNWIND[k + 1..];
  }

  /** The state in which the frame at u is about to be popped: the trap-time eip is on the
      trap-time stack, and the saved esp points to it. */
  function Returning(s: X86, u: nat): X86 {
    var eip, esp := Load(s.mem, u + 40), Load(s.mem, u + 48);
    var m := Store(s.mem, Sub32(esp, 4), eip);
    X86(s.cpu.(esp := u, ebx := u, eax := eip, eflags := s.alu), Store(m, u + 48, Sub32(Load(m, u + 48), 4)), s.alu)
  }

  function First(s: X86): X86 {
    Step(Step(Step(Step(Step(Step(Step(s, AddEsp(4)), MovEspEbx), LoadEax(40)), LoadEsp(48)), PushEax), MovEbxEsp), SubMem(4, 48))
  }

  function Second(s: X86): X86 {
    Step(Step(Step(Step(Step(Step(Step(s, PopEax), PopEax), PopAll), AddEsp(4)), PopFlags), PopEsp), Ret)
  }

  lemma ExecTwo(s: X86, k: nat)
    requires k + 1 < |UNWIND|
    ensures Exec(s, UNWIND[k..]) == Exec(Step(Step(s, UNWIND[k]), UNWIND[k + 1]), UNWIND[k + 2..])
  {
    hide Exec, Step;
    ExecOne(s, k);
    ExecOne(Step(s, UNWIND[k]), k + 1);
  }

  lemma ExecHalves(s: X86)
    ensures Unwind(s) == Second(First(s))
  {
    hide Exec, Step;
    var s2 := Step(Step(s, AddEsp(4)), MovEspEbx);
    var s4 := Step(Step(s2, LoadEax(40)), LoadEsp(48));
    var s6 := Step(Step(s4, PushEax), MovEbxEsp);
    var s8 := Step(Step(s6, SubMem(4, 48)), PopEax);
    var s10 := Step(Step(s8, PopEax), PopAll);
    var s12 := Step(Step(s10, AddEsp(4)), PopFlags);
    assert UNWIND[0..] == UNWIND;
    ExecTwo(s, 0);
    ExecTwo(s2, 2);
    ExecTwo(s4, 4);
    ExecTwo(s6, 6);
    ExecTwo(s8, 8);
    ExecTwo(s10, 10);
    ExecTwo(s12, 12);
    ExecNothing(Step(Step(s12, PopEsp), Ret));
  }

  lemma ExecNothing(s: X86)
    ensures Exec(s, UNWIND[14..]) == s
  {
    assert UNWIND[14..] == [];
  }

  lemma ExecPrepare(s: X86, u: nat)
    requires s.cpu.esp == u - 4 && 4 <= u <= UXSTACKTOP - 52
    ensures First(s) == Returning(s, u)
  {
    hide Load, Store, Sub32;
  }

  /** What the second half makes of the frame's words. */
  function Popped(m: seq<Byte>, u: nat): Cpu {
    var esp := Load(m, u + 48);
    Cpu(Load(m, u + 8), Load(m, u + 12), Load(m, u + 16), Load(m, u + 24), Load(m, u + 28), Load(m, u + 32), Load(m, u + 36),
        Load(m, esp), Load(m, u + 44), Add32(esp, 4))
  }

  lemma ExecPop(s: X86, u: nat)
    requires s.cpu.esp == u <= UXSTACKTOP - 52
    ensures Second(s) == s.(cpu := Popped(s.mem, u))
  {
    hide Load, Store;
    var s2 := Step(Step(s, PopEax), PopEax);
    assert s2.cpu.esp == u + 8 && s2.mem == s.mem && s2.alu == s.alu;
    var s4 := Step(Step(s2, PopAll), AddEsp(4));
    PoppedRegs(s2.cpu, s.mem, u);
    assert s4 == X86(PopRegs(s2.cpu, s.mem).(esp := u + 44, eflags := s.alu), s.mem, s.alu);
    hide PopRegs;
  }

  lemma PoppedRegs(c: Cpu, m: seq<Byte>, u: nat)
    requires c.esp == u + 8 && u <= UXSTACKTOP - 52
    ensures var p := Popped(m, u);
            PopRegs(c, m) == Cpu(p.edi, p.esi, p.ebp, p.ebx, p.edx, p.ecx, p.eax, c.eip, c.eflags, u + 40)
  {
    hide Load;
  }

  /** Memory after unwinding the frame at u: the scratch word and the saved esp were written. */
  function Spent(m: seq<Byte>, u: nat, r: Cpu): (n: seq<Byte>)
    ensures |n| == |m|
  {
    Store(Store(m, Sub32(r.esp, 4), r.eip), u + 48, Sub32(r.esp, 4))
  }

  /** Unwinding restores every register, eflags, eip and esp, exactly. */
  lemma UnwindRestores(s: X86, u: nat, r: Cpu)
    requires |s.mem| == WORDS && Word32(r) && FrameAt(s.mem, u, r) && s.cpu.esp == u - 4 && 4 <= u <= UXSTACKTOP - 52
    requires ScratchMapped(r.esp) && (r.esp <= u || u + 52 <= r.esp - 4)
    ensures Unwind(s) == X86(r, Spent(s.mem, u, r), s.alu)
  {
    hide Load, Store, Unwind, First, Second, Step;
    ExecHalves(s);
    ExecPrepare(s, u);
    ExecPop(Returning(s, u), u);
    var a := r.esp - 4;
    var m := Store(s.mem, a, r.eip);
    LoadStored(s.mem, a, r.eip);
    LoadElsewhere(s.mem, a, r.eip, u + 48);
    var n := Store(m, u + 48, a);
    LoadStored(m, u + 48, a);
    LoadElsewhere(m, u + 48, a, a);
    Apart(s.mem, a, r.eip, u);
    Apart(m, u + 48, a, u);
  }

  lemma Apart(m: seq<Byte>, a: nat, v: nat, u: nat)
    requires a + 4 <= u || u + 48 <= a
    ensures var n := Store(m, a, v);
            && Load(n, u + 8) == Load(m, u + 8) && Load(n, u + 12) == Load(m, u + 12) && Load(n, u + 16) == Load(m, u + 16)
            && Load(n, u + 24) == Load(m, u + 24) && Load(n, u + 28) == Load(m, u + 28) && Load(n, u + 32) == Load(m, u + 32)
            && Load(n, u + 36) == Load(m, u + 36) && Load(n, u + 40) == Load(m, u + 40) && Load(n, u + 44) == Load(m, u + 44)
  {
    hide Load, Store;
    LoadElsewhere(m, a, v, u + 8);
    LoadElsewhere(m, a, v, u + 12);
    LoadElsewhere(m, a, v, u + 16);
    LoadElsewhere(m, a, v, u + 24);
    LoadElsewhere(m, a, v, u + 28);
    LoadElsewhere(m, a, v, u + 32);
    LoadElsewhere(m, a, v, u + 36);
    LoadElsewhere(m, a, v, u + 40);
    LoadElsewhere(m, a, v, u + 44);
  }

  /** A frame at the place the kernel chose is unwound correctly if and only if the trap-time
      stack pointer was not exactly the top of the exception page. */
  lemma UnwindRestoresIff(s: X86, r: Cpu)
    requires |s.mem| == WORDS && Word32(r) && ScratchMapped(r.esp) && FrameBase(r.esp) >= 4 && r.eip < UTOP
    requires FrameAt(s.mem, FrameBase(r.esp), r) && s.cpu.esp == FrameBase(r.esp) - 4
    ensures Unwind(s).cpu == r <==> r.esp != UXSTACKTOP
  {
    hide Unwind, Load, Store, First, Second, Step;
    var u := FrameBase(r.esp);
    ScratchApartIff(r.esp);
    if r.esp != UXSTACKTOP {
      UnwindRestores(s, u, r);
    } else {
      ExecHalves(s);
      ExecPrepare(s, u);
      ExecPop(Returning(s, u), u);
      var m := Store(s.mem, u + 48, r.eip);
      LoadStored(s.mem, u + 48, r.eip);
      LoadStored(m, u + 48, Sub32(r.eip, 4));
    }
  }

  // ---- Pushing ----

  /** The words of ws are at u, and nothing outside the 52 bytes from u has changed. */
  ghost predicate Written(m0: seq<Byte>, m: seq<Byte>, u: nat, ws: seq<nat>) {
    && |m| == |m0|
    && (forall i: nat | i < |ws| :: Load(m, u + 4 * i) == ws[i])
    && SameOutside(m0, m, u)
  }

  ghost predicate SameOutside(m0: seq<Byte>, m: seq<Byte>, u: nat) {
    |m| == |m0| && forall a | 0 <= a < |m| && !(u <= a < u + 52) :: m[a] == m0[a]
  }

  lemma WriteNext(m0: seq<Byte>, m: seq<Byte>, u: nat, ws: seq<nat>, v: nat)
    requires Written(m0, m, u, ws) && |ws| < 13 && u + 52 <= |m| && v < WORDS
    ensures Written(m0, Store(m, u + 4 * |ws|, v), u, ws + [v])
  {
    var n := Store(m, u + 4 * |ws|, v);
    LoadStored(m, u + 4 * |ws|, v);
    hide Load;
    forall i: nat | i < |ws| ensures Load(n, u + 4 * i) == ws[i] {
      LoadElsewhere(m, u + 4 * |ws|, v, u + 4 * i);
    }
  }

  function RegWords(r: Cpu, oesp: nat): (ws: seq<nat>)
    ensures |ws| == 8
  {
    [r.edi, r.esi, r.ebp, oesp, r.ebx, r.edx, r.ecx, r.eax]
  }

  lemma WrittenFrame(m0: seq<Byte>, m: seq<Byte>, u: nat, va: nat, err: nat, oesp: nat, r: Cpu)
    requires Written(m0, m, u, [va, err] + RegWords(r, oesp) + [r.eip] + [r.eflags] + [r.esp])
    ensures FrameAt(m, u, r) && Load(m, u) == va && Load(m, u + 4) == err && Load(m, u + 20) == oesp
  {
    hide Load;
    var ws := [va, err] + RegWords(r, oesp) + [r.eip] + [r.eflags] + [r.esp];
    assert Load(m, u + 4 * 0) == ws[0] && Load(m, u + 4 * 1) == ws[1];
    assert Load(m, u + 4 * 2) == ws[2] && Load(m, u + 4 * 3) == ws[3] && Load(m, u + 4 * 4) == ws[4];
    assert Load(m, u + 4 * 5) == ws[5] && Load(m, u + 4 * 6) == ws[6] && Load(m, u + 4 * 7) == ws[7] && Load(m, u + 4 * 8) == ws[8];
    assert Load(m, u + 4 * 9) == ws[9] && Load(m, u + 4 * 10) == ws[10] && Load(m, u + 4 * 11) == ws[11];
    assert Load(m, u + 4 * 12) == ws[12];
  }

  // ---- Pages ----

  /** The user's pages by number, and whether each is writable. Below UTOP a page that is present at all is
      the user's: every system call that maps one asks for PTE_U. */
  type Pages = map<nat, bool>

  predicate WritablePage(p: Pages, n: nat) { n in p && p[n] }

  /** A store to the word at a does not fault, in user or in kernel mode: CR0_WP is set. */
  predicate CanStore(p: Pages, a: nat) { WritablePage(p, a / 4096) && WritablePage(p, (a + 3) / 4096) }

  predicate CanLoad(p: Pages, a: nat) { a / 4096 in p && (a + 3) / 4096 in p }

  /** user_mem_check of the 52 bytes from u, for writing. */
  predicate CanWriteFrame(p: Pages, u: nat) { WritablePage(p, u / 4096) && WritablePage(p, (u + 51) / 4096) }

  lemma FrameBytes(p: Pages, u: nat)
    ensures CanWriteFrame(p, u) <==> forall a: nat | u <= a < u + 52 :: WritablePage(p, a / 4096)
  {
    assert u <= u + 51 < u + 52;
    if forall a: nat | u <= a < u + 52 :: WritablePage(p, a / 4096) {
      assert WritablePage(p, u / 4096) && WritablePage(p, (u + 51) / 4096);
    }
  }

  lemma FrameWords(p: Pages, u: nat, k: nat)
    requires k < 13
    ensures CanWriteFrame(p, u) ==> CanStore(p, u + 4 * k) && CanLoad(p, u + 4 * k)
    ensures CanStore(p, u) && CanStore(p, u + 48) ==> CanWriteFrame(p, u)
  {
    var a := u + 4 * k;
    assert a / 4096 == u / 4096 || a / 4096 == (u + 51) / 4096;
    assert (a + 3) / 4096 == u / 4096 || (a + 3) / 4096 == (u + 51) / 4096;
  }

  // ---- When unwinding faults ----

  /** The instruction's loads and stores do not fault. */
  predicate Allowed(p: Pages, s: X86, i: Instr) {
    var esp := s.cpu.esp;
    match i
    case LoadEax(off) => CanLoad(p, Add32(esp, off))
    case LoadEsp(off) => CanLoad(p, Add32(esp, off))
    case PushEax => CanStore(p, Sub32(esp, 4))
    case SubMem(_, off) => CanStore(p, Add32(esp, off))
    case PopAll => forall k: nat | k < 8 :: CanLoad(p, Add32(esp, 4 * k))
    case PopEax => CanLoad(p, esp)
    case PopFlags => CanLoad(p, esp)
    case PopEsp => CanLoad(p, esp)
    case Ret => CanLoad(p, esp)
    case _ => true
  }

  predicate FaultFree(p: Pages, s: X86, code: seq<Instr>)
    decreases |code|
  {
    code == [] || (Allowed(p, s, code[0]) && FaultFree(p, Step(s, code[0]), code[1..]))
  }

  lemma FreeOne(p: Pages, s: X86, k: nat)
    requires k < |UNWIND|
    ensures FaultFree(p, s, UNWIND[k..]) <==> Allowed(p, s, UNWIND[k]) && FaultFree(p, Step(s, UNWIND[k]), UNWIND[k + 1..])
  {
    hide Allowed, Step;
    assert UNWIND[k..][1..] == UNWIND[k + 1..];
  }

  lemma FreeTwo(p: Pages, s: X86, k: nat)
    requires k + 1 < |UNWIND|
    ensures FaultFree(p, s, UNWIND[k..]) <==>
              Allowed(p, s, UNWIND[k]) && Allowed(p, Step(s, UNWIND[k]), UNWIND[k + 1]) && FaultFree(p, Step(Step(s, UNWIND[k]), UNWIND[k + 1]), UNWIND[k + 2..])
  {
    hide Allowed, Step, FaultFree;
    FreeOne(p, s, k);
    FreeOne(p, Step(s, UNWIND[k]), k + 1);
  }

  /** The state before the trap-time eip is pushed. */
  function AtPush(s: X86, u: nat): X86 {
    s.(cpu := s.cpu.(esp := Load(s.mem, u + 48), ebx := u, eax := Load(s.mem, u + 40), eflags := s.alu))
  }

  lemma FreeToPush(p: Pages, s: X86, u: nat)
    requires s.cpu.esp == u - 4 && 4 <= u <= UXSTACKTOP - 52 && CanWriteFrame(p, u)
    ensures FaultFree(p, s, UNWIND) <==> FaultFree(p, AtPush(s, u), UNWIND[4..])
    ensures Step(Step(Step(Step(s, AddEsp(4)), MovEspEbx), LoadEax(40)), LoadEsp(48)) == AtPush(s, u)
  {
    hide FaultFree, CanStore, CanLoad, CanWriteFrame, Load, Store;
    FrameWords(p, u, 10);
    FrameWords(p, u, 12);
    assert UNWIND[0..] == UNWIND;
    var s2 := Step(Step(s, AddEsp(4)), MovEspEbx);
    assert s2 == s.(cpu := s.cpu.(esp := u, ebx := u, eflags := s.alu));
    FreeTwo(p, s, 0);
    FreeTwo(p, s2, 2);
  }

  lemma FreePush(p: Pages, s: X86, u: nat)
    requires s.cpu.ebx == u && 4 <= u <= UXSTACKTOP - 52 && CanWriteFrame(p, u)
    ensures FaultFree(p, s, UNWIND[4..]) <==>
              CanStore(p, Sub32(s.cpu.esp, 4)) && FaultFree(p, Step(Step(Step(s, PushEax), MovEbxEsp), SubMem(4, 48)), UNWIND[7..])
  {
    hide FaultFree, CanStore, CanLoad, CanWriteFrame, Load, Store, Sub32;
    FrameWords(p, u, 12);
    FreeTwo(p, s, 4);
    FreeOne(p, Step(Step(s, PushEax), MovEbxEsp), 6);
  }

  lemma FreeFirst(p: Pages, s: X86, u: nat)
    requires s.cpu.esp == u - 4 && 4 <= u <= UXSTACKTOP - 52 && CanWriteFrame(p, u) && 4 <= Load(s.mem, u + 48)
    ensures FaultFree(p, s, UNWIND) <==> CanStore(p, Load(s.mem, u + 48) - 4) && FaultFree(p, First(s), UNWIND[7..])
  {
    hide FaultFree, CanStore, CanLoad, CanWriteFrame, Load, Store, Step;
    FreeToPush(p, s, u);
    FreePush(p, AtPush(s, u), u);
  }

  lemma FreeSecond(p: Pages, s: X86, u: nat)
    requires s.cpu.esp == u <= UXSTACKTOP - 52 && CanWriteFrame(p, u)
    ensures FaultFree(p, s, UNWIND[7..]) <==> CanLoad(p, Load(s.mem, u + 48))
  {
    hide FaultFree, CanStore, CanLoad, CanWriteFrame, Load, Store;
    FrameWords(p, u, 0);
    FrameWords(p, u, 1);
    var s2 := Step(Step(s, PopEax), PopEax);
    assert s2 == s.(cpu := s2.cpu) && s2.cpu.esp == u + 8;
    FreeTwo(p, s, 7);
    FreePops(p, s2, u);
  }

  lemma FreePops(p: Pages, s: X86, u: nat)
    requires s.cpu.esp == u + 8 && u <= UXSTACKTOP - 52 && CanWriteFrame(p, u)
    ensures FaultFree(p, s, UNWIND[9..]) <==> CanLoad(p, Load(s.mem, u + 48))
  {
    hide FaultFree, CanStore, CanLoad, CanWriteFrame, Load, Store, PopRegs, Allowed;
    var s1 := Step(s, PopAll);
    FreePopAll(p, s, u);
    RegsPopped(s.cpu, s.mem);
    var s2 := Step(s1, AddEsp(4));
    assert s2.cpu.esp == u + 44 && s2.mem == s.mem;
    FreeTwo(p, s, 9);
    hide Step;
    FreeLast(p, s2, u);
  }

  lemma FreePopAll(p: Pages, s: X86, u: nat)
    requires s.cpu.esp == u + 8 && u <= UXSTACKTOP - 52 && CanWriteFrame(p, u)
    ensures Allowed(p, s, PopAll) && Allowed(p, Step(s, PopAll), AddEsp(4))
  {
    hide CanStore, CanLoad, CanWriteFrame, Step;
    forall k: nat | k < 8 ensures CanLoad(p, Add32(s.cpu.esp, 4 * k)) {
      FrameWords(p, u, k + 2);
    }
  }

  lemma FreeLast(p: Pages, s: X86, u: nat)
    requires s.cpu.esp == u + 44 && u <= UXSTACKTOP - 52 && CanWriteFrame(p, u)
    ensures FaultFree(p, s, UNWIND[11..]) <==> CanLoad(p, Load(s.mem, u + 48))
  {
    hide FaultFree, CanStore, CanLoad, CanWriteFrame, Load, Store, PopRegs;
    FrameWords(p, u, 11);
    FrameWords(p, u, 12);
    var s2 := Step(Step(s, PopFlags), PopEsp);
    assert s2.cpu.esp == Load(s.mem, u + 48);
    FreeTwo(p, s, 11);
    FreeOne(p, s2, 13);
    NothingFree(p, Step(s2, Ret));
  }

  lemma RegsPopped(c: Cpu, m: seq<Byte>)
    ensures PopRegs(c, m).esp == Add32(c.esp, 32)
  {
    hide Load;
  }

  lemma NothingFree(p: Pages, s: X86)
    ensures FaultFree(p, s, UNWIND[14..])
  {
    assert UNWIND[14..] == [];
  }

  /** Unwinding takes no fault if and only if the word below the trap-time stack pointer is
      writable when it is pushed. */
  lemma UnwindFaultFreeIff(p: Pages, s: X86, u: nat, r: Cpu)
    requires |s.mem| == WORDS && Word32(r) && FrameAt(s.mem, u, r) && s.cpu.esp == u - 4 && 4 <= u <= UXSTACKTOP - 52 && CanWriteFrame(p, u)
    requires ScratchMapped(r.esp) && (r.esp <= u || u + 52 <= r.esp - 4)
    ensures FaultFree(p, s, UNWIND) <==> CanStore(p, r.esp - 4)
  {
    hide FaultFree, CanStore, CanLoad, CanWriteFrame, Load, Store, First, Step;
    FreeFirst(p, s, u);
    ExecPrepare(s, u);
    FreeSecond(p, First(s), u);
    var a := r.esp - 4;
    var m := Store(s.mem, a, r.eip);
    LoadElsewhere(s.mem, a, r.eip, u + 48);
    LoadStored(m, u + 48, a);
    StoreLoads(p, a);
  }

  lemma StoreLoads(p: Pages, a: nat)
    ensures CanStore(p, a) ==> CanLoad(p, a)
  {
  }

  datatype Outcome = Resumed | Destroyed | KernelPanic

  /** A user environment at the time of a fault. */
  class Context {
    var cpu: Cpu          // its trap frame
    var mem: seq<Byte>    // its memory
    const pages: Pages

    constructor (cpu: Cpu, mem: seq<Byte>, pages: Pages)
      ensures this.cpu == cpu && this.mem == mem && this.pages == pages
    {
      this.cpu, this.mem, this.pages := cpu, mem, pages;
    }

    /** A store of the kernel; false if it faults, and the kernel panics. */
    method KernelStore(a: nat, v: nat, ghost m0: seq<Byte>, ghost u: nat, ghost ws: seq<nat>) returns (ok: bool)
      requires Written(m0, mem, u, ws) && |ws| < 13 && a == u + 4 * |ws| && u + 52 <= |mem| && v < WORDS
      modifies this
      ensures ok <==> CanStore(pages, a)
      ensures cpu == old(cpu) && |mem| == |old(mem)| && (ok ==> Written(m0, mem, u, ws + [v]))
      ensures !ok ==> !CanWriteFrame(pages, u)
    {
      FrameWords(pages, u, |ws|);
      if !CanStore(pages, a) {
        return false;
      }
      WriteNext(m0, mem, u, ws, v);
      mem := Store(mem, a, v);
      return true;
    }

    /** page_fault_handler for a fault in user mode. The environment is destroyed exactly when it
        has no upcall or no exception page; it goes on in its upcall exactly when, otherwise, the
        frame's 52 bytes are writable; and in all other cases the frame's stores, which come
        before the check that it fits, fault in the kernel, and that panics. */
    method PageFaultHandler(faultVa: nat, err: nat, oesp: nat, upcall: nat) returns (out: Outcome)
      requires |mem| == WORDS && Word32(cpu) && faultVa < WORDS && err < WORDS && oesp < WORDS
      modifies this
      ensures out == Destroyed <==> upcall == 0 || (UXSTACKTOP - 4) / 4096 !in pages
      ensures out == Resumed <==> out != Destroyed && forall a: nat | FrameBase(old(cpu.esp)) <= a < FrameBase(old(cpu.esp)) + 52 :: WritablePage(pages, a / 4096)
      ensures out == Resumed ==>
                var u := FrameBase(old(cpu.esp));
                && FrameAt(mem, u, old(cpu)) && Load(mem, u) == faultVa && Load(mem, u + 4) == err && Load(mem, u + 20) == oesp
                && SameOutside(old(mem), mem, u)
                && cpu == old(cpu).(esp := u, eip := upcall)
                && u == if 0xEEBF_F000 <= old(cpu.esp) < 0xEEC0_0000 then old(cpu.esp) - 56 else 0xEEBF_FFCC
    {
      hide Load, Store, CanStore, CanWriteFrame, WritablePage;
      if upcall == 0 || (UXSTACKTOP - 4) / 4096 !in pages {
        return Destroyed;
      }
      var exstack;
      if UXSTACKTOP - PGSIZE <= cpu.esp <= UXSTACKTOP - 1 {
        exstack := cpu.esp - 52 - 4;
      } else {
        exstack := UXSTACKTOP - 52;
      }
      FrameBytes(pages, exstack);
      var ok := FillFrame(exstack, faultVa, err, oesp);
      if !ok {
        return KernelPanic;
      }
      if !CanWriteFrame(pages, exstack) {
        return Destroyed;
      }
      cpu := cpu.(esp := exstack, eip := upcall);
      return Resumed;
    }

    /** The frame's stores; false if one faults. */
    method FillFrame(u: nat, faultVa: nat, err: nat, oesp: nat) returns (ok: bool)
      requires |mem| == WORDS && u + 52 <= WORDS && Word32(cpu) && faultVa < WORDS && err < WORDS && oesp < WORDS
      modifies this
      ensures ok <==> CanWriteFrame(pages, u)
      ensures cpu == old(cpu)
      ensures ok ==> FrameAt(mem, u, cpu) && Load(mem, u) == faultVa && Load(mem, u + 4) == err && Load(mem, u + 20) == oesp && SameOutside(old(mem), mem, u)
    {
      hide Load, Store, CanStore, CanWriteFrame, WritablePage, SameOutside, FrameAt, CanLoad;
      FrameWords(pages, u, 0);
      ghost var m0 := mem;
      NothingWritten(m0, u);
      ok := KernelStore(u, faultVa, m0, u, []);
      if !ok {
        return;
      }
      ok := KernelStore(u + 4, err, m0, u, [] + [faultVa]);
      if !ok {
        return;
      }
      ghost var head := [faultVa, err];
      assert [] + [faultVa] + [err] == head;
      ok := FillRegs(u, RegWords(cpu, oesp), m0, head);
      if !ok {
        return;
      }
      ghost var ws := head + RegWords(cpu, oesp);
      ok := KernelStore(u + 40, cpu.eip, m0, u, ws);
      if !ok {
        return;
      }
      ok := KernelStore(u + 44, cpu.eflags, m0, u, ws + [cpu.eip]);
      if !ok {
        return;
      }
      ok := KernelStore(u + 48, cpu.esp, m0, u, ws + [cpu.eip] + [cpu.eflags]);
      if !ok {
        return;
      }
      WrittenFrame(m0, mem, u, faultVa, err, oesp, cpu);
      FrameSame(m0, mem, u, ws + [cpu.eip] + [cpu.eflags] + [cpu.esp]);
    }

    /** utf->utf_regs = tf->tf_regs. */
    method FillRegs(u: nat, regs: seq<nat>, ghost m0: seq<Byte>, ghost head: seq<nat>) returns (ok: bool)
      requires |mem| == WORDS && u + 52 <= WORDS && |regs| == 8 && |head| == 2 && Written(m0, mem, u, head)
      requires forall i | 0 <= i < 8 :: regs[i] < WORDS
      modifies this
      ensures cpu == old(cpu) && |mem| == WORDS
      ensures if ok then Written(m0, mem, u, head + regs) else !CanWriteFrame(pages, u)
    {
      hide Load, Store, CanStore, CanWriteFrame, Written;
      assert head + regs[..0] == head;
      var i := 0;
      while i < 8
        invariant i <= 8 && cpu == old(cpu) && Written(m0, mem, u, head + regs[..i]) && |mem| == WORDS
      {
        ok := KernelStore(u + 8 + 4 * i, regs[i], m0, u, head + regs[..i]);
        if !ok {
          return;
        }
        assert head + regs[..i] + [regs[i]] == head + regs[..i + 1];
        i := i + 1;
      }
      assert regs[..8] == regs;
      return true;
    }
  }

  lemma NothingWritten(m: seq<Byte>, u: nat)
    ensures Written(m, m, u, [])
  {
  }

  lemma FrameSame(m0: seq<Byte>, m: seq<Byte>, u: nat, ws: seq<nat>)
    requires Written(m0, m, u, ws)
    ensures SameOutside(m0, m, u) && |m| == |m0|
  {
  }

  /** When the exception stack overflows into an unmapped guard page, or its page is read-only, the
      environment is not destroyed: the frame is not writable, and the kernel panics. */
  lemma OverflowIsUnwritable(p: Pages, esp: nat)
    requires InExceptionPage(esp)
    ensures (UXSTACKTOP - PGSIZE) / 4096 - 1 !in p ==>
              (CanWriteFrame(p, FrameBase(esp)) <==> esp >= UXSTACKTOP - PGSIZE + 56 && WritablePage(p, (UXSTACKTOP - PGSIZE) / 4096))
    ensures !WritablePage(p, (UXSTACKTOP - PGSIZE) / 4096) && esp >= UXSTACKTOP - PGSIZE + 5 ==> !CanWriteFrame(p, FrameBase(esp))
  {
  }

  /** An overflow that panics: 20 bytes above the bottom of an otherwise good exception page. */
  lemma OverflowExample()
    ensures var p := map[(UXSTACKTOP - PGSIZE) / 4096 := true];
            (UXSTACKTOP - 4) / 4096 in p && !CanWriteFrame(p, FrameBase(UXSTACKTOP - PGSIZE + 20)) && CanWriteFrame(p, FrameBase(UXSTACKTOP - PGSIZE + 56))
  {
    OverflowIsUnwritable(map[(UXSTACKTOP - PGSIZE) / 4096 := true], UXSTACKTOP - PGSIZE + 20);
  }

  // ---- Any nesting depth ----

  datatype Saved = Saved(u: nat, cpu: Cpu)

  /** Frames as nested faults place them, outermost first: a handler runs below its frame, and
      every frame fits the exception page. */
  predicate Placed(stack: seq<Saved>) {
    forall i | 0 <= i < |stack| :: PlacedAt(stack, i)
  }

  predicate PlacedAt(stack: seq<Saved>, i: nat)
    requires i < |stack|
  {
    var f := stack[i];
    && Word32(f.cpu) && ScratchMapped(f.cpu.esp) && f.cpu.esp != UXSTACKTOP
    && f.u == FrameBase(f.cpu.esp) && UXSTACKTOP - PGSIZE <= f.u
    && (if i == 0 then !InExceptionPage(f.cpu.esp) else InExceptionPage(f.cpu.esp) && f.cpu.esp <= stack[i - 1].u)
  }

  lemma {:induction false} Below(stack: seq<Saved>, i: nat, j: nat)
    requires Placed(stack) && i < j < |stack|
    ensures stack[j].cpu.esp <= stack[i].u && stack[j].u + 52 == stack[j].cpu.esp - 4
    decreases j
  {
    assert PlacedAt(stack, j);
    if i < j - 1 {
      Below(stack, i, j - 1);
    }
  }

  lemma FrameFits(stack: seq<Saved>, i: nat)
    requires Placed(stack) && i < |stack|
    ensures stack[i].u + 52 <= UXSTACKTOP && Word32(stack[i].cpu) && 4 <= stack[i].cpu.esp < WORDS
  {
    hide Word32;
    assert PlacedAt(stack, i);
    EspIsWord(stack[i].cpu);
  }

  lemma EspIsWord(r: Cpu)
    ensures Word32(r) ==> r.esp < WORDS
  {
  }

  /** The byte belongs to the frame or to its scratch word. */
  predicate Occupied(f: Saved, a: nat) { f.u <= a < f.u + 52 || f.cpu.esp - 4 <= a < f.cpu.esp }

  /** The frames of any nesting depth and their scratch words are pairwise disjoint, and no
      scratch word overlaps its own frame. */
  lemma FramesDisjoint(stack: seq<Saved>, i: nat, j: nat, a: nat)
    requires Placed(stack) && i <= j < |stack|
    ensures i < j ==> !(Occupied(stack[i], a) && Occupied(stack[j], a))
    ensures stack[i].cpu.esp <= stack[i].u || stack[i].u + 52 <= stack[i].cpu.esp - 4
  {
    assert PlacedAt(stack, i);
    assert PlacedAt(stack, j);
    if i < j {
      Below(stack, i, j);
    }
  }

  datatype Nest = Nest(mem: seq<Byte>, stack: seq<Saved>, pages: Pages)

  predicate Stacked(n: Nest) {
    |n.mem| == WORDS && Placed(n.stack) && forall i | 0 <= i < |n.stack| :: FrameAt(n.mem, n.stack[i].u, n.stack[i].cpu)
  }

  /** A fault of the state r; handler code running, which may map and unmap pages; the return of the
      innermost handler, with the processor in state s when the C function has returned. */
  datatype Event = Fault(r: Cpu) | Work | Return(s: X86)

  ghost predicate SameFrames(stack: seq<Saved>, m: seq<Byte>, n: seq<Byte>) {
    |n| == |m| && forall i, a | 0 <= i < |stack| && stack[i].u <= a < stack[i].u + 52 && a < |m| :: n[a] == m[a]
  }

  ghost predicate Happens(a: Nest, b: Nest, ev: Event) {
    match ev
    case Fault(r) =>
      && b.stack == a.stack + [Saved(FrameBase(r.esp), r)] && Placed(b.stack)
      && FrameAt(b.mem, FrameBase(r.esp), r) && SameOutside(a.mem, b.mem, FrameBase(r.esp))
      && b.pages == a.pages && CanWriteFrame(a.pages, FrameBase(r.esp))
    case Work => b.stack == a.stack && SameFrames(a.stack, a.mem, b.mem)
    case Return(s) =>
      && a.stack != [] && s.mem == a.mem && s.cpu.esp == a.stack[|a.stack| - 1].u - 4
      && b == Nest(Unwind(s).mem, a.stack[..|a.stack| - 1], a.pages) && FaultFree(a.pages, s, UNWIND)
  }

  lemma FrameDepends(m: seq<Byte>, n: seq<Byte>, u: nat, r: Cpu)
    requires |n| == |m| && u + 52 <= |m| && FrameAt(m, u, r) && forall a | u <= a < u + 52 :: n[a] == m[a]
    ensures FrameAt(n, u, r)
  {
    SameLoad(m, n, u, 8);
    SameLoad(m, n, u, 12);
    SameLoad(m, n, u, 16);
    SameLoad(m, n, u, 24);
    SameLoad(m, n, u, 28);
    SameLoad(m, n, u, 32);
    SameLoad(m, n, u, 36);
    SameLoad(m, n, u, 40);
    SameLoad(m, n, u, 44);
    SameLoad(m, n, u, 48);
  }

  lemma SameLoad(m: seq<Byte>, n: seq<Byte>, u: nat, k: nat)
    requires |n| == |m| && u + 52 <= |m| && k <= 48 && forall a | u <= a < u + 52 :: n[a] == m[a]
    ensures Load(n, u + k) == Load(m, u + k)
  {
  }

  lemma SpentOutside(m: seq<Byte>, f: Saved, a: nat)
    requires 4 <= f.cpu.esp < WORDS && f.u + 52 <= |m| && a < |m| && !Occupied(f, a)
    ensures Spent(m, f.u, f.cpu)[a] == m[a]
  {
  }

  /** The innermost handler's return resumes the state it was called for, and leaves the other
      frames alone. */
  lemma ReturnResumes(a: Nest, b: Nest, s: X86)
    requires a.stack != [] && s.mem == a.mem && s.cpu.esp == a.stack[|a.stack| - 1].u - 4
    requires Unwind(s).mem == b.mem && b.stack == a.stack[..|a.stack| - 1] && Stacked(a)
    ensures Unwind(s).cpu == a.stack[|a.stack| - 1].cpu && Stacked(b)
  {
    hide Unwind, FrameAt, Word32, Spent;
    var k := |a.stack| - 1;
    var f := a.stack[k];
    forall i | 0 <= i < k ensures PlacedAt(b.stack, i) {
      assert PlacedAt(a.stack, i);
    }
    FrameFits(a.stack, k);
    assert PlacedAt(a.stack, k);
    FramesDisjoint(a.stack, k, k, 0);
    UnwindRestores(s, f.u, f.cpu);
    forall i | 0 <= i < k ensures FrameAt(b.mem, b.stack[i].u, b.stack[i].cpu) {
      var g := a.stack[i];
      FrameFits(a.stack, i);
      forall c | g.u <= c < g.u + 52 ensures b.mem[c] == a.mem[c] {
        FramesDisjoint(a.stack, i, k, c);
        SpentOutside(a.mem, f, c);
      }
      FrameDepends(a.mem, b.mem, g.u, g.cpu);
    }
  }

  lemma FaultStacks(a: Nest, b: Nest, r: Cpu)
    requires Stacked(a) && Happens(a, b, Fault(r))
    ensures Stacked(b)
  {
    hide FrameAt, Word32;
    var k := |a.stack|;
    forall i | 0 <= i < k ensures FrameAt(b.mem, b.stack[i].u, b.stack[i].cpu) {
      var g := a.stack[i];
      FrameFits(a.stack, i);
      forall c | g.u <= c < g.u + 52 ensures b.mem[c] == a.mem[c] {
        FramesDisjoint(b.stack, i, k, c);
      }
      FrameDepends(a.mem, b.mem, g.u, g.cpu);
    }
  }

  lemma WorkStacks(a: Nest, b: Nest)
    requires Stacked(a) && Happens(a, b, Work)
    ensures Stacked(b)
  {
    hide FrameAt, Word32;
    forall i | 0 <= i < |a.stack| ensures FrameAt(b.mem, b.stack[i].u, b.stack[i].cpu) {
      FrameFits(a.stack, i);
      FrameDepends(a.mem, b.mem, a.stack[i].u, a.stack[i].cpu);
    }
  }

  /** A handler's return takes no fault if and only if the word below the interrupted stack pointer
      is writable at that moment; for handlers that a handler's own fault called it always is. */
  lemma ReturnsIff(n: Nest, s: X86)
    requires Stacked(n) && n.stack != [] && s.mem == n.mem && s.cpu.esp == n.stack[|n.stack| - 1].u - 4
    requires CanWriteFrame(n.pages, n.stack[|n.stack| - 1].u)
    ensures FaultFree(n.pages, s, UNWIND) <==> CanStore(n.pages, Sub32(n.stack[|n.stack| - 1].cpu.esp, 4))
    ensures |n.stack| > 1 ==> FaultFree(n.pages, s, UNWIND)
  {
    hide FaultFree, FrameAt, Word32;
    var k := |n.stack| - 1;
    var f := n.stack[k];
    assert PlacedAt(n.stack, k);
    FrameFits(n.stack, k);
    FramesDisjoint(n.stack, k, k, 0);
    UnwindFaultFreeIff(n.pages, s, f.u, f.cpu);
  }

  /** Where the outermost return faults, the interrupted state is lost: the push faults with the
      stack pointer off the exception stack, so that the kernel puts the new frame exactly over
      the one that is being unwound. */
  lemma FaultAtPushLoses(n: Nest, s: X86)
    requires Stacked(n) && |n.stack| == 1 && s.mem == n.mem && s.cpu.esp == n.stack[0].u - 4
    requires CanWriteFrame(n.pages, n.stack[0].u) && !CanStore(n.pages, Sub32(n.stack[0].cpu.esp, 4))
    ensures var t := AtPush(s, n.stack[0].u);
            !Allowed(n.pages, t, PushEax) && t.cpu.esp == n.stack[0].cpu.esp && FrameBase(t.cpu.esp) == n.stack[0].u
    ensures Step(Step(Step(Step(s, AddEsp(4)), MovEspEbx), LoadEax(40)), LoadEsp(48)) == AtPush(s, n.stack[0].u)
  {
    hide FaultFree, CanStore, CanWriteFrame, Step;
    assert PlacedAt(n.stack, 0);
    FreeToPush(n.pages, s, n.stack[0].u);
  }

  ghost predicate Trace(ns: seq<Nest>, evs: seq<Event>) {
    |ns| == |evs| + 1 && forall i | 0 <= i < |evs| :: Happens(ns[i], ns[i + 1], evs[i])
  }

  function Cpus(stack: seq<Saved>): seq<Cpu> { seq(|stack|, i requires 0 <= i < |stack| => stack[i].cpu) }

  /** Every return resumes the state of the last fault that has not been resumed. */
  predicate Lifo(evs: seq<Event>, pending: seq<Cpu>)
    decreases |evs|
  {
    if evs == [] then true
    else match evs[0]
      case Fault(r) => Lifo(evs[1..], pending + [r])
      case Work => Lifo(evs[1..], pending)
      case Return(s) =>
        pending != [] && Unwind(s).cpu == pending[|pending| - 1] && Lifo(evs[1..], pending[..|pending| - 1])
  }

  /** For any run of nested faults, handler code and returns, every handler returns to exactly
      the state its fault interrupted, innermost first. */
  lemma {:induction false} NestedFaultsResume(ns: seq<Nest>, evs: seq<Event>)
    requires Trace(ns, evs) && Stacked(ns[0])
    ensures Lifo(evs, Cpus(ns[0].stack)) && Stacked(ns[|evs|])
    decreases |evs|
  {
    if evs != [] {
      TraceTail(ns, evs);
      hide Happens, Stacked, Unwind, Trace, Cpus;
      OneEvent(ns[0], ns[1], evs[0]);
      NestedFaultsResume(ns[1..], evs[1..]);
    }
  }

  lemma TraceTail(ns: seq<Nest>, evs: seq<Event>)
    requires Trace(ns, evs) && evs != []
    ensures |ns| == |evs| + 1 && Happens(ns[0], ns[1], evs[0]) && Trace(ns[1..], evs[1..])
  {
    hide Happens;
  }

  lemma OneEvent(a: Nest, b: Nest, ev: Event)
    requires Stacked(a) && Happens(a, b, ev)
    ensures Stacked(b)
    ensures match ev
            case Fault(r) => Cpus(b.stack) == Cpus(a.stack) + [r]
            case Work => Cpus(b.stack) == Cpus(a.stack)
            case Return(s) =>
              a.stack != [] && Unwind(s).cpu == Cpus(a.stack)[|a.stack| - 1]
              && Cpus(b.stack) == Cpus(a.stack)[..|a.stack| - 1]
  {
    hide Stacked, Unwind;
    match ev
    case Fault(r) => FaultStacks(a, b, r);
    case Work => WorkStacks(a, b);
    case Return(s) => ReturnResumes(a, b, s);
  }
}
