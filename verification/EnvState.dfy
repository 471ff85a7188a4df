/** Environments and the memory system calls (kern/env.c, kern/syscall.c) as transitions on
    the kernel's state. Class Kernel in module KernelCalls implements them in place. */
module EnvState {
  import opened Basics
  import opened Mmu
  import opened PageSpace
  import PageWords
  import opened EnvIds

  datatype Status = ENV_FREE | ENV_DYING | ENV_RUNNABLE | ENV_RUNNING | ENV_NOT_RUNNABLE

  /** pgdir is a frame, upcall an address (env_pgfault_upcall); 0 stands for NULL. */
  datatype Env = Env(id: int, parent: int, status: Status, pgdir: nat, upcall: nat)

  /** free is env_free_list; cur is curenv. allocs counts how often each slot was allocated:
      no code reads it, it only states which id a slot has. */
  datatype State = State(s: Space, envs: seq<Env>, free: seq<nat>, cur: Option<nat>, allocs: seq<nat>)

  const BAD_ENV: int := -2
  const INVAL: int := -3
  const NO_MEM: int := -4
  const NO_FREE_ENV: int := -5

  predicate Formed(k: State) {
    && |k.envs| == |k.allocs| == NENV
    && (k.cur.Some? ==> k.cur.value < NENV)
    && forall i | 0 <= i < |k.free| :: k.free[i] < NENV
  }

  // ---- The invariant between kernel entries ----

  predicate Live(k: State, e: nat) {
    e < |k.envs| && k.envs[e].status != ENV_FREE
  }

  /** Every slot has the id of its last allocation. */
  predicate Slots(k: State)
    requires Formed(k)
  {
    forall e: nat | e < NENV :: k.envs[e].id == IdAfter(e, k.allocs[e]) && (Live(k, e) ==> k.allocs[e] > 0)
  }

  ghost predicate FreeEnvs(k: State) {
    && (forall i, j | 0 <= i < j < |k.free| :: k.free[i] != k.free[j])
    && (forall e: nat :: e in k.free <==> e < |k.envs| && !Live(k, e))
  }

  /** Each live environment has a directory of its own, and there are no others. */
  ghost predicate OwnDirs(k: State) {
    && (forall e: nat | Live(k, e) :: k.envs[e].pgdir in k.s.dirs)
    && (forall e: nat, f: nat | Live(k, e) && Live(k, f) :: k.envs[e].pgdir == k.envs[f].pgdir ==> e == f)
    && (forall d | d in k.s.dirs :: exists e: nat :: Live(k, e) && k.envs[e].pgdir == d)
  }

  predicate CurLive(k: State) {
    k.cur.Some? ==> Live(k, k.cur.value)
  }

  ghost predicate KInv(k: State) {
    Formed(k) && Inv(k.s, {}) && Slots(k) && FreeEnvs(k) && OwnDirs(k) && CurLive(k)
  }

  // ---- env.c ----

  /** envid2env; None for -E_BAD_ENV. */
  function Envid2Env(k: State, envid: int, checkperm: bool): Option<nat>
    requires Formed(k) && k.cur.Some?
  {
    if envid == 0 then k.cur
    else
      var e := EnvX(envid);
      if k.envs[e].status == ENV_FREE || k.envs[e].id != envid then None
      else if checkperm && e != k.cur.value && k.envs[e].parent != k.envs[k.cur.value].id then None
      else Some(e)
  }

  /** env_alloc: the new slot, or an error. */
  function EnvAlloc(k: State, parent: int, status: Status): (State, int)
    requires Formed(k)
  {
    if k.free == [] then (k, NO_FREE_ENV)
    else if k.s.free == [] then (k, NO_MEM)
    else
      var e := k.free[0];
      var env := Env(NextId(k.envs[e].id, e), parent, status, k.s.free[0], 0);
      (State(NewDir(k.s), k.envs[e := env], k.free[1..], k.cur, k.allocs[e := k.allocs[e] + 1]), env.id)
  }

  function EnvFree(k: State, e: nat): State
    requires e < |k.envs|
  {
    k.(s := FreeSpace(k.s, k.envs[e].pgdir),
       envs := k.envs[e := k.envs[e].(status := ENV_FREE, pgdir := 0)],
       free := [e] + k.free)
  }

  /** env_destroy, up to the call of sched_yield. */
  function EnvDestroy(k: State, e: nat): State
    requires e < |k.envs|
  {
    if k.envs[e].status == ENV_RUNNING && k.cur != Some(e) then SetStatus(k, e, ENV_DYING)
    else
      var t := EnvFree(k, e);
      if k.cur == Some(e) then t.(cur := None) else t
  }

  function SetStatus(k: State, e: nat, status: Status): (t: State)
    requires e < |k.envs|
    ensures t == k.(envs := t.envs) && |t.envs| == |k.envs|
  {
    k.(envs := k.envs[e := k.envs[e].(status := status)])
  }

  function SetUpcall(k: State, e: nat, func: nat): (t: State)
    requires e < |k.envs|
    ensures t == k.(envs := t.envs) && |t.envs| == |k.envs|
  {
    k.(envs := k.envs[e := k.envs[e].(upcall := func)])
  }

  /** env_run, as far as the environments go. */
  function EnvRun(k: State, e: nat): State
    requires Formed(k) && e < NENV
  {
    var t := if k.cur.Some? && k.envs[k.cur.value].status == ENV_RUNNING then SetStatus(k, k.cur.value, ENV_RUNNABLE) else k;
    SetStatus(t, e, ENV_RUNNING).(cur := Some(e))
  }

  // ---- syscall.c ----

  /** perm holds PTE_U and PTE_P and nothing outside PTE_SYSCALL. (perm is an int: a Word.) */
  predicate PermOk(perm: Word) {
    HasU(perm.flags) && HasP(perm.flags) && PermBits(perm)
  }

  predicate PermBits(perm: Word) {
    perm.frame == 0 && perm.flags & !PTE_SYSCALL == 0
  }

  predicate VaOk(va: nat) {
    va < UTOP && va % 4096 == 0
  }

  /** An extra bit in perm is answered with -E_NO_MEM, where the comment promises -E_INVAL. */
  function SysPageAlloc(k: State, envid: int, va: nat, perm: Word): (State, int)
    requires Formed(k) && k.cur.Some?
  {
    match Envid2Env(k, envid, true)
    case None => (k, BAD_ENV)
    case Some(e) =>
      if !VaOk(va) then (k, INVAL)
      else if !HasU(perm.flags) || !HasP(perm.flags) then (k, INVAL)
      else if !PermBits(perm) then (k, NO_MEM)
      else if k.s.free == [] then (k, NO_MEM)
      else
        match Insert(Alloc(k.s), k.s.free[0], PageWords.PageAt(k.envs[e].pgdir, va), perm.flags)
        case None => (k.(s := Free(Alloc(k.s), k.s.free[0])), NO_MEM)
        case Some(t) => (k.(s := t), 0)
  }

  /** What page_lookup returns for the source of sys_page_map. */
  function LookedUp(s: Space, v: Page): Option<Word> {
    if v.slot !in s.tabs then None else Some(PageWords.Pte(s, v))
  }

  function SysPageMap(k: State, srcid: int, srcva: nat, dstid: int, dstva: nat, perm: Word): (State, int)
    requires Formed(k) && k.cur.Some?
  {
    var src, dst := Envid2Env(k, srcid, true), Envid2Env(k, dstid, true);
    if src.None? || dst.None? then (k, BAD_ENV)
    else if !VaOk(srcva) || !VaOk(dstva) then (k, INVAL)
    else if !PermOk(perm) then (k, INVAL)
    else
      match LookedUp(k.s, PageWords.PageAt(k.envs[src.value].pgdir, srcva))
      case None => (k, INVAL)
      case Some(pte) =>
        if HasW(perm.flags) && !HasW(pte.flags) then (k, INVAL)
        else
          match Insert(k.s, pte.frame, PageWords.PageAt(k.envs[dst.value].pgdir, dstva), perm.flags)
          case None => (k, NO_MEM)
          case Some(t) => (k.(s := t), 0)
  }

  function SysPageUnmap(k: State, envid: int, va: nat): (State, int)
    requires Formed(k) && k.cur.Some?
  {
    match Envid2Env(k, envid, true)
    case None => (k, BAD_ENV)
    case Some(e) =>
      if !VaOk(va) then (k, INVAL) else (k.(s := Remove(k.s, PageWords.PageAt(k.envs[e].pgdir, va))), 0)
  }

  /** The status argument is an int; statusOf names the two that are accepted. */
  function SysEnvSetStatus(k: State, envid: int, status: Option<Status>): (State, int)
    requires Formed(k) && k.cur.Some?
  {
    match Envid2Env(k, envid, true)
    case None => (k, BAD_ENV)
    case Some(e) =>
      if status != Some(ENV_RUNNABLE) && status != Some(ENV_NOT_RUNNABLE) then (k, INVAL)
      else (SetStatus(k, e, status.value), 0)
  }

  /** The upcall is set before it is checked; there: the check finds user mappings at its address. The
      result is 0 even if the check has destroyed the environment. */
  function SysEnvSetPgfaultUpcall(k: State, envid: int, func: nat, there: bool): (State, int)
    requires Formed(k) && k.cur.Some?
  {
    match Envid2Env(k, envid, true)
    case None => (k, BAD_ENV)
    case Some(e) =>
      var t := SetUpcall(k, e, func);
      (if there then t else EnvDestroy(t, e), 0)
  }

  function SysExofork(k: State): (State, int)
    requires Formed(k) && k.cur.Some?
  {
    EnvAlloc(k, k.envs[k.cur.value].id, ENV_NOT_RUNNABLE)
  }

  function SysEnvDestroy(k: State, envid: int): (State, int)
    requires Formed(k) && k.cur.Some?
  {
    match Envid2Env(k, envid, true)
    case None => (k, BAD_ENV)
    case Some(e) => (EnvDestroy(k, e), 0)
  }

  // ---- Steps ----

  /** What can happen between two moments in user mode. Run and Halt are the scheduler's. */
  datatype Op =
    | Exofork
    | PageAlloc(envid: int, va: nat, perm: Word)
    | PageMap(srcid: int, srcva: nat, dstid: int, dstva: nat, perm: Word)
    | PageUnmap(envid: int, va: nat)
    | EnvStatus(envid: int, status: Option<Status>)
    | SetHandler(envid: int, func: nat, there: bool)
    | Destroy(envid: int)
    | Create(parent: int)
    | Run(e: nat)
    | Halt

  predicate Enabled(k: State, op: Op)
    requires Formed(k)
  {
    match op
    case Create(_) => true
    case Run(e) => e < NENV && k.envs[e].status == ENV_RUNNABLE
    case Halt => true
    case _ => k.cur.Some?
  }

  function Step(k: State, op: Op): State
    requires Formed(k) && Enabled(k, op)
  {
    match op
    case Exofork => SysExofork(k).0
    case PageAlloc(envid, va, perm) => SysPageAlloc(k, envid, va, perm).0
    case PageMap(a, x, b, y, perm) => SysPageMap(k, a, x, b, y, perm).0
    case PageUnmap(envid, va) => SysPageUnmap(k, envid, va).0
    case EnvStatus(envid, status) => SysEnvSetStatus(k, envid, status).0
    case SetHandler(envid, func, there) => SysEnvSetPgfaultUpcall(k, envid, func, there).0
    case Destroy(envid) => SysEnvDestroy(k, envid).0
    case Create(parent) => EnvAlloc(k, parent, ENV_RUNNABLE).0
    case Run(e) => EnvRun(k, e)
    case Halt => k.(cur := None)
  }

  /** The calls that the code carries out correctly: no unmapping of an empty entry whose
      table exists, and no mapping of a page whose 16-bit count is full. */
  predicate Sound(k: State, op: Op)
    requires Formed(k) && Enabled(k, op)
  {
    match op
    case PageUnmap(envid, va) =>
      var e := Envid2Env(k, envid, true);
      e.Some? && VaOk(va) ==> Removable(k.s, PageWords.PageAt(k.envs[e.value].pgdir, va))
    case PageMap(a, x, b, y, perm) =>
      var src, dst := Envid2Env(k, a, true), Envid2Env(k, b, true);
      SysPageMap(k, a, x, b, y, perm).1 == 0 ==>
        var pte := LookedUp(k.s, PageWords.PageAt(k.envs[src.value].pgdir, x));
        pte.Some? ==> Room(k.s, pte.value.frame, PageWords.PageAt(k.envs[dst.value].pgdir, y))
    case _ => true
  }
}
