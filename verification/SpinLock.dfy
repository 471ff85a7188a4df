/** The big kernel lock (kern/spinlock.c, with DEBUG_SPINLOCK) as a protocol of single loads,
    stores and exchanges, interleaved in any way on any number of processors. */
module SpinLock {
  import opened Basics

  /** What the result of holding() is used for. */
  datatype Use = ToLock | ToUnlock | Asking

  /** Where a processor is. inside: it is between spin_lock and spin_unlock.
      LoadLocked, LoadCpu: about to read lk->locked, lk->cpu in holding().
      Decided: holding() has returned `held`. Spinning: about to exchange lk->locked with 1.
      SetCpu, SetPcs: about to write lk->cpu, lk->pcs. ClearPcs, ClearCpu, Release: the writes
      of spin_unlock. Panicked: stopped for good. */
  datatype Pc =
    | Idle(inside: bool)
    | LoadLocked(inside: bool, use: Use)
    | LoadCpu(inside: bool, use: Use)
    | Decided(inside: bool, use: Use, held: bool)
    | Spinning
    | SetCpu
    | SetPcs
    | ClearPcs
    | ClearCpu
    | Release
    | Panicked(inside: bool)

  /** lk->locked, lk->cpu, whose call chain is in lk->pcs, and every processor's position. */
  datatype Lock = Lock(locked: bool, cpu: Option<nat>, pcs: Option<nat>, at: seq<Pc>)

  /** The lock after __spin_initlock. */
  function Initial(n: nat): Lock { Lock(false, None, None, seq(n, _ => Idle(false))) }

  /** One step of processor c; `use` is what it calls if it is between calls. Any processor may
      make any call at any time, correct or not. */
  function Step(s: Lock, c: nat, use: Use): (t: Lock)
    requires c < |s.at|
    ensures |t.at| == |s.at|
  {
    match s.at[c]
    case Idle(inside) => s.(at := s.at[c := LoadLocked(inside, use)])
    case LoadLocked(inside, u) =>
      s.(at := s.at[c := if s.locked then LoadCpu(inside, u) else Decided(inside, u, false)])
    case LoadCpu(inside, u) => s.(at := s.at[c := Decided(inside, u, s.cpu == Some(c))])
    case Decided(inside, u, held) =>
      s.(at := s.at[c :=
        match u
        case ToLock => if held then Panicked(inside) else Spinning
        case ToUnlock => if held then ClearPcs else Panicked(inside)
        case Asking => Idle(inside)])
    case Spinning => if s.locked then s else s.(locked := true, at := s.at[c := SetCpu])
    case SetCpu => s.(cpu := Some(c), at := s.at[c := SetPcs])
    case SetPcs => s.(pcs := Some(c), at := s.at[c := Idle(true)])
    case ClearPcs => s.(pcs := None, at := s.at[c := ClearCpu])
    case ClearCpu => s.(cpu := None, at := s.at[c := Release])
    case Release => s.(locked := false, at := s.at[c := Idle(false)])
    case Panicked(_) => s
  }

  /** The processor has acquired the lock and not released it. */
  predicate Owns(pc: Pc) {
    match pc
    case Idle(inside) => inside
    case LoadLocked(inside, _) => inside
    case LoadCpu(inside, _) => inside
    case Decided(inside, _, _) => inside
    case Panicked(inside) => inside
    case Spinning => false
    case _ => true
  }

  /** The owner's name is in lk->cpu: not yet before SetCpu, no more after ClearCpu. */
  predicate Named(pc: Pc) { Owns(pc) && pc != SetCpu && pc != Release }

  /** The owner's call chain is in lk->pcs. */
  predicate Traced(pc: Pc) { Named(pc) && pc != SetPcs && pc != ClearCpu }

  /** Mutual exclusion, and holding() is right whenever it returns. */
  predicate Safe(s: Lock) {
    && (forall c, d | 0 <= c < |s.at| && 0 <= d < |s.at| && Owns(s.at[c]) && Owns(s.at[d]) :: c == d)
    && (forall c | 0 <= c < |s.at| && s.at[c].Decided? :: s.at[c].held == s.at[c].inside)
  }

  /** What keeps it so: o is the owner, if there is one. */
  predicate OwnedBy(s: Lock, o: Option<nat>) {
    && (o.Some? ==> o.value < |s.at|)
    && s.locked == o.Some?
    && s.cpu == (if o.Some? && Named(s.at[o.value]) then o else None)
    && (o.Some? && Traced(s.at[o.value]) ==> s.pcs == o)
    && forall c: nat | c < |s.at| :: (Owns(s.at[c]) <==> o == Some(c)) && (s.at[c].Decided? ==> s.at[c].held == s.at[c].inside)
  }

  /** The owner after a step of processor c. */
  function NextOwner(s: Lock, o: Option<nat>, c: nat): Option<nat>
    requires c < |s.at|
  {
    if s.at[c] == Spinning && !s.locked then Some(c) else if s.at[c] == Release then None else o
  }

  lemma StepKeeps(s: Lock, o: Option<nat>, c: nat, use: Use)
    requires OwnedBy(s, o) && c < |s.at|
    ensures OwnedBy(Step(s, c, use), NextOwner(s, o, c))
  {
  }

  // ---- Every interleaving ----

  /** The processors take these steps, in this order. */
  function Exec(s: Lock, steps: seq<(nat, Use)>): (t: Lock)
    requires forall i | 0 <= i < |steps| :: steps[i].0 < |s.at|
    ensures |t.at| == |s.at|
    decreases |steps|
  {
    if steps == [] then s
    else
      var u := Exec(s, steps[..|steps| - 1]);
      Step(u, steps[|steps| - 1].0, steps[|steps| - 1].1)
  }

  lemma {:induction false} SomeOwner(n: nat, steps: seq<(nat, Use)>) returns (o: Option<nat>)
    requires forall i | 0 <= i < |steps| :: steps[i].0 < n
    ensures OwnedBy(Exec(Initial(n), steps), o)
    decreases |steps|
  {
    if steps == [] {
      return None;
    }
    hide OwnedBy;
    var before := steps[..|steps| - 1];
    o := SomeOwner(n, before);
    var last := steps[|steps| - 1];
    StepKeeps(Exec(Initial(n), before), o, last.0, last.1);
    return NextOwner(Exec(Initial(n), before), o, last.0);
  }

  /** At most one processor is between spin_lock and spin_unlock, and holding() is true exactly
      for that one, after any number of steps of any processors. */
  lemma {:induction false} AlwaysSafe(n: nat, steps: seq<(nat, Use)>)
    requires forall i | 0 <= i < |steps| :: steps[i].0 < n
    ensures Safe(Exec(Initial(n), steps))
  {
    hide Exec;
    var o := SomeOwner(n, steps);
  }

  /** A processor that has an answer from holding() panics exactly when it was about to lock what
      it holds, or to unlock what it does not. */
  lemma {:induction false} PanicsIff(n: nat, steps: seq<(nat, Use)>, c: nat, use: Use)
    requires (forall i | 0 <= i < |steps| :: steps[i].0 < n) && c < n
    requires Exec(Initial(n), steps).at[c].Decided?
    ensures var s := Exec(Initial(n), steps);
            Step(s, c, use).at[c].Panicked? <==>
              (s.at[c].use == ToLock && Owns(s.at[c])) || (s.at[c].use == ToUnlock && !Owns(s.at[c]))
  {
    hide Exec;
    AlwaysSafe(n, steps);
  }

  /** The lock changes hands only by its owner's release and a waiting processor's exchange. */
  lemma OwnerKeeps(s: Lock, o: Option<nat>, d: nat, use: Use)
    requires OwnedBy(s, o) && d < |s.at|
    ensures var t := Step(s, d, use);
            forall c: nat | c < |s.at| ::
              && (Owns(s.at[c]) && !Owns(t.at[c]) <==> c == d && s.at[c] == Release)
              && (!Owns(s.at[c]) && Owns(t.at[c]) <==> c == d && s.at[c] == Spinning && o == None)
  {
  }

  // ---- Calls ----

  /** The call that processor c made last. */
  function Called(s: Lock, steps: seq<(nat, Use)>, c: nat): Option<Use>
    requires (forall i | 0 <= i < |steps| :: steps[i].0 < |s.at|) && c < |s.at|
    decreases |steps|
  {
    if steps == [] then None
    else
      var before, last := steps[..|steps| - 1], steps[|steps| - 1];
      if last.0 == c && Exec(s, before).at[c].Idle? then Some(last.1) else Called(s, before, c)
  }

  /** Processor c has returned from spin_lock, and not from spin_unlock since. */
  function Has(s: Lock, steps: seq<(nat, Use)>, c: nat): bool
    requires (forall i | 0 <= i < |steps| :: steps[i].0 < |s.at|) && c < |s.at|
    decreases |steps|
  {
    if steps == [] then false
    else
      var before := steps[..|steps| - 1];
      var over := Exec(s, steps).at[c].Idle? && !Exec(s, before).at[c].Idle?;
      if over && Called(s, steps, c) == Some(ToLock) then true
      else if over && Called(s, steps, c) == Some(ToUnlock) then false
      else Has(s, before, c)
  }

  /** Where a processor is tells which call it made, and whether it has returned from spin_lock. */
  predicate Follows(pc: Pc, call: Option<Use>, has: bool) {
    match pc
    case Idle(inside) => inside == has && (call == Some(ToLock) ==> has) && (call == Some(ToUnlock) ==> !has)
    case LoadLocked(inside, u) => inside == has && call == Some(u)
    case LoadCpu(inside, u) => inside == has && call == Some(u)
    case Decided(inside, u, _) => inside == has && call == Some(u)
    case Panicked(inside) => inside == has && if has then call == Some(ToLock) else call == Some(ToUnlock)
    case Spinning => call == Some(ToLock) && !has
    case SetCpu => call == Some(ToLock) && !has
    case SetPcs => call == Some(ToLock) && !has
    case _ => call == Some(ToUnlock) && has
  }

  lemma {:induction false} CallsFollow(n: nat, steps: seq<(nat, Use)>, c: nat)
    requires (forall i | 0 <= i < |steps| :: steps[i].0 < n) && c < n
    ensures Follows(Exec(Initial(n), steps).at[c], Called(Initial(n), steps, c), Has(Initial(n), steps, c))
    decreases |steps|
  {
    if steps != [] {
      var before := steps[..|steps| - 1];
      CallsFollow(n, before, c);
      AlwaysSafe(n, before);
    }
  }

  /** After any interleaving: a processor that has returned from spin_lock, and not from spin_unlock
      since, has the lock, its name is in lk->cpu and its call chain in lk->pcs, until it changes
      them in spin_unlock; and no other processor has returned from spin_lock. */
  lemma {:induction false} ReturnedHolds(n: nat, steps: seq<(nat, Use)>, c: nat)
    requires (forall i | 0 <= i < |steps| :: steps[i].0 < n) && c < n
    ensures var s := Exec(Initial(n), steps);
            && (Has(Initial(n), steps, c) ==>
                  && s.locked && (s.at[c].Idle? ==> s.cpu == Some(c) && s.pcs == Some(c))
                  && forall d: nat | d < n && d != c :: !Has(Initial(n), steps, d))
            && (s.at[c].Idle? && !Has(Initial(n), steps, c) ==> s.cpu != Some(c))
  {
    hide Exec, Has, Called;
    var s := Exec(Initial(n), steps);
    var o := SomeOwner(n, steps);
    forall d: nat | d < n ensures Has(Initial(n), steps, d) ==> Owns(s.at[d]) {
      CallsFollow(n, steps, d);
    }
    CallsFollow(n, steps, c);
  }

  /** What a call that is over has done: spin_lock has the lock, spin_unlock does not; holding() tells
      whether its processor has the lock; and a call panics only if it locks what its processor has, or unlocks what it has not. */
  lemma {:induction false} CallsDo(n: nat, steps: seq<(nat, Use)>, c: nat)
    requires (forall i | 0 <= i < |steps| :: steps[i].0 < n) && c < n
    ensures var s, call := Exec(Initial(n), steps), Called(Initial(n), steps, c);
            && (s.at[c].Idle? && call == Some(ToLock) ==> s.locked && s.cpu == Some(c) && s.pcs == Some(c))
            && (s.at[c].Idle? && call == Some(ToUnlock) ==> s.cpu != Some(c) && !Has(Initial(n), steps, c))
            && (s.at[c].Decided? ==> s.at[c].held == Has(Initial(n), steps, c))
            && (s.at[c].Panicked? ==> call == Some(if Has(Initial(n), steps, c) then ToLock else ToUnlock))
  {
    hide Exec, Has, Called;
    CallsFollow(n, steps, c);
    ReturnedHolds(n, steps, c);
    AlwaysSafe(n, steps);
  }

  /** Processor c takes so many steps, alone. */
  function Alone(c: nat, use: Use, k: nat): seq<(nat, Use)> { seq(k, _ => (c, use)) }

  /** A step of processor c changes the lock's words and its own position. */
  lemma StepsOnly(s: Lock, c: nat, use: Use, pc: Pc, locked: bool, cpu: Option<nat>, pcs: Option<nat>)
    requires c < |s.at|
    ensures var t := Step(Lock(locked, cpu, pcs, s.at[c := pc]), c, use);
            t == Lock(t.locked, t.cpu, t.pcs, s.at[c := t.at[c]])
  {
  }

  /** The next of those steps. */
  lemma GoesOn(s: Lock, c: nat, use: Use, k: nat, pc: Pc, locked: bool, cpu: Option<nat>, pcs: Option<nat>)
    requires c < |s.at| && Exec(s, Alone(c, use, k)) == Lock(locked, cpu, pcs, s.at[c := pc])
    ensures var t := Step(Lock(locked, cpu, pcs, s.at[c := pc]), c, use);
            Exec(s, Alone(c, use, k + 1)) == Lock(t.locked, t.cpu, t.pcs, s.at[c := t.at[c]])
  {
    assert Alone(c, use, k + 1)[..k] == Alone(c, use, k);
    StepsOnly(s, c, use, pc, locked, cpu, pcs);
    hide Step;
  }

  lemma AtRest(s: Lock, c: nat, use: Use)
    requires c < |s.at|
    ensures Exec(s, Alone(c, use, 0)) == Lock(s.locked, s.cpu, s.pcs, s.at[c := s.at[c]])
  {
  }

  /** While nobody has the lock, a processor that calls spin_lock and is not disturbed has it after
      six steps. */
  lemma LockAlone(s: Lock, c: nat)
    requires OwnedBy(s, None) && c < |s.at| && s.at[c].Idle?
    ensures Exec(s, Alone(c, ToLock, 6)) == Lock(true, Some(c), Some(c), s.at[c := Idle(true)])
  {
    hide Exec, Alone;
    AtRest(s, c, ToLock);
    AsksAlone(s, c);
    GoesOn(s, c, ToLock, 3, Spinning, false, s.cpu, s.pcs);
    GoesOn(s, c, ToLock, 4, SetCpu, true, s.cpu, s.pcs);
    GoesOn(s, c, ToLock, 5, SetPcs, true, Some(c), s.pcs);
  }

  lemma AsksAlone(s: Lock, c: nat)
    requires c < |s.at| && s.at[c] == Idle(false) && !s.locked
    ensures Exec(s, Alone(c, ToLock, 3)) == Lock(false, s.cpu, s.pcs, s.at[c := Spinning])
  {
    hide Exec, Alone;
    AtRest(s, c, ToLock);
    GoesOn(s, c, ToLock, 0, Idle(false), false, s.cpu, s.pcs);
    GoesOn(s, c, ToLock, 1, LoadLocked(false, ToLock), false, s.cpu, s.pcs);
    GoesOn(s, c, ToLock, 2, Decided(false, ToLock, false), false, s.cpu, s.pcs);
  }

  /** The one that has it gives it back in seven, with the debugging fields cleared. */
  lemma UnlockAlone(s: Lock, c: nat)
    requires OwnedBy(s, Some(c)) && s.at[c].Idle?
    ensures Exec(s, Alone(c, ToUnlock, 7)) == Lock(false, None, None, s.at[c := Idle(false)])
  {
    hide Exec, Alone;
    HolderAlone(s, c);
    GoesOn(s, c, ToUnlock, 4, ClearPcs, true, Some(c), Some(c));
    GoesOn(s, c, ToUnlock, 5, ClearCpu, true, Some(c), None);
    GoesOn(s, c, ToUnlock, 6, Release, true, None, None);
  }

  lemma HolderAlone(s: Lock, c: nat)
    requires c < |s.at| && s.at[c] == Idle(true) && s.locked && s.cpu == s.pcs == Some(c)
    ensures Exec(s, Alone(c, ToUnlock, 4)) == Lock(true, Some(c), Some(c), s.at[c := ClearPcs])
  {
    hide Exec, Alone;
    AtRest(s, c, ToUnlock);
    GoesOn(s, c, ToUnlock, 0, Idle(true), true, Some(c), Some(c));
    GoesOn(s, c, ToUnlock, 1, LoadLocked(true, ToUnlock), true, Some(c), Some(c));
    GoesOn(s, c, ToUnlock, 2, LoadCpu(true, ToUnlock), true, Some(c), Some(c));
    GoesOn(s, c, ToUnlock, 3, Decided(true, ToUnlock, true), true, Some(c), Some(c));
  }
}
