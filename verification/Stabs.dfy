/** stab_binsearch (kern/kdebug.c): find the debugging entry of one type whose region holds an
    address, among entries of other types. */
module Stabs {
  import opened Words

  datatype Stab = Stab(typ: nat, value: nat)

  predicate InRange(stabs: seq<Stab>, lo: int, hi: int) {
    0 <= lo && hi < |stabs| && lo <= hi + 1 && forall i | 0 <= i < |stabs| :: stabs[i].value < WORDS
  }

  predicate Matches(stabs: seq<Stab>, typ: nat, i: int) {
    0 <= i < |stabs| && stabs[i].typ == typ
  }

  /** The entries of the type are sorted by address. */
  predicate Sorted(stabs: seq<Stab>, typ: nat, lo: int, hi: int) {
    forall i, j | lo <= i <= j <= hi && Matches(stabs, typ, i) && Matches(stabs, typ, j) :: stabs[i].value <= stabs[j].value
  }

  // ---- What is to be found ----

  /** No entry of the type lies strictly between i and j. */
  predicate NoneBetween(stabs: seq<Stab>, typ: nat, i: int, j: int) {
    forall k | i < k < j :: !Matches(stabs, typ, k)
  }

  /** left is the last entry of the type at or below addr, and right is just before the next one
      of the type. */
  predicate IsRegion(stabs: seq<Stab>, typ: nat, lo: int, hi: int, addr: nat, left: int, right: int) {
    && lo <= left <= right <= hi && Matches(stabs, typ, left) && stabs[left].value <= addr
    && NoneBetween(stabs, typ, left, right + 1)
    && (right < hi ==> Matches(stabs, typ, right + 1) && stabs[right + 1].value > addr)
  }

  /** An entry of the type lies at or below addr. */
  predicate HasRegion(stabs: seq<Stab>, typ: nat, lo: int, hi: int, addr: nat) {
    exists i :: lo <= i <= hi && Matches(stabs, typ, i) && stabs[i].value <= addr
  }

  // ---- The search ----

  /** The last entry of the type in [l, m], or l - 1. */
  function Back(stabs: seq<Stab>, typ: nat, l: int, m: int): (k: int)
    requires 0 <= l <= m + 1 <= |stabs|
    ensures l - 1 <= k <= m && (k >= l ==> Matches(stabs, typ, k)) && NoneBetween(stabs, typ, k, m + 1)
    decreases m - l
  {
    if m < l || stabs[m].typ == typ then m else Back(stabs, typ, l, m - 1)
  }

  /** The variables of the loop. left and right: *region_left and *region_right; any:
      any_matches; hits counts how often an entry was met at the address itself. */
  datatype Loop = Loop(l: int, r: int, addr: nat, left: int, right: int, any: bool, hits: nat)

  predicate Ok(stabs: seq<Stab>, s: Loop) {
    0 <= s.l && s.r < |stabs| && s.l <= s.r + 1 && s.addr < WORDS && 0 <= s.left && -1 <= s.right < |stabs|
  }

  function Inc32(x: nat): nat { (x + 1) % WORDS }

  /** The entry probed next, or l - 1. */
  function Probe(stabs: seq<Stab>, typ: nat, s: Loop): int
    requires Ok(stabs, s) && s.l <= s.r
  {
    Back(stabs, typ, s.l, (s.l + s.r) / 2)
  }

  /** One round. */
  function Next(stabs: seq<Stab>, typ: nat, s: Loop): (t: Loop)
    requires Ok(stabs, s) && s.l <= s.r
    ensures Ok(stabs, t)
  {
    var mid := (s.l + s.r) / 2;
    var m := Probe(stabs, typ, s);
    if m < s.l then s.(l := mid + 1)
    else if stabs[m].value < s.addr then s.(l := mid + 1, left := m, any := true)
    else if stabs[m].value > s.addr then s.(r := m - 1, right := m - 1, any := true)
    else s.(l := m, addr := Inc32(s.addr), left := m, any := true, hits := s.hits + 1)
  }

  /** The next probe meets the address. */
  predicate Hit(stabs: seq<Stab>, typ: nat, s: Loop)
    requires Ok(stabs, s)
  {
    s.l <= s.r && var m := Probe(stabs, typ, s); m >= s.l && stabs[m].value == s.addr
  }

  /** A round makes the range smaller, or was a hit that leaves the range and makes the next
      probe no hit. */
  lemma Progress(stabs: seq<Stab>, typ: nat, s: Loop)
    requires Ok(stabs, s) && s.l <= s.r
    ensures var t := Next(stabs, typ, s);
            t.r - t.l < s.r - s.l || (t.r - t.l == s.r - s.l && Hit(stabs, typ, s) && !Hit(stabs, typ, t))
  {
  }

  function Search(stabs: seq<Stab>, typ: nat, s: Loop): (t: Loop)
    requires Ok(stabs, s)
    ensures Ok(stabs, t) && t.l > t.r
    decreases s.r - s.l + 1, if Hit(stabs, typ, s) then 1 else 0
  {
    if s.l > s.r then s
    else
      Progress(stabs, typ, s);
      Search(stabs, typ, Next(stabs, typ, s))
  }

  function Start(lo: int, hi: int, addr: nat): Loop { Loop(lo, hi, addr, lo, hi, false, 0) }

  /** The last part: from the right end back to an entry of the type. */
  function Finish(stabs: seq<Stab>, typ: nat, s: Loop): (int, int)
    requires Ok(stabs, s)
  {
    if !s.any then (s.left, s.left - 1)
    else if s.right <= s.left then (s.right, s.right)
    else (Back(stabs, typ, s.left + 1, s.right), s.right)
  }

  method StabBinsearch(stabs: seq<Stab>, regionLeft: int, regionRight: int, typ: nat, address: nat)
    returns (left: int, right: int)
    requires InRange(stabs, regionLeft, regionRight) && address < WORDS
    ensures (left, right) == Finish(stabs, typ, Search(stabs, typ, Start(regionLeft, regionRight, address)))
  {
    hide Hit, Back, NoneBetween, Matches;
    left, right := regionLeft, regionRight;
    var l, r, anyMatches := left, right, false;
    var addr: nat := address;
    ghost var s := Start(left, right, address);
    while l <= r
      invariant Ok(stabs, s) && s == Loop(l, r, addr, left, right, anyMatches, s.hits)
      invariant Search(stabs, typ, s) == Search(stabs, typ, Start(regionLeft, regionRight, address))
      decreases r - l + 1, if Hit(stabs, typ, s) then 1 else 0
    {
      Progress(stabs, typ, s);
      var trueM := (l + r) / 2;
      var m := LastUpTo(stabs, typ, l, trueM);
      s := Next(stabs, typ, s);
      if m < l {
        l := trueM + 1;
        continue;
      }
      anyMatches := true;
      if stabs[m].value < addr {
        left := m;
        l := trueM + 1;
      } else if stabs[m].value > addr {
        right := m - 1;
        r := m - 1;
      } else {
        left := m;
        l := m;
        addr := (addr + 1) % WORDS;
      }
    }
    if !anyMatches {
      right := left - 1;
    } else {
      left := Rightmost(stabs, typ, left, right);
    }
  }

  /** The loop after the search: the rightmost entry of the type, from right down to left. */
  method Rightmost(stabs: seq<Stab>, typ: nat, left: int, right: int) returns (l: int)
    requires 0 <= left && -1 <= right < |stabs|
    ensures l == if right <= left then right else Back(stabs, typ, left + 1, right)
  {
    l := right;
    while l > left && stabs[l].typ != typ
      invariant if right <= left then l == right else left <= l <= right && Back(stabs, typ, left + 1, l) == Back(stabs, typ, left + 1, right)
      decreases l - left
    {
      l := l - 1;
    }
  }

  /** The inner loop: back from m to an entry of the type. */
  method LastUpTo(stabs: seq<Stab>, typ: nat, l: int, trueM: int) returns (m: int)
    requires 0 <= l <= trueM < |stabs|
    ensures m == Back(stabs, typ, l, trueM)
  {
    m := trueM;
    while m >= l && stabs[m].typ != typ
      invariant l - 1 <= m <= trueM && Back(stabs, typ, l, m) == Back(stabs, typ, l, trueM)
    {
      m := m - 1;
    }
  }

  // ---- When it is right ----

  /** While the address has been met at most once, and was not the last address of all: entries
      left of l are at or below a, those right of r above it. */
  predicate Narrowed(stabs: seq<Stab>, typ: nat, lo: int, hi: int, a: nat, s: Loop) {
    && Ok(stabs, s) && lo <= s.l && s.r <= hi && s.right == s.r && lo <= s.left <= s.l
    && s.hits <= 1 && s.addr == a + s.hits
    && (forall i | lo <= i < s.l && Matches(stabs, typ, i) :: stabs[i].value <= a)
    && (forall i | s.r < i <= hi && Matches(stabs, typ, i) :: stabs[i].value > a)
    && (s.r < hi ==> Matches(stabs, typ, s.r + 1))
    && (s.left == lo || Met(stabs, typ, a, s)) && (s.hits == 1 ==> Met(stabs, typ, a, s) && HasEntry(stabs, typ, lo, hi, a))
    && if s.any then s.r < hi || Met(stabs, typ, a, s)
       else s.left == lo && s.r == hi && NoneBetween(stabs, typ, lo - 1, s.l)
  }

  predicate HasEntry(stabs: seq<Stab>, typ: nat, lo: int, hi: int, v: nat) {
    exists i :: lo <= i <= hi && Matches(stabs, typ, i) && stabs[i].value == v
  }

  predicate Met(stabs: seq<Stab>, typ: nat, a: nat, s: Loop) {
    Matches(stabs, typ, s.left) && stabs[s.left].value <= a && s.left <= s.r
  }

  /** The address was met, and the one after it too: the search has gone past its goal. */
  predicate Past(stabs: seq<Stab>, typ: nat, lo: int, hi: int, a: nat, s: Loop) {
    && Ok(stabs, s) && s.any && s.r <= hi && s.right == s.r && lo <= s.left <= s.l && s.left <= s.r
    && Matches(stabs, typ, s.left) && stabs[s.left].value > a && s.hits >= 2
    && HasRegion(stabs, typ, lo, hi, a)
    && (s.left == s.l ==> stabs[s.left].value < s.addr)
  }

  /** The last address of all was met, and the address sought became 0. */
  predicate Wrapped(stabs: seq<Stab>, typ: nat, lo: int, hi: int, a: nat, s: Loop) {
    && Ok(stabs, s) && s.any && s.addr == 0 && s.r <= hi && s.right == s.r && lo <= s.left == s.l <= hi
    && Matches(stabs, typ, s.left) && stabs[s.left].value == WORDS - 1
    && (a == WORDS - 1 || s.hits >= 2) && s.hits >= 1 && HasRegion(stabs, typ, lo, hi, a)
    && (a < WORDS - 2 ==> exists j :: lo <= j < s.left && Matches(stabs, typ, j) && stabs[j].value > a)
  }

  predicate Reached(stabs: seq<Stab>, typ: nat, lo: int, hi: int, a: nat, s: Loop) {
    Narrowed(stabs, typ, lo, hi, a, s) || Past(stabs, typ, lo, hi, a, s) || Wrapped(stabs, typ, lo, hi, a, s)
  }

  lemma NarrowedNext(stabs: seq<Stab>, typ: nat, lo: int, hi: int, a: nat, s: Loop)
    requires InRange(stabs, lo, hi) && Sorted(stabs, typ, lo, hi) && Narrowed(stabs, typ, lo, hi, a, s) && s.l <= s.r && a < WORDS
    ensures Reached(stabs, typ, lo, hi, a, Next(stabs, typ, s))
    ensures !Hit(stabs, typ, s) || (s.hits == 0 && a < WORDS - 1) ==> Narrowed(stabs, typ, lo, hi, a, Next(stabs, typ, s))
  {
    OkReached(stabs, typ, lo, hi, a, s);
    hide Narrowed, Past, Wrapped, Sorted;
    if Hit(stabs, typ, s) {
      NarrowedHit(stabs, typ, lo, hi, a, s);
    } else {
      NarrowedMiss(stabs, typ, lo, hi, a, s);
    }
  }

  lemma NarrowedMiss(stabs: seq<Stab>, typ: nat, lo: int, hi: int, a: nat, s: Loop)
    requires InRange(stabs, lo, hi) && Sorted(stabs, typ, lo, hi) && Narrowed(stabs, typ, lo, hi, a, s) && s.l <= s.r && a < WORDS
    requires !Hit(stabs, typ, s)
    ensures Narrowed(stabs, typ, lo, hi, a, Next(stabs, typ, s))
  {
    hide Back;
    var m := Probe(stabs, typ, s);
    var t := Next(stabs, typ, s);
    if m >= s.l {
      assert Matches(stabs, typ, m);
      forall i | lo <= i < t.l && Matches(stabs, typ, i) ensures stabs[i].value <= a {}
      forall i | t.r < i <= hi && Matches(stabs, typ, i) ensures stabs[i].value > a {}
    }
  }

  lemma NarrowedHit(stabs: seq<Stab>, typ: nat, lo: int, hi: int, a: nat, s: Loop)
    requires InRange(stabs, lo, hi) && Sorted(stabs, typ, lo, hi) && Narrowed(stabs, typ, lo, hi, a, s) && s.l <= s.r && a < WORDS
    requires Hit(stabs, typ, s)
    ensures Reached(stabs, typ, lo, hi, a, Next(stabs, typ, s))
    ensures s.hits == 0 && a < WORDS - 1 ==> Narrowed(stabs, typ, lo, hi, a, Next(stabs, typ, s))
  {
    hide Back;
    var m := Probe(stabs, typ, s);
    var t := Next(stabs, typ, s);
    assert Matches(stabs, typ, m) && stabs[m].value < WORDS;
    if s.hits == 0 && a < WORDS - 1 {
      forall i | lo <= i < t.l && Matches(stabs, typ, i) ensures stabs[i].value <= a {}
      assert Narrowed(stabs, typ, lo, hi, a, t);
    } else if s.addr == WORDS - 1 {
      assert Wrapped(stabs, typ, lo, hi, a, t);
    } else {
      assert Past(stabs, typ, lo, hi, a, t);
    }
  }

  lemma PastNext(stabs: seq<Stab>, typ: nat, lo: int, hi: int, a: nat, s: Loop)
    requires InRange(stabs, lo, hi) && Sorted(stabs, typ, lo, hi) && Past(stabs, typ, lo, hi, a, s) && s.l <= s.r && a < WORDS
    ensures Reached(stabs, typ, lo, hi, a, Next(stabs, typ, s))
  {
    hide Back;
    var m := Probe(stabs, typ, s);
    var t := Next(stabs, typ, s);
    if m >= s.l {
      assert Matches(stabs, typ, m) && stabs[m].value < WORDS;
      if stabs[m].value == s.addr && s.addr == WORDS - 1 {
        assert s.left < m;
        assert Wrapped(stabs, typ, lo, hi, a, t);
      } else {
        assert Past(stabs, typ, lo, hi, a, t);
      }
    }
  }

  lemma WrappedNext(stabs: seq<Stab>, typ: nat, lo: int, hi: int, a: nat, s: Loop)
    requires InRange(stabs, lo, hi) && Sorted(stabs, typ, lo, hi) && Wrapped(stabs, typ, lo, hi, a, s) && s.l <= s.r
    ensures Wrapped(stabs, typ, lo, hi, a, Next(stabs, typ, s))
  {
    hide Back;
    var m := Probe(stabs, typ, s);
    assert m >= s.l by {
      assert Matches(stabs, typ, s.l);
    }
    assert Matches(stabs, typ, m) && stabs[m].value == WORDS - 1;
  }

  lemma {:induction false} SearchReaches(stabs: seq<Stab>, typ: nat, lo: int, hi: int, a: nat, s: Loop)
    requires InRange(stabs, lo, hi) && Sorted(stabs, typ, lo, hi) && Reached(stabs, typ, lo, hi, a, s) && a < WORDS
    ensures Reached(stabs, typ, lo, hi, a, Search(stabs, typ, s))
    decreases s.r - s.l + 1, if Hit(stabs, typ, s) then 1 else 0
  {
    hide Narrowed, Past, Wrapped, Sorted, Next, Hit;
    OkReached(stabs, typ, lo, hi, a, s);
    if s.l <= s.r {
      if Narrowed(stabs, typ, lo, hi, a, s) {
        NarrowedNext(stabs, typ, lo, hi, a, s);
      } else if Past(stabs, typ, lo, hi, a, s) {
        PastNext(stabs, typ, lo, hi, a, s);
      } else {
        WrappedNext(stabs, typ, lo, hi, a, s);
      }
      Progress(stabs, typ, s);
      SearchReaches(stabs, typ, lo, hi, a, Next(stabs, typ, s));
    }
  }

  lemma OkReached(stabs: seq<Stab>, typ: nat, lo: int, hi: int, a: nat, s: Loop)
    requires Reached(stabs, typ, lo, hi, a, s)
    ensures Ok(stabs, s)
  {
  }

  lemma StartNarrowed(stabs: seq<Stab>, typ: nat, lo: int, hi: int, a: nat)
    requires InRange(stabs, lo, hi) && a < WORDS
    ensures Narrowed(stabs, typ, lo, hi, a, Start(lo, hi, a))
  {
  }

  /** The outcome when no entry of the type is at or below the address. */
  predicate IsNoRegion(stabs: seq<Stab>, typ: nat, lo: int, hi: int, left: int, right: int) {
    if NoneBetween(stabs, typ, lo - 1, hi + 1) then left == lo && right == lo - 1
    else right < hi && Matches(stabs, typ, right + 1) && NoneBetween(stabs, typ, lo - 1, right + 1)
         && left == if lo <= right then lo else right
  }

  lemma NarrowedEnd(stabs: seq<Stab>, typ: nat, lo: int, hi: int, a: nat, s: Loop)
    requires InRange(stabs, lo, hi) && Narrowed(stabs, typ, lo, hi, a, s) && s.l > s.r
    ensures var (left, right) := Finish(stabs, typ, s);
            if HasRegion(stabs, typ, lo, hi, a) then IsRegion(stabs, typ, lo, hi, a, left, right)
            else IsNoRegion(stabs, typ, lo, hi, left, right)
  {
    hide Back;
    var (left, right) := Finish(stabs, typ, s);
    if HasRegion(stabs, typ, lo, hi, a) {
      var i :| lo <= i <= hi && Matches(stabs, typ, i) && stabs[i].value <= a;
      assert i <= s.r && s.any;
    }
  }

  lemma PastEnd(stabs: seq<Stab>, typ: nat, lo: int, hi: int, a: nat, s: Loop)
    requires InRange(stabs, lo, hi) && Sorted(stabs, typ, lo, hi) && s.l > s.r
    requires Past(stabs, typ, lo, hi, a, s) || (Wrapped(stabs, typ, lo, hi, a, s) && a != WORDS - 2)
    ensures var (left, right) := Finish(stabs, typ, s); !IsRegion(stabs, typ, lo, hi, a, left, right)
  {
    hide Back;
    var (left, right) := Finish(stabs, typ, s);
    if Wrapped(stabs, typ, lo, hi, a, s) && a < WORDS - 2 {
      var j :| lo <= j < s.left && Matches(stabs, typ, j) && stabs[j].value > a;
      assert j <= left;
    }
  }

  /** The search is right if it has met the sought address at most once - an address is sought again
      one higher after it was met - and has not run over the last address, and otherwise it is
      wrong, but perhaps for the last address but one. */
  lemma CorrectByHits(stabs: seq<Stab>, typ: nat, lo: int, hi: int, a: nat)
    requires InRange(stabs, lo, hi) && Sorted(stabs, typ, lo, hi) && a < WORDS
    ensures var s := Search(stabs, typ, Start(lo, hi, a));
            var (left, right) := Finish(stabs, typ, s);
            var once := s.hits <= 1 && (a == WORDS - 1 ==> s.hits == 0);
            if HasRegion(stabs, typ, lo, hi, a) then
              (once ==> IsRegion(stabs, typ, lo, hi, a, left, right))
              && (a != WORDS - 2 && IsRegion(stabs, typ, lo, hi, a, left, right) ==> once)
            else once && IsNoRegion(stabs, typ, lo, hi, left, right)
  {
    hide Narrowed, Past, Wrapped, Sorted, HasRegion, IsRegion, IsNoRegion, Finish, Search, InRange;
    StartNarrowed(stabs, typ, lo, hi, a);
    SearchReaches(stabs, typ, lo, hi, a, Start(lo, hi, a));
    var s := Search(stabs, typ, Start(lo, hi, a));
    Hits(stabs, typ, lo, hi, a, s);
    if Narrowed(stabs, typ, lo, hi, a, s) {
      NarrowedEnd(stabs, typ, lo, hi, a, s);
    } else if Past(stabs, typ, lo, hi, a, s) || a != WORDS - 2 {
      PastEnd(stabs, typ, lo, hi, a, s);
    }
  }

  lemma Hits(stabs: seq<Stab>, typ: nat, lo: int, hi: int, a: nat, s: Loop)
    requires InRange(stabs, lo, hi) && Reached(stabs, typ, lo, hi, a, s) && a < WORDS
    ensures Narrowed(stabs, typ, lo, hi, a, s) <==> s.hits <= 1 && (a == WORDS - 1 ==> s.hits == 0)
    ensures !Narrowed(stabs, typ, lo, hi, a, s) ==> HasRegion(stabs, typ, lo, hi, a)
  {
  }

  lemma SearchStep(stabs: seq<Stab>, typ: nat, s: Loop)
    requires Ok(stabs, s) && s.l <= s.r
    ensures Search(stabs, typ, s) == Search(stabs, typ, Next(stabs, typ, s))
  {
    hide Next;
  }

  lemma SearchEnd(stabs: seq<Stab>, typ: nat, s: Loop)
    requires Ok(stabs, s) && s.l > s.r
    ensures Search(stabs, typ, s) == s
  {
  }

  // ---- The condition on the entries ----

  /** Where binary search first meets an address: at entry m, with the range up to r left. */
  datatype Meeting = Never | At(m: int, r: int)

  /** Plain binary search in [l, r] for the address x. */
  function Meet(stabs: seq<Stab>, typ: nat, l: int, r: int, x: nat): Meeting
    requires 0 <= l <= r + 1 <= |stabs|
    decreases r - l + 1
  {
    if l > r then Never
    else
      var mid := (l + r) / 2;
      var m := Back(stabs, typ, l, mid);
      if m < l || stabs[m].value < x then Meet(stabs, typ, mid + 1, r, x)
      else if stabs[m].value > x then Meet(stabs, typ, l, m - 1, x)
      else At(m, r)
  }

  /** It meets an address if and only if there is an entry there. */
  lemma {:induction false} MeetsIff(stabs: seq<Stab>, typ: nat, l: int, r: int, x: nat)
    requires 0 <= l <= r + 1 <= |stabs| && Sorted(stabs, typ, l, r)
    ensures match Meet(stabs, typ, l, r, x)
            case Never => !HasEntry(stabs, typ, l, r, x)
            case At(m, e) => l <= m <= e <= r && Matches(stabs, typ, m) && stabs[m].value == x && HasEntry(stabs, typ, l, r, x)
    decreases r - l + 1
  {
    hide Back, Sorted, HasEntry, NoneBetween, Matches;
    if l <= r {
      var mid := (l + r) / 2;
      var m := Back(stabs, typ, l, mid);
      Halves(stabs, typ, l, r, mid, x);
      if m < l || stabs[m].value < x {
        MeetsIff(stabs, typ, mid + 1, r, x);
      } else if stabs[m].value > x {
        MeetsIff(stabs, typ, l, m - 1, x);
      }
    } else {
      assert !HasEntry(stabs, typ, l, r, x) by { NoEntry(stabs, typ, l, r, x); }
    }
  }

  lemma NoEntry(stabs: seq<Stab>, typ: nat, l: int, r: int, x: nat)
    requires l > r
    ensures !HasEntry(stabs, typ, l, r, x)
  {
  }

  /** The half that the search drops does not hold the address. */
  lemma Halves(stabs: seq<Stab>, typ: nat, l: int, r: int, mid: int, x: nat)
    requires 0 <= l <= mid <= r < |stabs| && Sorted(stabs, typ, l, r)
    ensures Sorted(stabs, typ, mid + 1, r)
    ensures var m := Back(stabs, typ, l, mid);
            if m < l || stabs[m].value < x then HasEntry(stabs, typ, l, r, x) <==> HasEntry(stabs, typ, mid + 1, r, x)
            else Matches(stabs, typ, m) && Sorted(stabs, typ, l, m - 1)
                 && if stabs[m].value > x then HasEntry(stabs, typ, l, r, x) <==> HasEntry(stabs, typ, l, m - 1, x) else HasEntry(stabs, typ, l, r, x)
  {
    hide Back;
    var m := Back(stabs, typ, l, mid);
    if m < l || stabs[m].value < x {
      forall i | l <= i <= mid && Matches(stabs, typ, i) ensures stabs[i].value < x {
        assert i <= m && Matches(stabs, typ, m);
      }
    } else if stabs[m].value > x {
      forall i | m <= i <= r && Matches(stabs, typ, i) ensures stabs[i].value > x {
        assert Matches(stabs, typ, m);
      }
    }
  }

  /** stab_binsearch does the same until it meets the address, and goes on one higher. */
  lemma {:induction false} SearchMeets(stabs: seq<Stab>, typ: nat, s: Loop)
    requires Ok(stabs, s) && s.right == s.r
    ensures match Meet(stabs, typ, s.l, s.r, s.addr)
            case Never => Search(stabs, typ, s).hits == s.hits
            case At(m, r) =>
              var t := Loop(m, r, Inc32(s.addr), m, r, true, s.hits + 1);
              Ok(stabs, t) && Search(stabs, typ, s) == Search(stabs, typ, t)
    decreases s.r - s.l + 1
  {
    hide Search, Meet, Next, Hit, Inc32;
    if s.l > s.r {
      SearchEnd(stabs, typ, s);
      assert Meet(stabs, typ, s.l, s.r, s.addr) == Never by { MeetEnd(stabs, typ, s.l, s.r, s.addr); }
    } else {
      MeetNext(stabs, typ, s);
      SearchStep(stabs, typ, s);
      if !Hit(stabs, typ, s) {
        SearchMeets(stabs, typ, Next(stabs, typ, s));
      }
    }
  }

  lemma MeetEnd(stabs: seq<Stab>, typ: nat, l: int, r: int, x: nat)
    requires 0 <= l == r + 1 <= |stabs|
    ensures Meet(stabs, typ, l, r, x) == Never
  {
  }

  lemma MeetNext(stabs: seq<Stab>, typ: nat, s: Loop)
    requires Ok(stabs, s) && s.l <= s.r && s.right == s.r
    ensures var t := Next(stabs, typ, s);
            if Hit(stabs, typ, s) then Meet(stabs, typ, s.l, s.r, s.addr) == At(t.l, t.r) && t == Loop(t.l, t.r, Inc32(s.addr), t.l, t.r, true, s.hits + 1)
            else && Meet(stabs, typ, s.l, s.r, s.addr) == Meet(stabs, typ, t.l, t.r, t.addr)
                 && t.right == t.r && t.hits == s.hits && t.addr == s.addr && t.r - t.l < s.r - s.l
  {
    hide Back, Inc32, NoneBetween, Matches;
  }

  lemma {:induction false} HitsGrow(stabs: seq<Stab>, typ: nat, s: Loop)
    requires Ok(stabs, s)
    ensures Search(stabs, typ, s).hits >= s.hits
    decreases s.r - s.l + 1, if Hit(stabs, typ, s) then 1 else 0
  {
    hide Back;
    if s.l <= s.r {
      Progress(stabs, typ, s);
      HitsGrow(stabs, typ, Next(stabs, typ, s));
    }
  }

  /** Once it seeks 0 it goes down to the entry just before. */
  lemma {:induction false} SearchWraps(stabs: seq<Stab>, typ: nat, s: Loop)
    requires Ok(stabs, s) && s.addr == 0 && s.right == s.r && s.left == s.l <= s.r + 1 && s.any && s.l < |stabs| && Matches(stabs, typ, s.l)
    requires forall i | s.l <= i <= s.r && Matches(stabs, typ, i) :: stabs[i].value > 0
    ensures var t := Search(stabs, typ, s); t.any && t.left == s.left && t.right == s.left - 1
    decreases s.r - s.l + 1
  {
    hide Back;
    if s.l <= s.r {
      var m := Probe(stabs, typ, s);
      assert m >= s.l;
      SearchWraps(stabs, typ, Next(stabs, typ, s));
    }
  }

  /** The search goes past its goal: when it meets the address, an entry one above is still in the
      range. 2^32 - 1 has 0 above it; and above 2^32 - 2 the search ends just before the entry it met,
      which is right if the address's last entry is there. */
  predicate GoesPast(stabs: seq<Stab>, typ: nat, lo: int, hi: int, a: nat)
    requires InRange(stabs, lo, hi)
  {
    match Meet(stabs, typ, lo, hi, a)
    case Never => false
    case At(m, r) =>
      a == WORDS - 1
      || (0 <= m <= r < |stabs| && match Meet(stabs, typ, m, r, a + 1)
          case Never => false
          case At(k, _) => !(a == WORDS - 2 && Matches(stabs, typ, k - 1) && stabs[k - 1].value <= a))
  }

  /** stab_binsearch is right if and only if it does not. */
  lemma BinsearchCorrectIff(stabs: seq<Stab>, typ: nat, lo: int, hi: int, a: nat)
    requires InRange(stabs, lo, hi) && Sorted(stabs, typ, lo, hi) && a < WORDS
    ensures var (left, right) := Finish(stabs, typ, Search(stabs, typ, Start(lo, hi, a)));
            if HasRegion(stabs, typ, lo, hi, a) then IsRegion(stabs, typ, lo, hi, a, left, right) <==> !GoesPast(stabs, typ, lo, hi, a)
            else !GoesPast(stabs, typ, lo, hi, a) && IsNoRegion(stabs, typ, lo, hi, left, right)
  {
    hide Finish, Search, Meet, IsRegion, IsNoRegion, HasRegion;
    var s := Start(lo, hi, a);
    CorrectByHits(stabs, typ, lo, hi, a);
    MeetsIff(stabs, typ, lo, hi, a);
    SearchMeets(stabs, typ, s);
    match Meet(stabs, typ, lo, hi, a)
    case Never =>
    case At(m, r) =>
      var t := Loop(m, r, Inc32(a), m, r, true, 1);
      EntryIsRegion(stabs, typ, lo, hi, a, m);
      HitsGrow(stabs, typ, t);
      if a < WORDS - 1 {
        MeetsIff(stabs, typ, m, r, a + 1);
        SearchMeets(stabs, typ, t);
        if Meet(stabs, typ, m, r, a + 1).At? {
          MetTwice(stabs, typ, lo, hi, a, m, t, Meet(stabs, typ, m, r, a + 1).m, Meet(stabs, typ, m, r, a + 1).r);
        }
      }
  }

  lemma EntryIsRegion(stabs: seq<Stab>, typ: nat, lo: int, hi: int, a: nat, m: int)
    requires lo <= m <= hi && Matches(stabs, typ, m) && stabs[m].value <= a
    ensures HasRegion(stabs, typ, lo, hi, a)
  {
  }

  lemma MetTwice(stabs: seq<Stab>, typ: nat, lo: int, hi: int, a: nat, m: int, t: Loop, k: int, e: int)
    requires InRange(stabs, lo, hi) && Sorted(stabs, typ, lo, hi) && a < WORDS - 1 && lo <= m && Matches(stabs, typ, m) && stabs[m].value == a
    requires m <= k <= e <= hi && Matches(stabs, typ, k) && stabs[k].value == a + 1
    requires Ok(stabs, t) && Search(stabs, typ, t) == Search(stabs, typ, Loop(k, e, Inc32(a + 1), k, e, true, 2))
    ensures Search(stabs, typ, t).hits >= 2
    ensures a == WORDS - 2 ==> var (left, right) := Finish(stabs, typ, Search(stabs, typ, t));
              IsRegion(stabs, typ, lo, hi, a, left, right) <==> Matches(stabs, typ, k - 1) && stabs[k - 1].value <= a
  {
    hide Search, Back;
    var u := Loop(k, e, Inc32(a + 1), k, e, true, 2);
    HitsGrow(stabs, typ, u);
    if a == WORDS - 2 {
      SearchWraps(stabs, typ, u);
    }
  }

  /** A caller need only know that no entry of the type is one above another at the address. */
  lemma BinsearchUsuallyCorrect(stabs: seq<Stab>, typ: nat, lo: int, hi: int, a: nat)
    requires InRange(stabs, lo, hi) && Sorted(stabs, typ, lo, hi) && a < WORDS - 1 && HasRegion(stabs, typ, lo, hi, a)
    requires HasEntry(stabs, typ, lo, hi, a) ==> !HasEntry(stabs, typ, lo, hi, a + 1)
    ensures var (left, right) := Finish(stabs, typ, Search(stabs, typ, Start(lo, hi, a)));
            IsRegion(stabs, typ, lo, hi, a, left, right)
  {
    hide Narrowed, Sorted, HasRegion, IsRegion, Finish, Search, InRange, HasEntry;
    StartNarrowed(stabs, typ, lo, hi, a);
    SearchStaysNarrowed(stabs, typ, lo, hi, a, Start(lo, hi, a));
    NarrowedEnd(stabs, typ, lo, hi, a, Search(stabs, typ, Start(lo, hi, a)));
  }

  lemma {:induction false} SearchStaysNarrowed(stabs: seq<Stab>, typ: nat, lo: int, hi: int, a: nat, s: Loop)
    requires InRange(stabs, lo, hi) && Sorted(stabs, typ, lo, hi) && Narrowed(stabs, typ, lo, hi, a, s) && a < WORDS - 1
    requires HasEntry(stabs, typ, lo, hi, a) ==> !HasEntry(stabs, typ, lo, hi, a + 1)
    ensures Ok(stabs, s) && Narrowed(stabs, typ, lo, hi, a, Search(stabs, typ, s))
    decreases s.r - s.l + 1, if Ok(stabs, s) && Hit(stabs, typ, s) then 1 else 0
  {
    OkReached(stabs, typ, lo, hi, a, s);
    if s.l <= s.r {
      NoSecondHit(stabs, typ, lo, hi, a, s);
      hide Narrowed, Sorted, Next, Hit, HasEntry, Ok, Past, Wrapped;
      NarrowedNext(stabs, typ, lo, hi, a, s);
      Progress(stabs, typ, s);
      SearchStaysNarrowed(stabs, typ, lo, hi, a, Next(stabs, typ, s));
    }
  }

  lemma NoSecondHit(stabs: seq<Stab>, typ: nat, lo: int, hi: int, a: nat, s: Loop)
    requires Narrowed(stabs, typ, lo, hi, a, s) && s.l <= s.r
    requires HasEntry(stabs, typ, lo, hi, a) ==> !HasEntry(stabs, typ, lo, hi, a + 1)
    ensures Hit(stabs, typ, s) ==> s.hits == 0
  {
    if Hit(stabs, typ, s) {
      var m := Probe(stabs, typ, s);
      assert lo <= m <= hi && Matches(stabs, typ, m);
    }
  }

  /** Two functions at 10 and 11: the one at 10 is not found for the address 10. */
  lemma OneAboveAnother()
    ensures var stabs := [Stab(36, 10), Stab(36, 11)];
            InRange(stabs, 0, 1) && Sorted(stabs, 36, 0, 1) && IsRegion(stabs, 36, 0, 1, 10, 0, 0)
            && Finish(stabs, 36, Search(stabs, 36, Start(0, 1, 10))) == (1, 1)
  {
    var stabs := [Stab(36, 10), Stab(36, 11)];
    var s0 := Start(0, 1, 10);
    var s1 := Loop(0, 1, 11, 0, 1, true, 1);
    var s2 := Loop(1, 1, 11, 0, 1, true, 1);
    var s3 := Loop(1, 1, 12, 1, 1, true, 2);
    var s4 := Loop(2, 1, 12, 1, 1, true, 2);
    assert Next(stabs, 36, s0) == s1 && Next(stabs, 36, s1) == s2 && Next(stabs, 36, s2) == s3 && Next(stabs, 36, s3) == s4;
    assert Search(stabs, 36, s0) == Search(stabs, 36, s1) == Search(stabs, 36, s2) == Search(stabs, 36, s3) == s4;
  }

  /** With a third one at 12 it is found, as the search never probes the one at 11 after the hit: that
      no entry is one above another is enough, but not necessary. */
  lemma OneAboveAnotherFound()
    ensures var stabs := [Stab(36, 10), Stab(36, 11), Stab(36, 12)];
            InRange(stabs, 0, 2) && Sorted(stabs, 36, 0, 2) && HasEntry(stabs, 36, 0, 2, 10) && HasEntry(stabs, 36, 0, 2, 11)
            && Finish(stabs, 36, Search(stabs, 36, Start(0, 2, 10))) == (0, 0) && IsRegion(stabs, 36, 0, 2, 10, 0, 0)
  {
    var stabs := [Stab(36, 10), Stab(36, 11), Stab(36, 12)];
    assert Matches(stabs, 36, 0) && Matches(stabs, 36, 1);
    ThreeRounds(stabs);
    hide Search, Next, Ok;
    assert NoneBetween(stabs, 36, 0, 1);
  }

  lemma ThreeRounds(stabs: seq<Stab>)
    requires stabs == [Stab(36, 10), Stab(36, 11), Stab(36, 12)]
    ensures InRange(stabs, 0, 2) && Search(stabs, 36, Start(0, 2, 10)) == Loop(1, 0, 11, 0, 0, true, 1)
  {
    var s0 := Start(0, 2, 10);
    var s1 := Loop(0, 0, 10, 0, 0, true, 0);
    var s2 := Loop(0, 0, 11, 0, 0, true, 1);
    var s3 := Loop(1, 0, 11, 0, 0, true, 1);
    assert Next(stabs, 36, s0) == s1;
    assert Next(stabs, 36, s1) == s2 && Next(stabs, 36, s2) == s3;
    SearchEnd(stabs, 36, s3);
    SearchStep(stabs, 36, s2);
    SearchStep(stabs, 36, s1);
    SearchStep(stabs, 36, s0);
  }
}
