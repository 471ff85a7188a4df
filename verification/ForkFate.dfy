/** What comes of fork, page by page: where memory is short, whether a call fails or one of the
    parent's own stores faults in vain. */
module ForkFate {
  import opened Mmu
  import opened PageSpace
  import opened PageWords
  import opened Cow
  import opened ForkSteps
  import opened ForkPlan

  /** Pages numbered below n are in the child; its exception page is allocated; PFTEMP has been in use. */
  datatype Place = Place(n: nat, stack: bool, lent: bool)

  /** Free pages there, while no call has failed. */
  ghost function Spare(s: Space, pd: nat, at: Place, o: Tally): int {
    |s.free| - 1 - |if at.stack then Tables(s, pd, at.n) + {954} else Tables(s, pd, at.n)| - (if at.stack then 1 else 0)
    - (if Slot(pd, 1) !in s.tabs && HasTemp(s, pd, o, at.lent) then 1 else 0) - o.kept
  }

  /** pgfault needs a page, and the table of PFTEMP. */
  ghost predicate Repairs(s: Space, pd: nat, at: Place, o: Tally) {
    Spare(s, pd, at, o) >= 2 || (Spare(s, pd, at, o) >= 1 && HasTemp(s, pd, o, at.lent))
  }

  /** The tally after stores: once a call has failed no page is free, and no fault is repaired. */
  ghost function Told(s: Space, pd: nat, at: Place, complete: bool, o: Tally, ws: seq<Write>): Tally {
    if complete then AfterStores(s, pd, o, ws, at.stack) else o
  }

  /** Each of the stores goes to a writable page or its fault is repaired. */
  ghost predicate Survives(s: Space, pd: nat, at: Place, complete: bool, o: Tally, ws: seq<Write>)
    decreases |ws|
  {
    ws == [] ||
    var rest := ws[..|ws| - 1];
    && Survives(s, pd, at, complete, o, rest)
    && SurvivesOne(s, pd, at, complete, Told(s, pd, at, complete, o, rest), ws[|ws| - 1])
  }

  ghost predicate SurvivesOne(s: Space, pd: nat, at: Place, complete: bool, o: Tally, w: Write) {
    PageAt(pd, w.va) in o.writable || (complete && Repairs(s, pd, at, o))
  }

  lemma OneMoreSurvives(s: Space, pd: nat, at: Place, complete: bool, o: Tally, ws: seq<Write>, i: nat)
    requires i < |ws|
    ensures Survives(s, pd, at, complete, o, ws[..i + 1]) <==>
            Survives(s, pd, at, complete, o, ws[..i]) && SurvivesOne(s, pd, at, complete, Told(s, pd, at, complete, o, ws[..i]), ws[i])
  {
    hide SurvivesOne, Told;
    assert ws[..i + 1][..i] == ws[..i];
  }

  lemma {:induction false} PrefixSurvives(s: Space, pd: nat, at: Place, complete: bool, o: Tally, ws: seq<Write>, i: nat)
    requires i <= |ws| && Survives(s, pd, at, complete, o, ws)
    ensures Survives(s, pd, at, complete, o, ws[..i])
    decreases |ws|
  {
    hide SurvivesOne, Told;
    if i < |ws| {
      assert ws[..|ws| - 1][..i] == ws[..i];
      PrefixSurvives(s, pd, at, complete, o, ws[..|ws| - 1], i);
    } else {
      assert ws[..i] == ws;
    }
  }

  // ---- The course ----

  /** alive: the parent has not panicked. complete: no call has failed. t: gaps so far. */
  datatype Course = Course(alive: bool, complete: bool, t: nat, own: Tally)

  /** The parent's code in the next gap. */
  ghost function AfterGap(s: Space, pd: nat, code: seq<seq<Write>>, c: Course, at: Place): Course {
    var ws := GapCode(code, c.t);
    Course(c.alive && Survives(s, pd, at, c.complete, c.own, ws), c.complete, c.t + 1, Told(s, pd, at, c.complete, c.own, ws))
  }

  /** There is a table for page n in the child, or a page for it. */
  ghost predicate ChildFits(s: Space, pd: nat, n: nat, o: Tally) {
    n / 1024 in Tables(s, pd, n) || Spare(s, pd, Place(n, false, false), o) >= 1
  }

  /** The two gaps of duppage before its first call. */
  ghost function BeforeChild(s: Space, pd: nat, code: seq<seq<Write>>, c: Course, n: nat): Course {
    AfterGap(s, pd, code, AfterGap(s, pd, code, c, Place(n, false, false)), Place(n, false, false))
  }

  /** duppage of page n: after a failed call it returns at once. */
  ghost function CourseOf(s: Space, pd: nat, code: seq<seq<Write>>, c: Course, n: nat): Course
    requires PageNo(pd, n) in s.maps
  {
    var v, b := PageNo(pd, n), BeforeChild(s, pd, code, c, n);
    if !b.alive then b
    else if !b.complete || !ChildFits(s, pd, n, b.own) then b.(complete := false)
    else if Shareable(s.maps[v].flags) then
      var d := AfterGap(s, pd, code, b.(own := InChild(b.own, v)), Place(n + 1, false, false));
      d.(own := Sealed(d.own, v))
    else b.(own := InChild(b.own, v))
  }

  ghost function CourseTo(s: Space, pd: nat, code: seq<seq<Write>>, n: nat): Course {
    if n <= 2048 then Course(true, true, 0, AtStart(s, pd))
    else
      var c := CourseTo(s, pd, code, n - 1);
      if c.alive && RangePage(s, pd, PageNo(pd, n - 1)) then CourseOf(s, pd, code, c, n - 1) else c
  }

  lemma {:induction false} CourseSkips(s: Space, pd: nat, code: seq<seq<Write>>, n: nat, m: nat)
    requires NoneBetween(s, pd, n, m) && n <= m
    ensures CourseTo(s, pd, code, m) == CourseTo(s, pd, code, n)
    decreases m
  {
    hide CourseOf, InRange, AtStart;
    if n < m {
      CourseSkips(s, pd, code, n, m - 1);
      assert Number(PageNo(pd, m - 1)) == m - 1;
    }
  }

  lemma {:induction false} DeadStays(s: Space, pd: nat, code: seq<seq<Write>>, n: nat, m: nat)
    requires n <= m && !CourseTo(s, pd, code, n).alive
    ensures !CourseTo(s, pd, code, m).alive
    decreases m
  {
    hide CourseOf, InRange, AtStart;
    if n < m {
      DeadStays(s, pd, code, n, m - 1);
    }
  }

  // ---- The end ----

  datatype Fate =
    | Forks    // returns the child's id
    | Fails    // returns -1
    | Panics   // a fault finds no page
    | Collides // a fault meets PFTEMP in use

  /** Two pages for the child's exception page, or one and the table. */
  ghost predicate StackFits(s: Space, pd: nat, o: Tally) {
    var spare := Spare(s, pd, Place(LAST, false, false), o);
    spare >= 2 || (spare >= 1 && 954 in Tables(s, pd, LAST))
  }

  /** A page for the table of PFTEMP, or that table. */
  ghost predicate LoanFits(s: Space, pd: nat, o: Tally) {
    Spare(s, pd, Place(LAST, true, false), o) >= 1 || HasTemp(s, pd, o, false)
  }

  /** Up to the mapping at PFTEMP. */
  datatype Reach = Stops(fate: Fate) | Goes(c: Course)

  ghost function ToTemp(s: Space, pd: nat, code: seq<seq<Write>>): Reach {
    var c := AfterGap(s, pd, code, CourseTo(s, pd, code, LAST), Place(LAST, false, false));
    if !c.alive then Stops(Panics)
    else if !c.complete || !StackFits(s, pd, c.own) then Stops(Fails)
    else
      var d := AfterGap(s, pd, code, c, Place(LAST, true, false));
      if !d.alive then Stops(Panics)
      else if !LoanFits(s, pd, d.own) then Stops(Fails)
      else Goes(d)
  }

  /** The two gaps before the last two calls. */
  ghost function ToEnd(s: Space, pd: nat, code: seq<seq<Write>>, c: Course): Course {
    AfterGap(s, pd, code, AfterGap(s, pd, code, c, Place(LAST, true, true)), Place(LAST, true, true))
  }

  ghost function FateOf(s: Space, pd: nat, code: seq<seq<Write>>): Fate {
    match ToTemp(s, pd, code)
    case Stops(fate) => fate
    case Goes(c) =>
      if Clashing(s, pd, code) then Collides
      else if ToEnd(s, pd, code, c.(t := c.t + 2)).alive then Forks
      else Panics
  }
}
