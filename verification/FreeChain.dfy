/** Singly linked page lists as kern/pmap.c keeps them in pp_link, and their in-place
    partition by check_page_free_list. */
module FreeChain {
  import opened Basics
  import Mmu

  /** The free list as it is linked: head, then pp_link from page to page, then NULL. */
  ghost predicate Chain(head: Option<nat>, link: seq<Option<nat>>, list: seq<nat>)
    decreases |list|
  {
    if list == [] then head.None?
    else head == Some(list[0]) && list[0] < |link| && Chain(link[list[0]], link, list[1..])
  }

  lemma {:induction false} ChainIgnoresOthers(head: Option<nat>, link: seq<Option<nat>>, list: seq<nat>, p: nat, x: Option<nat>)
    requires Chain(head, link, list) && p < |link| && p !in list
    ensures Chain(head, link[p := x], list)
    decreases |list|
  {
    if list != [] {
      assert list[0] in list;
      ChainIgnoresOthers(link[list[0]], link, list[1..], p, x);
    }
  }

  // ---- Moving low pages to the front of the free list ----

  predicate IsLow(p: nat, limit: nat) { p / 1024 < limit }

  /** The pages of the list on one side of the limit, in list order. */
  function Select(list: seq<nat>, limit: nat, low: bool): seq<nat> {
    if list == [] then []
    else
      var last := list[|list| - 1];
      Select(list[..|list| - 1], limit, low) + if IsLow(last, limit) == low then [last] else []
  }

  /** Following links from head visits `list`; where the last link leads does not matter. */
  ghost predicate OpenChain(head: Option<nat>, link: seq<Option<nat>>, list: seq<nat>)
    decreases |list|
  {
    list == [] ||
    (head == Some(list[0]) && list[0] < |link| && OpenChain(link[list[0]], link, list[1..]))
  }

  ghost predicate Distinct(list: seq<nat>) {
    forall i, j | 0 <= i < j < |list| :: list[i] != list[j]
  }

  /** A list under construction: tail says where the next page goes, the head variable (None)
      or the link of the last page. */
  ghost predicate Trail(head: Option<nat>, tail: Option<nat>, link: seq<Option<nat>>, list: seq<nat>) {
    && Distinct(list) && OpenChain(head, link, list)
    && tail == if list == [] then None else Some(list[|list| - 1])
  }

  lemma {:induction false} OpenIgnoresOthers(head: Option<nat>, link: seq<Option<nat>>, list: seq<nat>, p: nat, x: Option<nat>)
    requires OpenChain(head, link, list) && p < |link| && p !in list
    ensures OpenChain(head, link[p := x], list)
    decreases |list|
  {
    if list != [] {
      assert list[0] in list;
      OpenIgnoresOthers(link[list[0]], link, list[1..], p, x);
    }
  }

  /** Pointing the last link at another chain joins the two. */
  lemma {:induction false} JoinOpen(head: Option<nat>, link: seq<Option<nat>>, list: seq<nat>, x: Option<nat>, rest: seq<nat>)
    requires OpenChain(head, link, list) && list != [] && Distinct(list)
    requires forall p | p in list :: p !in rest
    ensures list[|list| - 1] < |link|
    ensures var l := link[list[|list| - 1] := x];
            && (OpenChain(x, link, rest) ==> OpenChain(head, l, list + rest))
            && (Chain(x, link, rest) ==> Chain(head, l, list + rest))
    decreases |list|
  {
    var last := list[|list| - 1];
    if |list| == 1 {
      assert last in list;
      assert (list + rest)[1..] == rest;
      if OpenChain(x, link, rest) {
        OpenIgnoresOthers(x, link, rest, last, x);
      }
      if Chain(x, link, rest) {
        ChainIgnoresOthers(x, link, rest, last, x);
      }
    } else {
      assert forall p | p in list[1..] :: p in list;
      assert last == list[1..][|list| - 2];
      JoinOpen(link[list[0]], link, list[1..], x, rest);
      assert (list + rest)[1..] == list[1..] + rest;
      assert list[0] != last;
    }
  }

  lemma SelectLast(init: seq<nat>, last: nat, limit: nat, low: bool)
    ensures Select(init + [last], limit, low) == Select(init, limit, low) + if IsLow(last, limit) == low then [last] else []
  {
    assert (init + [last])[..|init|] == init;
  }

  lemma {:induction false} SelectMembers(list: seq<nat>, limit: nat, low: bool)
    ensures forall p :: p in Select(list, limit, low) <==> p in list && IsLow(p, limit) == low
    ensures Distinct(list) ==> Distinct(Select(list, limit, low))
    ensures |Select(list, limit, true)| + |Select(list, limit, false)| == |list|
  {
    if list != [] {
      var init, last := list[..|list| - 1], list[|list| - 1];
      assert list == init + [last];
      SelectMembers(init, limit, low);
      SelectLast(init, last, limit, true);
      SelectLast(init, last, limit, false);
      hide Select, IsLow;
      DistinctLast(init, last);
      DistinctLast(Select(init, limit, low), last);
      hide Distinct;
    }
  }

  lemma DistinctLast(init: seq<nat>, last: nat)
    ensures Distinct(init + [last]) <==> Distinct(init) && last !in init
  {
    var list := init + [last];
    assert forall i | 0 <= i < |init| :: list[i] == init[i];
    assert list[|init|] == last;
  }

  /** The partition keeps the order of the pages on either side. */
  lemma PartitionIsStable(list: seq<nat>, limit: nat, i: nat, j: nat) returns (k: nat, l: nat)
    requires i < j < |list| && IsLow(list[i], limit) == IsLow(list[j], limit)
    ensures var r := Select(list, limit, true) + Select(list, limit, false);
            k < l < |r| && r[k] == list[i] && r[l] == list[j]
  {
    var low := IsLow(list[i], limit);
    k, l := SelectOrder(list, limit, low, i, j);
    if !low {
      var high := |Select(list, limit, true)|;
      k, l := high + k, high + l;
    }
  }

  lemma LowIsPdx(p: nat, limit: nat)
    requires p < 0x10_0000
    ensures IsLow(p, limit) <==> Mmu.Pdx(p * 4096) < limit
  {
  }

  /** The low pages come first, those whose physical address has a directory index below the limit; no
      page is on both sides. */
  lemma PartitionSides(list: seq<nat>, limit: nat)
    ensures var a, b := Select(list, limit, true), Select(list, limit, false);
            && (forall p | p in a :: p !in b) && (forall p | p in a && p < 0x10_0000 :: Mmu.Pdx(p * 4096) < limit)
            && (forall p | p in b && p < 0x10_0000 :: Mmu.Pdx(p * 4096) >= limit)
            && (Distinct(list) ==> Distinct(a) && Distinct(b))
  {
    hide Mmu.Pdx, IsLow, Select;
    SelectMembers(list, limit, true);
    SelectMembers(list, limit, false);
    forall p | p in list && p < 0x10_0000 ensures IsLow(p, limit) <==> Mmu.Pdx(p * 4096) < limit {
      LowIsPdx(p, limit);
    }
  }

  /** It has the same pages as the list. */
  lemma PartitionIsPermutation(list: seq<nat>, limit: nat)
    ensures multiset(Select(list, limit, true) + Select(list, limit, false)) == multiset(list)
  {
    SelectMultiset(list, limit);
  }

  lemma {:induction false} SelectMultiset(list: seq<nat>, limit: nat)
    ensures multiset(Select(list, limit, true)) + multiset(Select(list, limit, false)) == multiset(list)
  {
    if list != [] {
      var init, last := list[..|list| - 1], list[|list| - 1];
      assert list == init + [last];
      SelectMultiset(init, limit);
      SelectLast(init, last, limit, true);
      SelectLast(init, last, limit, false);
      hide Select, IsLow;
    }
  }

  lemma {:induction false} SelectOrder(list: seq<nat>, limit: nat, low: bool, i: nat, j: nat) returns (k: nat, l: nat)
    requires i < j < |list| && IsLow(list[i], limit) == low == IsLow(list[j], limit)
    ensures k < l < |Select(list, limit, low)|
    ensures Select(list, limit, low)[k] == list[i] && Select(list, limit, low)[l] == list[j]
  {
    var init := list[..|list| - 1];
    if j == |list| - 1 {
      SelectMembers(init, limit, low);
      assert init[i] in Select(init, limit, low);
      k :| 0 <= k < |Select(init, limit, low)| && Select(init, limit, low)[k] == list[i];
      l := |Select(init, limit, low)|;
    } else {
      k, l := SelectOrder(init, limit, low, i, j);
    }
  }

  /** Appending page p to a list under construction; `tail` may be assigned in place of head. */
  lemma TrailGrows(head: Option<nat>, tail: Option<nat>, link: seq<Option<nat>>, list: seq<nat>, p: nat)
    requires Trail(head, tail, link, list) && p < |link| && p !in list
    ensures match tail
            case None => Trail(Some(p), Some(p), link, list + [p])
            case Some(q) => q < |link| && q in list && Trail(head, Some(p), link[q := Some(p)], list + [p])
  {
    if list != [] {
      assert OpenChain(Some(p), link, [p]);
      JoinOpen(head, link, list, Some(p), [p]);
    }
  }

  /** Writing the link of a page of one list leaves another list alone. */
  lemma TrailIgnoresOthers(head: Option<nat>, tail: Option<nat>, link: seq<Option<nat>>, list: seq<nat>, q: nat, x: Option<nat>)
    requires Trail(head, tail, link, list) && q < |link| && q !in list
    ensures Trail(head, tail, link[q := x], list)
  {
    OpenIgnoresOthers(head, link, list, q, x);
  }

  /** Visiting one more page puts it at the end of its side. */
  lemma SelectStep(list: seq<nat>, limit: nat, i: nat)
    requires i < |list| && Distinct(list)
    ensures forall low :: Select(list[..i + 1], limit, low) ==
                          if IsLow(list[i], limit) == low then Select(list[..i], limit, low) + [list[i]]
                          else Select(list[..i], limit, low)
    ensures forall low :: list[i] !in Select(list[..i], limit, low)
  {
    assert list[..i + 1][..i] == list[..i];
    SelectMembers(list[..i], limit, true);
    SelectMembers(list[..i], limit, false);
  }

  /** A page already on one side is neither on the other side nor still to come. */
  lemma SelectApart(list: seq<nat>, limit: nat, i: nat, low: bool, q: nat)
    requires i <= |list| && Distinct(list) && q in Select(list[..i], limit, low)
    ensures q !in Select(list[..i], limit, !low) && q !in list[i..]
  {
    SelectMembers(list[..i], limit, low);
    SelectMembers(list[..i], limit, !low);
  }

  /** Storing x where the trail ends joins the chain that starts at x. */
  lemma CloseTrail(head: Option<nat>, tail: Option<nat>, link: seq<Option<nat>>, list: seq<nat>, x: Option<nat>, rest: seq<nat>)
    requires Trail(head, tail, link, list) && Chain(x, link, rest) && forall p | p in list :: p !in rest
    ensures match tail
            case None => Chain(x, link, list + rest)
            case Some(q) => q < |link| && q in list && Chain(head, link[q := x], list + rest)
  {
    if list == [] {
      assert list + rest == rest;
    } else {
      JoinOpen(head, link, list, x, rest);
    }
  }

  lemma EmptyTrail(link: seq<Option<nat>>, limit: nat)
    ensures forall low :: Trail(None, None, link, Select([], limit, low))
  {
  }

  lemma EmptyChain(link: seq<Option<nat>>)
    ensures Chain(None, link, [])
  {
  }

  lemma ChainStep(pp: Option<nat>, link: seq<Option<nat>>, list: seq<nat>, i: nat)
    requires i <= |list| && Chain(pp, link, list[i..])
    ensures pp.Some? <==> i < |list|
    ensures pp.Some? ==> pp == Some(list[i]) && list[i] < |link| && Chain(link[list[i]], link, list[i + 1..])
  {
    if i < |list| {
      assert list[i..][1..] == list[i + 1..];
    }
  }
}
