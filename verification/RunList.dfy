/**
 Runs, and the heap form of the three-tier list: runs that point to each other, and four pointers
 to where the tiers start and end.
 */
module RunLists {
  import opened Collections
  import opened FreeLists
  import T = ThreeTierLists

  class RunSlots {
    const base: Addr // the first slot
    const slotSize: nat
    const maxSlots: nat
    const freeList: FreeList
    var nFree: nat
    var local: bool
    var inList: bool
    var next: RunSlots?
    var prev: RunSlots?

    /** A new run: all its slots are free. */
    constructor (mem: Memory, base: Addr, slotSize: nat, maxSlots: nat)
      requires base > 0 && slotSize > 0 && maxSlots > 0 && base + maxSlots * slotSize < ALLOCATED
      modifies mem
      ensures fresh(freeList) && freeList.Valid(mem) && freeList.items == SlotsFrom(base, slotSize, maxSlots)
      ensures this.base == base && this.slotSize == slotSize && this.maxSlots == maxSlots
      ensures nFree == maxSlots && !local && !inList && next == null && prev == null
      ensures Threaded(old(mem.word), mem.word, freeList.items, maxSlots)
    {
      this.base, this.slotSize, this.maxSlots := base, slotSize, maxSlots;
      nFree, local, inList, next, prev := maxSlots, false, false, null, null;
      freeList := new FreeList();
      new;
      freeList.Init(mem, base, slotSize, maxSlots);
    }

    /** How full the run is, between 0 and 1. */
    function Value(): real
      requires maxSlots > 0
      reads this
    {
      1.0 - nFree as real / maxSlots as real
    }

    ghost function Slots(): seq<Addr> {
      SlotsFrom(base, slotSize, maxSlots)
    }
  }

  // ------------------------------------------------------------------ links

  ghost function At(s: seq<RunSlots>, i: int): RunSlots? {
    if 0 <= i < |s| then s[i] else null
  }

  ghost predicate LinkedAt(s: seq<RunSlots>, i: nat)
    requires i < |s|
    reads s
  {
    s[i].next == At(s, i + 1) && s[i].prev == At(s, i - 1) && s[i].inList
  }

  /** The runs `s` are distinct, and doubly linked in this order. */
  ghost predicate Listed(s: seq<RunSlots>)
    reads s
  {
    Distinct(s) && forall i :: 0 <= i < |s| ==> LinkedAt(s, i)
  }

  /** The links of `s[k]` skip index `i`. */
  ghost predicate SkipsAt(s: seq<RunSlots>, i: nat, k: nat)
    requires k < |s|
    reads s
  {
    && s[k].next == At(s, if k + 1 == i then i + 1 else k + 1)
    && s[k].prev == At(s, if k == i + 1 then i - 1 else k - 1)
    && s[k].inList
  }

  lemma SkippingIsListed(s: seq<RunSlots>, i: nat)
    requires Distinct(s) && i < |s| && forall k :: 0 <= k < |s| && k != i ==> SkipsAt(s, i, k)
    ensures Listed(T.Without(s, i))
  {
    T.DistinctWithout(s, i);
    var u := T.Without(s, i);
    forall j | 0 <= j < |u| ensures LinkedAt(u, j) {
      assert SkipsAt(s, i, if j < i then j else j + 1);
    }
  }

  /** Takes a run out of its list, closing the gap. */
  method Unlink(n: RunSlots, ghost s: seq<RunSlots>, ghost i: nat)
    requires Listed(s) && i < |s| && s[i] == n
    modifies s`next, s`prev, n`inList
    ensures Listed(T.Without(s, i)) && n.next == null && n.prev == null && !n.inList
  {
    assert LinkedAt(s, i);
    if n.next != null {
      n.next.prev := n.prev;
    }
    if n.prev != null {
      n.prev.next := n.next;
    }
    n.next, n.prev, n.inList := null, null, false;
    forall k | 0 <= k < |s| && k != i ensures SkipsAt(s, i, k) {
      assert old(LinkedAt(s, k));
    }
    SkippingIsListed(s, i);
  }

  /** The links of `s[k]` once `n` stands between `s[i - 1]` and `s[i]`. */
  ghost predicate SplicedAt(s: seq<RunSlots>, i: nat, n: RunSlots, k: nat)
    requires k < |s|
    reads s
  {
    && s[k].next == (if k + 1 == i then n else At(s, k + 1))
    && s[k].prev == (if k == i then n else At(s, k - 1))
    && s[k].inList
  }

  lemma SplicedIsListed(s: seq<RunSlots>, i: nat, n: RunSlots)
    requires Distinct(s) && i <= |s| && n !in s && forall k :: 0 <= k < |s| ==> SplicedAt(s, i, n, k)
    requires n.next == At(s, i) && n.prev == At(s, i - 1) && n.inList
    ensures Listed(s[..i] + [n] + s[i..])
  {
    T.DistinctWith(s, i, n);
    var u := s[..i] + [n] + s[i..];
    forall j | 0 <= j < |u| ensures LinkedAt(u, j) {
      if j != i {
        assert SplicedAt(s, i, n, if j < i then j else j - 1);
      }
    }
  }

  // ------------------------------------------------------------------ the list

  const FIRST_TIER_BAR: real := 0.6
  const SECOND_TIER_BAR: real := 0.3

  function TierOf(value: real): T.Tier {
    if value > FIRST_TIER_BAR then T.First else if value > SECOND_TIER_BAR then T.Second else T.Third
  }

  class ThreeTierList {
    var firstTierHead: RunSlots?
    var secondTierHead: RunSlots?
    var secondTierTail: RunSlots?
    var thirdTierHead: RunSlots?
    ghost var tiers: T.Tiers<RunSlots>

    ghost function All(): seq<RunSlots>
      reads this
    {
      tiers.All()
    }

    ghost predicate Valid()
      reads this, All()
    {
      tiers.Filled() && Listed(All()) && HeadsOf(tiers)
    }

    /** The four pointers are where the tiers start and end. */
    ghost predicate HeadsOf(t: T.Tiers<RunSlots>)
      reads this
    {
      && firstTierHead == At(t.first, 0) && thirdTierHead == At(t.third, 0)
      && secondTierHead == At(t.second, 0) && secondTierTail == At(t.second, |t.second| - 1)
    }

    constructor ()
      ensures Valid() && All() == []
    {
      firstTierHead, secondTierHead, secondTierTail, thirdTierHead := null, null, null, null;
      tiers := T.Tiers([], [], []);
    }

    /** The first run of the list. */
    method GetList() returns (r: RunSlots?)
      requires Valid()
      ensures r == At(All(), 0)
    {
      r := firstTierHead;
      if r == null {
        r := secondTierHead;
        if r == null {
          r := thirdTierHead;
        }
      }
    }

    /** Puts a run in front of the tier that its value belongs to. */
    method Insert(n: RunSlots)
      requires Valid() && n !in All() && !n.inList && n.maxSlots > 0
      modifies this, All()`next, All()`prev, n`next, n`prev, n`inList
      ensures Valid() && tiers == T.Inserted(old(tiers), n, TierOf(old(n.Value())))
    {
      ghost var t, s := tiers, All();
      ghost var tier := TierOf(n.Value());
      ghost var k := T.InsertedAddsOne(t, n, tier);
      tiers := T.Inserted(t, n, tier);
      if secondTierHead == null {
        n.next, n.prev := null, null;
        secondTierHead, secondTierTail := n, n;
        n.inList := true;
        return;
      }
      var value := n.Value();
      if value > FIRST_TIER_BAR {
        InsertFirst(n, t);
      } else if value > SECOND_TIER_BAR {
        InsertSecond(n, t);
      } else {
        InsertThird(n, t);
      }
      n.inList := true;
      SplicedIsListed(s, k, n);
    }

    method InsertFirst(n: RunSlots, ghost t: T.Tiers<RunSlots>)
      requires t.Filled() && Listed(t.All()) && HeadsOf(t) && t.second != [] && n !in t.All()
      modifies `firstTierHead, t.All()`next, t.All()`prev, n`next, n`prev
      ensures HeadsOf(t.(first := [n] + t.first))
      ensures forall k :: 0 <= k < |t.All()| ==> SplicedAt(t.All(), 0, n, k)
      ensures n.next == At(t.All(), 0) && n.prev == null
    {
      ghost var s := t.All();
      assert LinkedAt(s, 0);
      if firstTierHead != null {
        n.next := firstTierHead;
        n.prev := null;
        firstTierHead.prev := n;
        firstTierHead := n;
      } else {
        n.next := secondTierHead;
        n.prev := null;
        secondTierHead.prev := n;
        firstTierHead := n;
      }
      forall k | 0 <= k < |s| ensures SplicedAt(s, 0, n, k) {
        assert old(LinkedAt(s, k));
      }
    }

    method InsertSecond(n: RunSlots, ghost t: T.Tiers<RunSlots>)
      requires t.Filled() && Listed(t.All()) && HeadsOf(t) && t.second != [] && n !in t.All()
      modifies `secondTierHead, t.All()`next, t.All()`prev, n`next, n`prev
      ensures HeadsOf(t.(second := [n] + t.second))
      ensures forall k :: 0 <= k < |t.All()| ==> SplicedAt(t.All(), |t.first|, n, k)
      ensures n.next == At(t.All(), |t.first|) && n.prev == At(t.All(), |t.first| - 1)
    {
      ghost var s := t.All();
      assert LinkedAt(s, |t.first|);
      n.next := secondTierHead;
      var prev := secondTierHead.prev;
      n.prev := prev;
      if prev != null {
        prev.next := n;
      }
      secondTierHead.prev := n;
      secondTierHead := n;
      forall k | 0 <= k < |s| ensures SplicedAt(s, |t.first|, n, k) {
        assert old(LinkedAt(s, k));
      }
    }

    method InsertThird(n: RunSlots, ghost t: T.Tiers<RunSlots>)
      requires t.Filled() && Listed(t.All()) && HeadsOf(t) && t.second != [] && n !in t.All()
      modifies `thirdTierHead, t.All()`next, t.All()`prev, n`next, n`prev
      ensures HeadsOf(t.(third := [n] + t.third))
      ensures forall k :: 0 <= k < |t.All()| ==> SplicedAt(t.All(), |t.first + t.second|, n, k)
      ensures n.next == At(t.All(), |t.first + t.second|) && n.prev == At(t.All(), |t.first + t.second| - 1)
    {
      ghost var s, i := t.All(), |t.first + t.second|;
      assert LinkedAt(s, i - 1);
      if thirdTierHead != null {
        assert LinkedAt(s, i);
        n.next := thirdTierHead;
        n.prev := thirdTierHead.prev;
        thirdTierHead.prev.next := n;
        thirdTierHead.prev := n;
        thirdTierHead := n;
      } else {
        n.next := null;
        n.prev := secondTierTail;
        secondTierTail.next := n;
        thirdTierHead := n;
      }
      forall k | 0 <= k < |s| ensures SplicedAt(s, i, n, k) {
        assert old(LinkedAt(s, k));
      }
    }

    /** Takes the first run of the middle tier, which is empty only when the whole list is. */
    method Fetch() returns (n: RunSlots?)
      requires Valid()
      modifies this, All()`next, All()`prev, All()`inList
      ensures Valid()
      ensures if old(tiers.second) == [] then n == null && All() == [] && old(All()) == []
              else n == old(tiers.second[0]) && tiers == T.Erased(old(tiers), n)
      ensures n != null ==> !n.inList && n.next == null && n.prev == null
    {
      if secondTierHead == null {
        return null;
      }
      n := secondTierHead;
      ghost var t := tiers;
      assert t.All()[|t.first|] == n;
      ghost var k := T.ErasedRemovesOne(t, n);
      EraseSecond();
      tiers := T.Erased(t, n);
      Unlink(n, t.All(), k);
    }

    /** Takes a given run out of the list. */
    method Erase(n: RunSlots)
      requires Valid() && n in All()
      modifies this, All()`next, All()`prev, n`inList
      ensures Valid() && tiers == T.Erased(old(tiers), n)
      ensures !n.inList && n.next == null && n.prev == null
    {
      ghost var t := tiers;
      ghost var k := T.ErasedRemovesOne(t, n);
      EraseHeads(n);
      tiers := T.Erased(t, n);
      Unlink(n, t.All(), k);
    }

    /** The pointers of `Erase`: whichever of them shows the run moves on. */
    method EraseHeads(n: RunSlots)
      requires Valid() && n in All()
      modifies `firstTierHead, `secondTierHead, `secondTierTail, `thirdTierHead
      ensures HeadsOf(T.Erased(tiers, n))
    {
      ghost var t := tiers;
      if n == firstTierHead {
        FirstHeadErased(t, All(), n);
        firstTierHead := firstTierHead.next;
        if firstTierHead != null && firstTierHead == secondTierHead {
          firstTierHead := null;
        }
      } else if n == secondTierHead {
        T.ErasedAtEnds(t, n);
        EraseSecond();
      } else if n == secondTierTail {
        SecondTailErased(t, All(), n);
        secondTierTail := secondTierTail.prev;
      } else if n == thirdTierHead {
        ThirdHeadErased(t, All(), n);
        thirdTierHead := thirdTierHead.next;
      } else {
        InteriorErased(t, n);
      }
    }

    /** The pointers of the middle tier without its first run. */
    method EraseSecond()
      requires Valid() && tiers.second != []
      modifies `firstTierHead, `secondTierHead, `secondTierTail, `thirdTierHead
      ensures HeadsOf(if |tiers.second| == 1 then T.Refilled(tiers) else tiers.(second := tiers.second[1..]))
    {
      ghost var t, s := tiers, All();
      TierLinks(t, s, |t.first|);
      T.InOneTier(t, t.second[0]);
      if secondTierHead != secondTierTail {
        secondTierHead := secondTierHead.next;
        return;
      }
      if t.third != [] {
        TierLinks(t, s, |t.first| + 1);
      }
      var newHead := secondTierHead.next;
      if newHead == thirdTierHead && thirdTierHead != null {
        thirdTierHead := thirdTierHead.next;
      } else if newHead == null {
        newHead := secondTierHead.prev;
        if newHead == firstTierHead && firstTierHead != null {
          firstTierHead := null;
        }
      }
      secondTierHead := newHead;
      secondTierTail := newHead;
    }
  }

  /** A run that no pointer shows leaves all four where they are. */
  lemma InteriorErased(t: T.Tiers<RunSlots>, n: RunSlots)
    requires Distinct(t.All()) && n in t.All()
    requires n != At(t.first, 0) && n != At(t.second, 0) && n != At(t.second, |t.second| - 1) && n != At(t.third, 0)
    ensures var u := T.Erased(t, n);
      && At(u.first, 0) == At(t.first, 0) && At(u.third, 0) == At(t.third, 0)
      && At(u.second, 0) == At(t.second, 0) && At(u.second, |u.second| - 1) == At(t.second, |t.second| - 1)
  {
    T.InOneTier(t, n);
    if n in t.first {
      T.WithoutEnds(t.first, n);
    } else if n in t.second {
      T.WithoutEnds(t.second, n);
    } else {
      T.WithoutEnds(t.third, n);
    }
  }

  /** Where a run of the list stands in its tier, and which neighbours it has there. */
  lemma TierLinks(t: T.Tiers<RunSlots>, s: seq<RunSlots>, k: nat)
    requires s == t.All() && Listed(s) && k < |s|
    ensures var f, m := |t.first|, |t.second|;
      if k < f then s[k] == t.first[k] && s[k].next == (if k + 1 < f then t.first[k + 1] else At(t.second + t.third, 0))
      else if k < f + m then
        && s[k] == t.second[k - f]
        && s[k].next == (if k + 1 < f + m then t.second[k + 1 - f] else At(t.third, 0))
        && s[k].prev == (if k > f then t.second[k - 1 - f] else At(t.first, f - 1))
      else s[k] == t.third[k - f - m] && s[k].next == At(t.third, k - f - m + 1)
  {
    assert LinkedAt(s, k);
  }

  /** The pointer to the first tier moves on, and falls to null where the tier ends. */
  lemma FirstHeadErased(t: T.Tiers<RunSlots>, s: seq<RunSlots>, n: RunSlots)
    requires s == t.All() && Listed(s) && t.Filled() && n == At(t.first, 0)
    ensures var u := T.Erased(t, n);
      && u.second == t.second && u.third == t.third && n.next != null
      && At(u.first, 0) == if n.next == At(t.second, 0) then null else n.next
  {
    TierLinks(t, s, 0);
    T.ErasedAtEnds(t, n);
    if |t.first| > 1 { TierLinks(t, s, 1); T.InOneTier(t, t.first[1]); }
  }

  /** The pointer to the middle tier's end moves back. */
  lemma SecondTailErased(t: T.Tiers<RunSlots>, s: seq<RunSlots>, n: RunSlots)
    requires s == t.All() && Listed(s) && n == At(t.second, |t.second| - 1) != At(t.second, 0)
    ensures var u := T.Erased(t, n);
      && u.first == t.first && u.third == t.third
      && At(u.second, 0) == At(t.second, 0) && At(u.second, |u.second| - 1) == n.prev
  {
    TierLinks(t, s, |t.first| + |t.second| - 1);
    T.InOneTier(t, n);
    T.ErasedAtEnds(t, n);
  }

  /** The pointer to the third tier moves on. */
  lemma ThirdHeadErased(t: T.Tiers<RunSlots>, s: seq<RunSlots>, n: RunSlots)
    requires s == t.All() && Listed(s) && n == At(t.third, 0)
    ensures var u := T.Erased(t, n);
      u.first == t.first && u.second == t.second && At(u.third, 0) == n.next
  {
    TierLinks(t, s, |t.first| + |t.second|);
    T.ErasedAtEnds(t, n);
  }
}
