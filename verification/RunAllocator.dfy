/**
 The allocator for one slot size, as the code that changes its fields. Free lists and the three-tier
 list appear as the sequences that their heap forms represent.
 */
module RunAllocators {
  import opened Collections
  import opened FL = FreeLists
  import opened SP = SlotPools
  import opened RS = RunAllocSpecs
  import T = ThreeTierLists

  class SizeClass {
    const contentOffset: nat // from the start of a run to its first slot
    const slotSize: nat
    const maxSlots: nat
    var runs: map<Addr, Run>
    var nonFull: T.Tiers<Addr>
    var mine: seq<Addr> // the mutator's list
    var mineSize: nat
    var current: Addr // the mutator's run, or null
    var live: set<Addr> // slots with the header of an object
    ghost var owner: map<Addr, Addr>

    ghost function P(): Pool
      reads this
    {
      Pool(runs, nonFull, mine, current, live, owner)
    }

    function Sh(): Shape {
      Shape(contentOffset, slotSize, maxSlots)
    }

    ghost predicate Valid()
      reads this
    {
      Right(Sh(), P()) && mineSize == |mine|
    }

    constructor (contentOffset: nat, slotSize: nat, maxSlots: nat)
      requires slotSize > 0 && maxSlots > 0
      ensures Valid() && live == {} && runs == map[] && current == 0
    {
      this.contentOffset, this.slotSize, this.maxSlots := contentOffset, slotSize, maxSlots;
      runs, nonFull, mine, mineSize, current, live, owner := map[], T.Tiers([], [], []), [], 0, 0, {}, map[];
    }

    // ---------------------------------------------------------------- steps of an allocation

    /** Takes a slot from the mutator's list and writes the header of the new object. */
    method Alloc() returns (a: Addr)
      requires mineSize == |mine|
      modifies `mine, `mineSize, `live
      ensures (P(), a) == Taken(old(P())) && mineSize == |mine|
    {
      if mine == [] {
        return 0;
      }
      a := mine[0];
      mine, mineSize, live := mine[1..], mineSize - 1, live + {a};
    }

    /** Makes `r` the mutator's run and moves its free slots to the mutator's list. */
    method Localise(r: Addr)
      requires r in runs && runs[r].nFree == |runs[r].free| && mineSize == |mine|
      modifies `mine, `mineSize, `current, `runs
      ensures P() == Localised(old(P()), r) && mineSize == |mine|
    {
      mine := runs[r].free + mine;
      mineSize := mineSize + runs[r].nFree;
      runs := runs[r := runs[r].(free := [], nFree := 0, local := true)];
      current := r;
    }

    /** Gives the mutator's run back, with whatever slots of it the mutator still has. */
    method Globalise(r: Addr)
      requires r == current && r in runs && mineSize == |mine|
      modifies `mine, `mineSize, `current, `runs
      ensures P() == Globalised(old(P())) && mineSize == |mine|
    {
      assert [] + runs[r].free == runs[r].free;
      if mineSize != 0 {
        runs := runs[r := runs[r].(free := mine + runs[r].free, nFree := runs[r].nFree + mineSize)];
        mine, mineSize := [], 0;
      }
      runs := runs[r := runs[r].(local := false)];
      current := 0;
    }

    /** A run with free slots: a partly free one, unless a sweep goes on, or one on fresh pages. */
    method FetchOrAllocRun(sweeping: bool, page: Addr) returns (r: Addr)
      requires ListRight(P())
      modifies `runs, `nonFull, `owner
      ensures (P(), r) == RunFetched(Sh(), old(P()), sweeping, page)
    {
      if !sweeping && nonFull.second != [] {
        r := nonFull.second[0];
        assert r == nonFull.All()[|nonFull.first|];
        nonFull := T.Erased(nonFull, r);
        runs := runs[r := runs[r].(inList := false)];
      } else {
        r := page;
        if page != 0 {
          var free := ThreadSlots(page + contentOffset);
          runs := runs[page := Run(free, maxSlots, false, false)];
          owner := owner + map a | a in Slots(Sh(), page) :: page;
        }
      }
    }

    /** The free list of a new run. */
    method ThreadSlots(first: Addr) returns (free: seq<Addr>)
      ensures free == SlotsFrom(first, slotSize, maxSlots)
    {
      free := [];
      var a: Addr, k: nat := first, 0;
      while k < maxSlots
        invariant k <= maxSlots
        invariant free + SlotsFrom(a, slotSize, maxSlots - k) == SlotsFrom(first, slotSize, maxSlots)
      {
        free := free + [a];
        a, k := a + slotSize, k + 1;
      }
    }

    /**
     A slot for a new object, or null when there was none and no page was left.
     It never holds an object already.
     */
    method AllocFromLocalRun(sweeping: bool, page: Addr) returns (a: Addr)
      requires Valid() && (page != 0 ==> FreshPages(Sh(), P(), page))
      modifies this
      ensures Valid() && (P(), a) == AllocatedFrom(Sh(), old(P()), sweeping, page)
      ensures if a == 0 then page == 0 && live == old(live) else a !in old(live) && live == old(live) + {a}
    {
      AllocationRight(Sh(), P(), sweeping, page);
      forall b | b in mine ensures b != 0 {
        assert SlotRight(P(), b);
      }
      a := FindSlot(sweeping, page);
    }

    method FindSlot(sweeping: bool, page: Addr) returns (a: Addr)
      requires RunsRight(P()) && ListRight(P()) && 0 !in mine && mineSize == |mine| && (page != 0 ==> page !in runs)
      modifies this
      ensures (P(), a) == AllocatedFrom(Sh(), old(P()), sweeping, page) && mineSize == |mine|
    {
      if current != 0 {
        a := Alloc();
        if a != 0 {
          return;
        }
        assert RunRight(P(), current);
        if runs[current].nFree == 0 {
          Globalise(current);
        } else {
          Localise(current);
          a := Alloc();
          return;
        }
      }
      var r := FetchOrAllocRun(sweeping, page);
      if r == 0 {
        return 0;
      }
      Localise(r);
      a := Alloc();
    }

    // ---------------------------------------------------------------- sweeping

    /** Frees one slot. */
    method FreeSlot(r: Addr, a: Addr)
      requires r in runs
      modifies `runs, `live
      ensures P() == Freed(old(P()), r, a)
    {
      runs := runs[r := runs[r].(free := [a] + runs[r].free, nFree := runs[r].nFree + 1)];
      live := live - {a};
    }

    /** Visits the slots of a run in order and frees those whose object is not marked. */
    method FreeUnmarked(r: Addr, marked: set<Addr>)
      requires r in runs
      modifies `runs, `live
      ensures P() == SweptRun(Sh(), old(P()), r, marked)
    {
      if runs[r].nFree == maxSlots {
        return;
      }
      var a: Addr, k: nat := r + contentOffset, 0;
      while k < maxSlots
        invariant k <= maxSlots && r in runs && nonFull == old(nonFull) && mine == old(mine) && current == old(current)
        invariant owner == old(owner)
        invariant SweptSlots(P(), r, SlotsFrom(a, slotSize, maxSlots - k), marked) ==
          SweptSlots(old(P()), r, Slots(Sh(), r), marked)
      {
        if a in live && a !in marked {
          FreeSlot(r, a);
        }
        a, k := a + slotSize, k + 1;
      }
    }

    /** Puts the run where it now belongs, and says whether its pages can go. */
    method UpdateGlobalsAfterFree(r: Addr, wasFull: bool) returns (needRemove: bool)
      requires r in runs && maxSlots > 0 && (runs[r].inList ==> r in nonFull.All())
      modifies `runs, `nonFull
      ensures (P(), needRemove) == Reclassified(Sh(), old(P()), r, wasFull)
    {
      needRemove := false;
      if runs[r].local {
        return;
      }
      if runs[r].nFree == maxSlots {
        var wasInNonFullRuns := false;
        if runs[r].inList {
          wasInNonFullRuns := true;
          nonFull := T.Erased(nonFull, r);
          runs := runs[r := runs[r].(inList := false)];
        }
        if wasInNonFullRuns || wasFull {
          needRemove := true;
        }
      } else if wasFull && runs[r].nFree != 0 {
        nonFull := T.Inserted(nonFull, r, TierFor(Sh(), runs[r].nFree));
        runs := runs[r := runs[r].(inList := true)];
      }
    }

    /** Gives the pages of an empty run back. */
    method FreeRun(r: Addr)
      requires r in runs
      modifies `runs, `owner
      ensures P() == RunRemoved(old(P()), r)
    {
      runs := runs - {r};
      owner := map a | a in owner && owner[a] != r :: owner[a];
    }

    /** The sweep of one run while the world is stopped. */
    method SweepRun(r: Addr, marked: set<Addr>) returns (removed: bool)
      requires Valid() && r in runs
      modifies this
      ensures Valid() && (P(), removed) == Swept(Sh(), old(P()), r, marked)
      ensures live == old(live) - old(DeadIn(P(), r, marked))
    {
      SweepRight(Sh(), P(), r, marked);
      SweptRunRight(Sh(), P(), r, marked);
      assert RunRight(SweptRun(Sh(), P(), r, marked), r);
      var wasFull := runs[r].nFree == 0;
      FreeUnmarked(r, marked);
      removed := UpdateGlobalsAfterFree(r, wasFull);
      if removed {
        FreeRun(r);
      }
    }

    /** The sweep of one run by a worker while the mutator goes on. */
    method ConcurrentSweepRun(r: Addr, marked: set<Addr>) returns (removed: bool)
      requires Valid() && r in runs
      modifies this
      ensures Valid() && (P(), removed) == Swept(Sh(), old(P()), r, marked)
      ensures live == old(live) - old(DeadIn(P(), r, marked))
    {
      SweepRight(Sh(), P(), r, marked);
      SweepsAgree(Sh(), P(), r, marked);
      SweptRunRight(Sh(), P(), r, marked);
      assert RunRight(P(), r) && RunRight(SweptRun(Sh(), P(), r, marked), r);
      var wasFull := runs[r].nFree == 0;
      var locked := runs[r].inList;
      FreeUnmarked(r, marked);
      if locked {
        removed := runs[r].nFree == maxSlots;
        if removed {
          nonFull := T.Erased(nonFull, r);
          runs := runs[r := runs[r].(inList := false)];
          FreeRun(r);
        }
        return;
      }
      removed := UpdateGlobalsAfterFree(r, wasFull);
      if removed {
        FreeRun(r);
      }
    }

    /** Before a concurrent sweep, the mutator's own run is swept. */
    method SweepLocalRun(marked: set<Addr>)
      requires Valid()
      modifies `runs, `live
      ensures Valid()
      ensures live == old(live) - if current != 0 then old(DeadIn(P(), current, marked)) else {}
    {
      if current != 0 {
        LocalSweepRight(Sh(), P(), marked);
        FreeUnmarked(current, marked);
      }
    }

    /** Whether no slot of the run holds an object. */
    method LocalRunIsEmpty(r: Addr) returns (empty: bool)
      requires Valid() && r in runs
      ensures empty <==> LiveIn(P(), r) == {}
    {
      if runs[r].nFree == maxSlots {
        FreeRunHasNoObject(Sh(), P(), r);
        return true;
      }
      SlotsOfRun(Sh(), P(), r);
      empty := NoHeaderIn(r);
      if !empty {
        ghost var a :| a in Slots(Sh(), r) && a in live;
        assert a in LiveIn(P(), r);
      }
    }

    method NoHeaderIn(r: Addr) returns (none: bool)
      ensures none <==> forall a :: a in Slots(Sh(), r) ==> a !in live
    {
      ghost var s := Slots(Sh(), r);
      var a: Addr, k: nat := r + contentOffset, 0;
      while k < maxSlots
        invariant k <= maxSlots && s[k..] == SlotsFrom(a, slotSize, maxSlots - k)
        invariant forall i :: 0 <= i < k ==> s[i] !in live
      {
        assert s[k] == s[k..][0] == a;
        if a in live {
          return false;
        }
        a, k := a + slotSize, k + 1;
        assert s[k..] == s[k - 1..][1..];
      }
      return true;
    }

    /** Gives the mutator's run back when it holds no object. */
    method ReleaseEmptyLocalRun()
      requires Valid()
      modifies this
      ensures Valid() && P() == LocalReleased(old(P())) && live == old(live)
    {
      LocalReleaseRight(Sh(), P());
      if current != 0 {
        var empty := LocalRunIsEmpty(current);
        if empty {
          var r := current;
          current := 0;
          mineSize := 0;
          mine := [];
          FreeRun(r);
        }
      }
    }
  }
}
