/**
 The compound operations of a size class, as values: how a slot for a new object is found, and what a
 sweep of one run does. Each keeps the invariant of the pool, never hands out an allocated slot, and
 frees exactly the dead objects.
 */
module RunAllocSpecs {
  import opened Collections
  import opened FL = FreeLists
  import opened SP = SlotPools
  import T = ThreeTierLists
  import RL = RunLists

  /** Where the slots of a run lie. */
  datatype Shape = Shape(contentOffset: nat, slotSize: nat, maxSlots: nat)

  ghost function Slots(sh: Shape, r: Addr): seq<Addr> {
    SlotsFrom(r + sh.contentOffset, sh.slotSize, sh.maxSlots)
  }

  /** The slots that `owner` knows are those of the runs `rs`, and no slot is in two runs. */
  ghost predicate Geometry(sh: Shape, rs: set<Addr>, owner: map<Addr, Addr>) {
    && (forall a :: a in owner ==> owner[a] in rs && a in Slots(sh, owner[a]))
    && (forall r, a :: r in rs && a in Slots(sh, r) ==> a in owner && owner[a] == r)
  }

  ghost predicate RightBut(sh: Shape, p: Pool, d: Addr) {
    && sh.maxSlots > 0 && sh.slotSize > 0
    && Geometry(sh, p.runs.Keys, p.owner) && ValidBut(p, d, sh.maxSlots)
  }

  /** The invariant of a size class. */
  ghost predicate Right(sh: Shape, p: Pool) {
    RightBut(sh, p, 0)
  }

  // ------------------------------------------------------------------ allocation

  /** Pages that no run uses. */
  ghost predicate FreshPages(sh: Shape, p: Pool, page: Addr) {
    page !in p.runs && page != p.current && forall a :: a in Slots(sh, page) ==> a !in p.owner
  }

  ghost function Taken(p: Pool): (Pool, Addr) {
    if p.mine == [] then (p, 0) else (Allocated(p), p.mine[0])
  }

  /** A run with free slots: a partly free one, unless a sweep goes on, or one on fresh pages. */
  ghost function RunFetched(sh: Shape, p: Pool, sweeping: bool, page: Addr): (Pool, Addr)
    requires ListRight(p)
  {
    if !sweeping && p.nonFull.second != [] then
      assert p.nonFull.All()[|p.nonFull.first|] == p.nonFull.second[0];
      (Unlisted(p, p.nonFull.second[0]), p.nonFull.second[0])
    else if page != 0 then (RunAdded(p, page, Slots(sh, page)), page)
    else (p, 0)
  }

  lemma RunFetchedRight(sh: Shape, p: Pool, sweeping: bool, page: Addr)
    requires Right(sh, p) && p.current == 0 && (page != 0 ==> FreshPages(sh, p, page))
    ensures var (q, r) := RunFetched(sh, p, sweeping, page);
      && q.live == p.live && q.current == 0 && q.mine == p.mine
      && (if r == 0 then page == 0 && q == p
          else RightBut(sh, q, r) && r in q.runs && !q.runs[r].inList && q.runs[r].free != [])
  {
    if !sweeping && p.nonFull.second != [] {
      var r := p.nonFull.second[0];
      assert r == p.nonFull.All()[|p.nonFull.first|];
      assert RunRight(p, r) && Classified(p, r, sh.maxSlots);
      UnlistedValid(p, r, sh.maxSlots);
      assert Unlisted(p, r).runs.Keys == p.runs.Keys;
    } else if page != 0 {
      RunAddedRight(sh, p, page);
    }
  }

  lemma GeometryGrows(sh: Shape, rs: set<Addr>, owner: map<Addr, Addr>, page: Addr, slots: seq<Addr>)
    requires Geometry(sh, rs, owner) && page !in rs && slots == Slots(sh, page)
    requires forall a :: a in slots ==> a !in owner
    ensures Geometry(sh, rs + {page}, owner + map a | a in slots :: page)
  {
  }

  lemma NewSlots(sh: Shape, page: Addr)
    requires sh.slotSize > 0 && page != 0
    ensures Distinct(Slots(sh, page)) && forall a :: a in Slots(sh, page) ==> a != 0
  {
    SlotsIncrease(page + sh.contentOffset, sh.slotSize, sh.maxSlots);
  }

  lemma RunAddedRight(sh: Shape, p: Pool, page: Addr)
    requires Right(sh, p) && p.current == 0 && page != 0 && FreshPages(sh, p, page)
    ensures RightBut(sh, RunAdded(p, page, Slots(sh, page)), page)
  {
    var slots := Slots(sh, page);
    NewSlots(sh, page);
    GeometryGrows(sh, p.runs.Keys, p.owner, page, slots);
    RunAddedValid(p, page, slots, sh.maxSlots);
    assert RunAdded(p, page, slots).runs.Keys == p.runs.Keys + {page};
  }

  /**
   A slot for a new object. It comes from the mutator's list; when that is empty, from what sweeps
   have given back to the mutator's run, then from another run. Null means that no page was left.
   */
  ghost function AllocatedFrom(sh: Shape, p: Pool, sweeping: bool, page: Addr): (Pool, Addr)
    requires ListRight(p) && (p.current != 0 ==> p.current in p.runs)
  {
    if p.current != 0 && p.mine != [] then Taken(p)
    else if p.current != 0 && p.runs[p.current].nFree != 0 then Taken(Localised(p, p.current))
    else
      var (q, r) := RunFetched(sh, if p.current != 0 then Globalised(p) else p, sweeping, page);
      if r == 0 || r !in q.runs then (q, 0) else Taken(Localised(q, r))
  }

  lemma TakenRight(sh: Shape, p: Pool)
    requires Right(sh, p)
    ensures var (q, a) := Taken(p);
      && Right(sh, q) && q.runs == p.runs && (a == 0 <==> p.mine == [])
      && (if a == 0 then q == p
          else a !in p.live && q.live == p.live + {a} && p.current != 0 && a in q.owner && q.owner[a] == q.current)
  {
    if p.mine != [] {
      AllocatedValid(p, sh.maxSlots);
      assert SlotRight(p, p.mine[0]);
    }
  }

  lemma LocalisedRight(sh: Shape, p: Pool, r: Addr)
    requires RightBut(sh, p, r) && r in p.runs && !p.runs[r].inList && (p.current == 0 || p.current == r)
    requires p.runs[r].nFree != 0
    ensures Right(sh, Localised(p, r)) && Localised(p, r).mine != []
  {
    LocalisedValid(p, r, sh.maxSlots);
    assert RunRight(p, r);
    assert Localised(p, r).runs.Keys == p.runs.Keys;
  }

  lemma GlobalisedRight(sh: Shape, p: Pool)
    requires Right(sh, p) && p.current != 0 && p.mine == [] && p.runs[p.current].nFree == 0
    ensures Right(sh, Globalised(p)) && Globalised(p).runs.Keys == p.runs.Keys
  {
    GlobalisedValid(p, sh.maxSlots);
    assert Classified(p, p.current, sh.maxSlots) && Classified(Globalised(p), p.current, sh.maxSlots);
  }

  /** Allocation keeps the invariant, and never hands out a slot that already holds an object. */
  lemma AllocationRight(sh: Shape, p: Pool, sweeping: bool, page: Addr)
    requires Right(sh, p) && (page != 0 ==> FreshPages(sh, p, page))
    ensures var (q, a) := AllocatedFrom(sh, p, sweeping, page);
      && Right(sh, q)
      && (if a == 0 then page == 0 && q.live == p.live
          else a !in p.live && q.live == p.live + {a} && a in q.owner && q.owner[a] == q.current != 0)
  {
    if p.current != 0 && p.mine != [] {
      TakenRight(sh, p);
    } else if p.current != 0 && p.runs[p.current].nFree != 0 {
      assert Classified(p, p.current, sh.maxSlots);
      LocalisedRight(sh, p, p.current);
      TakenRight(sh, Localised(p, p.current));
    } else {
      if p.current != 0 {
        GlobalisedRight(sh, p);
      } else {
        NoRunNoSlots(p, sh.maxSlots);
      }
      AnotherRunRight(sh, if p.current != 0 then Globalised(p) else p, sweeping, page);
    }
  }

  lemma AnotherRunRight(sh: Shape, p: Pool, sweeping: bool, page: Addr)
    requires Right(sh, p) && p.current == 0 && p.mine == [] && (page != 0 ==> FreshPages(sh, p, page))
    ensures var (q, r) := RunFetched(sh, p, sweeping, page);
      if r == 0 then page == 0 && q == p
      else
        && r in q.runs
        && var (t, a) := Taken(Localised(q, r));
          && Right(sh, t) && a !in p.live && t.live == p.live + {a}
          && a in t.owner && a != 0 && t.owner[a] == t.current == r
  {
    RunFetchedRight(sh, p, sweeping, page);
    var (q, r) := RunFetched(sh, p, sweeping, page);
    if r != 0 {
      assert RunRight(q, r);
      LocalisedRight(sh, q, r);
      TakenRight(sh, Localised(q, r));
    }
  }

  /** Without a run of its own the mutator has no slots. */
  lemma NoRunNoSlots(p: Pool, maxSlots: nat)
    requires SP.Valid(p, maxSlots) && p.current == 0
    ensures p.mine == []
  {
    assert p.mine != [] ==> SlotRight(p, p.mine[0]);
  }

  // ------------------------------------------------------------------ sweeping

  /** The objects of run `r` that are not marked. */
  ghost function DeadIn(p: Pool, r: Addr, marked: set<Addr>): set<Addr> {
    set a | a in p.live && a in p.owner && p.owner[a] == r && a !in marked
  }

  /** Visits the slots in order and frees those whose object is not marked. */
  ghost function SweptSlots(p: Pool, r: Addr, slots: seq<Addr>, marked: set<Addr>): (q: Pool)
    requires r in p.runs
    ensures q.runs.Keys == p.runs.Keys
    decreases |slots|
  {
    if slots == [] then p
    else
      var q := if slots[0] in p.live && slots[0] !in marked then Freed(p, r, slots[0]) else p;
      SweptSlots(q, r, slots[1..], marked)
  }

  /** What sweeping frees, and what it leaves alone. */
  lemma {:induction false} SweptSlotsFree(p: Pool, r: Addr, slots: seq<Addr>, marked: set<Addr>)
    requires r in p.runs
    ensures var q := SweptSlots(p, r, slots, marked);
      && q == p.(live := q.live, runs := q.runs)
      && (forall a :: a in q.live <==> a in p.live && (a !in slots || a in marked))
      && q.runs[r].local == p.runs[r].local && q.runs[r].inList == p.runs[r].inList
      && (q == p || q.runs[r].nFree > 0)
    decreases |slots|
  {
    if slots != [] {
      var a := slots[0];
      assert forall b :: b in slots <==> b == a || b in slots[1..];
      SweptSlotsFree(if a in p.live && a !in marked then Freed(p, r, a) else p, r, slots[1..], marked);
      if a in p.live && a !in marked { SweptSlotsGrow(Freed(p, r, a), r, slots[1..], marked); }
    }
  }

  lemma {:induction false} SweptSlotsGrow(p: Pool, r: Addr, slots: seq<Addr>, marked: set<Addr>)
    requires r in p.runs
    ensures SweptSlots(p, r, slots, marked).runs[r].nFree >= p.runs[r].nFree
    decreases |slots|
  {
    if slots != [] {
      var q := if slots[0] in p.live && slots[0] !in marked then Freed(p, r, slots[0]) else p;
      SweptSlotsGrow(q, r, slots[1..], marked);
    }
  }

  lemma {:induction false} SweptSlotsValid(p: Pool, r: Addr, slots: seq<Addr>, marked: set<Addr>, maxSlots: nat)
    requires ValidBut(p, r, maxSlots) && r in p.runs && forall a :: a in slots ==> a in p.owner && p.owner[a] == r
    ensures ValidBut(SweptSlots(p, r, slots, marked), r, maxSlots)
    decreases |slots|
  {
    if slots != [] {
      var a := slots[0];
      if a in p.live && a !in marked {
        FreedValid(p, r, a, maxSlots);
        SweptSlotsValid(Freed(p, r, a), r, slots[1..], marked, maxSlots);
      } else {
        SweptSlotsValid(p, r, slots[1..], marked, maxSlots);
      }
    }
  }

  /** Where a run belongs after slots of it were freed; the flag says that its pages can go. */
  ghost function Reclassified(sh: Shape, p: Pool, r: Addr, wasFull: bool): (Pool, bool)
    requires r in p.runs && (p.runs[r].inList ==> r in p.nonFull.All()) && sh.maxSlots > 0
  {
    var run := p.runs[r];
    if run.local then (p, false)
    else if run.nFree == sh.maxSlots then (if run.inList then Unlisted(p, r) else p, run.inList || wasFull)
    else if wasFull && run.nFree != 0 then (Listed(p, r, TierFor(sh, run.nFree)), false)
    else (p, false)
  }

  function TierFor(sh: Shape, nFree: nat): T.Tier
    requires sh.maxSlots > 0
  {
    RL.TierOf(1.0 - nFree as real / sh.maxSlots as real)
  }

  /** The slots of a run swept one after the other, unless the run knows itself to be empty. */
  ghost function SweptRun(sh: Shape, p: Pool, r: Addr, marked: set<Addr>): Pool
    requires r in p.runs
  {
    if p.runs[r].nFree == sh.maxSlots then p else SweptSlots(p, r, Slots(sh, r), marked)
  }

  /** The sweep of one run. The flag says that nothing was left and its pages went back. */
  ghost function Swept(sh: Shape, p: Pool, r: Addr, marked: set<Addr>): (Pool, bool)
    requires Right(sh, p) && r in p.runs
  {
    SweptRunRight(sh, p, r, marked);
    Settled(sh, SweptRun(sh, p, r, marked), r, p.runs[r].nFree == 0)
  }

  /** The run goes where it now belongs: into the list, out of it, or back to the page tree. */
  ghost function Settled(sh: Shape, p: Pool, r: Addr, wasFull: bool): (Pool, bool)
    requires r in p.runs && (p.runs[r].inList ==> r in p.nonFull.All()) && sh.maxSlots > 0
  {
    var (q, empty) := Reclassified(sh, p, r, wasFull);
    if empty then (RunRemoved(q, r), true) else (q, false)
  }

  lemma SlotsOfRun(sh: Shape, p: Pool, r: Addr)
    requires RightBut(sh, p, r) && r in p.runs
    ensures Distinct(Slots(sh, r)) && forall a :: a in Slots(sh, r) <==> a in p.owner && p.owner[a] == r
  {
    SlotsIncrease(r + sh.contentOffset, sh.slotSize, sh.maxSlots);
  }

  /** A run whose every slot is in its free list holds no object. */
  lemma FreeRunHasNoObject(sh: Shape, p: Pool, r: Addr)
    requires RightBut(sh, p, r) && r in p.runs && p.runs[r].nFree == sh.maxSlots
    ensures LiveIn(p, r) == {}
  {
    SlotsOfRun(sh, p, r);
    assert RunRight(p, r);
    var slots, free := AsSet(Slots(sh, r)), AsSet(p.runs[r].free);
    DistinctSize(Slots(sh, r));
    DistinctSize(p.runs[r].free);
    SubsetSize(free, slots);
    forall a | a in slots ensures a !in p.live {
      assert SlotRight(p, a);
    }
  }

  /** And when the mutator has none of its slots, a run without objects is all free. */
  lemma RunWithoutObjectsIsFree(sh: Shape, p: Pool, r: Addr)
    requires RightBut(sh, p, r) && r in p.runs && r != p.current && LiveIn(p, r) == {}
    ensures p.runs[r].nFree == sh.maxSlots
  {
    SlotsOfRun(sh, p, r);
    assert RunRight(p, r);
    DistinctSize(Slots(sh, r));
    DistinctSize(p.runs[r].free);
    forall a ensures a in AsSet(Slots(sh, r)) <==> a in AsSet(p.runs[r].free) {
      if a in AsSet(Slots(sh, r)) {
        assert SlotRight(p, a) && a !in LiveIn(p, r);
      }
    }
    assert AsSet(p.runs[r].free) == AsSet(Slots(sh, r));
  }

  lemma ReclassifiedRight(sh: Shape, p: Pool, r: Addr, wasFull: bool)
    requires RightBut(sh, p, r) && r in p.runs
    requires r == p.current ==> !p.runs[r].inList
    requires r != p.current ==> p.runs[r].inList == !wasFull
    ensures RunRight(p, r)
    ensures var (q, empty) := Reclassified(sh, p, r, wasFull);
      && RightBut(sh, q, r) && q.live == p.live && q.runs.Keys == p.runs.Keys
      && q.owner == p.owner && q.current == p.current
      && (if empty then r != q.current && !q.runs[r].inList else wasFull || p.runs[r].nFree > 0 ==> Right(sh, q))
      && (empty <==> r != p.current && p.runs[r].nFree == sh.maxSlots)
  {
    assert RunRight(p, r);
    var run := p.runs[r];
    if run.local {
    } else if run.nFree == sh.maxSlots {
      if run.inList {
        UnlistedValid(p, r, sh.maxSlots);
        assert Unlisted(p, r).runs.Keys == p.runs.Keys;
      }
    } else if wasFull && run.nFree != 0 {
      FewerThanAll(sh, p, r);
      ListedValid(p, r, TierFor(sh, run.nFree), sh.maxSlots);
      assert Listed(p, r, TierFor(sh, run.nFree)).runs.Keys == p.runs.Keys;
    } else {
      FewerThanAll(sh, p, r);
    }
  }

  lemma FewerThanAll(sh: Shape, p: Pool, r: Addr)
    requires RightBut(sh, p, r) && r in p.runs
    ensures p.runs[r].nFree <= sh.maxSlots
  {
    SlotsOfRun(sh, p, r);
    assert RunRight(p, r);
    DistinctSize(Slots(sh, r));
    DistinctSize(p.runs[r].free);
    SubsetSize(AsSet(p.runs[r].free), AsSet(Slots(sh, r)));
  }

  lemma SweptRunRight(sh: Shape, p: Pool, r: Addr, marked: set<Addr>)
    requires RightBut(sh, p, r) && r in p.runs
    ensures var q := SweptRun(sh, p, r, marked);
      && RightBut(sh, q, r) && q.live == p.live - DeadIn(p, r, marked) && q == p.(live := q.live, runs := q.runs)
      && q.runs.Keys == p.runs.Keys && q.runs[r].inList == p.runs[r].inList && (q == p || q.runs[r].nFree > 0)
  {
    if p.runs[r].nFree == sh.maxSlots {
      FreeRunHasNoObject(sh, p, r);
      assert DeadIn(p, r, marked) <= LiveIn(p, r);
    } else {
      SlotsOfRun(sh, p, r);
      SweptSlotsValid(p, r, Slots(sh, r), marked, sh.maxSlots);
      SweptSlotsFree(p, r, Slots(sh, r), marked);
    }
  }

  lemma RunRemovedRight(sh: Shape, p: Pool, r: Addr)
    requires RightBut(sh, p, r) && r in p.runs && r != p.current && !p.runs[r].inList && LiveIn(p, r) == {}
    ensures Right(sh, RunRemoved(p, r))
  {
    forall a | a in p.owner && p.owner[a] == r ensures a !in p.live {
      assert a !in LiveIn(p, r);
    }
    RunRemovedValid(p, r, sh.maxSlots);
    assert RunRemoved(p, r).runs.Keys == p.runs.Keys - {r};
    GeometryShrinks(sh, p.runs.Keys, p.owner, r);
  }

  lemma GeometryShrinks(sh: Shape, rs: set<Addr>, owner: map<Addr, Addr>, r: Addr)
    requires Geometry(sh, rs, owner)
    ensures Geometry(sh, rs - {r}, map a | a in owner && owner[a] != r :: owner[a])
  {
  }

  lemma SettledRight(sh: Shape, p: Pool, r: Addr, wasFull: bool)
    requires RightBut(sh, p, r) && r in p.runs && RunRight(p, r)
    requires if r == p.current then !p.runs[r].inList
             else p.runs[r].inList == !wasFull && (wasFull || p.runs[r].nFree > 0)
    ensures var (q, removed) := Settled(sh, p, r, wasFull);
      && Right(sh, q) && q.live == p.live && q.current == p.current && q.mine == p.mine
      && q.runs.Keys == p.runs.Keys - (if removed then {r} else {})
      && (removed <==> r != p.current && LiveIn(p, r) == {})
  {
    ReclassifiedRight(sh, p, r, wasFull);
    var (q, empty) := Reclassified(sh, p, r, wasFull);
    if empty {
      FreeRunHasNoObject(sh, p, r);
      assert LiveIn(q, r) == LiveIn(p, r);
      RunRemovedRight(sh, q, r);
    } else if r != p.current && LiveIn(p, r) == {} {
      RunWithoutObjectsIsFree(sh, p, r);
    }
  }

  /**
   The sweep of one run keeps the invariant, frees exactly the dead objects of that run, and gives
   its pages back exactly when it is not the mutator's and no object of it is left.
   */
  lemma SweepRight(sh: Shape, p: Pool, r: Addr, marked: set<Addr>)
    requires Right(sh, p) && r in p.runs
    ensures var (q, removed) := Swept(sh, p, r, marked);
      && Right(sh, q) && q.live == p.live - DeadIn(p, r, marked)
      && q.current == p.current && q.mine == p.mine && q.runs.Keys == p.runs.Keys - (if removed then {r} else {})
      && (removed <==> r != p.current && LiveIn(p, r) == DeadIn(p, r, marked))
  {
    assert RunRight(p, r) && Classified(p, r, sh.maxSlots);
    var q := SweptRun(sh, p, r, marked);
    SweptRunRight(sh, p, r, marked);
    SettledRight(sh, q, r, p.runs[r].nFree == 0);
    LeftAfterSweep(p, q, r, marked);
  }

  lemma LeftAfterSweep(p: Pool, q: Pool, r: Addr, marked: set<Addr>)
    requires q.live == p.live - DeadIn(p, r, marked) && q.owner == p.owner
    ensures LiveIn(q, r) == {} <==> LiveIn(p, r) == DeadIn(p, r, marked)
  {
    assert LiveIn(q, r) == LiveIn(p, r) - DeadIn(p, r, marked);
    if LiveIn(q, r) == {} {
      forall a | a in LiveIn(p, r) ensures a in DeadIn(p, r, marked) {
        assert a !in LiveIn(q, r);
      }
      assert LiveIn(p, r) == DeadIn(p, r, marked);
    }
  }

  /** The sweep of a run while the mutator goes on: a listed run is swept under its list's lock. */
  ghost function SweptConcurrently(sh: Shape, p: Pool, r: Addr, marked: set<Addr>): (Pool, bool)
    requires Right(sh, p) && r in p.runs
  {
    assert RunRight(p, r);
    SweptRunRight(sh, p, r, marked);
    var q := SweptRun(sh, p, r, marked);
    if p.runs[r].inList then
      if q.runs[r].nFree == sh.maxSlots then (RunRemoved(Unlisted(q, r), r), true) else (q, false)
    else Settled(sh, q, r, p.runs[r].nFree == 0)
  }

  /** The locked path and the path that looks at the run's flags come to the same. */
  lemma SweepsAgree(sh: Shape, p: Pool, r: Addr, marked: set<Addr>)
    requires Right(sh, p) && r in p.runs
    ensures SweptConcurrently(sh, p, r, marked) == Swept(sh, p, r, marked)
  {
    assert RunRight(p, r) && Classified(p, r, sh.maxSlots);
    SweptRunRight(sh, p, r, marked);
    assert RunRight(SweptRun(sh, p, r, marked), r);
  }

  /** Before a concurrent sweep the mutator's own run is swept; it stays the mutator's. */
  lemma LocalSweepRight(sh: Shape, p: Pool, marked: set<Addr>)
    requires Right(sh, p) && p.current != 0
    ensures var q := SweptRun(sh, p, p.current, marked);
      && Right(sh, q) && q.live == p.live - DeadIn(p, p.current, marked)
      && q.current == p.current && q.mine == p.mine && q.runs.Keys == p.runs.Keys
  {
    SweptRunRight(sh, p, p.current, marked);
    assert Classified(p, p.current, sh.maxSlots);
  }

  /** The mutator's run, if no object is left in it, goes back to the page tree with all its slots. */
  ghost function LocalReleased(p: Pool): Pool
    requires p.current != 0 ==> p.current in p.runs
  {
    if p.current != 0 && LiveIn(p, p.current) == {} then LocalDropped(p) else p
  }

  lemma LocalReleaseRight(sh: Shape, p: Pool)
    requires Right(sh, p)
    ensures Right(sh, LocalReleased(p)) && LocalReleased(p).live == p.live
  {
    if p.current != 0 && LiveIn(p, p.current) == {} {
      forall a | a in p.owner && p.owner[a] == p.current ensures a !in p.live {
        assert a !in LiveIn(p, p.current);
      }
      LocalDroppedValid(p, sh.maxSlots);
      assert LocalDropped(p).runs.Keys == p.runs.Keys - {p.current};
      GeometryShrinks(sh, p.runs.Keys, p.owner, p.current);
    }
  }

  /** In every run of a size class its slots are allocated, in the run's list or the mutator's. */
  lemma RunSlotsConserved(sh: Shape, p: Pool, r: Addr)
    requires Right(sh, p) && r in p.runs
    ensures |LiveIn(p, r)| + p.runs[r].nFree + MineIn(p, r) == sh.maxSlots
  {
    SlotsOfRun(sh, p, r);
    SlotsConserved(p, r, Slots(sh, r), sh.maxSlots);
  }
}
