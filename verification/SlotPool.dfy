/**
 The slots and runs of one size class, as a value: what each allocator operation does to them, and
 the invariant that it keeps.

 Every slot of every run is allocated, in its run's free list, or in the mutator's list, and in
 exactly one of them. Every run is the mutator's, full and unlisted, or partly free and listed.
 */
module SlotPools {
  import opened Collections
  import opened FL = FreeLists
  import T = ThreeTierLists

  /** One run: its free list, its count of free slots, and its two flags. */
  datatype Run = Run(free: seq<Addr>, nFree: nat, local: bool, inList: bool)

  datatype Pool = Pool(
    runs: map<Addr, Run>,
    nonFull: T.Tiers<Addr>,
    mine: seq<Addr>, // the mutator's list
    current: Addr, // the mutator's run, or null
    live: set<Addr>, // the slots with the header of an object
    owner: map<Addr, Addr>) // the run of each slot

  // ------------------------------------------------------------------ invariant

  /** The slot is in exactly one of its three places. */
  ghost predicate SlotRight(p: Pool, a: Addr)
    requires a in p.owner
  {
    && a != 0 && p.owner[a] in p.runs
    && (if a in p.live then a !in p.runs[p.owner[a]].free && a !in p.mine
        else a in p.runs[p.owner[a]].free <==> a !in p.mine)
  }

  /** The run's list holds some of its slots, as many as it says. */
  ghost predicate RunRight(p: Pool, r: Addr)
    requires r in p.runs
  {
    && r != 0 && Distinct(p.runs[r].free) && p.runs[r].nFree == |p.runs[r].free|
    && (forall a :: a in p.runs[r].free ==> a in p.owner && p.owner[a] == r)
    && (p.runs[r].local <==> r == p.current)
    && (p.runs[r].inList <==> r in p.nonFull.All())
  }

  /** A run is the mutator's, or full and unlisted, or partly free and listed; never empty. */
  ghost predicate Classified(p: Pool, r: Addr, maxSlots: nat)
    requires r in p.runs
  {
    if r == p.current || p.runs[r].nFree == 0 then !p.runs[r].inList else p.runs[r].nFree < maxSlots && p.runs[r].inList
  }

  ghost predicate SlotsRight(p: Pool) {
    && p.live <= p.owner.Keys
    && forall a :: a in p.owner ==> SlotRight(p, a)
  }

  ghost predicate RunsRight(p: Pool) {
    && (forall r :: r in p.runs ==> RunRight(p, r))
    && (p.current != 0 ==> p.current in p.runs)
  }

  ghost predicate MineRight(p: Pool) {
    Distinct(p.mine) && forall a :: a in p.mine ==> a in p.owner && p.owner[a] == p.current
  }

  ghost predicate ListRight(p: Pool) {
    p.nonFull.Filled() && Distinct(p.nonFull.All()) && forall r :: r in p.nonFull.All() ==> r in p.runs
  }

  /** All runs but `d` are in the right class. */
  ghost predicate ClassesRight(p: Pool, d: Addr, maxSlots: nat) {
    forall r :: r in p.runs && r != d ==> Classified(p, r, maxSlots)
  }

  /** The invariant, except that run `d` may be in the wrong class. */
  ghost predicate ValidBut(p: Pool, d: Addr, maxSlots: nat) {
    SlotsRight(p) && RunsRight(p) && MineRight(p) && ListRight(p) && ClassesRight(p, d, maxSlots)
  }

  ghost predicate Valid(p: Pool, maxSlots: nat) {
    ValidBut(p, 0, maxSlots)
  }

  // ------------------------------------------------------------------ the mutator's list

  /** The mutator takes the first slot of its list for a new object. */
  ghost function Allocated(p: Pool): Pool
    requires p.mine != []
  {
    p.(mine := p.mine[1..], live := p.live + {p.mine[0]})
  }

  lemma AllocatedValid(p: Pool, maxSlots: nat)
    requires Valid(p, maxSlots) && p.mine != []
    ensures Valid(Allocated(p), maxSlots) && p.mine[0] != 0 && p.mine[0] !in p.live
  {
    var q := Allocated(p);
    assert p.mine == [p.mine[0]] + q.mine;
    forall a | a in q.owner ensures SlotRight(q, a) {
      assert SlotRight(p, a);
    }
    forall r | r in q.runs ensures RunRight(q, r) && Classified(q, r, maxSlots) {
      assert RunRight(p, r) && Classified(p, r, maxSlots);
    }
  }

  /** Run `r` becomes the mutator's, and its free slots go to the front of the mutator's list. */
  ghost function Localised(p: Pool, r: Addr): Pool
    requires r in p.runs
  {
    p.(mine := p.runs[r].free + p.mine, current := r,
       runs := p.runs[r := p.runs[r].(free := [], nFree := 0, local := true)])
  }

  lemma LocalisedSlots(p: Pool, r: Addr)
    requires SlotsRight(p) && RunsRight(p) && r in p.runs
    ensures SlotsRight(Localised(p, r))
    ensures forall a :: a in p.runs[r].free ==> a !in p.mine
  {
    var q := Localised(p, r);
    assert RunRight(p, r);
    forall a | a in q.owner ensures SlotRight(q, a) {
      assert SlotRight(p, a);
    }
    forall a | a in p.runs[r].free ensures a !in p.mine {
      assert SlotRight(p, a);
    }
  }

  lemma LocalisedValid(p: Pool, r: Addr, maxSlots: nat)
    requires ValidBut(p, r, maxSlots) && r in p.runs && !p.runs[r].inList && (p.current == 0 || p.current == r)
    ensures Valid(Localised(p, r), maxSlots)
  {
    var q := Localised(p, r);
    LocalisedSlots(p, r);
    assert RunRight(p, r);
    DistinctAppend(p.runs[r].free, p.mine);
    forall s | s in q.runs ensures RunRight(q, s) && Classified(q, s, maxSlots) {
      assert RunRight(p, s) && (s != r ==> Classified(p, s, maxSlots));
    }
  }

  /** The mutator gives its run back, with whatever slots of it are left in its list. */
  ghost function Globalised(p: Pool): Pool
    requires p.current in p.runs
  {
    var r := p.runs[p.current];
    p.(mine := [], current := 0,
       runs := p.runs[p.current := r.(free := p.mine + r.free, nFree := r.nFree + |p.mine|, local := false)])
  }

  lemma GlobalisedValid(p: Pool, maxSlots: nat)
    requires Valid(p, maxSlots) && p.current != 0
    ensures ValidBut(Globalised(p), p.current, maxSlots)
  {
    var q, r := Globalised(p), p.runs[p.current];
    assert RunRight(p, p.current);
    forall a | a in p.mine ensures a !in r.free {
      assert SlotRight(p, a);
    }
    DistinctAppend(p.mine, r.free);
    forall a | a in q.owner ensures SlotRight(q, a) {
      assert SlotRight(p, a);
    }
    forall s | s in q.runs ensures RunRight(q, s) && (s != p.current ==> Classified(q, s, maxSlots)) {
      assert RunRight(p, s) && Classified(p, s, maxSlots);
    }
  }

  // ------------------------------------------------------------------ runs

  /** A new run with these slots, all of them free. */
  ghost function RunAdded(p: Pool, r: Addr, slots: seq<Addr>): Pool {
    p.(runs := p.runs[r := Run(slots, |slots|, false, false)], owner := p.owner + map a | a in slots :: r)
  }

  lemma RunAddedValid(p: Pool, r: Addr, slots: seq<Addr>, maxSlots: nat)
    requires Valid(p, maxSlots) && r != 0 && r !in p.runs && p.current != r
    requires Distinct(slots) && forall a :: a in slots ==> a != 0 && a !in p.owner
    ensures ValidBut(RunAdded(p, r, slots), r, maxSlots)
  {
    var q := RunAdded(p, r, slots);
    forall a | a in q.owner ensures SlotRight(q, a) {
      if a in p.owner { assert SlotRight(p, a); }
    }
    forall s | s in q.runs ensures RunRight(q, s) && (s != r ==> Classified(q, s, maxSlots)) {
      if s != r { assert RunRight(p, s) && Classified(p, s, maxSlots); }
    }
  }

  /** The pages of an empty run go back to the page tree. */
  ghost function RunRemoved(p: Pool, r: Addr): Pool {
    p.(runs := p.runs - {r}, owner := map a | a in p.owner && p.owner[a] != r :: p.owner[a])
  }

  lemma RunRemovedValid(p: Pool, r: Addr, maxSlots: nat)
    requires ValidBut(p, r, maxSlots) && r in p.runs && r != p.current && !p.runs[r].inList
    requires forall a :: a in p.owner && p.owner[a] == r ==> a !in p.live
    ensures Valid(RunRemoved(p, r), maxSlots)
  {
    var q := RunRemoved(p, r);
    assert RunRight(p, r);
    forall a | a in q.owner ensures SlotRight(q, a) {
      assert SlotRight(p, a);
    }
    forall s | s in q.runs ensures RunRight(q, s) && Classified(q, s, maxSlots) {
      assert RunRight(p, s) && Classified(p, s, maxSlots);
    }
  }

  // ------------------------------------------------------------------ freeing and listing

  /** Object `a` dies: its slot goes to the front of the list of run `r`. */
  ghost function Freed(p: Pool, r: Addr, a: Addr): Pool
    requires r in p.runs
  {
    p.(live := p.live - {a},
       runs := p.runs[r := p.runs[r].(free := [a] + p.runs[r].free, nFree := p.runs[r].nFree + 1)])
  }

  lemma FreedValid(p: Pool, r: Addr, a: Addr, maxSlots: nat)
    requires ValidBut(p, r, maxSlots) && r in p.runs && a in p.live && a in p.owner && p.owner[a] == r
    ensures ValidBut(Freed(p, r, a), r, maxSlots)
  {
    assert SlotRight(p, a) && RunRight(p, r);
    var q := Freed(p, r, a);
    DistinctAppend([a], p.runs[r].free);
    forall b | b in q.owner ensures SlotRight(q, b) {
      assert SlotRight(p, b);
    }
    forall s | s in q.runs ensures RunRight(q, s) && (s != r ==> Classified(q, s, maxSlots)) {
      assert RunRight(p, s) && (s != r ==> Classified(p, s, maxSlots));
    }
  }

  ghost function Listed(p: Pool, r: Addr, tier: T.Tier): Pool
    requires r in p.runs
  {
    p.(nonFull := T.Inserted(p.nonFull, r, tier), runs := p.runs[r := p.runs[r].(inList := true)])
  }

  lemma ListedValid(p: Pool, r: Addr, tier: T.Tier, maxSlots: nat)
    requires ValidBut(p, r, maxSlots) && r in p.runs && !p.runs[r].inList && r != p.current
    requires 0 < p.runs[r].nFree < maxSlots
    ensures Valid(Listed(p, r, tier), maxSlots)
  {
    var q := Listed(p, r, tier);
    assert RunRight(p, r);
    var k := T.InsertedAddsOne(p.nonFull, r, tier);
    forall s ensures s in q.nonFull.All() <==> s == r || s in p.nonFull.All() {
      T.InSpliced(p.nonFull.All(), k, r, s);
    }
    forall a | a in q.owner ensures SlotRight(q, a) {
      assert SlotRight(p, a);
    }
    forall s | s in q.runs ensures RunRight(q, s) && Classified(q, s, maxSlots) {
      assert RunRight(p, s) && (s != r ==> Classified(p, s, maxSlots));
    }
  }

  ghost function Unlisted(p: Pool, r: Addr): Pool
    requires r in p.runs && r in p.nonFull.All()
  {
    p.(nonFull := T.Erased(p.nonFull, r), runs := p.runs[r := p.runs[r].(inList := false)])
  }

  lemma UnlistedValid(p: Pool, r: Addr, maxSlots: nat)
    requires ValidBut(p, r, maxSlots) && r in p.runs && r in p.nonFull.All()
    ensures ValidBut(Unlisted(p, r), r, maxSlots)
  {
    var q := Unlisted(p, r);
    assert RunRight(p, r);
    var k := T.ErasedRemovesOne(p.nonFull, r);
    forall s ensures s in q.nonFull.All() <==> s != r && s in p.nonFull.All() {
      T.InWithout(p.nonFull.All(), k, s);
    }
    forall a | a in q.owner ensures SlotRight(q, a) {
      assert SlotRight(p, a);
    }
    forall s | s in q.runs ensures RunRight(q, s) && (s != r ==> Classified(q, s, maxSlots)) {
      assert RunRight(p, s) && (s != r ==> Classified(p, s, maxSlots));
    }
  }

  /** The mutator's run goes back to the page tree, and the mutator forgets its list. */
  ghost function LocalDropped(p: Pool): Pool
    requires p.current in p.runs
  {
    RunRemoved(p.(mine := [], current := 0), p.current)
  }

  lemma LocalDroppedValid(p: Pool, maxSlots: nat)
    requires Valid(p, maxSlots) && p.current != 0
    requires forall a :: a in p.owner && p.owner[a] == p.current ==> a !in p.live
    ensures Valid(LocalDropped(p), maxSlots)
  {
    var q := LocalDropped(p);
    assert RunRight(p, p.current) && Classified(p, p.current, maxSlots);
    forall a | a in q.owner ensures SlotRight(q, a) {
      assert SlotRight(p, a);
    }
    forall s | s in q.runs ensures RunRight(q, s) && Classified(q, s, maxSlots) {
      assert RunRight(p, s) && Classified(p, s, maxSlots);
    }
  }

  // ------------------------------------------------------------------ conservation

  ghost function LiveIn(p: Pool, r: Addr): set<Addr> {
    set a | a in p.live && a in p.owner && p.owner[a] == r
  }

  ghost function MineIn(p: Pool, r: Addr): nat {
    if r == p.current then |p.mine| else 0
  }

  ghost function MineSet(p: Pool, r: Addr): set<Addr> {
    if r == p.current then AsSet(p.mine) else {}
  }

  /** A slot of run `r` is in one of the three places, and in no other. */
  lemma PlaceOf(p: Pool, r: Addr, a: Addr)
    requires SlotsRight(p) && MineRight(p) && r in p.runs && RunRight(p, r)
    ensures a in p.owner && p.owner[a] == r <==> a in LiveIn(p, r) || a in p.runs[r].free || a in MineSet(p, r)
    ensures !(a in LiveIn(p, r) && a in p.runs[r].free) && !(a in LiveIn(p, r) && a in MineSet(p, r))
    ensures !(a in p.runs[r].free && a in MineSet(p, r))
  {
    if a in p.owner { assert SlotRight(p, a); }
  }

  lemma PlacesAddUp(slots: seq<Addr>, live: set<Addr>, free: seq<Addr>, mine: set<Addr>)
    requires Distinct(slots) && Distinct(free)
    requires forall a :: a in slots <==> a in live || a in free || a in mine
    requires forall a :: !(a in live && a in free) && !(a in live && a in mine) && !(a in free && a in mine)
    ensures |live| + |free| + |mine| == |slots|
  {
    DistinctSize(slots);
    DistinctSize(free);
    DisjointSize(live, AsSet(free));
    DisjointSize(live + AsSet(free), mine);
    assert AsSet(slots) == live + AsSet(free) + mine;
  }

  /** Allocated slots, free slots of the run and slots of the mutator's list make up the whole run. */
  lemma SlotsConserved(p: Pool, r: Addr, slots: seq<Addr>, maxSlots: nat)
    requires Valid(p, maxSlots) && r in p.runs && Distinct(slots)
    requires forall a :: a in slots <==> a in p.owner && p.owner[a] == r
    ensures |LiveIn(p, r)| + p.runs[r].nFree + MineIn(p, r) == |slots|
  {
    assert RunRight(p, r);
    forall a
      ensures a in slots <==> a in LiveIn(p, r) || a in p.runs[r].free || a in MineSet(p, r)
      ensures !(a in LiveIn(p, r) && a in p.runs[r].free) && !(a in LiveIn(p, r) && a in MineSet(p, r))
      ensures !(a in p.runs[r].free && a in MineSet(p, r))
    {
      PlaceOf(p, r, a);
    }
    PlacesAddUp(slots, LiveIn(p, r), p.runs[r].free, MineSet(p, r));
    DistinctSize(p.mine);
  }
}
