/** Allocation of chunks, growing the space group by group, and giving groups back. */
module SpaceGrowths {
  import opened Collections
  import opened FreePageTree
  import LocalDeques
  import opened PageSets
  import opened TreeClimbs
  import opened TreeInsertions
  import opened TreePages
  import opened TreePaths
  import opened PG = PageGroupTables
  import opened SS = SpaceSpecs
  import PM = PageMaps

  // ------------------------------------------------------------------ chunks

  ghost predicate HasRun(pages: set<nat>, n: nat) {
    0 < n && exists b: nat :: RunAt(pages, b, n)
  }

  /** What the search of the tree comes to; nothing changes when it fails. */
  ghost function Chunk(s: Space, n: nat): (Space, Option<nat>) {
    if 0 < n && FindIn(s.tree, n).Found? then (Taken(s, n), Some(FindIn(s.tree, n).a)) else (s, None)
  }

  lemma ChunkOk(s: Space, n: nat)
    requires Ok(s)
    ensures Ok(Chunk(s, n).0) && Gained(s, Chunk(s, n).0, n, Chunk(s, n).1)
  {
    if 0 < n && FindIn(s.tree, n).Found? {
      var a := FindIn(s.tree, n).a;
      TakenOk(s, n);
      forall p | p in Span(a, n) ensures p !in s.held { assert PageOk(s, p); }
    }
  }

  /**
   The search succeeds exactly when the root region is big enough. In size order that is when so many
   pages are free in a row, and the answer is the lowest such place.
   */
  lemma ChunkSucceedsIff(s: Space, n: nat)
    requires Ok(s)
    ensures Chunk(s, n).1.Some? <==> 0 < n <= RootSize(s.tree)
    ensures Chunk(s, n).1.Some? ==> RunAt(s.pages, Chunk(s, n).1.value, n) && HasRun(s.pages, n)
    ensures Heap(s.tree) ==> (Chunk(s, n).1.Some? <==> HasRun(s.pages, n))
    ensures Heap(s.tree) && Chunk(s, n).1.Some? ==> LowestRun(s.pages, Chunk(s, n).1.value, n)
  {
    if 0 < n {
      FindIsRun(s.tree, n);
      FindSucceedsIff(s.tree, n);
    }
  }

  /** What a request came back with: pages that nobody held before, or nothing. */
  ghost predicate Gained(s: Space, u: Space, n: nat, r: Option<nat>) {
    match r
    case None => u.held == s.held && u.inUse == s.inUse
    case Some(a) => 0 < n && RunAt(u.held, a, n) && Span(a, n) !! s.held && u.inUse == s.inUse + PAGE * n
  }

  // ------------------------------------------------------------------ growing

  function Headroom(s: Space): int {
    if s.heapSize > s.usedHeap then s.heapSize - s.usedHeap else 0
  }

  function SaturatingAdd(a: int, b: int): int {
    if a + b > SIZE_MAX then SIZE_MAX else a + b
  }

  predicate ExceedsLimit(s: Space, bytes: int) {
    SaturatingAdd(s.inUse, bytes) > s.pageLimit
  }

  ghost predicate CanClaim(t: Table) {
    t.current <= |t.groups| && (t.current < |t.groups| ==> t.chain != [])
  }

  lemma AlwaysCanClaim(t: Table)
    requires Valid(t)
    ensures CanClaim(t)
  {
    ClaimedValid(t, false, 0, 0);
  }

  /** The labels of the group that `current` points at start anew. */
  function Mapped(maps: seq<PM.Pages>, g: nat, labels: nat): seq<PM.Pages>
    requires g <= |maps|
  {
    if g == |maps| then maps + [PM.Fresh(labels)] else maps[g := PM.Fresh(labels)]
  }

  ghost function Grown(s: Space): Space
    requires CanClaim(s.table) && |s.maps| == |s.table.groups|
  {
    s.(table := Claimed(s.table, false, VALID_BYTES, GROUP_BYTES),
       maps := Mapped(s.maps, s.table.current, GROUP_PAGES),
       tree := Added(s.tree, PageAt(s.table.current, 0), GROUP_PAGES),
       pages := s.pages + Block(s.table.current),
       usedHeap := s.usedHeap + GROUP_BYTES, usedMem := s.usedMem + VALID_BYTES)
  }

  ghost function Extended(s: Space): Space
    requires CanClaim(s.table) && |s.maps| == |s.table.groups|
  {
    if Headroom(s) >= GROUP_BYTES then Grown(s) else s.(groupNeeded := true)
  }

  /** The table has room for every group that fits under a heap limit of at most 2^14 groups. */
  lemma SlotLeft(s: Space)
    requires Ok(s) && s.usedHeap < MAX_HEAP
    ensures CanClaim(s.table) && s.table.current < GROUPS
  {
    var t := s.table;
    ClaimedValid(t, false, 0, 0);
    if t.current == |t.groups| {
      ConstructedValid(t);
      forall g | 0 <= g < |t.groups| ensures GROUP_BYTES <= MappedPart(t.groups[g]) {
        assert GroupSized(t.groups[g]);
      }
      SumAtLeast(t.groups, MappedPart, GROUP_BYTES);
      assert GROUP_BYTES * |t.groups| < GROUP_BYTES * GROUPS;
    }
  }

  lemma ClaimedSum(t: Table, huge: bool, capacity: nat, mapped: nat, f: Group -> nat)
    requires Valid(t) && CanClaim(t) && (forall g: Group :: !g.live ==> f(g) == 0)
    ensures var u := Claimed(t, huge, capacity, mapped);
      t.current < |u.groups| && Sum(u.groups, f) == Sum(t.groups, f) + f(u.groups[t.current])
  {
    var c, u := Constructed(t), Claimed(t, huge, capacity, mapped);
    ClaimedValid(t, huge, capacity, mapped);
    ConstructedValid(t);
    if t.current == |t.groups| { SumAppend(t.groups, f, c.groups[t.current]); }
    SumUpdate(c.groups, f, t.current, u.groups[t.current]);
  }

  lemma ClaimedOk(s: Space, u: Space, huge: bool, capacity: nat, mapped: nat, labels: nat)
    requires TableOk(s) && MapsOk(s) && s.usedHeap < MAX_HEAP && Ok(s)
    requires CanClaim(s.table) && u.table == Claimed(s.table, huge, capacity, mapped)
    requires u.maps == Mapped(s.maps, s.table.current, labels)
    requires if huge then GROUP_BYTES <= mapped
             else capacity == VALID_BYTES && mapped == GROUP_BYTES && labels == GROUP_PAGES
    ensures TableOk(u) && MapsOk(u)
    ensures forall g: nat :: Normal(u.table, g) <==> Normal(s.table, g) || (g == s.table.current && !huge)
    ensures !Normal(s.table, s.table.current)
  {
    var t := s.table;
    SlotLeft(s);
    ClaimedValid(t, huge, capacity, mapped);
    forall g | 0 <= g < |u.table.groups| ensures GroupSized(u.table.groups[g]) {
      assert g != t.current ==> GroupSized(t.groups[g]);
    }
    forall g: nat | Normal(u.table, g) ensures MapOk(u.maps[g]) {
      assert g != t.current ==> Normal(t, g) && MapOk(s.maps[g]);
    }
  }

  lemma GrownOk(s: Space)
    requires Ok(s) && s.usedHeap < MAX_HEAP
    ensures CanClaim(s.table) && Ok(Grown(s))
    ensures Block(s.table.current) !! s.pages + s.held
    ensures Heap(s.tree) ==>
      (Heap(Grown(s).tree) <==> SizeOrderSurvives(s.tree, PageAt(s.table.current, 0), GROUP_PAGES,
                                                  LocalDeques.LOCAL_LENGTH))
  {
    SlotLeft(s);
    var t, g, u := s.table, s.table.current, Grown(s);
    ClaimedOk(s, u, false, VALID_BYTES, GROUP_BYTES, GROUP_PAGES);
    GrownPages(s);
    forall p: nat ensures p in Block(g) ==> p !in s.pages && p !in s.held {
      assert PageOk(s, p);
      InBlock(g, p);
    }
    AddedTree(s.tree, PageAt(g, 0), GROUP_PAGES);
    GrownCounted(s);
  }

  lemma GrownPages(s: Space)
    requires Ok(s) && s.usedHeap < MAX_HEAP && CanClaim(s.table)
    ensures PagesOk(Grown(s))
  {
    var t, g, u := s.table, s.table.current, Grown(s);
    ClaimedOk(s, u, false, VALID_BYTES, GROUP_BYTES, GROUP_PAGES);
    forall p: nat ensures PageOk(u, p) {
      assert PageOk(s, p);
      InBlock(g, p);
    }
  }

  lemma GrownCounted(s: Space)
    requires Ok(s) && s.usedHeap < MAX_HEAP && CanClaim(s.table)
    requires Block(s.table.current) !! s.pages
    ensures Counted(Grown(s))
  {
    var t, g, u := s.table, s.table.current, Grown(s);
    ClaimedOk(s, u, false, VALID_BYTES, GROUP_BYTES, GROUP_PAGES);
    ClaimedValid(t, false, VALID_BYTES, GROUP_BYTES);
    ClaimedSum(t, false, VALID_BYTES, GROUP_BYTES, HugePart);
    ClaimedSum(t, false, VALID_BYTES, GROUP_BYTES, MappedPart);
    BlockAdds(t, u.table, g);
    DisjointSize(s.pages, Block(g));
  }

  lemma BlockAdds(t: Table, u: Table, g: nat)
    requires !Normal(t, g) && forall k: nat :: Normal(u, k) <==> Normal(t, k) || k == g
    ensures |AllPages(u)| == |AllPages(t)| + GROUP_PAGES
  {
    forall p: nat ensures p in AllPages(u) <==> p in AllPages(t) + Block(g) {
      InAllPages(t, p); InAllPages(u, p); InBlock(g, p);
    }
    forall p | p in AllPages(t) ensures p !in Block(g) { InAllPages(t, p); InBlock(g, p); }
    assert AllPages(u) == AllPages(t) + Block(g);
    DisjointSize(AllPages(t), Block(g));
  }

  /** The next group's pages are new to the tree and their numbers fit 32 bits. */
  lemma CanMap(s: Space)
    requires Ok(s) && s.usedHeap < MAX_HEAP
    ensures CanClaim(s.table) && s.table.current < GROUPS && Valid(s.table) && |s.maps| == |s.table.groups|
    ensures Block(s.table.current) !! PagesIn(s.tree)
  {
    SlotLeft(s);
    GrownOk(s);
  }

  lemma HeldFits(s: Space, a: nat, n: nat)
    requires Ok(s) && 0 < n && RunAt(s.held, a, n)
    ensures a + n < 0x1_0000_0000 && Span(a, n) !! PagesIn(s.tree)
  {
    HeldRun(s, a, n);
    PageNumbering(GroupOf(a), IndexOf(a) + n - 1);
    forall p | p in Span(a, n) ensures p !in s.pages { assert PageOk(s, p); }
  }

  lemma ExtendedOk(s: Space)
    requires Ok(s) && s.heapSize <= MAX_HEAP
    ensures CanClaim(s.table) && Ok(Extended(s))
    ensures Extended(s).held == s.held && Extended(s).inUse == s.inUse
  {
    ClaimedValid(s.table, false, 0, 0);
    if Headroom(s) >= GROUP_BYTES {
      GrownOk(s);
    } else {
      forall p: nat ensures PageOk(Extended(s), p) { assert PageOk(s, p); }
    }
  }

  // ------------------------------------------------------------------ the allocation request

  /** `busy`: the request is of the most patient kind and a concurrent collection has just been started. */
  ghost function Alloc(s: Space, n: nat, extension: bool, busy: bool): (Space, Option<nat>)
    requires CanClaim(s.table) && |s.maps| == |s.table.groups|
  {
    if ExceedsLimit(s, PAGE * n) then (s, None)
    else if s.usedMem - s.inUse >= PAGE * n && Chunk(s, n).1.Some? then Chunk(s, n)
    else if !extension || busy then (s, None)
    else Chunk(Extended(s), n)
  }

  /** What comes back was in the tree or in the new group, and is nobody else's. */
  lemma AllocOk(s: Space, n: nat, extension: bool, busy: bool)
    requires Ok(s) && s.heapSize <= MAX_HEAP
    ensures CanClaim(s.table)
    ensures var (u, r) := Alloc(s, n, extension, busy); Ok(u) && Gained(s, u, n, r)
  {
    ExtendedOk(s);
    var a := Alloc(s, n, extension, busy);
    if a == (s, None) {
    } else if a == Chunk(s, n) {
      ChunkOk(s, n);
    } else {
      ChunkOk(Extended(s), n);
    }
  }

  /** Comparing byte counters before the search never turns away a request the tree could serve. */
  lemma ByteCheckIsExact(s: Space, n: nat)
    requires Ok(s) && HasRun(s.pages, n)
    ensures s.usedMem - s.inUse >= PAGE * n
  {
    var b: nat :| RunAt(s.pages, b, n);
    RunNeedsPages(s.pages, b, n);
  }

  // ------------------------------------------------------------------ the tree after a group was mapped

  /** How many nodes the search for the place of the next group's pages walks past. */
  function GroupDepth(s: Space): nat {
    SearchDepth(s.tree, PageAt(s.table.current, 0), GROUP_PAGES)
  }

  /** The pages of a group touch no other free pages. */
  lemma BlockAlone(s: Space, g: nat)
    requires Ok(s) && !Normal(s.table, g)
    ensures forall p :: PageAt(g, 0) - 1 <= p <= PageAt(g, GROUP_PAGES) ==> !Covers(s.tree, p)
  {
    PagesAreCovered(s.tree);
    forall p | PageAt(g, 0) - 1 <= p <= PageAt(g, GROUP_PAGES) ensures !Covers(s.tree, p) {
      if p < 0 {
        if Covers(s.tree, p) { NotBelowZero(s.tree, p); }
      } else {
        assert PageOk(s, p);
        NextToBlock(g, p);
      }
    }
  }

  lemma {:induction false} NotBelowZero(t: Tree<()>, p: int)
    requires Covers(t, p)
    ensures 0 <= p
  {
    if Covers(t.l, p) { NotBelowZero(t.l, p); } else if Covers(t.r, p) { NotBelowZero(t.r, p); }
  }

  lemma NextToBlock(g: nat, p: nat)
    requires PageAt(g, 0) - 1 <= p <= PageAt(g, GROUP_PAGES)
    ensures IndexOf(p) < GROUP_PAGES ==> GroupOf(p) == g
  {
  }

  /** A new group rises to the root exactly when the stack of the insertion has room for its search path. */
  lemma GrownRoot(s: Space)
    requires Ok(s) && s.usedHeap < MAX_HEAP && CanClaim(s.table) && Heap(s.tree)
    ensures RootSize(Grown(s).tree) ==
      if GroupDepth(s) <= LocalDeques.LOCAL_LENGTH + 1 then GROUP_PAGES else RootSize(s.tree)
  {
    var g := s.table.current;
    GrownOk(s);
    BlockUnmapped(s);
    BlockAlone(s, g);
    RegionsFit(s);
    AddedRoot(s.tree, PageAt(g, 0), GROUP_PAGES);
  }

  lemma AddedRoot(t: Tree<()>, a: nat, n: nat)
    requires Sorted(t) && Heap(t) && RootSize(t) <= n && 0 < n && Span(a, n) !! PagesIn(t)
    requires forall p :: a - 1 <= p <= a + n ==> !Covers(t, p)
    ensures RootSize(Added(t, a, n)) ==
      if SearchDepth(t, a, n) <= LocalDeques.LOCAL_LENGTH + 1 then n else RootSize(t)
  {
    AddedTree(t, a, n);
    GrownAlone(t, a, n);
    RootAfterInsert(t, a, n, (), LocalDeques.LOCAL_LENGTH);
  }

  lemma BlockUnmapped(s: Space)
    requires Ok(s)
    ensures !Normal(s.table, s.table.current)
  {
    ClaimedValid(s.table, false, 0, 0);
  }

  // ------------------------------------------------------------------ which requests succeed

  /**
   Exactly which requests succeed: within the page limit, and no bigger than the region at the root of
   the tree, or of the tree after a new group was mapped, if that may be done. A request for more pages
   than a group has never succeeds.
   */
  lemma AllocSucceedsIff(s: Space, n: nat, extension: bool, busy: bool)
    requires Ok(s) && s.heapSize <= MAX_HEAP
    ensures CanClaim(s.table)
    ensures Alloc(s, n, extension, busy).1.Some? <==>
      && 0 < n && !ExceedsLimit(s, PAGE * n)
      && (n <= RootSize(s.tree)
          || (extension && !busy && Headroom(s) >= GROUP_BYTES && n <= RootSize(Grown(s).tree)))
    ensures n > GROUP_PAGES ==> Alloc(s, n, extension, busy).1.None?
  {
    ExtendedOk(s);
    ChunkSucceedsIff(s, n);
    RegionsFit(s);
    if Chunk(s, n).1.Some? { ByteCheckIsExact(s, n); }
    ChunkSucceedsIff(Extended(s), n);
    RegionsFit(Extended(s));
  }

  /**
   As long as the tree is in size order, that is: so many pages are free in a row, or a new group may
   be mapped, is big enough, and its search path fits the stack of the insertion.
   */
  lemma AllocFindsIff(s: Space, n: nat, extension: bool, busy: bool)
    requires Ok(s) && s.heapSize <= MAX_HEAP && Heap(s.tree)
    ensures CanClaim(s.table)
    ensures Alloc(s, n, extension, busy).1.Some? <==>
      && 0 < n && !ExceedsLimit(s, PAGE * n)
      && (HasRun(s.pages, n)
          || (extension && !busy && Headroom(s) >= GROUP_BYTES && n <= GROUP_PAGES
              && GroupDepth(s) <= LocalDeques.LOCAL_LENGTH + 1))
  {
    AllocSucceedsIff(s, n, extension, busy);
    ChunkSucceedsIff(s, n);
    if Headroom(s) >= GROUP_BYTES { GrownRoot(s); }
  }

  // ------------------------------------------------------------------ large objects and runs of slots

  /** Allocates `n` pages and labels them. */
  ghost function AllocLabelled(s: Space, n: nat, head: PM.Label, busy: bool): (Space, Option<nat>)
    requires CanClaim(s.table) && |s.maps| == |s.table.groups|
  {
    var (u, r) := Alloc(s, n, true, busy);
    if r.Some? && GroupOf(r.value) < |u.maps| then (Labelled(u, r.value, n, head), r) else (u, None)
  }

  lemma AllocLabelledOk(s: Space, n: nat, head: PM.Label, busy: bool)
    requires Ok(s) && s.heapSize <= MAX_HEAP && PM.IsHead(head)
    ensures CanClaim(s.table)
    ensures var (u, r) := AllocLabelled(s, n, head, busy);
      && Ok(u) && (r.Some? <==> Alloc(s, n, true, busy).1.Some?)
      && (r.Some? ==> Holds(u, r.value, n) && u.inUse == s.inUse + PAGE * n)
  {
    AllocOk(s, n, true, busy);
    AllocSucceedsIff(s, n, true, busy);
    var (u, r) := Alloc(s, n, true, busy);
    if r.Some? {
      LabelledOk(u, r.value, n, head);
      HeldRun(u, r.value, n);
    }
  }

  /** The count of pages is read back from the labels. */
  ghost function FreedLarge(s: Space, a: nat): (Space, nat)
    requires GroupOf(a) < |s.maps|
  {
    var n := 1 + PM.Following(s.maps[GroupOf(a)].labels, IndexOf(a) + 1, PM.LargeObjRem);
    (Returned(Unlabelled(s, a, n, PM.Free), a, n), n)
  }

  /**
   Freeing a large object gives back exactly the pages it was allocated with, none of which was in
   the tree, so that merging them in cannot clash.
   */
  lemma FreedLargeOk(s: Space, a: nat, n: nat)
    requires Ok(s) && Holds(s, a, n)
    requires s.maps[GroupOf(a)].labels[IndexOf(a)] == PM.LargeObj
    ensures var (u, count) := FreedLarge(s, a);
      && count == n && Ok(u) && Span(a, n) !! s.pages && u.held == s.held
      && u.pages == s.pages + Span(a, n) && u.inUse == s.inUse - PAGE * n >= 0
  {
    LargeCount(s, a, n);
    UnlabelledReturned(s, a, n);
    HoldsNotFree(s, a, n);
    assert FreedLarge(s, a) == (Returned(Unlabelled(s, a, n, PM.Free), a, n), n);
  }

  lemma UnlabelledReturned(s: Space, a: nat, n: nat)
    requires Ok(s) && Holds(s, a, n)
    ensures var u := Returned(Unlabelled(s, a, n, PM.Free), a, n); Ok(u) && u.inUse >= 0
  {
    HoldsSpan(s, a, n);
    UnlabelledOk(s, a, n, PM.Free);
    ReturnedOk(Unlabelled(s, a, n, PM.Free), a, n);
  }

  /** The labels give back the page count of the allocation. */
  lemma LargeCount(s: Space, a: nat, n: nat)
    requires Holds(s, a, n) && s.maps[GroupOf(a)].labels[IndexOf(a)] == PM.LargeObj
    ensures GroupOf(a) < |s.maps|
    ensures 1 + PM.Following(s.maps[GroupOf(a)].labels, IndexOf(a) + 1, PM.LargeObjRem) == n
  {
    assert MapOk(s.maps[GroupOf(a)]);
    PM.CountIsExact(s.maps[GroupOf(a)], IndexOf(a));
  }

  lemma HoldsNotFree(s: Space, a: nat, n: nat)
    requires Ok(s) && Holds(s, a, n)
    ensures Span(a, n) !! s.pages + s.held
  {
    HoldsSpan(s, a, n);
    forall p | p in Span(a, n) ensures p !in s.pages + s.held { assert PageOk(s, p); }
  }

  /** Freeing right after allocating restores the free pages and the counters. */
  lemma AllocThenFree(s: Space, n: nat)
    requires Ok(s) && s.heapSize <= MAX_HEAP && 0 < n <= RootSize(s.tree) && !ExceedsLimit(s, PAGE * n)
    ensures CanClaim(s.table)
    ensures var (u, r) := AllocLabelled(s, n, PM.LargeObj, false);
      && r.Some? && GroupOf(r.value) < |u.maps|
      && var (v, count) := FreedLarge(u, r.value);
      && count == n && v.pages == s.pages && v.held == s.held && v.inUse == s.inUse && v.table == s.table
      && v.usedMem == s.usedMem && v.usedHeap == s.usedHeap
  {
    AllocSucceedsIff(s, n, true, false);
    ChunkSucceedsIff(s, n);
    ByteCheckIsExact(s, n);
    var a := FindIn(s.tree, n).a;
    TakeThenFree(s, n);
    assert AllocLabelled(s, n, PM.LargeObj, false) == (Labelled(Taken(s, n), a, n, PM.LargeObj), Some(a));
  }

  lemma TakeLabelled(s: Space, n: nat)
    requires Ok(s) && 0 < n && FindIn(s.tree, n).Found?
    ensures GroupOf(FindIn(s.tree, n).a) < |s.maps|
    ensures var a := FindIn(s.tree, n).a; var u := Labelled(Taken(s, n), a, n, PM.LargeObj);
      && Ok(u) && Holds(u, a, n) && u.maps[GroupOf(a)].labels[IndexOf(a)] == PM.LargeObj
      && u.pages + Span(a, n) == s.pages && u.held == s.held
  {
    var a := FindIn(s.tree, n).a;
    TakenOk(s, n);
    TakenHeld(s, a, n);
    LabelledHolds(Taken(s, n), a, n, PM.LargeObj);
  }

  lemma TakenHeld(s: Space, a: nat, n: nat)
    requires Ok(s) && RunAt(s.pages, a, n)
    ensures s.held + Span(a, n) - Span(a, n) == s.held && s.pages - Span(a, n) + Span(a, n) == s.pages
  {
    forall p | p in Span(a, n) ensures p !in s.held && p in s.pages { assert PageOk(s, p); }
  }

  lemma LabelledHolds(s: Space, a: nat, n: nat, head: PM.Label)
    requires Ok(s) && PM.IsHead(head) && 0 < n && RunAt(s.held, a, n)
    ensures GroupOf(a) < |s.maps|
    ensures var u := Labelled(s, a, n, head);
      Ok(u) && Holds(u, a, n) && u.maps[GroupOf(a)].labels[IndexOf(a)] == head
  {
    LabelledOk(s, a, n, head);
    HeldRun(s, a, n);
  }

  lemma TakeThenFree(s: Space, n: nat)
    requires Ok(s) && 0 < n && FindIn(s.tree, n).Found?
    ensures GroupOf(FindIn(s.tree, n).a) < |s.maps|
    ensures var a := FindIn(s.tree, n).a; var u := Labelled(Taken(s, n), a, n, PM.LargeObj);
      var (v, count) := FreedLarge(u, a);
      && count == n && v.pages == s.pages && v.held == s.held && v.inUse == s.inUse && v.table == s.table
      && v.usedMem == s.usedMem && v.usedHeap == s.usedHeap
  {
    var a := FindIn(s.tree, n).a;
    TakeLabelled(s, n);
    FreedLargeOk(Labelled(Taken(s, n), a, n, PM.LargeObj), a, n);
  }
}
