/** Huge groups, giving wholly free groups back, and the heap limit. */
module SpaceReleases {
  import opened Collections
  import opened FreePageTree
  import LocalDeques
  import opened PageSets
  import opened TreeInsertions
  import opened TreePages
  import opened TreeTops
  import opened PG = PageGroupTables
  import opened SS = SpaceSpecs
  import opened SG = SpaceGrowths

  // ------------------------------------------------------------------ huge objects

  /** A size passed on as an `int` of 32 bits. */
  function Narrowed(bytes: nat): int {
    var low := bytes % 0x1_0000_0000;
    if low < 0x8000_0000 then low else low - 0x1_0000_0000
  }

  /** `Broken`: the size passed on is not that of a huge group; zero maps a normal group, a negative size nothing. */
  datatype HugeAnswer = Refused | Broken | Got(g: nat)

  /** A huge object gets a group of its own, none of whose pages is ever in the tree. */
  ghost function NewHuge(s: Space, bytes: nat): (Space, HugeAnswer)
    requires CanClaim(s.table) && |s.maps| == |s.table.groups|
  {
    var size := Narrowed(bytes);
    if Headroom(s) < bytes || ExceedsLimit(s, bytes) then (s, Refused)
    else if size <= 0 then (s, Broken)
    else (HugeMapped(s, size), Got(s.table.current))
  }

  ghost function HugeMapped(s: Space, size: nat): Space
    requires CanClaim(s.table) && |s.maps| == |s.table.groups|
  {
    s.(table := Claimed(s.table, true, size, size + OVERHEAD), maps := Mapped(s.maps, s.table.current, 0),
       usedHeap := s.usedHeap + size + OVERHEAD, inUse := s.inUse + size, usedMem := s.usedMem + size)
  }

  ghost function ReleasedHuge(s: Space, g: nat): Space
    requires g < |s.table.groups|
  {
    var x := s.table.groups[g];
    s.(usedHeap := s.usedHeap - x.mapped, usedMem := s.usedMem - x.capacity, inUse := s.inUse - x.capacity,
       table := Released(s.table, g))
  }

  lemma SameNormals(t: Table, u: Table)
    requires forall k: nat :: Normal(u, k) <==> Normal(t, k)
    ensures AllPages(u) == AllPages(t)
  {
    forall p: nat ensures p in AllPages(u) <==> p in AllPages(t) {
      InAllPages(t, p); InAllPages(u, p);
    }
  }

  lemma NewHugeOk(s: Space, bytes: nat)
    requires Ok(s) && s.heapSize <= MAX_HEAP && VALID_BYTES < bytes < 0x8000_0000
    ensures CanClaim(s.table)
    ensures var (u, r) := NewHuge(s, bytes);
      && Ok(u) && !r.Broken?
      && (r.Got? <==> Headroom(s) >= bytes && !ExceedsLimit(s, bytes))
      && (r.Got? ==> r.g < |u.table.groups| && u.table.groups[r.g].live && u.table.groups[r.g].huge
                     && (r.g < |s.table.groups| ==> !s.table.groups[r.g].live))
      && u.pages == s.pages && u.held == s.held
  {
    ClaimedValid(s.table, true, bytes, bytes + OVERHEAD);
    if Headroom(s) < bytes || ExceedsLimit(s, bytes) {
    } else {
      HugeClaimedOk(s, bytes);
    }
  }

  /** A request gets a group as big as it asked for exactly when it is granted and its size is an `int`. */
  lemma HugeSizeIff(s: Space, bytes: nat)
    requires Ok(s) && 0 < bytes
    ensures CanClaim(s.table)
    ensures var (u, r) := NewHuge(s, bytes);
      && (r.Refused? <==> Headroom(s) < bytes || ExceedsLimit(s, bytes))
      && (r.Got? ==> r.g < |u.table.groups| && u.table.groups[r.g].capacity <= bytes)
      && (r.Got? && u.table.groups[r.g].capacity == bytes <==> !r.Refused? && bytes < 0x8000_0000)
  {
    ClaimedValid(s.table, true, 0, 0);
    if Narrowed(bytes) > 0 { ClaimedValid(s.table, true, Narrowed(bytes), Narrowed(bytes) + OVERHEAD); }
  }

  lemma HugeClaimedOk(s: Space, bytes: nat)
    requires Ok(s) && s.usedHeap < MAX_HEAP && VALID_BYTES < bytes < 0x8000_0000 && CanClaim(s.table)
    requires NewHuge(s, bytes).1.Got?
    ensures Ok(NewHuge(s, bytes).0)
  {
    var u := NewHuge(s, bytes).0;
    ClaimedOk(s, u, true, bytes, bytes + OVERHEAD, 0);
    HugeCounted(s, bytes);
    HugePages(s, bytes);
  }

  lemma HugeCounted(s: Space, bytes: nat)
    requires Ok(s) && s.usedHeap < MAX_HEAP && VALID_BYTES < bytes < 0x8000_0000 && CanClaim(s.table)
    requires NewHuge(s, bytes).1.Got?
    ensures Counted(NewHuge(s, bytes).0)
  {
    var u := NewHuge(s, bytes).0;
    ClaimedOk(s, u, true, bytes, bytes + OVERHEAD, 0);
    SameNormals(s.table, u.table);
    HugeSums(s.table, bytes);
  }

  lemma HugeSums(t: Table, bytes: nat)
    requires Valid(t) && CanClaim(t)
    ensures var u := Claimed(t, true, bytes, bytes + OVERHEAD);
      && Sum(u.groups, HugePart) == Sum(t.groups, HugePart) + bytes
      && Sum(u.groups, MappedPart) == Sum(t.groups, MappedPart) + bytes + OVERHEAD
  {
    ClaimedValid(t, true, bytes, bytes + OVERHEAD);
    ClaimedSum(t, true, bytes, bytes + OVERHEAD, HugePart);
    ClaimedSum(t, true, bytes, bytes + OVERHEAD, MappedPart);
  }

  lemma HugePages(s: Space, bytes: nat)
    requires Ok(s) && s.usedHeap < MAX_HEAP && VALID_BYTES < bytes < 0x8000_0000 && CanClaim(s.table)
    requires NewHuge(s, bytes).1.Got?
    ensures PagesOk(NewHuge(s, bytes).0)
  {
    var u := NewHuge(s, bytes).0;
    ClaimedOk(s, u, true, bytes, bytes + OVERHEAD, 0);
    forall p: nat ensures PageOk(u, p) { assert PageOk(s, p); }
  }

  lemma ReleasedTable(s: Space, u: Space, g: nat)
    requires TableOk(s) && g < |s.table.groups| && s.table.groups[g].live && u.table == Released(s.table, g)
    requires MapsOk(s) && u.maps == s.maps
    ensures TableOk(u) && MapsOk(u)
    ensures forall k: nat :: Normal(u.table, k) <==> Normal(s.table, k) && k != g
    ensures Sum(u.table.groups, HugePart) == Sum(s.table.groups, HugePart) - HugePart(s.table.groups[g])
    ensures Sum(u.table.groups, MappedPart) == Sum(s.table.groups, MappedPart) - MappedPart(s.table.groups[g])
  {
    ReleasedValid(s.table, g);
    SumUpdate(s.table.groups, HugePart, g, u.table.groups[g]);
    SumUpdate(s.table.groups, MappedPart, g, u.table.groups[g]);
    forall k | 0 <= k < |u.table.groups| ensures GroupSized(u.table.groups[k]) {
      assert GroupSized(s.table.groups[k]);
    }
    forall k: nat | Normal(u.table, k) ensures MapOk(u.maps[k]) { assert Normal(s.table, k); }
  }

  lemma ReleasedHugeOk(s: Space, g: nat)
    requires Ok(s) && g < |s.table.groups| && s.table.groups[g].live && s.table.groups[g].huge
    ensures Ok(ReleasedHuge(s, g)) && ReleasedHuge(s, g).inUse >= 0
    ensures ReleasedHuge(s, g).pages == s.pages
  {
    var u := ReleasedHuge(s, g);
    ReleasedTable(s, u, g);
    SameNormals(s.table, u.table);
    forall p: nat ensures PageOk(u, p) { assert PageOk(s, p); }
    AllocatedIsWhatIsNotInTheTree(u);
  }

  /** A huge object that comes and goes leaves every counter and every free page as it was. */
  lemma HugeRoundTrip(s: Space, bytes: nat)
    requires Ok(s) && s.heapSize <= MAX_HEAP && VALID_BYTES < bytes < 0x8000_0000
    requires Headroom(s) >= bytes && !ExceedsLimit(s, bytes)
    ensures CanClaim(s.table)
    ensures var (u, r) := NewHuge(s, bytes);
      && r.Got? && r.g < |u.table.groups|
      && var v := ReleasedHuge(u, r.g);
      && v.inUse == s.inUse && v.usedMem == s.usedMem && v.usedHeap == s.usedHeap
      && v.pages == s.pages && v.held == s.held
      && v.table.current == s.table.current
  {
    NewHugeOk(s, bytes);
    ClaimedValid(s.table, true, bytes, bytes + OVERHEAD);
  }

  // ------------------------------------------------------------------ wholly free groups

  ghost predicate WhollyFree(s: Space, g: nat) {
    Normal(s.table, g) && Block(g) <= s.pages
  }

  /** The group around page `a` is unmapped, `t` is what is left of the tree, and the counters follow. */
  ghost function OneReleased(s: Space, a: nat, t: Tree<()>): Space
    requires GroupOf(a) < |s.table.groups|
  {
    s.(table := Released(s.table, GroupOf(a)), tree := t, pages := s.pages - Span(a, GROUP_PAGES),
       usedHeap := s.usedHeap - GROUP_BYTES, usedMem := s.usedMem - VALID_BYTES)
  }

  /** A run as long as a group is a whole group. */
  lemma FullRunIsBlock(s: Space, a: nat)
    requires Ok(s) && RunAt(s.pages, a, GROUP_PAGES)
    ensures WhollyFree(s, GroupOf(a)) && Span(a, GROUP_PAGES) == Block(GroupOf(a)) && IndexOf(a) == 0
  {
    RegionInOneGroup(s, a, GROUP_PAGES);
    assert PageAt(GroupOf(a), 0) == a;
  }

  lemma BlockIsRun(s: Space, g: nat)
    requires WhollyFree(s, g)
    ensures RunAt(s.pages, PageAt(g, 0), GROUP_PAGES) && HasRun(s.pages, GROUP_PAGES)
  {
    var a := PageAt(g, 0);
    assert RunAt(s.pages, a, GROUP_PAGES) by {
      forall p: nat | a <= p < a + GROUP_PAGES ensures p in s.pages { assert p in Block(g); }
    }
  }

  /** `t` is the tree without a whole group's region at `a`. */
  ghost predicate Leaves(s: Space, a: nat, t: Tree<()>) {
    RunAt(s.pages, a, GROUP_PAGES) && Sorted(t) && PagesIn(t) == s.pages - Span(a, GROUP_PAGES)
  }

  lemma OneReleasedOk(s: Space, a: nat, t: Tree<()>)
    requires Ok(s) && Leaves(s, a, t)
    ensures GroupOf(a) < |s.table.groups| && Ok(OneReleased(s, a, t)) && WhollyFree(s, GroupOf(a))
    ensures |OneReleased(s, a, t).pages| < |s.pages|
  {
    FullRunIsBlock(s, a);
    var u, g := OneReleased(s, a, t), GroupOf(a);
    ReleasedTable(s, u, g);
    assert GroupSized(s.table.groups[g]);
    PartSize(s.pages, Block(g));
    BlockAdds(u.table, s.table, g);
    OneReleasedPages(s, a, t);
  }

  lemma OneReleasedPages(s: Space, a: nat, t: Tree<()>)
    requires Ok(s) && WhollyFree(s, GroupOf(a)) && Span(a, GROUP_PAGES) == Block(GroupOf(a))
    ensures PagesOk(OneReleased(s, a, t))
  {
    var u := OneReleased(s, a, t);
    forall p: nat ensures PageOk(u, p) {
      assert PageOk(s, p);
      InBlock(GroupOf(a), p);
    }
  }

  lemma FoundLeaves(s: Space)
    requires Ok(s) && FindIn(s.tree, GROUP_PAGES).Found?
    ensures var Found(a, t) := FindIn(s.tree, GROUP_PAGES); Leaves(s, a, t) && (Heap(s.tree) ==> Heap(t))
  {
    FindIsRun(s.tree, GROUP_PAGES);
  }

  /** As long as the search for a whole group finds one, that group goes. */
  ghost function AllReleased(s: Space): (Space, nat)
    requires Ok(s)
    decreases |s.pages|
  {
    match FindIn(s.tree, GROUP_PAGES)
    case NotFound => (s, 0)
    case Found(a, t) =>
      FoundLeaves(s);
      OneReleasedOk(s, a, t);
      var (u, count) := AllReleased(OneReleased(s, a, t));
      (u, count + 1)
  }

  const START := Space(EMPTY, [], Leaf, {}, {}, 0, 0, 0, 0, 0, 0, false)

  /** A space in order, as a type. */
  type GoodSpace = s: Space | Ok(s) ghost witness START

  lemma OneRound(s: GoodSpace, a: nat, t: Tree<()>) returns (u: GoodSpace)
    requires Leaves(s, a, t)
    ensures GroupOf(a) < |s.table.groups| && s.table.groups[GroupOf(a)].live
    ensures u == OneReleased(s, a, t) && |u.pages| < |s.pages|
  {
    OneReleasedOk(s, a, t);
    u := OneReleased(s, a, t);
  }

  lemma AllReleasedUnfolds(s: GoodSpace, a: nat, t: Tree<()>, u: GoodSpace)
    requires FindIn(s.tree, GROUP_PAGES) == Found(a, t)
    requires GroupOf(a) < |s.table.groups| && u == OneReleased(s, a, t)
    ensures AllReleased(s) == (AllReleased(u).0, AllReleased(u).1 + 1)
  {
    hide Ok, FindIn, GroupOf;
  }

  /** What a caller has to know about one round of the loop. */
  lemma NextRound(s: GoodSpace, a: nat, t: Tree<()>) returns (u: GoodSpace)
    requires FindIn(s.tree, GROUP_PAGES) == Found(a, t)
    ensures GroupOf(a) < |s.table.groups| && s.table.groups[GroupOf(a)].live
    ensures u.tree == t && u.table == Released(s.table, GroupOf(a)) && |u.pages| < |s.pages|
    ensures AllReleased(s) == (AllReleased(u).0, AllReleased(u).1 + 1)
  {
    FoundLeaves(s);
    u := OneRound(s, a, t);
    AllReleasedUnfolds(s, a, t, u);
  }

  lemma LastRound(s: GoodSpace)
    requires FindIn(s.tree, GROUP_PAGES).NotFound?
    ensures AllReleased(s) == (s, 0)
  {
  }

  ghost function FreeGroups(s: Space): set<nat> {
    set g: nat | g < |s.table.groups| && WhollyFree(s, g)
  }

  /** The groups whose region has no smaller one above it in the tree. */
  ghost function TopGroups(s: Space): set<nat> {
    GroupsAt(|s.table.groups|, Top(s.tree, GROUP_PAGES))
  }

  ghost function GroupsAt(n: nat, starts: set<nat>): set<nat> {
    set g: nat | g < n && PageAt(g, 0) in starts
  }

  lemma OneGroupLess(n: nat, starts: set<nat>, g: nat)
    requires g < n && PageAt(g, 0) in starts
    ensures GroupsAt(n, starts) == GroupsAt(n, starts - {PageAt(g, 0)}) + {g}
    ensures g !in GroupsAt(n, starts - {PageAt(g, 0)})
  {
  }

  /** `u` is `s` without the groups in `free`. */
  ghost predicate WithoutGroups(s: Space, u: Space, free: set<nat>) {
    && |u.table.groups| == |s.table.groups|
    && (forall g :: 0 <= g < |s.table.groups| ==>
         (u.table.groups[g].live <==> s.table.groups[g].live && g !in free))
    && (forall p: nat :: p in u.pages <==> p in s.pages && GroupOf(p) !in free)
    && u.held == s.held && u.inUse == s.inUse && u.maps == s.maps
    && u.usedHeap == s.usedHeap - GROUP_BYTES * |free| && u.usedMem == s.usedMem - VALID_BYTES * |free|
  }

  lemma WithoutOneMore(s: Space, a: nat, t: Tree<()>, u: Space, free: set<nat>)
    requires Ok(s) && RunAt(s.pages, a, GROUP_PAGES) && GroupOf(a) < |s.table.groups| && GroupOf(a) !in free
    requires WithoutGroups(OneReleased(s, a, t), u, free)
    ensures WithoutGroups(s, u, free + {GroupOf(a)})
  {
    var w, all := OneReleased(s, a, t), free + {GroupOf(a)};
    FullRunIsBlock(s, a);
    forall p: nat ensures p in u.pages <==> p in s.pages && GroupOf(p) !in all {
      assert p in u.pages <==> p in w.pages && GroupOf(p) !in free;
      assert PageOk(s, p);
      InBlock(GroupOf(a), p);
    }
    assert |all| == |free| + 1;
  }

  lemma TopLosesHit(s: Space, a: nat, t: Tree<()>)
    requires Ok(s) && FindIn(s.tree, GROUP_PAGES) == Found(a, t)
    ensures a == PageAt(GroupOf(a), 0) && a in Top(s.tree, GROUP_PAGES)
    ensures Top(t, GROUP_PAGES) == Top(s.tree, GROUP_PAGES) - {a}
  {
    RegionsFit(s);
    FindTakesFromTop(s.tree, GROUP_PAGES);
    FoundLeaves(s);
    FullRunIsBlock(s, a);
  }

  lemma OneMoreTopGroup(s: Space, a: nat, t: Tree<()>, u: Space)
    requires Ok(s) && FindIn(s.tree, GROUP_PAGES) == Found(a, t) && GroupOf(a) < |s.table.groups|
    requires var w := OneReleased(s, a, t); WithoutGroups(w, u, TopGroups(w))
    ensures WithoutGroups(s, u, TopGroups(s)) && |TopGroups(s)| == |TopGroups(OneReleased(s, a, t))| + 1
  {
    var rest := TopGroups(OneReleased(s, a, t));
    TopLosesHit(s, a, t);
    FoundLeaves(s);
    OneGroupLess(|s.table.groups|, Top(s.tree, GROUP_PAGES), GroupOf(a));
    WithoutOneMore(s, a, t, u, rest);
  }

  /**
   Exactly the groups whose region has no smaller one above it are unmapped, each counted once, and
   nothing else changes.
   */
  lemma {:induction false} ReleasesTheTopGroups(s: Space)
    requires Ok(s)
    ensures var (u, count) := AllReleased(s);
      && Ok(u) && WithoutGroups(s, u, TopGroups(s)) && count == |TopGroups(s)|
      && RootSize(u.tree) < GROUP_PAGES && (Heap(s.tree) ==> Heap(u.tree))
    decreases |s.pages|
  {
    hide Ok, WhollyFree, TopGroups, FindIn, Leaves;
    match FindIn(s.tree, GROUP_PAGES) {
      case NotFound =>
        NothingOnTop(s);
      case Found(a, t) =>
        FoundLeaves(s);
        OneReleasedOk(s, a, t);
        var w := OneReleased(s, a, t);
        ReleasesTheTopGroups(w);
        OneMoreTopGroup(s, a, t, AllReleased(w).0);
    }
  }

  lemma NothingOnTop(s: Space)
    requires FindIn(s.tree, GROUP_PAGES).NotFound?
    ensures TopGroups(s) == {} && RootSize(s.tree) < GROUP_PAGES
  {
    FindSucceedsIff(s.tree, GROUP_PAGES);
    TopIsEmptyIff(s.tree, GROUP_PAGES);
  }

  /** No whole group lies below a smaller region. */
  ghost predicate WholeGroupsOnTop(t: Tree<()>) {
    forall a: nat :: HasRegion(t, a, GROUP_PAGES) ==> a in Top(t, GROUP_PAGES)
  }

  lemma WholeRunIsRegion(s: Space, b: nat)
    requires Ok(s) && RunAt(s.pages, b, GROUP_PAGES)
    ensures HasRegion(s.tree, b, GROUP_PAGES)
  {
    PagesAreCovered(s.tree);
    var a, c := RunInRegion(s.tree, b, GROUP_PAGES);
    RegionFits(s, a, c);
  }

  lemma FreeGroupIsRegion(s: Space, g: nat)
    requires Ok(s) && WhollyFree(s, g)
    ensures HasRegion(s.tree, PageAt(g, 0), GROUP_PAGES)
  {
    BlockIsRun(s, g);
    WholeRunIsRegion(s, PageAt(g, 0));
  }

  lemma WholeRegionIsGroup(s: Space, a: nat)
    requires Ok(s) && HasRegion(s.tree, a, GROUP_PAGES)
    ensures a == PageAt(GroupOf(a), 0) && GroupOf(a) in FreeGroups(s)
  {
    RegionFits(s, a, GROUP_PAGES);
    FullRunIsBlock(s, a);
  }

  lemma TopGroupsAreFree(s: Space)
    requires Ok(s)
    ensures TopGroups(s) <= FreeGroups(s)
    ensures TopGroups(s) == FreeGroups(s) <==> WholeGroupsOnTop(s.tree)
  {
    RegionsFit(s);
    hide Ok, WhollyFree;
    forall g | g in TopGroups(s) ensures g in FreeGroups(s) {
      TopIsRegion(s.tree, GROUP_PAGES, PageAt(g, 0));
      WholeRegionIsGroup(s, PageAt(g, 0));
      PageNumbering(g, 0);
    }
    if TopGroups(s) == FreeGroups(s) { FreeOnTop(s); }
    if WholeGroupsOnTop(s.tree) {
      forall g | g in FreeGroups(s) ensures g in TopGroups(s) { FreeGroupIsRegion(s, g); }
    }
  }

  lemma FreeOnTop(s: Space)
    requires Ok(s) && TopGroups(s) == FreeGroups(s)
    ensures WholeGroupsOnTop(s.tree)
  {
    hide Ok, WhollyFree, Top;
    forall a: nat | HasRegion(s.tree, a, GROUP_PAGES) ensures a in Top(s.tree, GROUP_PAGES) {
      WholeRegionIsGroup(s, a);
      assert GroupOf(a) in TopGroups(s);
    }
  }

  /**
   The groups unmapped are all the wholly free ones exactly when none of them lies below a smaller
   region, as in size order none does.
   */
  lemma ReleasesExactlyTheFreeGroups(s: Space)
    requires Ok(s)
    ensures var (u, count) := AllReleased(s);
      && count <= |FreeGroups(s)| && (count == |FreeGroups(s)| <==> WholeGroupsOnTop(s.tree))
      && (WholeGroupsOnTop(s.tree) <==> WithoutGroups(s, u, FreeGroups(s)))
      && (WholeGroupsOnTop(s.tree) <==> FreeGroups(u) == {})
    ensures Heap(s.tree) ==> WholeGroupsOnTop(s.tree)
  {
    ReleasesTheTopGroups(s);
    TopGroupsAreFree(s);
    SubsetSize(TopGroups(s), FreeGroups(s));
    if Heap(s.tree) {
      forall a: nat | HasRegion(s.tree, a, GROUP_PAGES) ensures a in Top(s.tree, GROUP_PAGES) {
        HeapTop(s.tree, GROUP_PAGES, a, GROUP_PAGES);
      }
    }
    FreeGroupsLeft(s);
  }

  lemma FreeGroupsLeft(s: Space)
    requires Ok(s)
    ensures FreeGroups(AllReleased(s).0) == FreeGroups(s) - TopGroups(s)
  {
    ReleasesTheTopGroups(s);
    var u := AllReleased(s).0;
    forall g: nat | g < |s.table.groups| ensures WhollyFree(u, g) <==> WhollyFree(s, g) && g !in TopGroups(s) {
      StillFree(s, u, TopGroups(s), g);
    }
  }

  lemma StillFree(s: Space, u: Space, free: set<nat>, g: nat)
    requires Ok(s) && Ok(u) && WithoutGroups(s, u, free) && g < |s.table.groups|
    ensures WhollyFree(u, g) <==> WhollyFree(s, g) && g !in free
  {
    forall p | p in Block(g) ensures p in u.pages <==> p in s.pages && g !in free { InBlock(g, p); }
    InBlock(g, PageAt(g, 0));
    assert PageOk(s, PageAt(g, 0)) && PageOk(u, PageAt(g, 0));
  }

  // ------------------------------------------------------------------ the heap limit

  /** After a release, a limit above six tenths of a GiB shrinks by what was unmapped, in 64-bit arithmetic. */
  function ShrunkLimit(heapSize: nat, count: nat): nat {
    if heapSize > SHRINK_THRESHOLD && count > 0 then
      (heapSize - GROUP_BYTES * count) % (SIZE_MAX + 1)
    else
      heapSize
  }

  ghost function Freed(s: GoodSpace): Space {
    var (u, count) := AllReleased(s);
    u.(heapSize := ShrunkLimit(s.heapSize, count))
  }

  /**
   The limit does not grow, that is the subtraction does not wrap, exactly when the limit is too low
   for it to shrink or the bytes of the groups that go are within it; a heap that was within its
   limit stays within it.
   */
  lemma LimitShrinksSafely(s: Space)
    requires Ok(s) && s.heapSize <= MAX_HEAP
    ensures var (u, limit) := (Freed(s), Freed(s).heapSize);
      && (limit <= s.heapSize <==>
           s.heapSize <= SHRINK_THRESHOLD || GROUP_BYTES * |TopGroups(s)| <= s.heapSize)
      && (s.usedHeap <= s.heapSize ==> u.usedHeap <= limit <= s.heapSize)
  {
    ReleasesTheTopGroups(s);
    TopGroupsBounded(s);
    ShrunkBounds(s.heapSize, AllReleased(s).1);
  }

  lemma ShrunkBounds(heapSize: nat, count: nat)
    requires heapSize <= MAX_HEAP && count <= GROUPS
    ensures var limit := ShrunkLimit(heapSize, count);
      && (limit <= heapSize <==> heapSize <= SHRINK_THRESHOLD || GROUP_BYTES * count <= heapSize)
      && (limit > heapSize ==> limit > MAX_HEAP)
      && (GROUP_BYTES * count <= heapSize ==> heapSize - GROUP_BYTES * count <= limit)
  {
    var d := heapSize - GROUP_BYTES * count;
    if d < 0 {
      assert d % (SIZE_MAX + 1) == d + SIZE_MAX + 1;
    }
  }

  lemma TopGroupsBounded(s: Space)
    requires Ok(s)
    ensures |TopGroups(s)| <= GROUPS
  {
    SubsetSize(TopGroups(s), Span(0, |s.table.groups|));
  }

  /** The fields of the result, for the program that computes them one by one. */
  lemma FreedFields(s: GoodSpace)
    ensures var (u, count) := AllReleased(s); var v := Freed(s);
      && v.tree == u.tree && v.table == u.table && v.inUse == s.inUse
      && v.usedHeap == s.usedHeap - GROUP_BYTES * count && v.usedMem == s.usedMem - VALID_BYTES * count
      && v.heapSize == ShrunkLimit(s.heapSize, count) && v.growthLimit == s.growthLimit
      && v.pageLimit == s.pageLimit && v.groupNeeded == s.groupNeeded
  {
    ReleasesTheTopGroups(s);
    LimitsKept(s);
  }

  lemma {:induction false} LimitsKept(s: Space)
    requires Ok(s)
    ensures var u := AllReleased(s).0;
      && u.heapSize == s.heapSize && u.growthLimit == s.growthLimit && u.pageLimit == s.pageLimit
      && u.groupNeeded == s.groupNeeded
    decreases |s.pages|
  {
    match FindIn(s.tree, GROUP_PAGES) {
      case NotFound =>
      case Found(a, t) =>
        FoundLeaves(s);
        OneReleasedOk(s, a, t);
        LimitsKept(OneReleased(s, a, t));
    }
  }

  function Max(a: int, b: int): int { if a < b then b else a }
  function Min(a: int, b: int): int { if a < b then a else b }

  /** The limit after a collection, or after an allocation of `bytes` failed. */
  function AdjustedLimit(heapSize: nat, usedHeap: int, growthLimit: nat, groupNeeded: bool, bytes: nat): int {
    var h := if bytes > 0 then
               SaturatingAdd(Max(heapSize, usedHeap), SaturatingAdd(bytes, bytes / 5))
             else heapSize;
    var h := if groupNeeded then Max(h, SaturatingAdd(usedHeap, GROUP_BYTES)) else h;
    Max(Min(growthLimit, h), GROUP_BYTES)
  }

  function Adjusted(s: Space, bytes: nat): Space {
    s.(heapSize := Max(AdjustedLimit(s.heapSize, s.usedHeap, s.growthLimit, s.groupNeeded, bytes), 0),
       groupNeeded := false)
  }

  /** The limit the tracer asks for, and what becomes of it at once. */
  function Relimited(s: Space, limit: nat, bytes: nat): Space {
    Adjusted(s.(heapSize := limit), bytes)
  }

  const POLICY_THRESHOLD: nat := 0x4000_0000 // 1 GiB

  /** `grown` is the mapped size times the growing factor, which is at least 1.1. */
  function BaseLimit(used: nat, grown: nat, growthLimit: nat): nat {
    Max(Min(growthLimit, Min((used + POLICY_THRESHOLD) / 2, grown)), GROUP_BYTES)
  }

  function ScaleByQuarters(value: nat, quarters: nat): nat {
    Product(value / 4, quarters) + Product(value % 4, quarters) / 4
  }

  function Product(a: nat, b: nat): nat { a * b }

  function TracerLimit(used: nat, grown: nat, growthLimit: nat, quarters: nat): nat {
    var base := BaseLimit(used, grown, growthLimit);
    if base <= used then base
    else Min(SaturatingAdd(used, ScaleByQuarters(base - used, quarters)), growthLimit)
  }

  /** The new limit lies below what is mapped exactly when that is more than 1 GiB or than the growth limit. */
  lemma LimitFallsBehindIff(used: nat, grown: nat, growthLimit: nat, quarters: nat)
    requires used <= grown && GROUP_BYTES <= growthLimit && used <= SIZE_MAX
    ensures TracerLimit(used, grown, growthLimit, quarters) < used <==> POLICY_THRESHOLD < used || growthLimit < used
    ensures POLICY_THRESHOLD < used ==>
      TracerLimit(used, grown, growthLimit, quarters) == Min(growthLimit, (used + POLICY_THRESHOLD) / 2)
  {
  }

  /** The tracer's limit replaces the old one, wrapped or not, and never exceeds the growth limit. */
  lemma RelimitedOk(s: Space, limit: nat, bytes: nat)
    requires Ok(s)
    ensures Ok(Relimited(s, limit, bytes))
    ensures Relimited(s, limit, bytes).heapSize <= Max(s.growthLimit, GROUP_BYTES)
    ensures bytes == 0 && !s.groupNeeded && GROUP_BYTES <= limit <= s.growthLimit ==>
      Relimited(s, limit, bytes) == s.(heapSize := limit)
    ensures Relimited(s, limit, bytes) == s.(heapSize := Relimited(s, limit, bytes).heapSize, groupNeeded := false)
  {
    var u := Relimited(s, limit, bytes);
    forall p: nat ensures PageOk(u, p) { assert PageOk(s, p); }
  }

  /**
   When an allocation failed for want of a group, the next adjustment makes room for one exactly when
   the growth limit allows it. The same request then succeeds exactly if, besides, the new group's
   pages come to the root of the tree, as in size order they do when the insertion's stack has room.
   */
  lemma NeededGroupIsGranted(s: Space, n: nat, bytes: nat)
    requires Ok(s) && s.heapSize <= MAX_HEAP && s.growthLimit <= MAX_HEAP && GROUP_BYTES <= s.growthLimit
    requires 0 < n <= GROUP_PAGES && !ExceedsLimit(s, PAGE * n) && Headroom(s) < GROUP_BYTES
    ensures CanClaim(s.table)
    ensures var (u, r) := Alloc(s, n, true, false);
      r.None? ==>
        && u == s.(groupNeeded := true)
        && var v := Adjusted(u, bytes);
        && Ok(v) && v.tree == s.tree && CanClaim(v.table) && v.heapSize <= MAX_HEAP
        && (Headroom(v) >= GROUP_BYTES <==> s.usedHeap + GROUP_BYTES <= s.growthLimit)
        && (Alloc(v, n, true, false).1.Some? <==>
             s.usedHeap + GROUP_BYTES <= s.growthLimit && n <= RootSize(Grown(s).tree))
        && (Heap(s.tree) && s.usedHeap + GROUP_BYTES <= s.growthLimit ==>
             (Alloc(v, n, true, false).1.Some? <==> GroupDepth(s) <= LocalDeques.LOCAL_LENGTH + 1))
  {
    AllocOk(s, n, true, false);
    AllocSucceedsIff(s, n, true, false);
    var u := s.(groupNeeded := true);
    var v := Adjusted(u, bytes);
    AdjustedOk(s, bytes);
    AllocSucceedsIff(v, n, true, false);
    SameGrowth(s, v);
    if Heap(s.tree) && s.usedHeap + GROUP_BYTES <= s.growthLimit { GrownRoot(v); }
  }

  lemma AdjustedOk(s: Space, bytes: nat)
    requires Ok(s) && s.heapSize <= MAX_HEAP && s.growthLimit <= MAX_HEAP && GROUP_BYTES <= s.growthLimit
    ensures var v := Adjusted(s.(groupNeeded := true), bytes);
      && Ok(v) && v.heapSize <= MAX_HEAP && v == s.(heapSize := v.heapSize, groupNeeded := false)
      && (Headroom(v) >= GROUP_BYTES <==> s.usedHeap + GROUP_BYTES <= s.growthLimit)
  {
    var v := Adjusted(s.(groupNeeded := true), bytes);
    forall p: nat ensures PageOk(v, p) { assert PageOk(s, p); }
  }

  lemma SameGrowth(s: Space, v: Space)
    requires v.table == s.table && v.maps == s.maps && v.tree == s.tree
    requires CanClaim(s.table) && |s.maps| == |s.table.groups|
    ensures Grown(v).tree == Grown(s).tree && GroupDepth(v) == GroupDepth(s)
  {
  }
}
