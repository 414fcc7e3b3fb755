/** The space as its initialisation leaves it: a number of groups mapped in a row. */
module SpaceStarts {
  import opened Collections
  import opened FreePageTree
  import opened PageSets
  import opened TreeClimbs
  import opened TreeInsertions
  import opened TreePages
  import opened TreePaths
  import opened PG = PageGroupTables
  import opened SS = SpaceSpecs
  import opened SG = SpaceGrowths
  import opened SR = SpaceReleases

  /** An empty space with its limits. */
  function Bare(heapSize: nat, growthLimit: nat, pageLimit: nat): Space {
    START.(heapSize := heapSize, growthLimit := growthLimit, pageLimit := pageLimit)
  }

  lemma BareOk(heapSize: nat, growthLimit: nat, pageLimit: nat)
    ensures Ok(Bare(heapSize, growthLimit, pageLimit))
  {
    EmptyValid();
    forall p: nat ensures PageOk(Bare(heapSize, growthLimit, pageLimit), p) { }
  }

  ghost predicate Untouched(s: Space) {
    && s.table == EMPTY && s.maps == [] && s.tree == Leaf && s.pages == {} && s.held == {}
    && s.inUse == s.usedMem == s.usedHeap == 0
  }

  /** `n` groups mapped one after the other in an empty space. */
  ghost function Expanse(base: GoodSpace, n: nat): (s: GoodSpace)
    requires Untouched(base) && n <= GROUPS
    ensures Linear(s, n) && Keeps(base, s)
  {
    if n == 0 then base
    else
      var s := Expanse(base, n - 1);
      LinearGrows(s, n - 1);
      Grown(s)
  }

  /** All slots constructed so far are mapped normal groups, and nothing is allocated in them. */
  ghost predicate Linear(s: Space, n: nat) {
    && |s.table.groups| == n && s.table.chain == []
    && (forall g: nat :: g < n ==> WhollyFree(s, g)) && Heap(s.tree)
    && s.held == {} && s.inUse == 0 && s.usedHeap == GROUP_BYTES * n && s.usedMem == VALID_BYTES * n
  }

  ghost predicate Keeps(s: Space, u: Space) {
    u.heapSize == s.heapSize && u.growthLimit == s.growthLimit && u.pageLimit == s.pageLimit
    && u.groupNeeded == s.groupNeeded
  }

  ghost predicate AllAtLeast<R>(t: Tree<R>, k: nat) {
    forall a: nat, c: nat :: HasRegion(t, a, c) ==> k <= c
  }

  /** Among regions of equal size an insertion of that size keeps the size order, however deep it goes. */
  lemma {:induction false} TwoUpAtLeast<R>(t: Tree<R>, a: nat, s: nat, p: nat, g: nat, k: nat)
    requires AllAtLeast(t, k)
    requires SearchDepth(t, a, s) == 0 ==> k <= g
    requires SearchDepth(t, a, s) <= 1 ==> k <= p
    ensures k <= SizeTwoUp(t, a, s, p, g)
  {
    if t.Node? && MergeAt(t, a, s).Miss? && (a + s < t.key1 || a > t.key1 + t.key2) {
      assert HasRegion(t, t.key1, t.key2);
      var x := if a + s < t.key1 then t.l else t.r;
      assert forall b: nat, c: nat :: HasRegion(x, b, c) ==> HasRegion(t, b, c);
      TwoUpAtLeast(x, a, s, t.key2, p, k);
    }
  }

  lemma {:induction false} OneRegionAt<R>(t: Tree<R>, a: nat, c: nat, b: nat, d: nat, p: nat)
    requires Sorted(t) && HasRegion(t, a, c) && HasRegion(t, b, d) && a <= p < a + c && b <= p < b + d
    ensures a == b && c == d
  {
    if HasRegion(t.l, a, c) { RegionsInBounds(t.l, a, c); }
    if HasRegion(t.r, a, c) { RegionsInBounds(t.r, a, c); }
    if HasRegion(t.l, b, d) { RegionsInBounds(t.l, b, d); }
    if HasRegion(t.r, b, d) { RegionsInBounds(t.r, b, d); }
    if HasRegion(t.l, a, c) && HasRegion(t.l, b, d) { OneRegionAt(t.l, a, c, b, d, p); }
    if HasRegion(t.r, a, c) && HasRegion(t.r, b, d) { OneRegionAt(t.r, a, c, b, d, p); }
  }

  /** While nothing is allocated every region is a whole group. */
  lemma RegionsAreGroups(s: Space)
    requires Ok(s) && forall g: nat :: g < |s.table.groups| ==> WhollyFree(s, g)
    ensures AllAtLeast(s.tree, GROUP_PAGES)
  {
    forall a: nat, c: nat | HasRegion(s.tree, a, c) ensures GROUP_PAGES <= c {
      RegionSize(s.tree, a, c);
      RegionFits(s, a, c);
      assert PageOk(s, a);
      FreeGroupIsRegion(s, GroupOf(a));
      InBlock(GroupOf(a), a);
      OneRegionAt(s.tree, a, c, PageAt(GroupOf(a), 0), GROUP_PAGES, a);
    }
  }

  lemma {:induction false} RegionSize<R>(t: Tree<R>, a: nat, c: nat)
    requires Sorted(t) && HasRegion(t, a, c)
    ensures 0 < c
  {
    if HasRegion(t.l, a, c) { RegionSize(t.l, a, c); } else if HasRegion(t.r, a, c) { RegionSize(t.r, a, c); }
  }

  lemma LinearGrows(s: GoodSpace, n: nat)
    requires Linear(s, n) && n < GROUPS
    ensures CanClaim(s.table) && Ok(Grown(s)) && Linear(Grown(s), n + 1)
    ensures s.table.current == n && Block(n) !! s.pages
  {
    GrownOk(s);
    LinearTable(s, n);
    LinearHeap(s, n);
    forall g: nat | g < n + 1 ensures WhollyFree(Grown(s), g) {
      if g < n { assert WhollyFree(s, g); }
    }
  }

  lemma LinearTable(s: GoodSpace, n: nat)
    requires Linear(s, n) && n < GROUPS
    ensures CanClaim(s.table) && s.table.current == n
    ensures |Grown(s).table.groups| == n + 1 && Grown(s).table.chain == []
    ensures forall g: nat :: g < n + 1 ==> Normal(Grown(s).table, g)
  {
    ClaimedValid(s.table, false, VALID_BYTES, GROUP_BYTES);
    forall g: nat | g < n + 1 ensures Normal(Grown(s).table, g) {
      if g < n { assert WhollyFree(s, g); }
    }
  }

  lemma LinearHeap(s: GoodSpace, n: nat)
    requires Linear(s, n) && n < GROUPS
    ensures CanClaim(s.table) && Heap(Grown(s).tree)
  {
    GrownOk(s);
    var a := PageAt(s.table.current, 0);
    BlockUnmapped(s);
    BlockAlone(s, s.table.current);
    GrownAlone(s.tree, a, GROUP_PAGES);
    RegionsAreGroups(s);
    if SearchDepth(s.tree, a, GROUP_PAGES) >= 2 { TwoUpAtLeast(s.tree, a, GROUP_PAGES, 0, 0, GROUP_PAGES); }
  }

  /** What a caller has to know about one round of the loop. */
  lemma NextExpanse(base: GoodSpace, n: nat) returns (u: GoodSpace)
    requires Untouched(base) && n < GROUPS
    ensures var s := Expanse(base, n);
      && Valid(s.table) && |s.maps| == |s.table.groups| && CanClaim(s.table) && s.table.current < GROUPS
      && Block(s.table.current) !! PagesIn(s.tree)
      && u == Expanse(base, n + 1) == Grown(s)
  {
    LinearGrows(Expanse(base, n), n);
    u := Grown(Expanse(base, n));
  }

  lemma ExpanseFields(base: GoodSpace, n: nat)
    requires Untouched(base) && n <= GROUPS
    ensures var s := Expanse(base, n);
      && s.inUse == 0 && s.usedHeap == GROUP_BYTES * n && s.usedMem == VALID_BYTES * n
      && s.heapSize == base.heapSize && s.growthLimit == base.growthLimit && s.pageLimit == base.pageLimit
      && s.groupNeeded == base.groupNeeded
  {
  }

  /** Initialisation leaves every group free, the tree in size order and every counter at the sum over the groups. */
  lemma ExpanseIsFree(base: GoodSpace, n: nat)
    requires Untouched(base) && n <= GROUPS
    ensures var s := Expanse(base, n);
      && FreeGroups(s) == Span(0, n) && |FreeGroups(s)| == n && Heap(s.tree)
      && s.inUse == 0 && s.usedHeap == GROUP_BYTES * n && s.usedMem == VALID_BYTES * n
  {
    var s := Expanse(base, n);
    forall g: nat ensures g in FreeGroups(s) <==> g in Span(0, n) {
      if g < n { assert WhollyFree(s, g); }
    }
  }

  // ------------------------------------------------------------------ the heap limit after the start

  /** Giving back the groups of an empty heap whose limit lies below their bytes wraps the limit around. */
  lemma LimitWraps(s: GoodSpace, n: nat)
    requires Linear(s, n) && SHRINK_THRESHOLD < s.heapSize < GROUP_BYTES * n && n <= GROUPS
    ensures Freed(s).heapSize > MAX_HEAP && Freed(s).usedHeap == 0
  {
    ReleasesTheTopGroups(s);
    ReleasesExactlyTheFreeGroups(s);
    TopGroupsAreFree(s);
    LinearGroups(s, n);
    FreedFields(s);
    ShrunkBounds(s.heapSize, n);
    assert GROUP_BYTES * n <= MAX_HEAP;
  }

  lemma LinearGroups(s: GoodSpace, n: nat)
    requires Linear(s, n)
    ensures |FreeGroups(s)| == n
  {
    forall g: nat ensures g in FreeGroups(s) <==> g in Span(0, n) {
      if g < n { assert WhollyFree(s, g); }
    }
    assert FreeGroups(s) == Span(0, n);
  }

  /**
   That comes about when a heap of more than 1 GiB is mapped at the start and the memory policy then
   sets the limit anew: the new limit lies half way between 1 GiB and what is mapped, as at 1112 MiB for
   2400 groups. The first collection gives the groups back.
   */
  lemma LimitWrapsAfterPolicyChange(s: GoodSpace, n: nat, grown: nat, quarters: nat) returns (u: GoodSpace)
    requires Linear(s, n) && 2048 < n <= GROUPS && !s.groupNeeded
    requires SHRINK_THRESHOLD < s.growthLimit <= MAX_HEAP && GROUP_BYTES * n <= grown
    ensures u == Relimited(s, TracerLimit(s.usedHeap, grown, s.growthLimit, quarters), 0)
    ensures u.heapSize == Min(s.growthLimit, (s.usedHeap + POLICY_THRESHOLD) / 2) < s.usedHeap
    ensures Freed(u).heapSize > MAX_HEAP && Freed(u).usedHeap == 0
  {
    u := PolicyLimit(s, n, grown, quarters);
    LimitWraps(u, n);
  }

  lemma PolicyLimit(s: GoodSpace, n: nat, grown: nat, quarters: nat) returns (u: GoodSpace)
    requires Linear(s, n) && 2048 < n <= GROUPS && !s.groupNeeded
    requires SHRINK_THRESHOLD < s.growthLimit <= MAX_HEAP && GROUP_BYTES * n <= grown
    ensures u == Relimited(s, TracerLimit(s.usedHeap, grown, s.growthLimit, quarters), 0) && Linear(u, n)
    ensures u.heapSize == Min(s.growthLimit, (s.usedHeap + POLICY_THRESHOLD) / 2)
    ensures SHRINK_THRESHOLD < u.heapSize < s.usedHeap
  {
    var limit := TracerLimit(s.usedHeap, grown, s.growthLimit, quarters);
    LimitFallsBehindIff(s.usedHeap, grown, s.growthLimit, quarters);
    RelimitedOk(s, limit, 0);
    u := Relimited(s, limit, 0);
    StillLinear(s, u, n);
  }

  lemma StillLinear(s: Space, u: Space, n: nat)
    requires Linear(s, n) && u == s.(heapSize := u.heapSize, groupNeeded := u.groupNeeded)
    ensures Linear(u, n)
  {
    forall g: nat | g < n ensures WhollyFree(u, g) { assert WhollyFree(s, g); }
  }

  // ------------------------------------------------------------------ sizes that are not an `int`

  /** 2 GiB are granted and no group is mapped; 16 KiB above 4 GiB are granted and get a group of 16 KiB. */
  lemma NarrowedSizes()
    ensures Ok(Bare(MAX_HEAP, MAX_HEAP, SIZE_MAX))
    ensures var s := Bare(MAX_HEAP, MAX_HEAP, SIZE_MAX);
      && CanClaim(s.table) && NewHuge(s, 0x8000_0000).1 == Broken
      && var (u, r) := NewHuge(s, 0x1_0000_4000);
      r == Got(0) && |u.table.groups| == 1 && u.table.groups[0].capacity == 0x4000
  {
    BareOk(MAX_HEAP, MAX_HEAP, SIZE_MAX);
  }
}
