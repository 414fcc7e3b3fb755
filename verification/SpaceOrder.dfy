/**
 How long the free-page tree of a space keeps its size order: as long as at most 136 groups' worth of
 bytes are mapped there are too few regions for an insertion to lose it.
 */
module SpaceOrders {
  import opened Collections
  import opened FreePageTree
  import LocalDeques
  import opened PageSets
  import opened TreeClimbs
  import opened TreeInsertions
  import opened TreePages
  import opened TreePaths
  import opened PG = PageGroupTables
  import opened SS = SpaceSpecs
  import opened SG = SpaceGrowths
  import opened SR = SpaceReleases
  import PM = PageMaps

  const FEW: nat := 136 * GROUP_BYTES

  // ------------------------------------------------------------------ counting regions

  /** The pages of the regions, each with the page behind it. */
  ghost function Spots<R>(t: Tree<R>): set<nat> {
    match t
    case Leaf => {}
    case Node(_, k1, k2, l, r) => Span(k1, k2 + 1) + Spots(l) + Spots(r)
  }

  lemma {:induction false} SpotsInBounds<R>(t: Tree<R>, p: nat)
    requires p in Spots(t)
    ensures forall b :: EndsBefore(t, b) ==> p < b
    ensures forall b :: StartsAfter(t, b) ==> b < p
  {
    if p in Spots(t.l) { SpotsInBounds(t.l, p); }
    if p in Spots(t.r) { SpotsInBounds(t.r, p); }
  }

  lemma {:induction false} SpotsAreBehindPages<R>(t: Tree<R>, p: nat)
    requires Sorted(t) && p in Spots(t)
    ensures Covers(t, p) || Covers(t, p - 1)
  {
    if p in Spots(t.l) { SpotsAreBehindPages(t.l, p); }
    if p in Spots(t.r) { SpotsAreBehindPages(t.r, p); }
  }

  lemma {:induction false} TwoSpotsEach<R>(t: Tree<R>)
    requires Sorted(t)
    ensures 2 * Size(t) <= |Spots(t)|
  {
    if t.Node? {
      TwoSpotsEach(t.l); TwoSpotsEach(t.r);
      forall p | p in Spots(t.l) ensures p < t.key1 { SpotsInBounds(t.l, p); }
      forall p | p in Spots(t.r) ensures t.key1 + t.key2 < p { SpotsInBounds(t.r, p); }
      DisjointSize(Span(t.key1, t.key2 + 1), Spots(t.l));
      DisjointSize(Span(t.key1, t.key2 + 1) + Spots(t.l), Spots(t.r));
    }
  }

  /** The pages of the normal groups below `n`, each group with the page behind it. */
  ghost function Wide(t: Table, n: nat): set<nat> {
    if n == 0 then {}
    else if Normal(t, n - 1) then Wide(t, n - 1) + Span(PageAt(n - 1, 0), GROUP_PAGES + 1)
    else Wide(t, n - 1)
  }

  lemma {:induction false} InWide(t: Table, n: nat, p: nat)
    requires Normal(t, GroupOf(p)) && IndexOf(p) <= GROUP_PAGES && GroupOf(p) < n
    ensures p in Wide(t, n)
  {
    if GroupOf(p) < n - 1 { InWide(t, n - 1, p); }
  }

  lemma {:induction false} WideSize(t: Table, n: nat)
    requires n <= |t.groups| && forall g :: 0 <= g < |t.groups| ==> GroupSized(t.groups[g])
    ensures |Wide(t, n)| * GROUP_BYTES <= 30 * Sum(t.groups[..n], MappedPart)
  {
    if n != 0 {
      WideSize(t, n - 1);
      assert t.groups[..n][..n - 1] == t.groups[..n - 1];
      assert GroupSized(t.groups[n - 1]);
      if Normal(t, n - 1) { JoinSize(Wide(t, n - 1), Span(PageAt(n - 1, 0), GROUP_PAGES + 1)); }
    }
  }

  lemma JoinSize<T>(a: set<T>, b: set<T>)
    ensures |a + b| <= |a| + |b|
  {
    DisjointSize(a, b - a);
    SubsetSize(b - a, b);
    assert a + b == a + (b - a);
  }

  /** No more than fifteen regions fit a group: they never touch. */
  lemma RegionsAreFew(s: Space)
    requires Ok(s)
    ensures Size(s.tree) * GROUP_BYTES <= 15 * s.usedHeap
  {
    var n := |s.table.groups|;
    forall p | p in Spots(s.tree) ensures p in Wide(s.table, n) { SpotInWide(s, p); }
    SubsetSize(Spots(s.tree), Wide(s.table, n));
    TwoSpotsEach(s.tree);
    WideSize(s.table, n);
    assert s.table.groups[..n] == s.table.groups;
  }

  lemma PageInWide(s: Space, q: nat, p: nat)
    requires Ok(s) && Covers(s.tree, q) && GroupOf(p) == GroupOf(q) && IndexOf(p) <= IndexOf(q) + 1
    ensures p in Wide(s.table, |s.table.groups|)
  {
    PagesAreCovered(s.tree);
    assert PageOk(s, q);
    InWide(s.table, |s.table.groups|, p);
  }

  lemma SpotInWide(s: Space, p: nat)
    requires Ok(s) && p in Spots(s.tree)
    ensures p in Wide(s.table, |s.table.groups|)
  {
    var q := BehindPage(s.tree, p);
    if q != p {
      CoveredInGroup(s, q);
      PageBehind(q);
    }
    PageInWide(s, q, p);
  }

  lemma BehindPage(t: Tree<()>, p: nat) returns (q: nat)
    requires Sorted(t) && p in Spots(t)
    ensures Covers(t, q) && (q == p || q + 1 == p)
  {
    SpotsAreBehindPages(t, p);
    if Covers(t, p) { return p; }
    NotBelowZero(t, p - 1);
    q := p - 1;
  }

  lemma CoveredInGroup(s: Space, q: nat)
    requires Ok(s) && Covers(s.tree, q)
    ensures IndexOf(q) < GROUP_PAGES
  {
    PagesAreCovered(s.tree);
    assert PageOk(s, q);
  }

  lemma PageBehind(p: nat)
    requires IndexOf(p) < GROUP_PAGES
    ensures GroupOf(p + 1) == GroupOf(p) && IndexOf(p + 1) == IndexOf(p) + 1
  {
  }

  /** Up to that limit no insertion is too deep. */
  lemma FewRegions(s: Space, a: nat, n: nat)
    requires Ok(s) && s.usedHeap <= FEW
    ensures Size(s.tree) <= 2040 && GroupDepth(s) <= LocalDeques.LOCAL_LENGTH
    ensures SizeOrderSurvives(s.tree, a, n, LocalDeques.LOCAL_LENGTH)
  {
    RegionsAreFew(s);
    SearchDepthAtMostSize(s.tree, a, n);
    SearchDepthAtMostSize(s.tree, PageAt(s.table.current, 0), GROUP_PAGES);
  }

  // ------------------------------------------------------------------ runs of a space

  /** What a space can be asked to do. */
  datatype Action =
    | Request(n: nat, extension: bool, busy: bool)
    | Lay(a: nat, n: nat, head: PM.Label)
    | Wipe(a: nat, n: nat, mark: PM.Label)
    | GiveBack(a: nat, n: nat)
    | Huge(bytes: nat)
    | DropHuge(g: nat)
    | DropGroups
    | Relimit(limit: nat, bytes: nat)

  ghost predicate Can(s: GoodSpace, x: Action) {
    match x
    case Request(_, _, _) => s.heapSize <= MAX_HEAP
    case Lay(a, n, head) => PM.IsHead(head) && 0 < n && RunAt(s.held, a, n)
    case Wipe(a, n, mark) => Holds(s, a, n) && PM.IsFree(mark)
    case GiveBack(a, n) => 0 < n && RunAt(s.held, a, n)
    case Huge(bytes) => s.heapSize <= MAX_HEAP && VALID_BYTES < bytes < 0x8000_0000
    case DropHuge(g) => g < |s.table.groups| && s.table.groups[g].live && s.table.groups[g].huge
    case DropGroups => true
    case Relimit(_, _) => true
  }

  /** Every action leaves a space in order. */
  ghost function Next(s: GoodSpace, x: Action): GoodSpace
    requires Can(s, x)
  {
    match x
    case Request(n, extension, busy) => AllocOk(s, n, extension, busy); SG.Alloc(s, n, extension, busy).0
    case Lay(a, n, head) => LabelledOk(s, a, n, head); Labelled(s, a, n, head)
    case Wipe(a, n, mark) => WipedOk(s, a, n, mark); Unlabelled(s, a, n, mark)
    case GiveBack(a, n) => ReturnedOk(s, a, n); Returned(s, a, n)
    case Huge(bytes) => NewHugeOk(s, bytes); NewHuge(s, bytes).0
    case DropHuge(g) => ReleasedHugeOk(s, g); ReleasedHuge(s, g)
    case DropGroups => FreedOk(s); Freed(s)
    case Relimit(limit, bytes) => RelimitedOk(s, limit, bytes); Relimited(s, limit, bytes)
  }

  lemma WipedOk(s: Space, a: nat, n: nat, mark: PM.Label)
    requires Ok(s) && Holds(s, a, n) && PM.IsFree(mark)
    ensures GroupOf(a) < |s.maps| && Ok(Unlabelled(s, a, n, mark))
  {
    HoldsSpan(s, a, n);
    UnlabelledOk(s, a, n, mark);
  }

  lemma FreedOk(s: GoodSpace)
    ensures Ok(Freed(s)) && (Heap(s.tree) ==> Heap(Freed(s).tree))
  {
    ReleasesTheTopGroups(s);
    var u := AllReleased(s).0;
    forall p: nat ensures PageOk(Freed(s), p) { assert PageOk(u, p); }
  }

  /** One action keeps the size order as long as few groups are mapped before it. */
  lemma NextKeepsOrder(s: GoodSpace, x: Action)
    requires Can(s, x) && Heap(s.tree) && s.usedHeap <= FEW
    ensures Heap(Next(s, x).tree)
  {
    match x {
      case Request(n, extension, busy) => AllocKeepsOrder(s, n, extension, busy);
      case Lay(a, n, head) => LabelledOk(s, a, n, head);
      case Wipe(a, n, mark) => WipedOk(s, a, n, mark);
      case GiveBack(a, n) => ReturnedOk(s, a, n); FewRegions(s, a, n);
      case Huge(bytes) => NewHugeOk(s, bytes);
      case DropHuge(g) => ReleasedHugeOk(s, g);
      case DropGroups => FreedOk(s);
      case Relimit(limit, bytes) => RelimitedOk(s, limit, bytes);
    }
  }

  lemma ChunkKeepsOrder(s: Space, n: nat)
    requires Ok(s) && Heap(s.tree)
    ensures Heap(Chunk(s, n).0.tree)
  {
    if Chunk(s, n).1.Some? { TakenOk(s, n); }
  }

  lemma AllocKeepsOrder(s: Space, n: nat, extension: bool, busy: bool)
    requires Ok(s) && s.heapSize <= MAX_HEAP && Heap(s.tree) && s.usedHeap <= FEW
    ensures CanClaim(s.table) && Heap(SG.Alloc(s, n, extension, busy).0.tree)
  {
    ExtendedOk(s);
    ChunkKeepsOrder(s, n);
    ExtendedKeepsOrder(s);
    ChunkKeepsOrder(Extended(s), n);
  }

  lemma ExtendedKeepsOrder(s: Space)
    requires Ok(s) && s.heapSize <= MAX_HEAP && Heap(s.tree) && s.usedHeap <= FEW
    ensures CanClaim(s.table) && Heap(Extended(s).tree)
  {
    ExtendedOk(s);
    if Headroom(s) >= GROUP_BYTES {
      GrownOk(s);
      FewRegions(s, PageAt(s.table.current, 0), GROUP_PAGES);
    }
  }

  ghost predicate Runs(states: seq<GoodSpace>, actions: seq<Action>) {
    && |states| == |actions| + 1
    && forall i :: 0 <= i < |actions| ==> Can(states[i], actions[i]) && states[i + 1] == Next(states[i], actions[i])
  }

  /** In every run in which no more than 136 groups' worth of bytes are ever mapped, every state is in size order. */
  lemma {:induction false} OrderInEveryRun(states: seq<GoodSpace>, actions: seq<Action>, i: nat)
    requires Runs(states, actions) && Heap(states[0].tree) && i < |states|
    requires forall j :: 0 <= j < i ==> states[j].usedHeap <= FEW
    ensures Heap(states[i].tree)
  {
    if i != 0 {
      OrderInEveryRun(states, actions, i - 1);
      NextKeepsOrder(states[i - 1], actions[i - 1]);
    }
  }

  // ------------------------------------------------------------------ what holds in size order

  /** In such a state a request succeeds exactly when so many pages are free in a row or a new group may be mapped. */
  lemma FewAllocSucceedsIff(s: Space, n: nat, extension: bool, busy: bool)
    requires Ok(s) && s.heapSize <= MAX_HEAP && Heap(s.tree) && s.usedHeap <= FEW
    ensures CanClaim(s.table)
    ensures SG.Alloc(s, n, extension, busy).1.Some? <==>
      && 0 < n && !ExceedsLimit(s, PAGE * n)
      && (HasRun(s.pages, n) || (extension && !busy && Headroom(s) >= GROUP_BYTES && n <= GROUP_PAGES))
  {
    FewRegions(s, 0, 1);
    AllocFindsIff(s, n, extension, busy);
  }

  /** And one that failed for want of a group succeeds after the adjustment exactly when the growth limit allows it. */
  lemma FewNeededGroupIsGranted(s: Space, n: nat, bytes: nat)
    requires Ok(s) && s.heapSize <= MAX_HEAP && s.growthLimit <= MAX_HEAP && GROUP_BYTES <= s.growthLimit
    requires 0 < n <= GROUP_PAGES && !ExceedsLimit(s, PAGE * n)
    requires Heap(s.tree) && s.usedHeap <= FEW
    ensures CanClaim(s.table)
    ensures var (u, r) := SG.Alloc(s, n, true, false);
      r.None? ==>
        && u.groupNeeded
        && var v := Adjusted(u, bytes);
        && Ok(v) && CanClaim(v.table)
        && (SG.Alloc(v, n, true, false).1.Some? <==> s.usedHeap + GROUP_BYTES <= s.growthLimit)
  {
    FewRegions(s, 0, 1);
    AllocFindsIff(s, n, true, false);
    if Headroom(s) < GROUP_BYTES { NeededGroupIsGranted(s, n, bytes); }
  }
}
