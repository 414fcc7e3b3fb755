/**
 What the heap space does to its page groups, page labels, free pages and byte counters.

 A page is numbered by its group and its place in the group. `tree` is the free-page tree, in whatever
 shape its history has left it, and `pages` are the pages in it. A page on its way between the tree and
 an allocation is `held`: the tree has given it out but no label says so yet, or its label is already
 cleared but the tree has not got it back.
 */
module SpaceSpecs {
  import opened Collections
  import opened FreePageTree
  import LocalDeques
  import opened PageSets
  import opened TreePages
  import opened PG = PageGroupTables
  import opened TreeClimbs
  import opened TreeInsertions
  import opened TreeTops
  import PM = PageMaps

  const PAGE: nat := 0x4000
  const GROUP_PAGES: nat := 29
  const GROUP_BYTES: nat := 0x80000
  const VALID_BYTES: nat := 0x7_4000 // 29 pages
  const OVERHEAD: nat := 0xc000 // three pages: header, bitmap object, mark bits
  const STRIDE: nat := 0x4_0000 // page numbers per group
  const MAX_HEAP: nat := 0x2_0000_0000 // 2^14 groups
  const SIZE_MAX: nat := 0xffff_ffff_ffff_ffff
  const SHRINK_THRESHOLD: nat := 644245152 // the largest size not above six tenths of 1 GiB when both are floats

  datatype Space = Space(table: Table, maps: seq<PM.Pages>, tree: Tree<()>, pages: set<nat>, held: set<nat>,
                         inUse: int, usedMem: int, usedHeap: int,
                         heapSize: nat, growthLimit: nat, pageLimit: nat, groupNeeded: bool)

  // ------------------------------------------------------------------ page numbers

  function PageAt(g: nat, i: nat): nat { g * STRIDE + i }
  function GroupOf(p: nat): nat { p / STRIDE }
  function IndexOf(p: nat): nat { p % STRIDE }

  lemma PageNumbering(g: nat, i: nat)
    requires i < STRIDE
    ensures GroupOf(PageAt(g, i)) == g && IndexOf(PageAt(g, i)) == i
    ensures g < GROUPS && i < GROUP_PAGES ==> PageAt(g, i) + 1 < 0x1_0000_0000
  {
  }

  predicate Normal(t: Table, g: nat) {
    g < |t.groups| && t.groups[g].live && !t.groups[g].huge
  }

  /** Page `p` is an object page of a mapped normal group. */
  predicate InGroup(t: Table, p: nat) {
    Normal(t, GroupOf(p)) && IndexOf(p) < GROUP_PAGES
  }

  ghost function Block(g: nat): set<nat> {
    Span(PageAt(g, 0), GROUP_PAGES)
  }

  ghost function AllPages(t: Table): set<nat> {
    PagesBelow(t, |t.groups|)
  }

  ghost function PagesBelow(t: Table, n: nat): set<nat> {
    if n == 0 then {}
    else if Normal(t, n - 1) then PagesBelow(t, n - 1) + Block(n - 1)
    else PagesBelow(t, n - 1)
  }

  lemma InBlock(g: nat, p: nat)
    ensures p in Block(g) <==> GroupOf(p) == g && IndexOf(p) < GROUP_PAGES
  {
  }

  lemma InAllPages(t: Table, p: nat)
    ensures p in AllPages(t) <==> InGroup(t, p)
  {
    InPagesBelow(t, |t.groups|, p);
  }

  lemma {:induction false} InPagesBelow(t: Table, n: nat, p: nat)
    requires n <= |t.groups|
    ensures p in PagesBelow(t, n) <==> InGroup(t, p) && GroupOf(p) < n
  {
    if n != 0 {
      InPagesBelow(t, n - 1, p);
      InBlock(n - 1, p);
    }
  }

  // ------------------------------------------------------------------ byte sums over the groups

  function HugePart(g: Group): nat { if g.live && g.huge then g.capacity else 0 }
  function MappedPart(g: Group): nat { if g.live then g.mapped else 0 }

  function Sum(gs: seq<Group>, f: Group -> nat): nat {
    if gs == [] then 0 else Sum(gs[..|gs| - 1], f) + f(gs[|gs| - 1])
  }

  lemma {:induction false} SumUpdate(gs: seq<Group>, f: Group -> nat, g: nat, x: Group)
    requires g < |gs|
    ensures Sum(gs[g := x], f) == Sum(gs, f) - f(gs[g]) + f(x)
  {
    var n := |gs| - 1;
    if g == n {
      assert gs[g := x][..n] == gs[..n];
    } else {
      SumUpdate(gs[..n], f, g, x);
      assert gs[g := x][..n] == gs[..n][g := x];
    }
  }

  lemma SumAppend(gs: seq<Group>, f: Group -> nat, x: Group)
    ensures Sum(gs + [x], f) == Sum(gs, f) + f(x)
  {
    assert (gs + [x])[..|gs|] == gs;
  }

  lemma {:induction false} SumAtLeast(gs: seq<Group>, f: Group -> nat, b: nat)
    requires forall g :: 0 <= g < |gs| ==> b <= f(gs[g])
    ensures b * |gs| <= Sum(gs, f)
  {
    if gs != [] {
      SumAtLeast(gs[..|gs| - 1], f, b);
      assert b * |gs| == b * (|gs| - 1) + b;
    }
  }

  // ------------------------------------------------------------------ invariant

  ghost predicate GroupSized(g: Group) {
    g.live ==> if g.huge then GROUP_BYTES <= g.mapped else g.capacity == VALID_BYTES && g.mapped == GROUP_BYTES
  }

  ghost predicate TableOk(s: Space) {
    && Valid(s.table) && |s.table.groups| <= GROUPS
    && forall g :: 0 <= g < |s.table.groups| ==> GroupSized(s.table.groups[g])
  }

  ghost predicate MapOk(m: PM.Pages) {
    |m.labels| == GROUP_PAGES && PM.Valid(m)
  }

  ghost predicate MapsOk(s: Space) {
    && |s.maps| == |s.table.groups|
    && forall g: nat :: Normal(s.table, g) ==> MapOk(s.maps[g])
  }

  ghost predicate FreeByLabel(s: Space, p: nat) {
    var g, i := GroupOf(p), IndexOf(p);
    g < |s.maps| && i < |s.maps[g].labels| && PM.IsFree(s.maps[g].labels[i])
  }

  ghost predicate PageOk(s: Space, p: nat) {
    if InGroup(s.table, p) then
      !(p in s.pages && p in s.held) && (FreeByLabel(s, p) <==> p in s.pages || p in s.held)
    else
      p !in s.pages && p !in s.held
  }

  /** A page of a normal group is labelled free exactly when it is in the tree or on its way. */
  ghost predicate PagesOk(s: Space) {
    forall p: nat :: PageOk(s, p)
  }

  /** Usable bytes that are not allocated are exactly the bytes of the pages in the tree. */
  ghost predicate Counted(s: Space) {
    && s.inUse + PAGE * |s.pages| == s.usedMem
    && s.usedMem == PAGE * |AllPages(s.table)| + Sum(s.table.groups, HugePart)
    && s.usedHeap == Sum(s.table.groups, MappedPart)
  }

  ghost predicate TreeOk(s: Space) {
    Sorted(s.tree) && PagesIn(s.tree) == s.pages
  }

  /** What every operation keeps. The size order of the tree is not part of it. */
  ghost predicate Ok(s: Space) {
    TableOk(s) && MapsOk(s) && PagesOk(s) && Counted(s) && TreeOk(s)
  }

  /** The allocated bytes are the huge objects and the pages of normal groups that are not in the tree. */
  lemma AllocatedIsWhatIsNotInTheTree(s: Space)
    requires Ok(s)
    ensures s.pages <= AllPages(s.table)
    ensures s.inUse == PAGE * |AllPages(s.table) - s.pages| + Sum(s.table.groups, HugePart) >= 0
  {
    forall p | p in s.pages ensures p in AllPages(s.table) {
      assert PageOk(s, p);
      InAllPages(s.table, p);
    }
    PartSize(AllPages(s.table), s.pages);
  }

  /** Pages that follow each other in the tree, or on their way, belong to one group. */
  lemma RunInOneGroup(t: Table, a: nat, n: nat)
    requires 0 < n && forall p: nat :: a <= p < a + n ==> InGroup(t, p)
    ensures IndexOf(a) + n <= GROUP_PAGES && Normal(t, GroupOf(a))
    ensures forall p: nat :: a <= p < a + n ==> GroupOf(p) == GroupOf(a) && IndexOf(p) == IndexOf(a) + (p - a)
  {
    assert InGroup(t, a);
    var end := PageAt(GroupOf(a), GROUP_PAGES);
    PageNumbering(GroupOf(a), GROUP_PAGES);
    assert end < a + n ==> InGroup(t, end);
  }

  /** A region of the free-page tree, and so every chunk cut from one, lies in one normal group. */
  lemma RegionInOneGroup(s: Space, a: nat, n: nat)
    requires Ok(s) && 0 < n && RunAt(s.pages, a, n)
    ensures Normal(s.table, GroupOf(a)) && IndexOf(a) + n <= GROUP_PAGES && Span(a, n) <= Block(GroupOf(a))
  {
    forall p: nat | a <= p < a + n ensures InGroup(s.table, p) { assert PageOk(s, p); }
    RunInOneGroup(s.table, a, n);
    forall p | p in Span(a, n) ensures p in Block(GroupOf(a)) { InBlock(GroupOf(a), p); }
  }

  /** No region of the tree is bigger than a group. */
  lemma RegionsFit(s: Space)
    requires Ok(s)
    ensures AllAtMost(s.tree, GROUP_PAGES) && RootSize(s.tree) <= GROUP_PAGES
  {
    forall a: nat, c: nat | HasRegion(s.tree, a, c) ensures c <= GROUP_PAGES { RegionFits(s, a, c); }
    AllAtMostIf(s.tree, GROUP_PAGES);
  }

  lemma RegionFits(s: Space, a: nat, c: nat)
    requires Ok(s) && HasRegion(s.tree, a, c)
    ensures RunAt(s.pages, a, c) && c <= GROUP_PAGES
  {
    RegionIsRun(s.tree, a, c);
    PagesAreCovered(s.tree);
    if c != 0 { RegionInOneGroup(s, a, c); }
  }

  // ------------------------------------------------------------------ moving pages

  /** The tree with the pages [a, a+n) merged in; the program aborts when the merge is refused. */
  ghost function Added(t: Tree<()>, a: nat, n: nat): Tree<()> {
    match StackInsert(t, a, n, (), LocalDeques.LOCAL_LENGTH)
    case Inserted(u) => u
    case Clash => t
  }

  /** Pages that are not in the tree are never refused; the size order stays exactly under the tree's condition. */
  lemma AddedTree(t: Tree<()>, a: nat, n: nat)
    requires Sorted(t) && 0 < n && Span(a, n) !! PagesIn(t)
    ensures StackInsert(t, a, n, (), LocalDeques.LOCAL_LENGTH).Inserted?
    ensures Sorted(Added(t, a, n)) && PagesIn(Added(t, a, n)) == PagesIn(t) + Span(a, n)
    ensures Heap(t) ==> (Heap(Added(t, a, n)) <==> SizeOrderSurvives(t, a, n, LocalDeques.LOCAL_LENGTH))
  {
    NotCovered(t, a, n);
    ClearMeansNoCoveredPage(t, a, a + n);
    InsertClashIff(t, a, n, ());
    StackInsertAgrees(t, a, n, (), LocalDeques.LOCAL_LENGTH);
    InsertSorted(t, a, n, ());
    InsertAddsExactly(t, a, n, ());
    AddedPages(t, Added(t, a, n), a, n);
  }

  /** The first `n` pages that the search of the tree comes to are given out. */
  ghost function Taken(s: Space, n: nat): Space
    requires FindIn(s.tree, n).Found?
  {
    var Found(a, t) := FindIn(s.tree, n);
    s.(tree := t, pages := s.pages - Span(a, n), held := s.held + Span(a, n), inUse := s.inUse + PAGE * n)
  }

  ghost function Returned(s: Space, a: nat, n: nat): Space {
    s.(tree := Added(s.tree, a, n), pages := s.pages + Span(a, n), held := s.held - Span(a, n),
       inUse := s.inUse - PAGE * n)
  }

  /** The pages [a, a+n) get the labels of an allocation. */
  ghost function Labelled(s: Space, a: nat, n: nat, head: PM.Label): Space
    requires GroupOf(a) < |s.maps|
  {
    var g := GroupOf(a);
    s.(maps := s.maps[g := PM.Put(s.maps[g], IndexOf(a), n, head)], held := s.held - Span(a, n))
  }

  ghost function Unlabelled(s: Space, a: nat, n: nat, x: PM.Label): Space
    requires GroupOf(a) < |s.maps|
  {
    var g := GroupOf(a);
    s.(maps := s.maps[g := PM.Cleared(s.maps[g], IndexOf(a), n, x)], held := s.held + Span(a, n))
  }

  lemma TakenOk(s: Space, n: nat)
    requires Ok(s) && 0 < n && FindIn(s.tree, n).Found?
    ensures RunAt(s.pages, FindIn(s.tree, n).a, n) && RunAt(Taken(s, n).held, FindIn(s.tree, n).a, n)
    ensures Ok(Taken(s, n)) && (Heap(s.tree) ==> Heap(Taken(s, n).tree))
  {
    var u, a := Taken(s, n), FindIn(s.tree, n).a;
    FindIsRun(s.tree, n);
    PartSize(s.pages, Span(a, n));
    forall p: nat ensures PageOk(u, p) { assert PageOk(s, p); }
  }

  lemma ReturnedOk(s: Space, a: nat, n: nat)
    requires Ok(s) && 0 < n && RunAt(s.held, a, n)
    ensures Ok(Returned(s, a, n)) && Returned(s, a, n).inUse >= 0
    ensures StackInsert(s.tree, a, n, (), LocalDeques.LOCAL_LENGTH).Inserted?
    ensures Heap(s.tree) ==>
      (Heap(Returned(s, a, n).tree) <==> SizeOrderSurvives(s.tree, a, n, LocalDeques.LOCAL_LENGTH))
  {
    var u := Returned(s, a, n);
    forall p | p in s.pages ensures p !in Span(a, n) { assert PageOk(s, p); }
    AddedTree(s.tree, a, n);
    DisjointSize(s.pages, Span(a, n));
    forall p: nat ensures PageOk(u, p) { assert PageOk(s, p); }
    AllocatedIsWhatIsNotInTheTree(u);
  }

  lemma HeldRun(s: Space, a: nat, n: nat)
    requires Ok(s) && RunAt(s.held, a, n) && 0 < n
    ensures IndexOf(a) + n <= GROUP_PAGES && Normal(s.table, GroupOf(a)) && GroupOf(a) < |s.maps|
    ensures PM.AllFree(s.maps[GroupOf(a)].labels, IndexOf(a), n)
  {
    var g, i := GroupOf(a), IndexOf(a);
    forall p: nat | a <= p < a + n ensures InGroup(s.table, p) { assert PageOk(s, p); }
    RunInOneGroup(s.table, a, n);
    assert MapOk(s.maps[g]);
    forall k: nat | i <= k < i + n ensures PM.IsFree(s.maps[g].labels[k]) {
      var p := a + (k - i);
      assert PageOk(s, p);
      assert IndexOf(p) == k && GroupOf(p) == g;
    }
  }

  lemma LabelledOk(s: Space, a: nat, n: nat, head: PM.Label)
    requires Ok(s) && PM.IsHead(head) && 0 < n && RunAt(s.held, a, n)
    ensures GroupOf(a) < |s.maps| && Ok(Labelled(s, a, n, head))
  {
    HeldRun(s, a, n);
    var u := Labelled(s, a, n, head);
    var g := GroupOf(a);
    assert MapOk(s.maps[g]);
    PM.PutValid(s.maps[g], IndexOf(a), n, head);
    assert MapOk(u.maps[g]);
    forall p: nat ensures PageOk(u, p) {
      assert PageOk(s, p);
      SpanByIndex(a, n, p);
      if InGroup(s.table, p) && GroupOf(p) == g { PM.FreeAfterPut(s.maps[g], IndexOf(a), n, head, IndexOf(p)); }
    }
  }

  lemma SpanByIndex(a: nat, n: nat, p: nat)
    requires IndexOf(a) + n <= GROUP_PAGES
    ensures p in Span(a, n) <==> GroupOf(p) == GroupOf(a) && IndexOf(a) <= IndexOf(p) < IndexOf(a) + n
  {
  }

  /** An allocation starts at page `a` and has `n` pages. */
  ghost predicate Holds(s: Space, a: nat, n: nat) {
    && MapsOk(s) && InGroup(s.table, a)
    && IndexOf(a) in s.maps[GroupOf(a)].sizes && s.maps[GroupOf(a)].sizes[IndexOf(a)] == n
  }

  lemma HoldsSpan(s: Space, a: nat, n: nat)
    requires Ok(s) && Holds(s, a, n)
    ensures 0 < n && IndexOf(a) + n <= GROUP_PAGES
    ensures forall p: nat :: a <= p < a + n ==> InGroup(s.table, p) && !FreeByLabel(s, p)
  {
    var m, i := s.maps[GroupOf(a)], IndexOf(a);
    assert MapOk(m) && PM.Extends(m, i, n);
    forall p: nat | a <= p < a + n ensures InGroup(s.table, p) && !FreeByLabel(s, p) {
      SpanByIndex(a, n, p);
      PM.OwnedPagesAreNotFree(m, i, IndexOf(p));
    }
  }

  lemma UnlabelledOk(s: Space, a: nat, n: nat, x: PM.Label)
    requires Ok(s) && Holds(s, a, n) && PM.IsFree(x)
    ensures Ok(Unlabelled(s, a, n, x)) && RunAt(Unlabelled(s, a, n, x).held, a, n)
  {
    HoldsSpan(s, a, n);
    var u := Unlabelled(s, a, n, x);
    var g := GroupOf(a);
    assert MapOk(s.maps[g]);
    PM.ClearedValid(s.maps[g], IndexOf(a), x);
    assert MapOk(u.maps[g]);
    forall p: nat ensures PageOk(u, p) {
      assert PageOk(s, p);
      SpanByIndex(a, n, p);
      if InGroup(s.table, p) && GroupOf(p) == g { PM.FreeAfterCleared(s.maps[g], IndexOf(a), n, x, IndexOf(p)); }
    }
  }
}
