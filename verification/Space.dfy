/**
 The heap space as the code that changes its fields, on top of the heap form of the free-page tree
 and the table of page groups.
 */
module Spaces {
  import opened Collections
  import opened PageSets
  import opened TreePages
  import opened SS = SpaceSpecs
  import opened SG = SpaceGrowths
  import SR = SpaceReleases
  import ST = SpaceStarts
  import PG = PageGroupTables
  import FT = FreePageTree
  import TE = TreeErasures
  import TI = TreeInsertions
  import CT = CartesianTrees
  import LocalDeques

  /** The free-page tree, in the heap form that loses its size order when a search path gets too long. */
  class PageManager {
    const tree: CT.CartesianTree

    ghost var nodes: set<CT.TreeNode>

    ghost function Repr(): set<object>
      reads this
    {
      {this, tree} + nodes
    }

    /** The tree without its heap nodes, as long as these are linked properly and in search order. */
    ghost function Value(): Option<FT.Tree<()>>
      reads Repr()
    {
      if FT.Refs(tree.t) == nodes && tree.Ordered() then Some(TE.Erase(tree.t)) else None
    }

    constructor ()
      ensures Value() == Some(FT.Leaf) && fresh(Repr())
    {
      tree := new CT.CartesianTree();
      nodes := {};
    }

    /** First fit over the tree: it serves a request exactly when the region at the root is big enough. */
    method GetChunk(n: nat, ghost t: FT.Tree<()>) returns (r: Option<nat>)
      requires Value() == Some(t)
      modifies Repr()
      ensures Repr() <= old(Repr())
      ensures r.Some? <==> 0 < n <= FT.RootSize(t)
      ensures r.Some? ==> FT.FindIn(t, n).Found? && r.value == FT.FindIn(t, n).a
      ensures Value() == Some(if r.Some? then FT.FindIn(t, n).t else t)
    {
      TE.EraseSorted(tree.t);
      TE.EraseSize(tree.t);
      var ok, a := tree.Find(n);
      nodes := FT.Refs(tree.t);
      if n != 0 { TI.FindSucceedsIff(t, n); }
      r := if ok then Some(a) else None;
    }

    /** Adds pages that are not in the tree; the merge is never refused. */
    method AddPages(a: nat, n: nat, ghost t: FT.Tree<()>)
      requires Value() == Some(t) && 0 < n && a + n < 0x1_0000_0000 && Span(a, n) !! PagesIn(t)
      modifies Repr()
      ensures fresh(Repr() - old(Repr()))
      ensures TI.StackInsert(t, a, n, (), LocalDeques.LOCAL_LENGTH).Inserted?
      ensures Value() == Some(Added(t, a, n))
    {
      hide Added, TE.Erase, FT.Refs;
      Merge(a, n, t);
      nodes := FT.Refs(tree.t);
    }

    method Merge(a: nat, n: nat, ghost t: FT.Tree<()>)
      requires Value() == Some(t) && 0 < n && a + n < 0x1_0000_0000 && Span(a, n) !! PagesIn(t)
      modifies tree, FT.Refs(tree.t)
      ensures fresh(FT.Refs(tree.t) - old(FT.Refs(tree.t)))
      ensures TI.StackInsert(t, a, n, (), LocalDeques.LOCAL_LENGTH).Inserted?
      ensures tree.Ordered() && TE.Erase(tree.t) == Added(t, a, n)
    {
      TE.EraseSorted(tree.t);
      AddedTree(t, a, n);
      var ok := tree.MergeInsert(a, n);
    }
  }

  /**
   The space. `space` is its state as SpaceSpec, SpaceGrowth and SpaceRelease see it, and every method
   changes it by exactly one of the operations there; by their lemmas `Ok(space)`, once true, stays true.
   The methods hide what the value of the tree is read off: they need only know what changes it.
   */
  class HeapSpace {
    const pageManager: PageManager
    const groups: PG.PageGroups
    var inUse: int
    var usedMem: int
    var usedHeap: int
    var heapSize: nat
    var growthLimit: nat
    var pageLimit: nat
    var groupNeeded: bool
    ghost var space: Space

    ghost predicate Agrees()
      reads this, pageManager.Repr(), groups, pageManager
    {
      && Shows(space)
      && space == space.(inUse := inUse, usedMem := usedMem, usedHeap := usedHeap, heapSize := heapSize,
                         growthLimit := growthLimit, pageLimit := pageLimit, groupNeeded := groupNeeded)
    }

    /** The parts of `s` that tree and group table hold. */
    ghost predicate Shows(s: Space)
      reads pageManager, pageManager.Repr(), groups
    {
      && pageManager.Value() == Some(s.tree) && groups.P() == s.table
      && this !in pageManager.Repr() && groups !in pageManager.Repr()
    }

    constructor (heapSize: nat, growthLimit: nat, pageLimit: nat)
      ensures fresh(groups) && fresh(pageManager.Repr()) && Agrees() && Ok(space)
      ensures space == ST.Bare(heapSize, growthLimit, pageLimit)
    {
      groups := new PG.PageGroups();
      pageManager := new PageManager();
      inUse, usedMem, usedHeap := 0, 0, 0;
      this.heapSize, this.growthLimit, this.pageLimit, groupNeeded := heapSize, growthLimit, pageLimit, false;
      space := ST.Bare(heapSize, growthLimit, pageLimit);
      new;
      ST.BareOk(heapSize, growthLimit, pageLimit);
    }

    method MapNext(i: nat, ghost base: SR.GoodSpace)
      requires ST.Untouched(base) && i < PG.GROUPS && Shows(ST.Expanse(base, i))
      modifies groups, pageManager.Repr()
      ensures Shows(ST.Expanse(base, i + 1)) && fresh(pageManager.Repr() - old(pageManager.Repr()))
    {
      hide PageManager.Value;
      ghost var u := ST.NextExpanse(base, i);
      MapGroup(ST.Expanse(base, i));
    }

    method MapGroups(count: nat, ghost base: SR.GoodSpace)
      requires ST.Untouched(base) && count <= PG.GROUPS && Shows(ST.Expanse(base, 0))
      modifies groups, pageManager.Repr()
      ensures Shows(ST.Expanse(base, count)) && fresh(pageManager.Repr() - old(pageManager.Repr()))
    {
      hide PageManager.Value, ST.Expanse;
      for i := 0 to count
        invariant Shows(ST.Expanse(base, i)) && fresh(pageManager.Repr() - old(pageManager.Repr()))
      {
        MapNext(i, base);
      }
    }

    /** Maps the groups that hold the first `startSize` bytes of the heap. */
    method Init(startSize: nat, ghost base: SR.GoodSpace)
      requires Agrees() && space == base && ST.Untouched(base) && startSize <= MAX_HEAP
      modifies this, groups, pageManager.Repr()
      ensures Agrees() && space == ST.Expanse(base, (startSize + GROUP_BYTES - 1) / GROUP_BYTES)
      ensures fresh(pageManager.Repr() - old(pageManager.Repr()))
    {
      hide PageManager.Value, Ok, ST.Linear;
      var count := (startSize + GROUP_BYTES - 1) / GROUP_BYTES;
      MapGroups(count, base);
      ST.ExpanseFields(base, count);
      StartCounters(count, ST.Expanse(base, count));
    }

    method StartCounters(count: nat, ghost u: Space)
      requires Shows(u) && u.inUse == 0 && u.usedHeap == GROUP_BYTES * count && u.usedMem == VALID_BYTES * count
      requires heapSize == u.heapSize && growthLimit == u.growthLimit && pageLimit == u.pageLimit
      requires groupNeeded == u.groupNeeded
      modifies this
      ensures Agrees() && space == u
    {
      hide PageManager.Value;
      inUse, usedHeap, usedMem := 0, count * GROUP_BYTES, count * VALID_BYTES;
      space := u;
    }

    // ---------------------------------------------------------------- chunks

    method GetChunk(n: nat) returns (r: Option<nat>)
      requires Agrees()
      modifies this, pageManager.Repr()
      ensures Agrees() && (space, r) == Chunk(old(space), n) && pageManager.Repr() <= old(pageManager.Repr())
    {
      hide PageManager.Value;
      if n != 0 { TI.FindSucceedsIff(space.tree, n); }
      r := pageManager.GetChunk(n, space.tree);
      if r.Some? {
        inUse, space := inUse + PAGE * n, Taken(space, n);
      }
    }

    /** Takes back pages that were given out. */
    method FreeRegion(a: nat, n: nat, ghost start: SR.GoodSpace)
      requires Agrees() && space == start && 0 < n && RunAt(start.held, a, n)
      modifies this, pageManager.Repr()
      ensures Agrees() && space == Returned(old(space), a, n)
      ensures fresh(pageManager.Repr() - old(pageManager.Repr()))
    {
      hide PageManager.Value, Ok;
      HeldFits(start, a, n);
      pageManager.AddPages(a, n, start.tree);
      inUse, space := inUse - PAGE * n, Returned(space, a, n);
    }

    // ---------------------------------------------------------------- growing

    /** Maps a group and puts its pages in the tree; the counters are left to the caller. */
    method MapGroup(ghost s: Space)
      requires Shows(s) && PG.Valid(s.table) && |s.maps| == |s.table.groups|
      requires Block(s.table.current) !! PagesIn(s.tree) && s.table.current < PG.GROUPS
      modifies groups, pageManager.Repr()
      ensures CanClaim(s.table) && Shows(Grown(s)) && fresh(pageManager.Repr() - old(pageManager.Repr()))
    {
      hide PageManager.Value;
      AlwaysCanClaim(s.table);
      PageNumbering(s.table.current, GROUP_PAGES - 1);
      var g := groups.NewGroup(false, VALID_BYTES, GROUP_BYTES);
      pageManager.AddPages(PageAt(g, 0), GROUP_PAGES, s.tree);
    }

    method NewPageGroup(ghost start: SR.GoodSpace)
      requires Agrees() && space == start && start.usedHeap < MAX_HEAP
      modifies this, groups, pageManager.Repr()
      ensures CanClaim(start.table) && Agrees() && space == Grown(start)
      ensures fresh(pageManager.Repr() - old(pageManager.Repr()))
    {
      hide PageManager.Value, Ok;
      CanMap(start);
      MapGroup(space);
      usedHeap, usedMem, space := usedHeap + GROUP_BYTES, usedMem + VALID_BYTES, Grown(space);
    }

    method Extend(ghost start: SR.GoodSpace) returns (ghost u: SR.GoodSpace)
      requires Agrees() && space == start && start.heapSize <= MAX_HEAP
      modifies this, groups, pageManager.Repr()
      ensures CanClaim(start.table) && Agrees() && space == u == Extended(start)
      ensures fresh(pageManager.Repr() - old(pageManager.Repr()))
    {
      hide PageManager.Value;
      ExtendedOk(start);
      u := Extended(start);
      if (if heapSize > usedHeap then heapSize - usedHeap else 0) >= GROUP_BYTES {
        NewPageGroup(start);
      } else {
        NeedGroup();
      }
    }

    method NeedGroup()
      requires Agrees()
      modifies `groupNeeded, `space
      ensures Agrees() && space == old(space).(groupNeeded := true)
    {
      hide PageManager.Value;
      groupNeeded := true;
      space := space.(groupNeeded := true);
    }

    /** `busy` stands for the answer of the collector when the request is of the most patient kind. */
    method Alloc(n: nat, allowExtension: bool, busy: bool, ghost start: SR.GoodSpace) returns (r: Option<nat>)
      requires Agrees() && space == start && start.heapSize <= MAX_HEAP
      modifies this, groups, pageManager.Repr()
      ensures CanClaim(start.table) && Agrees() && (space, r) == SG.Alloc(start, n, allowExtension, busy)
      ensures fresh(pageManager.Repr() - old(pageManager.Repr()))
    {
      hide PageManager.Value, Ok;
      ExtendedOk(start);
      if SaturatingAdd(inUse, PAGE * n) > pageLimit {
        return None;
      }
      if usedMem - inUse >= PAGE * n {
        r := GetChunk(n);
        if r.Some? {
          return;
        }
      }
      if !allowExtension || busy {
        return None;
      }
      ghost var u := Extend(start);
      r := GetChunk(n);
    }

    // ---------------------------------------------------------------- huge objects

    method NewHugeGroup(bytes: nat) returns (r: SR.HugeAnswer)
      requires Agrees() && PG.Valid(space.table) && |space.maps| == |space.table.groups|
      modifies this, groups
      ensures CanClaim(old(space).table) && Agrees()
      ensures (space, r) == SR.NewHuge(old(space), bytes)
    {
      hide PageManager.Value;
      AlwaysCanClaim(space.table);
      if (if heapSize > usedHeap then heapSize - usedHeap else 0) < bytes || SaturatingAdd(inUse, bytes) > pageLimit {
        return SR.Refused;
      }
      var size := SR.Narrowed(bytes);
      if size <= 0 {
        return SR.Broken;
      }
      var g := MapHuge(size);
      r := SR.Got(g);
    }

    method MapHuge(size: nat) returns (g: nat)
      requires Agrees() && PG.Valid(space.table) && |space.maps| == |space.table.groups|
      modifies this, groups
      ensures CanClaim(old(space).table) && Agrees() && space == SR.HugeMapped(old(space), size)
      ensures g == old(space).table.current
    {
      hide PageManager.Value;
      AlwaysCanClaim(space.table);
      g := groups.NewGroup(true, size, size + OVERHEAD);
      PG.ClaimedValid(space.table, true, size, size + OVERHEAD);
      ChargeHuge(g);
      space := SR.HugeMapped(space, size);
    }

    /** The counters after group `g` was mapped. */
    method ChargeHuge(g: nat)
      requires g < |groups.groups|
      modifies this`usedHeap, this`inUse, this`usedMem
      ensures usedHeap == old(usedHeap) + groups.groups[g].mapped
      ensures inUse == old(inUse) + groups.groups[g].capacity && usedMem == old(usedMem) + groups.groups[g].capacity
    {
      usedHeap := usedHeap + groups.groups[g].mapped;
      var size := groups.groups[g].capacity;
      inUse := inUse + size;
      usedMem := usedMem + size;
    }

    method ReleaseHugeMem(g: nat)
      requires Agrees() && g < |space.table.groups| && space.table.groups[g].live
      modifies this, groups
      ensures Agrees() && space == SR.ReleasedHuge(old(space), g)
    {
      hide PageManager.Value;
      usedHeap := usedHeap - groups.groups[g].mapped;
      usedMem := usedMem - groups.groups[g].capacity;
      inUse := inUse - groups.groups[g].capacity;
      groups.ReleaseMem(g);
      space := SR.ReleasedHuge(space, g);
    }

    // ---------------------------------------------------------------- giving groups back

    /** One round of the loop below: unmaps a wholly free group if there is one. */
    method ReleaseOneGroup(ghost s: SR.GoodSpace) returns (found: bool, ghost u: SR.GoodSpace)
      requires Shows(s)
      modifies pageManager.Repr(), groups
      ensures Shows(u) && pageManager.Repr() <= old(pageManager.Repr())
      ensures found ==> |u.pages| < |s.pages|
      ensures SR.AllReleased(s).0 == SR.AllReleased(u).0
      ensures SR.AllReleased(s).1 == SR.AllReleased(u).1 + if found then 1 else 0
      ensures !found ==> SR.AllReleased(u) == (u, 0)
    {
      hide PageManager.Value, Ok, SR.AllReleased;
      TI.FindSucceedsIff(s.tree, GROUP_PAGES);
      var r := pageManager.GetChunk(GROUP_PAGES, s.tree);
      if r.None? {
        SR.LastRound(s);
        return false, s;
      }
      u := SR.NextRound(s, r.value, pageManager.Value().value);
      groups.ReleaseMem(GroupOf(r.value));
      found := true;
    }

    /** Unmaps wholly free groups until none is found; the counters are left to the caller. */
    method ReleaseAllFreeGroups(ghost start: SR.GoodSpace) returns (count: nat)
      requires Shows(start)
      modifies pageManager.Repr(), groups
      ensures pageManager.Repr() <= old(pageManager.Repr())
      ensures Shows(SR.AllReleased(start).0) && count == SR.AllReleased(start).1
    {
      hide PageManager.Value;
      ghost var s: SR.GoodSpace := start;
      count := 0;
      while true
        invariant Shows(s) && pageManager.Repr() <= old(pageManager.Repr())
        invariant SR.AllReleased(start).0 == SR.AllReleased(s).0
        invariant SR.AllReleased(start).1 == SR.AllReleased(s).1 + count
        decreases |s.pages|
      {
        var found;
        found, s := ReleaseOneGroup(s);
        if !found {
          break;
        }
        count := count + 1;
      }
    }

    method ReleaseFreeGroups(ghost start: SR.GoodSpace) returns (count: nat)
      requires Agrees() && space == start
      modifies this, pageManager.Repr(), groups
      ensures pageManager.Repr() <= old(pageManager.Repr())
      ensures Agrees() && space == SR.Freed(start) && count == SR.AllReleased(start).1
    {
      hide PageManager.Value, Ok, SR.AllReleased, SR.Freed;
      count := ReleaseAllFreeGroups(start);
      SR.FreedFields(start);
      space := SR.Freed(start);
      Subtract(count);
    }

    /** The counters after `count` groups were unmapped. */
    method Subtract(count: nat)
      modifies this`usedHeap, this`usedMem, this`heapSize
      ensures usedHeap == old(usedHeap) - GROUP_BYTES * count && usedMem == old(usedMem) - VALID_BYTES * count
      ensures heapSize == SR.ShrunkLimit(old(heapSize), count)
    {
      usedHeap := usedHeap - count * GROUP_BYTES;
      usedMem := usedMem - count * VALID_BYTES;
      if heapSize > SHRINK_THRESHOLD && count > 0 {
        heapSize := (heapSize - count * GROUP_BYTES) % (SIZE_MAX + 1);
      }
    }

    // ---------------------------------------------------------------- the heap limit

    method AutoAdjustHeapSize(bytes: nat)
      requires Agrees()
      modifies this
      ensures Agrees() && space == SR.Adjusted(old(space), bytes)
    {
      hide PageManager.Value;
      var h: int := heapSize;
      if bytes > 0 {
        h := SaturatingAdd(SR.Max(h, usedHeap), SaturatingAdd(bytes, bytes / 5));
      }
      if groupNeeded {
        h := SR.Max(h, SaturatingAdd(usedHeap, GROUP_BYTES));
        groupNeeded := false;
      }
      heapSize := SR.Max(SR.Min(growthLimit, h), GROUP_BYTES);
      space := SR.Adjusted(space, bytes);
    }

    /** The tracer asks for a new limit. */
    method UpdateHeapSizeLimit(bytes: nat, newHeapSize: nat)
      requires Agrees()
      modifies this
      ensures Agrees() && space == SR.Relimited(old(space), newHeapSize, bytes)
    {
      hide PageManager.Value;
      heapSize := newHeapSize;
      space := space.(heapSize := newHeapSize);
      AutoAdjustHeapSize(bytes);
    }
  }
}
