# The PrimJS memory manager, modelled and proved

This project models the garbage-collected memory manager of PrimJS (`src/gc`): the free-page tree and
the heap space above it, the run and slot allocator, concurrent marking and sweeping, the collector's
phases, and the tables and queues they rest on. `dafny verify dfyconfig.toml` checks all of it.

## How the model is laid out

Code that changes fields in place appears twice: as functions on values that say what each operation
does to the abstract state, with lemmas about those functions, and as a class or method that changes
fields like the original and is proved to compute exactly those functions. Protocols between threads
are state machines, with one step for each atomic operation or lock-held section, and theorems about
every state of every run.

- **Free-page tree.** `FreePageTree` is the tree as a value, with search order, size-heap order, full
  coalescing, first fit, merging insertion and bulk deletion. `TreePaths` describes a node together
  with its path from the root, `LocalDeques` the stack the tree walks with, `TreeClimbs` and
  `TreeInsertions` what becomes of an insertion, and of the root, when that stack loses entries,
  `TreeTops` what repeated searches can reach then, and `CartesianTrees` the heap nodes, rewritten in
  place and proved to follow the value form node by node; `TreeErasures` forgets the nodes.
- **Heap space.** `TreePages` turns the tree into a set of pages. `PageGroupTables` is the group table
  with its chain of reusable slots and its barrier flags, `PageMaps` the page labels, `SpaceSpecs`,
  `SpaceGrowths` and `SpaceReleases` what allocation, growth and release do to the tree in its actual
  shape, to labels, groups and byte counters, `SpaceStarts` the space after its initialisation,
  `SpaceOrders` how long its tree stays in size order, `SpaceLosses` a run in which it does not, and
  `Spaces` the space and its page manager as classes, over the heap form of the tree.
- **Runs and slots.** `FreeLists` and `RunLists` are the intrusive lists on a heap, with object headers
  bit by bit; `TierFloats` is the arithmetic that chooses a tier; `ThreeTierLists`, `SlotPools` and
  `RunAllocSpecs` are the abstract state of one size class; `RunAllocators` the allocator.
- **Marking and sweeping.** `Marking` has 40 kinds of steps of the mutator, the workers and the main
  thread. `MarkingInv` proves its invariant, `MarkingSafety` the theorems, `MarkingEnds` that the
  workers come to rest. `HeapsOfSlots` puts marking and the slot allocator on one heap.
  `SweepSnapshots` covers the pages during a concurrent sweep, `Collectors` the phase machine,
  `Bitmaps` the mark bits, and `MemorySlots` and `ReleaseBatches` the accounting while sweeping threads
  release.
- **Supporting structures.** `ProbeTables` and `PointerSets`, `ThreadPools` and `ThreadPoolInv`,
  `HandleSpaces` and `GlobalHandleTable`, and `Collections` and `PageSets` for what several of these use.

Some fields exist only for the proofs, such as which node owns what or in which order a chain visits
its slots; their comments say so.

## Where code and comments differ

The model follows the code.

- `MergeInsert` is said to fail whenever `s` is 0 (cartesian_tree.h:67), but an empty tree accepts it
  and then holds a region of no pages. `CartesianTree.MergeInsert` says exactly this; what it promises
  for the tree's invariants is for `s > 0`.
- New objects are said to be marked during concurrent marking (ros_allocator.cc:1745). They are not:
  `should_mark_new_obj` is set only when finalizers start. Safety rests on the write barrier and the
  second scan of the roots.
- `LocalDeque::Pop` is an exact stack only up to 2049 values (`PopExactIff`, `PopLosesAValue`). An
  insertion whose search path is longer bubbles up once and then stops. Pages, search order and full
  coalescing are right all the same; the size order survives exactly when the path fits or the grown
  region is no bigger than the region two nodes above it (`SizeOrderSurvives`). 2050 single pages given
  back in ascending order, and then two or more in a row, lose it, and a search for two pages then fails
  although they are there (`DeepInsertionLosesSizeOrder`, `LostPagesAreNotFound`). Bulk deletion has no
  spill area at all and crashes exactly when more than 2048 nodes are pending. A tree of at most 2048
  regions is safe from both (`FewRegionsAreSafe`).
- `Space::Alloc` and `ReleaseAllFreeGroups` therefore do not always find what is free. A search succeeds
  exactly when it asks for no more than `Top()` of the tree (`FindSucceedsIff`), and a release unmaps
  exactly the groups with no smaller region above them (`ReleasesTheTopGroups`). Fifteen isolated free
  pages in each of 137 groups, given back in ascending order, are enough: the next request for two
  pages maps a group and fails all the same, and a release leaves that group mapped; with 136 groups
  both work (`GroupIsLostIff`, `CombIsReachable`). As long as no more than 68 MiB are mapped, which are
  136 groups, the size order never goes (`OrderInEveryRun`), and in size order both are exact.
- `ReleaseFreeGroups` subtracts from the heap limit without a check (space.h:251-253). The subtraction
  wraps exactly when the limit is high enough to shrink and below the bytes of the groups that go
  (`LimitShrinksSafely`). A heap within its limit never wraps; the memory policy brings the limit below
  what is mapped exactly when that is more than 1 GiB or than the growth limit (`LimitFallsBehindIff`),
  as with 2400 groups mapped at the start, which get a limit of 1112 MiB
  (`LimitWrapsAfterPolicyChange`). The collection that wraps the limit sets it anew when it ends
  (gc_tracer.cc:275-296), and within the growth limit (`RelimitedOk`).
- Sizes of huge objects are narrowed to `int` (page_group.cc:30-31). A granted request gets a group as
  big as it asked for exactly below 2 GiB (`HugeSizeIff`); 2 GiB get none, and 16 KiB above 4 GiB get a
  group of 16 KiB (`NarrowedSizes`).
- No code ever sets `should_skip_collect`, so that no group is skipped. `SweepSnapshots` covers
  skipping all the same.
- The flag that a concurrent sweep has finished is never cleared. The next sweep may then be waited
  for early, which costs time but breaks nothing in `Collectors`.
- The third branch of `PopOutNode`, for a non-empty out node, is never taken (`FetchOutNever`).

## Model

| member | source | states |
|---|---|---|
| FreePageTree.InsertClashIff | src/gc/cartesian_tree.h:292-369 | an insertion is refused exactly when one of its pages is already in the tree |
| FreePageTree.InsertInv | src/gc/cartesian_tree.h:217-369 | an accepted insertion keeps search order and full coalescing in every such tree, and size-heap order wherever it held |
| FreePageTree.InsertAddsExactly | src/gc/cartesian_tree.h:217-369 | exactly the pages of the range join the tree, and the page count grows by as many |
| FreePageTree.FindFailsIff | src/gc/cartesian_tree.h:388-414 | a search fails exactly when no single region has enough pages |
| FreePageTree.FindFirstFit | src/gc/cartesian_tree.h:388-414 | the answer starts the lowest-addressed region that is big enough |
| FreePageTree.FindTakesExactly | src/gc/cartesian_tree.h:388-414 | exactly the pages found leave the tree, and all of them were in it |
| FreePageTree.FindInv | src/gc/cartesian_tree.h:388-443 | cutting the region and lowering or removing its node keeps search order in every such tree, and size-heap order wherever it held |
| FreePageTree.LowerHeap | src/gc/cartesian_tree.h:416-443 | moving a shrunken root down restores size-heap order |
| FreePageTree.RemoveExact | src/gc/cartesian_tree.h:447-481 | rotating the root down and off drops that region and no other |
| FreePageTree.DeleteCorrect | src/gc/cartesian_tree.h:156-181 | bulk deletion keeps search order, and size-heap order wherever it held; it removes exactly the regions the callback accepts and counts them |
| FreePageTree.CanonicalForm | src/gc/cartesian_tree.h:217-369 | trees that cover the same pages hold the same regions, whatever their shapes and histories |
| FreePageTree.FindThenInsert | src/gc/cartesian_tree.h:68-91 | giving a found range back restores the regions of the tree, even of one that has lost its size order |
| FreePageTree.InsertCommutes | src/gc/cartesian_tree.h:292-369 | two insertions in either order lead to the same regions |
| LocalDeques.PopExactIff | src/gc/deque.h:135-149 | popping removes just the top value exactly for stacks of at most 2049 values |
| LocalDeques.PopLosesAValue | src/gc/deque.h:135-149 | with one value more, a pop loses two |
| LocalDeques.LocalDeque.Push | src/gc/deque.h:118-127 | appends, through the switch from the local array to the spill area; crashes exactly when the array is full and there is no spill area |
| LocalDeques.LocalDeque.PopFront | src/gc/deque.h:158-166 | as a queue it loses nothing, in the array and in the spill area |
| TreePaths.InsertAlongPath | src/gc/cartesian_tree.h:292-369 | inserting at the end of a search path and lifting back up is the recursive insertion |
| TreePaths.UnwindCorrect | src/gc/cartesian_tree.h:156-181 | popping the explicit stack resumes the deletion at the right ancestor, with nothing lost or counted twice |
| TreeClimbs.ClimbCorrect | src/gc/cartesian_tree.h:341-366 | with a stack that loses links, bubbling up leaves the pages and the order of the full insertion, and the size order exactly when the path fits or the grown region is no bigger than the one two nodes above |
| TreeClimbs.ClimbStops | src/gc/cartesian_tree.h:341-366 | with more links than the stack gives back, the grown node rises one step and no further |
| TreeInsertions.StackInsertAgrees | src/gc/cartesian_tree.h:292-369 | the insertion as the program does it, stack and all, is refused exactly when the full one is, and otherwise leaves its pages and order, and the size order exactly under the condition above |
| TreeInsertions.RootAfterInsert | src/gc/cartesian_tree.h:341-366 | in a tree in size order the grown region comes to the root, if it is big enough, exactly when the stack has room for the search path |
| TreeInsertions.FindSucceedsIff | src/gc/cartesian_tree.h:388-414 | with or without size order, a search succeeds exactly when it asks for no more pages than the root region has |
| TreeInsertions.DeepInsertionLosesSizeOrder | src/gc/cartesian_tree.h:341-366 | single pages given back in ascending order, and then two or more in a row behind them: the size order is lost exactly from 2050 pages on |
| TreeInsertions.LostPagesAreNotFound | src/gc/cartesian_tree.h:388-414 | and exactly then a search for any number of pages above one fails although so many are in the tree in a row |
| TreeTops.FindTakesFromTop | src/gc/cartesian_tree.h:388-414 | a search for the biggest size takes one of the regions that have no smaller one above them, whole, and leaves the others on top |
| TreeClimbs.DeepDeletionOverflows | src/gc/cartesian_tree.h:156-181 | a deletion that keeps everything needs as much room as the tree is deep to the left |
| TreeClimbs.FewRegionsAreSafe | src/gc/deque.h:108 | with at most 2048 regions no insertion loses the size order and no deletion crashes |
| CartesianTrees.RemoveNode | src/gc/cartesian_tree.h:447-481 | the in-place rotations compute the removal of the root region, reusing the nodes |
| CartesianTrees.LowerNode | src/gc/cartesian_tree.h:416-443 | the in-place rotations compute the lowering of the root |
| CartesianTrees.MergeAtNode | src/gc/cartesian_tree.h:217-290 | joins a range to a node and swallows the neighbour region it then touches, or reports the clash |
| CartesianTrees.CartesianTree.MergeInsert | src/gc/cartesian_tree.h:68-80 | true exactly when no page of the range was in the tree, which then also holds these; the new shape is that of the specified insertion; search order and coalescing always stay, the size order exactly under the condition above, and a tree that has lost it already is no exception to the rest; false leaves the tree as it was |
| CartesianTrees.CartesianTree.Find | src/gc/cartesian_tree.h:85-91 | succeeds exactly when the root region is big enough, and takes exactly the pages found, in place; in size order that is address-ordered first fit, and failure means that no region is big enough |
| CartesianTrees.CartesianTree.DeleteNodeIfSatisfy | src/gc/cartesian_tree.h:156-181 | crashes exactly when more nodes are pending than its stack has room for; otherwise deletes exactly the regions accepted, counts them and keeps search order, and size order wherever it held |
| TreePages.FindIsRun | src/gc/cartesian_tree.h:388-414 | seen as pages, the answer is a place with enough free pages in a row, and these leave; in size order it is the lowest such place, and failure means there is none |
| TreePages.FirstFitIsLowestRun | src/gc/cartesian_tree.h:388-414 | seen as pages, first fit is the lowest place with enough free pages in a row |
| TreePages.NoRegionNoRun | src/gc/cartesian_tree.h:388-414 | when no region is big enough there is no such place at all |
| TreePages.PagesAreCounted | src/gc/cartesian_tree.h:217-369 | the regions of a tree in order count every page once |
| PageGroupTables.ClaimedValid | src/gc/page_group.cc:101-133 | a new group gets a slot that was not mapped; chain and flags stay right and no other group changes |
| PageGroupTables.ReleasedValid | src/gc/page_group.h:263-284 | a released slot becomes the head of the chain and chain and flags stay right |
| PageGroupTables.ChainIsExactlyTheUnmappedSlots | src/gc/page_group.h:382-396 | following the links never repeats a slot, passes exactly the constructed slots that are not mapped and ends at the first unconstructed one |
| PageGroupTables.MarkingValid | src/gc/page_group.h:362-365 | setting the flag of all groups keeps every copy, in slot and header, equal to the marking state |
| PageGroupTables.PageGroups.EnsureConstructed | src/gc/page_group.h:385-396 | the current slot exists afterwards, linked to the next one and with the current flag |
| PageGroupTables.PageGroups.NewGroup | src/gc/page_group.cc:101-133 | maps the current slot, writes its header flag and follows its link |
| PageGroupTables.PageGroups.SetConcurrentMarkForAll | src/gc/page_group.h:362-365 | the loop sets the flag of every constructed group, mapped or not, and the header of the mapped ones |
| PageMaps.PutValid | src/gc/page_map.h:229-246 | labelling free pages as an allocation keeps every allocation's labels apart and whole |
| PageMaps.ClearedValid | src/gc/page_map.h:334-376 | clearing one allocation leaves the labels of all others as they were |
| PageMaps.CountIsExact | src/gc/page_map.h:317-331 | scanning the labels from the first page finds the page count the allocation was made with |
| PageMaps.StartIsFound | src/gc/page_map.h:264-294 | from any page of an allocation the backward scan ends at its first page |
| PageMaps.AllocationsDisjoint | src/gc/page_map.h:229-246 | no page belongs to two allocations |
| PageMaps.PageMap.SetRangeAndCount | src/gc/page_map.h:208-226 | labels exactly the range and counts the pages that went from or to released |
| PageMaps.PageMap.SetAs | src/gc/page_map.h:229-315 | labels first page and remainder of an allocation and counts the pages that had been released |
| PageMaps.PageMap.PageCount | src/gc/page_map.h:250-331 | the number of remainder labels after the first page, plus one |
| PageMaps.PageMap.ClearLargeObjPageAndCount | src/gc/page_map.h:361-376 | clears the first page and the remainder labels that follow it and returns how many that is |
| PageMaps.PageMap.GetStart | src/gc/page_map.h:264-294 | the nearest first-page label at or below the page, or page 0 |
| SpaceSpecs.AllocatedIsWhatIsNotInTheTree | src/gc/space.cc:153-246 | allocated bytes are never negative and are exactly the huge objects plus the pages of normal groups outside the tree |
| SpaceSpecs.RegionInOneGroup | src/gc/alloc_utils.h:61-64 | free pages in a row, and so every region of the tree, lie in one mapped normal group |
| SpaceSpecs.PageNumbering | src/gc/alloc_utils.h:61-64 | group and index can be read back from a page number, and every page number ends below 2^32 |
| SpaceSpecs.TakenOk | src/gc/space.cc:153-159 | giving out a chunk keeps labels, tree and counters in agreement |
| SpaceSpecs.ReturnedOk | src/gc/space.cc:230-246 | taking pages back keeps them in agreement and the allocated bytes do not underflow |
| SpaceSpecs.LabelledOk | src/gc/page_map.h:297-315 | labelling a chunk as an allocation keeps pages labelled free exactly the ones in the tree or on their way |
| SpaceSpecs.UnlabelledOk | src/gc/page_map.h:334-376 | so does clearing the labels of an allocation |
| SpaceGrowths.GrownOk | src/gc/space.cc:178-187 | mapping a group adds 29 pages that were nowhere in the tree and keeps every counter right, and the size order exactly under the tree's condition |
| SpaceGrowths.GrownRoot | src/gc/space.cc:178-187 | in size order the new group comes to the root exactly when the insertion's stack has room for its search path |
| SpaceGrowths.ChunkSucceedsIff | src/gc/space.cc:153-159 | a chunk is found exactly when the root region is big enough; in size order, when so many pages are free in a row, and then at the lowest place |
| SpaceGrowths.SlotLeft | src/gc/page_group.cc:101-103 | below 2^14 groups' worth of mapped bytes the group table always has a slot |
| SpaceGrowths.AllocOk | src/gc/space.cc:189-211 | an allocation keeps the space in order and returns pages nobody held |
| SpaceGrowths.ByteCheckIsExact | src/gc/space.cc:195-200 | comparing byte counters before the search never turns away a request that the tree could serve |
| SpaceGrowths.AllocSucceedsIff | src/gc/space.cc:189-211 | an allocation succeeds exactly when it is within the page limit and no bigger than the region at the root of the tree, or of the tree after a group was mapped, if one may be |
| SpaceGrowths.AllocFindsIff | src/gc/space.cc:189-211 | in size order: exactly when enough pages are free in a row, or a group may be mapped, is big enough, and its search path fits the stack |
| SpaceGrowths.AllocLabelledOk | src/gc/ros_allocator.cc:2151-2166 | after a successful request the labels record an allocation of that many pages at the address returned |
| SpaceGrowths.FreedLargeOk | src/gc/ros_allocator.cc:2099-2125 | freeing a large object returns exactly the pages it was allocated with, none of which is in the tree |
| SpaceGrowths.AllocThenFree | src/gc/ros_allocator.cc:2099-2166 | a request no bigger than the root region succeeds, and freeing restores free pages and counters |
| SpaceReleases.NewHugeOk | src/gc/space.h:227-237 | a huge object below 2 GiB gets a group of its own exactly when headroom and page limit allow it; the tree is untouched |
| SpaceReleases.HugeSizeIff | src/gc/page_group.cc:81-91 | a request of any size is refused exactly for want of headroom or by the page limit, and one that is not gets a group of its size exactly below 2 GiB, and never a bigger one |
| SpaceReleases.ReleasedHugeOk | src/gc/space.h:257-265 | releasing it keeps the space in order and no counter underflows |
| SpaceReleases.HugeRoundTrip | src/gc/space.h:227-265 | a huge object that comes and goes leaves counters, free pages and the next free slot as they were |
| SpaceReleases.ReleasesTheTopGroups | src/gc/space.cc:108-118 | the release loop unmaps exactly the groups whose region has no smaller one above it, and counts each once; nothing else changes |
| SpaceReleases.ReleasesExactlyTheFreeGroups | src/gc/space.cc:108-118 | these are all the wholly free groups exactly when none of them lies below a smaller region, as in size order none does |
| SpaceReleases.LimitShrinksSafely | src/gc/space.h:245-255 | the heap limit does not wrap exactly when it is too low to shrink or at least the bytes of the groups that go; a heap within its limit stays so |
| SpaceReleases.LimitFallsBehindIff | src/gc/gc_tracer.cc:161-193 | the tracer's limit lies below the mapped bytes exactly when these are more than 1 GiB or than the growth limit |
| SpaceReleases.RelimitedOk | src/gc/space.cc:274-286 | a new limit replaces the old one, wrapped or not, and never exceeds the growth limit |
| SpaceStarts.LimitWraps | src/gc/space.h:245-255 | an empty heap under a limit that is high enough to shrink and below the bytes of its groups: the release wraps the limit beyond every heap size |
| SpaceStarts.LimitWrapsAfterPolicyChange | src/gc/gc_tracer.cc:264-273 | which comes about from a start with more than 1 GiB mapped and a change of the memory policy, whatever the growing factor and the policy |
| SpaceStarts.NarrowedSizes | src/gc/page_group.cc:81-91 | two sizes that are granted and get no group, or one too small |
| SpaceStarts.ExpanseIsFree | src/gc/space.cc:137-146 | initialisation leaves every mapped group wholly free, the tree in size order and the counters at their sums |
| SpaceReleases.NeededGroupIsGranted | src/gc/space.cc:251-264 | after a request failed for want of a group, the next adjustment makes room for one exactly when the growth limit allows it; the request then succeeds exactly if the new group also comes to the root of the tree |
| SpaceOrders.RegionsAreFew | src/gc/alloc_config.h:80-103 | no more than fifteen free regions fit a mapped group |
| SpaceOrders.OrderInEveryRun | src/gc/space.h:210-265 | in every run of requests, releases, huge objects and new limits in which no more than 136 groups' worth of bytes are mapped, the tree stays in size order |
| SpaceOrders.FewAllocSucceedsIff | src/gc/space.cc:189-211 | there a request succeeds exactly when so many pages are free in a row, or a group may be mapped and is big enough |
| SpaceOrders.FewNeededGroupIsGranted | src/gc/space.cc:251-264 | and one that failed for want of a group succeeds after the adjustment exactly when the growth limit allows one more group |
| SpaceLosses.CombIsReachable | src/gc/space.cc:189-246 | a run of requests and releases from the start to fifteen isolated free pages in every group, in one chain |
| SpaceLosses.GroupIsLostIff | src/gc/space.cc:189-211 | there a request for two or more pages maps a group and fails all the same exactly from 137 groups on; the group is free, and a release leaves it mapped |
| SpaceLosses.NeededGroupIsLost | src/gc/space.cc:251-264 | and a request that failed for want of a group fails again after the limit was raised for one |
| Spaces.PageManager.GetChunk | src/gc/space.cc:92-95 | on the heap form of the tree: succeeds exactly when the root region is big enough, and answers and leaves what the specified search does |
| Spaces.PageManager.AddPages | src/gc/space.cc:38-44 | pages that are not in the tree never reach the abort; the tree becomes that of the specified insertion |
| Spaces.HeapSpace.constructor | src/gc/space.cc:121-135 | an empty space is in order |
| Spaces.HeapSpace.Init | src/gc/space.cc:137-146 | maps as many groups as the start size needs, and sets the counters to what they add up to |
| Spaces.HeapSpace.GetChunk | src/gc/space.cc:153-159 | computes the chunk of the specification and charges its bytes |
| Spaces.HeapSpace.NewPageGroup | src/gc/space.cc:178-182 | maps a group, adds its pages and both byte counters |
| Spaces.HeapSpace.Alloc | src/gc/space.cc:189-211 | computes the specified outcome of a request, with its limit, search, growth and second search |
| Spaces.HeapSpace.FreeRegion | src/gc/space.cc:230-246 | the pages are back in the tree and the bytes no longer charged |
| Spaces.HeapSpace.NewHugeGroup | src/gc/space.h:227-237 | computes the specified outcome of a huge request |
| Spaces.HeapSpace.ReleaseHugeMem | src/gc/space.h:257-265 | computes the specified release of a huge group |
| Spaces.HeapSpace.ReleaseAllFreeGroups | src/gc/space.cc:108-118 | the loop terminates with tree and group table of the specified release, and its count |
| Spaces.HeapSpace.ReleaseFreeGroups | src/gc/space.h:245-255 | as above, with the counters and the heap limit |
| Spaces.HeapSpace.AutoAdjustHeapSize | src/gc/space.cc:251-264 | computes the specified heap limit and forgets that a group was needed |
| Spaces.HeapSpace.UpdateHeapSizeLimit | src/gc/space.cc:274-286 | computes the specified new limit |
| FreeLists.FreeList.Insert | src/gc/ros_alloc_run.h:43-54 | the slot is first in the chain, the rest as before |
| FreeLists.FreeList.Fetch | src/gc/ros_alloc_run.h:57-70 | takes the first slot, or answers null exactly when there is none |
| FreeLists.FreeList.Prepend | src/gc/ros_alloc_run.h:74-86 | the other list is in front of this one, linked through its last slot, and empty |
| FreeLists.FreeList.Init | src/gc/ros_allocator.cc:1176-1189 | the chain holds every slot of the run once, in address order |
| FreeLists.FreeList.Take | src/gc/ros_allocator.cc:1360-1374 | a slot given to an object gets its header; the allocated bits go on telling objects from free slots |
| FreeLists.FreeList.Give | src/gc/ros_alloc_run.h:43-54 | the link that replaces the header clears the allocated bit |
| FreeLists.LocalRunIsEmpty | src/gc/ros_allocator_inlined.h:209-225 | no allocated bit is set in a run exactly when all its slots are free |
| FreeLists.HeaderRoundTrip | src/interpreter/quickjs/include/quickjs-inner.h:119-162 | size, memory slot and tag can be read back from a header, which has the allocated bit; a new tag changes nothing else |
| TierFloats.FloatTierIsExact | src/gc/ros_alloc_run.h:154-157 | the tier that single-precision arithmetic chooses is the one of the exact fraction, for every run |
| ThreeTierLists.InsertedAddsOne | src/gc/ros_alloc_run.h:283-309 | a new run lands at the head of its tier, the others keep their order and the middle tier is filled |
| ThreeTierLists.ErasedRemovesOne | src/gc/ros_alloc_run.h:338-448 | exactly the erased run leaves, the others keep their order and the middle tier stays filled unless the list is empty |
| RunLists.ThreeTierList.Insert | src/gc/ros_alloc_run.h:283-309 | the linked form computes the insertion for the tier of the run's value |
| RunLists.ThreeTierList.Fetch | src/gc/ros_alloc_run.h:312-335 | takes the head of the middle tier, null exactly when the whole list is empty |
| RunLists.ThreeTierList.Erase | src/gc/ros_alloc_run.h:338-364 | the linked form computes the erasure and clears the run's links |
| SlotPools.SlotsConserved | src/gc/ros_allocator.h:274-321 | allocated slots, free slots of the run and slots of the mutator's list make up the whole run |
| SlotPools.FreedValid | src/gc/ros_alloc_run.h:199-202 | a freed slot moves from allocated to the run's list and nowhere else |
| SlotPools.LocalisedValid | src/gc/ros_allocator.h:283-303 | the run's free slots become the mutator's, and the run its current one |
| SlotPools.GlobalisedValid | src/gc/ros_allocator.h:306-321 | the mutator's slots go back to their run |
| RunAllocSpecs.AllocationRight | src/gc/ros_allocator_inlined.h:82-122 | allocation keeps every run classified, and returns a slot that held no object, in the current run, or fails only when no page was left |
| RunAllocSpecs.SweepRight | src/gc/ros_allocator_inlined.h:228-247 | a sweep frees exactly the unmarked objects of the run, which is dropped exactly when it is not the mutator's and no object is left, and otherwise is listed or not as it should |
| RunAllocSpecs.SweepsAgree | src/gc/ros_allocator_inlined.h:228-295 | the sweep beside the mutator, with its two paths, comes to the same as the sweep with the world stopped |
| RunAllocSpecs.LocalSweepRight | src/gc/ros_allocator.cc:1523-1572 | sweeping the mutator's own run frees its dead objects and leaves its free list and ownership alone |
| RunAllocSpecs.LocalReleaseRight | src/gc/ros_allocator.cc:2240-2255 | releasing an empty local run frees no object and keeps every run classified |
| RunAllocSpecs.RunSlotsConserved | src/gc/ros_allocator.h:274-321 | in every run of a size class allocated, free and local slots add up to its slot count |
| RunAllocators.SizeClass.FetchOrAllocRun | src/gc/ros_allocator_inlined.h:54-79 | a partly free run unless a sweep is on, otherwise fresh pages threaded into a new run |
| RunAllocators.SizeClass.AllocFromLocalRun | src/gc/ros_allocator_inlined.h:82-122 | computes the specified allocation; the slot returned held no object |
| RunAllocators.SizeClass.UpdateGlobalsAfterFree | src/gc/ros_allocator_inlined.h:133-157 | lists or unlists the run according to how full it was and is, and says whether it can go |
| RunAllocators.SizeClass.SweepRun | src/gc/ros_allocator_inlined.h:228-247 | computes the specified sweep: exactly the unmarked objects of the run are gone |
| RunAllocators.SizeClass.ConcurrentSweepRun | src/gc/ros_allocator_inlined.h:259-295 | likewise, by the locked and the unlocked path |
| RunAllocators.SizeClass.SweepLocalRun | src/gc/ros_allocator.cc:1523-1572 | the sweep of the mutator's own run: exactly its unmarked objects are gone |
| RunAllocators.SizeClass.ReleaseEmptyLocalRun | src/gc/ros_allocator.cc:2240-2255 | gives the mutator's run back exactly when it holds no object |
| MarkingInv.RunInv | src/gc/gc_marking.cc:28-47 | the marking invariant holds in every state of every interleaving |
| MarkingInv.RemarkDrains | src/gc/collector_ms.cc:377-403 | when the remark falls quiet every marked object has been visited and every node is empty |
| MarkingInv.FetchOutNever | src/gc/gc_work_stack.h:95-98 | a worker that looks for its next node never has entries in its out node |
| MarkingSafety.RemarkIsComplete | src/gc/collector_ms.cc:377-403 | for every interleaving with stores, root changes, unmarked allocation and the posting of the remark's tasks, when the remark has drained every reachable object is marked and nothing is left to visit |
| MarkingSafety.ReachableIsAllocated | src/gc/collector_ms.cc:427-470 | over whole cycles, finalizers included, whatever the mutator can reach is still allocated |
| MarkingSafety.OnlyGarbageIsFreed | src/gc/ros_allocator_inlined.h:259-295 | an object that is freed could not be reached before that step |
| MarkingSafety.SweepIsExact | src/gc/collector_ms.cc:427-470 | a sweep that is over has freed exactly the unmarked objects |
| MarkingSafety.EachNodeHasOneOwner | src/gc/mark_stack.h:187-216 | every node is in exactly one of free list, retired list, in or out node of a stack, barrier, or the hand of a worker |
| MarkingSafety.EachVisitIsDueOnce | src/gc/gc_work_stack.h:88-122 | a marked object waits for its visit in at most one place, and one that waits nowhere leads to no unmarked object save the one the barrier is about to mark |
| MarkingSafety.NoNodeOverflows | src/gc/mark_stack.h:148-158 | no push ever goes beyond the 61 entries of a node |
| MarkingSafety.MarkingMovesOn | src/gc/gc_marking.cc:28-47 | while the pool is not quiet and a free node is there, some worker can go on |
| MarkingEnds.WorkerStepLess | src/gc/gc_work_stack.h:88-122 | every step of a worker decreases a measure of unmarked objects, objects in hand, filled nodes, retired nodes, missing nodes, tasks, entries and fields |
| MarkingEnds.WorkersComeToRest | src/gc/collector_ms.cc:377-403 | once only workers take steps, as in a remark, they come to an end in every interleaving |
| HeapsOfSlots.ReachableSlotsAreHeld | src/gc/ros_allocator_inlined.h:82-122 | with marking and slot allocation on one heap, whatever the mutator can reach is allocated and its slot is on no free list, in every state |
| HeapsOfSlots.OnlyGarbageSlotsAreFreed | src/gc/ros_allocator_inlined.h:259-295 | a slot is freed only by the sweep of its run and only when its object could not be reached before |
| HeapsOfSlots.NewObjectsTakeFreeSlots | src/gc/ros_allocator_inlined.h:82-122 | a new object gets a slot that no object of any kind is in |
| SweepSnapshots.MutatorKeepsClear | src/gc/ros_allocator_inlined.h:54-79 | during a sweep the mutator allocates only from pages that are neither waiting to be swept nor being swept |
| SweepSnapshots.NewObjectsAreNotSwept | src/gc/ros_allocator.cc:1702-1728 | what the mutator has allocated from is not swept any more in that sweep |
| SweepSnapshots.SweptOnce | src/gc/ros_allocator.cc:1702-1728 | every run and large object is swept at most once in a sweep |
| SweepSnapshots.SweepIsComplete | src/gc/ros_allocator.cc:1834-1866 | a sweep ends only after everything in its snapshot was swept, save the local runs swept at its start and the groups to be skipped |
| SweepSnapshots.SkippedIsLeft | src/gc/ros_allocator.cc:1843-1846 | what is to be skipped is not swept in that sweep |
| Collectors.PhasesInEveryRun | src/gc/collector_ms.cc:194-270 | in every run marking and sweeping exclude each other, new objects are marked exactly during sweeping, no bit is set when neither is on, and every group and context tells the barrier the marking state |
| Collectors.NextVisible | src/gc/collector_ms.cc:405-523 | every request, allocation, store, notification and new or released group keeps this |
| Collectors.BornMarked | src/gc/ros_allocator_inlined.h:363-375 | an object born during sweeping stays marked until sweeping has ended |
| Collectors.Collector.ConcurrentMarkPhase | src/gc/collector_ms.cc:646-668 | marking starts only with all bits clear and no worker running, and ends with the barrier on |
| Collectors.Collector.FastTerminateConMarkPhase | src/gc/collector_ms.cc:260-270 | ends marking with all bits clear and the barrier off, or does nothing when marking is off |
| Collectors.Collector.EnsureConcurrentSweepIsFinished | src/gc/collector_ms.cc:452-470 | bits are cleared only after the sweeping workers have stopped, and new objects are no longer marked |
| Collectors.Collector.TriggerConcurrentMarking | src/gc/collector_ms.cc:237-246 | finishes whatever was on and starts marking, or leaves everything off for a parallel collection |
| Collectors.Collector.TryConcurrentPhases | src/gc/collector_ms.cc:194-210 | each kind of task ends in its phase, and is left to a parallel collection exactly when nothing concurrent could serve it |
| Collectors.Collector.RunFullCollection | src/gc/collector_ms.cc:479-523 | a request comes to the phase its task stands for; while finalizers run it changes nothing; the world is stopped exactly in the cases listed |
| Collectors.Collector.TryTriggerConcurrentPhases | src/gc/collector_ms.cc:212-226 | moves on from a finished phase and from nothing else |
| Bitmaps.LocationIsGranule | src/gc/mrt_bitmap.h:171-189 | two addresses of a group have the same bit exactly when they are in the same 16 bytes |
| Bitmaps.SlotsHaveTheirOwnBits | src/gc/mrt_bitmap.h:171-189 | distinct slots of a run have distinct bits in every size class |
| Bitmaps.Bitmap.MarkObject | src/gc/mrt_bitmap.h:52-74 | says whether the object was marked, marks it and no other object |
| Bitmaps.Bitmap.UnMarkObject | src/gc/mrt_bitmap.h:76-97 | unmarks that object and no other |
| Bitmaps.Bitmap.ResetBitmap | src/gc/mrt_bitmap.h:44-49 | clearing the indexed bytes clears every bit an address can have |
| MemorySlots.ChargesInEveryRun | src/gc/ros_allocator_inlined.h:315-334 | in every run committed bytes are never negative, and with no batch open committed plus pending bytes of a slot are the sizes of the unreleased objects charged to it |
| MemorySlots.NoUnderflow | src/gc/ros_allocator_inlined.h:326-334 | no subtraction underflows, however sweeping threads and the mutator interleave |
| MemorySlots.NextOk | src/gc/ros_allocator.cc:1309-1318 | charging, reallocating, flushing, batching and releasing keep the books |
| MemorySlots.BothPrecautionsNeeded | src/gc/ros_allocator.cc:1730-1734 | without the flush before a sweep, or without marking objects born in one, a run of three steps releases more than is committed |
| ReleaseBatches.ReleaseBatch.Add | src/gc/ros_allocator_inlined.h:166-180 | adds to the sum of the slot, whose first addition overwrites what memory held; the list of touched slots never overflows |
| ReleaseBatches.ReleaseBatch.Close | src/gc/ros_allocator_inlined.h:159-164 | each touched slot gives back exactly what was added for it, once |
| ProbeTables.SearchDecides | src/gc/pointer_set.h:160-165 | probing ends at the pointer exactly when it is in the table |
| ProbeTables.InsertKeeps | src/gc/pointer_set.h:35-46 | storing at the end of a probe adds one element and keeps every probe path occupied |
| ProbeTables.ShiftEnds | src/gc/pointer_set.h:61-77 | when backward shifting meets an empty slot every pointer can be found again, also across the wrap-around |
| ProbeTables.WalkIsModular | src/gc/pointer_set.h:65-73 | stepping and distance are arithmetic modulo the capacity |
| PointerSets.PointerSet.FindSlot | src/gc/pointer_set.h:160-165 | probing terminates, at the pointer or at an empty slot |
| PointerSets.PointerSet.Contains | src/gc/pointer_set.h:48-50 | membership |
| PointerSets.PointerSet.Insert | src/gc/pointer_set.h:35-46 | adds the pointer, says whether it is new, and grows the table only for a new pointer at half load |
| PointerSets.PointerSet.Erase | src/gc/pointer_set.h:61-77 | removes exactly that pointer and says whether it was there, in place |
| PointerSets.PointerSet.TryReserve | src/gc/pointer_set.h:54-56 | succeeds exactly when there is room already or the growth is possible, keeps the elements, and then the requested number fits |
| PointerSets.PointerSet.ForEach | src/gc/pointer_set.h:79-84 | passes each element once |
| PointerSets.PointerSet.RetainIf | src/gc/pointer_set.h:95-109 | passes each old element once; the result is the elements kept and those the callback inserted |
| PointerSets.PointerSet.Drain | src/gc/pointer_set.h:114-122 | passes each element once and ends empty, whatever the callback inserts |
| PointerSets.PointerSet.Rehash | src/gc/pointer_set.h:174-186 | a new table holds the same elements |
| PointerSets.CapacityFor | src/gc/pointer_set.h:152-156 | the smallest power-of-two capacity of at least 64 that holds the size at half load |
| PointerSets.DoublingLimit | src/gc/pointer_set.h:139-144 | the overflow check stops doubling exactly at the largest table whose bytes can be counted |
| ThreadPoolInv.EachTaskRunsOnce | src/gc/thread_pool.cc:69-134 | in every state each task is queued and not started or started once, and one that is running is run by one thread |
| ThreadPoolInv.WaitFinishMeansDone | src/gc/thread_pool.cc:284-331 | when waiting for the pool returns, the queue is empty, all workers sleep and every task ever added has run exactly once |
| ThreadPoolInv.AllWaitingMeansIdle | src/gc/thread_pool.cc:93-111 | when the count of waiting workers reaches the active ones, none executes a task |
| ThreadPoolInv.QueuedTaskIsSeen | src/gc/thread_pool.cc:228-239 | no lost wake-up: while a running pool has a task queued some worker can take a step by itself |
| ThreadPoolInv.WaitingMainIsServed | src/gc/thread_pool.cc:309-331 | no deadlock: while the caller waits for the workers some worker can take a step by itself |
| ThreadPoolInv.LoweringWhileRunningHangs | src/gc/thread_pool.cc:210-226 | lowering the number of active workers while all wait would leave the next waiting caller waiting for ever |
| HandleSpaces.TakenValid | src/gc/global-handles.cc:289-305 | taking a node keeps free list, counts and used list right; the block is listed and no other handle changes |
| HandleSpaces.ReleasedValid | src/gc/global-handles.cc:323-331 | freeing keeps them right; a block without nodes in use leaves the used list |
| HandleSpaces.GrownValid | src/gc/global-handles.cc:307-315 | threading a new block extends the free list by exactly its nodes |
| HandleSpaces.ListRemovedLinked | src/gc/global-handles.cc:239-245 | the used list stays correctly doubly linked and loses exactly that block |
| HandleSpaces.EveryHandleVisitedOnce | src/gc/global-handles.cc:385-395 | walking the used blocks meets every wanted handle exactly once |
| GlobalHandleTable.GlobalHandles.Create | src/gc/global-handles.cc:349-352 | a handle that did not exist, with the value and strength asked for; all others as before |
| GlobalHandleTable.GlobalHandles.Destroy | src/gc/global-handles.cc:354-358 | exactly that handle is gone |
| GlobalHandleTable.GlobalHandles.SetWeak | src/gc/global-handles.cc:360-368 | that handle is weak afterwards, all others as before |
| GlobalHandleTable.GlobalHandles.ClearWeak | src/gc/global-handles.cc:370-376 | that handle is strong afterwards, all others as before |
| GlobalHandleTable.GlobalHandles.CollectAllRoots | src/gc/global-handles.cc:385-395 | visits every strong handle, and on request every weak one, exactly once |

## Left out

- Weak-handle callbacks, finalizer and `Visit*` bodies, JS object layouts: objects are a graph with a field list each.
- `mmap`, `madvise`, `mprotect`, prefetching, priorities, the address-sanitizer hooks, logging and debug checks: mapped memory is fresh and zero.
- C++ memory orders: every atomic operation and every section under a lock is one step, and the compare-and-swap loop of `MarkObject` is one step.
- Bitmaps.Bitmap.MarkObject: a 32-bit word is the set of its one bits, so that shifts and masks appear as division and remainder.
- `Bitmap::IsObjectMarkedNoAtomic`, which counts offsets from another base than `GetLocation` and is not used by the sweep.
- The aborted marking phase inside the marking machine, which drops the barrier's node undrained; `Collectors` covers its flags and bits.
- Resetting the page list of marking nodes between cycles, and marking done for finalizers.
- Collectors.Collector.RunFullCollection: who is marked in each phase is a parameter; which objects must be is the subject of `MarkingSafety`.
- `nonReleasedPageSize` and `ReleaseAllFreePages`: giving groups back does not adjust that counter, so no exact statement about it holds.
- The tree's iterator, which the release of free pages and debug output use.
- CartesianTrees.CartesianTree.MergeInsert: page numbers are below 2^32. When a size order that is already lost comes back is not said. Deleting freed nodes is not modelled.
- CartesianTrees.CartesianTree.DeleteNodeIfSatisfy: the callback has no effects (nothing calls this method); the release of groups, whose effects matter, is `Spaces.HeapSpace.ReleaseAllFreeGroups`.
- Spaces.HeapSpace.Alloc: holds the labels in abstract form, which `PageMaps.PageMap` connects to the program's. That a trigger of the collector was accepted is a parameter.
- SpaceReleases.NewHugeOk: sizes are whole pages above 29 pages. The group that a size of 2 GiB or more leaves behind is not followed any further.
- RunAllocators.SizeClass.AllocFromLocalRun: one size class, with page allocation as a parameter; free lists and the tier list are sequences here and linked in `FreeLists` and `RunLists`. `SweepNonFullRuns` is never called and not modelled.
- RunLists.ThreeTierList.Insert: compares exact fractions; `TierFloats` shows that floats lead to the same tier.
- HeapsOfSlots.ReachableSlotsAreHeld: one size class in detail, all other objects as a whole; a run is swept in one step, and which runs a sweeping thread may take is the subject of `SweepSnapshots`.
- MarkingEnds.WorkersComeToRest: no number of steps is given, and the mutator, which could keep concurrent marking going, is not running.
- SpaceGrowths.AllocOk: the heap limit is at most 2^14 groups, as the allocator's initialisation sets it; `SetHeapSize` and its rounding are not modelled, nor is `UpdateHeapSizeLimitForBusymode`.
- SpaceReleases.LimitFallsBehindIff: the growing factor, at least 1.1, is a parameter; the tracer's other reasons to set a limit are not modelled.
- PointerSets.PointerSet.FindSlot: the hash function is a parameter, so the claims hold for every hash; masking with a power of two is wrap-around.
- PointerSets.PointerSet.RetainIf: a callback answers with its verdict and the pointers it inserts, and may depend on how many calls came before.
- `ThreadPoolInv`: the pool's destruction, `AddTaskNoLock`, which nothing calls, and changing the number of threads while the pool runs.
- The thread pool's notification callback sets flags and does nothing else.
- Garbage-collection triggers, growth factors and speed estimates of `gc_tracer`; size-class tables; `QJSValueValueSpace`, a near copy of the handle space.
- `src/napi`, `src/inspector`, the interpreter and the build.
