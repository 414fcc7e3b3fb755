/**
 A run of a space whose free-page tree loses its size order: single pages given back in ascending
 order, and then a new group.
 */
module SpaceLosses {
  import opened Collections
  import opened FreePageTree
  import LocalDeques
  import opened PageSets
  import opened TreeInsertions
  import opened TreePages
  import opened TreePaths
  import opened PG = PageGroupTables
  import opened SS = SpaceSpecs
  import opened SG = SpaceGrowths
  import opened SR = SpaceReleases
  import opened ST = SpaceStarts
  import opened SO = SpaceOrders
  import PM = PageMaps

  // ------------------------------------------------------------------ runs, one after the other

  /** Some run leads from `s` to `u`. */
  ghost predicate Reaches(s: GoodSpace, u: GoodSpace) {
    exists states: seq<GoodSpace>, actions: seq<Action> ::
      Runs(states, actions) && states[0] == s && states[|actions|] == u
  }

  lemma ReachesItself(s: GoodSpace)
    ensures Reaches(s, s)
  {
    assert Runs([s], []);
  }

  lemma RunGoesOn(states: seq<GoodSpace>, actions: seq<Action>, x: Action) returns (more: seq<GoodSpace>)
    requires Runs(states, actions) && Can(states[|actions|], x)
    ensures Runs(more, actions + [x]) && |more| == |states| + 1
    ensures more[0] == states[0] && more[|actions| + 1] == Next(states[|actions|], x)
  {
    hide Next, Can, Ok;
    var u := Next(states[|actions|], x);
    more := states + [u];
    var acts := actions + [x];
    forall i | 0 <= i < |acts| ensures Can(more[i], acts[i]) && more[i + 1] == Next(more[i], acts[i]) { }
  }

  lemma ReachesNext(s: GoodSpace, u: GoodSpace, x: Action)
    requires Reaches(s, u) && Can(u, x)
    ensures Reaches(s, Next(u, x))
  {
    hide Next, Can, Ok;
    var states: seq<GoodSpace>, actions: seq<Action> :|
      Runs(states, actions) && states[0] == s && states[|actions|] == u;
    var more := RunGoesOn(states, actions, x);
    assert Runs(more, actions + [x]) && more[0] == s && more[|actions + [x]|] == Next(u, x);
  }

  // ------------------------------------------------------------------ filling the heap page by page

  ghost predicate HeldAlone(s: Space, p: nat) {
    Holds(s, p, 1) && s.maps[GroupOf(p)].labels[IndexOf(p)] == PM.LargeObj
  }

  /** Every page of a mapped group is free or a large object of its own. */
  ghost predicate Singles(s: Space) {
    MapsOk(s) && forall p: nat :: InGroup(s.table, p) ==> p in s.pages || HeldAlone(s, p)
  }

  ghost predicate Kept(s: Space, u: Space) {
    && u.table == s.table && u.held == s.held && u.usedMem == s.usedMem && u.usedHeap == s.usedHeap
    && u.heapSize == s.heapSize && u.growthLimit == s.growthLimit && u.pageLimit == s.pageLimit
    && u.groupNeeded == s.groupNeeded
  }

  ghost predicate Roomy(s: Space) {
    s.heapSize <= MAX_HEAP && 0 <= s.inUse && s.usedMem <= SIZE_MAX == s.pageLimit
  }

  lemma PagesMeanRoot(s: Space)
    requires Ok(s)
    ensures s.pages == {} <==> s.tree == Leaf
    ensures s.pages != {} ==> 1 <= RootSize(s.tree)
  {
    if s.tree.Node? { assert s.tree.key1 in PagesIn(s.tree); }
  }

  lemma LayKeepsAlone(s: Space, a: nat, p: nat)
    requires GroupOf(a) < |s.maps| && MapsOk(s) && MapsOk(Labelled(s, a, 1, PM.LargeObj)) && p != a && HeldAlone(s, p)
    ensures HeldAlone(Labelled(s, a, 1, PM.LargeObj), p)
  {
    assert GroupOf(p) == GroupOf(a) ==> IndexOf(p) != IndexOf(a);
    assert MapOk(s.maps[GroupOf(p)]);
  }

  lemma RequestOne(s: GoodSpace)
    requires s.pages != {} && Roomy(s)
    ensures Can(s, Request(1, true, false)) && FindIn(s.tree, 1).Found?
    ensures Next(s, Request(1, true, false)) == Taken(s, 1)
  {
    PagesMeanRoot(s);
    FillAllowed(s);
    FindSucceedsIff(s.tree, 1);
    ChunkSucceedsIff(s, 1);
    ByteCheckIsExact(s, 1);
    AllocOk(s, 1, true, false);
  }

  lemma LayOne(s: GoodSpace)
    requires Singles(s) && FindIn(s.tree, 1).Found?
    ensures GroupOf(FindIn(s.tree, 1).a) < |s.maps|
    ensures var a := FindIn(s.tree, 1).a; var u := Labelled(Taken(s, 1), a, 1, PM.LargeObj);
      && Ok(Taken(s, 1)) && Can(Taken(s, 1), Lay(a, 1, PM.LargeObj)) && Next(Taken(s, 1), Lay(a, 1, PM.LargeObj)) == u
      && Singles(u) && u.pages + Span(a, 1) == s.pages && a !in u.pages && Kept(s, u) && u.inUse == s.inUse + PAGE
  {
    var a := FindIn(s.tree, 1).a;
    TakeLabelled(s, 1);
    TakenOk(s, 1);
    LaidSingles(s, a, Labelled(Taken(s, 1), a, 1, PM.LargeObj));
  }

  /** One free page becomes a large object. */
  lemma FillOne(s: GoodSpace, start: GoodSpace) returns (u: GoodSpace)
    requires Reaches(start, s) && Singles(s) && s.pages != {} && Roomy(s)
    ensures Reaches(start, u) && Singles(u) && Roomy(u) && Kept(s, u) && |u.pages| < |s.pages|
  {
    hide Next, Can, Singles;
    RequestOne(s);
    LayOne(s);
    var w: GoodSpace, x := Taken(s, 1), Lay(FindIn(s.tree, 1).a, 1, PM.LargeObj);
    ReachesNext(start, s, Request(1, true, false));
    ReachesNext(start, w, x);
    u := Next(w, x);
    DisjointSize(u.pages, Span(FindIn(s.tree, 1).a, 1));
  }

  lemma FillAllowed(s: Space)
    requires Ok(s) && Roomy(s) && s.pages != {}
    ensures !ExceedsLimit(s, PAGE)
  {
    assert |s.pages| >= 1;
  }

  lemma LaidSingles(s: Space, a: nat, u: Space)
    requires Ok(s) && Singles(s) && FindIn(s.tree, 1).Found? && a == FindIn(s.tree, 1).a && GroupOf(a) < |s.maps|
    requires u == Labelled(Taken(s, 1), a, 1, PM.LargeObj) && Ok(u) && HeldAlone(u, a)
    requires u.pages + Span(a, 1) == s.pages
    ensures Singles(u)
  {
    forall p: nat | InGroup(u.table, p) ensures p in u.pages || HeldAlone(u, p) {
      if p != a && p !in s.pages {
        assert HeldAlone(Taken(s, 1), p);
        LayKeepsAlone(Taken(s, 1), a, p);
      }
    }
  }

  lemma {:induction false} FillAll(s: GoodSpace, start: GoodSpace) returns (u: GoodSpace)
    requires Reaches(start, s) && Singles(s) && Roomy(s)
    ensures Reaches(start, u) && Singles(u) && Kept(s, u) && u.tree == Leaf && u.pages == {}
    decreases |s.pages|
  {
    PagesMeanRoot(s);
    u := s;
    if s.pages != {} {
      var v := FillOne(s, start);
      u := FillAll(v, start);
    }
  }

  // ------------------------------------------------------------------ every other page given back

  /** The `i`-th page that is given back: fifteen of the 29 pages of every group, none next to another. */
  function Place(i: nat): nat {
    PageAt(i / 15, 2 * (i % 15))
  }

  function Places(k: nat): (ps: seq<nat>)
    ensures |ps| == k && forall i :: 0 <= i < k ==> ps[i] == Place(i)
  {
    if k == 0 then [] else Places(k - 1) + [Place(k - 1)]
  }

  lemma PlaceNumbers(i: nat)
    ensures GroupOf(Place(i)) == i / 15 && IndexOf(Place(i)) == 2 * (i % 15) < GROUP_PAGES
  {
    PageNumbering(i / 15, 2 * (i % 15));
  }

  lemma PlacesAscend(i: nat)
    ensures Place(i) + 1 < Place(i + 1)
  {
  }

  lemma PlacesSpaced(k: nat)
    ensures Spaced(Places(k), Place(k))
  {
    forall i | 0 <= i < k ensures GapAfter(Places(k), i, Place(k)) { PlacesAscend(i); }
  }

  /** The first `k` places are free, in one chain, and the others up to group `m` are held. */
  ghost predicate Combed(s: Space, m: nat, k: nat) {
    && s.tree == Chain(Places(k)) && s.table.current == m && k <= 15 * m
    && forall i: nat :: k <= i < 15 * m ==> HeldAlone(s, Place(i))
  }

  lemma WipeKeepsAlone(s: Space, a: nat, p: nat)
    requires GroupOf(a) < |s.maps| && MapsOk(s) && MapsOk(Unlabelled(s, a, 1, PM.Free)) && p != a && HeldAlone(s, p)
    ensures HeldAlone(Unlabelled(s, a, 1, PM.Free), p)
  {
    assert GroupOf(p) == GroupOf(a) ==> IndexOf(p) != IndexOf(a);
    assert MapOk(s.maps[GroupOf(p)]);
  }

  lemma WipeOne(s: GoodSpace, a: nat)
    requires HeldAlone(s, a)
    ensures Can(s, Wipe(a, 1, PM.Free)) && GroupOf(a) < |s.maps| && a !in s.pages
    ensures Next(s, Wipe(a, 1, PM.Free)) == Unlabelled(s, a, 1, PM.Free)
    ensures var w: GoodSpace := Next(s, Wipe(a, 1, PM.Free));
      && Can(w, GiveBack(a, 1)) && Next(w, GiveBack(a, 1)) == Returned(w, a, 1)
      && Kept(s, Returned(w, a, 1)) && Returned(w, a, 1).maps == w.maps && Ok(Returned(w, a, 1))
  {
    HoldsSpan(s, a, 1);
    UnlabelledOk(s, a, 1, PM.Free);
    ReturnedOk(Unlabelled(s, a, 1, PM.Free), a, 1);
    HoldsNotFree(s, a, 1);
  }

  lemma FreeOne(s: GoodSpace, start: GoodSpace, m: nat, k: nat) returns (u: GoodSpace)
    requires Reaches(start, s) && Combed(s, m, k) && k < 15 * m
    ensures Reaches(start, u) && Combed(u, m, k + 1) && Kept(s, u)
  {
    hide Next, Can;
    var a := Place(k);
    assert HeldAlone(s, a);
    WipeOne(s, a);
    ReachesNext(start, s, Wipe(a, 1, PM.Free));
    var w: GoodSpace := Next(s, Wipe(a, 1, PM.Free));
    ReachesNext(start, w, GiveBack(a, 1));
    u := Next(w, GiveBack(a, 1));
    OneMorePlace(k);
    StillHeld(s, m, k, u);
  }

  lemma OneMorePlace(k: nat)
    ensures Added(Chain(Places(k)), Place(k), 1) == Chain(Places(k + 1))
  {
    PlacesSpaced(k);
    ChainGrows(Places(k), Place(k), LocalDeques.LOCAL_LENGTH);
    assert Places(k) + [Place(k)] == Places(k + 1);
  }

  lemma StillHeld(s: Space, m: nat, k: nat, u: Space)
    requires Ok(s) && Ok(u) && Combed(s, m, k) && k < 15 * m && GroupOf(Place(k)) < |s.maps|
    requires u.maps == Unlabelled(s, Place(k), 1, PM.Free).maps && u.table == s.table
    ensures forall i: nat :: k + 1 <= i < 15 * m ==> HeldAlone(u, Place(i))
  {
    var w := Unlabelled(s, Place(k), 1, PM.Free);
    forall g: nat | Normal(w.table, g) ensures MapOk(w.maps[g]) { assert MapOk(u.maps[g]); }
    forall i: nat | k + 1 <= i < 15 * m ensures HeldAlone(u, Place(i)) {
      PlacesApart(k, i);
      WipeKeepsAlone(s, Place(k), Place(i));
    }
  }

  lemma {:induction false} PlacesApart(k: nat, i: nat)
    requires k < i
    ensures Place(k) < Place(i)
    decreases i
  {
    PlacesAscend(i - 1);
    if k < i - 1 { PlacesApart(k, i - 1); }
  }

  lemma {:induction false} FreeAll(s: GoodSpace, start: GoodSpace, m: nat, k: nat) returns (u: GoodSpace)
    requires Reaches(start, s) && Combed(s, m, k)
    ensures Reaches(start, u) && Combed(u, m, 15 * m) && Kept(s, u)
    decreases 15 * m - k
  {
    u := s;
    if k < 15 * m {
      var v := FreeOne(s, start, m, k);
      u := FreeAll(v, start, m, k + 1);
    }
  }

  // ------------------------------------------------------------------ the new group

  lemma CombDepth(s: Space, m: nat)
    requires Combed(s, m, 15 * m)
    ensures Inv(s.tree) && RootSize(s.tree) <= 1 && GroupDepth(s) == 15 * m
  {
    assert Place(15 * m) == PageAt(m, 0);
    PlacesSpaced(15 * m);
    ChainInv(Places(15 * m), PageAt(m, 0));
    ChainSizes(Places(15 * m), PageAt(m, 0), GROUP_PAGES, 0, 0);
  }

  /**
   A request for two or more pages then maps a group and fails all the same, exactly from 137 groups
   on, although the group is there and free; and a release leaves that group mapped.
   */
  lemma GroupIsLostIff(s: GoodSpace, m: nat, n: nat)
    requires Combed(s, m, 15 * m) && 2 <= n <= GROUP_PAGES && !ExceedsLimit(s, PAGE * n)
    requires Headroom(s) >= GROUP_BYTES && s.heapSize <= MAX_HEAP
    ensures CanClaim(s.table)
    ensures SG.Alloc(s, n, true, false).1.None? <==> 136 < m
    ensures 136 < m ==> SG.Alloc(s, n, true, false) == (Grown(s), None)
    ensures 136 < m ==> Ok(Grown(s)) && HasRun(Grown(s).pages, GROUP_PAGES)
    ensures 136 < m ==> m in FreeGroups(Grown(s)) && AllReleased(Grown(s)) == (Grown(s), 0)
  {
    CombDepth(s, m);
    AllocSucceedsIff(s, n, true, false);
    GrownOk(s);
    GrownRoot(s);
    if 136 < m {
      ChunkSucceedsIff(s, n);
      NewGroupIsFree(s);
      FindSucceedsIff(Grown(s).tree, GROUP_PAGES);
      LastRound(Grown(s));
    }
  }

  lemma NewGroupIsFree(s: Space)
    requires Ok(s) && s.usedHeap < MAX_HEAP && CanClaim(s.table)
    ensures s.table.current in FreeGroups(Grown(s)) && HasRun(Grown(s).pages, GROUP_PAGES)
  {
    ClaimedValid(s.table, false, VALID_BYTES, GROUP_BYTES);
    BlockIsRun(Grown(s), s.table.current);
  }

  /** And a request that failed for want of a group fails again after the limit was raised for one. */
  lemma NeededGroupIsLost(s: GoodSpace, m: nat, n: nat, bytes: nat)
    requires Combed(s, m, 15 * m) && 136 < m && 2 <= n <= GROUP_PAGES && !ExceedsLimit(s, PAGE * n)
    requires Headroom(s) < GROUP_BYTES && s.heapSize <= MAX_HEAP
    requires s.usedHeap + GROUP_BYTES <= s.growthLimit <= MAX_HEAP
    ensures CanClaim(s.table)
    ensures var (u, r) := SG.Alloc(s, n, true, false);
      && r.None? && u.groupNeeded
      && var v := Adjusted(u, bytes);
      && CanClaim(v.table) && |v.maps| == |v.table.groups| && Headroom(v) >= GROUP_BYTES
      && SG.Alloc(v, n, true, false).1.None?
  {
    CombDepth(s, m);
    AllocSucceedsIff(s, n, true, false);
    AllocatedIsWhatIsNotInTheTree(s);
    NeededGroupIsGranted(s, n, bytes);
  }

  /** Such a space comes about from the initial one by requests for single pages and giving some of them back. */
  lemma CombIsReachable(base: GoodSpace, m: nat) returns (s: GoodSpace)
    requires Untouched(base) && m <= GROUPS && base.heapSize <= MAX_HEAP && base.pageLimit == SIZE_MAX
    ensures Reaches(Expanse(base, m), s) && Combed(s, m, 15 * m) && Kept(Expanse(base, m), s)
  {
    var start := Expanse(base, m);
    ReachesItself(start);
    LinearSingles(start, m);
    ExpanseFields(base, m);
    var full := FillAll(start, start);
    FullIsCombed(full, m);
    s := FreeAll(full, start, m, 0);
  }

  lemma LinearSingles(s: GoodSpace, m: nat)
    requires Linear(s, m)
    ensures Singles(s) && s.table.current == m && forall g: nat :: g < m ==> Normal(s.table, g)
  {
    forall g: nat | g < m ensures Normal(s.table, g) { assert WhollyFree(s, g); }
    forall p: nat | InGroup(s.table, p) ensures p in s.pages {
      assert WhollyFree(s, GroupOf(p));
      InBlock(GroupOf(p), p);
    }
  }

  lemma FullIsCombed(s: GoodSpace, m: nat)
    requires Singles(s) && s.tree == Leaf && s.pages == {} && s.table.current == m
    requires forall g: nat :: g < m ==> Normal(s.table, g)
    ensures Combed(s, m, 0)
  {
    forall i: nat | i < 15 * m ensures HeldAlone(s, Place(i)) {
      PlaceNumbers(i);
      assert InGroup(s.table, Place(i));
    }
  }
}
