/** The insertion whose stack loses links, as a function of the tree, and the root it leaves. */
module TreeInsertions {
  import opened FreePageTree
  import opened TreePaths
  import opened TreeClimbs

  /** The search for the place of [a, a+s), going on from `t` at the end of `path`. */
  ghost function SearchFrom<R>(path: seq<Frame<R>>, t: Tree<R>, a: nat, s: nat): (seq<Frame<R>>, Tree<R>)
    decreases t
  {
    if t.Node? && MergeAt(t, a, s).Miss? && a + s < t.key1 then
      SearchFrom(path + [DownLeft(t)], t.l, a, s)
    else if t.Node? && MergeAt(t, a, s).Miss? && a > t.key1 + t.key2 then
      SearchFrom(path + [DownRight(t)], t.r, a, s)
    else
      (path, t)
  }

  /** What the subtree becomes at which the search ended. */
  function Place<R>(cur: Tree<R>, a: nat, s: nat, f: R): Insertion<R> {
    if cur.Leaf? then Inserted(Node(f, a, s, Leaf, Leaf))
    else if MergeAt(cur, a, s).Merged? then Inserted(MergeAt(cur, a, s).t)
    else Clash
  }

  ghost function StackInsert<R>(t: Tree<R>, a: nat, s: nat, f: R, room: nat): Insertion<R> {
    var (path, cur) := SearchFrom([], t, a, s);
    match Place(cur, a, s, f)
    case Clash => Clash
    case Inserted(x) => Inserted(Climb(path, x, |path|, room))
  }

  lemma {:induction false} SearchReaches<R>(path: seq<Frame<R>>, t: Tree<R>, a: nat, s: nat)
    requires Reaches(path, t, a, s)
    ensures var (p, c) := SearchFrom(path, t, a, s);
      Reaches(p, c, a, s) && Plug(p, c) == Plug(path, t) && |p| == |path| + SearchDepth(t, a, s)
    decreases t
  {
    if t.Node? && MergeAt(t, a, s).Miss? {
      if a + s < t.key1 {
        ExtendArrives(path, DownLeft(t), t.l, a, s);
        PlugSnoc(path, DownLeft(t), t.l);
        SearchReaches(path + [DownLeft(t)], t.l, a, s);
      } else if a > t.key1 + t.key2 {
        ExtendArrives(path, DownRight(t), t.r, a, s);
        PlugSnoc(path, DownRight(t), t.r);
        SearchReaches(path + [DownRight(t)], t.r, a, s);
      }
    }
  }

  /** A walk from the root that follows the search is the start of it. */
  lemma {:induction false} SearchPasses<R>(path: seq<Frame<R>>, t: Tree<R>, a: nat, s: nat)
    requires Reaches(path, t, a, s)
    ensures SearchFrom([], Plug(path, t), a, s) == SearchFrom(path, t, a, s)
  {
    if path != [] {
      var up, f := path[..|path| - 1], path[|path| - 1];
      SearchPasses(up, Wrap(f, t), a, s);
      assert up + [f] == path;
    }
  }

  /** Where the search ended, the insertion is decided. */
  lemma InsertAtEnd<R>(cur: Tree<R>, a: nat, s: nat, f: R)
    requires SearchDepth(cur, a, s) == 0
    ensures Insert(cur, a, s, f) == Place(cur, a, s, f)
  {
  }

  lemma {:induction false} SearchEnds<R>(path: seq<Frame<R>>, t: Tree<R>, a: nat, s: nat)
    ensures SearchDepth(SearchFrom(path, t, a, s).1, a, s) == 0
    decreases t
  {
    if t.Node? {
      SearchEnds(path + [DownLeft(t)], t.l, a, s);
      SearchEnds(path + [DownRight(t)], t.r, a, s);
    }
  }

  /** Refused exactly when the recursive insertion is; otherwise the same pages in the same order. */
  lemma StackInsertAgrees<R>(t: Tree<R>, a: nat, s: nat, f: R, room: nat)
    requires 0 < room
    ensures StackInsert(t, a, s, f, room).Clash? <==> Insert(t, a, s, f).Clash?
    ensures StackInsert(t, a, s, f, room).Inserted? ==> Agree(t, StackInsert(t, a, s, f, room).t, a, s, f, room)
  {
    var (path, cur) := SearchFrom([], t, a, s);
    SearchReaches([], t, a, s);
    SearchEnds([], t, a, s);
    InsertAlongPath(path, cur, a, s, f);
    InsertAtEnd(cur, a, s, f);
    if Place(cur, a, s, f).Inserted? {
      ClimbCorrect(path, cur, Place(cur, a, s, f).t, a, s, f, room);
    }
  }

  // ------------------------------------------------------------------ the root

  function Larger(j: nat, k: nat): nat { if j < k then k else j }

  lemma {:induction false} AscendRoot<R>(path: seq<Frame<R>>, x: Tree<R>)
    requires Descending(path) && x.Node?
    ensures RootSize(Ascend(path, x)) == if path == [] then x.key2 else Larger(path[0].key2, x.key2)
  {
    if path != [] { AscendRoot(path[..|path| - 1], Lift(path[|path| - 1], x)); }
  }

  /**
   The root after an insertion into a tree in size order: the grown region rises to it, if it is big
   enough, exactly when the stack has room for the whole search path.
   */
  lemma RootAfterInsert<R>(t: Tree<R>, a: nat, s: nat, f: R, room: nat)
    requires 0 < room && Heap(t) && StackInsert(t, a, s, f, room).Inserted?
    ensures RootSize(StackInsert(t, a, s, f, room).t) ==
      if SearchDepth(t, a, s) <= room + 1 then Larger(RootSize(t), GrownSize(t, a, s)) else RootSize(t)
  {
    var (path, cur) := SearchFrom([], t, a, s);
    SearchReaches([], t, a, s);
    var x := Place(cur, a, s, f).t;
    PlugHeap(path, cur);
    PathDescends(path);
    SizesAlongPath(path, cur, a, s);
    PlacedHeap(cur, x, a, s, f, RootSize(cur));
    RootOfPath(path, cur);
    if |path| <= room + 1 {
      ClimbAscends(path, x, room);
      AscendRoot(path, x);
    } else {
      ClimbStops(path, x, room);
      PlugRoot(path[..|path| - 1], Lift(path[|path| - 1], x));
    }
  }

  lemma RootOfPath<R>(path: seq<Frame<R>>, cur: Tree<R>)
    ensures RootSize(Plug(path, cur)) == if path == [] then RootSize(cur) else path[0].key2
  {
    if path != [] { PlugRoot(path, cur); }
  }

  /** A range that touches no region grows none. */
  lemma {:induction false} GrownAlone<R>(t: Tree<R>, a: nat, s: nat)
    requires Sorted(t) && 0 < s && forall p :: a - 1 <= p <= a + s ==> !Covers(t, p)
    ensures GrownSize(t, a, s) == s
  {
    if t.Node? {
      assert Covers(t, t.key1) && Covers(t, t.key1 + t.key2 - 1) && !Covers(t, a);
      assert forall p :: Covers(t.l, p) || Covers(t.r, p) ==> Covers(t, p);
      GrownAlone(if a + s < t.key1 then t.l else t.r, a, s);
    }
  }

  /** A search succeeds exactly when it asks for no more than the root region has. */
  lemma {:induction false} FindSucceedsIff<R>(t: Tree<R>, s: nat)
    requires 0 < s
    ensures FindIn(t, s).Found? <==> s <= RootSize(t)
  {
  }

  // ------------------------------------------------------------------ a tree that is too deep

  /** Single pages that never touch, each the right child of the one before. */
  function Chain(ps: seq<nat>): Tree<()> {
    if ps == [] then Leaf else Node((), ps[0], 1, Leaf, Chain(ps[1..]))
  }

  /** Ascending page numbers with a gap after each, up to page `end`. */
  predicate Spaced(ps: seq<nat>, end: nat) {
    forall i :: 0 <= i < |ps| ==> GapAfter(ps, i, end)
  }

  predicate GapAfter(ps: seq<nat>, i: nat, end: nat)
    requires i < |ps|
  {
    ps[i] + 1 < if i + 1 < |ps| then ps[i + 1] else end
  }

  lemma {:induction false} SpacedTail(ps: seq<nat>, end: nat)
    requires Spaced(ps, end) && ps != []
    ensures Spaced(ps[1..], end) && ps[0] + 1 < end
  {
    var qs := ps[1..];
    forall i | 0 <= i < |qs| ensures GapAfter(qs, i, end) { assert GapAfter(ps, i + 1, end); }
    assert GapAfter(ps, 0, end);
    if qs != [] { SpacedTail(qs, end); }
  }

  lemma {:induction false} ChainInv(ps: seq<nat>, end: nat)
    requires Spaced(ps, end)
    ensures Inv(Chain(ps)) && RootAtMost(Chain(ps), 1) && EndsBefore(Chain(ps), end)
    ensures forall b: int :: (ps != [] ==> b < ps[0]) ==> StartsAfter(Chain(ps), b)
  {
    if ps != [] {
      SpacedTail(ps, end);
      assert GapAfter(ps, 0, end);
      ChainInv(ps[1..], end);
    }
  }

  lemma {:induction false} ChainSizes(ps: seq<nat>, a: nat, s: nat, p: nat, g: nat)
    requires Spaced(ps, a)
    ensures SearchDepth(Chain(ps), a, s) == |ps| && GrownSize(Chain(ps), a, s) == s
    ensures SizeTwoUp(Chain(ps), a, s, p, g) == if |ps| >= 2 then 1 else if |ps| == 1 then p else g
  {
    if ps != [] {
      SpacedTail(ps, a);
      assert GapAfter(ps, 0, a);
      ChainSizes(ps[1..], a, s, 1, p);
    }
  }

  lemma {:induction false} ChainSearch(path: seq<Frame<()>>, ps: seq<nat>, a: nat)
    requires Spaced(ps, a)
    ensures var (p, c) := SearchFrom(path, Chain(ps), a, 1);
      && c == Leaf && Plug(p, Node((), a, 1, Leaf, Leaf)) == Plug(path, Chain(ps + [a]))
      && |p| == |path| + |ps| && path <= p && forall i :: |path| <= i < |p| ==> p[i].key2 == 1
    decreases |ps|
  {
    if ps == [] {
      assert Chain([a]) == Node((), a, 1, Leaf, Leaf);
    } else {
      var f := DownRight(Chain(ps));
      SpacedTail(ps, a);
      ChainSearch(path + [f], ps[1..], a);
      assert (path + [f])[|path|].key2 == 1;
      assert (ps + [a])[1..] == ps[1..] + [a];
      PlugSnoc(path, f, Chain(ps[1..] + [a]));
    }
  }

  /** Single pages given back in ascending order make such a tree, however long it gets. */
  lemma ChainGrows(ps: seq<nat>, a: nat, room: nat)
    requires Spaced(ps, a)
    ensures StackInsert(Chain(ps), a, 1, (), room) == Inserted(Chain(ps + [a]))
  {
    ChainSearch([], ps, a);
    var (p, c) := SearchFrom([], Chain(ps), a, 1);
    assert p[|p|..] == [];
  }

  /**
   When two or more pages in a row are added behind such pages, the size order is lost exactly from
   `room` + 2 of them on.
   */
  lemma DeepInsertionLosesSizeOrder(ps: seq<nat>, a: nat, s: nat, room: nat)
    requires Spaced(ps, a) && 2 <= s && 0 < room
    ensures Inv(Chain(ps)) && (SizeOrderSurvives(Chain(ps), a, s, room) <==> |ps| <= room + 1)
  {
    ChainInv(ps, a);
    ChainSizes(ps, a, s, 0, 0);
  }

  /** After that a search fails for any number of pages above one, although all `s` are in the tree in a row. */
  lemma LostPagesAreNotFound(ps: seq<nat>, a: nat, s: nat, room: nat)
    requires Spaced(ps, a) && 2 <= s && 0 < room
    ensures var r := StackInsert(Chain(ps), a, s, (), room);
      && r.Inserted? && (forall p :: a <= p < a + s ==> Covers(r.t, p))
      && forall k :: 2 <= k <= s ==> (FindIn(r.t, k).NotFound? <==> room + 1 < |ps|)
  {
    var t, r := Chain(ps), StackInsert(Chain(ps), a, s, (), room);
    ChainInv(ps, a);
    ChainSizes(ps, a, s, 0, 0);
    StackInsertAgrees(t, a, s, (), room);
    ChainClear(ps, a, s);
    InsertClashIff(t, a, s, ());
    InsertAddsExactly(t, a, s, ());
    RootAfterInsert(t, a, s, (), room);
    forall k | 2 <= k <= s ensures FindIn(r.t, k).NotFound? <==> room + 1 < |ps| { FindSucceedsIff(r.t, k); }
  }

  lemma {:induction false} ChainClear(ps: seq<nat>, a: nat, s: nat)
    requires Spaced(ps, a)
    ensures Clear(Chain(ps), a, a + s)
  {
    if ps != [] {
      SpacedTail(ps, a);
      ChainClear(ps[1..], a, s);
    }
  }
}
