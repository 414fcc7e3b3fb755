/**
 What the second loop of an insertion makes of a search path when its stack has room for exactly
 `room` + 1 links and loses links beyond that.
 */
module TreeClimbs {
  import opened FreePageTree
  import opened TreePaths

  // ------------------------------------------------------------------ splitting a path

  lemma {:induction false} PlugSplit<R>(path: seq<Frame<R>>, t: Tree<R>, k: nat)
    requires k <= |path|
    ensures Plug(path[..k], Plug(path[k..], t)) == Plug(path, t)
  {
    var n := |path|;
    if k == n {
      assert path[..k] == path;
    } else {
      PlugSplit(path[..n - 1], Wrap(path[n - 1], t), k);
      assert path[k..][..n - k - 1] == path[..n - 1][k..];
      assert path[..n - 1][..k] == path[..k];
    }
  }

  lemma {:induction false} PlugRoot<R>(path: seq<Frame<R>>, t: Tree<R>)
    requires path != []
    ensures Plug(path, t).Node? && Plug(path, t).key2 == path[0].key2
  {
    if |path| > 1 { PlugRoot(path[..|path| - 1], Wrap(path[|path| - 1], t)); }
  }

  // ------------------------------------------------------------------ the climb

  /** The subtree that hangs at the first `k` frames. */
  ghost function Below<R>(path: seq<Frame<R>>, x: Tree<R>, k: nat): Tree<R>
    requires k <= |path|
  {
    Plug(path[k..], x)
  }

  lemma {:induction false} BelowStep<R>(path: seq<Frame<R>>, x: Tree<R>, k: nat)
    requires 0 < k <= |path|
    ensures Below(path, x, k - 1) == Wrap(path[k - 1], Below(path, x, k))
  {
    var n := |path|;
    if k == n {
      assert path[k - 1..] == [] + [path[k - 1]] && path[k..] == [];
      PlugSnoc([], path[k - 1], x);
    } else {
      BelowStep(path[..n - 1], Wrap(path[n - 1], x), k);
      assert path[k..][..n - k - 1] == path[..n - 1][k..];
      assert path[k - 1..][..n - k] == path[..n - 1][k - 1..];
    }
  }

  ghost function Left(k: nat, room: nat): nat
    requires 0 < k
  {
    if k > room then room else k - 1
  }

  /**
   `x` hangs at the end of `path`, and the stack holds the links of its first `k` frames: the loop goes
   on while the node behind the innermost link is smaller than its child on the path.
   */
  ghost function Climb<R>(path: seq<Frame<R>>, x: Tree<R>, k: nat, room: nat): Tree<R>
    requires k <= |path|
    decreases k
  {
    if k == 0 then Plug(path, x)
    else
      var f, y := path[k - 1], Below(path, x, k);
      if y.Node? && f.key2 < y.key2 then Climb(path[..k - 1], Lift(f, y), Left(k, room), room) else Plug(path, x)
  }

  lemma PlugAt<R>(path: seq<Frame<R>>, x: Tree<R>, k: nat)
    requires 0 < k <= |path|
    ensures Plug(path[..k - 1], Wrap(path[k - 1], Below(path, x, k))) == Plug(path, x)
  {
    BelowStep(path, x, k);
    PlugSplit(path, x, k - 1);
  }

  lemma NotLifted<R>(f: Frame<R>, y: Tree<R>)
    requires !(y.Node? && f.key2 < y.key2)
    ensures Lift(f, y) == Wrap(f, y)
  {
  }

  /** With room for the whole path the climb is the bubbling of the recursive insertion. */
  lemma {:induction false} ClimbAscends<R>(path: seq<Frame<R>>, x: Tree<R>, room: nat)
    requires |path| <= room + 1 && Descending(path)
    ensures Climb(path, x, |path|, room) == Ascend(path, x)
  {
    var n := |path|;
    if n != 0 {
      assert path[n..] == [];
      var f, up := path[n - 1], path[..n - 1];
      if x.Node? && f.key2 < x.key2 {
        ClimbAscends(up, Lift(f, x), room);
      } else {
        NotLifted(f, x);
        AscendSettled(up, Wrap(f, x));
      }
    }
  }

  /** Links lower down were lost: the node behind the innermost one left is no smaller than its child. */
  lemma ClimbStays<R>(path: seq<Frame<R>>, x: Tree<R>, k: nat, room: nat)
    requires 0 < k < |path| && Descending(path)
    ensures Climb(path, x, k, room) == Plug(path, x)
  {
    PlugRoot(path[k..], x);
    assert Below(path, x, k).key2 == path[k].key2 <= path[k - 1].key2;
  }

  /** With more, it takes one step and stops. */
  lemma ClimbStops<R>(path: seq<Frame<R>>, x: Tree<R>, room: nat)
    requires room + 1 < |path| && Descending(path) && 0 < room
    ensures Climb(path, x, |path|, room) == Plug(path[..|path| - 1], Lift(path[|path| - 1], x))
  {
    var n := |path|;
    var f, up := path[n - 1], path[..n - 1];
    assert path[n..] == [];
    assert Below(path, x, n) == x && Plug(path, x) == Plug(up, Wrap(f, x));
    if x.Node? && f.key2 < x.key2 {
      ClimbStays(up, Lift(f, x), room, room);
    } else {
      NotLifted(f, x);
    }
  }

  // ------------------------------------------------------------------ order and pages do not depend on bubbling

  lemma {:induction false} LeftSortedBack<R>(t: Tree<R>)
    requires t.Node? && t.l.Node? && Sorted(RotateLeft(t))
    ensures Sorted(t)
  {
    var low := t.(l := t.l.r);
    assert RotateLeft(t) == t.l.(r := low);
    assert Sorted(low) && StartsAfter(low, t.l.key1 + t.l.key2);
    EndsBeforeWeaken(t.l.l, t.l.key1, t.key1);
    assert Sorted(t.l) && EndsBefore(t.l, t.key1);
  }

  lemma {:induction false} RightSortedBack<R>(t: Tree<R>)
    requires t.Node? && t.r.Node? && Sorted(RotateRight(t))
    ensures Sorted(t)
  {
    var low := t.(r := t.r.l);
    assert RotateRight(t) == t.r.(l := low);
    assert Sorted(low) && EndsBefore(low, t.r.key1);
    StartsAfterWeaken(t.r.r, t.r.key1 + t.r.key2, t.key1 + t.key2);
    assert Sorted(t.r) && StartsAfter(t.r, t.key1 + t.key2);
  }

  /** The same pages in the same order, possibly in another shape. */
  ghost predicate SameOrder<R>(t: Tree<R>, u: Tree<R>) {
    && (Sorted(t) <==> Sorted(u)) && PageCount(t) == PageCount(u)
    && (forall b: int :: EndsBefore(t, b) <==> EndsBefore(u, b))
    && (forall b: int :: StartsAfter(t, b) <==> StartsAfter(u, b))
    && (forall p: int :: Covers(t, p) <==> Covers(u, p))
  }

  lemma LiftSameOrder<R>(f: Frame<R>, x: Tree<R>)
    ensures SameOrder(Wrap(f, x), Lift(f, x))
  {
    var t := Wrap(f, x);
    if t.l.Node? {
      if Sorted(t) { LeftSorted(t); }
      if Sorted(RotateLeft(t)) { LeftSortedBack(t); }
    }
    if t.r.Node? {
      if Sorted(t) { RightSorted(t); }
      if Sorted(RotateRight(t)) { RightSortedBack(t); }
    }
    LiftPages(t);
    forall b: int
      ensures EndsBefore(t, b) <==> EndsBefore(Lift(f, x), b)
      ensures StartsAfter(t, b) <==> StartsAfter(Lift(f, x), b)
    {
      RotateBounds(t, b);
    }
  }

  lemma WrapSameOrder<R>(f: Frame<R>, t: Tree<R>, u: Tree<R>)
    requires SameOrder(t, u)
    ensures SameOrder(Wrap(f, t), Wrap(f, u))
  {
    forall b: int
      ensures EndsBefore(Wrap(f, t), b) <==> EndsBefore(Wrap(f, u), b)
      ensures StartsAfter(Wrap(f, t), b) <==> StartsAfter(Wrap(f, u), b)
    {
    }
    forall p: int ensures Covers(Wrap(f, t), p) <==> Covers(Wrap(f, u), p) { }
  }

  lemma SameOrderTrans<R>(t: Tree<R>, u: Tree<R>, v: Tree<R>)
    requires SameOrder(t, u) && SameOrder(u, v)
    ensures SameOrder(t, v)
  {
  }

  lemma {:induction false} PlugSameOrder<R>(path: seq<Frame<R>>, t: Tree<R>, u: Tree<R>)
    requires SameOrder(t, u)
    ensures SameOrder(Plug(path, t), Plug(path, u))
  {
    if path != [] {
      var f := path[|path| - 1];
      WrapSameOrder(f, t, u);
      PlugSameOrder(path[..|path| - 1], Wrap(f, t), Wrap(f, u));
    }
  }

  lemma {:induction false} AscendSameOrder<R>(path: seq<Frame<R>>, x: Tree<R>)
    ensures SameOrder(Plug(path, x), Ascend(path, x))
  {
    if path != [] {
      var f, up := path[|path| - 1], path[..|path| - 1];
      LiftSameOrder(f, x);
      PlugSameOrder(up, Wrap(f, x), Lift(f, x));
      AscendSameOrder(up, Lift(f, x));
      SameOrderTrans(Plug(path, x), Plug(up, Lift(f, x)), Ascend(path, x));
    }
  }

  // ------------------------------------------------------------------ the size order of a plugged tree

  ghost predicate PathHeap<R>(path: seq<Frame<R>>) {
    path == [] ||
    var f, up := path[|path| - 1], path[..|path| - 1];
    && PathHeap(up) && Heap(f.other) && RootAtMost(f.other, f.key2)
    && (up != [] ==> f.key2 <= up[|up| - 1].key2)
  }

  ghost predicate Under<R>(path: seq<Frame<R>>, x: Tree<R>) {
    path != [] ==> RootAtMost(x, path[|path| - 1].key2)
  }

  lemma {:induction false} PlugHeap<R>(path: seq<Frame<R>>, x: Tree<R>)
    ensures Heap(Plug(path, x)) <==> PathHeap(path) && Heap(x) && Under(path, x)
  {
    if path != [] { PlugHeap(path[..|path| - 1], Wrap(path[|path| - 1], x)); }
  }

  // ------------------------------------------------------------------ sizes read off the tree

  /** The size of the region that holds [a, a+s) once it is inserted. */
  function GrownSize<R>(t: Tree<R>, a: nat, s: nat): nat {
    match t
    case Leaf => s
    case Node(_, k1, k2, l, r) =>
      var m := MergeAt(t, a, s);
      if m.Merged? then m.t.key2
      else if m.Miss? && a + s < k1 then GrownSize(l, a, s)
      else if m.Miss? && a > k1 + k2 then GrownSize(r, a, s)
      else 0
  }

  /** The size of the region two nodes above the one that holds [a, a+s); `p` and `g` lie above `t`. */
  function SizeTwoUp<R>(t: Tree<R>, a: nat, s: nat, p: nat, g: nat): nat {
    match t
    case Leaf => g
    case Node(_, k1, k2, l, r) =>
      if !MergeAt(t, a, s).Miss? then g
      else if a + s < k1 then SizeTwoUp(l, a, s, k2, p)
      else if a > k1 + k2 then SizeTwoUp(r, a, s, k2, p)
      else g
  }

  lemma {:induction false} SizesAlongPath<R>(path: seq<Frame<R>>, t: Tree<R>, a: nat, s: nat)
    requires Arrives(path, t, a, s)
    requires forall i :: 0 <= i < |path| && path[i].WentRight? ==> a + s >= path[i].key1
    ensures GrownSize(Plug(path, t), a, s) == GrownSize(t, a, s)
    ensures |path| >= 2 ==>
      SizeTwoUp(Plug(path, t), a, s, 0, 0) == SizeTwoUp(t, a, s, path[|path| - 1].key2, path[|path| - 2].key2)
    ensures |path| == 1 ==> SizeTwoUp(Plug(path, t), a, s, 0, 0) == SizeTwoUp(t, a, s, path[0].key2, 0)
  {
    if path != [] { SizesAlongPath(path[..|path| - 1], Wrap(path[|path| - 1], t), a, s); }
  }

  // ------------------------------------------------------------------ what an insertion comes to

  /** `cur`, at which the search for [a, a+s) ended, has become `x`. */
  ghost predicate Placed<R>(cur: Tree<R>, x: Tree<R>, a: nat, s: nat, f: R) {
    if cur.Leaf? then x == Node(f, a, s, Leaf, Leaf) else MergeAt(cur, a, s) == Merged(x)
  }

  /** Whether the place of [a, a+s) is found by walking `path` down to `cur`. */
  ghost predicate Reaches<R>(path: seq<Frame<R>>, cur: Tree<R>, a: nat, s: nat) {
    && Arrives(path, cur, a, s)
    && forall i :: 0 <= i < |path| && path[i].WentRight? ==> a + s >= path[i].key1
  }

  /** The condition under which an insertion restores the size order. */
  predicate SizeOrderSurvives<R>(t: Tree<R>, a: nat, s: nat, room: nat) {
    SearchDepth(t, a, s) <= room + 1 || GrownSize(t, a, s) <= SizeTwoUp(t, a, s, 0, 0)
  }

  lemma {:induction false} PathDescends<R>(path: seq<Frame<R>>)
    requires PathHeap(path)
    ensures Descending(path)
  {
    if path != [] {
      var n, up := |path|, path[..|path| - 1];
      PathDescends(up);
      forall i, j | 0 <= i < j < n ensures path[j].key2 <= path[i].key2 {
        if j == n - 1 && i < n - 2 { assert up[n - 2].key2 <= up[i].key2; }
      }
    }
  }

  lemma PlacedHeap<R>(cur: Tree<R>, x: Tree<R>, a: nat, s: nat, f: R, k: nat)
    requires Heap(cur) && Placed(cur, x, a, s, f) && RootAtMost(cur, k)
    ensures x.Node? && Heap(x) && RootAtMost(x.l, k) && RootAtMost(x.r, k) && GrownSize(cur, a, s) == x.key2
  {
    if cur.Node? { MergeHeap(cur, a, s); }
  }

  lemma LiftHeap<R>(f: Frame<R>, x: Tree<R>)
    requires x.Node? && Heap(x) && RootAtMost(x.l, f.key2) && RootAtMost(x.r, f.key2)
    requires Heap(f.other) && RootAtMost(f.other, f.key2)
    ensures Heap(Lift(f, x)) && Lift(f, x).Node?
    ensures Lift(f, x).key2 == if f.key2 < x.key2 then x.key2 else f.key2
  {
  }

  lemma InsertIsAscent<R>(path: seq<Frame<R>>, cur: Tree<R>, x: Tree<R>, a: nat, s: nat, f: R)
    requires Reaches(path, cur, a, s) && Placed(cur, x, a, s, f)
    ensures Insert(Plug(path, cur), a, s, f) == Inserted(Ascend(path, x))
  {
    InsertAlongPath(path, cur, a, s, f);
  }

  lemma {:induction false} ClimbSameOrder<R>(path: seq<Frame<R>>, x: Tree<R>, k: nat, room: nat)
    requires k <= |path|
    ensures SameOrder(Plug(path, x), Climb(path, x, k, room))
    decreases k
  {
    if k != 0 {
      var f, up, y := path[k - 1], path[..k - 1], Below(path, x, k);
      if y.Node? && f.key2 < y.key2 {
        PlugAt(path, x, k);
        LiftSameOrder(f, y);
        PlugSameOrder(up, Wrap(f, y), Lift(f, y));
        ClimbSameOrder(up, Lift(f, y), Left(k, room), room);
        SameOrderTrans(Plug(path, x), Plug(up, Lift(f, y)), Climb(path, x, k, room));
      }
    }
  }

  /** Whatever the room and the sizes, the climb leaves the pages and their order of the recursive insertion. */
  lemma ClimbKeepsOrder<R>(path: seq<Frame<R>>, x: Tree<R>, room: nat)
    ensures SameOrder(Ascend(path, x), Climb(path, x, |path|, room))
  {
    AscendSameOrder(path, x);
    ClimbSameOrder(path, x, |path|, room);
    SameOrderTrans(Ascend(path, x), Plug(path, x), Climb(path, x, |path|, room));
  }

  /** One step of bubbling is enough exactly when the grown region is not above the next one up. */
  lemma OneStepHeap<R>(path: seq<Frame<R>>, cur: Tree<R>, x: Tree<R>, a: nat, s: nat, f: R)
    requires |path| >= 2 && Heap(Plug(path, cur)) && Placed(cur, x, a, s, f)
    ensures Heap(Plug(path[..|path| - 1], Lift(path[|path| - 1], x))) <==> x.key2 <= path[|path| - 2].key2
  {
    var g, up := path[|path| - 1], path[..|path| - 1];
    PlugHeap(path, cur);
    PlacedHeap(cur, x, a, s, f, g.key2);
    LiftHeap(g, x);
    PlugHeap(up, Lift(g, x));
    assert up[|up| - 1] == path[|path| - 2];
  }

  /** The size order survives an insertion exactly under the condition above. */
  lemma ClimbHeapIff<R>(path: seq<Frame<R>>, cur: Tree<R>, x: Tree<R>, a: nat, s: nat, f: R, room: nat)
    requires Reaches(path, cur, a, s) && Placed(cur, x, a, s, f) && Heap(Plug(path, cur)) && 0 < room
    requires |path| == SearchDepth(Plug(path, cur), a, s)
    ensures Heap(Climb(path, x, |path|, room)) <==> SizeOrderSurvives(Plug(path, cur), a, s, room)
  {
    var n, t := |path|, Plug(path, cur);
    InsertIsAscent(path, cur, x, a, s, f);
    PlugHeap(path, cur);
    PathDescends(path);
    if n <= room + 1 {
      ClimbAscends(path, x, room);
      InsertHeap(t, a, s, f);
    } else {
      ClimbStops(path, x, room);
      OneStepHeap(path, cur, x, a, s, f);
      SizesAlongPath(path, cur, a, s);
      PlacedHeap(cur, x, a, s, f, if cur.Node? then cur.key2 else 0);
    }
  }

  /** `u` is what an insertion into `t` with a stack for `room` + 1 links comes to. */
  ghost predicate Agree<R>(t: Tree<R>, u: Tree<R>, a: nat, s: nat, f: R, room: nat) {
    && Insert(t, a, s, f).Inserted? && SameOrder(Insert(t, a, s, f).t, u)
    && (Heap(t) ==> (Heap(u) <==> SizeOrderSurvives(t, a, s, room)))
  }

  /** The climb against the recursive insertion: the same pages in the same order, and when the size order is kept. */
  lemma ClimbCorrect<R>(path: seq<Frame<R>>, cur: Tree<R>, x: Tree<R>, a: nat, s: nat, f: R, room: nat)
    requires Reaches(path, cur, a, s) && Placed(cur, x, a, s, f) && 0 < room
    requires |path| == SearchDepth(Plug(path, cur), a, s)
    ensures Agree(Plug(path, cur), Climb(path, x, |path|, room), a, s, f, room)
  {
    InsertIsAscent(path, cur, x, a, s, f);
    ClimbKeepsOrder(path, x, room);
    if Heap(Plug(path, cur)) { ClimbHeapIff(path, cur, x, a, s, f, room); }
  }

  // ------------------------------------------------------------------ trees that are never too deep

  lemma {:induction false} SearchDepthAtMostSize<R>(t: Tree<R>, a: nat, s: nat)
    ensures SearchDepth(t, a, s) <= Size(t)
  {
    if t.Node? { SearchDepthAtMostSize(t.l, a, s); SearchDepthAtMostSize(t.r, a, s); }
  }

  lemma {:induction false} DeleteDepthAtMostSize<R>(t: Tree<R>, f: (nat, nat) -> bool)
    ensures DeleteDepth(t, f) <= Size(t)
    decreases Size(t)
  {
    var u := Strip(t, f);
    if u.Node? { DeleteDepthAtMostSize(u.l, f); DeleteDepthAtMostSize(u.r, f); }
  }

  /** A tree of at most `room` regions is safe from both: no insertion loses the size order, no deletion crashes. */
  lemma FewRegionsAreSafe<R>(t: Tree<R>, a: nat, s: nat, f: (nat, nat) -> bool, room: nat)
    requires Size(t) <= room
    ensures SizeOrderSurvives(t, a, s, room) && DeleteDepth(t, f) <= room
  {
    SearchDepthAtMostSize(t, a, s);
    DeleteDepthAtMostSize(t, f);
  }

  /** `n` single pages as descending insertions leave them, ending before page `end`. */
  function LeftComb(end: nat, n: nat): Tree<()>
    requires 2 * n <= end
  {
    if n == 0 then Leaf else Node((), end - 2, 1, LeftComb(end - 2, n - 1), Leaf)
  }

  /** A deletion that keeps everything needs as much room as such a tree is deep. */
  lemma {:induction false} DeepDeletionOverflows(end: nat, n: nat)
    requires 2 * n <= end
    ensures var t := LeftComb(end, n);
      && Inv(t) && RootAtMost(t, 1) && EndsBefore(t, end)
      && DeleteDepth(t, (a: nat, c: nat) => false) == n
  {
    if n != 0 {
      var t := LeftComb(end, n);
      DeepDeletionOverflows(end - 2, n - 1);
      EndsBeforeWeaken(t.l, end - 2, end);
      assert Strip(t, (a: nat, c: nat) => false) == t;
    }
  }
}
