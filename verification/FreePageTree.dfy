/**
 Value model of the free-page tree: a search tree on the first page of a region (`key1`)
 that is at the same time a max-heap on the page count of the region (`key2`).

 A `Tree` value also records, as `ref`, which heap node carries each region, so that the
 heap class in CartesianTree.dfy can be proved to compute exactly these functions, node by
 node. Everything here is independent of what a `ref` is.
 */
module FreePageTree {

  datatype Tree<R> = Leaf | Node(ref: R, key1: nat, key2: nat, l: Tree<R>, r: Tree<R>)

  datatype Region = Region(start: nat, count: nat)

  // ------------------------------------------------------------------ measures and views

  /** The number of regions. */
  function Size<R>(t: Tree<R>): nat {
    match t
    case Leaf => 0
    case Node(_, _, _, l, r) => 1 + Size(l) + Size(r)
  }

  /** The number of pages. */
  function PageCount<R>(t: Tree<R>): nat {
    match t
    case Leaf => 0
    case Node(_, _, k2, l, r) => k2 + PageCount(l) + PageCount(r)
  }

  /** Page `p` lies in some region of the tree. */
  ghost predicate Covers<R>(t: Tree<R>, p: int) {
    match t
    case Leaf => false
    case Node(_, k1, k2, l, r) => k1 <= p < k1 + k2 || Covers(l, p) || Covers(r, p)
  }

  ghost predicate HasRegion<R>(t: Tree<R>, start: int, count: int) {
    match t
    case Leaf => false
    case Node(_, k1, k2, l, r) =>
      (k1 == start && k2 == count) || HasRegion(l, start, count) || HasRegion(r, start, count)
  }

  ghost function Refs<R>(t: Tree<R>): set<R> {
    match t
    case Leaf => {}
    case Node(ref, _, _, l, r) => {ref} + Refs(l) + Refs(r)
  }

  /** No heap node is used twice. */
  ghost predicate Distinct<R>(t: Tree<R>) {
    match t
    case Leaf => true
    case Node(ref, _, _, l, r) =>
      && Distinct(l) && Distinct(r)
      && ref !in Refs(l) && ref !in Refs(r) && Refs(l) !! Refs(r)
  }

  // ------------------------------------------------------------------ the invariants

  /** Every region ends strictly before page `b`, with at least one page between. */
  ghost predicate EndsBefore<R>(t: Tree<R>, b: int) {
    match t
    case Leaf => true
    case Node(_, k1, k2, l, r) => k1 + k2 < b && EndsBefore(l, b) && EndsBefore(r, b)
  }

  /** Every region starts strictly after page `b`. */
  ghost predicate StartsAfter<R>(t: Tree<R>, b: int) {
    match t
    case Leaf => true
    case Node(_, k1, k2, l, r) => b < k1 && StartsAfter(l, b) && StartsAfter(r, b)
  }

  /** Search order, and full coalescing: regions are non-empty, disjoint, and never touch. */
  ghost predicate Sorted<R>(t: Tree<R>) {
    match t
    case Leaf => true
    case Node(_, k1, k2, l, r) =>
      && 0 < k2 && Sorted(l) && Sorted(r)
      && EndsBefore(l, k1) && StartsAfter(r, k1 + k2)
  }

  predicate RootAtMost<R>(t: Tree<R>, k: nat) {
    t.Node? ==> t.key2 <= k
  }

  /** Size-heap order. */
  ghost predicate Heap<R>(t: Tree<R>) {
    match t
    case Leaf => true
    case Node(_, _, k2, l, r) => RootAtMost(l, k2) && RootAtMost(r, k2) && Heap(l) && Heap(r)
  }

  ghost predicate Inv<R>(t: Tree<R>) {
    Sorted(t) && Heap(t)
  }

  /** Every region ends inside the 32-bit page-index space. */
  ghost predicate Fits<R>(t: Tree<R>) {
    EndsBefore(t, 0x1_0000_0000)
  }

  // ------------------------------------------------------------------ rotations

  function RotateLeft<R>(t: Tree<R>): (top: Tree<R>)
    requires t.Node? && t.l.Node?
    ensures top.Node? && Size(top) == Size(t) && Size(top.r) < Size(t)
  {
    assert Size(t.l) == 1 + Size(t.l.l) + Size(t.l.r);
    t.l.(r := t.(l := t.l.r))
  }

  function RotateRight<R>(t: Tree<R>): (top: Tree<R>)
    requires t.Node? && t.r.Node?
    ensures top.Node? && Size(top) == Size(t) && Size(top.l) < Size(t)
  {
    assert Size(t.r) == 1 + Size(t.r.l) + Size(t.r.r);
    t.r.(l := t.(r := t.r.l))
  }

  lemma RotateBounds<R>(t: Tree<R>, b: int)
    requires t.Node?
    ensures t.l.Node? ==> (EndsBefore(RotateLeft(t), b) <==> EndsBefore(t, b))
    ensures t.l.Node? ==> (StartsAfter(RotateLeft(t), b) <==> StartsAfter(t, b))
    ensures t.r.Node? ==> (EndsBefore(RotateRight(t), b) <==> EndsBefore(t, b))
    ensures t.r.Node? ==> (StartsAfter(RotateRight(t), b) <==> StartsAfter(t, b))
  {
  }

  // ------------------------------------------------------------------ removing the root

  /** Drops the root region by rotating it down until it is a leaf. */
  function Remove<R>(t: Tree<R>): Tree<R>
    requires t.Node?
    decreases Size(t)
  {
    if t.l.Leaf? && t.r.Leaf? then
      Leaf
    else if t.l.Leaf? || (t.r.Node? && t.l.key2 < t.r.key2) then
      var top := RotateRight(t);
      top.(l := Remove(top.l))
    else
      var top := RotateLeft(t);
      top.(r := Remove(top.r))
  }

  lemma {:induction false} RemoveBounds<R>(t: Tree<R>, b: int)
    requires t.Node?
    ensures EndsBefore(t.l, b) && EndsBefore(t.r, b) ==> EndsBefore(Remove(t), b)
    ensures StartsAfter(t.l, b) && StartsAfter(t.r, b) ==> StartsAfter(Remove(t), b)
    decreases Size(t)
  {
    if t.l.Leaf? && t.r.Leaf? {
    } else if t.l.Leaf? || (t.r.Node? && t.l.key2 < t.r.key2) {
      RemoveBounds(RotateRight(t).l, b);
    } else {
      RemoveBounds(RotateLeft(t).r, b);
    }
  }

  lemma EndsBeforeWeaken<R>(t: Tree<R>, b: int, c: int)
    requires EndsBefore(t, b) && b <= c
    ensures EndsBefore(t, c)
  {
  }

  lemma StartsAfterWeaken<R>(t: Tree<R>, b: int, c: int)
    requires StartsAfter(t, b) && c <= b
    ensures StartsAfter(t, c)
  {
  }

  /** Only the subtrees need be in order: the root itself may already be empty. */
  lemma {:induction false} RemoveSorted<R>(t: Tree<R>)
    requires t.Node? && Sorted(t.l) && Sorted(t.r)
    requires EndsBefore(t.l, t.key1) && StartsAfter(t.r, t.key1 + t.key2)
    ensures Sorted(Remove(t))
    decreases Size(t)
  {
    if t.l.Leaf? && t.r.Leaf? {
    } else if t.l.Leaf? || (t.r.Node? && t.l.key2 < t.r.key2) {
      var top := RotateRight(t);
      EndsBeforeWeaken(t.l, t.key1, top.key1);
      RemoveSorted(top.l);
      RemoveBounds(top.l, top.key1);
    } else {
      var top := RotateLeft(t);
      StartsAfterWeaken(t.r, t.key1 + t.key2, top.key1 + top.key2);
      RemoveSorted(top.r);
      RemoveBounds(top.r, top.key1 + top.key2);
    }
  }

  lemma {:induction false} RemoveHeap<R>(t: Tree<R>, k: nat)
    requires t.Node? && Heap(t.l) && Heap(t.r) && RootAtMost(t.l, k) && RootAtMost(t.r, k)
    ensures Heap(Remove(t)) && RootAtMost(Remove(t), k)
    decreases Size(t)
  {
    if t.l.Leaf? && t.r.Leaf? {
    } else if t.l.Leaf? || (t.r.Node? && t.l.key2 < t.r.key2) {
      RemoveHeap(RotateRight(t).l, t.r.key2);
    } else {
      RemoveHeap(RotateLeft(t).r, t.l.key2);
    }
  }

  /** Exactly the root region goes: its pages, its node, nothing else. */
  lemma {:induction false} RemoveExact<R>(t: Tree<R>)
    requires t.Node?
    ensures Size(Remove(t)) == Size(t) - 1
    ensures PageCount(Remove(t)) == PageCount(t) - t.key2
    ensures forall p :: Covers(Remove(t), p) <==> Covers(t.l, p) || Covers(t.r, p)
    ensures forall a, c :: HasRegion(Remove(t), a, c) <==> HasRegion(t.l, a, c) || HasRegion(t.r, a, c)
    decreases Size(t)
  {
    if t.l.Leaf? && t.r.Leaf? {
    } else if t.l.Leaf? || (t.r.Node? && t.l.key2 < t.r.key2) {
      RemoveExact(RotateRight(t).l);
    } else {
      RemoveExact(RotateLeft(t).r);
    }
  }

  lemma {:induction false} RemoveRefs<R>(t: Tree<R>)
    requires t.Node? && Distinct(t)
    ensures Refs(Remove(t)) == Refs(t) - {t.ref} && Distinct(Remove(t))
    decreases Size(t)
  {
    if t.l.Leaf? && t.r.Leaf? {
    } else if t.l.Leaf? || (t.r.Node? && t.l.key2 < t.r.key2) {
      RemoveRefs(RotateRight(t).l);
    } else {
      RemoveRefs(RotateLeft(t).r);
    }
  }

  // ------------------------------------------------------------------ lowering the root

  /** Moves the root down until neither child is bigger. */
  function Lower<R>(t: Tree<R>): Tree<R>
    requires t.Node?
    decreases Size(t)
  {
    if t.l.Node? && t.l.key2 > t.key2 then
      if t.r.Node? && t.r.key2 > t.l.key2 then
        var top := RotateRight(t);
        top.(l := Lower(top.l))
      else
        var top := RotateLeft(t);
        top.(r := Lower(top.r))
    else if t.r.Node? && t.r.key2 > t.key2 then
      var top := RotateRight(t);
      top.(l := Lower(top.l))
    else
      t
  }

  lemma {:induction false} LowerBounds<R>(t: Tree<R>, b: int)
    requires t.Node?
    ensures EndsBefore(t, b) ==> EndsBefore(Lower(t), b)
    ensures StartsAfter(t, b) ==> StartsAfter(Lower(t), b)
    decreases Size(t)
  {
    RotateBounds(t, b);
    if t.l.Node? && t.l.key2 > t.key2 {
      if t.r.Node? && t.r.key2 > t.l.key2 {
        var top := RotateRight(t);
        LowerBounds(top.l, b);
        assert Lower(t) == top.(l := Lower(top.l));
      } else {
        var top := RotateLeft(t);
        LowerBounds(top.r, b);
        assert Lower(t) == top.(r := Lower(top.r));
      }
    } else if t.r.Node? && t.r.key2 > t.key2 {
      LowerBounds(RotateRight(t).l, b);
    }
  }

  lemma {:induction false} LowerSorted<R>(t: Tree<R>)
    requires t.Node? && Sorted(t)
    ensures Sorted(Lower(t))
    decreases Size(t)
  {
    if (t.l.Node? && t.l.key2 > t.key2 && t.r.Node? && t.r.key2 > t.l.key2)
       || (!(t.l.Node? && t.l.key2 > t.key2) && t.r.Node? && t.r.key2 > t.key2) {
      var top := RotateRight(t);
      EndsBeforeWeaken(t.l, t.key1, top.key1);
      LowerSorted(top.l);
      LowerBounds(top.l, top.key1);
    } else if t.l.Node? && t.l.key2 > t.key2 {
      var top := RotateLeft(t);
      StartsAfterWeaken(t.r, t.key1 + t.key2, top.key1 + top.key2);
      LowerSorted(top.r);
      LowerBounds(top.r, top.key1 + top.key2);
    }
  }

  lemma {:induction false} LowerHeap<R>(t: Tree<R>, k: nat)
    requires t.Node? && Heap(t.l) && Heap(t.r)
    requires t.key2 <= k && RootAtMost(t.l, k) && RootAtMost(t.r, k)
    ensures Heap(Lower(t)) && RootAtMost(Lower(t), k)
    decreases Size(t)
  {
    if t.l.Node? && t.l.key2 > t.key2 {
      if t.r.Node? && t.r.key2 > t.l.key2 {
        LowerHeap(RotateRight(t).l, t.r.key2);
      } else {
        LowerHeap(RotateLeft(t).r, t.l.key2);
      }
    } else if t.r.Node? && t.r.key2 > t.key2 {
      LowerHeap(RotateRight(t).l, t.r.key2);
    }
  }

  /** Lowering only rearranges. */
  lemma {:induction false} LowerExact<R>(t: Tree<R>)
    requires t.Node?
    ensures Size(Lower(t)) == Size(t) && PageCount(Lower(t)) == PageCount(t)
    ensures forall p :: Covers(Lower(t), p) <==> Covers(t, p)
    decreases Size(t)
  {
    if t.l.Node? && t.l.key2 > t.key2 {
      if t.r.Node? && t.r.key2 > t.l.key2 {
        LowerExact(RotateRight(t).l);
      } else {
        LowerExact(RotateLeft(t).r);
      }
    } else if t.r.Node? && t.r.key2 > t.key2 {
      LowerExact(RotateRight(t).l);
    }
  }

  lemma {:induction false} LowerRefs<R>(t: Tree<R>)
    requires t.Node? && Distinct(t)
    ensures Refs(Lower(t)) == Refs(t) && Distinct(Lower(t))
    decreases Size(t)
  {
    if t.l.Node? && t.l.key2 > t.key2 {
      if t.r.Node? && t.r.key2 > t.l.key2 {
        LowerRefs(RotateRight(t).l);
      } else {
        LowerRefs(RotateLeft(t).r);
      }
    } else if t.r.Node? && t.r.key2 > t.key2 {
      LowerRefs(RotateRight(t).l);
    }
  }

  // ------------------------------------------------------------------ first-fit search

  datatype Search<R> = NotFound | Found(a: nat, t: Tree<R>)

  /** The root region without its first `s` pages. */
  function Cut<R>(t: Tree<R>, s: nat): Tree<R>
    requires t.Node? && s <= t.key2
  {
    t.(key1 := t.key1 + s, key2 := t.key2 - s)
  }

  /** Takes the first `s` pages of the root region. */
  function TakeFront<R>(t: Tree<R>, s: nat): Tree<R>
    requires t.Node? && s <= t.key2
  {
    var cut := Cut(t, s);
    if cut.key2 != 0 then Lower(cut) else Remove(cut)
  }

  function FindIn<R>(t: Tree<R>, s: nat): Search<R> {
    match t
    case Leaf => NotFound
    case Node(_, k1, k2, l, _) =>
      if k2 < s then NotFound
      else
        match FindIn(l, s)
        case Found(a, l') => Found(a, t.(l := l'))
        case NotFound => Found(k1, TakeFront(t, s))
  }

  /** `a` is the lowest-addressed region of at least `s` pages. */
  ghost predicate FirstFit<R>(t: Tree<R>, a: nat, s: nat) {
    && (exists c :: s <= c && HasRegion(t, a, c))
    && (forall b, c :: HasRegion(t, b, c) && s <= c ==> a <= b)
  }

  lemma RegionsInBounds<R>(t: Tree<R>, a: int, c: int)
    requires HasRegion(t, a, c)
    ensures forall b :: EndsBefore(t, b) ==> a + c < b
    ensures forall b :: StartsAfter(t, b) ==> b < a
  {
  }

  lemma {:induction false} HeapBoundsRegions<R>(t: Tree<R>, a: int, c: int)
    requires Heap(t) && HasRegion(t, a, c)
    ensures t.Node? && c <= t.key2
  {
    if HasRegion(t.l, a, c) {
      HeapBoundsRegions(t.l, a, c);
    } else if HasRegion(t.r, a, c) {
      HeapBoundsRegions(t.r, a, c);
    }
  }

  lemma CoveredInBounds<R>(t: Tree<R>, p: int)
    requires Covers(t, p)
    ensures forall b :: EndsBefore(t, b) ==> p + 1 < b
    ensures forall b :: StartsAfter(t, b) ==> b < p
  {
  }

  lemma CutSides<R>(t: Tree<R>, cut: Tree<R>, s: nat)
    requires t.Node? && Sorted(t) && s <= t.key2 && cut == Cut(t, s)
    ensures Sorted(cut.l) && Sorted(cut.r)
    ensures EndsBefore(cut.l, cut.key1) && StartsAfter(cut.r, cut.key1 + cut.key2)
  {
    EndsBeforeWeaken(t.l, t.key1, t.key1 + s);
  }

  /** A cut root is lowered, or removed when nothing of it is left. */
  lemma SettledSorted<R>(cut: Tree<R>, u: Tree<R>)
    requires cut.Node? && Sorted(cut.l) && Sorted(cut.r)
    requires EndsBefore(cut.l, cut.key1) && StartsAfter(cut.r, cut.key1 + cut.key2)
    requires u == if cut.key2 != 0 then Lower(cut) else Remove(cut)
    ensures Sorted(u)
  {
    if cut.key2 != 0 { LowerSorted(cut); } else { RemoveSorted(cut); }
  }

  lemma TakeFrontSorted<R>(t: Tree<R>, s: nat)
    requires t.Node? && Sorted(t) && s <= t.key2
    ensures Sorted(TakeFront(t, s))
  {
    var cut, u := Cut(t, s), TakeFront(t, s);
    CutSides(t, cut, s);
    assert Sorted(u) by { SettledSorted(cut, u); }
  }

  lemma TakeFrontHeap<R>(t: Tree<R>, s: nat)
    requires t.Node? && Heap(t) && s <= t.key2
    ensures Heap(TakeFront(t, s)) && RootAtMost(TakeFront(t, s), t.key2)
  {
    var cut := Cut(t, s);
    if cut.key2 != 0 { LowerHeap(cut, t.key2); } else { RemoveHeap(cut, t.key2); }
  }

  lemma TakeFrontBounds<R>(t: Tree<R>, s: nat, b: int)
    requires t.Node? && s <= t.key2
    ensures EndsBefore(t, b) ==> EndsBefore(TakeFront(t, s), b)
    ensures StartsAfter(t, b) ==> StartsAfter(TakeFront(t, s), b)
  {
    var cut := Cut(t, s);
    if cut.key2 != 0 { LowerBounds(cut, b); } else { RemoveBounds(cut, b); }
  }

  lemma SubtreesMissRoot<R>(t: Tree<R>, p: int)
    requires t.Node? && Sorted(t) && (Covers(t.l, p) || Covers(t.r, p))
    ensures !(t.key1 <= p < t.key1 + t.key2)
  {
    if Covers(t.l, p) { CoveredInBounds(t.l, p); } else { CoveredInBounds(t.r, p); }
  }

  lemma CutCovers<R>(t: Tree<R>, s: nat, p: int)
    requires t.Node? && Sorted(t) && s <= t.key2
    ensures Covers(Cut(t, s), p) <==> Covers(t, p) && !(t.key1 <= p < t.key1 + s)
  {
    if Covers(t.l, p) || Covers(t.r, p) { SubtreesMissRoot(t, p); }
  }

  lemma TakeFrontPages<R>(t: Tree<R>, s: nat)
    requires t.Node? && Sorted(t) && s <= t.key2
    ensures PageCount(TakeFront(t, s)) == PageCount(t) - s
    ensures forall p :: Covers(TakeFront(t, s), p) <==> Covers(t, p) && !(t.key1 <= p < t.key1 + s)
  {
    var cut := Cut(t, s);
    var u := TakeFront(t, s);
    if cut.key2 != 0 { LowerExact(cut); } else { RemoveExact(cut); }
    assert PageCount(u) == PageCount(cut);
    forall p ensures Covers(u, p) <==> Covers(t, p) && !(t.key1 <= p < t.key1 + s) {
      CutCovers(t, s, p);
      assert Covers(u, p) <==> Covers(cut, p);
    }
  }

  lemma CutRefs<R>(t: Tree<R>, s: nat)
    requires t.Node? && Distinct(t) && s <= t.key2
    ensures Refs(Cut(t, s)) == Refs(t) && Distinct(Cut(t, s))
  {
  }

  lemma TakeFrontRefs<R>(t: Tree<R>, s: nat)
    requires t.Node? && Distinct(t) && s <= t.key2
    ensures Refs(TakeFront(t, s)) <= Refs(t) && Distinct(TakeFront(t, s))
  {
    var cut := Cut(t, s);
    CutRefs(t, s);
    if cut.key2 != 0 { LowerRefs(cut); } else { RemoveRefs(cut); }
  }

  lemma {:induction false} FindBounds<R>(t: Tree<R>, s: nat, b: int)
    requires FindIn(t, s).Found?
    ensures EndsBefore(t, b) ==> EndsBefore(FindIn(t, s).t, b)
    ensures StartsAfter(t, b) ==> StartsAfter(FindIn(t, s).t, b)
  {
    if FindIn(t.l, s).Found? { FindBounds(t.l, s, b); } else { TakeFrontBounds(t, s, b); }
  }

  lemma {:induction false} FindSorted<R>(t: Tree<R>, s: nat)
    requires Sorted(t) && FindIn(t, s).Found?
    ensures Sorted(FindIn(t, s).t)
  {
    if FindIn(t.l, s).Found? {
      FindSorted(t.l, s);
      FindBounds(t.l, s, t.key1);
    } else {
      TakeFrontSorted(t, s);
    }
  }

  lemma {:induction false} FindHeap<R>(t: Tree<R>, s: nat)
    requires Heap(t) && FindIn(t, s).Found?
    ensures Heap(FindIn(t, s).t) && RootAtMost(FindIn(t, s).t, t.key2)
  {
    if FindIn(t.l, s).Found? { FindHeap(t.l, s); } else { TakeFrontHeap(t, s); }
  }

  /** Cutting the region and lowering or removing its node keeps search order, and size order where it was. */
  lemma FindInv<R>(t: Tree<R>, s: nat)
    requires Sorted(t) && FindIn(t, s).Found?
    ensures Sorted(FindIn(t, s).t)
    ensures Heap(t) ==> Heap(FindIn(t, s).t)
  {
    FindSorted(t, s);
    if Heap(t) { FindHeap(t, s); }
  }

  /** A request is refused exactly when no single region is big enough. */
  lemma {:induction false} FindFailsIff<R>(t: Tree<R>, s: nat)
    requires Heap(t)
    ensures FindIn(t, s).NotFound? ==> forall a, c :: HasRegion(t, a, c) ==> c < s
    ensures FindIn(t, s).Found? ==> exists a, c :: HasRegion(t, a, c) && s <= c
  {
    if t.Node? {
      if t.key2 < s {
        forall a, c | HasRegion(t, a, c) ensures c < s { HeapBoundsRegions(t, a, c); }
      } else {
        assert HasRegion(t, t.key1, t.key2);
      }
    }
  }

  lemma {:induction false} FindFirstFit<R>(t: Tree<R>, s: nat)
    requires Inv(t) && FindIn(t, s).Found?
    ensures FirstFit(t, FindIn(t, s).a, s)
  {
    var a := FindIn(t, s).a;
    if FindIn(t.l, s).Found? {
      FindFirstFit(t.l, s);
      var c :| s <= c && HasRegion(t.l, a, c);
      RegionsInBounds(t.l, a, c);
      assert HasRegion(t, a, c);
    } else {
      FindFailsIff(t.l, s);
      assert HasRegion(t, t.key1, t.key2);
    }
    assert a <= t.key1;
    forall b, c | HasRegion(t, b, c) && s <= c ensures a <= b {
      if HasRegion(t.r, b, c) {
        RegionsInBounds(t.r, b, c);
      } else if HasRegion(t.l, b, c) {
        assert FindIn(t.l, s).Found?;
      }
    }
  }

  /** Exactly the pages [a, a+s) leave the tree, and all of them were in it. */
  lemma {:induction false} FindTakesExactly<R>(t: Tree<R>, s: nat)
    requires Sorted(t) && FindIn(t, s).Found?
    ensures var Found(a, t') := FindIn(t, s);
      && PageCount(t') == PageCount(t) - s
      && (forall p :: Covers(t', p) <==> Covers(t, p) && !(a <= p < a + s))
      && (forall p :: a <= p < a + s ==> Covers(t, p))
  {
    if FindIn(t.l, s).Found? {
      FindTakesExactly(t.l, s);
      var a := FindIn(t.l, s).a;
      var l' := FindIn(t.l, s).t;
      forall p ensures Covers(t.(l := l'), p) <==> Covers(t, p) && !(a <= p < a + s) {
        if a <= p < a + s {
          CoveredInBounds(t.l, p);
          if Covers(t.r, p) { CoveredInBounds(t.r, p); }
        }
      }
      assert FindIn(t, s).t == t.(l := l');
    } else {
      TakeFrontPages(t, s);
    }
  }

  lemma {:induction false} FindRefs<R>(t: Tree<R>, s: nat)
    requires Distinct(t) && FindIn(t, s).Found?
    ensures Refs(FindIn(t, s).t) <= Refs(t) && Distinct(FindIn(t, s).t)
  {
    if FindIn(t.l, s).Found? { FindRefs(t.l, s); } else { TakeFrontRefs(t, s); }
  }

  // ------------------------------------------------------------------ coalescing insertion

  datatype Absorb<R> = Blocked | Absorbed(count: nat, t: Tree<R>)

  /**
   Looks, in the right subtree of a region that is about to grow up to page `m`, for the region
   that starts at `m`, and takes it out. `Blocked` means some region starts before `m`.
   */
  function AbsorbRight<R>(t: Tree<R>, m: nat): Absorb<R> {
    match t
    case Leaf => Absorbed(0, Leaf)
    case Node(_, k1, k2, l, _) =>
      if k1 == m then
        if l.Node? then Blocked else Absorbed(k2, Remove(t))
      else if k1 < m then Blocked
      else
        match AbsorbRight(l, m)
        case Blocked => Blocked
        case Absorbed(c, l') => Absorbed(c, t.(l := l'))
  }

  /** The mirror image: looks in a left subtree for the region that ends at `a`. */
  function AbsorbLeft<R>(t: Tree<R>, a: nat): (res: Absorb<R>)
    ensures res.Absorbed? ==> res.count <= a
  {
    match t
    case Leaf => Absorbed(0, Leaf)
    case Node(_, k1, k2, _, r) =>
      if k1 + k2 == a then
        if r.Node? then Blocked else Absorbed(k2, Remove(t))
      else if k1 + k2 > a then Blocked
      else
        match AbsorbLeft(r, a)
        case Blocked => Blocked
        case Absorbed(c, r') => Absorbed(c, t.(r := r'))
  }

  datatype Merge<R> = Merged(t: Tree<R>) | Miss | MergeClash

  /** Tries to join [a, a+s) to the root region, together with its neighbour on the far side. */
  function MergeAt<R>(t: Tree<R>, a: nat, s: nat): Merge<R>
    requires t.Node?
  {
    if a == t.key1 + t.key2 then
      match AbsorbRight(t.r, a + s)
      case Blocked => MergeClash
      case Absorbed(c, r') => Merged(t.(key2 := t.key2 + s + c, r := r'))
    else if a + s == t.key1 then
      match AbsorbLeft(t.l, a)
      case Blocked => MergeClash
      case Absorbed(c, l') => Merged(t.(key1 := a - c, key2 := t.key2 + s + c, l := l'))
    else
      Miss
  }

  /** One step of bubbling a grown left child up. */
  function LiftLeft<R>(t: Tree<R>): Tree<R>
    requires t.Node?
  {
    if t.l.Node? && t.key2 < t.l.key2 then RotateLeft(t) else t
  }

  function LiftRight<R>(t: Tree<R>): Tree<R>
    requires t.Node?
  {
    if t.r.Node? && t.key2 < t.r.key2 then RotateRight(t) else t
  }

  datatype Insertion<R> = Clash | Inserted(t: Tree<R>)

  function Insert<R>(t: Tree<R>, a: nat, s: nat, fresh_: R): Insertion<R> {
    match t
    case Leaf => Inserted(Node(fresh_, a, s, Leaf, Leaf))
    case Node(_, k1, k2, l, r) =>
      match MergeAt(t, a, s)
      case Merged(t') => Inserted(t')
      case MergeClash => Clash
      case Miss =>
        if a + s < k1 then
          match Insert(l, a, s, fresh_)
          case Clash => Clash
          case Inserted(l') => Inserted(LiftLeft(t.(l := l')))
        else if a > k1 + k2 then
          match Insert(r, a, s, fresh_)
          case Clash => Clash
          case Inserted(r') => Inserted(LiftRight(t.(r := r')))
        else
          Clash
  }

  /** No region shares a page with [a, m). */
  ghost predicate Clear<R>(t: Tree<R>, a: int, m: int) {
    match t
    case Leaf => true
    case Node(_, k1, k2, l, r) => (k1 + k2 <= a || m <= k1) && Clear(l, a, m) && Clear(r, a, m)
  }

  lemma {:induction false} ClearMeansNoCoveredPage<R>(t: Tree<R>, a: int, m: int)
    requires Sorted(t) && a < m
    ensures Clear(t, a, m) ==> forall p :: a <= p < m ==> !Covers(t, p)
    ensures !Clear(t, a, m) ==> exists p :: a <= p < m && Covers(t, p)
  {
    if t.Node? {
      ClearMeansNoCoveredPage(t.l, a, m);
      ClearMeansNoCoveredPage(t.r, a, m);
      if !(t.key1 + t.key2 <= a || m <= t.key1) {
        assert Covers(t, if a <= t.key1 then t.key1 else a);
      } else if !Clear(t.l, a, m) {
        var p :| a <= p < m && Covers(t.l, p);
        assert Covers(t, p);
      } else if !Clear(t.r, a, m) {
        var p :| a <= p < m && Covers(t.r, p);
        assert Covers(t, p);
      }
    }
  }

  lemma ClearOutside<R>(t: Tree<R>, a: int, m: int)
    requires StartsAfter(t, m) || EndsBefore(t, a)
    ensures Clear(t, a, m)
  {
  }

  lemma {:induction false} AbsorbRightBound<R>(t: Tree<R>, m: nat, b: int)
    requires AbsorbRight(t, m).Absorbed?
    ensures var Absorbed(c, t') := AbsorbRight(t, m);
      && (EndsBefore(t, b) ==> EndsBefore(t', b) && (c != 0 ==> m + c < b))
      && (StartsAfter(t, b) ==> StartsAfter(t', b))
  {
    if t.Node? {
      if t.key1 == m { RemoveBounds(t, b); } else { AbsorbRightBound(t.l, m, b); }
    }
  }

  lemma {:induction false} AbsorbRightBlockedIff<R>(t: Tree<R>, a: nat, m: nat)
    requires Sorted(t) && StartsAfter(t, a) && a < m
    ensures AbsorbRight(t, m).Blocked? <==> !Clear(t, a, m)
  {
    if t.Node? {
      if m <= t.key1 {
        StartsAfterWeaken(t.r, t.key1 + t.key2, m);
        ClearOutside(t.r, a, m);
      }
      if t.key1 == m {
        assert t.l.Node? ==> !Clear(t.l, a, m);
      } else if t.key1 > m {
        AbsorbRightBlockedIff(t.l, a, m);
      }
    }
  }

  lemma {:induction false} AbsorbRightPages<R>(t: Tree<R>, m: nat)
    requires AbsorbRight(t, m).Absorbed?
    ensures var Absorbed(c, t') := AbsorbRight(t, m);
      && PageCount(t') + c == PageCount(t)
      && (forall p :: Covers(t, p) <==> Covers(t', p) || m <= p < m + c)
  {
    if t.Node? {
      if t.key1 == m {
        RemoveExact(t);
      } else {
        AbsorbRightPages(t.l, m);
        var Absorbed(c, n') := AbsorbRight(t.l, m);
        forall p ensures Covers(t, p) <==> Covers(t.(l := n'), p) || m <= p < m + c {
        }
      }
    }
  }

  lemma {:induction false} AbsorbRightSorted<R>(t: Tree<R>, m: nat)
    requires Sorted(t) && AbsorbRight(t, m).Absorbed?
    ensures var Absorbed(c, t') := AbsorbRight(t, m); Sorted(t') && StartsAfter(t', m + c)
  {
    if t.Node? {
      if t.key1 == m {
        RemoveSorted(t); RemoveBounds(t, m + t.key2);
      } else {
        AbsorbRightSorted(t.l, m);
        AbsorbRightBound(t.l, m, t.key1);
        StartsAfterWeaken(t.r, t.key1 + t.key2, m + AbsorbRight(t.l, m).count);
      }
    }
  }

  lemma {:induction false} AbsorbRightHeap<R>(t: Tree<R>, m: nat)
    requires Heap(t) && AbsorbRight(t, m).Absorbed?
    ensures var t' := AbsorbRight(t, m).t;
      Heap(t') && (t.Node? ==> RootAtMost(t', t.key2)) && (t.Leaf? ==> t'.Leaf?)
  {
    if t.Node? {
      if t.key1 == m { RemoveHeap(t, t.key2); } else { AbsorbRightHeap(t.l, m); }
    }
  }

  lemma {:induction false} AbsorbLeftBound<R>(t: Tree<R>, a: nat, b: int)
    requires AbsorbLeft(t, a).Absorbed?
    ensures var Absorbed(c, t') := AbsorbLeft(t, a);
      && (StartsAfter(t, b) ==> StartsAfter(t', b) && (c != 0 ==> b < a - c))
      && (EndsBefore(t, b) ==> EndsBefore(t', b))
  {
    if t.Node? {
      if t.key1 + t.key2 == a { RemoveBounds(t, b); } else { AbsorbLeftBound(t.r, a, b); }
    }
  }

  lemma {:induction false} AbsorbLeftBlockedIff<R>(t: Tree<R>, a: nat, m: nat)
    requires Sorted(t) && EndsBefore(t, m) && a < m
    ensures AbsorbLeft(t, a).Blocked? <==> !Clear(t, a, m)
  {
    if t.Node? {
      if t.key1 + t.key2 <= a {
        EndsBeforeWeaken(t.l, t.key1, a);
        ClearOutside(t.l, a, m);
      }
      if t.key1 + t.key2 == a {
        assert t.r.Node? ==> !Clear(t.r, a, m);
      } else if t.key1 + t.key2 < a {
        AbsorbLeftBlockedIff(t.r, a, m);
      }
    }
  }

  lemma {:induction false} AbsorbLeftPages<R>(t: Tree<R>, a: nat)
    requires AbsorbLeft(t, a).Absorbed?
    ensures var Absorbed(c, t') := AbsorbLeft(t, a);
      && PageCount(t') + c == PageCount(t)
      && (forall p :: Covers(t, p) <==> Covers(t', p) || a - c <= p < a)
  {
    if t.Node? {
      if t.key1 + t.key2 == a {
        RemoveExact(t);
      } else {
        AbsorbLeftPages(t.r, a);
        var Absorbed(c, n') := AbsorbLeft(t.r, a);
        forall p ensures Covers(t, p) <==> Covers(t.(r := n'), p) || a - c <= p < a {
        }
      }
    }
  }

  lemma {:induction false} AbsorbLeftSorted<R>(t: Tree<R>, a: nat)
    requires Sorted(t) && AbsorbLeft(t, a).Absorbed?
    ensures var Absorbed(c, t') := AbsorbLeft(t, a); Sorted(t') && EndsBefore(t', a - c)
  {
    if t.Node? {
      if t.key1 + t.key2 == a {
        RemoveSorted(t); RemoveBounds(t, t.key1);
      } else {
        AbsorbLeftSorted(t.r, a);
        AbsorbLeftBound(t.r, a, t.key1 + t.key2);
        EndsBeforeWeaken(t.l, t.key1, a - AbsorbLeft(t.r, a).count);
      }
    }
  }

  lemma {:induction false} AbsorbLeftHeap<R>(t: Tree<R>, a: nat)
    requires Heap(t) && AbsorbLeft(t, a).Absorbed?
    ensures var t' := AbsorbLeft(t, a).t;
      Heap(t') && (t.Node? ==> RootAtMost(t', t.key2)) && (t.Leaf? ==> t'.Leaf?)
  {
    if t.Node? {
      if t.key1 + t.key2 == a { RemoveHeap(t, t.key2); } else { AbsorbLeftHeap(t.r, a); }
    }
  }

  lemma {:induction false} AbsorbRefs<R>(t: Tree<R>, x: nat)
    requires Distinct(t)
    ensures AbsorbRight(t, x).Absorbed? ==>
      Refs(AbsorbRight(t, x).t) <= Refs(t) && Distinct(AbsorbRight(t, x).t)
    ensures AbsorbLeft(t, x).Absorbed? ==>
      Refs(AbsorbLeft(t, x).t) <= Refs(t) && Distinct(AbsorbLeft(t, x).t)
  {
    if t.Node? {
      RemoveRefs(t);
      AbsorbRefs(t.l, x);
      AbsorbRefs(t.r, x);
    }
  }

  lemma MergeBounds<R>(t: Tree<R>, a: nat, s: nat, b: int)
    requires t.Node? && MergeAt(t, a, s).Merged?
    ensures EndsBefore(t, b) && a + s < b ==> EndsBefore(MergeAt(t, a, s).t, b)
    ensures StartsAfter(t, b) && b < a ==> StartsAfter(MergeAt(t, a, s).t, b)
  {
    if a == t.key1 + t.key2 { AbsorbRightBound(t.r, a + s, b); } else { AbsorbLeftBound(t.l, a, b); }
  }

  lemma MergeSorted<R>(t: Tree<R>, a: nat, s: nat)
    requires t.Node? && Sorted(t) && MergeAt(t, a, s).Merged?
    ensures MergeAt(t, a, s).t.Node? && Sorted(MergeAt(t, a, s).t)
  {
    if a == t.key1 + t.key2 { AbsorbRightSorted(t.r, a + s); } else { AbsorbLeftSorted(t.l, a); }
  }

  lemma MergeHeap<R>(t: Tree<R>, a: nat, s: nat)
    requires t.Node? && Heap(t) && MergeAt(t, a, s).Merged?
    ensures var t' := MergeAt(t, a, s).t;
      t'.Node? && Heap(t') && RootAtMost(t'.l, t.key2) && RootAtMost(t'.r, t.key2)
  {
    if a == t.key1 + t.key2 { AbsorbRightHeap(t.r, a + s); } else { AbsorbLeftHeap(t.l, a); }
  }

  lemma MergeClashIff<R>(t: Tree<R>, a: nat, s: nat)
    requires t.Node? && Sorted(t) && 0 < s
    ensures MergeAt(t, a, s).MergeClash? ==> !Clear(t, a, a + s)
    ensures MergeAt(t, a, s).Merged? ==> Clear(t, a, a + s)
  {
    if a == t.key1 + t.key2 {
      EndsBeforeWeaken(t.l, t.key1, a);
      ClearOutside(t.l, a, a + s);
      AbsorbRightBlockedIff(t.r, a, a + s);
    } else if a + s == t.key1 {
      StartsAfterWeaken(t.r, t.key1 + t.key2, a + s);
      ClearOutside(t.r, a, a + s);
      AbsorbLeftBlockedIff(t.l, a, a + s);
    }
  }

  lemma MergePages<R>(t: Tree<R>, a: nat, s: nat)
    requires t.Node? && MergeAt(t, a, s).Merged?
    ensures var t' := MergeAt(t, a, s).t;
      && PageCount(t') == PageCount(t) + s
      && (forall p :: Covers(t', p) <==> Covers(t, p) || a <= p < a + s)
  {
    if a == t.key1 + t.key2 { AbsorbRightPages(t.r, a + s); } else { AbsorbLeftPages(t.l, a); }
  }

  lemma {:induction false} InsertBounds<R>(t: Tree<R>, a: nat, s: nat, f: R, b: int)
    requires Insert(t, a, s, f).Inserted?
    ensures EndsBefore(t, b) && a + s < b ==> EndsBefore(Insert(t, a, s, f).t, b)
    ensures StartsAfter(t, b) && b < a ==> StartsAfter(Insert(t, a, s, f).t, b)
  {
    if t.Node? {
      if MergeAt(t, a, s).Merged? {
        MergeBounds(t, a, s, b);
      } else if a + s < t.key1 {
        InsertBounds(t.l, a, s, f, b);
        RotateBounds(t.(l := Insert(t.l, a, s, f).t), b);
      } else {
        InsertBounds(t.r, a, s, f, b);
        RotateBounds(t.(r := Insert(t.r, a, s, f).t), b);
      }
    }
  }

  /** The root may have grown; below it nothing is bigger than the old root. */
  ghost predicate ChildrenAtMost<R>(t: Tree<R>, k: nat) {
    t.Node? && RootAtMost(t.l, k) && RootAtMost(t.r, k)
  }

  lemma {:induction false} LeftSorted<R>(t: Tree<R>)
    requires t.Node? && t.l.Node? && Sorted(t)
    ensures Sorted(RotateLeft(t))
  {
    var low := t.(l := t.l.r);
    StartsAfterWeaken(t.r, t.key1 + t.key2, t.l.key1 + t.l.key2);
    assert Sorted(t.l) && EndsBefore(t.l, t.key1);
    assert Sorted(low) && StartsAfter(low, t.l.key1 + t.l.key2);
    assert RotateLeft(t) == t.l.(r := low);
  }

  lemma {:induction false} RightSorted<R>(t: Tree<R>)
    requires t.Node? && t.r.Node? && Sorted(t)
    ensures Sorted(RotateRight(t))
  {
    var low := t.(r := t.r.l);
    EndsBeforeWeaken(t.l, t.key1, t.r.key1);
    assert Sorted(t.r) && StartsAfter(t.r, t.key1 + t.key2);
    assert Sorted(low) && EndsBefore(low, t.r.key1);
    assert RotateRight(t) == t.r.(l := low);
  }

  lemma LiftSorted<R>(t: Tree<R>)
    requires t.Node? && Sorted(t)
    ensures Sorted(LiftLeft(t)) && Sorted(LiftRight(t))
  {
    if t.l.Node? { LeftSorted(t); }
    if t.r.Node? { RightSorted(t); }
  }

  lemma SideSorted<R>(t: Tree<R>, x: Tree<R>)
    requires t.Node? && Sorted(t) && Sorted(x)
    ensures EndsBefore(x, t.key1) ==> Sorted(t.(l := x))
    ensures StartsAfter(x, t.key1 + t.key2) ==> Sorted(t.(r := x))
  {
  }

  lemma LiftLeftHeap<R>(t: Tree<R>, k: nat)
    requires t.Node? && Heap(t.l) && Heap(t.r) && RootAtMost(t.r, t.key2)
    requires t.l.Node? && ChildrenAtMost(t.l, t.key2) && t.key2 <= k
    ensures Heap(LiftLeft(t)) && ChildrenAtMost(LiftLeft(t), k)
  {
  }

  lemma LiftRightHeap<R>(t: Tree<R>, k: nat)
    requires t.Node? && Heap(t.l) && Heap(t.r) && RootAtMost(t.l, t.key2)
    requires t.r.Node? && ChildrenAtMost(t.r, t.key2) && t.key2 <= k
    ensures Heap(LiftRight(t)) && ChildrenAtMost(LiftRight(t), k)
  {
  }

  lemma ChildrenAtMostTrans<R>(t: Tree<R>, j: nat, k: nat)
    requires ChildrenAtMost(t, j) && j <= k
    ensures ChildrenAtMost(t, k)
  {
  }

  function RootSize<R>(t: Tree<R>): nat { if t.Node? then t.key2 else 0 }

  lemma {:induction false} InsertSorted<R>(t: Tree<R>, a: nat, s: nat, f: R)
    requires Sorted(t) && 0 < s && Insert(t, a, s, f).Inserted?
    ensures Sorted(Insert(t, a, s, f).t)
  {
    if t.Node? {
      if MergeAt(t, a, s).Merged? {
        MergeSorted(t, a, s);
      } else if a + s < t.key1 {
        InsertSorted(t.l, a, s, f);
        InsertBounds(t.l, a, s, f, t.key1);
        SideSorted(t, Insert(t.l, a, s, f).t);
        LiftSorted(t.(l := Insert(t.l, a, s, f).t));
      } else {
        InsertSorted(t.r, a, s, f);
        InsertBounds(t.r, a, s, f, t.key1 + t.key2);
        SideSorted(t, Insert(t.r, a, s, f).t);
        LiftSorted(t.(r := Insert(t.r, a, s, f).t));
      }
    }
  }

  lemma {:induction false} InsertHeap<R>(t: Tree<R>, a: nat, s: nat, f: R)
    requires Heap(t) && Insert(t, a, s, f).Inserted?
    ensures Heap(Insert(t, a, s, f).t) && ChildrenAtMost(Insert(t, a, s, f).t, RootSize(t))
  {
    if t.Node? {
      if MergeAt(t, a, s).Merged? {
        MergeHeap(t, a, s);
      } else if a + s < t.key1 {
        InsertHeap(t.l, a, s, f);
        var l' := Insert(t.l, a, s, f).t;
        ChildrenAtMostTrans(l', RootSize(t.l), t.key2);
        LiftLeftHeap(t.(l := l'), t.key2);
      } else {
        InsertHeap(t.r, a, s, f);
        var r' := Insert(t.r, a, s, f).t;
        ChildrenAtMostTrans(r', RootSize(t.r), t.key2);
        LiftRightHeap(t.(r := r'), t.key2);
      }
    }
  }

  /** An accepted insertion keeps search order and full coalescing, and size order where it was. */
  lemma InsertInv<R>(t: Tree<R>, a: nat, s: nat, f: R)
    requires Sorted(t) && 0 < s && Insert(t, a, s, f).Inserted?
    ensures Sorted(Insert(t, a, s, f).t)
    ensures Heap(t) ==> Heap(Insert(t, a, s, f).t)
  {
    InsertSorted(t, a, s, f);
    if Heap(t) { InsertHeap(t, a, s, f); }
  }

  /** The insertion is refused exactly when one of its pages is already in the tree. */
  lemma {:induction false} InsertClashIff<R>(t: Tree<R>, a: nat, s: nat, f: R)
    requires Sorted(t) && 0 < s
    ensures Insert(t, a, s, f).Clash? <==> !Clear(t, a, a + s)
  {
    if t.Node? {
      MergeClashIff(t, a, s);
      if MergeAt(t, a, s).Miss? {
        if a + s < t.key1 {
          InsertClashIff(t.l, a, s, f);
          StartsAfterWeaken(t.r, t.key1 + t.key2, a + s);
          ClearOutside(t.r, a, a + s);
        } else if a > t.key1 + t.key2 {
          InsertClashIff(t.r, a, s, f);
          EndsBeforeWeaken(t.l, t.key1, a);
          ClearOutside(t.l, a, a + s);
        }
      }
    }
  }

  lemma LiftPages<R>(t: Tree<R>)
    requires t.Node?
    ensures PageCount(LiftLeft(t)) == PageCount(t) && PageCount(LiftRight(t)) == PageCount(t)
    ensures forall p :: Covers(LiftLeft(t), p) <==> Covers(t, p)
    ensures forall p :: Covers(LiftRight(t), p) <==> Covers(t, p)
  {
  }

  /** Exactly the pages [a, a+s) join the tree. */
  lemma {:induction false} InsertAddsExactly<R>(t: Tree<R>, a: nat, s: nat, f: R)
    requires Insert(t, a, s, f).Inserted?
    ensures var t' := Insert(t, a, s, f).t;
      && PageCount(t') == PageCount(t) + s
      && (forall p :: Covers(t', p) <==> Covers(t, p) || a <= p < a + s)
  {
    if t.Node? {
      if MergeAt(t, a, s).Merged? {
        MergePages(t, a, s);
      } else if a + s < t.key1 {
        InsertAddsExactly(t.l, a, s, f);
        var u := t.(l := Insert(t.l, a, s, f).t);
        forall p ensures Covers(u, p) <==> Covers(t, p) || a <= p < a + s { }
        LiftPages(u);
      } else {
        InsertAddsExactly(t.r, a, s, f);
        var u := t.(r := Insert(t.r, a, s, f).t);
        forall p ensures Covers(u, p) <==> Covers(t, p) || a <= p < a + s { }
        LiftPages(u);
      }
    }
  }

  // ------------------------------------------------------------------ bulk deletion

  /** Removes the root for as long as it satisfies `f`. */
  function Strip<R>(t: Tree<R>, f: (nat, nat) -> bool): (u: Tree<R>)
    ensures Size(u) <= Size(t)
    decreases Size(t)
  {
    if t.Node? && f(t.key1, t.key2) then RemoveExact(t); Strip(Remove(t), f) else t
  }

  function DeleteIf<R>(t: Tree<R>, f: (nat, nat) -> bool): Tree<R>
    decreases Size(t)
  {
    match Strip(t, f)
    case Leaf => Leaf
    case Node(ref, k1, k2, l, r) => Node(ref, k1, k2, DeleteIf(l, f), DeleteIf(r, f))
  }

  /** How many regions satisfy `f`. */
  function CountIf<R>(t: Tree<R>, f: (nat, nat) -> bool): nat {
    match t
    case Leaf => 0
    case Node(_, k1, k2, l, r) => (if f(k1, k2) then 1 else 0) + CountIf(l, f) + CountIf(r, f)
  }

  lemma {:induction false} RemoveCount<R>(t: Tree<R>, f: (nat, nat) -> bool)
    requires t.Node?
    ensures CountIf(Remove(t), f) == CountIf(t.l, f) + CountIf(t.r, f)
    decreases Size(t)
  {
    if t.l.Leaf? && t.r.Leaf? {
    } else if t.l.Leaf? || (t.r.Node? && t.l.key2 < t.r.key2) {
      RemoveCount(RotateRight(t).l, f);
    } else {
      RemoveCount(RotateLeft(t).r, f);
    }
  }

  lemma {:induction false} StripSorted<R>(t: Tree<R>, f: (nat, nat) -> bool)
    requires Sorted(t)
    ensures Sorted(Strip(t, f))
    decreases Size(t)
  {
    if t.Node? && f(t.key1, t.key2) {
      RemoveSorted(t); RemoveExact(t);
      StripSorted(Remove(t), f);
    }
  }

  lemma {:induction false} StripHeap<R>(t: Tree<R>, f: (nat, nat) -> bool)
    requires Heap(t)
    ensures var u := Strip(t, f); Heap(u) && (t.Node? ==> RootAtMost(u, t.key2)) && (t.Leaf? ==> u.Leaf?)
    decreases Size(t)
  {
    if t.Node? && f(t.key1, t.key2) {
      RemoveHeap(t, t.key2); RemoveExact(t);
      StripHeap(Remove(t), f);
    }
  }

  lemma {:induction false} StripCount<R>(t: Tree<R>, f: (nat, nat) -> bool)
    ensures var u := Strip(t, f);
      && (u.Node? ==> !f(u.key1, u.key2))
      && CountIf(u, f) + (Size(t) - Size(u)) == CountIf(t, f)
      && DeleteIf(u, f) == DeleteIf(t, f)
    decreases Size(t)
  {
    if t.Node? && f(t.key1, t.key2) {
      RemoveExact(t); RemoveCount(t, f);
      StripCount(Remove(t), f);
    }
  }

  /** How many nodes wait on the stack while `DeleteIf` walks the tree. */
  function DeleteDepth<R>(t: Tree<R>, f: (nat, nat) -> bool): nat
    decreases Size(t)
  {
    match Strip(t, f)
    case Leaf => 0
    case Node(_, _, _, l, r) =>
      var dl, dr := 1 + DeleteDepth(l, f), DeleteDepth(r, f);
      if dl < dr then dr else dl
  }

  lemma {:induction false} StripKeeps<R>(t: Tree<R>, f: (nat, nat) -> bool, a: nat, c: nat)
    ensures HasRegion(Strip(t, f), a, c) ==> HasRegion(t, a, c)
    ensures HasRegion(t, a, c) && !f(a, c) ==> HasRegion(Strip(t, f), a, c)
    decreases Size(t)
  {
    if t.Node? && f(t.key1, t.key2) {
      RemoveExact(t);
      StripKeeps(Remove(t), f, a, c);
    }
  }

  lemma {:induction false} StripBounds<R>(t: Tree<R>, f: (nat, nat) -> bool, b: int)
    ensures EndsBefore(t, b) ==> EndsBefore(Strip(t, f), b)
    ensures StartsAfter(t, b) ==> StartsAfter(Strip(t, f), b)
    decreases Size(t)
  {
    if t.Node? && f(t.key1, t.key2) {
      RemoveExact(t); RemoveBounds(t, b);
      StripBounds(Remove(t), f, b);
    }
  }

  lemma {:induction false} DeleteBounds<R>(t: Tree<R>, f: (nat, nat) -> bool, b: int)
    ensures EndsBefore(t, b) ==> EndsBefore(DeleteIf(t, f), b)
    ensures StartsAfter(t, b) ==> StartsAfter(DeleteIf(t, f), b)
    decreases Size(t)
  {
    StripBounds(t, f, b);
    var u := Strip(t, f);
    if u.Node? { DeleteBounds(u.l, f, b); DeleteBounds(u.r, f, b); }
  }

  lemma {:induction false} DeleteSorted<R>(t: Tree<R>, f: (nat, nat) -> bool)
    requires Sorted(t)
    ensures Sorted(DeleteIf(t, f))
    decreases Size(t)
  {
    StripSorted(t, f);
    var u := Strip(t, f);
    if u.Node? {
      DeleteSorted(u.l, f); DeleteSorted(u.r, f);
      DeleteBounds(u.l, f, u.key1); DeleteBounds(u.r, f, u.key1 + u.key2);
    }
  }

  lemma {:induction false} DeleteHeap<R>(t: Tree<R>, f: (nat, nat) -> bool)
    requires Heap(t)
    ensures Heap(DeleteIf(t, f)) && (t.Node? ==> RootAtMost(DeleteIf(t, f), t.key2))
    ensures t.Leaf? ==> DeleteIf(t, f).Leaf?
    decreases Size(t)
  {
    StripHeap(t, f);
    var u := Strip(t, f);
    if u.Node? { DeleteHeap(u.l, f); DeleteHeap(u.r, f); }
  }

  /** The regions that remain are exactly those that do not satisfy `f`. */
  lemma {:induction false} DeleteExact<R>(t: Tree<R>, f: (nat, nat) -> bool, a: nat, c: nat)
    ensures HasRegion(DeleteIf(t, f), a, c) <==> HasRegion(t, a, c) && !f(a, c)
    decreases Size(t)
  {
    StripCount(t, f);
    StripKeeps(t, f, a, c);
    var u := Strip(t, f);
    if u.Node? { DeleteExact(u.l, f, a, c); DeleteExact(u.r, f, a, c); }
  }

  lemma {:induction false} DeleteCount<R>(t: Tree<R>, f: (nat, nat) -> bool)
    ensures Size(DeleteIf(t, f)) + CountIf(t, f) == Size(t)
    decreases Size(t)
  {
    StripCount(t, f);
    var u := Strip(t, f);
    if u.Node? { DeleteCount(u.l, f); DeleteCount(u.r, f); }
  }

  lemma DeleteCorrect<R>(t: Tree<R>, f: (nat, nat) -> bool)
    requires Sorted(t)
    ensures Sorted(DeleteIf(t, f)) && Size(DeleteIf(t, f)) == Size(t) - CountIf(t, f)
    ensures Heap(t) ==> Heap(DeleteIf(t, f))
    ensures forall a: nat, c: nat :: HasRegion(DeleteIf(t, f), a, c) <==> HasRegion(t, a, c) && !f(a, c)
  {
    DeleteSorted(t, f);
    if Heap(t) { DeleteHeap(t, f); }
    DeleteCount(t, f);
    forall a: nat, c: nat ensures HasRegion(DeleteIf(t, f), a, c) <==> HasRegion(t, a, c) && !f(a, c) {
      DeleteExact(t, f, a, c);
    }
  }

  lemma {:induction false} DeleteRefs<R>(t: Tree<R>, f: (nat, nat) -> bool)
    requires Distinct(t)
    ensures Refs(Strip(t, f)) <= Refs(t) && Distinct(Strip(t, f))
    ensures Refs(DeleteIf(t, f)) <= Refs(t) && Distinct(DeleteIf(t, f))
    decreases Size(t)
  {
    if t.Node? && f(t.key1, t.key2) {
      RemoveExact(t); RemoveRefs(t);
      DeleteRefs(Remove(t), f);
    } else if t.Node? {
      DeleteRefs(t.l, f); DeleteRefs(t.r, f);
    }
  }

  // ------------------------------------------------------------------ canonical form

  /** The regions in address order. */
  ghost function Regions<R>(t: Tree<R>): seq<Region> {
    match t
    case Leaf => []
    case Node(_, k1, k2, l, r) => Regions(l) + [Region(k1, k2)] + Regions(r)
  }

  ghost predicate InRegion(r: Region, p: int) {
    r.start <= p < r.start + r.count
  }

  ghost predicate InSome(rs: seq<Region>, p: int) {
    exists i :: 0 <= i < |rs| && InRegion(rs[i], p)
  }

  ghost predicate Separated(rs: seq<Region>) {
    && (forall i :: 0 <= i < |rs| ==> 0 < rs[i].count)
    && (forall i, j :: 0 <= i < j < |rs| ==> rs[i].start + rs[i].count < rs[j].start)
  }

  lemma {:induction false} RegionsSpan<R>(t: Tree<R>, b: int)
    ensures EndsBefore(t, b) ==> forall i :: 0 <= i < |Regions(t)| ==> Regions(t)[i].start + Regions(t)[i].count < b
    ensures StartsAfter(t, b) ==> forall i :: 0 <= i < |Regions(t)| ==> b < Regions(t)[i].start
  {
    if t.Node? { RegionsSpan(t.l, b); RegionsSpan(t.r, b); }
  }

  lemma {:induction false} RegionsSeparated<R>(t: Tree<R>)
    requires Sorted(t)
    ensures Separated(Regions(t))
  {
    if t.Node? {
      RegionsSeparated(t.l); RegionsSeparated(t.r);
      RegionsSpan(t.l, t.key1); RegionsSpan(t.r, t.key1 + t.key2);
    }
  }

  lemma {:induction false} RegionsCover<R>(t: Tree<R>, p: int)
    ensures Covers(t, p) <==> InSome(Regions(t), p)
  {
    if t.Node? {
      RegionsCover(t.l, p); RegionsCover(t.r, p);
      var L, m, rs := Regions(t.l), Region(t.key1, t.key2), Regions(t);
      if Covers(t.l, p) {
        var i :| 0 <= i < |L| && InRegion(L[i], p);
        assert InRegion(rs[i], p);
      } else if InRegion(m, p) {
        assert InRegion(rs[|L|], p);
      } else if Covers(t.r, p) {
        var i :| 0 <= i < |Regions(t.r)| && InRegion(Regions(t.r)[i], p);
        assert InRegion(rs[|L| + 1 + i], p);
      }
    }
  }

  lemma HeadIsLowest(rs: seq<Region>, p: int)
    requires Separated(rs) && InSome(rs, p)
    ensures rs[0].start <= p
    ensures p <= rs[0].start + rs[0].count ==> InRegion(rs[0], p)
  {
  }

  lemma SomePage(rs: seq<Region>)
    requires Separated(rs)
    ensures rs != [] ==> InSome(rs, rs[0].start)
  {
    if rs != [] { assert InRegion(rs[0], rs[0].start); }
  }

  /** A separated list of regions is determined by the pages it contains. */
  lemma {:induction false} SeparatedIsCanonical(rs: seq<Region>, us: seq<Region>)
    requires Separated(rs) && Separated(us)
    requires forall p :: InSome(rs, p) <==> InSome(us, p)
    ensures rs == us
  {
    SomePage(rs);
    SomePage(us);
    if rs != [] {
      HeadIsLowest(us, rs[0].start);
      HeadIsLowest(rs, us[0].start);
      HeadsAgree(rs, us);
      HeadsAgree(us, rs);
      forall p ensures InSome(rs[1..], p) <==> InSome(us[1..], p) {
        TailPages(rs, p); TailPages(us, p);
      }
      SeparatedIsCanonical(rs[1..], us[1..]);
    }
  }

  lemma HeadsAgree(rs: seq<Region>, us: seq<Region>)
    requires Separated(rs) && Separated(us) && rs != [] && us != [] && rs[0].start == us[0].start
    requires forall p :: InSome(rs, p) <==> InSome(us, p)
    ensures rs[0].count <= us[0].count
  {
    var e := us[0].start + us[0].count;
    if e < rs[0].start + rs[0].count {
      assert InRegion(rs[0], e);
      assert InSome(us, e);
      HeadIsLowest(us, e);
    }
  }

  lemma TailPages(rs: seq<Region>, p: int)
    requires Separated(rs) && rs != []
    ensures InSome(rs[1..], p) <==> InSome(rs, p) && !InRegion(rs[0], p)
  {
    if InSome(rs[1..], p) {
      var i :| 0 <= i < |rs[1..]| && InRegion(rs[1..][i], p);
      assert InRegion(rs[i + 1], p);
    }
    if InSome(rs, p) && !InRegion(rs[0], p) {
      var i :| 0 <= i < |rs| && InRegion(rs[i], p);
      assert InRegion(rs[1..][i - 1], p);
    }
  }

  /** Full coalescing makes the region list a function of the free pages alone. */
  lemma CanonicalForm<R>(t: Tree<R>, u: Tree<R>)
    requires Sorted(t) && Sorted(u) && forall p :: Covers(t, p) <==> Covers(u, p)
    ensures Regions(t) == Regions(u)
  {
    RegionsSeparated(t); RegionsSeparated(u);
    forall p ensures InSome(Regions(t), p) <==> InSome(Regions(u), p) {
      RegionsCover(t, p); RegionsCover(u, p);
    }
    SeparatedIsCanonical(Regions(t), Regions(u));
  }

  // ------------------------------------------------------------------ round trips

  /** Giving back what `Find` took succeeds and restores the very same regions. */
  lemma FindThenInsert<R>(t: Tree<R>, s: nat, f: R)
    requires Sorted(t) && 0 < s && FindIn(t, s).Found?
    ensures var Found(a, t') := FindIn(t, s);
      && Insert(t', a, s, f).Inserted?
      && Sorted(Insert(t', a, s, f).t) && (Heap(t) ==> Heap(Insert(t', a, s, f).t))
      && Regions(Insert(t', a, s, f).t) == Regions(t)
  {
    var Found(a, t') := FindIn(t, s);
    FindInv(t, s); FindTakesExactly(t, s);
    ClearMeansNoCoveredPage(t', a, a + s);
    InsertClashIff(t', a, s, f);
    InsertInv(t', a, s, f); InsertAddsExactly(t', a, s, f);
    CanonicalForm(Insert(t', a, s, f).t, t);
  }

  lemma InsertTwo<R>(t: Tree<R>, a: nat, s: nat, f: R, b: nat, u: nat, g: R)
    requires Sorted(t) && 0 < s && 0 < u
    requires Clear(t, a, a + s) && Clear(t, b, b + u) && (a + s <= b || b + u <= a)
    ensures Insert(t, a, s, f).Inserted? && Insert(Insert(t, a, s, f).t, b, u, g).Inserted?
    ensures var tt := Insert(Insert(t, a, s, f).t, b, u, g).t;
      Sorted(tt) && forall p :: Covers(tt, p) <==> Covers(t, p) || a <= p < a + s || b <= p < b + u
  {
    InsertClashIff(t, a, s, f); InsertInv(t, a, s, f); InsertAddsExactly(t, a, s, f);
    var ta := Insert(t, a, s, f).t;
    ClearMeansNoCoveredPage(t, b, b + u); ClearMeansNoCoveredPage(ta, b, b + u);
    InsertClashIff(ta, b, u, g); InsertInv(ta, b, u, g); InsertAddsExactly(ta, b, u, g);
  }

  /** Freeing two disjoint ranges in either order leaves the same regions. */
  lemma InsertCommutes<R>(t: Tree<R>, a: nat, s: nat, f: R, b: nat, u: nat, g: R)
    requires Sorted(t) && 0 < s && 0 < u
    requires Clear(t, a, a + s) && Clear(t, b, b + u) && (a + s <= b || b + u <= a)
    ensures Insert(t, a, s, f).Inserted? && Insert(Insert(t, a, s, f).t, b, u, g).Inserted?
    ensures Insert(t, b, u, g).Inserted? && Insert(Insert(t, b, u, g).t, a, s, f).Inserted?
    ensures Regions(Insert(Insert(t, a, s, f).t, b, u, g).t) == Regions(Insert(Insert(t, b, u, g).t, a, s, f).t)
  {
    InsertTwo(t, a, s, f, b, u, g);
    InsertTwo(t, b, u, g, a, s, f);
    CanonicalForm(Insert(Insert(t, a, s, f).t, b, u, g).t, Insert(Insert(t, b, u, g).t, a, s, f).t);
  }
}
