/**
 The free-page tree seen as a set of pages. Because regions never touch, the tree's first fit is
 simply the lowest page at which enough free pages follow each other.
 */
module TreePages {
  import opened Collections
  import opened FreePageTree
  import opened PageSets

  ghost function PagesIn<R>(t: Tree<R>): set<nat> {
    match t
    case Leaf => {}
    case Node(_, k1, k2, l, r) => Span(k1, k2) + PagesIn(l) + PagesIn(r)
  }

  ghost predicate RunAt(pages: set<nat>, b: nat, n: nat) {
    forall p: nat :: b <= p < b + n ==> p in pages
  }

  ghost predicate LowestRun(pages: set<nat>, a: nat, n: nat) {
    RunAt(pages, a, n) && forall b: nat :: RunAt(pages, b, n) ==> a <= b
  }

  lemma RunNeedsPages(pages: set<nat>, b: nat, n: nat)
    requires RunAt(pages, b, n)
    ensures n <= |pages|
  {
    SubsetSize(Span(b, n), pages);
  }

  lemma {:induction false} PagesAreCovered<R>(t: Tree<R>)
    ensures forall p: nat :: p in PagesIn(t) <==> Covers(t, p)
  {
    if t.Node? { PagesAreCovered(t.l); PagesAreCovered(t.r); }
  }

  lemma {:induction false} PagesAreCounted<R>(t: Tree<R>)
    requires Sorted(t)
    ensures |PagesIn(t)| == PageCount(t)
  {
    if t.Node? {
      PagesAreCounted(t.l); PagesAreCounted(t.r);
      SubtreesApart(t);
      DisjointSize(Span(t.key1, t.key2), PagesIn(t.l));
      DisjointSize(Span(t.key1, t.key2) + PagesIn(t.l), PagesIn(t.r));
    }
  }

  lemma SubtreesApart<R>(t: Tree<R>)
    requires t.Node? && Sorted(t)
    ensures Span(t.key1, t.key2) !! PagesIn(t.l) && Span(t.key1, t.key2) + PagesIn(t.l) !! PagesIn(t.r)
  {
    PagesAreCovered(t.l); PagesAreCovered(t.r);
    forall p | p in PagesIn(t.l) ensures p < t.key1 { CoveredInBounds(t.l, p); }
    forall p | p in PagesIn(t.r) ensures t.key1 + t.key2 < p { CoveredInBounds(t.r, p); }
  }

  /** Free pages that follow each other lie in one region. */
  lemma {:induction false} RunInRegion<R>(t: Tree<R>, b: nat, n: nat) returns (a: nat, c: nat)
    requires Sorted(t) && 0 < n && forall p: nat :: b <= p < b + n ==> Covers(t, p)
    ensures HasRegion(t, a, c) && a <= b && b + n <= a + c
  {
    assert Covers(t, b);
    var end := t.key1 + t.key2;
    if t.key1 <= b < end {
      if Covers(t.l, end) { CoveredInBounds(t.l, end); }
      if Covers(t.r, end) { CoveredInBounds(t.r, end); }
      assert end < b + n ==> Covers(t, end);
      return t.key1, t.key2;
    } else if b < t.key1 {
      var gap := t.key1 - 1;
      if Covers(t.l, gap) { CoveredInBounds(t.l, gap); }
      if Covers(t.r, gap) { CoveredInBounds(t.r, gap); }
      assert gap < b + n ==> Covers(t, gap);
      forall p: nat | b <= p < b + n ensures Covers(t.l, p) {
        assert Covers(t, p);
        if Covers(t.r, p) { CoveredInBounds(t.r, p); }
      }
      a, c := RunInRegion(t.l, b, n);
    } else {
      forall p: nat | b <= p < b + n ensures Covers(t.r, p) {
        assert Covers(t, p);
        if Covers(t.l, p) { CoveredInBounds(t.l, p); }
      }
      a, c := RunInRegion(t.r, b, n);
    }
  }

  lemma {:induction false} RegionIsRun<R>(t: Tree<R>, a: nat, c: nat)
    requires HasRegion(t, a, c)
    ensures forall p: nat :: a <= p < a + c ==> Covers(t, p)
  {
    if t.key1 == a && t.key2 == c {
    } else if HasRegion(t.l, a, c) {
      RegionIsRun(t.l, a, c);
    } else {
      RegionIsRun(t.r, a, c);
    }
  }

  /** First fit over the tree is the lowest run of free pages. */
  lemma FirstFitIsLowestRun<R>(t: Tree<R>, a: nat, n: nat)
    requires Sorted(t) && 0 < n && FirstFit(t, a, n)
    ensures LowestRun(PagesIn(t), a, n)
  {
    PagesAreCovered(t);
    var c :| n <= c && HasRegion(t, a, c);
    RegionIsRun(t, a, c);
    forall b: nat | RunAt(PagesIn(t), b, n) ensures a <= b {
      var x, y := RunInRegion(t, b, n);
      assert n <= y || x < b;
      if n <= y { assert a <= x; }
    }
  }

  /** A tree without a region of `n` pages has no run of `n` free pages. */
  lemma NoRegionNoRun<R>(t: Tree<R>, n: nat)
    requires Sorted(t) && 0 < n && forall a, c :: HasRegion(t, a, c) ==> c < n
    ensures forall b: nat :: !RunAt(PagesIn(t), b, n)
  {
    PagesAreCovered(t);
    forall b: nat | RunAt(PagesIn(t), b, n) ensures false {
      var x, y := RunInRegion(t, b, n);
    }
  }

  lemma AddedPages<R>(t: Tree<R>, u: Tree<R>, a: nat, n: nat)
    requires forall p :: Covers(u, p) <==> Covers(t, p) || a <= p < a + n
    ensures PagesIn(u) == PagesIn(t) + Span(a, n)
  {
    PagesAreCovered(t);
    PagesAreCovered(u);
  }

  lemma TakenPages<R>(t: Tree<R>, u: Tree<R>, a: nat, n: nat)
    requires forall p :: Covers(u, p) <==> Covers(t, p) && !(a <= p < a + n)
    ensures PagesIn(u) == PagesIn(t) - Span(a, n)
  {
    PagesAreCovered(t);
    PagesAreCovered(u);
  }

  lemma NotCovered<R>(t: Tree<R>, a: nat, n: nat)
    requires Span(a, n) !! PagesIn(t)
    ensures forall p :: a <= p < a + n ==> !Covers(t, p)
  {
    PagesAreCovered(t);
    forall p | a <= p < a + n ensures !Covers(t, p) { assert p in Span(a, n); }
  }

  /** The search function of the tree, on pages. Only in size order is its answer the lowest there is. */
  lemma FindIsRun<R>(t: Tree<R>, n: nat)
    requires Sorted(t) && 0 < n
    ensures Heap(t) && FindIn(t, n).NotFound? ==> forall b: nat :: !RunAt(PagesIn(t), b, n)
    ensures FindIn(t, n).Found? ==> var Found(a, u) := FindIn(t, n);
      && Sorted(u) && RunAt(PagesIn(t), a, n) && PagesIn(u) == PagesIn(t) - Span(a, n)
      && (Heap(t) ==> Heap(u) && LowestRun(PagesIn(t), a, n))
  {
    PagesAreCovered(t);
    if Heap(t) { FindFailsIff(t, n); }
    if FindIn(t, n).Found? {
      FindInv(t, n);
      FindTakesExactly(t, n);
      TakenPages(t, FindIn(t, n).t, FindIn(t, n).a, n);
      if Heap(t) {
        FindFirstFit(t, n);
        FirstFitIsLowestRun(t, FindIn(t, n).a, n);
      }
    } else if Heap(t) {
      NoRegionNoRun(t, n);
    }
  }
}
