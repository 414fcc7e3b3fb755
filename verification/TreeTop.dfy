/** What repeated searches for the same number of pages can reach, whatever has become of the size order. */
module TreeTops {
  import opened FreePageTree

  /** The first pages of the regions of at least `k` pages that have no smaller one above them. */
  ghost function Top<R>(t: Tree<R>, k: nat): set<nat> {
    match t
    case Leaf => {}
    case Node(_, k1, k2, l, r) => if k2 < k then {} else {k1} + Top(l, k) + Top(r, k)
  }

  ghost predicate AllAtMost<R>(t: Tree<R>, k: nat) {
    match t
    case Leaf => true
    case Node(_, _, k2, l, r) => k2 <= k && AllAtMost(l, k) && AllAtMost(r, k)
  }

  lemma {:induction false} AllAtMostIf<R>(t: Tree<R>, k: nat)
    requires forall a: nat, c: nat :: HasRegion(t, a, c) ==> c <= k
    ensures AllAtMost(t, k)
  {
    if t.Node? {
      assert HasRegion(t, t.key1, t.key2);
      forall a: nat, c: nat | HasRegion(t.l, a, c) || HasRegion(t.r, a, c) ensures c <= k {
        assert HasRegion(t, a, c);
      }
      AllAtMostIf(t.l, k); AllAtMostIf(t.r, k);
    }
  }

  lemma {:induction false} TopIsRegion<R>(t: Tree<R>, k: nat, a: nat)
    requires AllAtMost(t, k) && a in Top(t, k)
    ensures HasRegion(t, a, k)
  {
    if a in Top(t.l, k) { TopIsRegion(t.l, k, a); }
    if a in Top(t.r, k) { TopIsRegion(t.r, k, a); }
  }

  /** In size order nothing smaller is ever above. */
  lemma {:induction false} HeapTop<R>(t: Tree<R>, k: nat, a: nat, c: nat)
    requires Heap(t) && HasRegion(t, a, c) && k <= c
    ensures a in Top(t, k)
  {
    HeapBoundsRegions(t, a, c);
    if HasRegion(t.l, a, c) {
      HeapTop(t.l, k, a, c);
    } else if HasRegion(t.r, a, c) {
      HeapTop(t.r, k, a, c);
    }
  }

  lemma {:induction false} RemoveTop<R>(t: Tree<R>, k: nat)
    requires t.Node?
    ensures Top(Remove(t), k) == Top(t.l, k) + Top(t.r, k)
    decreases Size(t)
  {
    if t.l.Leaf? && t.r.Leaf? {
    } else if t.l.Leaf? || (t.r.Node? && t.l.key2 < t.r.key2) {
      RemoveTop(RotateRight(t).l, k);
    } else {
      RemoveTop(RotateLeft(t).r, k);
    }
  }

  lemma {:induction false} TopInBounds<R>(t: Tree<R>, k: nat, a: nat)
    requires a in Top(t, k)
    ensures forall b :: EndsBefore(t, b) ==> a < b
    ensures forall b :: StartsAfter(t, b) ==> b < a
  {
    if a in Top(t.l, k) { TopInBounds(t.l, k, a); }
    if a in Top(t.r, k) { TopInBounds(t.r, k, a); }
  }

  /** A search for the size of the biggest region takes one of these regions whole, and leaves the others. */
  lemma {:induction false} FindTakesFromTop<R>(t: Tree<R>, k: nat)
    requires Sorted(t) && AllAtMost(t, k) && FindIn(t, k).Found?
    ensures var Found(a, u) := FindIn(t, k);
      a in Top(t, k) && Top(u, k) == Top(t, k) - {a}
  {
    var a := FindIn(t, k).a;
    if FindIn(t.l, k).Found? {
      FindTakesFromTop(t.l, k);
      TopInBounds(t.l, k, a);
    } else {
      RemoveTop(Cut(t, k), k);
    }
    if t.key1 in Top(t.l, k) { TopInBounds(t.l, k, t.key1); }
    if a in Top(t.r, k) { TopInBounds(t.r, k, a); }
  }

  /** Nothing is in reach exactly when the root is too small. */
  lemma TopIsEmptyIff<R>(t: Tree<R>, k: nat)
    requires 0 < k
    ensures Top(t, k) == {} <==> RootSize(t) < k
  {
    if t.Node? && k <= t.key2 { assert t.key1 in Top(t, k); }
  }
}
