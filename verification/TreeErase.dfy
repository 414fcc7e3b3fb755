/** A tree without its heap nodes: the operations commute with forgetting them. */
module TreeErasures {
  import opened FreePageTree
  import opened TreePages
  import opened TreePaths
  import opened TreeClimbs
  import opened TreeInsertions

  function Erase<R>(t: Tree<R>): Tree<()> {
    match t
    case Leaf => Leaf
    case Node(_, k1, k2, l, r) => Node((), k1, k2, Erase(l), Erase(r))
  }

  lemma {:induction false} EraseSize<R>(t: Tree<R>)
    ensures Size(Erase(t)) == Size(t) && PageCount(Erase(t)) == PageCount(t) && RootSize(Erase(t)) == RootSize(t)
  {
    if t.Node? { EraseSize(t.l); EraseSize(t.r); }
  }

  lemma {:induction false} EraseBounds<R>(t: Tree<R>, b: int)
    ensures EndsBefore(Erase(t), b) <==> EndsBefore(t, b)
    ensures StartsAfter(Erase(t), b) <==> StartsAfter(t, b)
  {
    if t.Node? { EraseBounds(t.l, b); EraseBounds(t.r, b); }
  }

  lemma {:induction false} EraseSorted<R>(t: Tree<R>)
    ensures Sorted(Erase(t)) <==> Sorted(t)
  {
    if t.Node? {
      EraseSorted(t.l); EraseSorted(t.r);
      EraseBounds(t.l, t.key1); EraseBounds(t.r, t.key1 + t.key2);
    }
  }

  lemma {:induction false} EraseHeap<R>(t: Tree<R>)
    ensures Heap(Erase(t)) <==> Heap(t)
  {
    if t.Node? { EraseHeap(t.l); EraseHeap(t.r); }
  }

  lemma {:induction false} ErasePages<R>(t: Tree<R>)
    ensures PagesIn(Erase(t)) == PagesIn(t)
  {
    if t.Node? { ErasePages(t.l); ErasePages(t.r); }
  }

  // ------------------------------------------------------------------ search

  function EraseSearch<R>(r: Search<R>): Search<()> {
    match r
    case NotFound => NotFound
    case Found(a, t) => Found(a, Erase(t))
  }

  lemma {:induction false} EraseRemove<R>(t: Tree<R>)
    requires t.Node?
    ensures Remove(Erase(t)) == Erase(Remove(t))
    decreases Size(t)
  {
    if t.l.Leaf? && t.r.Leaf? {
    } else if t.l.Leaf? || (t.r.Node? && t.l.key2 < t.r.key2) {
      EraseRemove(RotateRight(t).l);
    } else {
      EraseRemove(RotateLeft(t).r);
    }
  }

  lemma {:induction false} EraseLower<R>(t: Tree<R>)
    requires t.Node?
    ensures Lower(Erase(t)) == Erase(Lower(t))
    decreases Size(t)
  {
    if t.l.Node? && t.l.key2 > t.key2 {
      if t.r.Node? && t.r.key2 > t.l.key2 {
        EraseLower(RotateRight(t).l);
      } else {
        EraseLower(RotateLeft(t).r);
      }
    } else if t.r.Node? && t.r.key2 > t.key2 {
      EraseLower(RotateRight(t).l);
    }
  }

  lemma {:induction false} EraseFind<R>(t: Tree<R>, s: nat)
    ensures FindIn(Erase(t), s) == EraseSearch(FindIn(t, s))
  {
    if t.Node? && s <= t.key2 {
      EraseFind(t.l, s);
      if FindIn(t.l, s).NotFound? {
        EraseRemove(Cut(t, s));
        EraseLower(Cut(t, s));
      }
    }
  }

  // ------------------------------------------------------------------ insertion

  function EraseInsertion<R>(r: Insertion<R>): Insertion<()> {
    match r
    case Clash => Clash
    case Inserted(t) => Inserted(Erase(t))
  }

  function EraseAbsorb<R>(r: Absorb<R>): Absorb<()> {
    match r
    case Blocked => Blocked
    case Absorbed(c, t) => Absorbed(c, Erase(t))
  }

  lemma {:induction false} EraseAbsorbs<R>(t: Tree<R>, m: nat)
    ensures AbsorbRight(Erase(t), m) == EraseAbsorb(AbsorbRight(t, m))
    ensures AbsorbLeft(Erase(t), m) == EraseAbsorb(AbsorbLeft(t, m))
  {
    if t.Node? {
      EraseAbsorbs(t.l, m); EraseAbsorbs(t.r, m);
      EraseRemove(t);
    }
  }

  lemma EraseMergeAt<R>(t: Tree<R>, a: nat, s: nat)
    requires t.Node?
    ensures var m := MergeAt(t, a, s);
      MergeAt(Erase(t), a, s) == if m.Merged? then Merged(Erase(m.t)) else if m.Miss? then Miss else MergeClash
  {
    EraseAbsorbs(t.r, a + s);
    EraseAbsorbs(t.l, a);
  }

  function EraseFrame<R>(f: Frame<R>): Frame<()> {
    match f
    case WentLeft(_, k1, k2, other) => WentLeft((), k1, k2, Erase(other))
    case WentRight(_, k1, k2, other) => WentRight((), k1, k2, Erase(other))
  }

  ghost function ErasePath<R>(path: seq<Frame<R>>): (p: seq<Frame<()>>)
    ensures |p| == |path| && forall i :: 0 <= i < |p| ==> p[i] == EraseFrame(path[i])
  {
    seq(|path|, i requires 0 <= i < |path| => EraseFrame(path[i]))
  }

  lemma {:induction false} ErasePlug<R>(path: seq<Frame<R>>, t: Tree<R>)
    ensures Plug(ErasePath(path), Erase(t)) == Erase(Plug(path, t))
  {
    if path != [] {
      var up, f := path[..|path| - 1], path[|path| - 1];
      assert ErasePath(path)[..|path| - 1] == ErasePath(up);
      assert Wrap(EraseFrame(f), Erase(t)) == Erase(Wrap(f, t));
      ErasePlug(up, Wrap(f, t));
    }
  }

  lemma EraseLift<R>(f: Frame<R>, t: Tree<R>)
    ensures Lift(EraseFrame(f), Erase(t)) == Erase(Lift(f, t))
  {
  }

  lemma {:induction false} EraseClimb<R>(path: seq<Frame<R>>, x: Tree<R>, k: nat, room: nat)
    requires k <= |path|
    ensures Climb(ErasePath(path), Erase(x), k, room) == Erase(Climb(path, x, k, room))
    decreases k
  {
    ErasePlug(path, x);
    if k != 0 {
      var f, y, up := path[k - 1], Below(path, x, k), path[..k - 1];
      assert ErasePath(path)[k..] == ErasePath(path[k..]);
      ErasePlug(path[k..], x);
      assert Below(ErasePath(path), Erase(x), k) == Erase(y);
      if y.Node? && f.key2 < y.key2 {
        assert ErasePath(path)[..k - 1] == ErasePath(up);
        EraseLift(f, y);
        EraseClimb(up, Lift(f, y), Left(k, room), room);
      }
    }
  }

  lemma {:induction false} EraseSearchFrom<R>(path: seq<Frame<R>>, t: Tree<R>, a: nat, s: nat)
    ensures var (p, c) := SearchFrom(path, t, a, s);
      SearchFrom(ErasePath(path), Erase(t), a, s) == (ErasePath(p), Erase(c))
    decreases t
  {
    if t.Node? {
      EraseMergeAt(t, a, s);
      assert ErasePath(path + [DownLeft(t)]) == ErasePath(path) + [DownLeft(Erase(t))];
      assert ErasePath(path + [DownRight(t)]) == ErasePath(path) + [DownRight(Erase(t))];
      EraseSearchFrom(path + [DownLeft(t)], t.l, a, s);
      EraseSearchFrom(path + [DownRight(t)], t.r, a, s);
    }
  }

  lemma EraseStackInsert<R>(t: Tree<R>, a: nat, s: nat, f: R, room: nat)
    ensures StackInsert(Erase(t), a, s, (), room) == EraseInsertion(StackInsert(t, a, s, f, room))
  {
    EraseSearchFrom([], t, a, s);
    assert ErasePath<R>([]) == [];
    var (path, cur) := SearchFrom([], t, a, s);
    if cur.Node? { EraseMergeAt(cur, a, s); }
    if Place(cur, a, s, f).Inserted? { EraseClimb(path, Place(cur, a, s, f).t, |path|, room); }
  }
}
