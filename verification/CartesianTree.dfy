/**
 The free-page tree as the program holds it: heap nodes that are rewritten in place.

 Each method is proved to compute the function of the same name in FreePageTree.dfy. The ghost
 parameter `t` is the value of the subtree that the method works on; `Is(n, t)` says that the
 heap, read from node `n`, holds exactly `t`.
 */
module CartesianTrees {
  import opened FreePageTree
  import opened LocalDeques
  import opened TreeClimbs
  import opened TreeErasures
  import opened TreeInsertions
  import opened TreePaths

  class TreeNode {
    var key1: nat
    var key2: nat
    var l: TreeNode?
    var r: TreeNode?

    constructor (k1: nat, k2: nat)
      ensures key1 == k1 && key2 == k2 && l == null && r == null
    {
      key1, key2, l, r := k1, k2, null, null;
    }
  }

  ghost predicate Is(n: TreeNode?, t: Tree<TreeNode>)
    reads Refs(t)
  {
    match t
    case Leaf => n == null
    case Node(ref, k1, k2, l, r) =>
      && n == ref
      && ref.key1 == k1 && ref.key2 == k2
      && Is(ref.l, l) && Is(ref.r, r)
  }

  method RotateLeftNode(n: TreeNode, ghost t: Tree<TreeNode>) returns (top: TreeNode)
    requires Is(n, t) && Distinct(t) && t.Node? && t.l.Node?
    modifies Refs(t)
    ensures Is(top, RotateLeft(t))
  {
    top := n.l;
    n.l := top.r;
    top.r := n;
  }

  method RotateRightNode(n: TreeNode, ghost t: Tree<TreeNode>) returns (top: TreeNode)
    requires Is(n, t) && Distinct(t) && t.Node? && t.r.Node?
    modifies Refs(t)
    ensures Is(top, RotateRight(t))
  {
    top := n.r;
    n.r := top.l;
    top.l := n;
  }

  lemma RotateRefs(t: Tree<TreeNode>)
    requires t.Node? && Distinct(t)
    ensures t.l.Node? ==> Refs(RotateLeft(t)) == Refs(t) && Distinct(RotateLeft(t))
    ensures t.r.Node? ==> Refs(RotateRight(t)) == Refs(t) && Distinct(RotateRight(t))
  {
  }

  lemma {:induction false} RefsAllocated(t: Tree<TreeNode>)
    ensures forall o :: o in Refs(t) ==> allocated(o)
  {
    if t.Node? { RefsAllocated(t.l); RefsAllocated(t.r); }
  }

  method RemoveNode(n: TreeNode, ghost t: Tree<TreeNode>) returns (top: TreeNode?)
    requires Is(n, t) && Distinct(t) && t.Node?
    modifies Refs(t)
    ensures Is(top, Remove(t))
    decreases Size(t)
  {
    if n.l == null && n.r == null {
      return null;
    }
    RotateRefs(t);
    RemoveRefs(t);
    RefsAllocated(t);
    if n.l == null || (n.r != null && n.l.key2 < n.r.key2) {
      ghost var u := RotateRight(t);
      RemoveRefs(u.l);
      var tmp := RotateRightNode(n, t);
      assert Is(tmp.r, u.r);
      var sub := RemoveNode(tmp.l, u.l);
      assert Is(tmp.r, u.r);
      tmp.l := sub;
      top := tmp;
    } else {
      ghost var u := RotateLeft(t);
      RemoveRefs(u.r);
      var tmp := RotateLeftNode(n, t);
      assert Is(tmp.l, u.l);
      var sub := RemoveNode(tmp.r, u.r);
      assert Is(tmp.l, u.l);
      tmp.r := sub;
      top := tmp;
    }
  }

  method LowerNode(n: TreeNode, ghost t: Tree<TreeNode>) returns (top: TreeNode)
    requires Is(n, t) && Distinct(t) && t.Node?
    modifies Refs(t)
    ensures Is(top, Lower(t))
    decreases Size(t)
  {
    RotateRefs(t);
    RefsAllocated(t);
    if n.l != null && n.l.key2 > n.key2 {
      if n.r != null && n.r.key2 > n.l.key2 {
        top := LowerByRight(n, t);
      } else {
        ghost var u := RotateLeft(t);
        LowerRefs(u.r);
        top := RotateLeftNode(n, t);
        assert Is(top.l, u.l);
        var sub := LowerNode(top.r, u.r);
        assert Is(top.l, u.l);
        top.r := sub;
      }
      return;
    }
    if n.r != null && n.r.key2 > n.key2 {
      top := LowerByRight(n, t);
      return;
    }
    top := n;
  }

  /** The step shared by the two branches that rotate the right child up. */
  method LowerByRight(n: TreeNode, ghost t: Tree<TreeNode>) returns (top: TreeNode)
    requires Is(n, t) && Distinct(t) && t.Node? && t.r.Node?
    modifies Refs(t)
    ensures var u := RotateRight(t); Is(top, u.(l := Lower(u.l)))
    decreases Size(t), 0
  {
    RotateRefs(t);
    RefsAllocated(t);
    ghost var u := RotateRight(t);
    LowerRefs(u.l);
    top := RotateRightNode(n, t);
    assert Is(top.r, u.r);
    var sub := LowerNode(top.l, u.l);
    assert Is(top.r, u.r);
    top.l := sub;
  }

  /** What a search leaves: the links, the orders, and with them the region it had to find. */
  lemma FindFacts(t: Tree<TreeNode>, s: nat)
    requires Distinct(t) && Sorted(t) && Fits(t)
    ensures Heap(t) && FindIn(t, s).NotFound? ==> forall b, c :: HasRegion(t, b, c) ==> c < s
    ensures FindIn(t, s).Found? ==> var Found(a, u) := FindIn(t, s);
      Refs(u) <= Refs(t) && Distinct(u) && Sorted(u) && Fits(u) && (Heap(t) ==> Heap(u) && FirstFit(t, a, s))
  {
    if Heap(t) { FindFailsIff(t, s); }
    if FindIn(t, s).Found? {
      FindRefs(t, s);
      FindInv(t, s);
      FindBounds(t, s, 0x1_0000_0000);
      if Heap(t) { FindFirstFit(t, s); }
    }
  }

  method FindFrom(n: TreeNode, s: nat, ghost t: Tree<TreeNode>) returns (ok: bool, a: nat, top: TreeNode?)
    requires Is(n, t) && Distinct(t) && t.Node?
    modifies Refs(t)
    ensures ok <==> FindIn(t, s).Found?
    ensures ok ==> a == FindIn(t, s).a && Is(top, FindIn(t, s).t)
    ensures !ok ==> Is(n, t)
    decreases t
  {
    a, top := 0, n;
    if n.key2 < s {
      return false, a, top;
    }
    RefsAllocated(t);
    assert Is(n.r, t.r);
    if n.l != null {
      var found, b, left := FindFrom(n.l, s, t.l);
      assert Is(n.r, t.r);
      if found {
        FindRefs(t.l, s);
        n.l := left;
        return true, b, n;
      }
    }
    a := n.key1;
    n.key1 := n.key1 + s;
    n.key2 := n.key2 - s;
    ghost var cut := Cut(t, s);
    CutRefs(t, s);
    if n.key2 != 0 {
      top := LowerNode(n, cut);
    } else {
      top := RemoveNode(n, cut);
    }
    ok := true;
  }

  // ------------------------------------------------------------------ a node in its context

  /** Read from `top`, the heap holds the frames of `path`, and the link at their end is `h`. */
  ghost predicate Ctx(top: TreeNode?, path: seq<Frame<TreeNode>>, h: TreeNode?)
    reads PathRefs(path)
  {
    if path == [] then top == h
    else
      var f := path[|path| - 1];
      && Ctx(top, path[..|path| - 1], f.ref)
      && f.ref.key1 == f.key1 && f.ref.key2 == f.key2
      && (f.WentLeft? ==> f.ref.l == h && Is(f.ref.r, f.other))
      && (f.WentRight? ==> f.ref.r == h && Is(f.ref.l, f.other))
  }

  lemma {:induction false} CtxPlug(top: TreeNode?, path: seq<Frame<TreeNode>>, h: TreeNode?, t: Tree<TreeNode>)
    requires Ctx(top, path, h) && Is(h, t)
    ensures Is(top, Plug(path, t))
  {
    if path != [] {
      var f := path[|path| - 1];
      CtxPlug(top, path[..|path| - 1], f.ref, Wrap(f, t));
    }
  }

  lemma {:induction false} PathRefsAllocated(path: seq<Frame<TreeNode>>)
    ensures forall o :: o in PathRefs(path) ==> allocated(o)
  {
    if path != [] {
      PathRefsAllocated(path[..|path| - 1]);
      RefsAllocated(path[|path| - 1].other);
    }
  }

  lemma CtxDown(top: TreeNode?, path: seq<Frame<TreeNode>>, h: TreeNode, t: Tree<TreeNode>)
    requires Ctx(top, path, h) && Is(h, t) && t.Node?
    ensures Ctx(top, path + [DownLeft(t)], h.l) && Is(h.l, t.l) && Plug(path + [DownLeft(t)], t.l) == Plug(path, t)
    ensures Ctx(top, path + [DownRight(t)], h.r) && Is(h.r, t.r) && Plug(path + [DownRight(t)], t.r) == Plug(path, t)
  {
    assert (path + [DownLeft(t)])[..|path|] == path;
    assert (path + [DownRight(t)])[..|path|] == path;
  }

  lemma PlugApart(path: seq<Frame<TreeNode>>, cur: Tree<TreeNode>, t: Tree<TreeNode>)
    requires Plug(path, cur) == t && Distinct(t)
    ensures PathDistinct(path) && Distinct(cur) && PathRefs(path) !! Refs(cur)
    ensures PathRefs(path) + Refs(cur) == Refs(t)
  {
    PlugRefs(path, cur);
    PlugDistinct(path, cur);
  }

  datatype MergeResult = Success | Missed | Error

  lemma SeekRightStep(top: TreeNode?, path: seq<Frame<TreeNode>>, next: TreeNode, cur: Tree<TreeNode>, m: nat)
    requires Ctx(top, path, next) && Is(next, cur) && cur.Node? && AllLeft(path) && m < cur.key1
    ensures var p := path + [DownLeft(cur)];
      && Ctx(top, p, next.l) && Is(next.l, cur.l) && AllLeft(p) && Plug(p, cur.l) == Plug(path, cur)
      && PlugAbsorb(path, AbsorbRight(cur, m)) == PlugAbsorb(p, AbsorbRight(cur.l, m))
  {
    AbsorbRightStep(path, cur, m);
    CtxDown(top, path, next, cur);
  }

  lemma SeekLeftStep(top: TreeNode?, path: seq<Frame<TreeNode>>, next: TreeNode, cur: Tree<TreeNode>, a: nat)
    requires Ctx(top, path, next) && Is(next, cur) && cur.Node? && AllRight(path) && cur.key1 + cur.key2 < a
    ensures var p := path + [DownRight(cur)];
      && Ctx(top, p, next.r) && Is(next.r, cur.r) && AllRight(p) && Plug(p, cur.r) == Plug(path, cur)
      && PlugAbsorb(path, AbsorbLeft(cur, a)) == PlugAbsorb(p, AbsorbLeft(cur.r, a))
  {
    AbsorbLeftStep(path, cur, a);
    CtxDown(top, path, next, cur);
  }

  /** Walks down the left spine of `n.r`, looking for the region that starts at `m`. */
  method SeekRight(n: TreeNode, m: nat, ghost t: Tree<TreeNode>)
    returns (blocked: bool, last: TreeNode, next: TreeNode?,
             ghost path: seq<Frame<TreeNode>>, ghost cur: Tree<TreeNode>)
    requires Is(n, t) && Distinct(t) && t.Node?
    ensures blocked <==> AbsorbRight(t.r, m).Blocked?
    ensures Ctx(n.r, path, next) && Is(next, cur)
    ensures AllLeft(path) && Plug(path, cur) == t.r
    ensures PathDistinct(path) && Distinct(cur) && PathRefs(path) !! Refs(cur)
    ensures PathRefs(path) + Refs(cur) == Refs(t.r)
    ensures last == if path == [] then n else path[|path| - 1].ref
    ensures !blocked && cur.Leaf? ==> AbsorbRight(t.r, m) == Absorbed(0, t.r)
    ensures !blocked && cur.Node? ==> AbsorbRight(t.r, m) == Absorbed(cur.key2, Plug(path, Remove(cur)))
  {
    last, next := n, n.r;
    path, cur := [], t.r;
    blocked := false;
    while next != null
      invariant Ctx(n.r, path, next) && Is(next, cur)
      invariant AllLeft(path) && Plug(path, cur) == t.r
      invariant !blocked
      invariant last == if path == [] then n else path[|path| - 1].ref
      invariant AbsorbRight(t.r, m) == PlugAbsorb(path, AbsorbRight(cur, m))
      decreases cur
    {
      if next.key1 == m {
        blocked := next.l != null;
        break;
      } else if next.key1 < m {
        blocked := true;
        break;
      } else {
        last := next;
        SeekRightStep(n.r, path, next, cur, m);
        path, cur := path + [DownLeft(cur)], cur.l;
        next := next.l;
      }
    }
    PlugApart(path, cur, t.r);
  }

  /** The mirror image: down the right spine of `n.l`, for the region that ends at `a`. */
  method SeekLeft(n: TreeNode, a: nat, ghost t: Tree<TreeNode>)
    returns (blocked: bool, last: TreeNode, next: TreeNode?,
             ghost path: seq<Frame<TreeNode>>, ghost cur: Tree<TreeNode>)
    requires Is(n, t) && Distinct(t) && t.Node?
    ensures blocked <==> AbsorbLeft(t.l, a).Blocked?
    ensures Ctx(n.l, path, next) && Is(next, cur)
    ensures AllRight(path) && Plug(path, cur) == t.l
    ensures PathDistinct(path) && Distinct(cur) && PathRefs(path) !! Refs(cur)
    ensures PathRefs(path) + Refs(cur) == Refs(t.l)
    ensures last == if path == [] then n else path[|path| - 1].ref
    ensures !blocked && cur.Leaf? ==> AbsorbLeft(t.l, a) == Absorbed(0, t.l)
    ensures !blocked && cur.Node? ==>
      cur.key1 + cur.key2 == a && AbsorbLeft(t.l, a) == Absorbed(cur.key2, Plug(path, Remove(cur)))
  {
    last, next := n, n.l;
    path, cur := [], t.l;
    blocked := false;
    while next != null
      invariant Ctx(n.l, path, next) && Is(next, cur)
      invariant AllRight(path) && Plug(path, cur) == t.l
      invariant !blocked
      invariant last == if path == [] then n else path[|path| - 1].ref
      invariant AbsorbLeft(t.l, a) == PlugAbsorb(path, AbsorbLeft(cur, a))
      decreases cur
    {
      if next.key1 + next.key2 == a {
        blocked := next.r != null;
        break;
      } else if next.key1 + next.key2 > a {
        blocked := true;
        break;
      } else {
        last := next;
        SeekLeftStep(n.l, path, next, cur, a);
        path, cur := path + [DownRight(cur)], cur.r;
        next := next.r;
      }
    }
    PlugApart(path, cur, t.l);
  }

  /** Adds node `next` to `n` and takes it out from under `n`; `last` is the node that points to it. */
  method SwallowRight(n: TreeNode, last: TreeNode, next: TreeNode, ghost path: seq<Frame<TreeNode>>,
                      ghost cur: Tree<TreeNode>)
    requires Ctx(n.r, path, next) && Is(next, cur) && AllLeft(path)
    requires PathDistinct(path) && Distinct(cur) && PathRefs(path) !! Refs(cur)
    requires n !in PathRefs(path) && n !in Refs(cur)
    requires last == if path == [] then n else path[|path| - 1].ref
    modifies n`key2, n`r, PathRefs(path), Refs(cur)
    ensures n.key2 == old(n.key2) + cur.key2
    ensures Is(n.r, Plug(path, Remove(cur)))
  {
    RefsAllocated(cur);
    PathRefsAllocated(path);
    RemoveRefs(cur);
    n.key2 := n.key2 + next.key2;
    var sub := RemoveNode(next, cur);
    assert Ctx(n.r, path, next);
    if last == n {
      last.r := sub;
    } else {
      last.l := sub;
    }
    assert Ctx(n.r, path, sub) && Is(sub, Remove(cur));
    CtxPlug(n.r, path, sub, Remove(cur));
  }

  method SwallowLeft(n: TreeNode, last: TreeNode, next: TreeNode, ghost path: seq<Frame<TreeNode>>,
                     ghost cur: Tree<TreeNode>)
    requires Ctx(n.l, path, next) && Is(next, cur) && AllRight(path)
    requires PathDistinct(path) && Distinct(cur) && PathRefs(path) !! Refs(cur)
    requires n !in PathRefs(path) && n !in Refs(cur)
    requires last == if path == [] then n else path[|path| - 1].ref
    modifies n`key1, n`key2, n`l, PathRefs(path), Refs(cur)
    ensures n.key1 == cur.key1 && n.key2 == old(n.key2) + cur.key2
    ensures Is(n.l, Plug(path, Remove(cur)))
  {
    RefsAllocated(cur);
    PathRefsAllocated(path);
    RemoveRefs(cur);
    n.key1, n.key2 := next.key1, n.key2 + next.key2;
    var sub := RemoveNode(next, cur);
    assert Ctx(n.l, path, next);
    if last == n {
      last.l := sub;
    } else {
      last.r := sub;
    }
    assert Ctx(n.l, path, sub) && Is(sub, Remove(cur));
    CtxPlug(n.l, path, sub, Remove(cur));
  }

  /** Adds `s` pages to `n`, and to them the region of `next`, if there is one. */
  method TakeRight(n: TreeNode, s: nat, last: TreeNode, next: TreeNode?, ghost path: seq<Frame<TreeNode>>,
                   ghost cur: Tree<TreeNode>, ghost t: Tree<TreeNode>)
    requires Is(n, t) && Distinct(t) && t.Node?
    requires Ctx(n.r, path, next) && Is(next, cur) && AllLeft(path) && Plug(path, cur) == t.r
    requires PathDistinct(path) && Distinct(cur) && PathRefs(path) !! Refs(cur)
    requires PathRefs(path) + Refs(cur) == Refs(t.r)
    requires last == if path == [] then n else path[|path| - 1].ref
    modifies Refs(t)
    ensures cur.Leaf? ==> Is(n, t.(key2 := t.key2 + s))
    ensures cur.Node? ==> Is(n, t.(key2 := t.key2 + s + cur.key2, r := Plug(path, Remove(cur))))
  {
    RefsAllocated(t);
    n.key2 := n.key2 + s;
    assert Is(n.l, t.l) && Is(n.r, t.r);
    if next != null {
      assert Ctx(n.r, path, next) && Is(next, cur);
      SwallowRight(n, last, next, path, cur);
      assert Is(n.l, t.l);
    }
  }

  method GrowRight(n: TreeNode, m: nat, s: nat, ghost t: Tree<TreeNode>) returns (ok: bool)
    requires Is(n, t) && Distinct(t) && t.Node?
    modifies Refs(t)
    ensures ok <==> AbsorbRight(t.r, m).Absorbed?
    ensures ok ==> Is(n, t.(key2 := t.key2 + s + AbsorbRight(t.r, m).count, r := AbsorbRight(t.r, m).t))
    ensures !ok ==> Is(n, t)
  {
    RefsAllocated(t);
    var blocked, last, next, path, cur := SeekRight(n, m, t);
    if blocked {
      return false;
    }
    TakeRight(n, s, last, next, path, cur, t);
    return true;
  }

  /** Adds the `s` pages from `a` on to `n`, and to them the region of `next`, if there is one. */
  method TakeLeft(n: TreeNode, a: nat, s: nat, last: TreeNode, next: TreeNode?, ghost path: seq<Frame<TreeNode>>,
                  ghost cur: Tree<TreeNode>, ghost t: Tree<TreeNode>)
    requires Is(n, t) && Distinct(t) && t.Node?
    requires Ctx(n.l, path, next) && Is(next, cur) && AllRight(path) && Plug(path, cur) == t.l
    requires PathDistinct(path) && Distinct(cur) && PathRefs(path) !! Refs(cur)
    requires PathRefs(path) + Refs(cur) == Refs(t.l)
    requires last == if path == [] then n else path[|path| - 1].ref
    modifies Refs(t)
    ensures cur.Leaf? ==> Is(n, t.(key1 := a, key2 := t.key2 + s))
    ensures cur.Node? ==> Is(n, t.(key1 := cur.key1, key2 := t.key2 + s + cur.key2, l := Plug(path, Remove(cur))))
  {
    RefsAllocated(t);
    n.key1, n.key2 := a, n.key2 + s;
    assert Is(n.r, t.r) && Is(n.l, t.l);
    if next != null {
      assert Ctx(n.l, path, next) && Is(next, cur);
      SwallowLeft(n, last, next, path, cur);
      assert Is(n.r, t.r);
    }
  }

  method GrowLeft(n: TreeNode, a: nat, s: nat, ghost t: Tree<TreeNode>) returns (ok: bool)
    requires Is(n, t) && Distinct(t) && t.Node?
    modifies Refs(t)
    ensures ok <==> AbsorbLeft(t.l, a).Absorbed?
    ensures ok ==> var Absorbed(c, l') := AbsorbLeft(t.l, a);
      Is(n, t.(key1 := a - c, key2 := t.key2 + s + c, l := l'))
    ensures !ok ==> Is(n, t)
  {
    RefsAllocated(t);
    var blocked, last, next, path, cur := SeekLeft(n, a, t);
    if blocked {
      return false;
    }
    TakeLeft(n, a, s, last, next, path, cur, t);
    return true;
  }

  /** Joins [a, a+s) to node `n` if it touches it, and then also to the region beyond. */
  method MergeAtNode(n: TreeNode, a: nat, s: nat, ghost t: Tree<TreeNode>) returns (res: MergeResult)
    requires Is(n, t) && Distinct(t) && t.Node?
    modifies Refs(t)
    ensures res.Success? <==> MergeAt(t, a, s).Merged?
    ensures res.Missed? <==> MergeAt(t, a, s).Miss?
    ensures res.Success? ==> Is(n, MergeAt(t, a, s).t)
    ensures !res.Success? ==> Is(n, t)
  {
    if a == n.key1 + n.key2 {
      var ok := GrowRight(n, a + s, s, t);
      return if ok then Success else Error;
    }
    if a + s == n.key1 {
      var ok := GrowLeft(n, a, s, t);
      return if ok then Success else Error;
    }
    return Missed;
  }

  // ------------------------------------------------------------------ the tree object

  /** The address of a field that holds a node: the tree's root, or a child field of a node. */
  datatype Link = RootLink | LeftOf(n: TreeNode) | RightOf(n: TreeNode)

  /** The link at the end of a path. */
  ghost function Hole(path: seq<Frame<TreeNode>>): Link {
    if path == [] then RootLink
    else if path[|path| - 1].WentLeft? then LeftOf(path[|path| - 1].ref)
    else RightOf(path[|path| - 1].ref)
  }

  /** The links that were followed along a path, outermost first. */
  ghost function Links(path: seq<Frame<TreeNode>>): seq<Link>
    ensures |Links(path)| == |path|
  {
    if path == [] then [] else Links(path[..|path| - 1]) + [Hole(path[..|path| - 1])]
  }

  /** `x` hangs at the end of `path`, and the two share no node. */
  ghost predicate Apart(path: seq<Frame<TreeNode>>, x: Tree<TreeNode>) {
    PathDistinct(path) && Distinct(x) && PathRefs(path) !! Refs(x)
  }

  lemma PlugWhole(top: TreeNode?, path: seq<Frame<TreeNode>>, h: TreeNode?, x: Tree<TreeNode>)
    requires Ctx(top, path, h) && Is(h, x) && Apart(path, x)
    ensures var u := Plug(path, x); Is(top, u) && Distinct(u) && Refs(u) == PathRefs(path) + Refs(x)
  {
    CtxPlug(top, path, h, x);
    PlugRefs(path, x);
    PlugDistinct(path, x);
  }

  // ------------------------------------------------------------------ the walk of an insertion

  /** The search for the place of [a, a+s) in `t` has walked `path` and stands at `cur`. */
  ghost predicate Walk(path: seq<Frame<TreeNode>>, cur: Tree<TreeNode>, t: Tree<TreeNode>, a: nat, s: nat) {
    && Plug(path, cur) == t && Arrives(path, cur, a, s)
    && |path| + SearchDepth(cur, a, s) == SearchDepth(t, a, s)
    && Leads(path, a, s) && Apart(path, cur) && PathRefs(path) + Refs(cur) == Refs(t)
  }

  lemma ExtendLeads(path: seq<Frame<TreeNode>>, f: Frame<TreeNode>, a: nat, s: nat)
    requires Leads(path, a, s) && if f.WentLeft? then a + s < f.key1 else a > f.key1 + f.key2
    ensures Leads(path + [f], a, s)
  {
  }

  lemma ExtendLinks(path: seq<Frame<TreeNode>>, f: Frame<TreeNode>)
    ensures Links(path + [f]) == Links(path) + [Hole(path)]
    ensures Hole(path + [f]) == if f.WentLeft? then LeftOf(f.ref) else RightOf(f.ref)
  {
    assert (path + [f])[..|path|] == path;
  }

  lemma ExtendApart(path: seq<Frame<TreeNode>>, f: Frame<TreeNode>, t: Tree<TreeNode>)
    requires Apart(path, Wrap(f, t))
    ensures Apart(path + [f], t)
    ensures PathRefs(path + [f]) + Refs(t) == PathRefs(path) + Refs(Wrap(f, t))
  {
    assert (path + [f])[..|path|] == path;
  }

  lemma WalkDown(path: seq<Frame<TreeNode>>, f: Frame<TreeNode>, u: Tree<TreeNode>, t: Tree<TreeNode>, a: nat, s: nat)
    requires Walk(path, Wrap(f, u), t, a, s) && MergeAt(Wrap(f, u), a, s).Miss?
    requires if f.WentLeft? then a + s < f.key1 else a > f.key1 + f.key2 && a + s >= f.key1
    ensures Walk(path + [f], u, t, a, s)
  {
    ExtendLeads(path, f, a, s);
    ExtendApart(path, f, u);
    ExtendArrives(path, f, u, a, s);
    PlugSnoc(path, f, u);
  }

  /** The search has ended at `cur`, which has become `x`, with root `h`. */
  ghost predicate Standing(path: seq<Frame<TreeNode>>, cur: Tree<TreeNode>, t: Tree<TreeNode>, a: nat, s: nat,
                           h: TreeNode, x: Tree<TreeNode>) {
    && Plug(path, cur) == t && Reaches(path, cur, a, s) && Placed(cur, x, a, s, h)
    && |path| == SearchDepth(t, a, s) && Leads(path, a, s) && Apart(path, x) && x.Node?
  }

  lemma WalkMerged(path: seq<Frame<TreeNode>>, cur: Tree<TreeNode>, t: Tree<TreeNode>, a: nat, s: nat, h: TreeNode)
    requires Walk(path, cur, t, a, s) && cur.Node? && MergeAt(cur, a, s).Merged?
    ensures var x := MergeAt(cur, a, s).t;
      Standing(path, cur, t, a, s, h, x) && PathRefs(path) + Refs(x) <= Refs(t)
  {
    AbsorbRefs(cur.r, a + s);
    AbsorbRefs(cur.l, a);
  }

  lemma WalkLeaf(path: seq<Frame<TreeNode>>, t: Tree<TreeNode>, a: nat, s: nat, h: TreeNode)
    requires Walk(path, Leaf, t, a, s) && h !in Refs(t)
    ensures var x := Node(h, a, s, Leaf, Leaf);
      Standing(path, Leaf, t, a, s, h, x) && PathRefs(path) + Refs(x) == Refs(t) + {h}
  {
  }

  lemma WalkClash(path: seq<Frame<TreeNode>>, cur: Tree<TreeNode>, t: Tree<TreeNode>, a: nat, s: nat)
    requires Walk(path, cur, t, a, s) && cur.Node?
    requires MergeAt(cur, a, s).MergeClash? ||
      (MergeAt(cur, a, s).Miss? && a + s >= cur.key1 && a <= cur.key1 + cur.key2)
    ensures forall f :: Insert(t, a, s, f).Clash?
  {
    forall f ensures Insert(t, a, s, f).Clash? { InsertAlongPath(path, cur, a, s, f); }
  }

  /** The step to the child on the side where [a, a+s) belongs. */
  lemma DownStep(top: TreeNode?, path: seq<Frame<TreeNode>>, n: TreeNode, cur: Tree<TreeNode>, t: Tree<TreeNode>,
                 a: nat, s: nat) returns (path': seq<Frame<TreeNode>>, cur': Tree<TreeNode>)
    requires Walk(path, cur, t, a, s) && Ctx(top, path, n) && Is(n, cur)
    requires cur.Node? && MergeAt(cur, a, s).Miss? && (a + s < cur.key1 || a > cur.key1 + cur.key2)
    ensures Walk(path', cur', t, a, s) && Links(path') == Links(path) + [Hole(path)]
    ensures cur' == if a + s < cur.key1 then cur.l else cur.r
    ensures var left := a + s < cur.key1; var h := if left then n.l else n.r;
      Hole(path') == (if left then LeftOf(n) else RightOf(n)) && Ctx(top, path', h) && Is(h, cur')
  {
    var f;
    f, cur' := if a + s < cur.key1 then DownLeft(cur) else DownRight(cur), if a + s < cur.key1 then cur.l else cur.r;
    path' := path + [f];
    CtxDown(top, path, n, cur);
    assert cur == Wrap(f, cur');
    WalkDown(path, f, cur', t, a, s);
    ExtendLinks(path, f);
  }

  lemma {:induction false} LinksPrefix(path: seq<Frame<TreeNode>>, k: nat)
    requires k <= |path|
    ensures Links(path[..k]) == Links(path)[..k]
  {
    if k == |path| {
      assert path[..k] == path;
    } else {
      LinksPrefix(path[..|path| - 1], k);
      assert path[..|path| - 1][..k] == path[..k];
    }
  }

  /** The node behind the link after the first `k` frames. */
  ghost function NodeAt(path: seq<Frame<TreeNode>>, h: TreeNode, k: nat): TreeNode
    requires k <= |path|
  {
    if k == |path| then h else path[k].ref
  }

  lemma {:induction false} CtxSplit(top: TreeNode?, path: seq<Frame<TreeNode>>, h: TreeNode, x: Tree<TreeNode>, k: nat)
    requires Ctx(top, path, h) && Is(h, x) && k <= |path|
    ensures Ctx(top, path[..k], NodeAt(path, h, k)) && Is(NodeAt(path, h, k), Below(path, x, k))
  {
    var n := |path|;
    if k == n {
      assert path[..k] == path && path[k..] == [];
    } else {
      CtxSplit(top, path[..n - 1], path[n - 1].ref, Wrap(path[n - 1], x), k);
      assert path[..n - 1][..k] == path[..k];
      assert path[k..][..n - k - 1] == path[..n - 1][k..];
    }
  }

  lemma ApartUp(path: seq<Frame<TreeNode>>, x: Tree<TreeNode>)
    requires path != [] && Apart(path, x)
    ensures var n := |path| - 1; var up, y := path[..n], Wrap(path[n], x);
      Apart(up, y) && PathRefs(up) + Refs(y) == PathRefs(path) + Refs(x)
  {
  }

  lemma {:induction false} ApartSplit(path: seq<Frame<TreeNode>>, x: Tree<TreeNode>, k: nat)
    requires Apart(path, x) && k <= |path|
    ensures Apart(path[..k], Below(path, x, k))
    ensures PathRefs(path[..k]) + Refs(Below(path, x, k)) == PathRefs(path) + Refs(x)
  {
    var n := |path|;
    if k == n {
      assert path[..k] == path && path[k..] == [];
    } else {
      var up, y := path[..n - 1], Wrap(path[n - 1], x);
      ApartUp(path, x);
      ApartSplit(up, y, k);
      assert up[..k] == path[..k];
      assert Below(up, y, k) == Below(path, x, k) by { assert path[k..][..n - k - 1] == up[k..]; }
    }
  }

  /** The frame whose link is the `k`-th one on the stack, what lies above it and what lies below. */
  lemma Divide(top: TreeNode?, path: seq<Frame<TreeNode>>, h: TreeNode, x: Tree<TreeNode>, k: nat, a: nat, s: nat)
    returns (up: seq<Frame<TreeNode>>, f: Frame<TreeNode>, y: Tree<TreeNode>)
    requires 0 < k <= |path| && Ctx(top, path, h) && Is(h, x) && Apart(path, x) && x.Node? && Leads(path, a, s)
    ensures |up| == k - 1 && Leads(up, a, s) && y.Node?
    ensures if f.WentLeft? then a + s < f.key1 else a > f.key1 + f.key2
    ensures Ctx(top, up, f.ref) && Is(f.ref, Wrap(f, y)) && Apart(up, Wrap(f, y))
    ensures PathRefs(up) + Refs(Wrap(f, y)) == PathRefs(path) + Refs(x)
    ensures Climb(path, x, k, LOCAL_LENGTH) ==
      if f.key2 < y.key2 then Climb(up, Lift(f, y), Left(k, LOCAL_LENGTH), LOCAL_LENGTH) else Plug(up, Lift(f, y))
    ensures Links(path)[..k] == Links(up) + [Hole(up)]
  {
    up, f, y := path[..k - 1], path[k - 1], Below(path, x, k);
    DivideHeap(top, path, h, x, k);
    DivideBelow(path, x, k);
    LinksSplit(path, k);
  }

  lemma DivideHeap(top: TreeNode?, path: seq<Frame<TreeNode>>, h: TreeNode, x: Tree<TreeNode>, k: nat)
    requires 0 < k <= |path| && Ctx(top, path, h) && Is(h, x) && Apart(path, x)
    ensures var up, f, y := path[..k - 1], path[k - 1], Below(path, x, k);
      && Ctx(top, up, f.ref) && Is(f.ref, Wrap(f, y)) && Apart(up, Wrap(f, y))
      && PathRefs(up) + Refs(Wrap(f, y)) == PathRefs(path) + Refs(x)
  {
    BelowStep(path, x, k);
    CtxSplit(top, path, h, x, k - 1);
    ApartSplit(path, x, k - 1);
  }

  lemma DivideBelow(path: seq<Frame<TreeNode>>, x: Tree<TreeNode>, k: nat)
    requires 0 < k <= |path| && x.Node?
    ensures var up, f, y := path[..k - 1], path[k - 1], Below(path, x, k);
      y.Node? && (y.key2 <= f.key2 ==> Plug(up, Lift(f, y)) == Plug(path, x))
  {
    var f, y := path[k - 1], Below(path, x, k);
    if k < |path| { PlugRoot(path[k..], x); }
    if y.key2 <= f.key2 {
      NotLifted(f, y);
      PlugAt(path, x, k);
    }
  }

  lemma LinksSplit(path: seq<Frame<TreeNode>>, k: nat)
    requires 0 < k <= |path|
    ensures Links(path)[..k] == Links(path[..k - 1]) + [Hole(path[..k - 1])]
  {
    LinksPrefix(path, k);
    assert path[..k][..k - 1] == path[..k - 1];
  }

  lemma LiftedApart(up: seq<Frame<TreeNode>>, f: Frame<TreeNode>, y: Tree<TreeNode>)
    requires Apart(up, Wrap(f, y)) && y.Node?
    ensures Lift(f, y).Node? && Apart(up, Lift(f, y)) && Refs(Lift(f, y)) == Refs(Wrap(f, y))
  {
    RotateRefs(Wrap(f, y));
  }

  class CartesianTree {
    var root: TreeNode?
    ghost var t: Tree<TreeNode>

    ghost predicate Shape()
      reads this, Refs(t)
    {
      Is(root, t) && Distinct(t)
    }

    /** What every operation keeps, whatever has happened before. */
    ghost predicate Ordered()
      reads this, Refs(t)
    {
      Shape() && Sorted(t) && Fits(t)
    }

    ghost predicate Valid()
      reads this, Refs(t)
    {
      Ordered() && Heap(t)
    }

    constructor ()
      ensures Valid() && t == Leaf
    {
      root, t := null, Leaf;
    }

    method Load(link: Link, ghost path: seq<Frame<TreeNode>>, ghost h: TreeNode?) returns (n: TreeNode?)
      requires link == Hole(path) && Ctx(root, path, h)
      ensures n == h
    {
      match link {
        case RootLink => n := root;
        case LeftOf(p) => n := p.l;
        case RightOf(p) => n := p.r;
      }
    }

    method Store(link: Link, x: TreeNode?, ghost path: seq<Frame<TreeNode>>, ghost h: TreeNode?)
      requires link == Hole(path) && Ctx(root, path, h) && PathDistinct(path)
      modifies this`root, PathRefs(path)
      ensures Ctx(root, path, x)
    {
      PathRefsAllocated(path);
      match link {
        case RootLink => root := x;
        case LeftOf(p) => p.l := x;
        case RightOf(p) => p.r := x;
      }
    }

    /** One step of bubbling up; `moved` tells whether the node rose. */
    method LiftAt(pn: Link, a: nat, s: nat, ghost up: seq<Frame<TreeNode>>, ghost f: Frame<TreeNode>,
                  ghost x: Tree<TreeNode>) returns (moved: bool, ghost h: TreeNode)
      requires pn == Hole(up) && Ctx(root, up, f.ref) && Is(f.ref, Wrap(f, x)) && Apart(up, Wrap(f, x)) && x.Node?
      requires if f.WentLeft? then a + s < f.key1 else a > f.key1 + f.key2
      modifies this`root, PathRefs(up), Refs(Wrap(f, x))
      ensures Ctx(root, up, h) && Is(h, Lift(f, x))
      ensures moved <==> f.key2 < x.key2
    {
      RefsAllocated(Wrap(f, x));
      PathRefsAllocated(up);
      var m := a + s;
      var n := Load(pn, up, f.ref);
      h := n;
      RotateRefs(Wrap(f, x));
      if m < n.key1 {
        moved := n.key2 < n.l.key2;
        if moved {
          var top := RotateLeftNode(n, Wrap(f, x));
          Store(pn, top, up, f.ref);
          h := top;
        }
      } else {
        moved := n.key2 < n.r.key2;
        if moved {
          var top := RotateRightNode(n, Wrap(f, x));
          Store(pn, top, up, f.ref);
          h := top;
        }
      }
    }

    /** Takes the innermost link off the stack and bubbles up behind it. */
    method PopAndLift(pnStack: LocalDeque<Link>, a: nat, s: nat, ghost up: seq<Frame<TreeNode>>,
                      ghost f: Frame<TreeNode>, ghost y: Tree<TreeNode>)
      returns (moved: bool, ghost h: TreeNode)
      requires pnStack.Valid() && pnStack.front == 0 && pnStack.Contents() == Links(up) + [Hole(up)]
      requires Ctx(root, up, f.ref) && Is(f.ref, Wrap(f, y)) && Apart(up, Wrap(f, y)) && y.Node?
      requires if f.WentLeft? then a + s < f.key1 else a > f.key1 + f.key2
      modifies this`root, PathRefs(up), Refs(Wrap(f, y)), pnStack
      ensures pnStack.Valid() && pnStack.front == 0
      ensures pnStack.Contents() == Links(up)[..Left(|up| + 1, LOCAL_LENGTH)]
      ensures Ctx(root, up, h) && Is(h, Lift(f, y)) && Lift(f, y).Node? && Apart(up, Lift(f, y))
      ensures Refs(Lift(f, y)) == Refs(Wrap(f, y)) && (moved <==> f.key2 < y.key2)
    {
      LiftedApart(up, f, y);
      PopSnoc(Links(up), Hole(up));
      RefsAllocated(Wrap(f, y));
      PathRefsAllocated(up);
      var pn := pnStack.Top();
      pnStack.Pop();
      moved, h := LiftAt(pn, a, s, up, f, y);
    }

    /** One round of the climb, from the whole path. */
    method Rise(pnStack: LocalDeque<Link>, a: nat, s: nat, ghost path: seq<Frame<TreeNode>>, ghost h: TreeNode,
                ghost x: Tree<TreeNode>, ghost k: nat)
      returns (moved: bool, ghost up: seq<Frame<TreeNode>>, ghost h': TreeNode, ghost x': Tree<TreeNode>)
      requires pnStack.Valid() && pnStack.front == 0 && 0 < k <= |path| && pnStack.Contents() == Links(path)[..k]
      requires Leads(path, a, s) && Ctx(root, path, h) && Is(h, x) && Apart(path, x) && x.Node?
      modifies this`root, PathRefs(path), Refs(x), pnStack
      ensures pnStack.Valid() && pnStack.front == 0 && |up| == k - 1
      ensures pnStack.Contents() == Links(up)[..Left(k, LOCAL_LENGTH)]
      ensures Leads(up, a, s) && Ctx(root, up, h') && Is(h', x') && Apart(up, x') && x'.Node?
      ensures PathRefs(up) + Refs(x') == PathRefs(path) + Refs(x)
      ensures Climb(path, x, k, LOCAL_LENGTH) ==
        if moved then Climb(up, x', Left(k, LOCAL_LENGTH), LOCAL_LENGTH) else Plug(up, x')
    {
      ghost var f, y;
      up, f, y := Divide(root, path, h, x, k, a, s);
      x' := Lift(f, y);
      moved, h' := PopAndLift(pnStack, a, s, up, f, y);
    }

    /** The second loop of an insertion: bubbles the grown node up while its parent is smaller. */
    method BubbleUp(pnStack: LocalDeque<Link>, a: nat, s: nat, ghost path0: seq<Frame<TreeNode>>,
                    ghost h0: TreeNode, ghost x0: Tree<TreeNode>)
      requires pnStack.Valid() && pnStack.front == 0 && pnStack.Contents() == Links(path0)
      requires Ctx(root, path0, h0) && Is(h0, x0) && Apart(path0, x0) && x0.Node?
      requires Leads(path0, a, s)
      modifies this`root, PathRefs(path0), Refs(x0), pnStack
      ensures var u := Climb(path0, x0, |path0|, LOCAL_LENGTH);
        Is(root, u) && Distinct(u) && Refs(u) == PathRefs(path0) + Refs(x0)
    {
      ghost var path, h, x := path0, h0, x0;
      ghost var k: nat := |path0|;
      ghost var all, goal := PathRefs(path0) + Refs(x0), Climb(path0, x0, |path0|, LOCAL_LENGTH);
      RefsAllocated(x0);
      PathRefsAllocated(path0);
      while !pnStack.Empty()
        invariant pnStack.Valid() && pnStack.front == 0 && k <= |path| && pnStack.Contents() == Links(path)[..k]
        invariant Leads(path, a, s)
        invariant Ctx(root, path, h) && Is(h, x) && Apart(path, x) && x.Node?
        invariant PathRefs(path) + Refs(x) == all
        invariant Climb(path, x, k, LOCAL_LENGTH) == goal
        decreases k
      {
        var moved;
        moved, path, h, x := Rise(pnStack, a, s, path, h, x, k);
        k := Left(k, LOCAL_LENGTH);
        if !moved {
          break;
        }
      }
      assert Is(root, goal) && Distinct(goal) && Refs(goal) == all by { PlugWhole(root, path, h, x); }
    }

    method PlaceLeaf(pn: Link, a: nat, s: nat, ghost path: seq<Frame<TreeNode>>) returns (n: TreeNode)
      requires pn == Hole(path) && Ctx(root, path, null) && PathDistinct(path)
      modifies this`root, PathRefs(path)
      ensures fresh(n) && Ctx(root, path, n) && Is(n, Node(n, a, s, Leaf, Leaf))
    {
      PathRefsAllocated(path);
      n := new TreeNode(a, s);
      Store(pn, n, path, null);
    }

    /** Moves one node down, leaving the link to the node on the stack. */
    method StepDown(pnStack: LocalDeque<Link>, pn: Link, n: TreeNode, a: nat, s: nat,
                    ghost path: seq<Frame<TreeNode>>, ghost cur: Tree<TreeNode>)
      returns (pn': Link, n': TreeNode?, ghost path': seq<Frame<TreeNode>>, ghost cur': Tree<TreeNode>)
      requires pnStack.Valid() && pnStack.front == 0 && pnStack.hasSpill && pnStack.Contents() == Links(path)
      requires pn == Hole(path) && Walk(path, cur, t, a, s) && Ctx(root, path, n) && Is(n, cur)
      requires cur.Node? && MergeAt(cur, a, s).Miss? && (a + s < cur.key1 || a > cur.key1 + cur.key2)
      modifies pnStack, pnStack.slots
      ensures pnStack.Valid() && pnStack.front == 0 && pnStack.Contents() == Links(path')
      ensures pn' == Hole(path') && Walk(path', cur', t, a, s) && Ctx(root, path', n') && Is(n', cur')
      ensures cur' == cur.l || cur' == cur.r
    {
      RefsAllocated(cur);
      PathRefsAllocated(path);
      var crashed := pnStack.Push(pn);
      assert Ctx(root, path, n) && Is(n, cur);
      path', cur' := DownStep(root, path, n, cur, t, a, s);
      if a + s < n.key1 {
        pn', n' := LeftOf(n), n.l;
      } else {
        pn', n' := RightOf(n), n.r;
      }
    }

    /** Joins [a, a+s) to the node at the end of the path; a range that overlaps the node is an error. */
    method MergeHere(n: TreeNode, a: nat, s: nat, ghost path: seq<Frame<TreeNode>>, ghost cur: Tree<TreeNode>)
      returns (res: MergeResult, ghost x: Tree<TreeNode>)
      requires Walk(path, cur, t, a, s) && Ctx(root, path, n) && Is(n, cur) && cur.Node?
      modifies Refs(cur)
      ensures Ctx(root, path, n) && Is(n, x)
      ensures res.Success? ==> Standing(path, cur, t, a, s, n, x) && PathRefs(path) + Refs(x) <= Refs(t)
      ensures res.Missed? ==>
        x == cur && MergeAt(cur, a, s).Miss? && (a + s < cur.key1 || a > cur.key1 + cur.key2)
      ensures res.Error? ==> Is(root, t) && forall f :: Insert(t, a, s, f).Clash?
    {
      PathRefsAllocated(path);
      x := cur;
      res := MergeAtNode(n, a, s, cur);
      assert Ctx(root, path, n);
      if res.Success? {
        WalkMerged(path, cur, t, a, s, n);
        x := MergeAt(cur, a, s).t;
      } else if res.Error? || (a + s >= n.key1 && a <= n.key1 + n.key2) {
        res := Error;
        WalkClash(path, cur, t, a, s);
        CtxPlug(root, path, n, cur);
      }
    }

    /** One round of the loop below at a node: joins the range to it, or moves on. */
    method MergeOrStep(pnStack: LocalDeque<Link>, pn: Link, n: TreeNode, a: nat, s: nat,
                       ghost path: seq<Frame<TreeNode>>, ghost cur: Tree<TreeNode>)
      returns (res: MergeResult, ghost x: Tree<TreeNode>, pn': Link, n': TreeNode?,
               ghost path': seq<Frame<TreeNode>>, ghost cur': Tree<TreeNode>)
      requires pnStack.Valid() && pnStack.front == 0 && pnStack.hasSpill && pnStack.Contents() == Links(path)
      requires pn == Hole(path) && Walk(path, cur, t, a, s) && Ctx(root, path, n) && Is(n, cur) && cur.Node?
      modifies Refs(cur), pnStack, pnStack.slots
      ensures pnStack.Valid() && pnStack.front == 0 && pnStack.Contents() == Links(path')
      ensures !res.Missed? ==> path' == path && cur' == cur && Ctx(root, path, n) && Is(n, x)
      ensures res.Success? ==> Standing(path, cur, t, a, s, n, x) && PathRefs(path) + Refs(x) <= Refs(t)
      ensures res.Error? ==> Is(root, t) && forall f :: Insert(t, a, s, f).Clash?
      ensures res.Missed? ==> pn' == Hole(path') && Walk(path', cur', t, a, s) && Ctx(root, path', n') && Is(n', cur')
      ensures res.Missed? ==> cur' == cur.l || cur' == cur.r
    {
      RefsAllocated(cur);
      PathRefsAllocated(path);
      pn', n', path', cur' := pn, n, path, cur;
      res, x := MergeHere(n, a, s, path, cur);
      if res.Missed? {
        pn', n', path', cur' := StepDown(pnStack, pn, n, a, s, path, cur);
      }
    }

    /**
     The first loop of an insertion: looks for the place of [a, a+s) and puts it there.
     On success the new or grown node is `h`, with value `x`, at the end of `path`.
     */
    method Descend(pnStack: LocalDeque<Link>, a: nat, s: nat)
      returns (ok: bool, ghost path: seq<Frame<TreeNode>>, ghost cur: Tree<TreeNode>,
               ghost h: TreeNode, ghost x: Tree<TreeNode>)
      requires pnStack.Valid() && pnStack.front == 0 && pnStack.hasSpill && pnStack.Contents() == []
      requires Shape() && t.Node?
      modifies this`root, Refs(t), pnStack, pnStack.slots
      ensures ok ==>
        && pnStack.Valid() && pnStack.front == 0 && pnStack.Contents() == Links(path)
        && Ctx(root, path, h) && Is(h, x) && Standing(path, cur, t, a, s, h, x)
        && PathRefs(path) + Refs(x) <= Refs(t) + {h} && (h in Refs(t) || fresh(h))
      ensures !ok ==> Is(root, t) && forall f :: Insert(t, a, s, f).Clash?
    {
      RefsAllocated(t);
      var n, pn := root, RootLink;
      path, cur := [], t;
      while true
        invariant pnStack.Valid() && pnStack.front == 0 && pnStack.Contents() == Links(path)
        invariant pn == Hole(path) && Walk(path, cur, t, a, s)
        invariant Ctx(root, path, n) && Is(n, cur)
        decreases cur
      {
        if n == null {
          n := PlaceLeaf(pn, a, s, path);
          WalkLeaf(path, t, a, s, n);
          return true, path, cur, n, Node(n, a, s, Leaf, Leaf);
        }
        var res, pn', n';
        res, x, pn', n', path, cur := MergeOrStep(pnStack, pn, n, a, s, path, cur);
        if !res.Missed? {
          return res.Success?, path, cur, n, x;
        }
        pn, n := pn', n';
      }
    }

    /** Bubbles up what the first loop has placed, and records the new tree. */
    method Settle(pnStack: LocalDeque<Link>, a: nat, s: nat, ghost path: seq<Frame<TreeNode>>,
                  ghost cur: Tree<TreeNode>, ghost h: TreeNode, ghost x: Tree<TreeNode>)
      requires pnStack.Valid() && pnStack.front == 0 && pnStack.Contents() == Links(path)
      requires Ctx(root, path, h) && Is(h, x) && Standing(path, cur, t, a, s, h, x)
      modifies this, PathRefs(path), Refs(x), pnStack
      ensures Shape() && Refs(t) == PathRefs(path) + Refs(x)
      ensures t == Climb(path, x, |path|, LOCAL_LENGTH)
    {
      BubbleUp(pnStack, a, s, path, h, x);
      t := Climb(path, x, |path|, LOCAL_LENGTH);
    }

    /** Refused exactly when the recursive insertion is; otherwise the same pages in the same order. */
    method MergeInsertInternal(a: nat, s: nat) returns (ok: bool, ghost f: TreeNode)
      requires Shape() && t.Node?
      modifies this, Refs(t)
      ensures Shape() && fresh(Refs(t) - old(Refs(t)))
      ensures ok ==> StackInsert(old(t), a, s, f, LOCAL_LENGTH) == Inserted(t)
      ensures !ok ==> t == old(t) && forall g :: Insert(t, a, s, g).Clash?
    {
      RefsAllocated(t);
      var pnStack := new LocalDeque<Link>(true);
      ghost var path, cur, x;
      ok, path, cur, f, x := Descend(pnStack, a, s);
      if ok {
        SearchPasses(path, cur, a, s);
        Settle(pnStack, a, s, path, cur, f, x);
      }
    }

    /**
     Adds the pages [a, a+s), joining them to the regions they touch. Refused, with nothing
     changed, exactly when one of the pages is already there. Search order and full coalescing
     always survive; the size order does so exactly when the search path fits the stack or the grown
     region is no bigger than the one two nodes above it. An empty tree takes even an empty range,
     and then holds a region of no pages.
     */
    method MergeInsert(a: nat, s: nat) returns (ok: bool)
      requires Ordered() && a + s < 0x1_0000_0000
      modifies this, Refs(t)
      ensures Shape() && fresh(Refs(t) - old(Refs(t)))
      ensures s != 0 ==> Ordered()
      ensures s != 0 && ok && old(Heap(t)) ==> (Heap(t) <==> SizeOrderSurvives(old(t), a, s, LOCAL_LENGTH))
      ensures s == 0 && old(t).Leaf? ==> ok && t.Node? && t == Node(t.ref, a, 0, Leaf, Leaf) && !Ordered()
      ensures s == 0 && old(t).Node? ==> !ok
      ensures s != 0 && ok ==> forall p :: a <= p < a + s ==> !Covers(old(t), p)
      ensures s != 0 && !ok ==> exists p :: a <= p < a + s && Covers(old(t), p)
      ensures s != 0 ==>
        StackInsert(Erase(old(t)), a, s, (), LOCAL_LENGTH) == if ok then Inserted(Erase(t)) else Clash
      ensures !ok ==> t == old(t) && Ordered()
      ensures ok ==> PageCount(t) == PageCount(old(t)) + s
      ensures ok ==> forall p :: Covers(t, p) <==> Covers(old(t), p) || a <= p < a + s
    {
      ghost var was := t;
      if root == null {
        root := new TreeNode(a, s);
        t := Node(root, a, s, Leaf, Leaf);
        EraseStackInsert(was, a, s, root, LOCAL_LENGTH);
        return true;
      }
      if s == 0 {
        return false;
      }
      ghost var f;
      ok, f := MergeInsertInternal(a, s);
      EraseStackInsert(was, a, s, f, LOCAL_LENGTH);
      StackInsertAgrees(was, a, s, f, LOCAL_LENGTH);
      InsertClashIff(was, a, s, f);
      ClearMeansNoCoveredPage(was, a, a + s);
      if ok {
        InsertSorted(was, a, s, f);
        InsertBounds(was, a, s, f, 0x1_0000_0000);
        InsertAddsExactly(was, a, s, f);
      }
    }

    /**
     Address-ordered first fit: takes `s` pages from the front of the lowest region that has them. A
     tree that has lost its size order may miss a region, but never takes pages that are not there.
     */
    method Find(s: nat) returns (ok: bool, a: nat)
      requires Ordered()
      modifies this, Refs(t)
      ensures Ordered() && Refs(t) <= old(Refs(t)) && (old(Heap(t)) ==> Heap(t))
      ensures ok <==> 0 < s <= RootSize(old(t))
      ensures s != 0 ==> FindIn(Erase(old(t)), s) == if ok then Found(a, Erase(t)) else NotFound
      ensures s != 0 && ok && old(Heap(t)) ==> FirstFit(old(t), a, s)
      ensures s != 0 && !ok && old(Heap(t)) ==> forall b, c :: HasRegion(old(t), b, c) ==> c < s
      ensures !ok ==> t == old(t)
      ensures ok ==> PageCount(t) == PageCount(old(t)) - s
      ensures ok ==> forall p :: a <= p < a + s ==> Covers(old(t), p)
      ensures ok ==> forall p :: Covers(t, p) <==> Covers(old(t), p) && !(a <= p < a + s)
    {
      a := 0;
      if root == null || s == 0 {
        return false, a;
      }
      ghost var was := t;
      RefsAllocated(t);
      FindFacts(was, s);
      EraseFind(was, s);
      FindSucceedsIff(was, s);
      var top;
      ok, a, top := FindFrom(root, s, t);
      if ok {
        FindTakesExactly(was, s);
        root, t := top, FindIn(was, s).t;
      }
    }

    // ---------------------------------------------------------------- bulk deletion

    /** Removes the node behind `link` for as long as it satisfies the callback. */
    method StripAt(link: Link, callback: (nat, nat) -> bool, ghost path: seq<Frame<TreeNode>>,
                   n: TreeNode?, ghost cur: Tree<TreeNode>) returns (p: TreeNode?, removed: nat)
      requires link == Hole(path) && Ctx(root, path, n) && Is(n, cur) && Apart(path, cur)
      modifies this`root, PathRefs(path), Refs(cur)
      ensures Ctx(root, path, p) && Is(p, Strip(cur, callback))
      ensures removed == Size(cur) - Size(Strip(cur, callback))
    {
      RefsAllocated(cur);
      PathRefsAllocated(path);
      p, removed := n, 0;
      ghost var v := cur;
      while p != null && callback(p.key1, p.key2)
        invariant Ctx(root, path, n) && Is(p, v) && Distinct(v) && Refs(v) <= Refs(cur)
        invariant Strip(v, callback) == Strip(cur, callback) && removed + Size(v) == Size(cur)
        decreases Size(v)
      {
        RemoveRefs(v);
        RemoveExact(v);
        p := RemoveNode(p, v);
        v := Remove(v);
        removed := removed + 1;
      }
      DeleteRefs(v, callback);
      Store(link, p, path, n);
    }

    /** Puts a node that stays on the stack and moves to its left subtree. */
    method PushAndGoLeft(stack: LocalDeque<TreeNode?>, callback: (nat, nat) -> bool, ghost cnt: nat,
                         ghost path: seq<Frame<TreeNode>>, p: TreeNode, ghost u: Tree<TreeNode>)
      returns (crashed: bool, link: Link, n: TreeNode?,
               ghost path': seq<Frame<TreeNode>>, ghost cur': Tree<TreeNode>)
      requires Stacked(stack, path)
      requires Ctx(root, path, p) && Is(p, u) && u.Node? && !callback(u.key1, u.key2)
      requires Deleting(path, u, t, callback, cnt)
      modifies stack, stack.slots
      ensures crashed ==> DeleteDepth(t, callback) > LOCAL_LENGTH
      ensures !crashed ==> Stacked(stack, path')
      ensures !crashed ==> link == Hole(path') && Ctx(root, path', n) && Is(n, cur')
      ensures !crashed ==> Deleting(path', cur', t, callback, cnt)
      ensures !crashed ==> PendingWork(path') + 2 * Size(cur') < PendingWork(path) + 2 * Size(u)
    {
      RefsAllocated(u);
      PathRefsAllocated(path);
      LeftKeepsDeleting(path, u, t, callback, cnt);
      crashed := stack.Push(p);
      assert Ctx(root, path, p) && Is(p, u);
      CtxDown(root, path, p, u);
      link, n, path', cur' := LeftOf(p), p.l, path + [DownLeft(u)], u.l;
    }

    /** Strips the node behind the link; what is left goes on the stack, and the walk to its left. */
    method Visit(stack: LocalDeque<TreeNode?>, link: Link, callback: (nat, nat) -> bool, cnt: nat,
                 ghost path: seq<Frame<TreeNode>>, n: TreeNode?, ghost cur: Tree<TreeNode>)
      returns (crashed: bool, cnt': nat, link': Link, n': TreeNode?,
               ghost path': seq<Frame<TreeNode>>, ghost cur': Tree<TreeNode>)
      requires Stacked(stack, path) && cur.Node?
      requires link == Hole(path) && Ctx(root, path, n) && Is(n, cur) && Deleting(path, cur, t, callback, cnt)
      modifies this`root, Refs(t), stack, stack.slots
      ensures crashed ==> DeleteDepth(t, callback) > LOCAL_LENGTH
      ensures !crashed ==> Stacked(stack, path')
      ensures !crashed ==> link' == Hole(path') && Ctx(root, path', n') && Is(n', cur')
      ensures !crashed ==> Deleting(path', cur', t, callback, cnt')
      ensures !crashed ==> PendingWork(path') + 2 * Size(cur') <= PendingWork(path) + 2 * Size(cur)
      ensures !crashed && n' != null ==> PendingWork(path') + 2 * Size(cur') < PendingWork(path) + 2 * Size(cur)
    {
      ghost var u := Strip(cur, callback);
      StripKeepsDeleting(path, cur, t, callback, cnt);
      var p, removed := StripAt(link, callback, path, n, cur);
      crashed, cnt', link', n', path', cur' := false, cnt + removed, link, p, path, u;
      if p != null {
        crashed, link', n', path', cur' := PushAndGoLeft(stack, callback, cnt', path, p, u);
      }
    }

    /** The inner loop: strips and goes left until there is nothing more on the left. */
    method GoLeft(stack: LocalDeque<TreeNode?>, link0: Link, callback: (nat, nat) -> bool, cnt0: nat,
                  ghost path0: seq<Frame<TreeNode>>, n0: TreeNode?, ghost cur0: Tree<TreeNode>)
      returns (crashed: bool, cnt: nat, ghost path: seq<Frame<TreeNode>>)
      requires Stacked(stack, path0)
      requires link0 == Hole(path0) && Ctx(root, path0, n0) && Is(n0, cur0)
      requires Deleting(path0, cur0, t, callback, cnt0)
      modifies this`root, Refs(t), stack, stack.slots
      ensures crashed ==> DeleteDepth(t, callback) > LOCAL_LENGTH
      ensures !crashed ==> Stacked(stack, path)
      ensures !crashed ==> Ctx(root, path, null) && Deleting(path, Leaf, t, callback, cnt)
      ensures !crashed ==> PendingWork(path) <= PendingWork(path0) + 2 * Size(cur0)
    {
      var link, n := link0, n0;
      crashed, path, cnt := false, path0, cnt0;
      ghost var cur := cur0;
      while n != null && !crashed
        invariant crashed ==> DeleteDepth(t, callback) > LOCAL_LENGTH
        invariant !crashed ==> Stacked(stack, path)
        invariant !crashed ==> link == Hole(path) && Ctx(root, path, n) && Is(n, cur)
        invariant !crashed ==> Deleting(path, cur, t, callback, cnt)
        invariant !crashed ==> PendingWork(path) + 2 * Size(cur) <= PendingWork(path0) + 2 * Size(cur0)
        decreases !crashed, n != null, PendingWork(path) + 2 * Size(cur)
      {
        crashed, cnt, link, n, path, cur := Visit(stack, link, callback, cnt, path, n, cur);
      }
    }

    /** The outer loop: each pending node leads on to its right subtree. */
    method DeleteLoop(callback: (nat, nat) -> bool) returns (crashed: bool, cnt: nat)
      requires Shape()
      modifies this`root, Refs(t)
      ensures crashed <==> DeleteDepth(t, callback) > LOCAL_LENGTH
      ensures !crashed ==> Is(root, DeleteIf(t, callback)) && Distinct(DeleteIf(t, callback))
      ensures !crashed ==> Refs(DeleteIf(t, callback)) <= Refs(t) && cnt == CountIf(t, callback)
    {
      RefsAllocated(t);
      var stack := new LocalDeque<TreeNode?>(false);
      ghost var path := [];
      crashed, cnt, path := GoLeft(stack, RootLink, callback, 0, path, root, t);
      while !crashed && !stack.Empty()
        invariant fresh(stack) && fresh(stack.slots)
        invariant crashed ==> DeleteDepth(t, callback) > LOCAL_LENGTH
        invariant !crashed ==> Stacked(stack, path)
        invariant !crashed ==> Ctx(root, path, null) && Deleting(path, Leaf, t, callback, cnt)
        decreases !crashed, PendingWork(path)
      {
        crashed, cnt, path := PopAndGoRight(stack, callback, cnt, path);
      }
      if !crashed {
        DeletingEnds(root, path, t, callback, cnt);
      }
    }

    /**
     Deletes every region that satisfies the callback, and returns how many there were. The stack has
     no spill area: the program crashes exactly when the walk needs more room than the local array has.
     */
    method DeleteNodeIfSatisfy(callback: (nat, nat) -> bool) returns (crashed: bool, cnt: nat)
      requires Ordered()
      modifies this, Refs(t)
      ensures crashed <==> DeleteDepth(old(t), callback) > LOCAL_LENGTH
      ensures !crashed ==> Ordered() && Refs(t) <= old(Refs(t)) && (old(Heap(t)) ==> Heap(t))
      ensures !crashed ==> cnt == CountIf(old(t), callback) && Size(t) == Size(old(t)) - cnt
      ensures !crashed ==>
        forall a: nat, c: nat :: HasRegion(t, a, c) <==> HasRegion(old(t), a, c) && !callback(a, c)
    {
      ghost var was := t;
      crashed, cnt := DeleteLoop(callback);
      if !crashed {
        t := DeleteIf(was, callback);
        DeleteCorrect(was, callback);
        DeleteBounds(was, callback, 0x1_0000_0000);
      }
    }

    /** Takes the innermost pending node off the stack and works on its right subtree. */
    method PopAndGoRight(stack: LocalDeque<TreeNode?>, callback: (nat, nat) -> bool, cnt0: nat,
                         ghost path0: seq<Frame<TreeNode>>)
      returns (crashed: bool, cnt: nat, ghost path: seq<Frame<TreeNode>>)
      requires Stacked(stack, path0) && Pending(path0) != []
      requires Ctx(root, path0, null) && Deleting(path0, Leaf, t, callback, cnt0)
      modifies this`root, Refs(t), stack, stack.slots
      ensures crashed ==> DeleteDepth(t, callback) > LOCAL_LENGTH
      ensures !crashed ==> Stacked(stack, path)
      ensures !crashed ==> Ctx(root, path, null) && Deleting(path, Leaf, t, callback, cnt)
      ensures !crashed ==> PendingWork(path) < PendingWork(path0)
    {
      PathRefsAllocated(path0);
      var p := stack.Top();
      stack.Pop();
      assert Ctx(root, path0, null);
      ghost var (up, cur) := Unwind(path0, Leaf);
      UnwindKeepsDeleting(path0, t, callback, cnt0);
      UnwindCtx(root, path0, null, Leaf);
      crashed, cnt, path := GoLeft(stack, RightOf(p), callback, cnt0, up, p.r, cur);
    }
  }

  /** The stack of a deletion holds the nodes whose right subtree is pending. */
  ghost predicate Stacked(stack: LocalDeque<TreeNode?>, path: seq<Frame<TreeNode>>)
    reads stack, stack.slots
  {
    && stack.Valid() && stack.front == 0 && !stack.hasSpill
    && stack.Contents() == Pending(path)
  }

  lemma UnwindKeepsDeleting(path: seq<Frame<TreeNode>>, t: Tree<TreeNode>, f: (nat, nat) -> bool, cnt: nat)
    requires Deleting(path, Leaf, t, f, cnt) && 0 < |Pending(path)| <= LOCAL_LENGTH
    ensures var (p, cur) := Unwind(path, Leaf);
      && Deleting(p, cur, t, f, cnt)
      && Pending(p) == Pending(path)[..|Pending(path)| - 1]
      && PendingWork(p) + 2 * Size(cur) < PendingWork(path)
  {
    UnwindCorrect(path, Leaf, f, LOCAL_LENGTH);
    UnwindDistinct(path, Leaf);
  }

  lemma DeletingEnds(top: TreeNode?, path: seq<Frame<TreeNode>>, t: Tree<TreeNode>, f: (nat, nat) -> bool, cnt: nat)
    requires Deleting(path, Leaf, t, f, cnt) && Pending(path) == [] && Ctx(top, path, null)
    ensures Is(top, DeleteIf(t, f)) && Distinct(DeleteIf(t, f)) && Refs(DeleteIf(t, f)) <= Refs(t)
    ensures cnt == CountIf(t, f) && DeleteDepth(t, f) <= LOCAL_LENGTH
  {
    FinishNothingPending(path, Leaf, f, LOCAL_LENGTH);
    CtxPlug(top, path, null, Leaf);
    PlugRefs(path, Leaf);
    PlugDistinct(path, Leaf);
  }

  lemma {:induction false} UnwindCtx(top: TreeNode?, path: seq<Frame<TreeNode>>, h: TreeNode?, x: Tree<TreeNode>)
    requires Pending(path) != [] && Ctx(top, path, h) && Is(h, x)
    ensures var (p, cur) := Unwind(path, x);
      && p != [] && p[|p| - 1].WentRight? && p[|p| - 1].ref == Pending(path)[|Pending(path)| - 1]
      && Ctx(top, p, p[|p| - 1].ref.r) && Is(p[|p| - 1].ref.r, cur)
  {
    var g, up := path[|path| - 1], path[..|path| - 1];
    if g.WentLeft? {
      assert (up + [WentRight(g.ref, g.key1, g.key2, x)])[..|up|] == up;
    } else {
      UnwindCtx(top, up, g.ref, Wrap(g, x));
    }
  }

  /** What the bulk deletion keeps while it stands at `cur`, at the end of `path`. */
  ghost predicate Deleting(path: seq<Frame<TreeNode>>, cur: Tree<TreeNode>, t: Tree<TreeNode>,
                           f: (nat, nat) -> bool, cnt: nat) {
    && Finish(path, DeleteIf(cur, f), f) == DeleteIf(t, f)
    && cnt + CountIf(cur, f) + PendingCount(path, f) == CountIf(t, f)
    && Apart(path, cur) && PathRefs(path) + Refs(cur) <= Refs(t)
    && (DeleteDepth(t, f) <= LOCAL_LENGTH <==> Fitting(path, cur, f, LOCAL_LENGTH))
  }

  lemma StripKeepsDeleting(path: seq<Frame<TreeNode>>, cur: Tree<TreeNode>, t: Tree<TreeNode>,
                           f: (nat, nat) -> bool, cnt: nat)
    requires Deleting(path, cur, t, f, cnt)
    ensures Deleting(path, Strip(cur, f), t, f, cnt + (Size(cur) - Size(Strip(cur, f))))
    ensures Strip(cur, f).Node? ==> !f(Strip(cur, f).key1, Strip(cur, f).key2)
  {
    StripCount(cur, f);
    StripDepth(cur, f);
    DeleteRefs(cur, f);
  }

  lemma LeftKeepsDeleting(path: seq<Frame<TreeNode>>, u: Tree<TreeNode>, t: Tree<TreeNode>,
                          f: (nat, nat) -> bool, cnt: nat)
    requires Deleting(path, u, t, f, cnt) && u.Node? && !f(u.key1, u.key2)
    ensures Deleting(path + [DownLeft(u)], u.l, t, f, cnt)
    ensures Pending(path + [DownLeft(u)]) == Pending(path) + [u.ref]
    ensures |Pending(path)| >= LOCAL_LENGTH ==> DeleteDepth(t, f) > LOCAL_LENGTH
    ensures PendingWork(path + [DownLeft(u)]) + 2 * Size(u.l) < PendingWork(path) + 2 * Size(u)
    ensures Hole(path + [DownLeft(u)]) == LeftOf(u.ref)
  {
    DescendLeft(path, u, f, LOCAL_LENGTH);
    assert u == Wrap(DownLeft(u), u.l);
    ExtendApart(path, DownLeft(u), u.l);
  }
}
