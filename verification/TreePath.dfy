/**
 A tree seen from one of its nodes: the frames passed on the way down from the root.
 The innermost frame is the last one.
 */
module TreePaths {
  import opened FreePageTree

  datatype Frame<R> =
    | WentLeft(ref: R, key1: nat, key2: nat, other: Tree<R>)   // `other` is the right child
    | WentRight(ref: R, key1: nat, key2: nat, other: Tree<R>)  // `other` is the left child

  function Wrap<R>(f: Frame<R>, t: Tree<R>): Tree<R> {
    match f
    case WentLeft(ref, k1, k2, r) => Node(ref, k1, k2, t, r)
    case WentRight(ref, k1, k2, l) => Node(ref, k1, k2, l, t)
  }

  function DownLeft<R>(t: Tree<R>): Frame<R>
    requires t.Node?
  {
    WentLeft(t.ref, t.key1, t.key2, t.r)
  }

  function DownRight<R>(t: Tree<R>): Frame<R>
    requires t.Node?
  {
    WentRight(t.ref, t.key1, t.key2, t.l)
  }

  /** The whole tree, with `t` at the end of the path. */
  ghost function Plug<R>(path: seq<Frame<R>>, t: Tree<R>): Tree<R> {
    if path == [] then t else Plug(path[..|path| - 1], Wrap(path[|path| - 1], t))
  }

  ghost function PathRefs<R>(path: seq<Frame<R>>): set<R> {
    if path == [] then {}
    else
      var f := path[|path| - 1];
      PathRefs(path[..|path| - 1]) + {f.ref} + Refs(f.other)
  }

  lemma {:induction false} PlugRefs<R>(path: seq<Frame<R>>, t: Tree<R>)
    ensures Refs(Plug(path, t)) == PathRefs(path) + Refs(t)
  {
    if path != [] {
      PlugRefs(path[..|path| - 1], Wrap(path[|path| - 1], t));
    }
  }

  /** Distinctness of a plugged tree, piece by piece. */
  ghost predicate PathDistinct<R>(path: seq<Frame<R>>) {
    path == [] ||
    var f := path[|path| - 1];
    && PathDistinct(path[..|path| - 1])
    && Distinct(f.other) && f.ref !in Refs(f.other)
    && PathRefs(path[..|path| - 1]) !! {f.ref} + Refs(f.other)
  }

  lemma {:induction false} PlugDistinct<R>(path: seq<Frame<R>>, t: Tree<R>)
    ensures Distinct(Plug(path, t)) <==> PathDistinct(path) && Distinct(t) && PathRefs(path) !! Refs(t)
  {
    if path != [] {
      PlugDistinct(path[..|path| - 1], Wrap(path[|path| - 1], t));
    }
  }

  // ------------------------------------------------------------------ insertion along a path

  /** The search for the place of [a, a+s) passed exactly these frames. */
  ghost predicate Leads<R>(path: seq<Frame<R>>, a: nat, s: nat) {
    forall i :: 0 <= i < |path| ==>
      if path[i].WentLeft? then a + s < path[i].key1 else a > path[i].key1 + path[i].key2
  }

  ghost predicate Descending<R>(path: seq<Frame<R>>) {
    forall i, j :: 0 <= i < j < |path| ==> path[j].key2 <= path[i].key2
  }

  function Lift<R>(f: Frame<R>, t: Tree<R>): Tree<R> {
    if f.WentLeft? then LiftLeft(Wrap(f, t)) else LiftRight(Wrap(f, t))
  }

  /** Bubbles `t` up along the whole path. */
  ghost function Ascend<R>(path: seq<Frame<R>>, t: Tree<R>): Tree<R> {
    if path == [] then t else Ascend(path[..|path| - 1], Lift(path[|path| - 1], t))
  }

  ghost function AscendInsertion<R>(path: seq<Frame<R>>, res: Insertion<R>): Insertion<R> {
    if res.Clash? then Clash else Inserted(Ascend(path, res.t))
  }

  /** The search for the place of [a, a+s) walks down `path` and arrives at `t`. */
  ghost predicate Arrives<R>(path: seq<Frame<R>>, t: Tree<R>, a: nat, s: nat) {
    path == [] ||
    var f := path[|path| - 1];
    && MergeAt(Wrap(f, t), a, s).Miss?
    && (if f.WentLeft? then a + s < f.key1 else a > f.key1 + f.key2)
    && Arrives(path[..|path| - 1], Wrap(f, t), a, s)
  }

  lemma {:induction false} InsertAlongPath<R>(path: seq<Frame<R>>, t: Tree<R>, a: nat, s: nat, f: R)
    requires Arrives(path, t, a, s)
    ensures Insert(Plug(path, t), a, s, f) == AscendInsertion(path, Insert(t, a, s, f))
  {
    if path != [] {
      InsertAlongPath(path[..|path| - 1], Wrap(path[|path| - 1], t), a, s, f);
    }
  }

  /** Once a step moves nothing, no later one does. */
  lemma {:induction false} AscendSettled<R>(path: seq<Frame<R>>, t: Tree<R>)
    requires Descending(path) && (path != [] ==> RootAtMost(t, path[|path| - 1].key2))
    ensures Ascend(path, t) == Plug(path, t)
  {
    if path != [] {
      AscendSettled(path[..|path| - 1], Wrap(path[|path| - 1], t));
    }
  }

  /** How many nodes the search for the place of [a, a+s) walks past. */
  function SearchDepth<R>(t: Tree<R>, a: nat, s: nat): nat {
    match t
    case Leaf => 0
    case Node(_, k1, k2, l, r) =>
      if !MergeAt(t, a, s).Miss? then 0
      else if a + s < k1 then 1 + SearchDepth(l, a, s)
      else if a > k1 + k2 then 1 + SearchDepth(r, a, s)
      else 0
  }

  // ------------------------------------------------------------------ absorption along a path

  ghost predicate AllLeft<R>(path: seq<Frame<R>>) {
    forall i :: 0 <= i < |path| ==> path[i].WentLeft?
  }

  ghost predicate AllRight<R>(path: seq<Frame<R>>) {
    forall i :: 0 <= i < |path| ==> path[i].WentRight?
  }

  ghost function PlugAbsorb<R>(path: seq<Frame<R>>, res: Absorb<R>): Absorb<R> {
    if res.Blocked? then Blocked else Absorbed(res.count, Plug(path, res.t))
  }

  lemma PlugSnoc<R>(path: seq<Frame<R>>, f: Frame<R>, t: Tree<R>)
    ensures Plug(path + [f], t) == Plug(path, Wrap(f, t))
  {
    assert (path + [f])[..|path|] == path;
  }

  lemma ExtendArrives<R>(path: seq<Frame<R>>, f: Frame<R>, t: Tree<R>, a: nat, s: nat)
    requires Arrives(path, Wrap(f, t), a, s) && MergeAt(Wrap(f, t), a, s).Miss?
    requires if f.WentLeft? then a + s < f.key1 else a > f.key1 + f.key2 && a + s >= f.key1
    ensures Arrives(path + [f], t, a, s)
    ensures SearchDepth(Wrap(f, t), a, s) == 1 + SearchDepth(t, a, s)
  {
    assert (path + [f])[..|path|] == path;
  }

  lemma AbsorbRightStep<R>(path: seq<Frame<R>>, t: Tree<R>, m: nat)
    requires t.Node? && m < t.key1
    ensures PlugAbsorb(path, AbsorbRight(t, m)) == PlugAbsorb(path + [DownLeft(t)], AbsorbRight(t.l, m))
  {
    if AbsorbRight(t.l, m).Absorbed? {
      PlugSnoc(path, DownLeft(t), AbsorbRight(t.l, m).t);
    }
  }

  lemma AbsorbLeftStep<R>(path: seq<Frame<R>>, t: Tree<R>, a: nat)
    requires t.Node? && t.key1 + t.key2 < a
    ensures PlugAbsorb(path, AbsorbLeft(t, a)) == PlugAbsorb(path + [DownRight(t)], AbsorbLeft(t.r, a))
  {
    if AbsorbLeft(t.r, a).Absorbed? {
      PlugSnoc(path, DownRight(t), AbsorbLeft(t.r, a).t);
    }
  }

  // ------------------------------------------------------------------ deletion along a path

  /**
   The whole tree once the walk is over, when the subtree at the end of the path comes out as `t`:
   a frame left of which we still are has its right subtree pending.
   */
  ghost function Finish<R>(path: seq<Frame<R>>, t: Tree<R>, f: (nat, nat) -> bool): Tree<R> {
    if path == [] then t
    else
      var x := path[|path| - 1];
      var w := match x
               case WentLeft(ref, k1, k2, r) => Node(ref, k1, k2, t, DeleteIf(r, f))
               case WentRight(ref, k1, k2, l) => Node(ref, k1, k2, l, t);
      Finish(path[..|path| - 1], w, f)
  }

  /** The nodes whose right subtree is pending, outermost first: the stack. */
  ghost function Pending<R>(path: seq<Frame<R>>): seq<R> {
    if path == [] then []
    else
      var x := path[|path| - 1];
      Pending(path[..|path| - 1]) + if x.WentLeft? then [x.ref] else []
  }

  ghost function PendingWork<R>(path: seq<Frame<R>>): nat {
    if path == [] then 0
    else
      var x := path[|path| - 1];
      PendingWork(path[..|path| - 1]) + if x.WentLeft? then 1 + 2 * Size(x.other) else 0
  }

  ghost function PendingCount<R>(path: seq<Frame<R>>, f: (nat, nat) -> bool): nat {
    if path == [] then 0
    else
      var x := path[|path| - 1];
      PendingCount(path[..|path| - 1], f) + if x.WentLeft? then CountIf(x.other, f) else 0
  }

  /** The stack never needs more than `room` entries for what is still pending. */
  ghost predicate Room<R>(path: seq<Frame<R>>, f: (nat, nat) -> bool, room: nat) {
    path == [] ||
    var x := path[|path| - 1];
    && (x.WentLeft? ==> |Pending(path[..|path| - 1])| + DeleteDepth(x.other, f) <= room)
    && Room(path[..|path| - 1], f, room)
  }

  /** What is still to be done fits a stack of `room` entries. */
  ghost predicate Fitting<R>(path: seq<Frame<R>>, t: Tree<R>, f: (nat, nat) -> bool, room: nat) {
    Room(path, f, room) && |Pending(path)| + DeleteDepth(t, f) <= room
  }

  /** From a finished subtree back up to the innermost pending node, and into its right subtree. */
  ghost function Unwind<R>(path: seq<Frame<R>>, x: Tree<R>): (res: (seq<Frame<R>>, Tree<R>))
    requires Pending(path) != []
  {
    var f, up := path[|path| - 1], path[..|path| - 1];
    if f.WentLeft? then (up + [WentRight(f.ref, f.key1, f.key2, x)], f.other)
    else Unwind(up, Wrap(f, x))
  }

  lemma {:induction false} UnwindCorrect<R>(path: seq<Frame<R>>, x: Tree<R>, f: (nat, nat) -> bool, room: nat)
    requires Pending(path) != []
    ensures var (p, cur) := Unwind(path, x);
      && Finish(p, DeleteIf(cur, f), f) == Finish(path, x, f)
      && Pending(p) == Pending(path)[..|Pending(path)| - 1]
      && PendingCount(p, f) + CountIf(cur, f) == PendingCount(path, f)
      && PendingWork(p) + 2 * Size(cur) < PendingWork(path)
      && (Fitting(p, cur, f, room) <==> Room(path, f, room))
      && PathRefs(p) + Refs(cur) == PathRefs(path) + Refs(x)
  {
    var g, up := path[|path| - 1], path[..|path| - 1];
    if g.WentLeft? {
      assert (up + [WentRight(g.ref, g.key1, g.key2, x)])[..|up|] == up;
    } else {
      UnwindCorrect(up, Wrap(g, x), f, room);
    }
  }

  lemma {:induction false} UnwindDistinct<R>(path: seq<Frame<R>>, x: Tree<R>)
    requires Pending(path) != []
    requires PathDistinct(path) && Distinct(x) && PathRefs(path) !! Refs(x)
    ensures var (p, cur) := Unwind(path, x);
      PathDistinct(p) && Distinct(cur) && PathRefs(p) !! Refs(cur)
  {
    var g, up := path[|path| - 1], path[..|path| - 1];
    if g.WentLeft? {
      assert (up + [WentRight(g.ref, g.key1, g.key2, x)])[..|up|] == up;
    } else {
      UnwindDistinct(up, Wrap(g, x));
    }
  }

  /** With nothing pending, the walk is over. */
  lemma {:induction false} FinishNothingPending<R>(path: seq<Frame<R>>, t: Tree<R>, f: (nat, nat) -> bool, room: nat)
    requires Pending(path) == []
    ensures Finish(path, t, f) == Plug(path, t) && PendingCount(path, f) == 0 && Room(path, f, room)
  {
    if path != [] {
      FinishNothingPending(path[..|path| - 1], Wrap(path[|path| - 1], t), f, room);
    }
  }

  lemma DescendLeft<R>(path: seq<Frame<R>>, u: Tree<R>, f: (nat, nat) -> bool, room: nat)
    requires u.Node? && !f(u.key1, u.key2)
    ensures var p := path + [DownLeft(u)];
      && Finish(p, DeleteIf(u.l, f), f) == Finish(path, DeleteIf(u, f), f)
      && Pending(p) == Pending(path) + [u.ref]
      && PendingCount(p, f) + CountIf(u.l, f) == PendingCount(path, f) + CountIf(u, f)
      && PendingWork(p) + 2 * Size(u.l) < PendingWork(path) + 2 * Size(u)
      && (Fitting(p, u.l, f, room) <==> Fitting(path, u, f, room))
  {
    assert (path + [DownLeft(u)])[..|path|] == path;
  }

  lemma StripDepth<R>(t: Tree<R>, f: (nat, nat) -> bool)
    ensures DeleteDepth(Strip(t, f), f) == DeleteDepth(t, f)
  {
    StripIdempotent(t, f);
  }

  lemma {:induction false} StripIdempotent<R>(t: Tree<R>, f: (nat, nat) -> bool)
    ensures Strip(Strip(t, f), f) == Strip(t, f)
    decreases Size(t)
  {
    if t.Node? && f(t.key1, t.key2) {
      RemoveExact(t);
      StripIdempotent(Remove(t), f);
    }
  }
}
