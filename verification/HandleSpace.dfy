/**
 Global handles: nodes in blocks of 256, an intrusive list of free nodes through all blocks, and a
 doubly linked list of the blocks that have a node in use. Only blocks on that list are scanned for
 roots, so that a block missing from it would lose roots.

 `free` and `used` are bookkeeping: the two lists in order, which the links must spell out.
 */
module HandleSpaces {
  import opened Collections
  import T = ThreeTierLists

  const BLOCK_SIZE: nat := 256

  datatype State = Free | Normal | Weak | Deleting

  /** A node's address: its block, and its index there. */
  datatype Ref = Ref(block: nat, index: nat)

  datatype Node = Node(state: State, value: nat, nextFree: Option<Ref>)

  datatype Block = Block(nodes: seq<Node>, usedNodes: nat, nextUsed: Option<nat>, prevUsed: Option<nat>)

  datatype Space = Space(
    blocks: seq<Block>,
    firstUsed: Option<nat>,
    firstFree: Option<Ref>,
    handles: nat,
    free: seq<Ref>,
    used: seq<nat>)

  // ------------------------------------------------------------------ invariant

  function At<T>(s: seq<T>, i: int): Option<T> {
    if 0 <= i < |s| then Some(s[i]) else None
  }

  ghost predicate Exists(s: Space, r: Ref) {
    r.block < |s.blocks| && r.index < |s.blocks[r.block].nodes|
  }

  ghost function NodeAt(s: Space, r: Ref): Node
    requires Exists(s, r)
  {
    s.blocks[r.block].nodes[r.index]
  }

  ghost function CountUsed(nodes: seq<Node>): (n: nat)
    ensures n <= |nodes|
  {
    if nodes == [] then 0 else CountUsed(nodes[1..]) + Weight(nodes[0])
  }

  ghost function SumUsed(blocks: seq<Block>): nat {
    if blocks == [] then 0 else SumUsed(blocks[1..]) + blocks[0].usedNodes
  }

  /** The k-th free node is free, and links to the next one. */
  ghost predicate FreeAt(s: Space, k: nat)
    requires k < |s.free|
  {
    Exists(s, s.free[k]) && NodeAt(s, s.free[k]).state == Free && NodeAt(s, s.free[k]).nextFree == At(s.free, k + 1)
  }

  ghost predicate FreeRight(s: Space) {
    && s.firstFree == At(s.free, 0) && Distinct(s.free)
    && (forall k :: 0 <= k < |s.free| ==> FreeAt(s, k))
    && (forall r :: Exists(s, r) && NodeAt(s, r).state == Free ==> r in s.free)
  }

  ghost predicate UsedAt(s: Space, k: nat)
    requires k < |s.used|
  {
    && s.used[k] < |s.blocks|
    && s.blocks[s.used[k]].nextUsed == At(s.used, k + 1) && s.blocks[s.used[k]].prevUsed == At(s.used, k - 1)
  }

  /** The list of used blocks is doubly linked. */
  ghost predicate UsedLinked(s: Space) {
    && s.firstUsed == At(s.used, 0) && Distinct(s.used)
    && (forall k :: 0 <= k < |s.used| ==> UsedAt(s, k))
  }

  /** The blocks on the list are those with a node in use. */
  ghost predicate UsedRight(s: Space) {
    && UsedLinked(s)
    && (forall b :: 0 <= b < |s.blocks| ==> (b in s.used <==> s.blocks[b].usedNodes > 0))
  }

  ghost predicate CountsRight(s: Space) {
    && s.handles == SumUsed(s.blocks)
    && forall b :: 0 <= b < |s.blocks| ==>
         |s.blocks[b].nodes| == BLOCK_SIZE && s.blocks[b].usedNodes == CountUsed(s.blocks[b].nodes)
  }

  ghost predicate Valid(s: Space) {
    FreeRight(s) && UsedRight(s) && CountsRight(s)
  }

  lemma {:induction false} CountUpdate(nodes: seq<Node>, i: nat, n: Node)
    requires i < |nodes|
    ensures CountUsed(nodes[i := n]) == CountUsed(nodes) - Weight(nodes[i]) + Weight(n)
  {
    if i == 0 {
      assert nodes[i := n][1..] == nodes[1..];
    } else {
      CountUpdate(nodes[1..], i - 1, n);
      assert nodes[i := n][1..] == nodes[1..][i - 1 := n];
    }
  }

  lemma {:induction false} SumUpdate(blocks: seq<Block>, i: nat, b: Block)
    requires i < |blocks|
    ensures SumUsed(blocks[i := b]) == SumUsed(blocks) - blocks[i].usedNodes + b.usedNodes
  {
    if i == 0 {
      assert blocks[i := b][1..] == blocks[1..];
    } else {
      SumUpdate(blocks[1..], i - 1, b);
      assert blocks[i := b][1..] == blocks[1..][i - 1 := b];
    }
  }

  lemma {:induction false} SumAppend(blocks: seq<Block>, b: Block)
    ensures SumUsed(blocks + [b]) == SumUsed(blocks) + b.usedNodes
  {
    if blocks == [] {
      assert blocks + [b] == [b];
    } else {
      SumAppend(blocks[1..], b);
      assert (blocks + [b])[1..] == blocks[1..] + [b];
    }
  }

  lemma {:induction false} CountNone(nodes: seq<Node>)
    requires forall i :: 0 <= i < |nodes| ==> nodes[i].state == Free
    ensures CountUsed(nodes) == 0
  {
    if nodes != [] {
      CountNone(nodes[1..]);
    }
  }

  // ------------------------------------------------------------------ a new block

  /** The references to the nodes of block `b`, in order. */
  function RefsOf(b: nat): (s: seq<Ref>)
    ensures |s| == BLOCK_SIZE && forall i :: 0 <= i < BLOCK_SIZE ==> s[i] == Ref(b, i)
  {
    seq(BLOCK_SIZE, i requires 0 <= i < BLOCK_SIZE => Ref(b, i))
  }

  /** The nodes of a new block, threaded onto the free list. */
  ghost predicate Threaded(nodes: seq<Node>, b: nat, rest: Option<Ref>) {
    && |nodes| == BLOCK_SIZE
    && forall i :: 0 <= i < BLOCK_SIZE ==>
         nodes[i].state == Free && nodes[i].nextFree == if i + 1 < BLOCK_SIZE then Some(Ref(b, i + 1)) else rest
  }

  ghost function Grown(s: Space, nodes: seq<Node>): Space {
    var b := |s.blocks|;
    s.(blocks := s.blocks + [Block(nodes, 0, None, None)], firstFree := Some(Ref(b, 0)), free := RefsOf(b) + s.free)
  }

  lemma GrownValid(s: Space, nodes: seq<Node>)
    requires Valid(s) && Threaded(nodes, |s.blocks|, s.firstFree)
    ensures Valid(Grown(s, nodes))
  {
    var t, b := Grown(s, nodes), |s.blocks|;
    CountNone(nodes);
    SumAppend(s.blocks, Block(nodes, 0, None, None));
    GrownFree(s, nodes);
    forall k | 0 <= k < |t.used| ensures UsedAt(t, k) {
      assert UsedAt(s, k);
    }
    forall k | 0 <= k < |t.used| ensures t.used[k] != b {
      assert UsedAt(s, k);
    }
  }

  lemma GrownFree(s: Space, nodes: seq<Node>)
    requires FreeRight(s) && Threaded(nodes, |s.blocks|, s.firstFree)
    ensures FreeRight(Grown(s, nodes))
  {
    var t, b := Grown(s, nodes), |s.blocks|;
    forall k | 0 <= k < |s.free| ensures s.free[k].block < b {
      assert FreeAt(s, k);
    }
    forall k | 0 <= k < |t.free| ensures FreeAt(t, k) {
      if k >= BLOCK_SIZE { assert FreeAt(s, k - BLOCK_SIZE); }
    }
    forall r | Exists(t, r) && NodeAt(t, r).state == Free ensures r in t.free {
      if r.block == b { assert t.free[r.index] == r; } else { assert Exists(s, r) && r in s.free; }
    }
  }

  // ------------------------------------------------------------------ the list of used blocks

  /** Only links differ: the blocks of `s` and `t` have the same nodes and counts. */
  ghost predicate SameNodes(s: Space, t: Space) {
    && |t.blocks| == |s.blocks| && t.firstFree == s.firstFree && t.free == s.free && t.handles == s.handles
    && forall c :: 0 <= c < |s.blocks| ==>
         t.blocks[c].nodes == s.blocks[c].nodes && t.blocks[c].usedNodes == s.blocks[c].usedNodes
  }

  /** Puts block `b` in front of the list. */
  ghost function ListAdded(s: Space, b: nat): (t: Space)
    requires b < |s.blocks| && UsedLinked(s)
    ensures SameNodes(s, t)
  {
    assert s.used != [] ==> UsedAt(s, 0);
    var blocks := s.blocks[b := s.blocks[b].(nextUsed := s.firstUsed, prevUsed := None)];
    s.(blocks := if s.firstUsed.None? then blocks
                 else blocks[s.firstUsed.value := blocks[s.firstUsed.value].(prevUsed := Some(b))],
       firstUsed := Some(b), used := [b] + s.used)
  }

  lemma ListAddedLinked(s: Space, b: nat)
    requires UsedLinked(s) && b < |s.blocks| && b !in s.used
    ensures UsedLinked(ListAdded(s, b))
  {
    var t := ListAdded(s, b);
    assert s.used != [] ==> UsedAt(s, 0);
    forall k | 0 <= k < |t.used| ensures UsedAt(t, k) {
      if k > 0 { assert UsedAt(s, k - 1); }
    }
  }

  /** Takes block `b`, the k-th, out of the list. Its own links stay as they are. */
  ghost function ListRemoved(s: Space, b: nat, k: nat): (t: Space)
    requires UsedLinked(s) && k < |s.used| && s.used[k] == b
    ensures SameNodes(s, t)
  {
    assert UsedAt(s, k);
    var next, prev := s.blocks[b].nextUsed, s.blocks[b].prevUsed;
    assert next.Some? ==> UsedAt(s, k + 1);
    assert prev.Some? ==> UsedAt(s, k - 1);
    var one := if next.None? then s.blocks else s.blocks[next.value := s.blocks[next.value].(prevUsed := prev)];
    var two := if prev.None? then one else one[prev.value := one[prev.value].(nextUsed := next)];
    s.(blocks := two, firstUsed := if s.firstUsed == Some(b) then next else s.firstUsed, used := T.Without(s.used, k))
  }

  /** After the removal, the j-th block of the old list skips the k-th. */
  lemma ListRemovedSkips(s: Space, b: nat, k: nat, j: nat)
    requires UsedLinked(s) && k < |s.used| && s.used[k] == b && j < |s.used| && j != k
    ensures var t, c := ListRemoved(s, b, k), s.used[j];
      && c < |t.blocks|
      && t.blocks[c].nextUsed == At(s.used, if j + 1 == k then k + 1 else j + 1)
      && t.blocks[c].prevUsed == At(s.used, if j == k + 1 then k - 1 else j - 1)
  {
    assert UsedAt(s, k) && UsedAt(s, j);
    assert k + 1 < |s.used| ==> UsedAt(s, k + 1);
    assert k > 0 ==> UsedAt(s, k - 1);
  }

  lemma ListRemovedLinked(s: Space, b: nat, k: nat)
    requires UsedLinked(s) && k < |s.used| && s.used[k] == b
    ensures UsedLinked(ListRemoved(s, b, k))
    ensures forall c :: c in T.Without(s.used, k) <==> c in s.used && c != b
  {
    var t, u := ListRemoved(s, b, k), T.Without(s.used, k);
    T.DistinctWithout(s.used, k);
    forall c ensures c in u <==> c in s.used && c != b {
      T.InWithout(s.used, k, c);
    }
    forall j | 0 <= j < |u| ensures UsedAt(t, j) {
      ListRemovedSkips(s, b, k, if j < k then j else j + 1);
    }
    assert UsedAt(s, k);
    assert k > 0 ==> s.used[0] != b;
  }

  /** What the list does not look at may change. */
  lemma UsedLinkedKept(s: Space, t: Space)
    requires UsedLinked(s) && t.used == s.used && t.firstUsed == s.firstUsed && |t.blocks| >= |s.blocks|
    requires forall b :: 0 <= b < |s.blocks| ==>
      t.blocks[b].nextUsed == s.blocks[b].nextUsed && t.blocks[b].prevUsed == s.blocks[b].prevUsed
    ensures UsedLinked(t)
  {
    forall k | 0 <= k < |t.used| ensures UsedAt(t, k) {
      assert UsedAt(s, k);
    }
  }

  // ------------------------------------------------------------------ creating and destroying

  /** The node `r` gets new contents, and its block and the whole space a new count. */
  ghost function NodeSet(s: Space, r: Ref, n: Node, usedNodes: nat, handles: nat): Space
    requires Exists(s, r)
  {
    var b := s.blocks[r.block];
    s.(blocks := s.blocks[r.block := b.(nodes := b.nodes[r.index := n], usedNodes := usedNodes)], handles := handles)
  }

  function Weight(n: Node): nat { if n.state.Free? then 0 else 1 }

  /** The counts stay right when they change by as much as the node's use does. */
  lemma NodeSetCounts(s: Space, r: Ref, n: Node, usedNodes: nat, handles: nat)
    requires CountsRight(s) && Exists(s, r)
    requires usedNodes + Weight(NodeAt(s, r)) == s.blocks[r.block].usedNodes + Weight(n)
    requires handles + Weight(NodeAt(s, r)) == s.handles + Weight(n)
    ensures CountsRight(NodeSet(s, r, n, usedNodes, handles))
  {
    var t := NodeSet(s, r, n, usedNodes, handles);
    CountUpdate(s.blocks[r.block].nodes, r.index, n);
    SumUpdate(s.blocks, r.block, t.blocks[r.block]);
  }

  /** The first free node becomes a handle. */
  ghost function Taken(s: Space, n: Node): Space
    requires UsedLinked(s) && s.free != [] && Exists(s, s.free[0])
  {
    var t := TakenNode(s, n);
    UsedLinkedKept(s, t);
    if s.blocks[s.free[0].block].usedNodes == 0 then ListAdded(t, s.free[0].block) else t
  }

  /** Nodes and free list do not care about the links between blocks. */
  lemma FreeKept(s: Space, t: Space)
    requires FreeRight(s) && SameNodes(s, t)
    ensures FreeRight(t)
    ensures forall q :: Exists(s, q) <==> Exists(t, q)
    ensures forall q :: Exists(s, q) ==> NodeAt(t, q) == NodeAt(s, q)
  {
    forall k | 0 <= k < |t.free| ensures FreeAt(t, k) {
      assert FreeAt(s, k);
    }
  }

  lemma CountsKept(s: Space, t: Space)
    requires CountsRight(s) && SameNodes(s, t)
    ensures CountsRight(t)
  {
    SumSame(s.blocks, t.blocks);
  }

  /** Changing links changes no count. */
  lemma {:induction false} SumSame(a: seq<Block>, b: seq<Block>)
    requires |a| == |b| && forall i :: 0 <= i < |a| ==> a[i].usedNodes == b[i].usedNodes
    ensures SumUsed(a) == SumUsed(b)
  {
    if a != [] {
      SumSame(a[1..], b[1..]);
    }
  }

  /** The node set, before the list of used blocks is looked at. */
  ghost function TakenNode(s: Space, n: Node): Space
    requires s.free != [] && Exists(s, s.free[0])
  {
    var b := s.blocks[s.free[0].block];
    NodeSet(s, s.free[0], n, b.usedNodes + 1, s.handles + 1).(
      firstFree := NodeAt(s, s.free[0]).nextFree, free := s.free[1..])
  }

  lemma TakenNodeCounts(s: Space, n: Node)
    requires FreeRight(s) && CountsRight(s) && s.free != [] && !n.state.Free?
    ensures FreeAt(s, 0) && CountsRight(TakenNode(s, n))
  {
    assert FreeAt(s, 0);
    var u := NodeSet(s, s.free[0], n, s.blocks[s.free[0].block].usedNodes + 1, s.handles + 1);
    NodeSetCounts(s, s.free[0], n, s.blocks[s.free[0].block].usedNodes + 1, s.handles + 1);
    assert TakenNode(s, n).blocks == u.blocks;
  }

  lemma TakenNodeFree(s: Space, n: Node)
    requires FreeRight(s) && s.free != [] && !n.state.Free?
    ensures FreeAt(s, 0) && FreeRight(TakenNode(s, n))
  {
    var r := s.free[0];
    assert FreeAt(s, 0);
    var t := TakenNode(s, n);
    assert s.free == [r] + t.free;
    forall k | 0 <= k < |t.free| ensures FreeAt(t, k) {
      assert FreeAt(s, k + 1);
    }
    forall q | Exists(t, q) && NodeAt(t, q).state == Free ensures q in t.free {
      assert Exists(s, q) && NodeAt(s, q) == NodeAt(t, q);
    }
  }

  lemma TakenValid(s: Space, n: Node)
    requires Valid(s) && s.free != [] && !n.state.Free?
    ensures FreeAt(s, 0) && NodeAt(s, s.free[0]).state == Free
    ensures Valid(Taken(s, n)) && Exists(Taken(s, n), s.free[0]) && NodeAt(Taken(s, n), s.free[0]) == n
    ensures forall q :: Exists(s, q) && q != s.free[0] ==>
      Exists(Taken(s, n), q) && NodeAt(Taken(s, n), q) == NodeAt(s, q)
  {
    assert FreeAt(s, 0);
    var t, b := TakenNode(s, n), s.free[0].block;
    TakenNodeCounts(s, n);
    TakenNodeFree(s, n);
    UsedLinkedKept(s, t);
    if s.blocks[b].usedNodes == 0 {
      BlockListed(t, b);
    }
  }

  /** A block with its first node in use joins the list, and the space is in order again. */
  lemma BlockListed(t: Space, b: nat)
    requires FreeRight(t) && CountsRight(t) && UsedLinked(t) && b < |t.blocks| && b !in t.used
    requires forall c :: 0 <= c < |t.blocks| ==> (c in t.used || c == b <==> t.blocks[c].usedNodes > 0)
    ensures var u := ListAdded(t, b);
      && Valid(u) && (forall q :: Exists(t, q) <==> Exists(u, q))
      && (forall q :: Exists(t, q) ==> NodeAt(u, q) == NodeAt(t, q))
  {
    ListAddedLinked(t, b);
    FreeKept(t, ListAdded(t, b));
    CountsKept(t, ListAdded(t, b));
  }

  /** The handle `r` becomes the first free node. */
  ghost function ReleasedNode(s: Space, r: Ref): Space
    requires Exists(s, r) && s.blocks[r.block].usedNodes > 0 && s.handles > 0
  {
    NodeSet(s, r, Node(Free, 0, s.firstFree), s.blocks[r.block].usedNodes - 1, s.handles - 1).(
      firstFree := Some(r), free := [r] + s.free)
  }

  ghost function Released(s: Space, r: Ref): Space
    requires Exists(s, r) && s.blocks[r.block].usedNodes > 0 && s.handles > 0
    requires UsedLinked(s) && r.block in s.used
  {
    var t := ReleasedNode(s, r);
    UsedLinkedKept(s, t);
    if t.blocks[r.block].usedNodes == 0 then ListRemoved(t, r.block, T.IndexOf(t.used, r.block)) else t
  }

  lemma {:induction false} UsedAtLeastOne(nodes: seq<Node>, i: nat)
    requires i < |nodes| && !nodes[i].state.Free?
    ensures CountUsed(nodes) > 0
  {
    if i > 0 {
      UsedAtLeastOne(nodes[1..], i - 1);
    }
  }

  lemma {:induction false} SumAtLeast(blocks: seq<Block>, b: nat)
    requires b < |blocks|
    ensures SumUsed(blocks) >= blocks[b].usedNodes
  {
    if b > 0 {
      SumAtLeast(blocks[1..], b - 1);
    }
  }

  /** A node in use is counted, and its block is on the list. */
  lemma InUse(s: Space, r: Ref)
    requires UsedRight(s) && CountsRight(s) && Exists(s, r) && !NodeAt(s, r).state.Free?
    ensures s.blocks[r.block].usedNodes > 0 && s.handles > 0 && r.block in s.used
  {
    UsedAtLeastOne(s.blocks[r.block].nodes, r.index);
    SumAtLeast(s.blocks, r.block);
  }

  lemma ReleasedNodeRight(s: Space, r: Ref)
    requires FreeRight(s) && CountsRight(s) && Exists(s, r) && !NodeAt(s, r).state.Free?
    requires s.blocks[r.block].usedNodes > 0 && s.handles > 0
    ensures FreeRight(ReleasedNode(s, r)) && CountsRight(ReleasedNode(s, r))
  {
    ReleasedNodeFree(s, r);
    var n, c := Node(Free, 0, s.firstFree), s.blocks[r.block].usedNodes - 1;
    NodeSetCounts(s, r, n, c, s.handles - 1);
    assert ReleasedNode(s, r).blocks == NodeSet(s, r, n, c, s.handles - 1).blocks;
  }

  lemma ReleasedNodeFree(s: Space, r: Ref)
    requires FreeRight(s) && Exists(s, r) && !NodeAt(s, r).state.Free?
    requires s.blocks[r.block].usedNodes > 0 && s.handles > 0
    ensures FreeRight(ReleasedNode(s, r))
  {
    var t := ReleasedNode(s, r);
    forall k | 0 <= k < |s.free| ensures s.free[k] != r {
      assert FreeAt(s, k);
    }
    forall k | 0 <= k < |t.free| ensures FreeAt(t, k) {
      if k > 0 { assert FreeAt(s, k - 1); }
    }
    forall q | Exists(t, q) && NodeAt(t, q).state == Free ensures q in t.free {
      assert Exists(s, q) && (q != r ==> NodeAt(s, q) == NodeAt(t, q));
    }
  }

  lemma ReleasedValid(s: Space, r: Ref)
    requires Valid(s) && Exists(s, r) && !NodeAt(s, r).state.Free?
    ensures s.blocks[r.block].usedNodes > 0 && s.handles > 0 && r.block in s.used
    ensures Valid(Released(s, r)) && Exists(Released(s, r), r) && NodeAt(Released(s, r), r).state.Free?
    ensures forall q :: Exists(s, q) && q != r ==>
      Exists(Released(s, r), q) && NodeAt(Released(s, r), q) == NodeAt(s, q)
  {
    InUse(s, r);
    var t := ReleasedNode(s, r);
    ReleasedNodeRight(s, r);
    UsedLinkedKept(s, t);
    if t.blocks[r.block].usedNodes == 0 {
      var k := T.IndexOf(t.used, r.block);
      ListRemovedLinked(t, r.block, k);
      FreeKept(t, ListRemoved(t, r.block, k));
      CountsKept(t, ListRemoved(t, r.block, k));
    }
  }

  /** A handle gets another state or value. */
  ghost function Changed(s: Space, r: Ref, n: Node): Space
    requires Exists(s, r)
  {
    NodeSet(s, r, n, s.blocks[r.block].usedNodes, s.handles)
  }

  lemma ChangedValid(s: Space, r: Ref, n: Node)
    requires Valid(s) && Exists(s, r) && !NodeAt(s, r).state.Free? && !n.state.Free?
    ensures Valid(Changed(s, r, n)) && Exists(Changed(s, r, n), r) && NodeAt(Changed(s, r, n), r) == n
    ensures forall q :: Exists(s, q) && q != r ==>
      Exists(Changed(s, r, n), q) && NodeAt(Changed(s, r, n), q) == NodeAt(s, q)
  {
    NodeSetCounts(s, r, n, s.blocks[r.block].usedNodes, s.handles);
    UsedLinkedKept(s, Changed(s, r, n));
    ChangedFree(s, r, n);
  }

  lemma ChangedFree(s: Space, r: Ref, n: Node)
    requires FreeRight(s) && Exists(s, r) && !NodeAt(s, r).state.Free? && !n.state.Free?
    ensures FreeRight(Changed(s, r, n))
  {
    var t := Changed(s, r, n);
    forall k | 0 <= k < |t.free| ensures FreeAt(t, k) {
      assert FreeAt(s, k);
    }
    forall q | Exists(t, q) && NodeAt(t, q).state == Free ensures q in t.free {
      assert Exists(s, q) && (q != r ==> NodeAt(s, q) == NodeAt(t, q));
    }
  }

  // ------------------------------------------------------------------ visiting

  /** The wanted ones among the first `n` nodes of a block, in order. */
  ghost function WantedIn(nodes: seq<Node>, b: nat, n: nat, wanted: State -> bool): seq<Ref>
    requires n <= |nodes|
  {
    if n == 0 then []
    else WantedIn(nodes, b, n - 1, wanted) + if wanted(nodes[n - 1].state) then [Ref(b, n - 1)] else []
  }

  /** What an iteration over the first `k` used blocks meets. */
  ghost function Visits(s: Space, k: nat, wanted: State -> bool): seq<Ref>
    requires k <= |s.used| && forall j :: 0 <= j < k ==> s.used[j] < |s.blocks|
  {
    if k == 0 then []
    else
      var nodes := s.blocks[s.used[k - 1]].nodes;
      Visits(s, k - 1, wanted) + WantedIn(nodes, s.used[k - 1], |nodes|, wanted)
  }

  lemma {:induction false} WantedInExact(nodes: seq<Node>, b: nat, n: nat, wanted: State -> bool)
    requires n <= |nodes|
    ensures Distinct(WantedIn(nodes, b, n, wanted))
    ensures forall r ::
      r in WantedIn(nodes, b, n, wanted) <==> r.block == b && r.index < n && wanted(nodes[r.index].state)
  {
    if n > 0 {
      WantedInExact(nodes, b, n - 1, wanted);
    }
  }

  lemma {:induction false} VisitsExact(s: Space, k: nat, wanted: State -> bool)
    requires UsedLinked(s) && k <= |s.used| && forall j :: 0 <= j < k ==> s.used[j] < |s.blocks|
    ensures Distinct(Visits(s, k, wanted))
    ensures forall r ::
      r in Visits(s, k, wanted) <==> r.block in s.used[..k] && Exists(s, r) && wanted(NodeAt(s, r).state)
  {
    if k > 0 {
      VisitsExact(s, k - 1, wanted);
      var b := s.used[k - 1];
      var nodes := s.blocks[b].nodes;
      WantedInExact(nodes, b, |nodes|, wanted);
      assert s.used[..k] == s.used[..k - 1] + [b];
      assert b !in s.used[..k - 1];
      var before, here := Visits(s, k - 1, wanted), WantedIn(nodes, b, |nodes|, wanted);
      forall i, j | 0 <= i < |before| && 0 <= j < |here| ensures before[i] != here[j] {
        assert before[i] in before && here[j] in here;
      }
    }
  }

  /** An iteration over the used blocks meets every wanted handle exactly once. */
  lemma EveryHandleVisitedOnce(s: Space, wanted: State -> bool)
    requires Valid(s) && !wanted(Free)
    ensures forall j :: 0 <= j < |s.used| ==> s.used[j] < |s.blocks|
    ensures var v := Visits(s, |s.used|, wanted);
      Distinct(v) && forall r :: r in v <==> Exists(s, r) && wanted(NodeAt(s, r).state)
  {
    forall j | 0 <= j < |s.used| ensures s.used[j] < |s.blocks| {
      assert UsedAt(s, j);
    }
    VisitsExact(s, |s.used|, wanted);
    assert s.used[..|s.used|] == s.used;
    forall r | Exists(s, r) && wanted(NodeAt(s, r).state) ensures r.block in s.used {
      InUse(s, r);
    }
  }

  lemma UsedBounds(s: Space)
    requires UsedLinked(s)
    ensures forall j :: 0 <= j < |s.used| ==> s.used[j] < |s.blocks|
  {
    forall j | 0 <= j < |s.used| ensures s.used[j] < |s.blocks| {
      assert UsedAt(s, j);
    }
  }

  /** What an iteration has met when it stands at node `i` of the k-th used block. */
  ghost function Met(s: Space, k: nat, i: nat, wanted: State -> bool): seq<Ref>
    requires UsedLinked(s) && CountsRight(s) && k <= |s.used| && i <= BLOCK_SIZE
  {
    UsedBounds(s);
    Visits(s, k, wanted) + if k < |s.used| then WantedIn(s.blocks[s.used[k]].nodes, s.used[k], i, wanted) else []
  }

  lemma MetOneMore(s: Space, k: nat, i: nat, wanted: State -> bool)
    requires UsedLinked(s) && CountsRight(s) && k < |s.used| && i < BLOCK_SIZE
    ensures UsedAt(s, k)
    ensures var b := s.used[k];
      Met(s, k, i + 1, wanted) ==
        if wanted(s.blocks[b].nodes[i].state) then Met(s, k, i, wanted) + [Ref(b, i)] else Met(s, k, i, wanted)
  {
    assert UsedAt(s, k);
  }

  /** The iterator stands at node `i` of block `b`, the k-th on the list, or has passed the last block. */
  ghost predicate ScanAt(s: Space, b: Option<nat>, k: nat, i: nat) {
    k <= |s.used| && b == At(s.used, k) && i < BLOCK_SIZE && (k == |s.used| ==> i == 0)
  }

  /** One step of the iterator. */
  lemma ScanStep(s: Space, b: nat, k: nat, i: nat, wanted: State -> bool)
    requires UsedLinked(s) && CountsRight(s) && ScanAt(s, Some(b), k, i)
    ensures k < |s.used| && b < |s.blocks| && |s.blocks[b].nodes| == BLOCK_SIZE
    ensures var met := Met(s, k, i, wanted) + if wanted(s.blocks[b].nodes[i].state) then [Ref(b, i)] else [];
      if i + 1 < BLOCK_SIZE then ScanAt(s, Some(b), k, i + 1) && Met(s, k, i + 1, wanted) == met
      else ScanAt(s, s.blocks[b].nextUsed, k + 1, 0) && Met(s, k + 1, 0, wanted) == met
  {
    assert UsedAt(s, k);
    MetOneMore(s, k, i, wanted);
    if i + 1 == BLOCK_SIZE { MetNextBlock(s, k, wanted); }
  }

  lemma MetNextBlock(s: Space, k: nat, wanted: State -> bool)
    requires UsedLinked(s) && CountsRight(s) && k < |s.used|
    ensures Met(s, k + 1, 0, wanted) == Met(s, k, BLOCK_SIZE, wanted)
  {
    UsedBounds(s);
    assert Met(s, k + 1, 0, wanted) == Visits(s, k + 1, wanted);
  }
}
