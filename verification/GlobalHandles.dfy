/**
 The global handles as the code that changes nodes, blocks and lists, step by step.
 */
module GlobalHandleTable {
  import opened Collections
  import opened HS = HandleSpaces
  import T = ThreeTierLists

  class GlobalHandles {
    var blocks: seq<Block>
    var firstUsed: Option<nat>
    var firstFree: Option<Ref>
    var handles: nat
    var hasCallbacks: bool
    ghost var free: seq<Ref>
    ghost var used: seq<nat>

    ghost function S(): Space
      reads this
    {
      Space(blocks, firstUsed, firstFree, handles, free, used)
    }

    /** `r` is a handle that was created and not destroyed. */
    ghost predicate IsHandle(r: Ref)
      reads this
    {
      Exists(S(), r) && !NodeAt(S(), r).state.Free?
    }

    constructor ()
      ensures Valid(S()) && handles == 0 && forall r :: !IsHandle(r)
    {
      blocks, firstUsed, firstFree, handles, hasCallbacks, free, used := [], None, None, 0, false, [], [];
    }

    // ---------------------------------------------------------------- creating

    /** A new handle; it is none of the existing ones, and they are as before. */
    method Create(value: nat, weak: bool) returns (r: Ref)
      requires Valid(S())
      modifies this
      ensures Valid(S()) && IsHandle(r) && !old(IsHandle(r))
      ensures NodeAt(S(), r).state == (if weak then Weak else Normal) && NodeAt(S(), r).value == value
      ensures forall q :: old(IsHandle(q)) ==> IsHandle(q) && NodeAt(S(), q) == old(NodeAt(S(), q))
      ensures forall q :: IsHandle(q) && q != r ==> old(IsHandle(q))
    {
      if firstFree.None? {
        NewBlock();
      }
      r := Publish(Node(if weak then Weak else Normal, value, None));
    }

    /** A new block, with all its nodes on the free list. */
    method NewBlock()
      requires Valid(S()) && firstFree.None?
      modifies `blocks, `firstFree, `free
      ensures Valid(S()) && firstFree.Some? && free != []
      ensures forall q :: old(IsHandle(q)) ==> IsHandle(q) && NodeAt(S(), q) == old(NodeAt(S(), q))
      ensures forall q :: IsHandle(q) ==> old(IsHandle(q))
    {
      var b := |blocks|;
      var nodes := PutNodesOnFreeList(b);
      GrownValid(S(), nodes);
      blocks := blocks + [Block(nodes, 0, None, None)];
      firstFree := Some(Ref(b, 0));
      free := RefsOf(b) + free;
      assert S() == Grown(old(S()), nodes);
    }

    /** The nodes of block `b`, threaded in front of the free list. */
    method PutNodesOnFreeList(b: nat) returns (nodes: seq<Node>)
      ensures Threaded(nodes, b, firstFree)
    {
      nodes := [];
      var first := firstFree;
      for i := BLOCK_SIZE downto 0
        invariant |nodes| == BLOCK_SIZE - i
        invariant first == if i < BLOCK_SIZE then Some(Ref(b, i)) else firstFree
        invariant forall j :: 0 <= j < |nodes| ==>
          && nodes[j].state == Free
          && nodes[j].nextFree == if i + j + 1 < BLOCK_SIZE then Some(Ref(b, i + j + 1)) else firstFree
      {
        nodes := [Node(Free, 0, first)] + nodes;
        first := Some(Ref(b, i));
      }
    }

    /** The first free node gets these contents. */
    method Publish(n: Node) returns (r: Ref)
      requires Valid(S()) && firstFree.Some? && !n.state.Free?
      modifies `blocks, `firstUsed, `firstFree, `handles, `free, `used
      ensures old(free != [] && Exists(S(), free[0])) && r == old(free[0]) && S() == Taken(old(S()), n)
      ensures Valid(S()) && IsHandle(r) && !old(IsHandle(r)) && NodeAt(S(), r) == n
      ensures forall q :: old(IsHandle(q)) ==> IsHandle(q) && NodeAt(S(), q) == old(NodeAt(S(), q))
      ensures forall q :: IsHandle(q) && q != r ==> old(IsHandle(q))
    {
      TakenValid(S(), n);
      TakenOnlyOne(S(), n);
      UsedLinkedKept(S(), TakenNode(S(), n));
      var isFirst;
      r, isFirst := TakeNode(n);
      if isFirst {
        ListAdd(r.block);
      }
    }

    /** Takes the first free node; `isFirst` says that its block was not in use before. */
    method TakeNode(n: Node) returns (r: Ref, isFirst: bool)
      requires Valid(S()) && firstFree.Some?
      modifies `blocks, `firstFree, `handles, `free
      ensures old(free != [] && Exists(S(), free[0])) && r == old(free[0]) && S() == TakenNode(old(S()), n)
      ensures isFirst <==> old(blocks[free[0].block].usedNodes) == 0
    {
      r := firstFree.value;
      assert FreeAt(S(), 0) && r == free[0];
      var b := blocks[r.block];
      firstFree := b.nodes[r.index].nextFree;
      free := free[1..];
      handles := handles + 1;
      blocks := blocks[r.block := b.(nodes := b.nodes[r.index := n], usedNodes := b.usedNodes + 1)];
      assert S() == TakenNode(old(S()), n);
      isFirst := b.usedNodes == 0;
    }

    method ListAdd(b: nat)
      requires b < |blocks| && UsedLinked(S())
      modifies `blocks, `firstUsed, `used
      ensures S() == ListAdded(old(S()), b)
    {
      assert used != [] ==> UsedAt(S(), 0);
      var oldTop := firstUsed;
      firstUsed := Some(b);
      blocks := blocks[b := blocks[b].(nextUsed := oldTop, prevUsed := None)];
      if oldTop.Some? {
        blocks := blocks[oldTop.value := blocks[oldTop.value].(prevUsed := Some(b))];
      }
      used := [b] + used;
    }

    // ---------------------------------------------------------------- destroying

    /** Destroys a handle; the others are as before. */
    method Destroy(r: Ref)
      requires Valid(S()) && IsHandle(r)
      modifies this
      ensures Valid(S()) && !IsHandle(r) && handles == old(handles) - 1
      ensures forall q :: q != r ==> (IsHandle(q) <==> old(IsHandle(q)))
      ensures forall q :: q != r && IsHandle(q) ==> old(IsHandle(q)) && NodeAt(S(), q) == old(NodeAt(S(), q))
    {
      ReleasedValid(S(), r);
      var b := blocks[r.block];
      blocks := blocks[r.block := b.(nodes := b.nodes[r.index := Node(Free, 0, firstFree)],
                                     usedNodes := b.usedNodes - 1)];
      firstFree := Some(r);
      free := [r] + free;
      handles := handles - 1;
      assert S() == ReleasedNode(old(S()), r);
      if b.usedNodes - 1 == 0 {
        UsedLinkedKept(old(S()), S());
        ListRemove(r.block);
      }
      assert S() == Released(old(S()), r);
      ReleasedOnlyOne(old(S()), r);
    }

    /** Unlinks a block; its own links stay, as nothing reads them any more. */
    method ListRemove(b: nat)
      requires UsedLinked(S()) && b in used && b < |blocks|
      modifies `blocks, `firstUsed, `used
      ensures S() == ListRemoved(old(S()), b, T.IndexOf(old(used), b))
    {
      ghost var k := T.IndexOf(used, b);
      assert UsedAt(S(), k);
      var next, prev := blocks[b].nextUsed, blocks[b].prevUsed;
      assert next.Some? ==> UsedAt(S(), k + 1);
      assert prev.Some? ==> UsedAt(S(), k - 1);
      if next.Some? {
        blocks := blocks[next.value := blocks[next.value].(prevUsed := prev)];
      }
      if prev.Some? {
        blocks := blocks[prev.value := blocks[prev.value].(nextUsed := next)];
      }
      if firstUsed == Some(b) {
        firstUsed := next;
      }
      used := T.Without(used, k);
    }

    // ---------------------------------------------------------------- states

    method SetState(r: Ref, state: State)
      requires Valid(S()) && IsHandle(r) && !state.Free?
      modifies `blocks
      ensures Valid(S()) && S() == Changed(old(S()), r, old(NodeAt(S(), r)).(state := state))
      ensures forall q :: IsHandle(q) <==> old(IsHandle(q))
    {
      var b := blocks[r.block];
      ChangedValid(S(), r, b.nodes[r.index].(state := state));
      blocks := blocks[r.block := b.(nodes := b.nodes[r.index := b.nodes[r.index].(state := state)])];
      assert S() == Changed(old(S()), r, old(NodeAt(S(), r)).(state := state));
    }

    /** Makes a handle weak, with a callback for when its object dies. */
    method SetWeak(r: Ref)
      requires Valid(S()) && IsHandle(r)
      modifies `blocks, `hasCallbacks
      ensures Valid(S()) && S() == Changed(old(S()), r, old(NodeAt(S(), r)).(state := Weak)) && hasCallbacks
    {
      SetState(r, Weak);
      hasCallbacks := true;
    }

    method ClearWeak(r: Ref)
      requires Valid(S()) && IsHandle(r)
      modifies `blocks
      ensures Valid(S()) && S() == Changed(old(S()), r, old(NodeAt(S(), r)).(state := Normal))
    {
      SetState(r, Normal);
    }

    // ---------------------------------------------------------------- scanning

    /** Visits every strong handle, and every weak one if `markWeak`, exactly once. */
    method CollectAllRoots(markWeak: bool) returns (visited: seq<Ref>)
      requires Valid(S())
      ensures Distinct(visited)
      ensures forall r :: r in visited <==> Exists(S(), r) && Retains(NodeAt(S(), r).state, markWeak)
    {
      if handles == 0 {
        NoHandles(S());
        return [];
      }
      visited := Scan(markWeak);
      EveryHandleVisitedOnce(S(), st => Retains(st, markWeak));
    }

    /** The iteration over the used blocks. */
    method Scan(markWeak: bool) returns (visited: seq<Ref>)
      requires UsedLinked(S()) && CountsRight(S())
      ensures visited == Met(S(), |used|, 0, st => Retains(st, markWeak))
    {
      visited := [];
      var block := firstUsed;
      var index: nat := 0;
      ghost var k: nat := 0;
      while block.Some?
        invariant ScanAt(S(), block, k, index)
        invariant visited == Met(S(), k, index, st => Retains(st, markWeak))
        decreases |used| - k, BLOCK_SIZE - index
      {
        ScanStep(S(), block.value, k, index, st => Retains(st, markWeak));
        if Retains(blocks[block.value].nodes[index].state, markWeak) {
          visited := visited + [Ref(block.value, index)];
        }
        index := index + 1;
        if index == BLOCK_SIZE {
          index := 0;
          block := blocks[block.value].nextUsed;
          k := k + 1;
        }
      }
    }
  }

  /** A handle that keeps its object alive: a strong one, or a weak one where weak ones count. */
  predicate Retains(st: State, markWeak: bool) {
    st.Normal? || (markWeak && st.Weak?)
  }

  lemma NoHandles(s: Space)
    requires Valid(s) && s.handles == 0
    ensures forall r :: Exists(s, r) ==> NodeAt(s, r).state.Free?
  {
    forall r | Exists(s, r) ensures NodeAt(s, r).state.Free? {
      if !NodeAt(s, r).state.Free? { InUse(s, r); }
    }
  }

  /** No handle but the taken one appears. */
  lemma TakenOnlyOne(s: Space, n: Node)
    requires Valid(s) && s.free != [] && !n.state.Free?
    ensures FreeAt(s, 0)
    ensures forall q :: Exists(Taken(s, n), q) ==> Exists(s, q)
  {
    assert FreeAt(s, 0);
  }

  lemma ReleasedOnlyOne(s: Space, r: Ref)
    requires Valid(s) && Exists(s, r) && !NodeAt(s, r).state.Free?
    ensures s.blocks[r.block].usedNodes > 0 && s.handles > 0 && r.block in s.used
    ensures forall q :: Exists(Released(s, r), q) ==> Exists(s, q)
  {
    ReleasedValid(s, r);
  }
}
