/**
 What the marking and sweeping protocol guarantees over every run: no reachable object is ever
 freed, the remark leaves nothing unvisited, every node has one owner, and every obligation to
 visit an object is kept in one place. The statements look only at the state itself, not at its
 bookkeeping components `owner` and `place`.
 */
module MarkingSafety {
  import opened Collections
  import opened Marking
  import MI = MarkingInv

  // ------------------------------------------------------------------ reachability

  ghost predicate PointsTo(s: State, o: Obj, p: Obj) {
    o in s.heap && p != 0 && p in s.heap[o]
  }

  /** A chain of pointers that starts in a root. */
  ghost predicate Chain(s: State, path: seq<Obj>) {
    && path != [] && path[0] != 0 && path[0] in s.roots
    && forall i :: 0 < i < |path| ==> PointsTo(s, path[i - 1], path[i])
  }

  ghost predicate Reachable(s: State, o: Obj) {
    exists path :: Chain(s, path) && path[|path| - 1] == o
  }

  lemma {:induction false} ChainInHeap(s: State, path: seq<Obj>, i: nat)
    requires MI.Inv(s) && Chain(s, path) && i < |path|
    ensures path[i] in s.heap && (s.phase == Epilogue || s.phase == Sweep ==> path[i] in s.marked)
  {
    if i > 0 {
      ChainInHeap(s, path, i - 1);
      assert PointsTo(s, path[i - 1], path[i]);
      if s.phase == Sweep || s.phase == Epilogue {
        assert MI.DoneRight(s, path[i - 1]);
      }
    }
  }

  /** In every state of every run, whatever the mutator can reach is still allocated. */
  lemma ReachableIsAllocated(states: seq<State>, i: nat, o: Obj)
    requires Run(states) && i < |states| && Reachable(states[i], o)
    ensures o in states[i].heap
  {
    MI.RunInv(states, i);
    var path :| Chain(states[i], path) && path[|path| - 1] == o;
    ChainInHeap(states[i], path, |path| - 1);
  }

  lemma MutatorFreesNothing(s: State, st: Step, s': State)
    requires MutatorStep(s, st, s')
    ensures s.heap.Keys <= s'.heap.Keys
    ensures !st.Alloc? ==> s'.heap.Keys == s.heap.Keys
  {
    match st
    case Alloc(i, a, n) => assert s'.heap == DoAlloc(s, i, a, n).heap;
    case Store(j, f, k) => assert s'.heap == DoStore(s, j, f, k).heap;
    case BarrierMark => assert s'.heap == DoBarrierMark(s).heap;
    case _ =>
  }

  lemma WorkersLeaveTheHeap(s: State, st: Step, s': State)
    requires WorkerStep(s, st, s')
    ensures s'.heap == s.heap
  {
    match st
    case TakeTask(w) => assert s'.heap == DoTakeTask(s, w).heap;
    case ScanMark(w) => assert s'.heap == DoScanMark(s, w).heap;
    case ReadField(w) => assert s'.heap == DoReadField(s, w).heap;
    case FinishNode(w) => assert s'.heap == DoFinishNode(s, w).heap;
    case _ =>
  }

  lemma OnlySweepFrees(s: State, st: Step, s': State)
    requires MainStep(s, st, s')
    ensures s'.heap == s.heap || (s.phase == Sweep && s'.heap == s.heap - (s.heap.Keys - s'.heap.Keys)
      && s.heap.Keys - s'.heap.Keys !! s.marked)
    ensures !st.SweepOne? ==> s'.heap == s.heap
  {
  }

  /** An object that a step takes out of the heap could not be reached any more before the step. */
  lemma OnlyGarbageIsFreed(states: seq<State>, i: nat, o: Obj)
    requires Run(states) && i + 1 < |states| && o in states[i].heap && o !in states[i + 1].heap
    ensures !Reachable(states[i], o)
  {
    MI.RunInv(states, i);
    var s, s' := states[i], states[i + 1];
    assert Next(s, s');
    var st :| MutatorStep(s, st, s') || WorkerStep(s, st, s') || MainStep(s, st, s');
    if MutatorStep(s, st, s') {
      MutatorFreesNothing(s, st, s');
    } else if WorkerStep(s, st, s') {
      WorkersLeaveTheHeap(s, st, s');
    } else {
      OnlySweepFrees(s, st, s');
    }
    if Reachable(s, o) {
      var path :| Chain(s, path) && path[|path| - 1] == o;
      ChainInHeap(s, path, |path| - 1);
    }
  }

  /** A sweep that is over has freed exactly the unmarked objects. */
  lemma SweepIsExact(states: seq<State>, i: nat)
    requires Run(states) && i < |states| && states[i].phase == Sweep && states[i].toSweep == {}
    ensures states[i].heap.Keys == states[i].marked
  {
    MI.RunInv(states, i);
  }

  // ------------------------------------------------------------------ the end of the remark

  lemma {:induction false} ChainMarked(s: State, path: seq<Obj>, i: nat)
    requires MI.Inv(s) && s.phase == Remark && Finished(s) && Chain(s, path) && i < |path|
    ensures path[i] in s.marked
  {
    MI.RemarkDrains(s);
    if i == 0 {
      assert !MI.Awaits(s, path[0]);
    } else {
      ChainMarked(s, path, i - 1);
      assert PointsTo(s, path[i - 1], path[i]) && MI.DoneRight(s, path[i - 1]);
    }
  }

  /**
   When the pool falls quiet in the remark, every reachable object is marked, and no node, no
   worker and no half-done barrier still holds an object to visit.
   */
  lemma RemarkIsComplete(states: seq<State>, i: nat)
    requires Run(states) && i < |states| && states[i].phase == Remark && Finished(states[i])
    ensures var s := states[i];
      && (forall o :: Reachable(s, o) ==> o in s.marked)
      && (forall id :: id in s.contents ==> s.contents[id] == [])
      && (forall w :: 0 <= w < |s.workers| ==> s.workers[w].hand == 0)
      && s.retired == [] && s.barrier == None && s.pc == NoBarrier
  {
    MI.RunInv(states, i);
    var s := states[i];
    MI.RemarkDrains(s);
    forall o | Reachable(s, o) ensures o in s.marked {
      var path :| Chain(s, path) && path[|path| - 1] == o;
      ChainMarked(s, path, |path| - 1);
    }
    forall w | 0 <= w < |s.workers| ensures s.workers[w].hand == 0 {
      assert MI.WorkerRight(s, w);
    }
  }

  // ------------------------------------------------------------------ one owner per node

  /** `h` names a place of the state that holds node `id`. */
  ghost predicate Holds(s: State, id: NodeId, h: Owner) {
    match h
    case OwnFree(i) => i < |s.free| && s.free[i] == id
    case OwnRetired(i) => i < |s.retired| && s.retired[i] == id
    case OwnIn(w) => w < |s.workers| && s.workers[w].inn == Some(id)
    case OwnOut(w) => w < |s.workers| && s.workers[w].out == Some(id)
    case OwnRun(w) =>
      && w < |s.workers| && s.workers[w].mode.Visiting?
      && s.workers[w].mode.node == id && s.workers[w].out != Some(id)
    case OwnBarrier => s.barrier == Some(id)
  }

  /** In every state of every run, each node is in one place, and nothing but nodes is held anywhere. */
  lemma EachNodeHasOneOwner(states: seq<State>, i: nat, id: NodeId)
    requires Run(states) && i < |states|
    ensures id in states[i].contents ==> exists h :: Holds(states[i], id, h)
    ensures forall h :: Holds(states[i], id, h) ==> id in states[i].contents
    ensures forall h, g :: Holds(states[i], id, h) && Holds(states[i], id, g) ==> h == g
  {
    MI.RunInv(states, i);
    var s := states[i];
    if id in s.contents {
      assert MI.OwnedRight(s, id);
      assert Holds(s, id, s.owner[id]);
    }
    forall h | Holds(s, id, h) ensures id in s.contents && s.owner[id] == h {
      match h
      case OwnIn(w) => assert MI.HeldByWorker(s, w);
      case OwnOut(w) => assert MI.HeldByWorker(s, w);
      case OwnRun(w) => assert MI.HeldByWorker(s, w);
      case _ =>
    }
  }

  // ------------------------------------------------------------------ one place per obligation

  /** Entry `i` of node `id` is still to be visited: no worker is past it. */
  ghost predicate PendingEntry(s: State, id: NodeId, i: nat) {
    && id in s.contents && i < |s.contents[id]|
    && forall w :: 0 <= w < |s.workers| && s.workers[w].mode.Visiting? && s.workers[w].mode.node == id ==>
         s.workers[w].mode.k <= i
  }

  /** `p` names a place of the state that leads to a visit of `o`. */
  ghost predicate WillVisit(s: State, o: Obj, p: Place) {
    match p
    case InNode(id, i) => PendingEntry(s, id, i) && s.contents[id][i] == o
    case InHand(w) => w < |s.workers| && s.workers[w].hand == o && o != 0
    case InMutator => s.pc == ToPush(o)
    case Done => false
  }

  /** Every field of `o` leads to a marked object, or to the one that the write barrier is marking. */
  ghost predicate FieldsMarked(s: State, o: Obj) {
    o in s.heap && forall p :: p in s.heap[o] && p != 0 ==> p in s.marked || s.pc == ToMark(p)
  }

  /**
   In every state of every run, an object waits for its visit in at most one place, and only marked
   objects wait; a marked object that waits nowhere has no field that leads to an unmarked object,
   save the one that the write barrier is about to mark.
   */
  lemma EachVisitIsDueOnce(states: seq<State>, i: nat, o: Obj)
    requires Run(states) && i < |states|
    ensures forall p :: WillVisit(states[i], o, p) ==> o in states[i].marked
    ensures forall p, q :: WillVisit(states[i], o, p) && WillVisit(states[i], o, q) ==> p == q
    ensures o in states[i].marked && (forall p :: !WillVisit(states[i], o, p)) ==> FieldsMarked(states[i], o)
  {
    MI.RunInv(states, i);
    var s := states[i];
    forall p | WillVisit(s, o, p) ensures o in s.marked && s.place[o] == p {
      if p.InNode? {
        StartIsFirstPending(s, p.id);
        assert MI.EntryRight(s, p.id, p.i);
      }
    }
    if o in s.marked && forall p :: !WillVisit(s, o, p) {
      assert MI.PlacedRight(s, o) && !WillVisit(s, o, s.place[o]);
      if s.place[o].InNode? { StartIsFirstPending(s, s.place[o].id); }
      assert s.place[o] == Done && MI.DoneRight(s, o);
    }
  }

  lemma StartIsFirstPending(s: State, id: NodeId)
    requires MI.Inv(s) && id in s.contents
    ensures forall i: nat :: PendingEntry(s, id, i) <==> i < |s.contents[id]| && MI.Start(s, id) <= i
  {
    assert MI.OwnedRight(s, id);
    forall w | 0 <= w < |s.workers| && s.workers[w].mode.Visiting? && s.workers[w].mode.node == id
      ensures MI.Start(s, id) == s.workers[w].mode.k
    {
      MI.StartOfVisit(s, w);
    }
  }

  // ------------------------------------------------------------------ capacity and progress

  /** No node holds more entries than it has room for. */
  ghost predicate NodesFit(s: State) {
    forall id :: id in s.contents ==> |s.contents[id]| <= NODE_CAPACITY
  }

  lemma MutatorNodesFit(s: State, st: Step, s': State)
    requires NodesFit(s) && MutatorStep(s, st, s')
    ensures NodesFit(s')
  {
    match st
    case BarrierPush => assert s'.contents == s.contents[s.barrier.value := s'.contents[s.barrier.value]];
    case CreateNode(id) => assert s'.contents == s.contents[id := []];
    case _ =>
  }

  lemma WorkerNodesFit(s: State, st: Step, s': State)
    requires NodesFit(s) && WorkerStep(s, st, s')
    ensures NodesFit(s')
  {
    match st
    case PushObj(w) => assert s'.contents == s.contents[s.workers[w].inn.value := s'.contents[s.workers[w].inn.value]];
    case FinishNode(w) => assert s'.contents == s.contents[s.workers[w].mode.node := []];
    case _ =>
  }

  lemma MainNodesFit(s: State, st: Step, s': State)
    requires NodesFit(s) && MainStep(s, st, s')
    ensures NodesFit(s')
  {
    assert s'.contents == s.contents;
  }

  /** In every state of every run, no push has ever overflowed a node. */
  lemma {:induction false} NoNodeOverflows(states: seq<State>, i: nat)
    requires Run(states) && i < |states|
    ensures NodesFit(states[i])
  {
    if i > 0 {
      NoNodeOverflows(states, i - 1);
      assert Next(states[i - 1], states[i - 1 + 1]);
      var st :| MutatorStep(states[i - 1], st, states[i]) || WorkerStep(states[i - 1], st, states[i]) ||
        MainStep(states[i - 1], st, states[i]);
      if MutatorStep(states[i - 1], st, states[i]) {
        MutatorNodesFit(states[i - 1], st, states[i]);
      } else if WorkerStep(states[i - 1], st, states[i]) {
        WorkerNodesFit(states[i - 1], st, states[i]);
      } else {
        MainNodesFit(states[i - 1], st, states[i]);
      }
    }
  }

  /** Worker `w` can take some step. */
  ghost predicate CanMoveOn(s: State, w: nat) {
    || CanTakeTask(s, w) || CanScanMark(s, w) || CanScanRetire(s, w) || CanScanDone(s, w) || CanPushRetire(s, w)
    || CanGetIn(s, w, false) || CanPushObj(s, w) || CanFetchIn(s, w) || CanFetchRetired(s, w) || CanFetchNothing(s, w)
    || CanReadField(s, w) || CanNextEntry(s, w) || CanFinishNode(s, w)
  }

  lemma BusyWorkerMovesOn(s: State, w: nat)
    requires MI.Inv(s) && NodesFit(s) && WorkersRun(s.phase) && w < |s.workers| && s.workers[w].mode != Idle
    requires s.free != []
    ensures CanMoveOn(s, w)
  {
    assert MI.WorkerRight(s, w) && MI.HeldByWorker(s, w) && MI.VisitRight(s, w);
    var wk := s.workers[w];
    if wk.hand == 0 && wk.mode.Visiting? && wk.mode.k < |s.contents[wk.mode.node]| {
      assert MI.EntryRight(s, wk.mode.node, wk.mode.k);
    }
  }

  /**
   Marking never gets stuck: while the pool is not quiet, some worker can take a step, provided
   the free list has been topped up.
   */
  lemma MarkingMovesOn(states: seq<State>, i: nat)
    requires Run(states) && i < |states| && WorkersRun(states[i].phase) && !Quiet(states[i])
    requires states[i].free != []
    ensures exists w :: CanMoveOn(states[i], w)
  {
    MI.RunInv(states, i);
    NoNodeOverflows(states, i);
    var s := states[i];
    if forall w :: 0 <= w < |s.workers| ==> s.workers[w].mode == Idle {
      assert CanTakeTask(s, 0) && CanMoveOn(s, 0);
    } else {
      var w :| 0 <= w < |s.workers| && s.workers[w].mode != Idle;
      BusyWorkerMovesOn(s, w);
    }
  }
}
