/**
 The invariant of the marking protocol, and that every step keeps it.
 */
module MarkingInv {
  import opened Collections
  import opened Marking

  // ------------------------------------------------------------------ heap

  ghost predicate HeapClosed(s: State) {
    forall o, f :: o in s.heap && 0 <= f < |s.heap[o]| && s.heap[o][f] != 0 ==> s.heap[o][f] in s.heap
  }

  ghost predicate InvHeap(s: State) {
    && 0 !in s.heap && s.marked <= s.heap.Keys
    && (forall i :: 0 <= i < |s.roots| && s.roots[i] != 0 ==> s.roots[i] in s.heap)
    && (s.phase != Sweep ==> HeapClosed(s))
    && (s.pc.ToMark? ==> s.pc.v != 0 && s.pc.v in s.heap)
    && (s.phase == Resting || s.phase == Prologue ==> s.marked == {})
    && (s.phase == Sweep ==>
      && s.toSweep <= s.heap.Keys
      && forall o :: o in s.heap ==> o in s.marked || o in s.toSweep)
  }

  // ------------------------------------------------------------------ colours

  /** A marked target, or one that the mutator is about to mark. */
  ghost predicate Shaded(s: State, v: Obj) {
    v == 0 || v in s.marked || s.pc == ToMark(v)
  }

  /** None of the first `n` fields of `o` leads to a white object. */
  ghost predicate FieldsShaded(s: State, o: Obj, n: nat)
    requires o in s.heap
  {
    n <= |s.heap[o]| && forall f :: 0 <= f < n ==> Shaded(s, s.heap[o][f])
  }

  ghost predicate DoneRight(s: State, o: Obj) {
    o in s.heap && o in s.place && s.place[o] == Done ==> FieldsShaded(s, o, |s.heap[o]|)
  }

  ghost predicate VisitRight(s: State, w: nat)
    requires w < |s.workers|
  {
    InVisit(s, w) ==> FieldsShaded(s, Visited(s, w), s.workers[w].mode.field)
  }

  /** No finished object, and no finished field of an object being visited, leads to a white object. */
  ghost predicate InvColour(s: State) {
    && (forall o {:trigger DoneRight(s, o)} {:trigger o in s.marked} :: o in s.marked ==> DoneRight(s, o))
    && (forall w {:trigger VisitRight(s, w)} {:trigger s.workers[w]} :: 0 <= w < |s.workers| ==> VisitRight(s, w))
  }

  /** Worker `w` is between the first and the last field of an object. */
  ghost predicate InVisit(s: State, w: nat)
    requires w < |s.workers|
  {
    && s.workers[w].mode.Visiting?
    && s.workers[w].mode.node in s.contents
    && s.workers[w].mode.k < |s.contents[s.workers[w].mode.node]|
    && s.contents[s.workers[w].mode.node][s.workers[w].mode.k] in s.heap
  }

  ghost function Visited(s: State, w: nat): Obj
    requires w < |s.workers| && InVisit(s, w)
  {
    s.contents[s.workers[w].mode.node][s.workers[w].mode.k]
  }

  // ------------------------------------------------------------------ nodes

  ghost predicate OwnedRight(s: State, id: NodeId)
    requires id in s.owner
  {
    match s.owner[id]
    case OwnFree(i) => i < |s.free| && s.free[i] == id
    case OwnRetired(i) => i < |s.retired| && s.retired[i] == id
    case OwnIn(w) => w < |s.workers| && s.workers[w].inn == Some(id)
    case OwnOut(w) => w < |s.workers| && s.workers[w].out == Some(id)
    case OwnRun(w) =>
      && w < |s.workers| && s.workers[w].mode.Visiting?
      && s.workers[w].mode.node == id && s.workers[w].out != Some(id)
    case OwnBarrier => s.barrier == Some(id)
  }

  ghost predicate Owns(s: State, id: NodeId, o: Owner) {
    id in s.contents && id in s.owner && s.owner[id] == o
  }

  /** The other direction: each place that holds a node is its owner. */
  ghost predicate InvHeld(s: State) {
    && (forall i :: 0 <= i < |s.free| ==> Owns(s, s.free[i], OwnFree(i)) && s.contents[s.free[i]] == [])
    && (forall i :: 0 <= i < |s.retired| ==> Owns(s, s.retired[i], OwnRetired(i)))
    && (forall w :: 0 <= w < |s.workers| ==> HeldByWorker(s, w))
    && (s.barrier.Some? ==> Owns(s, s.barrier.value, OwnBarrier))
  }

  ghost predicate HeldByWorker(s: State, w: nat)
    requires w < |s.workers|
  {
    var wk := s.workers[w];
    && (wk.inn.Some? ==> Owns(s, wk.inn.value, OwnIn(w)))
    && (wk.out.Some? ==> Owns(s, wk.out.value, OwnOut(w)))
    && (wk.mode.Visiting? && wk.out != Some(wk.mode.node) ==> Owns(s, wk.mode.node, OwnRun(w)))
  }

  /** Every node is where its owner says. */
  ghost predicate InvOwner(s: State) {
    && s.owner.Keys == s.contents.Keys
    && (forall id :: id in s.owner ==> OwnedRight(s, id))
  }

  // ------------------------------------------------------------------ the obligation to visit

  /** How many entries of node `id` have been visited. */
  ghost function Start(s: State, id: NodeId): nat {
    if id !in s.owner then 0
    else
      var w := match s.owner[id] case OwnOut(w) => w case OwnRun(w) => w case _ => |s.workers|;
      if w < |s.workers| && s.workers[w].mode.Visiting? && s.workers[w].mode.node == id then s.workers[w].mode.k else 0
  }

  ghost predicate PlacedRight(s: State, o: Obj)
    requires o in s.place
  {
    match s.place[o]
    case InNode(id, i) => id in s.contents && Start(s, id) <= i < |s.contents[id]| && s.contents[id][i] == o
    case InHand(w) => w < |s.workers| && s.workers[w].hand == o
    case InMutator => s.pc == ToPush(o)
    case Done => true
  }

  ghost predicate EntryRight(s: State, id: NodeId, i: nat)
    requires id in s.contents && i < |s.contents[id]|
  {
    var o := s.contents[id][i];
    && o in s.marked && o in s.place
    && s.place[o] == if i < Start(s, id) then Done else InNode(id, i)
  }

  /** Every marked object has been visited, or is in exactly one place that leads to its visit. */
  ghost predicate InvPlace(s: State) {
    && s.place.Keys == s.marked
    && (forall o :: o in s.place ==> PlacedRight(s, o))
    && (forall id, i :: id in s.contents && 0 <= i < |s.contents[id]| ==> EntryRight(s, id, i))
    && (forall w :: 0 <= w < |s.workers| && s.workers[w].hand != 0
          ==> s.workers[w].hand in s.place && s.place[s.workers[w].hand] == InHand(w))
    && (s.pc.ToPush? ==> s.pc.v != 0 && s.pc.v in s.place && s.place[s.pc.v] == InMutator)
  }

  // ------------------------------------------------------------------ phases

  ghost predicate WorkerRight(s: State, w: nat)
    requires w < |s.workers|
  {
    var wk := s.workers[w];
    && (s.phase == Resting || s.phase == Sweep ==> wk.inn == None && wk.out == None)
    && (!WorkersRun(s.phase) ==> wk.mode == Idle)
    && (wk.mode == Idle || wk.mode == Fetching ==> wk.hand == 0)
    && (s.phase == Posting || WorkersRun(s.phase) ==> wk.out.Some?)
    && (WorkersRun(s.phase) && wk.inn.None? ==> wk.hand != 0 || wk.mode == Scanning([], Retire))
    && (wk.mode.Scanning? ==>
      && ValidScan(s, wk.mode.objs)
      && (s.phase == Collect ==> wk.mode.after == Stay)
      && s.phase != Concurrent
      && (s.phase == Remark ==> wk.mode.after != Stay))
    && ((s.phase == Concurrent || s.phase == Remark) && wk.mode == Idle ==> InNodeEmpty(s, wk))
    && (wk.out.Some? && !(wk.mode.Visiting? && wk.mode.node == wk.out.value) ==> OutNodeEmpty(s, wk))
    && (wk.mode.Visiting? ==>
      && wk.mode.node in s.contents && wk.mode.k <= |s.contents[wk.mode.node]|
      && (wk.mode.k == |s.contents[wk.mode.node]| ==> wk.mode.field == 0 && wk.hand == 0))
  }

  ghost predicate TaskRight(s: State, t: Task) {
    match t
    case ExecTask => true
    case ScanTask(objs, after) =>
      && ValidScan(s, objs)
      && ((s.phase == Collect && after == Stay) || (s.phase == Remark && after == Execute))
  }

  ghost predicate InvPhase(s: State) {
    && s.workers != []
    && (forall w {:trigger WorkerRight(s, w)} {:trigger s.workers[w]} :: 0 <= w < |s.workers| ==> WorkerRight(s, w))
    && (forall t {:trigger TaskRight(s, t)} {:trigger t in s.tasks} :: t in s.tasks ==> TaskRight(s, t))
    && (s.phase == Resting || s.phase == Prologue || s.phase == Epilogue || s.phase == Sweep ==>
      s.tasks == [] && s.retired == [] && forall o :: o in s.place ==> s.place[o] == Done)
    && (s.barrier.Some? || s.pc != NoBarrier ==> s.phase == Concurrent)
  }

  // ------------------------------------------------------------------ remark

  ghost predicate PostRight(t: Task, objs: set<Obj>) {
    t.ScanTask? ==> t.after == Execute && forall o :: o in t.objs && o != 0 ==> o in objs
  }

  /** What is still to be posted goes on to mark after each scan; the last scan is the main thread's own. */
  ghost predicate TodoRight(todo: seq<Task>, objs: set<Obj>) {
    && (forall i :: 0 <= i < |todo| - 1 ==> PostRight(todo[i], objs))
    && (todo != [] ==>
      var t := todo[|todo| - 1];
      t.ScanTask? && t.after == Retire && forall o :: o in t.objs && o != 0 ==> o in objs)
  }

  ghost predicate InvTodo(s: State) {
    (s.phase != Remark ==> s.todo == []) && TodoRight(s.todo, s.heap.Keys)
  }

  ghost predicate WillServe(s: State, wk: Worker) {
    || wk.mode.Fetching? || wk.mode.Visiting?
    || (wk.mode.Scanning? &&
        (wk.mode.after == Execute || wk.hand != 0 || (wk.inn.Some? && !InNodeEmpty(s, wk))))
  }

  /** Somebody will still look at the list of retired nodes. */
  ghost predicate Served(s: State) {
    || s.tasks != [] || (s.todo != [] && s.todo[0].ExecTask?)
    || exists w :: 0 <= w < |s.workers| && WillServe(s, s.workers[w])
  }

  /** A root that is still in a list to scan. */
  ghost predicate Awaits(s: State, r: Obj) {
    AwaitsTask(s, r) || AwaitsTodo(s, r) || exists w :: AwaitsWorker(s, w, r)
  }

  ghost predicate AwaitsTodo(s: State, r: Obj) {
    exists i :: 0 <= i < |s.todo| && s.todo[i].ScanTask? && r in s.todo[i].objs
  }

  ghost predicate AwaitsTask(s: State, r: Obj) {
    exists i :: 0 <= i < |s.tasks| && s.tasks[i].ScanTask? && r in s.tasks[i].objs
  }

  ghost predicate AwaitsWorker(s: State, w: nat, r: Obj) {
    w < |s.workers| && s.workers[w].mode.Scanning? && r in s.workers[w].mode.objs
  }

  ghost predicate InvServed(s: State) {
    s.phase == Remark && s.retired != [] ==> Served(s)
  }

  ghost predicate InvRoots(s: State) {
    && (s.phase == Remark ==> forall r :: r in s.roots && r != 0 ==> r in s.marked || Awaits(s, r))
    && (s.phase == Epilogue || s.phase == Sweep ==> forall r :: r in s.roots && r != 0 ==> r in s.marked)
  }

  ghost predicate Inv(s: State) {
    && InvHeap(s) && InvColour(s) && InvOwner(s) && InvHeld(s)
    && InvPlace(s) && InvPhase(s) && InvTodo(s) && InvServed(s) && InvRoots(s)
  }

  lemma InitInv(s: State)
    requires Init(s)
    ensures Inv(s)
  {
  }

  /** Lists to scan and workers that will look for retired nodes, over a step that takes none away. */
  lemma AwaitedKept(s: State, s': State)
    requires InvServed(s) && InvRoots(s)
    requires s'.phase == s.phase && s'.roots == s.roots && s.marked <= s'.marked && s'.todo == s.todo
    requires |s.tasks| <= |s'.tasks| && forall i :: 0 <= i < |s.tasks| ==> s'.tasks[i] == s.tasks[i]
    requires forall w, r :: r != 0 && AwaitsWorker(s, w, r) ==> r in s'.marked || AwaitsWorker(s', w, r)
    requires s'.retired == [] || s'.tasks != [] || Served(s') ||
      (s.retired != [] && forall w :: 0 <= w < |s.workers| && WillServe(s, s.workers[w]) ==>
        w < |s'.workers| && WillServe(s', s'.workers[w]))
    ensures InvServed(s') && InvRoots(s')
  {
    forall r | s'.phase == Remark && r in s'.roots && r != 0 ensures r in s'.marked || Awaits(s', r) {
      if r !in s.marked && AwaitsTask(s, r) {
        var i :| 0 <= i < |s.tasks| && s.tasks[i].ScanTask? && r in s.tasks[i].objs;
        assert s'.tasks[i] == s.tasks[i];
      }
    }
  }

  /** The first entry of a node that is still to be visited, read off the worker that visits it. */
  lemma StartOfVisit(s: State, w: nat)
    requires InvHeld(s) && w < |s.workers| && s.workers[w].mode.Visiting?
    ensures s.workers[w].mode.node in s.owner && Start(s, s.workers[w].mode.node) == s.workers[w].mode.k
  {
    assert HeldByWorker(s, w);
  }

  /** While no worker runs and every marked object has been visited, no node holds an entry. */
  lemma NodesEmpty(s: State, id: NodeId)
    requires InvOwner(s) && InvPlace(s) && InvPhase(s) && !WorkersRun(s.phase) && id in s.contents
    requires forall o :: o in s.place ==> s.place[o] == Done
    ensures s.contents[id] == []
  {
    assert OwnedRight(s, id);
    assert 0 < |s.contents[id]| ==> EntryRight(s, id, 0);
  }

  /**
   The end of the remark: once the pool is quiet, every marked object has been visited, and no node
   anywhere holds an entry, whoever owns it.
   */
  lemma RemarkDrains(s: State)
    requires Inv(s) && s.phase == Remark && Finished(s)
    ensures s.retired == []
    ensures forall o :: o in s.marked ==> o in s.place && s.place[o] == Done
    ensures forall id :: id in s.contents ==> s.contents[id] == []
  {
    forall id | id in s.contents ensures s.contents[id] == [] {
      assert OwnedRight(s, id);
    }
    forall o | o in s.marked ensures o in s.place && s.place[o] == Done {
      assert PlacedRight(s, o);
    }
  }

  // ------------------------------------------------------------------ what most steps leave alone

  /** Every node stays where it is, and a worker that visits a node goes on visiting it. */
  ghost predicate SameNodes(s: State, s': State) {
    && s'.contents.Keys == s.contents.Keys && s'.owner == s.owner
    && s'.free == s.free && s'.retired == s.retired && s'.barrier == s.barrier && |s'.workers| == |s.workers|
    && (forall i :: 0 <= i < |s.free| && s.free[i] in s.contents ==> s'.contents[s.free[i]] == s.contents[s.free[i]])
    && forall v :: 0 <= v < |s.workers| ==> SameHolder(s.workers[v], s'.workers[v])
  }

  ghost predicate SameHolder(wk: Worker, wk': Worker) {
    && wk'.inn == wk.inn && wk'.out == wk.out && wk'.mode.Visiting? == wk.mode.Visiting?
    && (wk.mode.Visiting? ==> wk'.mode.node == wk.mode.node)
  }

  lemma NodesKept(s: State, s': State)
    requires InvOwner(s) && InvHeld(s) && SameNodes(s, s')
    ensures InvOwner(s') && InvHeld(s')
  {
    forall v | 0 <= v < |s'.workers| ensures HeldByWorker(s', v) {
      assert HeldByWorker(s, v) && SameHolder(s.workers[v], s'.workers[v]);
    }
    forall id | id in s'.owner ensures OwnedRight(s', id) {
      assert OwnedRight(s, id);
    }
  }

  /** The obligations to visit stay where they are. */
  ghost predicate SamePlaces(s: State, s': State) {
    && s'.contents == s.contents && s'.place == s.place && s'.marked == s.marked && |s'.workers| == |s.workers|
    && (s.pc.ToPush? || s'.pc.ToPush? ==> s'.pc == s.pc)
    && (forall v :: 0 <= v < |s.workers| ==> s'.workers[v].hand == s.workers[v].hand)
    && forall id :: id in s.contents ==> Start(s', id) == Start(s, id)
  }

  lemma PlacesKept(s: State, s': State)
    requires InvPlace(s) && SamePlaces(s, s')
    ensures InvPlace(s')
  {
    forall o | o in s'.place ensures PlacedRight(s', o) {
      assert PlacedRight(s, o);
    }
    forall id, i | id in s'.contents && 0 <= i < |s'.contents[id]| ensures EntryRight(s', id, i) {
      assert EntryRight(s, id, i);
    }
  }

  /** A newly marked object goes to the hands of whoever marked it; all other places stay. */
  lemma MarkedPlaces(s: State, s': State, v: Obj, p: Place)
    requires InvPlace(s) && v != 0 && v !in s.marked && 0 !in s.marked
    requires s'.contents == s.contents && s'.marked == s.marked + {v} && s'.place == s.place[v := p]
    requires |s'.workers| == |s.workers| && forall id :: id in s.contents ==> Start(s', id) == Start(s, id)
    requires forall u :: 0 <= u < |s.workers| ==>
      s'.workers[u].hand == if p == InHand(u) && s.workers[u].hand == 0 then v else s.workers[u].hand
    requires if p == InMutator && !s.pc.ToPush? then s'.pc == ToPush(v)
      else (s.pc.ToPush? || s'.pc.ToPush? ==> s'.pc == s.pc)
    requires PlacedRight(s', v)
    ensures InvPlace(s')
  {
    forall o | o in s'.place ensures PlacedRight(s', o) {
      if o != v { assert PlacedRight(s, o); }
    }
    forall id, i | id in s'.contents && 0 <= i < |s'.contents[id]| ensures EntryRight(s', id, i) {
      assert EntryRight(s, id, i);
    }
  }

  // ------------------------------------------------------------------ steps of the mutator

  lemma AllocPlaces(s: State, i: nat, a: Obj, n: nat)
    requires InvHeap(s) && InvOwner(s) && InvHeld(s) && InvPlace(s) && InvPhase(s) && CanAlloc(s, i, a, n)
    ensures InvPlace(DoAlloc(s, i, a, n))
  {
    var s' := DoAlloc(s, i, a, n);
    forall o | o in s'.place ensures PlacedRight(s', o) {
      if o in s.place { assert PlacedRight(s, o); }
    }
    forall id, i | id in s'.contents && 0 <= i < |s'.contents[id]| ensures EntryRight(s', id, i) {
      assert EntryRight(s, id, i);
    }
  }

  lemma AllocHeap(s: State, i: nat, a: Obj, n: nat)
    requires InvHeap(s) && InvPhase(s) && CanAlloc(s, i, a, n)
    ensures InvHeap(DoAlloc(s, i, a, n))
  {
  }

  lemma AllocColours(s: State, i: nat, a: Obj, n: nat)
    requires InvHeap(s) && InvColour(s) && InvPlace(s) && InvPhase(s) && CanAlloc(s, i, a, n)
    ensures InvColour(DoAlloc(s, i, a, n))
  {
    var s' := DoAlloc(s, i, a, n);
    forall o | o in s'.marked ensures DoneRight(s', o) { assert o in s.marked ==> DoneRight(s, o); }
    forall v | 0 <= v < |s'.workers| ensures VisitRight(s', v) {
      assert VisitRight(s, v) && WorkerRight(s, v);
      if InVisit(s', v) { assert EntryRight(s, s.workers[v].mode.node, s.workers[v].mode.k); }
    }
  }

  lemma AllocRest(s: State, i: nat, a: Obj, n: nat)
    requires InvHeap(s) && InvPhase(s) && InvServed(s) && InvRoots(s) && CanAlloc(s, i, a, n)
    ensures var s' := DoAlloc(s, i, a, n); InvPhase(s') && InvServed(s') && InvRoots(s')
  {
  }

  lemma AllocNodes(s: State, i: nat, a: Obj, n: nat)
    requires InvOwner(s) && InvHeld(s) && CanAlloc(s, i, a, n)
    ensures InvOwner(DoAlloc(s, i, a, n)) && InvHeld(DoAlloc(s, i, a, n))
  {
    NodesKept(s, DoAlloc(s, i, a, n));
  }

  lemma AllocInv(s: State, i: nat, a: Obj, n: nat)
    requires Inv(s) && CanAlloc(s, i, a, n)
    ensures Inv(DoAlloc(s, i, a, n))
  {
    AllocPlaces(s, i, a, n);
    AllocHeap(s, i, a, n);
    AllocColours(s, i, a, n);
    AllocRest(s, i, a, n);
    AllocNodes(s, i, a, n);
  }

  /** Roots that may be null and otherwise are objects, marked ones from the finalizers on. */
  ghost predicate GoodRoots(s: State, rs: seq<Obj>) {
    forall i :: 0 <= i < |rs| && rs[i] != 0 ==> rs[i] in s.heap && (BornMarked(s.phase) ==> rs[i] in s.marked)
  }

  lemma RootsRest(s: State, rs: seq<Obj>)
    requires InvHeap(s) && InvColour(s) && InvPhase(s) && InvServed(s) && MutatorRuns(s) && GoodRoots(s, rs)
    ensures var s' := s.(roots := rs); InvHeap(s') && InvColour(s') && InvPhase(s') && InvServed(s') && InvRoots(s')
  {
    var s' := s.(roots := rs);
    forall o | o in s'.marked ensures DoneRight(s', o) { assert DoneRight(s, o); }
    forall v | 0 <= v < |s'.workers| ensures WorkerRight(s', v) && VisitRight(s', v) {
      assert WorkerRight(s, v) && VisitRight(s, v);
    }
  }

  lemma RootsKept(s: State, rs: seq<Obj>)
    requires InvOwner(s) && InvHeld(s) && InvPlace(s)
    ensures var s' := s.(roots := rs); InvOwner(s') && InvHeld(s') && InvPlace(s')
  {
    NodesKept(s, s.(roots := rs));
    PlacesKept(s, s.(roots := rs));
  }

  lemma RootsInv(s: State, rs: seq<Obj>)
    requires Inv(s) && MutatorRuns(s) && GoodRoots(s, rs)
    ensures Inv(s.(roots := rs))
  {
    RootsRest(s, rs);
    RootsKept(s, rs);
  }

  lemma RootsGood(s: State)
    requires InvHeap(s) && InvRoots(s)
    ensures GoodRoots(s, s.roots)
  {
  }

  lemma MoveInv(s: State, i: nat, j: nat)
    requires Inv(s) && CanMove(s, i, j)
    ensures Inv(DoMove(s, i, j))
  {
    RootsGood(s);
    RootsInv(s, DoMove(s, i, j).roots);
  }

  lemma LoadedRoots(s: State, i: nat, j: nat, f: nat)
    requires InvHeap(s) && InvColour(s) && InvPhase(s) && InvPlace(s) && InvRoots(s) && CanLoad(s, i, j, f)
    ensures GoodRoots(s, DoLoad(s, i, j, f).roots)
  {
    RootsGood(s);
    assert BornMarked(s.phase) && s.roots[j] != 0 ==> DoneRight(s, s.roots[j]);
  }

  lemma LoadInv(s: State, i: nat, j: nat, f: nat)
    requires Inv(s) && CanLoad(s, i, j, f)
    ensures Inv(DoLoad(s, i, j, f))
  {
    LoadedRoots(s, i, j, f);
    RootsInv(s, DoLoad(s, i, j, f).roots);
  }

  lemma ClearRootInv(s: State, i: nat)
    requires Inv(s) && CanClearRoot(s, i)
    ensures Inv(DoClearRoot(s, i))
  {
    RootsGood(s);
    RootsInv(s, DoClearRoot(s, i).roots);
  }

  lemma GrowRootsInv(s: State)
    requires Inv(s) && CanGrowRoots(s)
    ensures Inv(DoGrowRoots(s))
  {
    RootsGood(s);
    RootsInv(s, DoGrowRoots(s).roots);
  }

  lemma StoreHeap(s: State, j: nat, f: nat, k: nat)
    requires InvHeap(s) && CanStore(s, j, f, k)
    ensures InvHeap(DoStore(s, j, f, k))
  {
  }

  lemma StoreColours(s: State, j: nat, f: nat, k: nat)
    requires InvHeap(s) && InvColour(s) && InvPhase(s) && InvRoots(s) && CanStore(s, j, f, k)
    ensures InvColour(DoStore(s, j, f, k))
  {
    var s' := DoStore(s, j, f, k);
    forall o | o in s'.marked ensures DoneRight(s', o) { assert DoneRight(s, o); }
    forall w | 0 <= w < |s'.workers| ensures VisitRight(s', w) { assert VisitRight(s, w) && WorkerRight(s, w); }
  }

  lemma StorePhases(s: State, j: nat, f: nat, k: nat)
    requires InvHeap(s) && InvPhase(s) && InvServed(s) && InvRoots(s) && CanStore(s, j, f, k)
    ensures var s' := DoStore(s, j, f, k); InvPhase(s') && InvServed(s') && InvRoots(s')
  {
    var s' := DoStore(s, j, f, k);
    forall w | 0 <= w < |s'.workers| ensures WorkerRight(s', w) { assert WorkerRight(s, w); }
  }

  lemma StoreKept(s: State, j: nat, f: nat, k: nat)
    requires InvOwner(s) && InvHeld(s) && InvPlace(s) && CanStore(s, j, f, k)
    ensures var s' := DoStore(s, j, f, k); InvOwner(s') && InvHeld(s') && InvPlace(s')
  {
    NodesKept(s, DoStore(s, j, f, k));
    PlacesKept(s, DoStore(s, j, f, k));
  }

  lemma StoreInv(s: State, j: nat, f: nat, k: nat)
    requires Inv(s) && CanStore(s, j, f, k)
    ensures Inv(DoStore(s, j, f, k))
  {
    StoreHeap(s, j, f, k);
    StoreColours(s, j, f, k);
    StorePhases(s, j, f, k);
    StoreKept(s, j, f, k);
  }

  lemma BarrierMarkPlaces(s: State)
    requires InvHeap(s) && InvOwner(s) && InvHeld(s) && InvPlace(s) && CanBarrierMark(s)
    ensures InvPlace(DoBarrierMark(s))
  {
    var s' := DoBarrierMark(s);
    if s.pc.v in s.marked {
      PlacesKept(s, s');
    } else {
      MarkedPlaces(s, s', s.pc.v, InMutator);
    }
  }

  lemma BarrierMarkRest(s: State)
    requires InvHeap(s) && InvColour(s) && InvPhase(s) && InvServed(s) && InvRoots(s) && CanBarrierMark(s)
    ensures var s' := DoBarrierMark(s); InvHeap(s') && InvColour(s') && InvPhase(s') && InvServed(s') && InvRoots(s')
  {
  }

  lemma BarrierMarkInv(s: State)
    requires Inv(s) && CanBarrierMark(s)
    ensures Inv(DoBarrierMark(s))
  {
    var s' := DoBarrierMark(s);
    BarrierMarkPlaces(s);
    BarrierMarkRest(s);
    NodesKept(s, s');
  }

  lemma BarrierRetireNodes(s: State)
    requires InvOwner(s) && InvHeld(s) && CanBarrierRetire(s)
    ensures InvOwner(DoBarrierRetire(s)) && InvHeld(DoBarrierRetire(s))
  {
    var s' := DoBarrierRetire(s);
    forall id | id in s'.owner ensures OwnedRight(s', id) {
      assert OwnedRight(s, id);
    }
    forall v | 0 <= v < |s'.workers| ensures HeldByWorker(s', v) {
      assert HeldByWorker(s, v);
    }
  }

  lemma BarrierRetirePlaces(s: State)
    requires InvOwner(s) && InvHeld(s) && InvPlace(s) && CanBarrierRetire(s)
    ensures InvPlace(DoBarrierRetire(s))
  {
    var s' := DoBarrierRetire(s);
    PlacesKept(s, s');
  }

  lemma BarrierRetireRest(s: State)
    requires InvHeap(s) && InvColour(s) && InvPhase(s) && InvServed(s) && InvRoots(s) && CanBarrierRetire(s)
    ensures var s' := DoBarrierRetire(s); InvHeap(s') && InvColour(s') && InvPhase(s') && InvServed(s') && InvRoots(s')
  {
  }

  lemma BarrierRetireInv(s: State)
    requires Inv(s) && CanBarrierRetire(s)
    ensures Inv(DoBarrierRetire(s))
  {
    BarrierRetireNodes(s);
    BarrierRetirePlaces(s);
    BarrierRetireRest(s);
  }

  lemma BarrierGetNodes(s: State)
    requires InvOwner(s) && InvHeld(s) && CanBarrierGet(s)
    ensures InvOwner(DoBarrierGet(s)) && InvHeld(DoBarrierGet(s))
  {
    var s' := DoBarrierGet(s);
    forall id | id in s'.owner ensures OwnedRight(s', id) {
      assert OwnedRight(s, id);
    }
    forall v | 0 <= v < |s'.workers| ensures HeldByWorker(s', v) {
      assert HeldByWorker(s, v);
    }
  }

  lemma BarrierGetPlaces(s: State)
    requires InvOwner(s) && InvHeld(s) && InvPlace(s) && CanBarrierGet(s)
    ensures InvPlace(DoBarrierGet(s))
  {
    var s' := DoBarrierGet(s);
    PlacesKept(s, s');
  }

  lemma BarrierGetRest(s: State)
    requires InvHeap(s) && InvColour(s) && InvPhase(s) && InvServed(s) && InvRoots(s) && CanBarrierGet(s)
    ensures var s' := DoBarrierGet(s); InvHeap(s') && InvColour(s') && InvPhase(s') && InvServed(s') && InvRoots(s')
  {
  }

  lemma BarrierGetInv(s: State)
    requires Inv(s) && CanBarrierGet(s)
    ensures Inv(DoBarrierGet(s))
  {
    BarrierGetNodes(s);
    BarrierGetPlaces(s);
    BarrierGetRest(s);
  }

  lemma BarrierPushPlaces(s: State)
    requires InvHeld(s) && InvPlace(s) && CanBarrierPush(s)
    ensures InvPlace(DoBarrierPush(s))
  {
    var s' := DoBarrierPush(s);
    forall o | o in s'.place ensures PlacedRight(s', o) {
      assert PlacedRight(s, o);
    }
    forall id, i | id in s'.contents && 0 <= i < |s'.contents[id]| ensures EntryRight(s', id, i) {
      if id in s.contents && i < |s.contents[id]| { assert EntryRight(s, id, i); }
    }
  }

  lemma BarrierPushRest(s: State)
    requires InvHeap(s) && InvColour(s) && InvHeld(s) && InvPhase(s) && InvServed(s) && InvRoots(s) && CanBarrierPush(s)
    ensures var s' := DoBarrierPush(s); InvHeap(s') && InvColour(s') && InvPhase(s') && InvServed(s') && InvRoots(s')
  {
    var s' := DoBarrierPush(s);
    forall v | 0 <= v < |s'.workers| ensures WorkerRight(s', v) && VisitRight(s', v) {
      assert WorkerRight(s, v) && HeldByWorker(s, v) && VisitRight(s, v);
    }
  }

  lemma BarrierPushInv(s: State)
    requires Inv(s) && CanBarrierPush(s)
    ensures Inv(DoBarrierPush(s))
  {
    var s' := DoBarrierPush(s);
    BarrierPushPlaces(s);
    BarrierPushRest(s);
    NodesKept(s, s');
  }

  lemma CreateNodeNodes(s: State, id: NodeId)
    requires InvOwner(s) && InvHeld(s) && CanCreateNode(s, id)
    ensures InvOwner(DoCreateNode(s, id)) && InvHeld(DoCreateNode(s, id))
  {
    var s' := DoCreateNode(s, id);
    forall id | id in s'.owner ensures OwnedRight(s', id) {
      if id in s.owner { assert OwnedRight(s, id); }
    }
    forall v | 0 <= v < |s'.workers| ensures HeldByWorker(s', v) {
      assert HeldByWorker(s, v);
    }
  }

  lemma CreateNodePlaces(s: State, id: NodeId)
    requires InvHeld(s) && InvPlace(s) && CanCreateNode(s, id)
    ensures InvPlace(DoCreateNode(s, id))
  {
    var s' := DoCreateNode(s, id);
    forall o | o in s'.place ensures PlacedRight(s', o) {
      assert PlacedRight(s, o);
    }
    forall id, i | id in s'.contents && 0 <= i < |s'.contents[id]| ensures EntryRight(s', id, i) {
      if id in s.contents && i < |s.contents[id]| { assert EntryRight(s, id, i); }
    }
  }

  lemma CreateNodeRest(s: State, id: NodeId)
    requires InvHeap(s) && InvColour(s) && InvHeld(s) && InvPhase(s) && InvServed(s) && InvRoots(s)
    requires CanCreateNode(s, id)
    ensures var s' := DoCreateNode(s, id); InvHeap(s') && InvColour(s') && InvPhase(s') && InvServed(s') && InvRoots(s')
  {
    var s' := DoCreateNode(s, id);
    forall v | 0 <= v < |s.workers| && WillServe(s, s.workers[v]) ensures WillServe(s', s'.workers[v]) {
      assert HeldByWorker(s, v);
    }
    if s.phase == Remark {
      AwaitedKept(s, s');
    }
  }

  lemma CreateNodeInv(s: State, id: NodeId)
    requires Inv(s) && CanCreateNode(s, id)
    ensures Inv(DoCreateNode(s, id))
  {
    CreateNodeNodes(s, id);
    CreateNodePlaces(s, id);
    CreateNodeRest(s, id);
  }

  predicate BarrierStep(st: Step) {
    st.BarrierMark? || st.BarrierRetire? || st.BarrierGet? || st.BarrierPush? || st.CreateNode?
  }

  lemma BarrierStepInv(s: State, st: Step, s': State)
    requires Inv(s) && MutatorStep(s, st, s') && BarrierStep(st)
    ensures Inv(s')
  {
    match st
    case BarrierMark => BarrierMarkInv(s);
    case BarrierRetire => BarrierRetireInv(s);
    case BarrierGet => BarrierGetInv(s);
    case BarrierPush => BarrierPushInv(s);
    case CreateNode(id) => CreateNodeInv(s, id);
  }

  lemma HeapStepInv(s: State, st: Step, s': State)
    requires Inv(s) && MutatorStep(s, st, s') && !BarrierStep(st)
    ensures Inv(s')
  {
    match st
    case Alloc(i, a, n) => AllocInv(s, i, a, n);
    case Move(i, j) => MoveInv(s, i, j);
    case Load(i, j, f) => LoadInv(s, i, j, f);
    case ClearRoot(i) => ClearRootInv(s, i);
    case GrowRoots => GrowRootsInv(s);
    case Store(j, f, k) => StoreInv(s, j, f, k);
    case _ =>
  }

  // ------------------------------------------------------------------ steps of the workers

  predicate VisitStep(st: Step) {
    st.ReadField? || st.NextEntry? || st.FinishNode?
  }

  predicate FetchStep(st: Step) {
    st.FetchIn? || st.FetchOut?
  }

  predicate RetiredStep(st: Step) {
    st.FetchRetired? || st.FetchNothing?
  }

  predicate PushStep(st: Step) {
    st.GetIn? || st.PushObj?
  }

  predicate ScanStep(st: Step) {
    st.TakeTask? || st.ScanMark? || st.ScanRetire? || st.ScanDone? || st.PushRetire?
  }

  lemma TakeTaskRest(s: State, w: nat)
    requires InvHeap(s) && InvColour(s) && InvPhase(s) && CanTakeTask(s, w)
    ensures var s' := DoTakeTask(s, w); InvHeap(s') && InvColour(s') && InvPhase(s')
  {
    var s' := DoTakeTask(s, w);
    assert TaskRight(s, s.tasks[0]) && forall t :: t in s'.tasks ==> t in s.tasks;
    assert WorkerRight(s', w);
  }

  lemma TakeTaskAwaited(s: State, w: nat)
    requires InvPhase(s) && InvServed(s) && InvRoots(s) && CanTakeTask(s, w)
    ensures InvServed(DoTakeTask(s, w)) && InvRoots(DoTakeTask(s, w))
  {
    var s' := DoTakeTask(s, w);
    assert TaskRight(s, s.tasks[0]);
    assert s.phase == Remark ==> WillServe(s', s'.workers[w]);
    forall r | s'.phase == Remark && r in s'.roots && r != 0 ensures r in s'.marked || Awaits(s', r) {
      if AwaitsTask(s, r) {
        var i :| 0 <= i < |s.tasks| && s.tasks[i].ScanTask? && r in s.tasks[i].objs;
        assert if i == 0 then AwaitsWorker(s', w, r) else s'.tasks[i - 1] == s.tasks[i];
      } else if v :| AwaitsWorker(s, v, r) {
        assert AwaitsWorker(s', v, r);
      }
    }
  }

  lemma TakeTaskInv(s: State, w: nat)
    requires Inv(s) && CanTakeTask(s, w)
    ensures Inv(DoTakeTask(s, w))
  {
    var s' := DoTakeTask(s, w);
    TakeTaskRest(s, w);
    TakeTaskAwaited(s, w);
    NodesKept(s, s');
    PlacesKept(s, s');
  }

  lemma ScanMarkPlaces(s: State, w: nat)
    requires InvHeap(s) && InvOwner(s) && InvHeld(s) && InvPlace(s) && CanScanMark(s, w)
    ensures InvPlace(DoScanMark(s, w))
  {
    var s', v := DoScanMark(s, w), s.workers[w].mode.objs[0];
    if v == 0 || v in s.marked {
      PlacesKept(s, s');
    } else {
      MarkedPlaces(s, s', v, InHand(w));
    }
  }

  lemma ScanMarkColours(s: State, w: nat)
    requires InvHeap(s) && InvColour(s) && InvPhase(s) && CanScanMark(s, w)
    ensures InvHeap(DoScanMark(s, w)) && InvColour(DoScanMark(s, w))
  {
  }

  lemma ScanMarkWorker(s: State, w: nat)
    requires CanScanMark(s, w) && WorkerRight(s, w)
    ensures WorkerRight(DoScanMark(s, w), w)
  {
    var s', m := DoScanMark(s, w), s.workers[w].mode;
    assert s'.workers[w].mode == m.(objs := m.objs[1..]);
    assert forall o :: o in m.objs[1..] ==> o in m.objs;
  }

  lemma ScanMarkOther(s: State, w: nat, v: nat)
    requires CanScanMark(s, w) && v < |s.workers| && v != w && WorkerRight(s, v)
    ensures WorkerRight(DoScanMark(s, w), v)
  {
    var s' := DoScanMark(s, w);
    assert s'.workers[v] == s.workers[v] && s'.phase == s.phase && s'.contents == s.contents && s'.heap == s.heap;
  }

  lemma ScanMarkTask(s: State, w: nat, t: Task)
    requires CanScanMark(s, w) && TaskRight(s, t)
    ensures TaskRight(DoScanMark(s, w), t)
  {
  }

  lemma ScanMarkPhases(s: State, w: nat)
    requires InvHeap(s) && InvPhase(s) && CanScanMark(s, w)
    ensures InvPhase(DoScanMark(s, w))
  {
    var s' := DoScanMark(s, w);
    assert WorkerRight(s, w);
    hide WorkerRight, TaskRight;
    forall v | 0 <= v < |s'.workers| ensures WorkerRight(s', v) {
      if v == w { ScanMarkWorker(s, w); } else { ScanMarkOther(s, w, v); }
    }
    forall t | t in s'.tasks ensures TaskRight(s', t) { ScanMarkTask(s, w, t); }
  }

  lemma ScanMarkAwaited(s: State, w: nat)
    requires InvHeap(s) && InvPhase(s) && InvServed(s) && InvRoots(s) && CanScanMark(s, w)
    ensures InvServed(DoScanMark(s, w)) && InvRoots(DoScanMark(s, w))
  {
    var s' := DoScanMark(s, w);
    assert WorkerRight(s, w);
    if s.phase == Remark {
      AwaitedKept(s, s');
    }
  }

  lemma ScanMarkNodes(s: State, w: nat)
    requires InvOwner(s) && InvHeld(s) && CanScanMark(s, w)
    ensures InvOwner(DoScanMark(s, w)) && InvHeld(DoScanMark(s, w))
  {
    NodesKept(s, DoScanMark(s, w));
  }

  lemma ScanMarkInv(s: State, w: nat)
    requires Inv(s) && CanScanMark(s, w)
    ensures Inv(DoScanMark(s, w))
  {
    ScanMarkNodes(s, w);
    ScanMarkPlaces(s, w);
    ScanMarkColours(s, w);
    ScanMarkPhases(s, w);
    ScanMarkAwaited(s, w);
  }

  lemma ScanRetireOwners(s: State, w: nat)
    requires InvOwner(s) && InvHeld(s) && CanScanRetire(s, w)
    ensures InvOwner(DoScanRetire(s, w))
  {
    var s' := DoScanRetire(s, w);
    assert HeldByWorker(s, w);
    forall id | id in s'.owner ensures OwnedRight(s', id) {
      assert OwnedRight(s, id);
    }
  }

  lemma ScanRetireHolders(s: State, w: nat)
    requires InvOwner(s) && InvHeld(s) && CanScanRetire(s, w)
    ensures InvHeld(DoScanRetire(s, w))
  {
    var s' := DoScanRetire(s, w);
    assert HeldByWorker(s, w);
    forall v | 0 <= v < |s'.workers| ensures HeldByWorker(s', v) {
      assert HeldByWorker(s, v);
    }
  }

  lemma ScanRetirePlaces(s: State, w: nat)
    requires InvOwner(s) && InvHeld(s) && InvPlace(s) && CanScanRetire(s, w)
    ensures InvPlace(DoScanRetire(s, w))
  {
    var s' := DoScanRetire(s, w);
    assert HeldByWorker(s, w);
    PlacesKept(s, s');
  }

  lemma ScanRetireRest(s: State, w: nat)
    requires InvHeap(s) && InvColour(s) && InvPhase(s) && InvServed(s) && InvRoots(s) && CanScanRetire(s, w)
    ensures var s' := DoScanRetire(s, w); InvHeap(s') && InvColour(s') && InvPhase(s') && InvServed(s') && InvRoots(s')
  {
    var s' := DoScanRetire(s, w);
    if s.phase == Remark {
      AwaitedKept(s, s');
    }
  }

  lemma ScanRetireInv(s: State, w: nat)
    requires Inv(s) && CanScanRetire(s, w)
    ensures Inv(DoScanRetire(s, w))
  {
    ScanRetireOwners(s, w);
    ScanRetireHolders(s, w);
    ScanRetirePlaces(s, w);
    ScanRetireRest(s, w);
  }

  lemma ScanDoneRest(s: State, w: nat)
    requires InvHeap(s) && InvColour(s) && InvPhase(s) && InvServed(s) && InvRoots(s) && CanScanDone(s, w)
    ensures var s' := DoScanDone(s, w); InvHeap(s') && InvColour(s') && InvPhase(s') && InvServed(s') && InvRoots(s')
  {
    var s' := DoScanDone(s, w);
    assert WorkerRight(s, w);
    if s.phase == Remark {
      AwaitedKept(s, s');
    }
  }

  lemma ScanDoneInv(s: State, w: nat)
    requires Inv(s) && CanScanDone(s, w)
    ensures Inv(DoScanDone(s, w))
  {
    var s' := DoScanDone(s, w);
    ScanDoneRest(s, w);
    NodesKept(s, s');
    PlacesKept(s, s');
  }

  lemma PushRetireOwners(s: State, w: nat)
    requires InvOwner(s) && InvHeld(s) && CanPushRetire(s, w)
    ensures InvOwner(DoPushRetire(s, w))
  {
    var s' := DoPushRetire(s, w);
    assert HeldByWorker(s, w);
    forall id | id in s'.owner ensures OwnedRight(s', id) {
      assert OwnedRight(s, id);
    }
  }

  lemma PushRetireHolders(s: State, w: nat)
    requires InvOwner(s) && InvHeld(s) && CanPushRetire(s, w)
    ensures InvHeld(DoPushRetire(s, w))
  {
    var s' := DoPushRetire(s, w);
    assert HeldByWorker(s, w);
    forall v | 0 <= v < |s'.workers| ensures HeldByWorker(s', v) {
      assert HeldByWorker(s, v);
    }
  }

  lemma PushRetirePlaces(s: State, w: nat)
    requires InvOwner(s) && InvHeld(s) && InvPlace(s) && CanPushRetire(s, w)
    ensures InvPlace(DoPushRetire(s, w))
  {
    var s' := DoPushRetire(s, w);
    assert HeldByWorker(s, w);
    PlacesKept(s, s');
  }

  lemma PushRetireRest(s: State, w: nat)
    requires InvHeap(s) && InvColour(s) && InvPhase(s) && InvServed(s) && InvRoots(s) && CanPushRetire(s, w)
    ensures var s' := DoPushRetire(s, w); InvHeap(s') && InvColour(s') && InvPhase(s') && InvServed(s') && InvRoots(s')
  {
    var s' := DoPushRetire(s, w);
    assert WorkerRight(s, w);
    if s.phase == Remark {
      assert WillServe(s', s'.workers[w]);
      AwaitedKept(s, s');
    }
  }

  lemma PushRetireInv(s: State, w: nat)
    requires Inv(s) && CanPushRetire(s, w)
    ensures Inv(DoPushRetire(s, w))
  {
    PushRetireOwners(s, w);
    PushRetireHolders(s, w);
    PushRetirePlaces(s, w);
    PushRetireRest(s, w);
  }

  lemma GetInOwners(s: State, w: nat, post: bool)
    requires InvOwner(s) && InvHeld(s) && CanGetIn(s, w, post)
    ensures InvOwner(DoGetIn(s, w, post))
  {
    var s' := DoGetIn(s, w, post);
    assert HeldByWorker(s, w);
    forall id | id in s'.owner ensures OwnedRight(s', id) {
      assert OwnedRight(s, id);
    }
  }

  lemma GetInHolders(s: State, w: nat, post: bool)
    requires InvOwner(s) && InvHeld(s) && CanGetIn(s, w, post)
    ensures InvHeld(DoGetIn(s, w, post))
  {
    var s' := DoGetIn(s, w, post);
    assert HeldByWorker(s, w);
    forall v | 0 <= v < |s'.workers| ensures HeldByWorker(s', v) {
      assert HeldByWorker(s, v);
    }
  }

  lemma GetInPlaces(s: State, w: nat, post: bool)
    requires InvOwner(s) && InvHeld(s) && InvPlace(s) && CanGetIn(s, w, post)
    ensures InvPlace(DoGetIn(s, w, post))
  {
    var s' := DoGetIn(s, w, post);
    assert HeldByWorker(s, w);
    PlacesKept(s, s');
  }

  lemma GetInRest(s: State, w: nat, post: bool)
    requires InvHeap(s) && InvColour(s) && InvPhase(s) && InvServed(s) && InvRoots(s) && CanGetIn(s, w, post)
    ensures var s' := DoGetIn(s, w, post); InvHeap(s') && InvColour(s') && InvPhase(s') && InvServed(s') && InvRoots(s')
  {
    var s' := DoGetIn(s, w, post);
    if s.phase == Remark {
      AwaitedKept(s, s');
    }
  }

  lemma GetInInv(s: State, w: nat, post: bool)
    requires Inv(s) && CanGetIn(s, w, post)
    ensures Inv(DoGetIn(s, w, post))
  {
    GetInOwners(s, w, post);
    GetInHolders(s, w, post);
    GetInPlaces(s, w, post);
    GetInRest(s, w, post);
  }

  lemma PushObjPlaces(s: State, w: nat)
    requires InvHeld(s) && InvPlace(s) && CanPushObj(s, w)
    ensures InvPlace(DoPushObj(s, w))
  {
    var s' := DoPushObj(s, w);
    assert HeldByWorker(s, w);
    forall o | o in s'.place ensures PlacedRight(s', o) {
      assert PlacedRight(s, o);
    }
    forall id, i | id in s'.contents && 0 <= i < |s'.contents[id]| ensures EntryRight(s', id, i) {
      if id in s.contents && i < |s.contents[id]| { assert EntryRight(s, id, i); }
    }
  }

  lemma PushObjColours(s: State, w: nat)
    requires InvHeap(s) && InvColour(s) && InvPhase(s) && CanPushObj(s, w)
    ensures InvHeap(DoPushObj(s, w)) && InvColour(DoPushObj(s, w))
  {
  }

  lemma PushObjPhases(s: State, w: nat)
    requires InvHeap(s) && InvHeld(s) && InvPhase(s) && CanPushObj(s, w)
    ensures InvPhase(DoPushObj(s, w))
  {
    var s' := DoPushObj(s, w);
    assert HeldByWorker(s, w);
    forall v | 0 <= v < |s'.workers| ensures WorkerRight(s', v) {
      assert WorkerRight(s, v) && HeldByWorker(s, v);
    }
  }

  lemma PushObjAwaited(s: State, w: nat)
    requires InvHeap(s) && InvPhase(s) && InvServed(s) && InvRoots(s) && CanPushObj(s, w)
    ensures InvServed(DoPushObj(s, w)) && InvRoots(DoPushObj(s, w))
  {
    var s' := DoPushObj(s, w);
    assert WorkerRight(s, w);
    if s.phase == Remark {
      AwaitedKept(s, s');
    }
  }

  lemma PushObjInv(s: State, w: nat)
    requires Inv(s) && CanPushObj(s, w)
    ensures Inv(DoPushObj(s, w))
  {
    var s' := DoPushObj(s, w);
    PushObjPlaces(s, w);
    PushObjColours(s, w);
    PushObjPhases(s, w);
    PushObjAwaited(s, w);
    NodesKept(s, s') by {
      assert HeldByWorker(s, w);
    }
  }

  lemma FetchInOwners(s: State, w: nat)
    requires InvOwner(s) && InvHeld(s) && CanFetchIn(s, w)
    ensures InvOwner(DoFetchIn(s, w))
  {
    var s' := DoFetchIn(s, w);
    assert HeldByWorker(s, w);
    forall id | id in s'.owner ensures OwnedRight(s', id) {
      assert OwnedRight(s, id);
    }
  }

  lemma FetchInHolders(s: State, w: nat)
    requires InvOwner(s) && InvHeld(s) && CanFetchIn(s, w)
    ensures InvHeld(DoFetchIn(s, w))
  {
    var s' := DoFetchIn(s, w);
    assert HeldByWorker(s, w);
    forall v | 0 <= v < |s'.workers| ensures HeldByWorker(s', v) {
      assert HeldByWorker(s, v);
    }
  }

  lemma FetchInPlaces(s: State, w: nat)
    requires InvOwner(s) && InvHeld(s) && InvPlace(s) && CanFetchIn(s, w)
    ensures InvPlace(DoFetchIn(s, w))
  {
    var s' := DoFetchIn(s, w);
    assert HeldByWorker(s, w);
    PlacesKept(s, s');
  }

  lemma FetchInRest(s: State, w: nat)
    requires InvHeap(s) && InvColour(s) && InvPhase(s) && InvServed(s) && InvRoots(s) && CanFetchIn(s, w)
    ensures var s' := DoFetchIn(s, w); InvHeap(s') && InvColour(s') && InvPhase(s') && InvServed(s') && InvRoots(s')
  {
    var s' := DoFetchIn(s, w);
    if s.phase == Remark {
      AwaitedKept(s, s');
    }
  }

  lemma FetchInInv(s: State, w: nat)
    requires Inv(s) && CanFetchIn(s, w)
    ensures Inv(DoFetchIn(s, w))
  {
    FetchInOwners(s, w);
    FetchInHolders(s, w);
    FetchInPlaces(s, w);
    FetchInRest(s, w);
  }

  /** When a worker looks for its next node, its out node is empty: this branch is never taken. */
  lemma FetchOutNever(s: State, w: nat)
    requires InvPhase(s)
    ensures !CanFetchOut(s, w)
  {
    assert w < |s.workers| ==> WorkerRight(s, w);
  }

  lemma FetchRetiredOwners(s: State, w: nat)
    requires InvOwner(s) && InvHeld(s) && CanFetchRetired(s, w)
    ensures InvOwner(DoFetchRetired(s, w))
  {
    var s' := DoFetchRetired(s, w);
    assert HeldByWorker(s, w);
    forall id | id in s'.owner ensures OwnedRight(s', id) {
      assert OwnedRight(s, id);
    }
  }

  lemma FetchRetiredHolders(s: State, w: nat)
    requires InvOwner(s) && InvHeld(s) && CanFetchRetired(s, w)
    ensures InvHeld(DoFetchRetired(s, w))
  {
    var s' := DoFetchRetired(s, w);
    assert HeldByWorker(s, w);
    forall v | 0 <= v < |s'.workers| ensures HeldByWorker(s', v) {
      assert HeldByWorker(s, v);
    }
  }

  lemma FetchRetiredPlaces(s: State, w: nat)
    requires InvOwner(s) && InvHeld(s) && InvPlace(s) && CanFetchRetired(s, w)
    ensures InvPlace(DoFetchRetired(s, w))
  {
    var s' := DoFetchRetired(s, w);
    assert HeldByWorker(s, w);
    PlacesKept(s, s');
  }

  lemma FetchRetiredRest(s: State, w: nat)
    requires InvHeap(s) && InvColour(s) && InvHeld(s) && InvPhase(s) && InvServed(s) && InvRoots(s)
    requires CanFetchRetired(s, w)
    ensures var s' := DoFetchRetired(s, w);
      InvHeap(s') && InvColour(s') && InvPhase(s') && InvServed(s') && InvRoots(s')
  {
    var s' := DoFetchRetired(s, w);
    if s.phase == Remark {
      AwaitedKept(s, s');
    }
  }

  lemma FetchRetiredInv(s: State, w: nat)
    requires Inv(s) && CanFetchRetired(s, w)
    ensures Inv(DoFetchRetired(s, w))
  {
    FetchRetiredOwners(s, w);
    FetchRetiredHolders(s, w);
    FetchRetiredPlaces(s, w);
    FetchRetiredRest(s, w);
  }

  lemma FetchNothingRest(s: State, w: nat)
    requires InvHeap(s) && InvColour(s) && InvPhase(s) && InvServed(s) && InvRoots(s) && CanFetchNothing(s, w)
    ensures var s' := DoFetchNothing(s, w);
      InvHeap(s') && InvColour(s') && InvPhase(s') && InvServed(s') && InvRoots(s')
  {
    var s' := DoFetchNothing(s, w);
    if s.phase == Remark {
      AwaitedKept(s, s');
    }
  }

  lemma FetchNothingInv(s: State, w: nat)
    requires Inv(s) && CanFetchNothing(s, w)
    ensures Inv(DoFetchNothing(s, w))
  {
    var s' := DoFetchNothing(s, w);
    FetchNothingRest(s, w);
    NodesKept(s, s');
    PlacesKept(s, s');
  }

  lemma ReadFieldPlaces(s: State, w: nat)
    requires InvHeap(s) && InvOwner(s) && InvHeld(s) && InvPlace(s) && CanReadField(s, w)
    ensures InvPlace(DoReadField(s, w))
  {
    var s', m := DoReadField(s, w), s.workers[w].mode;
    var v := s.heap[s.contents[m.node][m.k]][m.field];
    if v == 0 || v in s.marked {
      PlacesKept(s, s');
    } else {
      MarkedPlaces(s, s', v, InHand(w));
    }
  }

  lemma ReadFieldColours(s: State, w: nat)
    requires InvHeap(s) && InvColour(s) && InvPhase(s) && CanReadField(s, w)
    ensures InvHeap(DoReadField(s, w)) && InvColour(DoReadField(s, w))
  {
  }

  lemma ReadFieldWorker(s: State, w: nat, v: nat)
    requires CanReadField(s, w) && v < |s.workers| && WorkerRight(s, v)
    ensures WorkerRight(DoReadField(s, w), v)
  {
  }

  lemma ReadFieldPhases(s: State, w: nat)
    requires InvHeap(s) && InvPhase(s) && CanReadField(s, w)
    ensures InvPhase(DoReadField(s, w))
  {
    var s' := DoReadField(s, w);
    forall v | 0 <= v < |s'.workers| ensures WorkerRight(s', v) { ReadFieldWorker(s, w, v); }
    forall t | t in s'.tasks ensures TaskRight(s', t) { assert TaskRight(s, t); }
  }

  lemma ReadFieldAwaited(s: State, w: nat)
    requires InvPhase(s) && InvServed(s) && InvRoots(s) && CanReadField(s, w)
    ensures InvServed(DoReadField(s, w)) && InvRoots(DoReadField(s, w))
  {
    var s' := DoReadField(s, w);
    if s.phase == Remark {
      AwaitedKept(s, s');
    }
  }

  lemma ReadFieldNodes(s: State, w: nat)
    requires InvOwner(s) && InvHeld(s) && CanReadField(s, w)
    ensures InvOwner(DoReadField(s, w)) && InvHeld(DoReadField(s, w))
  {
    NodesKept(s, DoReadField(s, w));
  }

  lemma ReadFieldInv(s: State, w: nat)
    requires Inv(s) && CanReadField(s, w)
    ensures Inv(DoReadField(s, w))
  {
    ReadFieldNodes(s, w);
    ReadFieldPlaces(s, w);
    ReadFieldColours(s, w);
    ReadFieldPhases(s, w);
    ReadFieldAwaited(s, w);
  }

  lemma NextEntryStart(s: State, w: nat, id: NodeId)
    requires InvHeld(s) && CanNextEntry(s, w)
    ensures var m := s.workers[w].mode;
      Start(DoNextEntry(s, w), id) == if id == m.node then m.k + 1 else Start(s, id)
  {
    assert HeldByWorker(s, w);
  }

  lemma NextEntryPlaces(s: State, w: nat)
    requires InvHeld(s) && InvPlace(s) && CanNextEntry(s, w)
    ensures InvPlace(DoNextEntry(s, w))
  {
    var s', m := DoNextEntry(s, w), s.workers[w].mode;
    var x := s.contents[m.node][m.k];
    StartOfVisit(s, w);
    assert EntryRight(s, m.node, m.k) && s.place[x] == InNode(m.node, m.k);
    forall o | o in s'.place ensures PlacedRight(s', o) {
      assert PlacedRight(s, o);
      if s.place[o].InNode? { NextEntryStart(s, w, s.place[o].id); }
    }
    forall id, i | id in s'.contents && 0 <= i < |s'.contents[id]| ensures EntryRight(s', id, i) {
      assert EntryRight(s, id, i);
      NextEntryStart(s, w, id);
    }
  }

  lemma NextEntryRest(s: State, w: nat)
    requires InvHeap(s) && InvColour(s) && InvPhase(s) && InvServed(s) && InvRoots(s) && CanNextEntry(s, w)
    ensures var s' := DoNextEntry(s, w); InvHeap(s') && InvColour(s') && InvPhase(s') && InvServed(s') && InvRoots(s')
  {
    var s' := DoNextEntry(s, w);
    if s.phase == Remark {
      AwaitedKept(s, s');
    }
  }

  lemma NextEntryInv(s: State, w: nat)
    requires Inv(s) && CanNextEntry(s, w)
    ensures Inv(DoNextEntry(s, w))
  {
    var s' := DoNextEntry(s, w);
    NextEntryPlaces(s, w);
    NextEntryRest(s, w);
    NodesKept(s, s');
  }

  lemma FinishNodeOwners(s: State, w: nat)
    requires InvOwner(s) && InvHeld(s) && CanFinishNode(s, w)
    ensures InvOwner(DoFinishNode(s, w))
  {
    var s' := DoFinishNode(s, w);
    assert HeldByWorker(s, w);
    forall id | id in s'.owner ensures OwnedRight(s', id) {
      assert OwnedRight(s, id);
    }
  }

  lemma FinishNodeHolder(s: State, w: nat, v: nat)
    requires CanFinishNode(s, w) && HeldByWorker(s, w) && v < |s.workers| && HeldByWorker(s, v)
    ensures HeldByWorker(DoFinishNode(s, w), v)
  {
  }

  lemma FinishNodeHolders(s: State, w: nat)
    requires InvOwner(s) && InvHeld(s) && CanFinishNode(s, w)
    ensures InvHeld(DoFinishNode(s, w))
  {
    var s' := DoFinishNode(s, w);
    assert HeldByWorker(s, w);
    forall v | 0 <= v < |s'.workers| ensures HeldByWorker(s', v) {
      FinishNodeHolder(s, w, v);
    }
  }

  lemma FinishNodePlaces(s: State, w: nat)
    requires InvHeld(s) && InvPlace(s) && CanFinishNode(s, w)
    ensures InvPlace(DoFinishNode(s, w))
  {
    var s' := DoFinishNode(s, w);
    assert HeldByWorker(s, w);
    forall o | o in s'.place ensures PlacedRight(s', o) {
      assert PlacedRight(s, o);
    }
    forall id, i | id in s'.contents && 0 <= i < |s'.contents[id]| ensures EntryRight(s', id, i) {
      if id in s.contents && i < |s.contents[id]| { assert EntryRight(s, id, i); }
    }
  }

  lemma FinishNodeColours(s: State, w: nat)
    requires InvHeap(s) && InvColour(s) && CanFinishNode(s, w)
    ensures InvHeap(DoFinishNode(s, w)) && InvColour(DoFinishNode(s, w))
  {
  }

  lemma FinishNodePhases(s: State, w: nat)
    requires InvHeap(s) && InvHeld(s) && InvPhase(s) && CanFinishNode(s, w)
    ensures InvPhase(DoFinishNode(s, w))
  {
    var s' := DoFinishNode(s, w);
    assert HeldByWorker(s, w);
    forall v | 0 <= v < |s'.workers| ensures WorkerRight(s', v) {
      assert WorkerRight(s, v) && HeldByWorker(s, v);
    }
  }

  lemma FinishNodeAwaited(s: State, w: nat)
    requires InvHeap(s) && InvPhase(s) && InvServed(s) && InvRoots(s) && CanFinishNode(s, w)
    ensures InvServed(DoFinishNode(s, w)) && InvRoots(DoFinishNode(s, w))
  {
    var s' := DoFinishNode(s, w);
    if s.phase == Remark {
      assert WillServe(s', s'.workers[w]);
      AwaitedKept(s, s');
    }
  }

  lemma FinishNodeInv(s: State, w: nat)
    requires Inv(s) && CanFinishNode(s, w)
    ensures Inv(DoFinishNode(s, w))
  {
    FinishNodeOwners(s, w);
    FinishNodeHolders(s, w);
    FinishNodePlaces(s, w);
    FinishNodeColours(s, w);
    FinishNodePhases(s, w);
    FinishNodeAwaited(s, w);
  }

  lemma WorkerScanStepInv(s: State, st: Step, s': State)
    requires Inv(s) && WorkerStep(s, st, s') && ScanStep(st)
    ensures Inv(s')
  {
    match st
    case TakeTask(w) => TakeTaskInv(s, w);
    case ScanMark(w) => ScanMarkInv(s, w);
    case ScanRetire(w) => ScanRetireInv(s, w);
    case ScanDone(w) => ScanDoneInv(s, w);
    case PushRetire(w) => PushRetireInv(s, w);
  }

  lemma WorkerPushStepInv(s: State, st: Step, s': State)
    requires Inv(s) && WorkerStep(s, st, s') && PushStep(st)
    ensures Inv(s')
  {
    match st
    case GetIn(w, post) => GetInInv(s, w, post);
    case PushObj(w) => PushObjInv(s, w);
  }

  lemma WorkerFetchStepInv(s: State, st: Step, s': State)
    requires Inv(s) && WorkerStep(s, st, s') && FetchStep(st)
    ensures Inv(s')
  {
    match st
    case FetchIn(w) => FetchInInv(s, w);
    case FetchOut(w) => FetchOutNever(s, w);
  }

  lemma WorkerRetiredStepInv(s: State, st: Step, s': State)
    requires Inv(s) && WorkerStep(s, st, s') && RetiredStep(st)
    ensures Inv(s')
  {
    match st
    case FetchRetired(w) => FetchRetiredInv(s, w);
    case FetchNothing(w) => FetchNothingInv(s, w);
  }

  lemma WorkerVisitStepInv(s: State, st: Step, s': State)
    requires Inv(s) && WorkerStep(s, st, s') && VisitStep(st)
    ensures Inv(s')
  {
    match st
    case ReadField(w) => ReadFieldInv(s, w);
    case NextEntry(w) => NextEntryInv(s, w);
    case FinishNode(w) => FinishNodeInv(s, w);
  }

  // ------------------------------------------------------------------ steps of the main thread

  lemma StartCycleInv(s: State)
    requires Inv(s) && CanStartCycle(s)
    ensures Inv(DoStartCycle(s))
  {
    var s' := DoStartCycle(s);
    NodesKept(s, s');
    PlacesKept(s, s');
  }

  lemma GetOutOwners(s: State, w: nat)
    requires InvOwner(s) && InvHeld(s) && CanGetOut(s, w)
    ensures InvOwner(DoGetOut(s, w))
  {
    var s' := DoGetOut(s, w);
    assert HeldByWorker(s, w);
    forall id | id in s'.owner ensures OwnedRight(s', id) {
      assert OwnedRight(s, id);
    }
  }

  lemma GetOutHolders(s: State, w: nat)
    requires InvOwner(s) && InvHeld(s) && CanGetOut(s, w)
    ensures InvHeld(DoGetOut(s, w))
  {
    var s' := DoGetOut(s, w);
    assert HeldByWorker(s, w);
    forall v | 0 <= v < |s'.workers| ensures HeldByWorker(s', v) {
      assert HeldByWorker(s, v);
    }
  }

  lemma GetOutPlaces(s: State, w: nat)
    requires InvOwner(s) && InvHeld(s) && InvPlace(s) && CanGetOut(s, w)
    ensures InvPlace(DoGetOut(s, w))
  {
    var s' := DoGetOut(s, w);
    assert HeldByWorker(s, w);
    PlacesKept(s, s');
  }

  lemma GetOutRest(s: State, w: nat)
    requires InvHeap(s) && InvColour(s) && InvHeld(s) && InvPhase(s) && InvServed(s) && InvRoots(s) && CanGetOut(s, w)
    ensures var s' := DoGetOut(s, w); InvHeap(s') && InvColour(s') && InvPhase(s') && InvServed(s') && InvRoots(s')
  {
  }

  lemma GetOutInv(s: State, w: nat)
    requires Inv(s) && CanGetOut(s, w)
    ensures Inv(DoGetOut(s, w))
  {
    GetOutOwners(s, w);
    GetOutHolders(s, w);
    GetOutPlaces(s, w);
    GetOutRest(s, w);
  }

  lemma StartCollectInv(s: State, scans: seq<Task>)
    requires Inv(s) && CanStartCollect(s, scans)
    ensures Inv(DoStartCollect(s, scans))
  {
    var s' := DoStartCollect(s, scans);
    NodesKept(s, s');
    PlacesKept(s, s');
  }

  lemma EndCollectInv(s: State)
    requires Inv(s) && CanEndCollect(s)
    ensures Inv(DoEndCollect(s))
  {
    var s' := DoEndCollect(s);
    NodesKept(s, s');
    PlacesKept(s, s');
  }

  lemma PostInOwners(s: State, w: nat)
    requires InvOwner(s) && InvHeld(s) && CanPostIn(s, w)
    ensures InvOwner(DoPostIn(s, w))
  {
    var s' := DoPostIn(s, w);
    assert HeldByWorker(s, w);
    forall id | id in s'.owner ensures OwnedRight(s', id) {
      assert OwnedRight(s, id);
    }
  }

  lemma PostInHolders(s: State, w: nat)
    requires InvOwner(s) && InvHeld(s) && CanPostIn(s, w)
    ensures InvHeld(DoPostIn(s, w))
  {
    var s' := DoPostIn(s, w);
    assert HeldByWorker(s, w);
    forall v | 0 <= v < |s'.workers| ensures HeldByWorker(s', v) {
      assert HeldByWorker(s, v);
    }
  }

  lemma PostInPlaces(s: State, w: nat)
    requires InvOwner(s) && InvHeld(s) && InvPlace(s) && CanPostIn(s, w)
    ensures InvPlace(DoPostIn(s, w))
  {
    var s' := DoPostIn(s, w);
    assert HeldByWorker(s, w);
    PlacesKept(s, s');
  }

  lemma PostInRest(s: State, w: nat)
    requires InvHeap(s) && InvColour(s) && InvPhase(s) && InvServed(s) && InvRoots(s) && CanPostIn(s, w)
    ensures var s' := DoPostIn(s, w); InvHeap(s') && InvColour(s') && InvPhase(s') && InvServed(s') && InvRoots(s')
  {
  }

  lemma PostInInv(s: State, w: nat)
    requires Inv(s) && CanPostIn(s, w)
    ensures Inv(DoPostIn(s, w))
  {
    PostInOwners(s, w);
    PostInHolders(s, w);
    PostInPlaces(s, w);
    PostInRest(s, w);
  }

  lemma StartConcurrentInv(s: State)
    requires Inv(s) && CanStartConcurrent(s)
    ensures Inv(DoStartConcurrent(s))
  {
    var s' := DoStartConcurrent(s);
    NodesKept(s, s');
    PlacesKept(s, s');
  }

  lemma StartRemarkOwners(s: State, scans: seq<Task>, own: seq<Obj>)
    requires InvOwner(s) && InvHeld(s) && CanStartRemark(s, scans, own)
    ensures InvOwner(DoStartRemark(s, scans, own))
  {
    var s' := DoStartRemark(s, scans, own);
    forall id | id in s'.owner ensures OwnedRight(s', id) {
      assert OwnedRight(s, id);
    }
  }

  lemma StartRemarkHolders(s: State, scans: seq<Task>, own: seq<Obj>)
    requires InvOwner(s) && InvHeld(s) && CanStartRemark(s, scans, own)
    ensures InvHeld(DoStartRemark(s, scans, own))
  {
    var s' := DoStartRemark(s, scans, own);
    forall v | 0 <= v < |s'.workers| ensures HeldByWorker(s', v) {
      assert HeldByWorker(s, v);
    }
  }

  lemma StartRemarkPlaces(s: State, scans: seq<Task>, own: seq<Obj>)
    requires InvOwner(s) && InvHeld(s) && InvPlace(s) && CanStartRemark(s, scans, own)
    ensures InvPlace(DoStartRemark(s, scans, own))
  {
    var s' := DoStartRemark(s, scans, own);
    forall id ensures Start(s', id) == Start(s, id) { }
    PlacesKept(s, s');
  }

  lemma StartRemarkColours(s: State, scans: seq<Task>, own: seq<Obj>)
    requires InvHeap(s) && InvColour(s) && CanStartRemark(s, scans, own)
    ensures InvHeap(DoStartRemark(s, scans, own)) && InvColour(DoStartRemark(s, scans, own))
  {
  }

  lemma StartRemarkWorker(s: State, scans: seq<Task>, own: seq<Obj>, v: nat)
    requires CanStartRemark(s, scans, own) && v < |s.workers| && WorkerRight(s, v) && HeldByWorker(s, v)
    requires s.phase == Prologue ==> forall id :: id in s.contents ==> s.contents[id] == []
    ensures WorkerRight(DoStartRemark(s, scans, own), v)
  {
  }

  lemma StartRemarkPhases(s: State, scans: seq<Task>, own: seq<Obj>)
    requires InvOwner(s) && InvHeld(s) && InvPlace(s) && InvPhase(s) && CanStartRemark(s, scans, own)
    ensures InvPhase(DoStartRemark(s, scans, own))
  {
    var s' := DoStartRemark(s, scans, own);
    if s.phase == Prologue {
      forall id | id in s.contents ensures s.contents[id] == [] {
        NodesEmpty(s, id);
      }
    }
    forall v | 0 <= v < |s'.workers| ensures WorkerRight(s', v) {
      StartRemarkWorker(s, scans, own, v);
    }
    forall t | t in s'.tasks ensures TaskRight(s', t) {
      assert TaskRight(s, t);
    }
  }

  lemma StartRemarkTodo(s: State, scans: seq<Task>, own: seq<Obj>)
    requires CanStartRemark(s, scans, own)
    ensures InvTodo(DoStartRemark(s, scans, own))
  {
    var s' := DoStartRemark(s, scans, own);
    forall i | 0 <= i < |s'.todo| - 1 ensures PostRight(s'.todo[i], s'.heap.Keys) {
      assert i > 0 ==> s'.todo[i] == scans[i - 1] && scans[i - 1] in scans;
    }
  }

  lemma StartRemarkAwaited(s: State, scans: seq<Task>, own: seq<Obj>)
    requires InvServed(s) && InvRoots(s) && CanStartRemark(s, scans, own)
    ensures InvServed(DoStartRemark(s, scans, own)) && InvRoots(DoStartRemark(s, scans, own))
  {
    var s' := DoStartRemark(s, scans, own);
    forall r | r in s'.roots && r != 0 ensures r in s'.marked || Awaits(s', r) {
      if r in own {
        assert s'.todo[|scans| + 1] == ScanTask(own, Retire);
      } else {
        var t :| t in scans && t.ScanTask? && r in t.objs;
        var i :| 0 <= i < |scans| && scans[i] == t;
        assert s'.todo[1 + i] == t;
      }
    }
  }

  lemma StartRemarkInv(s: State, scans: seq<Task>, own: seq<Obj>)
    requires Inv(s) && CanStartRemark(s, scans, own)
    ensures Inv(DoStartRemark(s, scans, own))
  {
    StartRemarkOwners(s, scans, own);
    StartRemarkHolders(s, scans, own);
    StartRemarkPlaces(s, scans, own);
    StartRemarkColours(s, scans, own);
    StartRemarkPhases(s, scans, own);
    StartRemarkTodo(s, scans, own);
    StartRemarkAwaited(s, scans, own);
  }

  lemma PostNextKept(s: State)
    requires InvHeap(s) && InvColour(s) && InvOwner(s) && InvHeld(s) && InvPlace(s) && CanPostNext(s)
    ensures var s' := DoPostNext(s);
      InvHeap(s') && InvColour(s') && InvOwner(s') && InvHeld(s') && InvPlace(s')
  {
    var s' := DoPostNext(s);
    NodesKept(s, s');
    PlacesKept(s, s');
    forall o | o in s'.marked ensures DoneRight(s', o) { assert DoneRight(s, o); }
    forall w | 0 <= w < |s'.workers| ensures VisitRight(s', w) { assert VisitRight(s, w); }
  }

  lemma PostNextPhases(s: State)
    requires InvPhase(s) && InvTodo(s) && CanPostNext(s)
    ensures InvPhase(DoPostNext(s)) && InvTodo(DoPostNext(s))
  {
    var s' := DoPostNext(s);
    assert PostRight(s.todo[0], s.heap.Keys);
    forall v | 0 <= v < |s'.workers| ensures WorkerRight(s', v) { assert WorkerRight(s, v); }
    forall t | t in s'.tasks ensures TaskRight(s', t) { assert t in s.tasks ==> TaskRight(s, t); }
    forall i | 0 <= i < |s'.todo| - 1 ensures PostRight(s'.todo[i], s'.heap.Keys) {
      assert s'.todo[i] == s.todo[i + 1];
    }
  }

  lemma PostNextAwaited(s: State)
    requires InvServed(s) && InvRoots(s) && CanPostNext(s)
    ensures InvServed(DoPostNext(s)) && InvRoots(DoPostNext(s))
  {
    var s' := DoPostNext(s);
    forall r | r in s'.roots && r != 0 ensures r in s'.marked || Awaits(s', r) {
      if AwaitsTask(s, r) {
        var i :| 0 <= i < |s.tasks| && s.tasks[i].ScanTask? && r in s.tasks[i].objs;
        assert s'.tasks[i] == s.tasks[i];
      } else if AwaitsTodo(s, r) {
        var i :| 0 <= i < |s.todo| && s.todo[i].ScanTask? && r in s.todo[i].objs;
        assert if i == 0 then s'.tasks[|s.tasks|] == s.todo[0] else s'.todo[i - 1] == s.todo[i];
      } else if w :| AwaitsWorker(s, w, r) {
        assert AwaitsWorker(s', w, r);
      }
    }
  }

  lemma PostNextInv(s: State)
    requires Inv(s) && CanPostNext(s)
    ensures Inv(DoPostNext(s))
  {
    PostNextKept(s);
    PostNextPhases(s);
    PostNextAwaited(s);
  }

  lemma ScanOwnKept(s: State)
    requires InvHeap(s) && InvColour(s) && InvOwner(s) && InvHeld(s) && InvPlace(s) && CanScanOwn(s)
    ensures var s' := DoScanOwn(s);
      InvHeap(s') && InvColour(s') && InvOwner(s') && InvHeld(s') && InvPlace(s')
  {
    var s' := DoScanOwn(s);
    NodesKept(s, s');
    forall id ensures Start(s', id) == Start(s, id) { }
    PlacesKept(s, s');
    forall o | o in s'.marked ensures DoneRight(s', o) { assert DoneRight(s, o); }
    forall w | 0 <= w < |s'.workers| ensures VisitRight(s', w) { assert VisitRight(s, w); }
  }

  lemma ScanOwnPhases(s: State)
    requires InvPhase(s) && InvTodo(s) && CanScanOwn(s)
    ensures InvPhase(DoScanOwn(s)) && InvTodo(DoScanOwn(s))
  {
    var s' := DoScanOwn(s);
    forall v | 0 <= v < |s'.workers| ensures WorkerRight(s', v) { assert WorkerRight(s, v); }
    forall t | t in s'.tasks ensures TaskRight(s', t) { assert TaskRight(s, t); }
  }

  lemma ScanOwnAwaited(s: State)
    requires InvServed(s) && InvRoots(s) && CanScanOwn(s)
    ensures InvServed(DoScanOwn(s)) && InvRoots(DoScanOwn(s))
  {
    var s' := DoScanOwn(s);
    forall r | r in s'.roots && r != 0 ensures r in s'.marked || Awaits(s', r) {
      if AwaitsTodo(s, r) {
        assert AwaitsWorker(s', 0, r);
      } else if w :| AwaitsWorker(s, w, r) {
        assert AwaitsWorker(s', w, r);
      }
    }
    if w :| 0 <= w < |s.workers| && WillServe(s, s.workers[w]) {
      assert w != 0 && WillServe(s', s'.workers[w]);
    }
  }

  lemma ScanOwnInv(s: State)
    requires Inv(s) && CanScanOwn(s)
    ensures Inv(DoScanOwn(s))
  {
    ScanOwnKept(s);
    ScanOwnPhases(s);
    ScanOwnAwaited(s);
  }

  lemma EndRemarkInv(s: State)
    requires Inv(s) && CanEndRemark(s)
    ensures Inv(DoEndRemark(s))
  {
    var s' := DoEndRemark(s);
    RemarkDrains(s);
    NodesKept(s, s');
    PlacesKept(s, s');
  }

  lemma DropInNodes(s: State, w: nat)
    requires InvOwner(s) && InvHeld(s) && InvPlace(s) && InvPhase(s) && CanDropIn(s, w)
    ensures InvOwner(DoDropIn(s, w)) && InvHeld(DoDropIn(s, w))
  {
    var s' := DoDropIn(s, w);
    assert HeldByWorker(s, w);
    NodesEmpty(s, s.workers[w].inn.value);
    forall id | id in s'.owner ensures OwnedRight(s', id) {
      assert OwnedRight(s, id);
    }
    forall v | 0 <= v < |s'.workers| ensures HeldByWorker(s', v) {
      assert HeldByWorker(s, v);
    }
  }

  lemma DropInPlaces(s: State, w: nat)
    requires InvOwner(s) && InvHeld(s) && InvPlace(s) && CanDropIn(s, w)
    ensures InvPlace(DoDropIn(s, w))
  {
    var s' := DoDropIn(s, w);
    assert HeldByWorker(s, w);
    PlacesKept(s, s');
  }

  lemma DropInRest(s: State, w: nat)
    requires InvHeap(s) && InvColour(s) && InvPhase(s) && InvServed(s) && InvRoots(s) && CanDropIn(s, w)
    ensures var s' := DoDropIn(s, w); InvHeap(s') && InvColour(s') && InvPhase(s') && InvServed(s') && InvRoots(s')
  {
  }

  lemma DropInInv(s: State, w: nat)
    requires Inv(s) && CanDropIn(s, w)
    ensures Inv(DoDropIn(s, w))
  {
    DropInNodes(s, w);
    DropInPlaces(s, w);
    DropInRest(s, w);
  }

  lemma DropOutNodes(s: State, w: nat)
    requires InvOwner(s) && InvHeld(s) && InvPlace(s) && InvPhase(s) && CanDropOut(s, w)
    ensures InvOwner(DoDropOut(s, w)) && InvHeld(DoDropOut(s, w))
  {
    var s' := DoDropOut(s, w);
    assert HeldByWorker(s, w);
    NodesEmpty(s, s.workers[w].out.value);
    forall id | id in s'.owner ensures OwnedRight(s', id) {
      assert OwnedRight(s, id);
    }
    forall v | 0 <= v < |s'.workers| ensures HeldByWorker(s', v) {
      assert HeldByWorker(s, v);
    }
  }

  lemma DropOutPlaces(s: State, w: nat)
    requires InvOwner(s) && InvHeld(s) && InvPlace(s) && InvPhase(s) && CanDropOut(s, w)
    ensures InvPlace(DoDropOut(s, w))
  {
    var s' := DoDropOut(s, w);
    assert WorkerRight(s, w) && HeldByWorker(s, w);
    PlacesKept(s, s');
  }

  lemma DropOutRest(s: State, w: nat)
    requires InvHeap(s) && InvColour(s) && InvPhase(s) && InvServed(s) && InvRoots(s) && CanDropOut(s, w)
    ensures var s' := DoDropOut(s, w); InvHeap(s') && InvColour(s') && InvPhase(s') && InvServed(s') && InvRoots(s')
  {
  }

  lemma DropOutInv(s: State, w: nat)
    requires Inv(s) && CanDropOut(s, w)
    ensures Inv(DoDropOut(s, w))
  {
    DropOutNodes(s, w);
    DropOutPlaces(s, w);
    DropOutRest(s, w);
  }

  lemma StartSweepInv(s: State)
    requires Inv(s) && CanStartSweep(s)
    ensures Inv(DoStartSweep(s))
  {
    var s' := DoStartSweep(s);
    NodesKept(s, s');
    PlacesKept(s, s');
  }

  lemma SweepOneInv(s: State, o: Obj)
    requires Inv(s) && CanSweepOne(s, o)
    ensures Inv(DoSweepOne(s, o))
  {
    var s' := DoSweepOne(s, o);
    NodesKept(s, s');
    PlacesKept(s, s');
  }

  lemma EndSweepKept(s: State)
    requires InvOwner(s) && InvHeld(s) && InvPlace(s) && InvPhase(s) && CanEndSweep(s)
    ensures var s' := DoEndSweep(s); InvOwner(s') && InvHeld(s') && InvPlace(s')
  {
    var s' := DoEndSweep(s);
    NodesKept(s, s');
    forall id | id in s.contents ensures s.contents[id] == [] {
      NodesEmpty(s, id);
    }
    forall v | 0 <= v < |s.workers| ensures s.workers[v].hand == 0 { assert WorkerRight(s, v); }
  }

  lemma EndSweepRest(s: State)
    requires InvHeap(s) && InvColour(s) && InvPhase(s) && CanEndSweep(s)
    requires forall o :: o in s.marked ==> o in s.place && s.place[o] == Done
    ensures var s' := DoEndSweep(s); InvHeap(s') && InvColour(s') && InvPhase(s') && InvServed(s') && InvRoots(s')
  {
    var s' := DoEndSweep(s);
    forall v | 0 <= v < |s'.workers| ensures WorkerRight(s', v) { assert WorkerRight(s, v); }
    forall o, f | o in s'.heap && 0 <= f < |s'.heap[o]| && s'.heap[o][f] != 0 ensures s'.heap[o][f] in s'.heap {
      assert DoneRight(s, o) && Shaded(s, s.heap[o][f]);
    }
  }

  lemma EndSweepInv(s: State)
    requires Inv(s) && CanEndSweep(s)
    ensures Inv(DoEndSweep(s))
  {
    EndSweepKept(s);
    EndSweepRest(s);
  }

  predicate EarlyStep(st: Step) {
    st.StartCycle? || st.GetOut? || st.StartCollect? || st.EndCollect? || st.PostIn? || st.StartConcurrent?
  }

  lemma EarlyStepInv(s: State, st: Step, s': State)
    requires Inv(s) && MainStep(s, st, s') && EarlyStep(st)
    ensures Inv(s')
  {
    match st
    case StartCycle => StartCycleInv(s);
    case GetOut(w) => GetOutInv(s, w);
    case StartCollect(scans) => StartCollectInv(s, scans);
    case EndCollect => EndCollectInv(s);
    case PostIn(w) => PostInInv(s, w);
    case StartConcurrent => StartConcurrentInv(s);
  }

  lemma LateStepInv(s: State, st: Step, s': State)
    requires Inv(s) && MainStep(s, st, s') && !EarlyStep(st)
    ensures Inv(s')
  {
    match st
    case StartRemark(scans, own) => StartRemarkInv(s, scans, own);
    case PostNext => PostNextInv(s);
    case ScanOwn => ScanOwnInv(s);
    case EndRemark => EndRemarkInv(s);
    case DropIn(w) => DropInInv(s, w);
    case DropOut(w) => DropOutInv(s, w);
    case StartSweep => StartSweepInv(s);
    case SweepOne(o) => SweepOneInv(s, o);
    case EndSweep => EndSweepInv(s);
    case _ =>
  }

  // ------------------------------------------------------------------ runs

  lemma NextInv(s: State, s': State)
    requires Inv(s) && Next(s, s')
    ensures Inv(s')
  {
    var st :| MutatorStep(s, st, s') || WorkerStep(s, st, s') || MainStep(s, st, s');
    if MutatorStep(s, st, s') {
      if BarrierStep(st) { BarrierStepInv(s, st, s'); } else { HeapStepInv(s, st, s'); }
    } else if WorkerStep(s, st, s') {
      if ScanStep(st) {
        WorkerScanStepInv(s, st, s');
      } else if PushStep(st) {
        WorkerPushStepInv(s, st, s');
      } else if FetchStep(st) {
        WorkerFetchStepInv(s, st, s');
      } else if RetiredStep(st) {
        WorkerRetiredStepInv(s, st, s');
      } else {
        WorkerVisitStepInv(s, st, s');
      }
    } else if EarlyStep(st) {
      EarlyStepInv(s, st, s');
    } else {
      LateStepInv(s, st, s');
    }
  }

  /** Every state of every run, in every interleaving, satisfies the invariant. */
  lemma {:induction false} RunInv(states: seq<State>, i: nat)
    requires Run(states) && i < |states|
    ensures Inv(states[i])
  {
    if i == 0 {
      InitInv(states[0]);
    } else {
      RunInv(states, i - 1);
      assert Next(states[i - 1], states[i - 1 + 1]);
      NextInv(states[i - 1], states[i]);
    }
  }
}
