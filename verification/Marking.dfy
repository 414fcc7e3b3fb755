/**
 Concurrent marking and sweeping as a state machine.

 The mutator, the marking workers and the collector's main thread take turns in any order; one
 step is one atomic operation or one section under a lock. Mark bits are set by an atomic
 test-and-set, so that a newly marked object is for a while in the hands of the thread that
 marked it. Work is passed around in fixed-size nodes; a node is held by its number, and its
 contents are looked up in one shared table, so that a node with two owners would show.

 Two components are bookkeeping that no step reads: `owner` says where each node is, and `where`
 says where the obligation to visit each marked object is.
 */
module Marking {
  import opened Collections

  type Obj = nat // an object's address; 0 is the null pointer
  type NodeId = nat

  const NODE_CAPACITY: nat := 61 // (504 - 16) / 8 entries of eight bytes behind the node's header

  datatype After = Execute | Stay | Retire

  datatype Mode =
    | Idle
    | Scanning(objs: seq<Obj>, after: After)
    | Fetching
    | Visiting(node: NodeId, k: nat, field: nat)

  datatype Task = ExecTask | ScanTask(objs: seq<Obj>, after: After)

  datatype Worker = Worker(inn: Option<NodeId>, out: Option<NodeId>, hand: Obj, mode: Mode)

  /** The mutator's progress through the write barrier. */
  datatype Barrier = NoBarrier | ToMark(v: Obj) | ToPush(v: Obj)

  datatype Phase = Resting | Prologue | Collect | Posting | Concurrent | Remark | Epilogue | Sweep

  datatype Owner = OwnFree(i: nat) | OwnRetired(i: nat) | OwnIn(w: nat) | OwnOut(w: nat) | OwnRun(w: nat) | OwnBarrier

  datatype Place = InNode(id: NodeId, i: nat) | InHand(w: nat) | InMutator | Done

  datatype State = State(
    phase: Phase,
    heap: map<Obj, seq<Obj>>,
    roots: seq<Obj>,
    marked: set<Obj>,
    toSweep: set<Obj>,
    pc: Barrier,
    workers: seq<Worker>,
    tasks: seq<Task>,
    todo: seq<Task>, // what the main thread has still to post, and then to scan itself, at the start of a remark
    contents: map<NodeId, seq<Obj>>,
    free: seq<NodeId>,
    retired: seq<NodeId>,
    barrier: Option<NodeId>,
    owner: map<NodeId, Owner>,
    place: map<Obj, Place>)

  ghost predicate Init(s: State) {
    && s.phase == Resting && s.heap == map[] && s.roots == [] && s.marked == {} && s.toSweep == {}
    && s.pc == NoBarrier && s.tasks == [] && s.todo == [] && s.contents == map[] && s.free == [] && s.retired == []
    && s.barrier == None && s.owner == map[] && s.place == map[]
    && s.workers != []
    && forall w :: 0 <= w < |s.workers| ==> s.workers[w] == Worker(None, None, 0, Idle)
  }

  // ------------------------------------------------------------------ helpers of the steps

  function WithWorker(s: State, w: nat, wk: Worker): State
    requires w < |s.workers|
  {
    s.(workers := s.workers[w := wk])
  }

  /** Test-and-set of a mark bit by worker `w`, which keeps a newly marked object in its hand. */
  function MarkByWorker(s: State, w: nat, v: Obj, wk: Worker): State
    requires w < |s.workers|
  {
    if v == 0 || v in s.marked then WithWorker(s, w, wk)
    else
      WithWorker(s, w, wk.(hand := v)).(marked := s.marked + {v}, place := s.place[v := InHand(w)])
  }

  predicate InNodeEmpty(s: State, wk: Worker) {
    wk.inn.Some? && wk.inn.value in s.contents && s.contents[wk.inn.value] == []
  }

  predicate OutNodeEmpty(s: State, wk: Worker) {
    wk.out.Some? && wk.out.value in s.contents && s.contents[wk.out.value] == []
  }

  /** No task is queued and every worker waits for one: what waiting for the pool establishes. */
  ghost predicate Quiet(s: State) {
    s.tasks == [] && forall w :: 0 <= w < |s.workers| ==> s.workers[w].mode == Idle
  }

  /** The same, once the main thread has posted everything. */
  ghost predicate Finished(s: State) {
    Quiet(s) && s.todo == []
  }

  predicate WorkersRun(p: Phase) { p == Collect || p == Concurrent || p == Remark }

  /** Between a remark and the sweep the mutator runs as the finalizers. */
  predicate MutatorRuns(s: State) {
    && (s.phase == Resting || s.phase == Concurrent || s.phase == Epilogue || s.phase == Sweep)
    && s.pc == NoBarrier
  }

  /** From the finalizers on, until the end of the sweep, new objects are born marked. */
  predicate BornMarked(p: Phase) { p == Epilogue || p == Sweep }

  // ------------------------------------------------------------------ the steps

  datatype Step =
    // mutator
    | Alloc(i: nat, a: Obj, n: nat)
    | Move(i: nat, j: nat)
    | Load(i: nat, j: nat, f: nat)
    | ClearRoot(i: nat)
    | GrowRoots
    | Store(j: nat, f: nat, k: nat)
    | BarrierMark
    | BarrierRetire
    | BarrierGet
    | BarrierPush
    // shared node supply
    | CreateNode(id: NodeId)
    // workers
    | TakeTask(w: nat)
    | ScanMark(w: nat)
    | ScanRetire(w: nat)
    | ScanDone(w: nat)
    | PushRetire(w: nat)
    | GetIn(w: nat, post: bool)
    | PushObj(w: nat)
    | FetchIn(w: nat)
    | FetchOut(w: nat)
    | FetchRetired(w: nat)
    | FetchNothing(w: nat)
    | ReadField(w: nat)
    | NextEntry(w: nat)
    | FinishNode(w: nat)
    // main thread
    | StartCycle
    | GetOut(w: nat)
    | StartCollect(scans: seq<Task>)
    | EndCollect
    | PostIn(w: nat)
    | StartConcurrent
    | StartRemark(scans: seq<Task>, own: seq<Obj>)
    | PostNext
    | ScanOwn
    | EndRemark
    | DropIn(w: nat)
    | DropOut(w: nat)
    | StartSweep
    | SweepOne(o: Obj)
    | EndSweep

  /** Every non-null root is in one of the lists to scan. */
  ghost predicate CoversRoots(s: State, scans: seq<Task>, own: seq<Obj>) {
    forall r :: r in s.roots && r != 0 ==> r in own || exists t :: t in scans && t.ScanTask? && r in t.objs
  }

  ghost predicate ValidScan(s: State, objs: seq<Obj>) {
    forall o :: o in objs && o != 0 ==> o in s.heap
  }

  ghost predicate ScanTasks(s: State, scans: seq<Task>, after: After) {
    forall t :: t in scans ==> t.ScanTask? && t.after == after && ValidScan(s, t.objs)
  }

  ghost predicate AllNodesReady(s: State) {
    forall w :: 0 <= w < |s.workers| ==> s.workers[w].inn.Some? && s.workers[w].out.Some?
  }

  // ------------------------------------------------------------------ steps of the mutator

  ghost predicate CanAlloc(s: State, i: nat, a: Obj, n: nat) {
    MutatorRuns(s) && i < |s.roots| && a != 0 && a !in s.heap
  }

  ghost function DoAlloc(s: State, i: nat, a: Obj, n: nat): State
    requires CanAlloc(s, i, a, n)
  {
    var t := s.(heap := s.heap[a := seq(n, _ => 0)], roots := s.roots[i := a]);
    if BornMarked(s.phase) then t.(marked := s.marked + {a}, place := s.place[a := Done]) else t
  }

  ghost predicate CanMove(s: State, i: nat, j: nat) {
    MutatorRuns(s) && i < |s.roots| && j < |s.roots|
  }

  ghost function DoMove(s: State, i: nat, j: nat): State
    requires CanMove(s, i, j)
  {
    s.(roots := s.roots[i := s.roots[j]])
  }

  ghost predicate CanLoad(s: State, i: nat, j: nat, f: nat) {
    MutatorRuns(s) && i < |s.roots| && j < |s.roots| && s.roots[j] in s.heap && f < |s.heap[s.roots[j]]|
  }

  ghost function DoLoad(s: State, i: nat, j: nat, f: nat): State
    requires CanLoad(s, i, j, f)
  {
    s.(roots := s.roots[i := s.heap[s.roots[j]][f]])
  }

  ghost predicate CanClearRoot(s: State, i: nat) {
    MutatorRuns(s) && i < |s.roots|
  }

  ghost function DoClearRoot(s: State, i: nat): State
    requires CanClearRoot(s, i)
  {
    s.(roots := s.roots[i := 0])
  }

  ghost predicate CanGrowRoots(s: State) {
    MutatorRuns(s)
  }

  ghost function DoGrowRoots(s: State): State
    requires CanGrowRoots(s)
  {
    s.(roots := s.roots + [0])
  }

  ghost predicate CanStore(s: State, j: nat, f: nat, k: nat) {
    MutatorRuns(s) && j < |s.roots| && k < |s.roots| && s.roots[j] in s.heap && f < |s.heap[s.roots[j]]|
  }

  ghost function DoStore(s: State, j: nat, f: nat, k: nat): State
    requires CanStore(s, j, f, k)
  {
    var o, v := s.roots[j], s.roots[k];
    s.(heap := s.heap[o := s.heap[o][f := v]],
       pc := if s.phase == Concurrent && v != 0 then ToMark(v) else NoBarrier)
  }

  ghost predicate CanBarrierMark(s: State) {
    s.pc.ToMark?
  }

  ghost function DoBarrierMark(s: State): State
    requires CanBarrierMark(s)
  {
    var v := s.pc.v;
    if v in s.marked then s.(pc := NoBarrier)
    else s.(marked := s.marked + {v}, place := s.place[v := InMutator], pc := ToPush(v))
  }

  ghost predicate CanBarrierRetire(s: State) {
    s.pc.ToPush? && s.barrier.Some? && s.barrier.value in s.contents
    && |s.contents[s.barrier.value]| == NODE_CAPACITY
  }

  ghost function DoBarrierRetire(s: State): State
    requires CanBarrierRetire(s)
  {
    var n := s.barrier.value;
    s.(barrier := None, retired := s.retired + [n], owner := s.owner[n := OwnRetired(|s.retired|)])
  }

  ghost predicate CanBarrierGet(s: State) {
    s.pc.ToPush? && s.barrier.None? && s.free != []
  }

  ghost function DoBarrierGet(s: State): State
    requires CanBarrierGet(s)
  {
    var n := s.free[|s.free| - 1];
    s.(barrier := Some(n), free := s.free[..|s.free| - 1], owner := s.owner[n := OwnBarrier])
  }

  ghost predicate CanBarrierPush(s: State) {
    s.pc.ToPush? && s.barrier.Some? && s.barrier.value in s.contents
    && |s.contents[s.barrier.value]| < NODE_CAPACITY
  }

  ghost function DoBarrierPush(s: State): State
    requires CanBarrierPush(s)
  {
    var n := s.barrier.value;
    s.(contents := s.contents[n := s.contents[n] + [s.pc.v]],
       place := s.place[s.pc.v := InNode(n, |s.contents[n]|)], pc := NoBarrier)
  }

  ghost predicate CanCreateNode(s: State, id: NodeId) {
    id !in s.contents
  }

  ghost function DoCreateNode(s: State, id: NodeId): State
    requires CanCreateNode(s, id)
  {
    s.(contents := s.contents[id := []], free := s.free + [id], owner := s.owner[id := OwnFree(|s.free|)])
  }

  // ------------------------------------------------------------------ steps of the workers

  ghost predicate CanTakeTask(s: State, w: nat) {
    WorkersRun(s.phase) && w < |s.workers| && s.workers[w].mode.Idle? && s.tasks != []
  }

  ghost function DoTakeTask(s: State, w: nat): State
    requires CanTakeTask(s, w)
  {
    var mode := match s.tasks[0] case ExecTask => Fetching case ScanTask(objs, after) => Scanning(objs, after);
    WithWorker(s, w, s.workers[w].(mode := mode)).(tasks := s.tasks[1..])
  }

  ghost predicate CanScanMark(s: State, w: nat) {
    w < |s.workers| && s.workers[w].mode.Scanning? && s.workers[w].mode.objs != [] && s.workers[w].hand == 0
  }

  ghost function DoScanMark(s: State, w: nat): State
    requires CanScanMark(s, w)
  {
    var m := s.workers[w].mode;
    MarkByWorker(s, w, m.objs[0], s.workers[w].(mode := m.(objs := m.objs[1..])))
  }

  ghost predicate CanScanRetire(s: State, w: nat) {
    && w < |s.workers| && s.workers[w].mode == Scanning([], Retire) && s.workers[w].hand == 0
    && s.workers[w].inn.Some? && s.workers[w].inn.value in s.contents && !InNodeEmpty(s, s.workers[w])
  }

  ghost function DoScanRetire(s: State, w: nat): State
    requires CanScanRetire(s, w)
  {
    var n := s.workers[w].inn.value;
    WithWorker(s, w, s.workers[w].(inn := None)).(
      retired := s.retired + [n], owner := s.owner[n := OwnRetired(|s.retired|)], tasks := s.tasks + [ExecTask])
  }

  ghost predicate CanScanDone(s: State, w: nat) {
    && w < |s.workers| && s.workers[w].mode.Scanning? && s.workers[w].mode.objs == [] && s.workers[w].hand == 0
    && (s.workers[w].mode.after == Retire ==> InNodeEmpty(s, s.workers[w]))
  }

  ghost function DoScanDone(s: State, w: nat): State
    requires CanScanDone(s, w)
  {
    WithWorker(s, w, s.workers[w].(mode := if s.workers[w].mode.after == Execute then Fetching else Idle))
  }

  ghost predicate CanPushRetire(s: State, w: nat) {
    && w < |s.workers| && s.workers[w].hand != 0
    && s.workers[w].inn.Some? && s.workers[w].inn.value in s.contents
    && |s.contents[s.workers[w].inn.value]| == NODE_CAPACITY
  }

  ghost function DoPushRetire(s: State, w: nat): State
    requires CanPushRetire(s, w)
  {
    var n := s.workers[w].inn.value;
    WithWorker(s, w, s.workers[w].(inn := None)).(
      retired := s.retired + [n], owner := s.owner[n := OwnRetired(|s.retired|)])
  }

  ghost predicate CanGetIn(s: State, w: nat, post: bool) {
    && w < |s.workers| && s.workers[w].inn.None? && s.free != []
    && (s.phase == Prologue || s.phase == Posting || WorkersRun(s.phase))
    && (post ==> s.workers[w].hand != 0)
  }

  ghost function DoGetIn(s: State, w: nat, post: bool): State
    requires CanGetIn(s, w, post)
  {
    var n := s.free[|s.free| - 1];
    WithWorker(s, w, s.workers[w].(inn := Some(n))).(
      free := s.free[..|s.free| - 1], owner := s.owner[n := OwnIn(w)],
      tasks := if post then s.tasks + [ExecTask] else s.tasks)
  }

  ghost predicate CanPushObj(s: State, w: nat) {
    && w < |s.workers| && s.workers[w].hand != 0
    && s.workers[w].inn.Some? && s.workers[w].inn.value in s.contents
    && |s.contents[s.workers[w].inn.value]| < NODE_CAPACITY
  }

  ghost function DoPushObj(s: State, w: nat): State
    requires CanPushObj(s, w)
  {
    var n, v := s.workers[w].inn.value, s.workers[w].hand;
    WithWorker(s, w, s.workers[w].(hand := 0)).(
      contents := s.contents[n := s.contents[n] + [v]], place := s.place[v := InNode(n, |s.contents[n]|)])
  }

  ghost predicate CanFetchIn(s: State, w: nat) {
    && w < |s.workers| && s.workers[w].mode.Fetching? && s.workers[w].inn.Some? && s.workers[w].out.Some?
    && s.workers[w].inn.value in s.contents && !InNodeEmpty(s, s.workers[w])
  }

  ghost function DoFetchIn(s: State, w: nat): State
    requires CanFetchIn(s, w)
  {
    var i, o := s.workers[w].inn.value, s.workers[w].out.value;
    WithWorker(s, w, s.workers[w].(inn := Some(o), out := Some(i), mode := Visiting(i, 0, 0))).(
      owner := s.owner[o := OwnIn(w)][i := OwnOut(w)])
  }

  ghost predicate CanFetchOut(s: State, w: nat) {
    && w < |s.workers| && s.workers[w].mode.Fetching? && InNodeEmpty(s, s.workers[w])
    && s.workers[w].out.Some? && s.workers[w].out.value in s.contents && !OutNodeEmpty(s, s.workers[w])
  }

  ghost function DoFetchOut(s: State, w: nat): State
    requires CanFetchOut(s, w)
  {
    WithWorker(s, w, s.workers[w].(mode := Visiting(s.workers[w].out.value, 0, 0)))
  }

  ghost predicate CanFetchRetired(s: State, w: nat) {
    && w < |s.workers| && s.workers[w].mode.Fetching? && InNodeEmpty(s, s.workers[w])
    && OutNodeEmpty(s, s.workers[w]) && s.retired != []
  }

  ghost function DoFetchRetired(s: State, w: nat): State
    requires CanFetchRetired(s, w)
  {
    var n := s.retired[|s.retired| - 1];
    WithWorker(s, w, s.workers[w].(mode := Visiting(n, 0, 0))).(
      retired := s.retired[..|s.retired| - 1], owner := s.owner[n := OwnRun(w)])
  }

  ghost predicate CanFetchNothing(s: State, w: nat) {
    && w < |s.workers| && s.workers[w].mode.Fetching? && InNodeEmpty(s, s.workers[w])
    && OutNodeEmpty(s, s.workers[w]) && s.retired == []
  }

  ghost function DoFetchNothing(s: State, w: nat): State
    requires CanFetchNothing(s, w)
  {
    WithWorker(s, w, s.workers[w].(mode := Idle))
  }

  ghost predicate CanReadField(s: State, w: nat) {
    && w < |s.workers| && s.workers[w].mode.Visiting? && s.workers[w].hand == 0
    && var m := s.workers[w].mode;
    && m.node in s.contents && m.k < |s.contents[m.node]|
    && s.contents[m.node][m.k] in s.heap && m.field < |s.heap[s.contents[m.node][m.k]]|
  }

  ghost function DoReadField(s: State, w: nat): State
    requires CanReadField(s, w)
  {
    var m := s.workers[w].mode;
    MarkByWorker(s, w, s.heap[s.contents[m.node][m.k]][m.field], s.workers[w].(mode := m.(field := m.field + 1)))
  }

  ghost predicate CanNextEntry(s: State, w: nat) {
    && w < |s.workers| && s.workers[w].mode.Visiting? && s.workers[w].hand == 0
    && var m := s.workers[w].mode;
    && m.node in s.contents && m.k < |s.contents[m.node]|
    && s.contents[m.node][m.k] in s.heap && m.field == |s.heap[s.contents[m.node][m.k]]|
  }

  ghost function DoNextEntry(s: State, w: nat): State
    requires CanNextEntry(s, w)
  {
    var m := s.workers[w].mode;
    WithWorker(s, w, s.workers[w].(mode := Visiting(m.node, m.k + 1, 0))).(
      place := s.place[s.contents[m.node][m.k] := Done])
  }

  ghost predicate CanFinishNode(s: State, w: nat) {
    && w < |s.workers| && s.workers[w].mode.Visiting? && s.workers[w].hand == 0
    && s.workers[w].mode.node in s.contents && s.workers[w].mode.k == |s.contents[s.workers[w].mode.node]|
  }

  ghost function DoFinishNode(s: State, w: nat): State
    requires CanFinishNode(s, w)
  {
    var n := s.workers[w].mode.node;
    var t := WithWorker(s, w, s.workers[w].(mode := Fetching)).(contents := s.contents[n := []]);
    if s.workers[w].out == Some(n) then t
    else t.(free := s.free + [n], owner := s.owner[n := OwnFree(|s.free|)])
  }

  // ------------------------------------------------------------------ steps of the main thread

  ghost predicate CanStartCycle(s: State) {
    s.phase == Resting && s.pc == NoBarrier
  }

  ghost function DoStartCycle(s: State): State
    requires CanStartCycle(s)
  {
    s.(phase := Prologue)
  }

  ghost predicate CanGetOut(s: State, w: nat) {
    s.phase == Prologue && w < |s.workers| && s.workers[w].out.None? && s.free != []
  }

  ghost function DoGetOut(s: State, w: nat): State
    requires CanGetOut(s, w)
  {
    var n := s.free[|s.free| - 1];
    WithWorker(s, w, s.workers[w].(out := Some(n))).(
      free := s.free[..|s.free| - 1], owner := s.owner[n := OwnOut(w)])
  }

  ghost predicate CanStartCollect(s: State, scans: seq<Task>) {
    s.phase == Prologue && AllNodesReady(s) && ScanTasks(s, scans, Stay)
  }

  ghost function DoStartCollect(s: State, scans: seq<Task>): State
    requires CanStartCollect(s, scans)
  {
    s.(phase := Collect, tasks := scans)
  }

  ghost predicate CanEndCollect(s: State) {
    s.phase == Collect && Quiet(s)
  }

  ghost function DoEndCollect(s: State): State
    requires CanEndCollect(s)
  {
    s.(phase := Posting)
  }

  ghost predicate CanPostIn(s: State, w: nat) {
    && s.phase == Posting && w < |s.workers| && s.workers[w].inn.Some?
    && s.workers[w].inn.value in s.contents && !InNodeEmpty(s, s.workers[w])
  }

  ghost function DoPostIn(s: State, w: nat): State
    requires CanPostIn(s, w)
  {
    var n := s.workers[w].inn.value;
    WithWorker(s, w, s.workers[w].(inn := None)).(
      retired := s.retired + [n], owner := s.owner[n := OwnRetired(|s.retired|)], tasks := s.tasks + [ExecTask])
  }

  ghost predicate CanStartConcurrent(s: State) {
    s.phase == Posting && forall w :: 0 <= w < |s.workers| ==> InNodeEmpty(s, s.workers[w])
  }

  ghost function DoStartConcurrent(s: State): State
    requires CanStartConcurrent(s)
  {
    s.(phase := Concurrent)
  }

  ghost predicate CanStartRemark(s: State, scans: seq<Task>, own: seq<Obj>) {
    && ((s.phase == Concurrent && s.pc == NoBarrier) || (s.phase == Prologue && AllNodesReady(s)))
    && ScanTasks(s, scans, Execute) && ValidScan(s, own) && CoversRoots(s, scans, own)
  }

  /** The mutator stops for good; its barrier's node is retired, and everything is still to be posted. */
  ghost function DoStartRemark(s: State, scans: seq<Task>, own: seq<Obj>): State
    requires CanStartRemark(s, scans, own)
  {
    var t := s.(phase := Remark, todo := [ExecTask] + scans + [ScanTask(own, Retire)]);
    if s.barrier.None? then t
    else
      var n := s.barrier.value;
      t.(barrier := None, retired := s.retired + [n], owner := s.owner[n := OwnRetired(|s.retired|)])
  }

  ghost predicate CanPostNext(s: State) {
    s.phase == Remark && |s.todo| > 1
  }

  ghost function DoPostNext(s: State): State
    requires CanPostNext(s)
  {
    s.(tasks := s.tasks + [s.todo[0]], todo := s.todo[1..])
  }

  ghost predicate CanScanOwn(s: State) {
    && s.phase == Remark && |s.todo| == 1 && s.todo[0].ScanTask?
    && 0 < |s.workers| && s.workers[0].mode.Idle?
  }

  ghost function DoScanOwn(s: State): State
    requires CanScanOwn(s)
  {
    WithWorker(s, 0, s.workers[0].(mode := Scanning(s.todo[0].objs, s.todo[0].after))).(todo := [])
  }

  ghost predicate CanEndRemark(s: State) {
    s.phase == Remark && Finished(s)
  }

  ghost function DoEndRemark(s: State): State
    requires CanEndRemark(s)
  {
    s.(phase := Epilogue)
  }

  ghost predicate CanDropIn(s: State, w: nat) {
    s.phase == Epilogue && w < |s.workers| && s.workers[w].inn.Some? && s.workers[w].inn.value in s.contents
  }

  ghost function DoDropIn(s: State, w: nat): State
    requires CanDropIn(s, w)
  {
    var n := s.workers[w].inn.value;
    WithWorker(s, w, s.workers[w].(inn := None)).(free := s.free + [n], owner := s.owner[n := OwnFree(|s.free|)])
  }

  ghost predicate CanDropOut(s: State, w: nat) {
    s.phase == Epilogue && w < |s.workers| && s.workers[w].out.Some? && s.workers[w].out.value in s.contents
  }

  ghost function DoDropOut(s: State, w: nat): State
    requires CanDropOut(s, w)
  {
    var n := s.workers[w].out.value;
    WithWorker(s, w, s.workers[w].(out := None)).(free := s.free + [n], owner := s.owner[n := OwnFree(|s.free|)])
  }

  ghost predicate CanStartSweep(s: State) {
    s.phase == Epilogue && forall w :: 0 <= w < |s.workers| ==> s.workers[w].inn.None? && s.workers[w].out.None?
  }

  ghost function DoStartSweep(s: State): State
    requires CanStartSweep(s)
  {
    s.(phase := Sweep, toSweep := s.heap.Keys)
  }

  ghost predicate CanSweepOne(s: State, o: Obj) {
    s.phase == Sweep && o in s.toSweep
  }

  ghost function DoSweepOne(s: State, o: Obj): State
    requires CanSweepOne(s, o)
  {
    s.(toSweep := s.toSweep - {o}, heap := if o in s.marked then s.heap else s.heap - {o})
  }

  ghost predicate CanEndSweep(s: State) {
    s.phase == Sweep && s.toSweep == {} && s.pc == NoBarrier
  }

  ghost function DoEndSweep(s: State): State
    requires CanEndSweep(s)
  {
    s.(phase := Resting, marked := {}, place := map[])
  }

  ghost predicate MutatorStep(s: State, st: Step, s': State) {
    match st
    case Alloc(i, a, n) => CanAlloc(s, i, a, n) && s' == DoAlloc(s, i, a, n)
    case Move(i, j) => CanMove(s, i, j) && s' == DoMove(s, i, j)
    case Load(i, j, f) => CanLoad(s, i, j, f) && s' == DoLoad(s, i, j, f)
    case ClearRoot(i) => CanClearRoot(s, i) && s' == DoClearRoot(s, i)
    case GrowRoots => CanGrowRoots(s) && s' == DoGrowRoots(s)
    case Store(j, f, k) => CanStore(s, j, f, k) && s' == DoStore(s, j, f, k)
    case BarrierMark => CanBarrierMark(s) && s' == DoBarrierMark(s)
    case BarrierRetire => CanBarrierRetire(s) && s' == DoBarrierRetire(s)
    case BarrierGet => CanBarrierGet(s) && s' == DoBarrierGet(s)
    case BarrierPush => CanBarrierPush(s) && s' == DoBarrierPush(s)
    case CreateNode(id) => CanCreateNode(s, id) && s' == DoCreateNode(s, id)
    case _ => false
  }

  ghost predicate WorkerStep(s: State, st: Step, s': State) {
    match st
    case TakeTask(w) => CanTakeTask(s, w) && s' == DoTakeTask(s, w)
    case ScanMark(w) => CanScanMark(s, w) && s' == DoScanMark(s, w)
    case ScanRetire(w) => CanScanRetire(s, w) && s' == DoScanRetire(s, w)
    case ScanDone(w) => CanScanDone(s, w) && s' == DoScanDone(s, w)
    case PushRetire(w) => CanPushRetire(s, w) && s' == DoPushRetire(s, w)
    case GetIn(w, post) => CanGetIn(s, w, post) && s' == DoGetIn(s, w, post)
    case PushObj(w) => CanPushObj(s, w) && s' == DoPushObj(s, w)
    case FetchIn(w) => CanFetchIn(s, w) && s' == DoFetchIn(s, w)
    case FetchOut(w) => CanFetchOut(s, w) && s' == DoFetchOut(s, w)
    case FetchRetired(w) => CanFetchRetired(s, w) && s' == DoFetchRetired(s, w)
    case FetchNothing(w) => CanFetchNothing(s, w) && s' == DoFetchNothing(s, w)
    case ReadField(w) => CanReadField(s, w) && s' == DoReadField(s, w)
    case NextEntry(w) => CanNextEntry(s, w) && s' == DoNextEntry(s, w)
    case FinishNode(w) => CanFinishNode(s, w) && s' == DoFinishNode(s, w)
    case _ => false
  }

  ghost predicate MainStep(s: State, st: Step, s': State) {
    match st
    case StartCycle => CanStartCycle(s) && s' == DoStartCycle(s)
    case GetOut(w) => CanGetOut(s, w) && s' == DoGetOut(s, w)
    case StartCollect(scans) => CanStartCollect(s, scans) && s' == DoStartCollect(s, scans)
    case EndCollect => CanEndCollect(s) && s' == DoEndCollect(s)
    case PostIn(w) => CanPostIn(s, w) && s' == DoPostIn(s, w)
    case StartConcurrent => CanStartConcurrent(s) && s' == DoStartConcurrent(s)
    case StartRemark(scans, own) => CanStartRemark(s, scans, own) && s' == DoStartRemark(s, scans, own)
    case PostNext => CanPostNext(s) && s' == DoPostNext(s)
    case ScanOwn => CanScanOwn(s) && s' == DoScanOwn(s)
    case EndRemark => CanEndRemark(s) && s' == DoEndRemark(s)
    case DropIn(w) => CanDropIn(s, w) && s' == DoDropIn(s, w)
    case DropOut(w) => CanDropOut(s, w) && s' == DoDropOut(s, w)
    case StartSweep => CanStartSweep(s) && s' == DoStartSweep(s)
    case SweepOne(o) => CanSweepOne(s, o) && s' == DoSweepOne(s, o)
    case EndSweep => CanEndSweep(s) && s' == DoEndSweep(s)
    case _ => false
  }

  ghost predicate Next(s: State, s': State) {
    exists st :: MutatorStep(s, st, s') || WorkerStep(s, st, s') || MainStep(s, st, s')
  }

  /** A run of the system: the first state is initial, and each next one is a step away. */
  ghost predicate Run(states: seq<State>) {
    && states != [] && Init(states[0])
    && forall i :: 0 <= i < |states| - 1 ==> Next(states[i], states[i + 1])
  }
}
