/**
 The workers' part of marking comes to an end: a measure that every step of a worker decreases.
 */
module MarkingEnds {
  import opened Collections
  import opened Marking
  import MI = MarkingInv

  // ------------------------------------------------------------------ the loads

  /** Entries of the node under visit that are still to come. */
  ghost function Entries(s: State, m: Mode): nat {
    if m.Visiting? && m.node in s.contents && m.k < |s.contents[m.node]| then |s.contents[m.node]| - m.k else 0
  }

  /** Fields of the object under visit, or objects of the list to scan, that are still to come. */
  ghost function Local(s: State, m: Mode): nat {
    match m
    case Idle => 0
    case Fetching => 1
    case Scanning(objs, _) => 2 + |objs|
    case Visiting(node, k, field) => 2 + Fields(s, node, k, field)
  }

  ghost function Fields(s: State, node: NodeId, k: nat, field: nat): nat {
    if node in s.contents && k < |s.contents[node]| && s.contents[node][k] in s.heap
       && field < |s.heap[s.contents[node][k]]|
    then |s.heap[s.contents[node][k]]| - field
    else 0
  }

  /** What a worker has: an object in hand, a filled in node, no in node, entries and work left. */
  datatype Kind = Hand | Full | Lacking | EntriesLeft | Work

  ghost function Load(s: State, k: Kind, w: nat): nat
    requires w < |s.workers|
  {
    var wk := s.workers[w];
    match k
    case Hand => if wk.hand != 0 then 1 else 0
    case Full => if wk.inn.Some? && !InNodeEmpty(s, wk) then 1 else 0
    case Lacking => if wk.inn.None? then 1 else 0
    case EntriesLeft => Entries(s, wk.mode)
    case Work => Local(s, wk.mode)
  }

  /** Over the first `n` workers. */
  ghost function Total(s: State, k: Kind, n: nat): nat
    requires n <= |s.workers|
  {
    if n == 0 then 0 else Total(s, k, n - 1) + Load(s, k, n - 1)
  }

  /** When only the load of worker `w` changes, the total changes as much. */
  lemma {:induction false} TotalMoves(s: State, s': State, k: Kind, n: nat, w: nat)
    requires OthersSame(s, s', w) && n <= |s.workers|
    ensures if w < n then Total(s', k, n) + Load(s, k, w) == Total(s, k, n) + Load(s', k, w)
            else Total(s', k, n) == Total(s, k, n)
  {
    if n > 0 {
      TotalMoves(s, s', k, n - 1, w);
      assert n - 1 != w ==> SameLoads(s, s', n - 1);
    }
  }

  // ------------------------------------------------------------------ the measure

  /** Compared from left to right. */
  datatype Measure = Measure(white: nat, hands: nat, full: nat, retired: nat, lacking: nat, tasks: nat,
                             entries: nat, work: nat)

  ghost function Left(s: State): Measure {
    var n := |s.workers|;
    Measure(|s.heap.Keys - s.marked|, Total(s, Hand, n), Total(s, Full, n), |s.retired|,
            Total(s, Lacking, n), |s.tasks|, Total(s, EntriesLeft, n), Total(s, Work, n))
  }

  ghost predicate Less(a: Measure, b: Measure) {
    if a.white != b.white then a.white < b.white
    else if a.hands != b.hands then a.hands < b.hands
    else if a.full != b.full then a.full < b.full
    else if a.retired != b.retired then a.retired < b.retired
    else if a.lacking != b.lacking then a.lacking < b.lacking
    else if a.tasks != b.tasks then a.tasks < b.tasks
    else if a.entries != b.entries then a.entries < b.entries
    else a.work < b.work
  }

  /** The loads of all workers but `w` are as before. */
  ghost predicate OthersSame(s: State, s': State, w: nat) {
    && |s'.workers| == |s.workers| && w < |s.workers|
    && forall v: nat :: v < |s.workers| && v != w ==> SameLoads(s, s', v)
  }

  ghost predicate SameLoads(s: State, s': State, v: nat)
    requires v < |s.workers| && v < |s'.workers|
  {
    forall k: Kind :: Load(s', k, v) == Load(s, k, v)
  }

  /** What one worker's step does to the measure, besides what it marks and what it takes from the lists. */
  lemma OneMoves(s: State, s': State, w: nat)
    requires OthersSame(s, s', w)
    ensures var a, b := Left(s), Left(s');
      && b.hands + Load(s, Hand, w) == a.hands + Load(s', Hand, w)
      && b.full + Load(s, Full, w) == a.full + Load(s', Full, w)
      && b.lacking + Load(s, Lacking, w) == a.lacking + Load(s', Lacking, w)
      && b.entries + Load(s, EntriesLeft, w) == a.entries + Load(s', EntriesLeft, w)
      && b.work + Load(s, Work, w) == a.work + Load(s', Work, w)
  {
    var n := |s.workers|;
    TotalMoves(s, s', Hand, n, w);
    TotalMoves(s, s', Full, n, w);
    TotalMoves(s, s', Lacking, n, w);
    TotalMoves(s, s', EntriesLeft, n, w);
    TotalMoves(s, s', Work, n, w);
  }

  /** A step that leaves heap and nodes alone and changes one worker only. */
  lemma OneWorker(s: State, s': State, w: nat)
    requires w < |s.workers| == |s'.workers| && s'.heap == s.heap && s'.contents == s.contents
    requires forall v :: 0 <= v < |s.workers| && v != w ==> s'.workers[v] == s.workers[v]
    ensures OthersSame(s, s', w)
  {
    forall v: nat, k: Kind | v < |s.workers| && v != w ensures Load(s', k, v) == Load(s, k, v) { }
  }

  /** A step that changes one worker and one node, which is that worker's. */
  lemma OneNode(s: State, s': State, w: nat, n: NodeId)
    requires w < |s.workers| == |s'.workers| && s'.heap == s.heap
    requires forall v :: 0 <= v < |s.workers| && v != w ==>
      s'.workers[v] == s.workers[v] && s.workers[v].inn != Some(n)
      && !(s.workers[v].mode.Visiting? && s.workers[v].mode.node == n)
    requires forall id :: id != n ==> (id in s'.contents <==> id in s.contents)
    requires forall id :: id != n && id in s.contents ==> s'.contents[id] == s.contents[id]
    ensures OthersSame(s, s', w)
  {
    forall v: nat, k: Kind | v < |s.workers| && v != w ensures Load(s', k, v) == Load(s, k, v) { }
  }

  lemma OnlyHolder(s: State, w: nat, n: NodeId)
    requires MI.InvHeld(s) && w < |s.workers|
    requires s.workers[w].inn == Some(n) || (s.workers[w].mode.Visiting? && s.workers[w].mode.node == n)
    ensures forall v :: 0 <= v < |s.workers| && v != w ==>
      s.workers[v].inn != Some(n) && !(s.workers[v].mode.Visiting? && s.workers[v].mode.node == n)
  {
    assert MI.HeldByWorker(s, w);
    forall v | 0 <= v < |s.workers| && v != w
      ensures s.workers[v].inn != Some(n) && !(s.workers[v].mode.Visiting? && s.workers[v].mode.node == n)
    {
      assert MI.HeldByWorker(s, v);
    }
  }

  // ------------------------------------------------------------------ every step of a worker decreases it

  /** A test-and-set: a new mark uses up a white object, anything else only this worker's work. */
  lemma MarkLess(s: State, w: nat, v: Obj, wk: Worker)
    requires w < |s.workers| && s.workers[w].hand == 0 && (v == 0 || v in s.heap)
    requires wk.hand == 0 && wk.inn == s.workers[w].inn && Entries(s, wk.mode) == Entries(s, s.workers[w].mode)
    requires Local(s, wk.mode) < Local(s, s.workers[w].mode)
    ensures Less(Left(MarkByWorker(s, w, v, wk)), Left(s))
  {
    if v == 0 || v in s.marked {
      OnlyWorkLess(s, w, wk);
    } else {
      OneMarkMore(s, v);
    }
  }

  lemma OnlyWorkLess(s: State, w: nat, wk: Worker)
    requires w < |s.workers| && s.workers[w].hand == 0
    requires wk.hand == 0 && wk.inn == s.workers[w].inn && Entries(s, wk.mode) == Entries(s, s.workers[w].mode)
    requires Local(s, wk.mode) < Local(s, s.workers[w].mode)
    ensures Less(Left(WithWorker(s, w, wk)), Left(s))
  {
    OneWorker(s, WithWorker(s, w, wk), w);
    OneMoves(s, WithWorker(s, w, wk), w);
  }

  lemma OneMarkMore(s: State, v: Obj)
    requires v in s.heap && v !in s.marked
    ensures |s.heap.Keys - (s.marked + {v})| < |s.heap.Keys - s.marked|
  {
    PartSize(s.heap.Keys - s.marked, {v});
    assert s.heap.Keys - (s.marked + {v}) == s.heap.Keys - s.marked - {v};
  }

  lemma TakeTaskLess(s: State, w: nat)
    requires CanTakeTask(s, w)
    ensures Less(Left(DoTakeTask(s, w)), Left(s))
  {
    var s' := DoTakeTask(s, w);
    OneWorker(s, s', w);
    OneMoves(s, s', w);
  }

  lemma ScanMarkLess(s: State, w: nat)
    requires MI.InvPhase(s) && CanScanMark(s, w)
    ensures Less(Left(DoScanMark(s, w)), Left(s))
  {
    var m := s.workers[w].mode;
    assert MI.WorkerRight(s, w);
    MarkLess(s, w, m.objs[0], s.workers[w].(mode := m.(objs := m.objs[1..])));
  }

  lemma ScanRetireLess(s: State, w: nat)
    requires CanScanRetire(s, w)
    ensures Less(Left(DoScanRetire(s, w)), Left(s))
  {
    var s' := DoScanRetire(s, w);
    OneWorker(s, s', w);
    OneMoves(s, s', w);
  }

  lemma ScanDoneLess(s: State, w: nat)
    requires CanScanDone(s, w)
    ensures Less(Left(DoScanDone(s, w)), Left(s))
  {
    var s' := DoScanDone(s, w);
    OneWorker(s, s', w);
    OneMoves(s, s', w);
  }

  lemma PushRetireLess(s: State, w: nat)
    requires CanPushRetire(s, w)
    ensures Less(Left(DoPushRetire(s, w)), Left(s))
  {
    var s' := DoPushRetire(s, w);
    OneWorker(s, s', w);
    OneMoves(s, s', w);
  }

  lemma GetInLess(s: State, w: nat, post: bool)
    requires MI.InvHeld(s) && CanGetIn(s, w, post)
    ensures Less(Left(DoGetIn(s, w, post)), Left(s))
  {
    var s' := DoGetIn(s, w, post);
    assert s.contents[s.free[|s.free| - 1]] == [];
    OneWorker(s, s', w);
    OneMoves(s, s', w);
  }

  lemma PushObjLess(s: State, w: nat)
    requires MI.InvHeld(s) && CanPushObj(s, w)
    ensures Less(Left(DoPushObj(s, w)), Left(s))
  {
    var s', n := DoPushObj(s, w), s.workers[w].inn.value;
    OnlyHolder(s, w, n);
    OneNode(s, s', w, n);
    OneMoves(s, s', w);
  }

  lemma FetchInLess(s: State, w: nat)
    requires MI.InvPhase(s) && CanFetchIn(s, w)
    ensures Less(Left(DoFetchIn(s, w)), Left(s))
  {
    var s' := DoFetchIn(s, w);
    assert MI.WorkerRight(s, w);
    OneWorker(s, s', w);
    OneMoves(s, s', w);
  }

  lemma FetchRetiredLess(s: State, w: nat)
    requires CanFetchRetired(s, w)
    ensures Less(Left(DoFetchRetired(s, w)), Left(s))
  {
    var s' := DoFetchRetired(s, w);
    OneWorker(s, s', w);
    OneMoves(s, s', w);
  }

  lemma FetchNothingLess(s: State, w: nat)
    requires CanFetchNothing(s, w)
    ensures Less(Left(DoFetchNothing(s, w)), Left(s))
  {
    var s' := DoFetchNothing(s, w);
    OneWorker(s, s', w);
    OneMoves(s, s', w);
  }

  lemma ReadFieldLess(s: State, w: nat)
    requires MI.InvHeap(s) && s.phase != Sweep && CanReadField(s, w)
    ensures Less(Left(DoReadField(s, w)), Left(s))
  {
    var m := s.workers[w].mode;
    MarkLess(s, w, s.heap[s.contents[m.node][m.k]][m.field], s.workers[w].(mode := m.(field := m.field + 1)));
  }

  lemma NextEntryLess(s: State, w: nat)
    requires CanNextEntry(s, w)
    ensures Less(Left(DoNextEntry(s, w)), Left(s))
  {
    var s' := DoNextEntry(s, w);
    OneWorker(s, s', w);
    OneMoves(s, s', w);
  }

  lemma FinishNodeLoads(s: State, w: nat)
    requires CanFinishNode(s, w) && s.workers[w].inn != Some(s.workers[w].mode.node)
    ensures var s' := DoFinishNode(s, w);
      && Load(s', Hand, w) == Load(s, Hand, w) && Load(s', Full, w) == Load(s, Full, w)
      && Load(s', Lacking, w) == Load(s, Lacking, w) && Load(s', EntriesLeft, w) == Load(s, EntriesLeft, w)
      && Load(s', Work, w) < Load(s, Work, w)
  {
  }

  lemma FinishNodeOthers(s: State, w: nat)
    requires MI.InvHeld(s) && CanFinishNode(s, w)
    ensures OthersSame(s, DoFinishNode(s, w), w) && s.workers[w].inn != Some(s.workers[w].mode.node)
  {
    var n := s.workers[w].mode.node;
    OnlyHolder(s, w, n);
    assert MI.HeldByWorker(s, w);
    OneNode(s, DoFinishNode(s, w), w, n);
  }

  lemma FinishNodeLess(s: State, w: nat)
    requires MI.InvHeld(s) && CanFinishNode(s, w)
    ensures Less(Left(DoFinishNode(s, w)), Left(s))
  {
    FinishNodeOthers(s, w);
    FinishNodeLoads(s, w);
    OneMoves(s, DoFinishNode(s, w), w);
  }

  lemma ScanStepLess(s: State, st: Step, s': State)
    requires MI.InvPhase(s) && WorkerStep(s, st, s') && MI.ScanStep(st)
    ensures Less(Left(s'), Left(s))
  {
    match st
    case TakeTask(w) => TakeTaskLess(s, w);
    case ScanMark(w) => ScanMarkLess(s, w);
    case ScanRetire(w) => ScanRetireLess(s, w);
    case ScanDone(w) => ScanDoneLess(s, w);
    case PushRetire(w) => PushRetireLess(s, w);
  }

  lemma PushStepLess(s: State, st: Step, s': State)
    requires MI.InvHeld(s) && WorkerStep(s, st, s') && MI.PushStep(st)
    ensures Less(Left(s'), Left(s))
  {
    match st
    case GetIn(w, post) => GetInLess(s, w, post);
    case PushObj(w) => PushObjLess(s, w);
  }

  lemma FetchStepLess(s: State, st: Step, s': State)
    requires MI.InvPhase(s) && WorkerStep(s, st, s') && (MI.FetchStep(st) || MI.RetiredStep(st))
    ensures Less(Left(s'), Left(s))
  {
    match st
    case FetchIn(w) => FetchInLess(s, w);
    case FetchOut(w) => MI.FetchOutNever(s, w);
    case FetchRetired(w) => FetchRetiredLess(s, w);
    case FetchNothing(w) => FetchNothingLess(s, w);
  }

  lemma VisitStepLess(s: State, st: Step, s': State)
    requires MI.InvHeap(s) && MI.InvHeld(s) && s.phase != Sweep && WorkerStep(s, st, s') && MI.VisitStep(st)
    ensures Less(Left(s'), Left(s))
  {
    match st
    case ReadField(w) => ReadFieldLess(s, w);
    case NextEntry(w) => NextEntryLess(s, w);
    case FinishNode(w) => FinishNodeLess(s, w);
  }

  /** A state in order, as a type. */
  type Good = s: State | MI.Inv(s) ghost witness START

  ghost const START := State(Resting, map[], [], {}, {}, NoBarrier, [Worker(None, None, 0, Idle)], [], [], map[],
                             [], [], None, map[], map[])

  lemma WorkerStepLess(s: Good, st: Step, s': State)
    requires WorkersRun(s.phase) && WorkerStep(s, st, s')
    ensures Less(Left(s'), Left(s))
  {
    if MI.ScanStep(st) {
      ScanStepLess(s, st, s');
    } else if MI.PushStep(st) {
      PushStepLess(s, st, s');
    } else if MI.FetchStep(st) || MI.RetiredStep(st) {
      FetchStepLess(s, st, s');
    } else {
      VisitStepLess(s, st, s');
    }
  }

  // ------------------------------------------------------------------ no endless run

  ghost predicate WorkerNext(s: State, s': State) {
    exists st :: WorkerStep(s, st, s')
  }

  /** The supply of fresh nodes, which may be topped up at any time. */
  ghost predicate SupplyNext(s: State, s': State) {
    exists id :: CanCreateNode(s, id) && s' == DoCreateNode(s, id)
  }

  lemma SupplySame(s: State, s': State)
    requires MI.InvHeld(s) && SupplyNext(s, s')
    ensures Left(s') == Left(s) && s'.phase == s.phase && Next(s, s')
  {
    var id :| CanCreateNode(s, id) && s' == DoCreateNode(s, id);
    assert MutatorStep(s, CreateNode(id), s');
    forall v: nat | v < |s.workers| ensures SameLoads(s, s', v) {
      SupplyLoads(s, id, v);
    }
    SameTotals(s, s', |s.workers|);
  }

  lemma SupplyLoads(s: State, id: NodeId, v: nat)
    requires MI.InvHeld(s) && CanCreateNode(s, id) && v < |s.workers|
    ensures SameLoads(s, DoCreateNode(s, id), v)
  {
    assert MI.HeldByWorker(s, v);
  }

  lemma {:induction false} SameTotals(s: State, s': State, n: nat)
    requires |s'.workers| == |s.workers| && n <= |s.workers|
    requires forall v: nat :: v < |s.workers| ==> SameLoads(s, s', v)
    ensures forall k: Kind :: Total(s', k, n) == Total(s, k, n)
  {
    if n > 0 {
      SameTotals(s, s', n - 1);
      assert SameLoads(s, s', n - 1);
    }
  }

  lemma WorkersKeepPhase(s: State, st: Step, s': State)
    requires WorkerStep(s, st, s')
    ensures s'.phase == s.phase
  {
    match st
    case TakeTask(w) => assert s'.phase == DoTakeTask(s, w).phase;
    case ScanMark(w) => assert s'.phase == DoScanMark(s, w).phase;
    case ReadField(w) => assert s'.phase == DoReadField(s, w).phase;
    case FinishNode(w) => assert s'.phase == DoFinishNode(s, w).phase;
    case _ =>
  }

  lemma StillWorking(s: Good, s': State) returns (t: Good)
    requires WorkersRun(s.phase) && (WorkerNext(s, s') || SupplyNext(s, s') || s' == s)
    ensures t == s' && s'.phase == s.phase
    ensures if WorkerNext(s, s') then Less(Left(s'), Left(s)) else Left(s') == Left(s)
  {
    if WorkerNext(s, s') {
      var st :| WorkerStep(s, st, s');
      WorkerStepLess(s, st, s');
      WorkersKeepPhase(s, st, s');
      assert Next(s, s');
      MI.NextInv(s, s');
    } else if s' != s {
      SupplySame(s, s');
      MI.NextInv(s, s');
    }
    t := s';
  }

  /** Step `j` of the run is a worker's. */
  ghost predicate BusyAt(run: nat -> State, j: nat) {
    WorkerNext(run(j), run(j + 1))
  }

  /** Only workers take steps; otherwise the node supply is topped up, or nothing happens. */
  ghost predicate StepAt(run: nat -> State, j: nat) {
    BusyAt(run, j) || SupplyNext(run(j), run(j + 1)) || run(j + 1) == run(j)
  }

  /** An endless run in which the workers are by themselves. */
  type LoneRun = run: nat -> State | forall j: nat :: StepAt(run, j) ghost witness (j: nat) => START

  lemma StillWorkingAt(run: LoneRun, j: nat, s: Good) returns (t: Good)
    requires s == run(j) && WorkersRun(s.phase)
    ensures t == run(j + 1) && t.phase == s.phase && FallsAt(Measures(run), Busy(run), j)
  {
    assert StepAt(run, j);
    t := StillWorking(s, run(j + 1));
  }

  lemma WorkingAt(run: LoneRun, start: Good, n: nat) returns (t: Good)
    requires start == run(0) && WorkersRun(start.phase)
    ensures t == run(n) && t.phase == start.phase
  {
    t := start;
    for j := 0 to n
      invariant t == run(j) && t.phase == start.phase
    {
      t := StillWorkingAt(run, j, t);
    }
  }

  ghost function Measures(run: nat -> State): nat -> Measure {
    (j: nat) => Left(run(j))
  }

  ghost function Busy(run: nat -> State): nat -> bool {
    (j: nat) => BusyAt(run, j)
  }

  // ------------------------------------------------------------------ measures that fall

  ghost predicate FallsAt(m: nat -> Measure, busy: nat -> bool, j: nat) {
    if busy(j) then Less(m(j + 1), m(j)) else m(j + 1) == m(j)
  }

  /** A measure that each busy step decreases and no other step changes sees only finitely many busy steps. */
  lemma {:induction false} ComesToRest(m: nat -> Measure, busy: nat -> bool, i: nat) returns (n: nat)
    requires forall j: nat :: i <= j ==> FallsAt(m, busy, j)
    ensures i <= n && forall j: nat :: n <= j ==> !busy(j)
    decreases m(i).white, m(i).hands, m(i).full, m(i).retired, m(i).lacking, m(i).tasks, m(i).entries, m(i).work
  {
    if k: nat :| i <= k && busy(k) {
      var j := Earliest(busy, i, k);
      QuietStretch(m, busy, i, j);
      assert FallsAt(m, busy, j);
      n := ComesToRest(m, busy, j + 1);
    } else {
      n := i;
    }
  }

  lemma {:induction false} Earliest(busy: nat -> bool, i: nat, k: nat) returns (j: nat)
    requires i <= k && busy(k)
    ensures i <= j && busy(j) && forall l: nat :: i <= l < j ==> !busy(l)
    decreases k
  {
    if l: nat :| i <= l < k && busy(l) {
      j := Earliest(busy, i, l);
    } else {
      j := k;
    }
  }

  lemma {:induction false} QuietStretch(m: nat -> Measure, busy: nat -> bool, i: nat, j: nat)
    requires forall k: nat :: i <= k ==> FallsAt(m, busy, k)
    requires i <= j && forall k: nat :: i <= k < j ==> !busy(k)
    ensures m(j) == m(i)
    decreases j
  {
    if i < j {
      QuietStretch(m, busy, i, j - 1);
      assert FallsAt(m, busy, j - 1);
    }
  }

  lemma RestFrom(run: LoneRun, start: Good) returns (n: nat)
    requires start == run(0) && WorkersRun(start.phase)
    ensures forall j: nat :: n <= j ==> !BusyAt(run, j)
  {
    forall j: nat ensures FallsAt(Measures(run), Busy(run), j) {
      var s := WorkingAt(run, start, j);
      var _ := StillWorkingAt(run, j, s);
    }
    n := ComesToRest(Measures(run), Busy(run), 0);
    assert forall j: nat :: BusyAt(run, j) ==> Busy(run)(j);
  }

  /**
   Whatever has happened before: once the workers are by themselves, as in a remark, their steps come
   to an end, however they interleave. From some point on no worker takes another step.
   */
  lemma WorkersComeToRest(states: seq<State>, run: LoneRun) returns (n: nat)
    requires Run(states) && run(0) == states[|states| - 1] && WorkersRun(run(0).phase)
    ensures forall j: nat :: n <= j ==> !BusyAt(run, j)
  {
    MI.RunInv(states, |states| - 1);
    n := RestFrom(run, run(0));
  }
}
