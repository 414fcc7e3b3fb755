/**
 Marking and the slot allocator on one heap. The objects of one size class live in the slots of its
 runs; all other objects, large ones and those of other classes, live elsewhere. Allocation takes its
 slot from the pool, and a sweeping thread works through a whole run at a time.
 */
module HeapsOfSlots {
  import opened Collections
  import M = Marking
  import MI = MarkingInv
  import MS = MarkingSafety
  import FL = FreeLists
  import SP = SlotPools
  import RA = RunAllocSpecs
  import T = ThreeTierLists

  datatype Heap = Heap(sh: RA.Shape, m: M.State, p: SP.Pool)

  /** Every slot of the class that holds an object holds one of the class. */
  ghost predicate Agreed(h: Heap) {
    h.p.live <= h.m.heap.Keys && (h.m.heap.Keys - h.p.live) !! h.p.owner.Keys
  }

  ghost predicate Ok(h: Heap) {
    MI.Inv(h.m) && RA.Right(h.sh, h.p) && Agreed(h)
  }

  ghost const START := Heap(
    RA.Shape(0, 16, 1),
    M.State(M.Resting, map[], [], {}, {}, M.NoBarrier, [M.Worker(None, None, 0, M.Idle)], [], [],
            map[], [], [], None, map[], map[]),
    SP.Pool(map[], T.Tiers([], [], []), [], 0, {}, map[]))

  /** A heap in order, as a type. */
  type Good = h: Heap | Ok(h) ghost witness START

  lemma MakeGood(sh: RA.Shape, m: M.State, p: SP.Pool) returns (g: Good)
    requires MI.Inv(m) && RA.Right(sh, p) && Agreed(Heap(sh, m, p))
    ensures g == Heap(sh, m, p)
  {
    g := Heap(sh, m, p);
  }

  /** Nothing marked and nothing allocated, but runs of the class may be at hand. */
  ghost predicate Init(h: Heap) {
    M.Init(h.m) && RA.Right(h.sh, h.p) && h.p.live == {}
  }

  lemma InitOk(h: Heap) returns (g: Good)
    requires Init(h)
    ensures g == h
  {
    MI.InitInv(h.m);
    g := MakeGood(h.sh, h.m, h.p);
  }

  // ------------------------------------------------------------------ steps

  datatype Step =
    | Allocate(i: nat, n: nat, page: M.Obj) // with pages for a new run at hand, or none
    | AllocateElsewhere(i: nat, a: M.Obj, n: nat)
    | SweepRun(r: FL.Addr) // by whatever thread
    | SweepElsewhere(o: M.Obj)
    | ReleaseLocal // gives the mutator's run back if no object is in it
    | Mark(st: M.Step) // any other step of mutator, workers and main thread

  ghost predicate MovesObjects(st: M.Step) {
    st.Alloc? || st.SweepOne?
  }

  /** Pages that come from the page allocator hold nothing. */
  ghost predicate Unused(h: Heap, page: M.Obj) {
    page == 0 || (RA.FreshPages(h.sh, h.p, page) && forall a :: a in RA.Slots(h.sh, page) ==> a !in h.m.heap)
  }

  ghost predicate CanAllocate(h: Heap, i: nat, page: M.Obj) {
    M.MutatorRuns(h.m) && i < |h.m.roots| && Unused(h, page)
  }

  /** While a sweep goes on, runs of the list are left alone. */
  ghost function Allocated(h: Good, page: M.Obj): (SP.Pool, FL.Addr) {
    RA.AllocatedFrom(h.sh, h.p, h.m.phase == M.Sweep, page)
  }

  ghost function DoAllocate(h: Good, i: nat, n: nat, page: M.Obj): Heap
    requires CanAllocate(h, i, page)
  {
    var (q, a) := Allocated(h, page);
    if a == 0 then h.(p := q)
    else
      AllocatesFreeSlot(h, i, n, page);
      h.(m := M.DoAlloc(h.m, i, a, n), p := q)
  }

  /** What the sweep of run `r` takes from the heap: the unmarked objects in its slots. */
  ghost function SweptHeap(m: M.State, p: SP.Pool, r: FL.Addr): M.State {
    m.(toSweep := m.toSweep - SP.LiveIn(p, r), heap := m.heap - RA.DeadIn(p, r, m.marked))
  }

  ghost function DoSweepRun(h: Good, r: FL.Addr): Heap
    requires r in h.p.runs
  {
    h.(m := SweptHeap(h.m, h.p, r), p := RA.SweptConcurrently(h.sh, h.p, r, h.m.marked).0)
  }

  ghost predicate Next(h: Good, step: Step, h': Heap) {
    match step
    case Allocate(i, n, page) => CanAllocate(h, i, page) && h' == DoAllocate(h, i, n, page)
    case AllocateElsewhere(i, a, n) =>
      a !in h.p.owner && M.CanAlloc(h.m, i, a, n) && h' == h.(m := M.DoAlloc(h.m, i, a, n))
    case SweepRun(r) => h.m.phase == M.Sweep && r in h.p.runs && h' == DoSweepRun(h, r)
    case SweepElsewhere(o) => o !in h.p.owner && M.CanSweepOne(h.m, o) && h' == h.(m := M.DoSweepOne(h.m, o))
    case ReleaseLocal => h' == h.(p := RA.LocalReleased(h.p))
    case Mark(st) =>
      !MovesObjects(st) && h' == h.(m := h'.m)
      && (M.MutatorStep(h.m, st, h'.m) || M.WorkerStep(h.m, st, h'.m) || M.MainStep(h.m, st, h'.m))
  }

  // ------------------------------------------------------------------ allocation

  /** Allocation never widens the class beyond its slots and those of the new run. */
  lemma AllocatedOwner(sh: RA.Shape, p: SP.Pool, sweeping: bool, page: M.Obj)
    requires RA.Right(sh, p)
    ensures var q := RA.AllocatedFrom(sh, p, sweeping, page).0;
      forall a :: a in q.owner ==> a in p.owner || (page != 0 && a in RA.Slots(sh, page))
  {
  }

  /** The slot that allocation finds holds no object, of this class or another. */
  lemma AllocatesFreeSlot(h: Good, i: nat, n: nat, page: M.Obj)
    requires CanAllocate(h, i, page)
    ensures var (q, a) := Allocated(h, page);
      && RA.Right(h.sh, q) && (a == 0 ==> q.live == h.p.live)
      && (a != 0 ==> M.CanAlloc(h.m, i, a, n) && a in q.owner && q.live == h.p.live + {a})
  {
    RA.AllocationRight(h.sh, h.p, h.m.phase == M.Sweep, page);
    AllocatedOwner(h.sh, h.p, h.m.phase == M.Sweep, page);
  }

  lemma AllocateOk(h: Good, i: nat, n: nat, page: M.Obj) returns (g: Good)
    requires CanAllocate(h, i, page)
    ensures g == DoAllocate(h, i, n, page) && h.p.live <= g.p.live
    ensures g.p.live == h.p.live || (Allocated(h, page).1 !in h.m.heap && g.p.live == h.p.live + {Allocated(h, page).1})
  {
    AllocatesFreeSlot(h, i, n, page);
    AllocatedOwner(h.sh, h.p, h.m.phase == M.Sweep, page);
    var (q, a) := Allocated(h, page);
    if a == 0 {
      g := MakeGood(h.sh, h.m, q);
    } else {
      MI.AllocInv(h.m, i, a, n);
      g := MakeGood(h.sh, M.DoAlloc(h.m, i, a, n), q);
    }
  }

  lemma AllocateElsewhereOk(h: Good, i: nat, a: M.Obj, n: nat) returns (g: Good)
    requires a !in h.p.owner && M.CanAlloc(h.m, i, a, n)
    ensures g == h.(m := M.DoAlloc(h.m, i, a, n))
  {
    MI.AllocInv(h.m, i, a, n);
    g := MakeGood(h.sh, M.DoAlloc(h.m, i, a, n), h.p);
  }

  // ------------------------------------------------------------------ sweeping a run

  ghost function Without(m: M.State, s: set<M.Obj>): M.State {
    m.(toSweep := m.toSweep - s, heap := m.heap - (s - m.marked))
  }

  lemma WithoutOne(m: M.State, s: set<M.Obj>, o: M.Obj)
    requires M.CanSweepOne(m, o) && o in s
    ensures Without(M.DoSweepOne(m, o), s - {o}) == Without(m, s)
  {
    var u := M.DoSweepOne(m, o);
    assert u.toSweep - (s - {o}) == m.toSweep - s;
    assert u.heap - (s - {o} - m.marked) == m.heap - (s - m.marked);
  }

  /** Sweeping objects one after the other, in any order. */
  lemma {:induction false} SweepMany(m: M.State, s: set<M.Obj>)
    requires MI.Inv(m) && m.phase == M.Sweep && s <= m.toSweep
    ensures MI.Inv(Without(m, s))
    decreases s
  {
    if s == {} {
      assert Without(m, s) == m;
    } else {
      var o :| o in s;
      MI.SweepOneInv(m, o);
      SweepMany(M.DoSweepOne(m, o), s - {o});
      WithoutOne(m, s, o);
    }
  }

  lemma SweptHeapInv(h: Good, r: FL.Addr)
    requires h.m.phase == M.Sweep
    ensures MI.Inv(SweptHeap(h.m, h.p, r))
  {
    var s := SP.LiveIn(h.p, r) * h.m.toSweep;
    SweepMany(h.m, s);
    assert h.m.toSweep - s == h.m.toSweep - SP.LiveIn(h.p, r);
    assert s - h.m.marked == RA.DeadIn(h.p, r, h.m.marked);
  }

  lemma SweptOwner(sh: RA.Shape, p: SP.Pool, r: FL.Addr, marked: set<FL.Addr>)
    requires RA.Right(sh, p) && r in p.runs
    ensures RA.SweptConcurrently(sh, p, r, marked).0.owner.Keys <= p.owner.Keys
  {
    RA.SweepsAgree(sh, p, r, marked);
    RA.SweptRunRight(sh, p, r, marked);
  }

  lemma SweepRunOk(h: Good, r: FL.Addr) returns (g: Good)
    requires h.m.phase == M.Sweep && r in h.p.runs
    ensures g == DoSweepRun(h, r) && g.p.live == h.p.live - RA.DeadIn(h.p, r, h.m.marked)
  {
    SweptHeapInv(h, r);
    RA.SweepsAgree(h.sh, h.p, r, h.m.marked);
    RA.SweepRight(h.sh, h.p, r, h.m.marked);
    SweptOwner(h.sh, h.p, r, h.m.marked);
    g := MakeGood(h.sh, SweptHeap(h.m, h.p, r), RA.SweptConcurrently(h.sh, h.p, r, h.m.marked).0);
  }

  lemma SweepElsewhereOk(h: Good, o: M.Obj) returns (g: Good)
    requires o !in h.p.owner && M.CanSweepOne(h.m, o)
    ensures g == h.(m := M.DoSweepOne(h.m, o))
  {
    MI.SweepOneInv(h.m, o);
    assert h.p.live <= h.p.owner.Keys;
    g := MakeGood(h.sh, M.DoSweepOne(h.m, o), h.p);
  }

  lemma ReleaseLocalOk(h: Good) returns (g: Good)
    ensures g == h.(p := RA.LocalReleased(h.p)) && g.p.live == h.p.live
  {
    RA.LocalReleaseRight(h.sh, h.p);
    g := MakeGood(h.sh, h.m, RA.LocalReleased(h.p));
  }

  // ------------------------------------------------------------------ every step

  lemma KeepsObjects(m: M.State, st: M.Step, m': M.State)
    requires M.MutatorStep(m, st, m') || M.WorkerStep(m, st, m') || M.MainStep(m, st, m')
    requires !MovesObjects(st)
    ensures m'.heap.Keys == m.heap.Keys && M.Next(m, m')
  {
    if M.MutatorStep(m, st, m') {
      MS.MutatorFreesNothing(m, st, m');
    } else if M.WorkerStep(m, st, m') {
      MS.WorkersLeaveTheHeap(m, st, m');
    } else {
      MS.OnlySweepFrees(m, st, m');
    }
  }

  lemma MarkOk(h: Good, st: M.Step, m: M.State) returns (g: Good)
    requires !MovesObjects(st) && (M.MutatorStep(h.m, st, m) || M.WorkerStep(h.m, st, m) || M.MainStep(h.m, st, m))
    ensures g == h.(m := m)
  {
    KeepsObjects(h.m, st, m);
    MI.NextInv(h.m, m);
    g := MakeGood(h.sh, m, h.p);
  }

  lemma NextOk(h: Good, step: Step, h': Heap) returns (g: Good)
    requires Next(h, step, h')
    ensures g == h'
  {
    match step
    case Allocate(i, n, page) => g := AllocateOk(h, i, n, page);
    case AllocateElsewhere(i, a, n) => g := AllocateElsewhereOk(h, i, a, n);
    case SweepRun(r) => g := SweepRunOk(h, r);
    case SweepElsewhere(o) => g := SweepElsewhereOk(h, o);
    case ReleaseLocal => g := ReleaseLocalOk(h);
    case Mark(st) => g := MarkOk(h, st, h'.m);
  }

  // ------------------------------------------------------------------ every run

  /** What happens to a heap in order; one out of order may turn into anything. */
  ghost predicate StepAt(hs: seq<Heap>, steps: seq<Step>, i: nat)
    requires i < |steps| && |hs| == |steps| + 1
  {
    Ok(hs[i]) ==> Next(hs[i], steps[i], hs[i + 1])
  }

  ghost predicate IsRun(hs: seq<Heap>, steps: seq<Step>) {
    && |hs| == |steps| + 1 && Init(hs[0])
    && forall i :: 0 <= i < |steps| ==> StepAt(hs, steps, i)
  }

  lemma StepOk(hs: seq<Heap>, steps: seq<Step>, i: nat, h: Good) returns (g: Good)
    requires |hs| == |steps| + 1 && i < |steps| && StepAt(hs, steps, i) && h == hs[i]
    ensures g == hs[i + 1]
  {
    g := NextOk(h, steps[i], hs[i + 1]);
  }

  /** Every state of every run is in order. */
  lemma RunOk(hs: seq<Heap>, steps: seq<Step>, n: nat) returns (g: Good)
    requires IsRun(hs, steps) && n < |hs|
    ensures g == hs[n]
  {
    g := InitOk(hs[0]);
    for i := 0 to n
      invariant g == hs[i]
    {
      g := StepOk(hs, steps, i, g);
    }
  }

  lemma ReachableIsHeld(h: Good, o: M.Obj)
    requires MS.Reachable(h.m, o)
    ensures o in h.m.heap && (h.m.phase == M.Sweep ==> o in h.m.marked)
    ensures o in h.p.owner ==>
      o in h.p.live && h.p.owner[o] in h.p.runs && o !in h.p.runs[h.p.owner[o]].free && o !in h.p.mine
  {
    var path :| MS.Chain(h.m, path) && path[|path| - 1] == o;
    MS.ChainInHeap(h.m, path, |path| - 1);
    if o in h.p.owner { assert SP.SlotRight(h.p, o); }
  }

  /**
   In every state of every run, an object that the mutator can reach is allocated, and its slot, if it
   lies in a run of the class, is on no free list, neither the run's nor the mutator's.
   */
  lemma ReachableSlotsAreHeld(hs: seq<Heap>, steps: seq<Step>, n: nat, o: M.Obj)
    requires IsRun(hs, steps) && n < |hs| && MS.Reachable(hs[n].m, o)
    ensures var p := hs[n].p;
      && o in hs[n].m.heap
      && (o in p.owner ==> o in p.live && p.owner[o] in p.runs && o !in p.runs[p.owner[o]].free && o !in p.mine)
  {
    var h := RunOk(hs, steps, n);
    ReachableIsHeld(h, o);
  }

  /** A step that frees a slot of the class finds an object in it that could not be reached any more. */
  lemma OnlyGarbageSlotsAreFreed(hs: seq<Heap>, steps: seq<Step>, n: nat, o: M.Obj)
    requires IsRun(hs, steps) && n < |steps| && o in hs[n].p.live && o !in hs[n + 1].p.live
    ensures steps[n].SweepRun? && !MS.Reachable(hs[n].m, o)
  {
    var h := RunOk(hs, steps, n);
    assert StepAt(hs, steps, n);
    match steps[n] {
      case Allocate(i, k, page) => var _ := AllocateOk(h, i, k, page);
      case SweepRun(r) =>
        var _ := SweepRunOk(h, r);
        if MS.Reachable(h.m, o) { ReachableIsHeld(h, o); }
      case ReleaseLocal => var _ := ReleaseLocalOk(h);
      case _ =>
    }
  }

  /** Allocation answers with a slot that no object of any kind is in, or not at all. */
  lemma NewObjectsTakeFreeSlots(hs: seq<Heap>, steps: seq<Step>, n: nat)
    requires IsRun(hs, steps) && n < |steps| && steps[n].Allocate?
    ensures hs[n + 1].p.live == hs[n].p.live ||
      exists a :: a !in hs[n].m.heap && hs[n + 1].p.live == hs[n].p.live + {a}
  {
    var h := RunOk(hs, steps, n);
    assert StepAt(hs, steps, n);
    var _ := AllocateOk(h, steps[n].i, steps[n].n, steps[n].page);
  }
}
