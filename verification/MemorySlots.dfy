/**
 Charging objects to memory slots while sweeping threads give charges back.

 The mutator gathers the charges of one slot at a time in a pending sum; a sweeping thread gathers the
 releases of one run in a batch. Neither reaches the committed bytes of a slot at once, and the
 committed bytes are unsigned, so a release must never come before its charge.
 */
module MemorySlots {

  /** An object with the slot it is charged to and its internal size. A new object has a new `id`. */
  datatype Obj = Obj(id: nat, slot: nat, size: nat)

  // ------------------------------------------------------------------ bytes of a set of objects

  function Part(o: Obj, k: nat): nat { if o.slot == k then o.size else 0 }

  ghost function Bytes(s: set<Obj>, k: nat): nat {
    if s == {} then 0 else var o :| o in s; Part(o, k) + Bytes(s - {o}, k)
  }

  lemma {:induction false} BytesWithout(s: set<Obj>, o: Obj, k: nat)
    requires o in s
    ensures Bytes(s, k) == Part(o, k) + Bytes(s - {o}, k)
  {
    var p :| p in s && Bytes(s, k) == Part(p, k) + Bytes(s - {p}, k);
    if p != o {
      BytesWithout(s - {p}, o, k);
      BytesWithout(s - {o}, p, k);
      assert s - {p} - {o} == s - {o} - {p};
    }
  }

  lemma BytesWith(s: set<Obj>, o: Obj, k: nat)
    requires o !in s
    ensures Bytes(s + {o}, k) == Bytes(s, k) + Part(o, k)
  {
    BytesWithout(s + {o}, o, k);
    assert s + {o} - {o} == s;
  }

  lemma {:induction false} BytesMinus(s: set<Obj>, t: set<Obj>, k: nat)
    requires t <= s
    ensures Bytes(s - t, k) == Bytes(s, k) - Bytes(t, k)
    decreases t
  {
    if t == {} {
      assert s - t == s;
    } else {
      var o :| o in t;
      BytesWithout(t, o, k);
      BytesMinus(s, t - {o}, k);
      BytesWithout(s - (t - {o}), o, k);
      assert s - (t - {o}) - {o} == s - t;
    }
  }

  lemma {:induction false} BytesOfOthers(s: set<Obj>, k: nat)
    requires forall o :: o in s ==> o.slot != k
    ensures Bytes(s, k) == 0
  {
    if s != {} {
      var o :| o in s;
      BytesWithout(s, o, k);
      BytesOfOthers(s - {o}, k);
    }
  }

  ghost function OfSlot(s: set<Obj>, k: nat): set<Obj> {
    set o | o in s && o.slot == k
  }

  lemma BytesOfSlot(s: set<Obj>, k: nat, j: nat)
    ensures Bytes(OfSlot(s, k), j) == if j == k then Bytes(s, k) else 0
  {
    if j == k {
      BytesMinus(s, s - OfSlot(s, k), k);
      BytesOfOthers(s - OfSlot(s, k), k);
      assert s - (s - OfSlot(s, k)) == OfSlot(s, k);
    } else {
      BytesOfOthers(OfSlot(s, k), j);
    }
  }

  // ------------------------------------------------------------------ state

  /** `bytes` is what the thread has added up for each slot; `objs` records the objects it is for. */
  datatype Batch = Batch(objs: set<Obj>, bytes: map<nat, nat>)

  /**
   `charged` are the objects whose bytes are committed or pending and not yet given back, `waiting`
   those among them that are pending; neither is in the program, which only has the sums. `payload` is
   the size that an object's header says, which its holder asked for.
   */
  datatype Slots = Slots(committed: map<nat, int>, pendingSlot: nat, pendingBytes: nat,
                         sweeping: bool, marked: set<Obj>, batches: map<nat, Batch>, payload: map<nat, nat>,
                         charged: set<Obj>, waiting: set<Obj>)

  function At(m: map<nat, int>, k: nat): int { if k in m then m[k] else 0 }
  function In(b: Batch, k: nat): nat { if k in b.bytes then b.bytes[k] else 0 }
  function Pending(s: Slots, k: nat): nat { if k == s.pendingSlot then s.pendingBytes else 0 }

  ghost predicate SlotOk(s: Slots, k: nat) {
    && At(s.committed, k) + Pending(s, k) == Bytes(s.charged, k)
    && Pending(s, k) == Bytes(s.waiting, k)
  }

  ghost predicate BatchOk(s: Slots, w: nat) {
    w in s.batches ==>
      && s.batches[w].objs <= s.charged && s.batches[w].objs !! s.waiting
      && forall k: nat :: In(s.batches[w], k) == Bytes(s.batches[w].objs, k)
  }

  ghost predicate Apart(s: Slots, v: nat, w: nat) {
    v != w && v in s.batches && w in s.batches ==> s.batches[v].objs !! s.batches[w].objs
  }

  ghost predicate Ok(s: Slots) {
    && (forall k: nat :: SlotOk(s, k))
    && (forall w: nat :: BatchOk(s, w))
    && (forall v: nat, w: nat :: Apart(s, v, w))
    && s.waiting <= s.charged && (s.sweeping ==> s.waiting <= s.marked)
    && (!s.sweeping ==> s.batches == map[])
  }

  /** Not yet released: no batch has the object. */
  ghost predicate Live(s: Slots, o: Obj) {
    o in s.charged && forall w :: w in s.batches ==> o !in s.batches[w].objs
  }

  // ------------------------------------------------------------------ steps

  datatype Step =
    | Allocate(o: Obj, n: nat)
    | Reallocate(o: Obj, n: nat, f: Obj) // `f` takes over from `o` where `o` is too small
    | BeginSweep(marked: set<Obj>)
    | Release(w: nat, o: Obj) // a slot of a run, into the batch of thread `w`
    | GiveBack(w: nat, k: nat) // one slot of a finished batch
    | DropBatch(w: nat)
    | ReleaseNow(o: Obj) // a large or huge object
    | EndSweep

  function Flushed(s: Slots): Slots {
    if s.pendingBytes == 0 then s.(waiting := {})
    else s.(committed := s.committed[s.pendingSlot := At(s.committed, s.pendingSlot) + s.pendingBytes],
            pendingBytes := 0, waiting := {})
  }

  function Charged(s: Slots, o: Obj): Slots {
    var f := if o.slot != s.pendingSlot then Flushed(s).(pendingSlot := o.slot) else s;
    f.(pendingBytes := f.pendingBytes + o.size, charged := f.charged + {o}, waiting := f.waiting + {o})
  }

  /** While a sweep runs, new objects are born marked. */
  function Born(s: Slots, o: Obj, n: nat, care: Care): Slots {
    var c := Charged(s, o);
    c.(marked := if s.sweeping && care.markBorn then s.marked + {o} else s.marked, payload := s.payload[o.id := n])
  }

  /** Whether pending charges are flushed before a sweep, and whether objects born in one are marked. */
  datatype Care = Care(flush: bool, markBorn: bool)

  /** What the program does. */
  const BOTH := Care(true, true)

  function Thread(s: Slots, w: nat): Batch {
    if w in s.batches then s.batches[w] else Batch({}, map[])
  }

  function Added(b: Batch, o: Obj): Batch {
    Batch(b.objs + {o}, b.bytes[o.slot := In(b, o.slot) + o.size])
  }

  function Subtract(s: Slots, k: nat, n: nat): Slots {
    s.(committed := s.committed[k := At(s.committed, k) - n])
  }

  ghost predicate IsNew(s: Slots, o: Obj) {
    forall p :: p in s.charged ==> p.id != o.id
  }

  ghost predicate Enabled(s: Slots, step: Step) {
    match step
    case Allocate(o, _) => IsNew(s, o)
    case Reallocate(o, n, f) =>
      Live(s, o) && o.id in s.payload && (s.payload[o.id] < n ==> IsNew(s, f) && f.slot == o.slot)
    case BeginSweep(_) => !s.sweeping
    case Release(_, o) => s.sweeping && Live(s, o) && o !in s.marked
    case GiveBack(w, _) => w in s.batches
    case DropBatch(w) => w in s.batches && forall k :: k in s.batches[w].bytes ==> s.batches[w].bytes[k] == 0
    case ReleaseNow(o) => s.sweeping && Live(s, o) && o !in s.marked
    case EndSweep => s.sweeping && s.batches == map[]
  }

  ghost function Next(s: Slots, step: Step, care: Care): Slots {
    match step
    case Allocate(o, n) => Born(s, o, n, care)
    case Reallocate(o, n, f) =>
      if o.id in s.payload && n <= s.payload[o.id] then s.(payload := s.payload[o.id := n]) else Born(s, f, n, care)
    case BeginSweep(marked) => (if care.flush then Flushed(s) else s).(sweeping := true, marked := marked)
    case Release(w, o) => s.(batches := s.batches[w := Added(Thread(s, w), o)])
    case GiveBack(w, k) =>
      var b := Thread(s, w);
      Subtract(s, k, In(b, k)).(charged := s.charged - OfSlot(b.objs, k),
                                batches := s.batches[w := Batch(b.objs - OfSlot(b.objs, k), b.bytes[k := 0])])
    case DropBatch(w) => s.(charged := s.charged - Thread(s, w).objs, batches := s.batches - {w})
    case ReleaseNow(o) => Subtract(s, o.slot, o.size).(charged := s.charged - {o})
    case EndSweep => s.(sweeping := false, marked := {})
  }

  // ------------------------------------------------------------------ every step keeps the books

  lemma FlushedOk(s: Slots)
    requires Ok(s)
    ensures Ok(Flushed(s)) && Flushed(s).pendingBytes == 0
  {
    var u := Flushed(s);
    forall k: nat ensures SlotOk(u, k) { assert SlotOk(s, k); }
    forall w: nat ensures BatchOk(u, w) { assert BatchOk(s, w); }
    forall v: nat, w: nat ensures Apart(u, v, w) { assert Apart(s, v, w); }
  }

  lemma BornOk(s: Slots, o: Obj, n: nat)
    requires Ok(s) && IsNew(s, o)
    ensures Ok(Born(s, o, n, BOTH))
  {
    FlushedOk(s);
    var f := if o.slot != s.pendingSlot then Flushed(s).(pendingSlot := o.slot) else s;
    var u := Born(s, o, n, BOTH);
    assert o !in s.charged;
    forall k: nat ensures SlotOk(u, k) {
      assert SlotOk(s, k) && SlotOk(Flushed(s), k);
      BytesWith(f.charged, o, k);
      BytesWith(f.waiting, o, k);
    }
    forall w: nat ensures BatchOk(u, w) { assert BatchOk(s, w); }
    forall v: nat, w: nat ensures Apart(u, v, w) { assert Apart(s, v, w); }
  }

  lemma ReallocatedOk(s: Slots, o: Obj, n: nat, f: Obj)
    requires Ok(s) && Enabled(s, Reallocate(o, n, f))
    ensures Ok(Next(s, Reallocate(o, n, f), BOTH))
  {
    if n <= s.payload[o.id] {
      var u := s.(payload := s.payload[o.id := n]);
      forall k: nat ensures SlotOk(u, k) { assert SlotOk(s, k); }
      forall w: nat ensures BatchOk(u, w) { assert BatchOk(s, w); }
      forall v: nat, w: nat ensures Apart(u, v, w) { assert Apart(s, v, w); }
    } else {
      BornOk(s, f, n);
    }
  }

  lemma ReleaseOk(s: Slots, w: nat, o: Obj)
    requires Ok(s) && Enabled(s, Release(w, o))
    ensures Ok(Next(s, Release(w, o), BOTH))
  {
    var u := Next(s, Release(w, o), BOTH);
    forall k: nat ensures SlotOk(u, k) { assert SlotOk(s, k); }
    forall v: nat ensures BatchOk(u, v) {
      assert BatchOk(s, v);
      if v == w { AddedBytes(Thread(s, w), o); }
    }
    forall v: nat, x: nat ensures Apart(u, v, x) {
      assert Apart(s, v, x) && BatchOk(s, v) && BatchOk(s, x);
    }
  }

  lemma AddedBytes(b: Batch, o: Obj)
    requires o !in b.objs && forall k: nat :: In(b, k) == Bytes(b.objs, k)
    ensures forall k: nat :: In(Added(b, o), k) == Bytes(Added(b, o).objs, k)
  {
    forall k: nat ensures In(Added(b, o), k) == Bytes(Added(b, o).objs, k) {
      BytesWith(b.objs, o, k);
    }
  }

  /** The pending objects and a batch never overlap, so what is committed covers the batch. */
  lemma BatchIsCommitted(s: Slots, w: nat, k: nat)
    requires Ok(s) && w in s.batches
    ensures In(s.batches[w], k) <= At(s.committed, k)
  {
    assert SlotOk(s, k) && BatchOk(s, w);
    BytesMinus(s.charged, s.waiting, k);
    BytesMinus(s.charged - s.waiting, s.batches[w].objs, k);
  }

  lemma GiveBackOk(s: Slots, w: nat, k: nat)
    requires Ok(s) && Enabled(s, GiveBack(w, k))
    ensures Ok(Next(s, GiveBack(w, k), BOTH))
  {
    var u, b, gone := Next(s, GiveBack(w, k), BOTH), s.batches[w], OfSlot(s.batches[w].objs, k);
    assert BatchOk(s, w);
    forall j: nat ensures SlotOk(u, j) {
      assert SlotOk(s, j);
      BytesMinus(s.charged, gone, j);
      BytesOfSlot(b.objs, k, j);
    }
    forall v: nat ensures BatchOk(u, v) {
      assert BatchOk(s, v) && Apart(s, v, w);
      if v == w {
        forall j: nat ensures In(u.batches[w], j) == Bytes(b.objs - gone, j) {
          BytesMinus(b.objs, gone, j);
          BytesOfSlot(b.objs, k, j);
        }
      }
    }
    forall v: nat, x: nat ensures Apart(u, v, x) { assert Apart(s, v, x); }
  }

  lemma DropBatchOk(s: Slots, w: nat)
    requires Ok(s) && Enabled(s, DropBatch(w))
    ensures Ok(Next(s, DropBatch(w), BOTH))
  {
    var u, b := Next(s, DropBatch(w), BOTH), s.batches[w];
    assert BatchOk(s, w);
    forall j: nat ensures SlotOk(u, j) {
      assert SlotOk(s, j) && In(b, j) == 0;
      BytesMinus(s.charged, b.objs, j);
    }
    forall v: nat ensures BatchOk(u, v) { assert BatchOk(s, v) && Apart(s, v, w); }
    forall v: nat, x: nat ensures Apart(u, v, x) { assert Apart(s, v, x); }
  }

  lemma ReleaseNowOk(s: Slots, o: Obj)
    requires Ok(s) && Enabled(s, ReleaseNow(o))
    ensures Ok(Next(s, ReleaseNow(o), BOTH)) && o.size <= At(s.committed, o.slot)
  {
    var u := Next(s, ReleaseNow(o), BOTH);
    assert SlotOk(s, o.slot);
    BytesMinus(s.charged, s.waiting, o.slot);
    BytesWithout(s.charged - s.waiting, o, o.slot);
    forall j: nat ensures SlotOk(u, j) {
      assert SlotOk(s, j);
      BytesWithout(s.charged, o, j);
    }
    forall v: nat ensures BatchOk(u, v) { assert BatchOk(s, v); }
    forall v: nat, x: nat ensures Apart(u, v, x) { assert Apart(s, v, x); }
  }

  lemma SweepEdgesOk(s: Slots, marked: set<Obj>)
    requires Ok(s)
    ensures Enabled(s, BeginSweep(marked)) ==> Ok(Next(s, BeginSweep(marked), BOTH))
    ensures Enabled(s, EndSweep) ==> Ok(Next(s, EndSweep, BOTH))
  {
    FlushedOk(s);
    var u, e := Next(s, BeginSweep(marked), BOTH), Next(s, EndSweep, BOTH);
    forall k: nat ensures SlotOk(u, k) && SlotOk(e, k) { assert SlotOk(Flushed(s), k) && SlotOk(s, k); }
    forall w: nat ensures BatchOk(u, w) && BatchOk(e, w) { assert BatchOk(Flushed(s), w) && BatchOk(s, w); }
    forall v: nat, w: nat ensures Apart(u, v, w) && Apart(e, v, w) {
      assert Apart(Flushed(s), v, w) && Apart(s, v, w);
    }
  }

  lemma NextOk(s: Slots, step: Step)
    requires Ok(s) && Enabled(s, step)
    ensures Ok(Next(s, step, BOTH))
  {
    match step
    case Allocate(o, n) => BornOk(s, o, n);
    case Reallocate(o, n, f) => ReallocatedOk(s, o, n, f);
    case BeginSweep(marked) => SweepEdgesOk(s, marked);
    case Release(w, o) => ReleaseOk(s, w, o);
    case GiveBack(w, k) => GiveBackOk(s, w, k);
    case DropBatch(w) => DropBatchOk(s, w);
    case ReleaseNow(o) => ReleaseNowOk(s, o);
    case EndSweep => SweepEdgesOk(s, {});
  }

  // ------------------------------------------------------------------ every run

  ghost predicate StepAt(states: seq<Slots>, steps: seq<Step>, i: nat, care: Care)
    requires i < |steps| && |states| == |steps| + 1
  {
    Enabled(states[i], steps[i]) && states[i + 1] == Next(states[i], steps[i], care)
  }

  ghost predicate Initial(s: Slots) {
    s == Slots(map[], s.pendingSlot, 0, false, {}, map[], map[], {}, {})
  }

  ghost predicate RunWith(states: seq<Slots>, steps: seq<Step>, care: Care) {
    && |states| == |steps| + 1 && Initial(states[0])
    && forall i :: 0 <= i < |steps| ==> StepAt(states, steps, i, care)
  }

  /** A run of the program. */
  ghost predicate IsRun(states: seq<Slots>, steps: seq<Step>) {
    RunWith(states, steps, BOTH)
  }

  lemma {:induction false} RunOk(states: seq<Slots>, steps: seq<Step>, n: nat)
    requires IsRun(states, steps) && n < |states|
    ensures Ok(states[n])
  {
    if n == 0 {
      forall k: nat ensures SlotOk(states[0], k) { }
      forall w: nat ensures BatchOk(states[0], w) { }
    } else {
      RunOk(states, steps, n - 1);
      assert StepAt(states, steps, n - 1, BOTH);
      NextOk(states[n - 1], steps[n - 1]);
    }
  }

  /** The objects charged to a slot that no thread has released yet. */
  ghost function Unreleased(s: Slots): set<Obj> {
    set o | o in s.charged && Live(s, o)
  }

  /**
   In every run, whenever no batch is open, committed plus pending bytes of a slot are exactly the
   sizes of the unreleased objects charged to it; committed bytes are never negative.
   */
  lemma ChargesInEveryRun(states: seq<Slots>, steps: seq<Step>, n: nat, k: nat)
    requires IsRun(states, steps) && n < |states|
    ensures var s := states[n];
      && 0 <= At(s.committed, k)
      && (s.batches == map[] ==> At(s.committed, k) + Pending(s, k) == Bytes(Unreleased(s), k))
  {
    RunOk(states, steps, n);
    var s := states[n];
    assert SlotOk(s, k);
    BytesMinus(s.charged, s.waiting, k);
    if s.batches == map[] { assert Unreleased(s) == s.charged; }
  }

  /** The step subtracts more than is committed. */
  ghost predicate Underflows(s: Slots, step: Step) {
    match step
    case GiveBack(w, k) => In(Thread(s, w), k) > At(s.committed, k)
    case ReleaseNow(o) => o.size > At(s.committed, o.slot)
    case _ => false
  }

  /** No subtraction underflows, however the threads and the mutator interleave. */
  lemma NoUnderflow(states: seq<Slots>, steps: seq<Step>, n: nat)
    requires IsRun(states, steps) && n < |steps|
    ensures !Underflows(states[n], steps[n])
  {
    RunOk(states, steps, n);
    assert StepAt(states, steps, n, BOTH);
    match steps[n]
    case GiveBack(w, k) => BatchIsCommitted(states[n], w, k);
    case ReleaseNow(o) => ReleaseNowOk(states[n], o);
    case _ =>
  }

  /**
   Both precautions are needed: a sweep that starts without the flush, or that does not mark the
   objects born in it, has a run of three steps whose release comes before its charge.
   */
  lemma BothPrecautionsNeeded(care: Care) returns (states: seq<Slots>, steps: seq<Step>)
    requires care != BOTH
    ensures RunWith(states, steps, care) && |steps| == 3 && Underflows(states[2], steps[2])
  {
    var o := Obj(0, 7, 16);
    var s0 := Slots(map[], 7, 0, false, {}, map[], map[], {}, {});
    steps := if care.flush then [BeginSweep({}), Allocate(o, 8), ReleaseNow(o)]
             else [Allocate(o, 8), BeginSweep({}), ReleaseNow(o)];
    var s1 := Next(s0, steps[0], care);
    var s2 := Next(s1, steps[1], care);
    var s3 := Next(s2, steps[2], care);
    states := [s0, s1, s2, s3];
    assert Live(s2, o) && s2.marked == {} && s2.sweeping;
    assert StepAt(states, steps, 0, care) && StepAt(states, steps, 1, care) && StepAt(states, steps, 2, care);
  }
}
