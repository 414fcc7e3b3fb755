/**
 The phase machine of the collector: which of concurrent marking and concurrent sweeping is on, who
 marks objects, and when mark bits are cleared.

 First the state and what each request amounts to, then what holds in every run, then the requests
 as the collector carries them out.
 */
module Collectors {
  import opened PG = PageGroupTables

  type Addr = nat

  const EAGER_LITE_PARALLEL: nat := 2

  datatype Task = NoTask | NoGC | DoConSweep | DoConMark | ParallelGC

  /** What the thread pool reports when it has nothing left to do. */
  datatype Notify = Nothing | MarkDone | SweepDone

  /**
   `busy`: workers may be running. `bits`: the objects whose mark bit is set. `runtimeFlag` and
   `contexts` are the copies of the marking state that the stores of the interpreter look at.
   */
  datatype Gc = Gc(conMark: bool, conMarkFinished: bool, conSweep: bool, conSweepFinished: bool, markNew: bool,
                   busy: bool, notify: Notify, forbid: nat, suppressed: bool, concurrent: bool,
                   bits: set<Addr>, table: Table, runtimeFlag: bool, contexts: seq<bool>)

  /** The objects that a collection marks in its phases. */
  datatype Seen = Seen(roots: set<Addr>, remark: set<Addr>, finalizer: set<Addr>)

  /** What holds whenever the mutator runs outside finalizers. */
  ghost predicate Visible(g: Gc) {
    && !(g.conMark && g.conSweep)
    && (g.markNew <==> g.conSweep)
    && (!g.conMark && !g.conSweep ==> g.bits == {} && !g.busy)
    && (g.conMarkFinished ==> g.conMark)
    && (g.conMark || g.conSweep ==> g.concurrent)
    && g.notify == (if g.conMark then MarkDone else if g.conSweep then SweepDone else Nothing)
    && Valid(g.table) && g.table.marking == g.conMark
    && g.runtimeFlag == g.conMark && AllAre(g.contexts, g.conMark)
  }

  ghost predicate AllAre(flags: seq<bool>, b: bool) {
    forall i :: 0 <= i < |flags| ==> flags[i] == b
  }

  function Copies(flags: seq<bool>, b: bool): seq<bool> {
    seq(|flags|, _ => b)
  }

  /** What holds while finalizers run. */
  ghost predicate Finalizing(g: Gc) {
    && !g.conMark && !g.conMarkFinished && !g.conSweep && g.markNew && 0 < g.forbid
    && Valid(g.table) && !g.table.marking && !g.runtimeFlag && AllAre(g.contexts, false)
  }

  // ------------------------------------------------------------------ what a request amounts to

  function Idle(g: Gc): Gc {
    g.(conMark := false, conMarkFinished := false, conSweep := false, markNew := false, busy := false,
       notify := Nothing, bits := {}, table := Marking(g.table, false), runtimeFlag := false,
       contexts := Copies(g.contexts, false))
  }

  function MarkStarted(g: Gc, seen: Seen): Gc {
    g.(conMark := true, conMarkFinished := false, conSweep := false, markNew := false, busy := true,
       notify := MarkDone, bits := seen.roots, table := Marking(g.table, true), runtimeFlag := true,
       contexts := Copies(g.contexts, true))
  }

  function SweepStarted(g: Gc, seen: Seen): Gc {
    g.(conMark := false, conMarkFinished := false, conSweep := true, markNew := true, busy := true,
       notify := SweepDone, bits := g.bits + seen.remark + seen.finalizer, table := Marking(g.table, false),
       runtimeFlag := false, contexts := Copies(g.contexts, false))
  }

  /** A request for a collection. */
  function Collected(g: Gc, task: Task, eager: nat, forceParallel: bool, seen: Seen): Gc {
    if g.suppressed || 0 < g.forbid then
      if g.conMark && g.conMarkFinished then Idle(g) else g
    else if !g.concurrent || forceParallel then
      Idle(g)
    else
      match task
      case NoGC => g
      case DoConSweep => if g.conMark then SweepStarted(g, seen) else Idle(g)
      case DoConMark => if eager < EAGER_LITE_PARALLEL then MarkStarted(g, seen) else Idle(g)
      case NoTask => Idle(g)
      case ParallelGC => Idle(g)
  }

  /** Whether the request stops the world for a collection of its own. */
  predicate RunsParallel(g: Gc, task: Task, eager: nat, forceParallel: bool) {
    && !g.suppressed && g.forbid == 0
    && (!g.concurrent || forceParallel
        || match task
           case NoGC => false
           case DoConMark => EAGER_LITE_PARALLEL <= eager
           case _ => !g.conMark && !g.conSweep)
  }

  /** The check before an allocation. */
  function Triggered(g: Gc, seen: Seen): Gc {
    if g.suppressed || 0 < g.forbid || !g.concurrent then g
    else if g.conMark && g.conMarkFinished then SweepStarted(g, seen)
    else if g.conSweep && g.conSweepFinished then Idle(g)
    else g
  }

  // ------------------------------------------------------------------ every run

  datatype Step =
    | Collect(task: Task, eager: nat, forceParallel: bool, seen: Seen)
    | Trigger(seen: Seen)
    | Allocate(a: Addr) // a new object
    | Store(group: nat, a: Addr) // a store into an object of `group` that looks at the group's flag
    | StoreInContext(context: nat, a: Addr) // a store that looks at its context's flag
    | NewContext
    | DropContext(context: nat)
    | WorkerMarks(a: Addr)
    | PoolIsDone
    | NewGroup(huge: bool, capacity: nat, mapped: nat)
    | ReleaseGroup(group: nat)
    | Forbid
    | Allow
    | Suppress(mode: bool)

  ghost predicate Enabled(g: Gc, step: Step) {
    match step
    case Store(k, _) => k < |g.table.groups| && g.table.groups[k].live
    case StoreInContext(c, _) => c < |g.contexts|
    case DropContext(c) => c < |g.contexts|
    case WorkerMarks(_) => g.conMark && g.busy
    case PoolIsDone => g.busy
    case NewGroup(_, _, _) => Valid(g.table)
    case ReleaseGroup(k) => k < |g.table.groups| && g.table.groups[k].live
    case Allow => 0 < g.forbid
    case _ => true
  }

  ghost function Next(g: Gc, step: Step): Gc
    requires Enabled(g, step) && Valid(g.table)
  {
    match step
    case Collect(task, eager, forceParallel, seen) => Collected(g, task, eager, forceParallel, seen)
    case Trigger(seen) => Triggered(g, seen)
    case Allocate(a) => if g.markNew then g.(bits := g.bits + {a}) else g
    case Store(k, a) => if g.table.groups[k].header then g.(bits := g.bits + {a}) else g
    case StoreInContext(c, a) => if g.contexts[c] then g.(bits := g.bits + {a}) else g
    case NewContext => g.(contexts := g.contexts + [g.runtimeFlag])
    case DropContext(c) => g.(contexts := g.contexts[..c] + g.contexts[c + 1..])
    case WorkerMarks(a) => g.(bits := g.bits + {a})
    case PoolIsDone =>
      (match g.notify
       case Nothing => g
       case MarkDone => g.(conMarkFinished := true)
       case SweepDone => g.(conSweepFinished := true))
    case NewGroup(huge, capacity, mapped) =>
      ClaimedValid(g.table, huge, capacity, mapped);
      g.(table := Claimed(g.table, huge, capacity, mapped))
    case ReleaseGroup(k) => g.(table := Released(g.table, k))
    case Forbid => g.(forbid := g.forbid + 1)
    case Allow => g.(forbid := g.forbid - 1)
    case Suppress(mode) => g.(suppressed := mode)
  }

  lemma PhasesVisible(g: Gc, seen: Seen)
    requires Visible(g)
    ensures Visible(Idle(g))
    ensures g.concurrent ==> Visible(MarkStarted(g, seen)) && Visible(SweepStarted(g, seen))
  {
    MarkingValid(g.table, false);
    MarkingValid(g.table, true);
  }

  lemma NextVisible(g: Gc, step: Step)
    requires Visible(g) && Enabled(g, step)
    ensures Visible(Next(g, step))
  {
    match step
    case Collect(_, _, _, seen) => PhasesVisible(g, seen);
    case Trigger(seen) => PhasesVisible(g, seen);
    case Store(k, _) => assert FlagOk(g.table.groups[k], g.table.marking);
    case NewGroup(huge, capacity, mapped) => ClaimedValid(g.table, huge, capacity, mapped);
    case ReleaseGroup(k) => ReleasedValid(g.table, k);
    case _ =>
  }

  ghost predicate StepAt(states: seq<Gc>, steps: seq<Step>, i: nat)
    requires i < |steps| && |states| == |steps| + 1
  {
    Valid(states[i].table) && Enabled(states[i], steps[i]) && states[i + 1] == Next(states[i], steps[i])
  }

  ghost predicate IsRun(states: seq<Gc>, steps: seq<Step>) {
    && |states| == |steps| + 1 && Visible(states[0])
    && forall i :: 0 <= i < |steps| ==> StepAt(states, steps, i)
  }

  lemma {:induction false} RunVisible(states: seq<Gc>, steps: seq<Step>, n: nat)
    requires IsRun(states, steps) && n < |states|
    ensures Visible(states[n])
  {
    if n != 0 {
      RunVisible(states, steps, n - 1);
      assert StepAt(states, steps, n - 1);
      NextVisible(states[n - 1], steps[n - 1]);
    }
  }

  /**
   At every point of every run the two concurrent phases exclude each other, new objects are marked
   exactly while sweeping is on, no bit is set when neither is on, and every mapped group and every
   context tells the write barrier exactly whether marking is on, also those that came in the middle
   of a cycle.
   */
  lemma PhasesInEveryRun(states: seq<Gc>, steps: seq<Step>, n: nat)
    requires IsRun(states, steps) && n < |states|
    ensures var g := states[n];
      && !(g.conMark && g.conSweep)
      && (g.markNew <==> g.conSweep)
      && (!g.conMark && !g.conSweep ==> g.bits == {})
      && (forall k :: 0 <= k < |g.table.groups| && g.table.groups[k].live ==> g.table.groups[k].header == g.conMark)
      && (forall c :: 0 <= c < |g.contexts| ==> g.contexts[c] == g.conMark)
  {
    RunVisible(states, steps, n);
    var g := states[n];
    forall k | 0 <= k < |g.table.groups| && g.table.groups[k].live ensures g.table.groups[k].header == g.conMark {
      assert FlagOk(g.table.groups[k], g.table.marking);
    }
  }

  /** While sweeping goes on no mark bit is cleared. */
  lemma SweepKeepsBits(g: Gc, step: Step)
    requires Visible(g) && Enabled(g, step) && g.conSweep && Next(g, step).conSweep
    ensures g.bits <= Next(g, step).bits
  {
  }

  lemma AllocateMarks(g: Gc, step: Step)
    requires Visible(g) && g.conSweep && step.Allocate?
    ensures step.a in Next(g, step).bits
  {
  }

  /** An object born while sweeping is on is marked and stays so until sweeping has ended. */
  lemma {:induction false} BornMarked(states: seq<Gc>, steps: seq<Step>, i: nat, j: nat)
    requires IsRun(states, steps) && i < j < |states| && steps[i].Allocate?
    requires forall k :: i <= k <= j ==> states[k].conSweep
    ensures steps[i].a in states[j].bits
    decreases j
  {
    RunVisible(states, steps, j - 1);
    var g, step := states[j - 1], steps[j - 1];
    assert StepAt(states, steps, j - 1) && g.conSweep && states[j].conSweep;
    if i == j - 1 {
      AllocateMarks(g, step);
    } else {
      BornMarked(states, steps, i, j - 1);
      SweepKeepsBits(g, step);
    }
  }

  // ------------------------------------------------------------------ the collector as it runs

  /** Setting the flags to what they are changes nothing. */
  lemma FlagsAgain(g: Gc)
    requires Visible(g)
    ensures Marking(g.table, g.conMark) == g.table && Copies(g.contexts, g.conMark) == g.contexts
  {
    MarkingAgain(g.table);
  }

  lemma FlagsTwice(g: Gc, second: bool)
    ensures Marking(Marking(g.table, false), second) == Marking(g.table, second)
    ensures Copies(Copies(g.contexts, false), second) == Copies(g.contexts, second)
  {
    MarkingTwice(g.table, false, second);
  }

  class Collector {
    const groups: PageGroups
    const concurrent: bool
    var conMark: bool
    var conMarkFinished: bool
    var conSweep: bool
    var conSweepFinished: bool
    var markNew: bool
    var busy: bool
    var notify: Notify
    var forbid: nat
    var suppressed: bool
    var bits: set<Addr>
    var runtimeFlag: bool
    var contexts: seq<bool>

    ghost function P(): Gc
      reads this, groups
    {
      Gc(conMark, conMarkFinished, conSweep, conSweepFinished, markNew, busy, notify, forbid, suppressed, concurrent,
         bits, groups.P(), runtimeFlag, contexts)
    }

    constructor (concurrent: bool)
      ensures fresh(groups) && Visible(P()) && P().concurrent == concurrent
    {
      groups := new PageGroups();
      this.concurrent := concurrent;
      conMark, conMarkFinished, conSweep, conSweepFinished, markNew := false, false, false, false, false;
      busy, notify, forbid, suppressed, bits := false, Nothing, 0, false, {};
      runtimeFlag, contexts := false, [];
      new;
      EmptyValid();
    }

    // ---------------------------------------------------------------- the pieces of a phase

    /** WaitFinish: the pool runs what is left, marking `found`, and stops. */
    method WaitFinish(found: set<Addr>)
      modifies `busy, `bits
      ensures !busy && bits == old(bits) + found
    {
      bits := bits + found;
      busy := false;
    }

    method ResetBitmap()
      requires !busy
      modifies `bits
      ensures bits == {}
    {
      bits := {};
    }

    method SetContexts(flag: bool)
      modifies `contexts, `runtimeFlag
      ensures contexts == Copies(old(contexts), flag) && runtimeFlag == flag
    {
      var i := 0;
      while i < |contexts|
        invariant i <= |contexts| == |old(contexts)|
        invariant forall k :: 0 <= k < i ==> contexts[k] == flag
      {
        contexts := contexts[i := flag];
        i := i + 1;
      }
      runtimeFlag := flag;
    }

    method ConMarkPrologue()
      requires bits == {} && !conSweep
      modifies `conMark, `contexts, `runtimeFlag, groups
      ensures conMark && groups.P() == Marking(old(groups.P()), true)
      ensures runtimeFlag && contexts == Copies(old(contexts), true)
    {
      conMark := true;
      groups.SetConcurrentMarkForAll(true);
      SetContexts(true);
    }

    method ConMarkEpilogue()
      modifies `conMark, `conMarkFinished, `contexts, `runtimeFlag, groups
      ensures !conMark && !conMarkFinished && groups.P() == Marking(old(groups.P()), false)
      ensures !runtimeFlag && contexts == Copies(old(contexts), false)
    {
      conMark := false;
      groups.SetConcurrentMarkForAll(false);
      conMarkFinished := false;
      SetContexts(false);
    }

    /** Finalizers may ask for memory and so for a collection, which then does nothing. */
    method DoFinalizerPhase(isConcurrent: bool, found: set<Addr>)
      requires !conMark && !conMarkFinished && !conSweep && !busy && Valid(groups.P()) && !groups.marking
      requires !runtimeFlag && AllAre(contexts, false)
      modifies `markNew, `forbid, `bits, `busy
      ensures markNew == isConcurrent && forbid == old(forbid) && !busy && bits == old(bits) + found
    {
      forbid := forbid + 1;
      markNew := true;
      assert Finalizing(P());
      WaitFinish(found);
      forbid := forbid - 1;
      if !isConcurrent {
        markNew := false;
      }
    }

    // ---------------------------------------------------------------- concurrent phases

    method ConcurrentMarkPhase(roots: set<Addr>)
      requires bits == {} && !busy && !conSweep
      modifies this, groups
      ensures P() == old(P()).(conMark := true, busy := true, notify := MarkDone, bits := roots,
                              table := Marking(old(groups.P()), true), runtimeFlag := true,
                              contexts := Copies(old(contexts), true))
    {
      ConMarkPrologue();
      WaitFinish(roots);
      notify := MarkDone;
      busy := true;
    }

    method ConcurrentSweepPhase()
      requires !conMark && !busy && markNew
      modifies `conSweep, `notify, `busy
      ensures conSweep && notify == SweepDone && busy
    {
      conSweep := true;
      notify := SweepDone;
      busy := true;
    }

    method FastTerminateConMarkPhase()
      requires conMark ==> !conSweep && !markNew
      modifies this, groups
      ensures P() == if old(conMark) then Idle(old(P())) else old(P())
    {
      if !conMark {
        return;
      }
      notify := Nothing;
      WaitFinish({});
      ResetBitmap();
      ConMarkEpilogue();
    }

    method TryEnsureConcurrentMarkIsFinished(remark: set<Addr>) returns (was: bool)
      modifies this, groups
      ensures was == old(conMark)
      ensures !was ==> P() == old(P())
      ensures was ==> P() == old(P()).(conMark := false, conMarkFinished := false, busy := false, notify := Nothing,
                                       bits := old(bits) + remark, table := Marking(old(groups.P()), false),
                                       runtimeFlag := false, contexts := Copies(old(contexts), false))
    {
      if !conMark {
        return false;
      }
      notify := Nothing;
      WaitFinish(remark);
      ConMarkEpilogue();
      was := true;
    }

    method EnsureConcurrentSweepIsFinished() returns (was: bool)
      requires conSweep ==> !conMark && !conMarkFinished
      modifies this
      ensures was == old(conSweep)
      ensures P() == if was then
                       old(P()).(conSweep := false, markNew := false, busy := false, notify := Nothing, bits := {})
                            else old(P())
    {
      if !conSweep {
        return false;
      }
      notify := Nothing;
      WaitFinish({});
      conSweep := false;
      ResetBitmap();
      markNew := false;
      was := true;
    }

    method TriggerConcurrentSweep(seen: Seen) returns (was: bool)
      requires Visible(P())
      modifies this, groups
      ensures was == old(conMark) && P() == if was then SweepStarted(old(P()), seen) else old(P())
    {
      MarkingValid(groups.P(), false);
      was := TryEnsureConcurrentMarkIsFinished(seen.remark);
      if was {
        DoFinalizerPhase(true, seen.finalizer);
        ConcurrentSweepPhase();
      }
    }

    method EnureConcurrentIsCompleted(seen: Seen) returns (was: bool)
      requires Visible(P())
      modifies this, groups
      ensures was == (old(conMark) || old(conSweep)) && P() == Idle(old(P()))
    {
      FlagsAgain(P());
      var swept := TriggerConcurrentSweep(seen);
      was := EnsureConcurrentSweepIsFinished();
    }

    method TriggerConcurrentMarking(eager: nat, seen: Seen) returns (started: bool)
      requires Visible(P())
      modifies this, groups
      ensures started == (eager < EAGER_LITE_PARALLEL)
      ensures P() == if started then MarkStarted(old(P()), seen) else Idle(old(P()))
    {
      FlagsAgain(P());
      FlagsTwice(P(), true);
      var swept := TriggerConcurrentSweep(seen);
      var ended := EnsureConcurrentSweepIsFinished();
      if eager < EAGER_LITE_PARALLEL {
        ConcurrentMarkPhase(seen.roots);
        return true;
      }
      return false;
    }

    // ---------------------------------------------------------------- the requests

    /** Whether the request is dealt with without stopping the world. */
    method TryConcurrentPhases(task: Task, eager: nat, seen: Seen) returns (done: bool)
      requires Visible(P()) && concurrent && !suppressed && forbid == 0
      modifies this, groups
      ensures P() == Collected(old(P()), task, eager, false, seen)
      ensures done == !RunsParallel(old(P()), task, eager, false)
    {
      FlagsTwice(P(), false);
      if task == DoConSweep {
        var started := TriggerConcurrentSweep(seen);
        if started {
          return true;
        }
      } else if task == DoConMark {
        var started := TriggerConcurrentMarking(eager, seen);
        if started {
          return true;
        }
        PhasesVisible(old(P()), seen);
      } else if task == NoGC {
        return true;
      }
      done := EnureConcurrentIsCompleted(seen);
    }

    /** Stops the world; starts and ends with no bit set. */
    method ParallelCollection(seen: Seen)
      requires Visible(P()) && !conMark && !conSweep
      modifies `markNew, `forbid, `bits, `busy
      ensures P() == old(P())
    {
      busy := true;
      WaitFinish(seen.roots);
      DoFinalizerPhase(false, seen.finalizer);
      busy := true;
      WaitFinish({});
      ResetBitmap();
    }

    method OnlyUpdateHeapSize()
      requires conMark ==> !conSweep && !markNew
      modifies this, groups
      ensures P() == if old(conMark && conMarkFinished) then Idle(old(P())) else old(P())
    {
      if conMarkFinished {
        FastTerminateConMarkPhase();
      }
    }

    method RunFullCollection(task: Task, eager: nat, forceParallel: bool, seen: Seen) returns (parallel: bool)
      requires Visible(P()) || Finalizing(P())
      modifies this, groups
      ensures P() == Collected(old(P()), task, eager, forceParallel, seen)
      ensures old(Finalizing(P())) ==> P() == old(P())
      ensures parallel == RunsParallel(old(P()), task, eager, forceParallel)
    {
      if suppressed || forbid > 0 {
        OnlyUpdateHeapSize();
        return false;
      }
      PhasesVisible(P(), seen);
      FlagsAgain(P());
      if concurrent {
        if forceParallel {
          var was := EnureConcurrentIsCompleted(seen);
        } else {
          var done := TryConcurrentPhases(task, eager, seen);
          if done {
            return false;
          }
        }
      }
      ParallelCollection(seen);
      parallel := true;
    }

    method TryTriggerConcurrentPhases(seen: Seen)
      requires Visible(P()) || Finalizing(P())
      modifies this, groups
      ensures P() == Triggered(old(P()), seen)
      ensures old(Finalizing(P())) ==> P() == old(P())
    {
      if suppressed || forbid > 0 {
        return;
      }
      if !concurrent {
        return;
      }
      FlagsAgain(P());
      if conMark && conMarkFinished {
        var was := TriggerConcurrentSweep(seen);
      } else if conSweep && conSweepFinished {
        var was := EnsureConcurrentSweepIsFinished();
      }
    }
  }
}
