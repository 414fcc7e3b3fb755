/**
 What the thread pool guarantees in every interleaving: each task runs exactly once, waiting for the
 pool to finish means that nothing is left, no wake-up is lost, and nobody waits forever while the
 workers have something to do.
 */
module ThreadPoolInv {
  import opened ThreadPools

  // ------------------------------------------------------------------ counting workers

  function One(b: bool): nat { if b then 1 else 0 }

  ghost function CountIf(ws: seq<WorkerState>, f: WorkerState -> bool): (n: nat)
    ensures n <= |ws|
  {
    if ws == [] then 0 else CountIf(ws[1..], f) + One(f(ws[0]))
  }

  lemma {:induction false} CountUpdate(ws: seq<WorkerState>, w: nat, s: WorkerState, f: WorkerState -> bool)
    requires w < |ws|
    ensures CountIf(ws[w := s], f) + One(f(ws[w])) == CountIf(ws, f) + One(f(s))
  {
    if w == 0 {
      assert ws[w := s][1..] == ws[1..];
    } else {
      CountUpdate(ws[1..], w - 1, s, f);
      assert ws[w := s][1..] == ws[1..][w - 1 := s];
    }
  }

  lemma {:induction false} CountSame(ws: seq<WorkerState>, vs: seq<WorkerState>,
                                     f: WorkerState -> bool, g: WorkerState -> bool)
    requires |vs| == |ws| && forall w :: 0 <= w < |ws| ==> (f(ws[w]) <==> g(vs[w]))
    ensures CountIf(ws, f) == CountIf(vs, g)
  {
    if ws != [] {
      CountSame(ws[1..], vs[1..], f, g);
    }
  }

  lemma {:induction false} CountLess(ws: seq<WorkerState>, f: WorkerState -> bool, g: WorkerState -> bool)
    requires forall w :: 0 <= w < |ws| && f(ws[w]) ==> g(ws[w])
    ensures CountIf(ws, f) <= CountIf(ws, g)
    ensures CountIf(ws, f) < CountIf(ws, g) ==> exists w :: 0 <= w < |ws| && g(ws[w]) && !f(ws[w])
  {
    if ws != [] {
      CountLess(ws[1..], f, g);
      if CountIf(ws, f) < CountIf(ws, g) && (f(ws[0]) || !g(ws[0])) {
        var w :| 0 <= w < |ws[1..]| && g(ws[1..][w]) && !f(ws[1..][w]);
        assert ws[w + 1] == ws[1..][w];
      }
    }
  }

  lemma {:induction false} CountAtLeast(ws: seq<WorkerState>, w: nat, f: WorkerState -> bool)
    requires w < |ws| && f(ws[w])
    ensures CountIf(ws, f) >= 1
  {
    if w > 0 {
      CountAtLeast(ws[1..], w - 1, f);
    }
  }

  predicate Active(s: WorkerState) { !s.Sleeping? }
  predicate Waits(s: WorkerState) { s.Waiting? }
  predicate Blocked(s: WorkerState) { s == Waiting(false) }
  predicate Called(s: WorkerState) { s == Sleeping(true) }
  predicate Asleep(s: WorkerState) { s.Sleeping? }
  predicate Always(s: WorkerState) { true }

  /** The worker goes on by itself, without a notification to come. */
  predicate GoesOn(s: WorkerState) { s != Sleeping(false) && s != Waiting(false) }

  // ------------------------------------------------------------------ invariants

  ghost predicate InvCounts(p: Pool) {
    && p.active == CountIf(p.workers, Active) && p.waiting == CountIf(p.workers, Waits)
    && p.maxActive <= |p.workers| && (p.workers != [] ==> p.maxActive > 0)
  }

  ghost predicate TaskRight(p: Pool, t: TaskId)
    requires t < p.added && |p.started| == |p.finished| == p.added
  {
    if t in p.queue then p.started[t] == 0 && p.finished[t] == 0 && t !in p.runner
    else p.started[t] == 1 && p.finished[t] == if t in p.runner then 0 else 1
  }

  /** Every task is queued, or being run by exactly one thread, or has been run once. */
  ghost predicate InvTasks(p: Pool) {
    && |p.started| == |p.finished| == p.added
    && (forall i :: 0 <= i < |p.queue| ==> p.queue[i] < p.added)
    && (forall i, j :: 0 <= i < j < |p.queue| ==> p.queue[i] != p.queue[j])
    && (forall t :: 0 <= t < p.added ==> TaskRight(p, t))
    && (forall t :: t in p.runner ==> t < p.added && RunnerRight(p, t))
    && (forall w :: 0 <= w < |p.workers| && p.workers[w].Exec? ==>
          p.workers[w].task in p.runner && p.runner[p.workers[w].task] == OnWorker(w))
    && (p.main.HelpExec? || p.main.DrainExec? ==> p.main.task in p.runner && p.runner[p.main.task] == OnMain)
  }

  ghost predicate RunnerRight(p: Pool, t: TaskId)
    requires t in p.runner
  {
    match p.runner[t]
    case OnWorker(w) => w < |p.workers| && p.workers[w] == Exec(t)
    case OnMain => (p.main.HelpExec? || p.main.DrainExec?) && p.main.task == t
  }

  /** How the counts, the two flags and the pending notifications fit together. */
  ghost predicate InvWakeUps(p: Pool) {
    && (!p.running ==> CountIf(p.workers, Blocked) == 0)
    && (!p.running && !p.main.AwaitStop? ==> p.active == 0)
    && (p.running ==> p.active <= p.maxActive <= p.active + CountIf(p.workers, Called))
    && (p.main.AwaitDone? ==> p.running && (p.main.notified || p.waiting != p.maxActive))
    && (p.main.AwaitStop? ==> !p.running && (p.main.notified || p.active != 0))
    && (p.main.Draining? || p.main.DrainExec? ==> !p.running)
    && (p.running && p.queue != [] && p.active > 0 ==> CountIf(p.workers, Blocked) < p.active)
  }

  ghost predicate Inv(p: Pool) {
    InvCounts(p) && InvTasks(p) && InvWakeUps(p)
  }

  lemma {:induction false} CountNone(ws: seq<WorkerState>, f: WorkerState -> bool)
    requires forall w :: 0 <= w < |ws| ==> !f(ws[w])
    ensures CountIf(ws, f) == 0
  {
    if ws != [] {
      CountNone(ws[1..], f);
    }
  }

  lemma InitInv(p: Pool)
    requires Init(p)
    ensures Inv(p)
  {
    CountNone(p.workers, Active);
    CountNone(p.workers, Waits);
    CountNone(p.workers, Blocked);
  }

  // ------------------------------------------------------------------ tasks

  lemma PoppedTasks(p: Pool, who: Runner, q: Pool)
    requires InvTasks(p) && p.queue != []
    requires q == Popped(p, who).(workers := q.workers, main := q.main, waiting := q.waiting)
    requires |q.workers| == |p.workers|
    requires match who
      case OnWorker(w) =>
        && w < |p.workers| && !p.workers[w].Exec? && q.workers == p.workers[w := Exec(p.queue[0])]
        && (q.main == p.main || (p.main.AwaitDone? && q.main.AwaitDone?))
      case OnMain =>
        && q.workers == p.workers && !(p.main.HelpExec? || p.main.DrainExec?)
        && (q.main == HelpExec(p.queue[0]) || q.main == DrainExec(p.queue[0]))
    ensures InvTasks(q)
  {
    var t := p.queue[0];
    assert TaskRight(p, t) && t in p.queue;
    assert p.queue == [t] + q.queue;
    forall s | 0 <= s < q.added ensures TaskRight(q, s) {
      assert TaskRight(p, s);
    }
    forall s | s in q.runner ensures s < q.added && RunnerRight(q, s) {
      if s != t { assert RunnerRight(p, s); }
    }
  }

  lemma AddedTasks(p: Pool, wake: nat)
    requires InvTasks(p)
    ensures InvTasks(Added(p, wake))
  {
    var q := Added(p, wake);
    forall s | 0 <= s < q.added ensures TaskRight(q, s) {
      if s < p.added { assert TaskRight(p, s); }
    }
    forall s | s in q.runner ensures s < q.added && RunnerRight(q, s) {
      assert RunnerRight(p, s);
    }
  }

  lemma CompletedTasks(p: Pool, t: TaskId, q: Pool)
    requires InvTasks(p) && t in p.runner && q == Completed(p, t).(workers := q.workers, main := q.main)
    requires match p.runner[t]
      case OnWorker(w) => w < |p.workers| && q.workers == p.workers[w := Ready] && q.main == p.main
      case OnMain => q.workers == p.workers && !q.main.HelpExec? && !q.main.DrainExec?
    ensures InvTasks(q)
  {
    assert TaskRight(p, t) && RunnerRight(p, t);
    forall s | 0 <= s < q.added ensures TaskRight(q, s) {
      assert TaskRight(p, s);
    }
    forall s | s in q.runner ensures s < q.added && RunnerRight(q, s) {
      assert RunnerRight(p, s);
    }
  }

  lemma TasksKept(p: Pool, q: Pool)
    requires InvTasks(p) && |q.workers| == |p.workers|
    requires q == p.(running := q.running, maxActive := q.maxActive, active := q.active, waiting := q.waiting,
                     workers := q.workers, main := q.main)
    requires forall w :: 0 <= w < |p.workers| && (p.workers[w].Exec? || q.workers[w].Exec?) ==>
      q.workers[w] == p.workers[w]
    requires p.main.HelpExec? || p.main.DrainExec? || q.main.HelpExec? || q.main.DrainExec? ==> q.main == p.main
    ensures InvTasks(q)
  {
    forall s | 0 <= s < q.added ensures TaskRight(q, s) {
      assert TaskRight(p, s);
    }
    forall s | s in q.runner ensures s < q.added && RunnerRight(q, s) {
      assert RunnerRight(p, s);
    }
  }

  // ------------------------------------------------------------------ worker sections

  lemma CountsUpdate(ws: seq<WorkerState>, w: nat, s: WorkerState)
    requires w < |ws|
    ensures CountIf(ws[w := s], Active) + One(Active(ws[w])) == CountIf(ws, Active) + One(Active(s))
    ensures CountIf(ws[w := s], Waits) + One(Waits(ws[w])) == CountIf(ws, Waits) + One(Waits(s))
    ensures CountIf(ws[w := s], Blocked) + One(Blocked(ws[w])) == CountIf(ws, Blocked) + One(Blocked(s))
    ensures CountIf(ws[w := s], Called) + One(Called(ws[w])) == CountIf(ws, Called) + One(Called(s))
  {
    CountUpdate(ws, w, s, Active);
    CountUpdate(ws, w, s, Waits);
    CountUpdate(ws, w, s, Blocked);
    CountUpdate(ws, w, s, Called);
  }

  lemma CountOrder(ws: seq<WorkerState>)
    ensures CountIf(ws, Blocked) <= CountIf(ws, Waits) <= CountIf(ws, Active)
  {
    CountLess(ws, Blocked, Waits);
    CountLess(ws, Waits, Active);
  }

  lemma LookInv(p: Pool, w: nat)
    requires Inv(p) && w < |p.workers| && p.workers[w] == Ready
    ensures Inv(Look(p, w))
  {
    var q := Look(p, w);
    CountsUpdate(p.workers, w, q.workers[w]);
    CountOrder(q.workers);
    if p.running && p.queue != [] {
      PoppedTasks(p, OnWorker(w), q);
    } else {
      TasksKept(p, q);
    }
  }

  lemma EnterInv(p: Pool, w: nat)
    requires Inv(p) && w < |p.workers| && p.workers[w] == Ready
    ensures Inv(SleepOrLook(p, w))
  {
    if p.running {
      LookInv(p, w);
    } else {
      var q := SleepOrLook(p, w);
      CountsUpdate(p.workers, w, Sleeping(false));
      CountAtLeast(p.workers, w, Active);
      TasksKept(p, q);
    }
  }

  /** What worker `w` finds does not depend on what it was doing. */
  lemma LookForgets(p: Pool, w: nat, s: WorkerState)
    requires w < |p.workers| && (p.queue != [] ==> p.queue[0] < |p.started|)
    ensures Look(WithWorker(p, w, s), w) == Look(p, w)
  {
    var r := Look(p, w).workers[w];
    assert p.workers[w := s][w := r] == p.workers[w := r];
  }

  lemma WakeWaiterInv(p: Pool, w: nat)
    requires Inv(p) && w < |p.workers| && p.workers[w].Waiting? && p.waiting > 0
    ensures Inv(Look(p.(waiting := p.waiting - 1), w))
  {
    var q := WithWorker(p, w, Ready).(waiting := p.waiting - 1);
    CountsUpdate(p.workers, w, Ready);
    CountOrder(p.workers);
    TasksKept(p, q);
    LookInv(q, w);
    LookForgets(p.(waiting := p.waiting - 1), w, Ready);
  }

  lemma WakeSleeperStays(p: Pool, w: nat)
    requires Inv(p) && w < |p.workers| && p.workers[w].Sleeping? && (p.active + 1 > p.maxActive || !p.running)
    ensures Inv(SleepOrLook(p.(active := p.active + 1), w))
  {
    CountsUpdate(p.workers, w, Sleeping(false));
    TasksKept(p, SleepOrLook(p.(active := p.active + 1), w));
  }

  lemma WakeSleeperLooks(p: Pool, w: nat)
    requires Inv(p) && w < |p.workers| && p.workers[w].Sleeping? && p.active + 1 <= p.maxActive && p.running
    ensures Inv(Look(p.(active := p.active + 1), w))
  {
    var q := WithWorker(p, w, Ready).(active := p.active + 1);
    CountsUpdate(p.workers, w, Ready);
    CountOrder(p.workers);
    TasksKept(p, q);
    LookInv(q, w);
    LookForgets(p.(active := p.active + 1), w, Ready);
  }

  lemma FinishInv(p: Pool, w: nat)
    requires Inv(p) && w < |p.workers| && p.workers[w].Exec? && p.workers[w].task < |p.finished|
    ensures Inv(WithWorker(Completed(p, p.workers[w].task), w, Ready))
  {
    CountsUpdate(p.workers, w, Ready);
    CompletedTasks(p, p.workers[w].task, WithWorker(Completed(p, p.workers[w].task), w, Ready));
  }

  lemma AddInv(p: Pool, wake: nat)
    requires Inv(p) && CanAdd(p, wake)
    requires p.main.Outside? || p.main.HelpExec? || p.main.DrainExec? ||
      exists w :: 0 <= w < |p.workers| && p.workers[w].Exec?
    ensures Inv(Added(p, wake))
  {
    var q := Added(p, wake);
    AddedTasks(p, wake);
    if q.workers != p.workers {
      CountsUpdate(p.workers, wake, Waiting(true));
      CountOrder(p.workers);
    } else if p.running && p.active > 0 {
      // no worker is blocked
      forall w | 0 <= w < |p.workers| ensures !Blocked(p.workers[w]) {
        if Blocked(p.workers[w]) {
          CountAtLeast(p.workers, w, Waits);
        }
      }
      CountNone(p.workers, Blocked);
    }
  }

  lemma WorkerStepInv(p: Pool, st: Step, p': Pool)
    requires Inv(p) && WorkerStep(p, st, p')
    ensures Inv(p')
  {
    match st
    case Enter(w) => EnterInv(p, w);
    case WakeSleeper(w) =>
      if p.active + 1 > p.maxActive || !p.running {
        WakeSleeperStays(p, w);
      } else {
        WakeSleeperLooks(p, w);
      }
    case WakeWaiter(w) => WakeWaiterInv(p, w);
    case TaskAdds(w, wake) => AddInv(p, wake);
    case Finish(w) => FinishInv(p, w);
    case _ =>
  }

  // ------------------------------------------------------------------ sections of the main thread

  lemma StartInv(p: Pool)
    requires Inv(p) && p.main.Outside?
    ensures Inv(p.(running := true, workers := NotifyAllSleeping(p.workers)))
  {
    var vs := NotifyAllSleeping(p.workers);
    CountSame(p.workers, vs, Active, Active);
    CountSame(p.workers, vs, Waits, Waits);
    CountSame(p.workers, vs, Blocked, Blocked);
    CountSame(p.workers, vs, Asleep, Called);
    ActiveOrAsleep(p.workers);
    CountOrder(p.workers);
    TasksKept(p, p.(running := true, workers := vs));
  }

  lemma {:induction false} ActiveOrAsleep(ws: seq<WorkerState>)
    ensures CountIf(ws, Active) + CountIf(ws, Asleep) == |ws|
  {
    if ws != [] {
      ActiveOrAsleep(ws[1..]);
    }
  }

  lemma StopInv(p: Pool)
    requires Inv(p) && p.main.EnterStop?
    ensures Inv(p.(running := false, workers := NotifyAllWaiting(p.workers),
                   main := if p.active != 0 then AwaitStop(false) else Draining))
  {
    var vs := NotifyAllWaiting(p.workers);
    CountSame(p.workers, vs, Active, Active);
    CountSame(p.workers, vs, Waits, Waits);
    CountNone(vs, Blocked);
    TasksKept(p, p.(running := false, workers := vs, main := if p.active != 0 then AwaitStop(false) else Draining));
  }

  lemma MainStepInv(p: Pool, st: Step, p': Pool)
    requires Inv(p) && MainStep(p, st, p')
    ensures Inv(p')
  {
    match st
    case MainAdd(wake) => AddInv(p, wake);
    case Start => StartInv(p);
    case StopBegin => StopInv(p);
    case HelpPop => if p.queue != [] && p.running { PoppedTasks(p, OnMain, p'); } else { TasksKept(p, p'); }
    case DrainPop => PoppedTasks(p, OnMain, p');
    case HelpDone => CompletedTasks(p, p.main.task, p');
    case DrainDone => CompletedTasks(p, p.main.task, p');
    case _ => TasksKept(p, p');
  }

  lemma {:induction false} RunInv(pools: seq<Pool>, i: nat)
    requires Run(pools) && i < |pools|
    ensures Inv(pools[i])
  {
    if i == 0 {
      InitInv(pools[0]);
    } else {
      RunInv(pools, i - 1);
      assert Next(pools[i - 1], pools[i - 1 + 1]);
      var st :| MainStep(pools[i - 1], st, pools[i]) || WorkerStep(pools[i - 1], st, pools[i]);
      if MainStep(pools[i - 1], st, pools[i]) {
        MainStepInv(pools[i - 1], st, pools[i]);
      } else {
        WorkerStepInv(pools[i - 1], st, pools[i]);
      }
    }
  }

  // ------------------------------------------------------------------ guarantees

  /**
   In every state of every run, a task is queued and not started, or started once; one that was
   started and not finished is being run by exactly one thread.
   */
  lemma EachTaskRunsOnce(pools: seq<Pool>, i: nat, t: TaskId)
    requires Run(pools) && i < |pools| && t < pools[i].added
    ensures var p := pools[i];
      && t < |p.started| && t < |p.finished| && p.finished[t] <= p.started[t] <= 1
      && (t in p.queue <==> p.started[t] == 0)
      && (p.started[t] == 1 && p.finished[t] == 0 <==> RunsIt(p, t))
      && forall v, w :: 0 <= v < w < |p.workers| && p.workers[v] == Exec(t) ==> p.workers[w] != Exec(t)
  {
    RunInv(pools, i);
    var p := pools[i];
    assert TaskRight(p, t);
    if t in p.runner { assert RunnerRight(p, t); }
  }

  /** Some thread is running task `t`. */
  ghost predicate RunsIt(p: Pool, t: TaskId) {
    || (exists w :: 0 <= w < |p.workers| && p.workers[w] == Exec(t))
    || p.main == HelpExec(t) || p.main == DrainExec(t)
  }

  /**
   When waiting for the pool returns, the queue is empty, every worker sleeps, and every task that
   was ever added, by the caller or by a running task, has run exactly once.
   */
  lemma WaitFinishMeansDone(pools: seq<Pool>, i: nat)
    requires Run(pools) && i + 1 < |pools| && MainStep(pools[i], WaitFinishReturns, pools[i + 1])
    ensures var p := pools[i + 1];
      && p.queue == [] && !p.running && (forall w :: 0 <= w < |p.workers| ==> p.workers[w].Sleeping?)
      && |p.finished| == |p.started| == p.added
      && forall t :: 0 <= t < p.added ==> p.started[t] == 1 && p.finished[t] == 1
  {
    RunInv(pools, i);
    var p := pools[i];
    forall w | 0 <= w < |p.workers| ensures p.workers[w].Sleeping? {
      if !p.workers[w].Sleeping? { CountAtLeast(p.workers, w, Active); }
    }
    forall t | 0 <= t < p.added ensures p.started[t] == 1 && p.finished[t] == 1 {
      assert TaskRight(p, t) && (t in p.runner ==> RunnerRight(p, t));
    }
  }

  /** While the pool runs and every active worker waits, no worker executes a task. */
  lemma AllWaitingMeansIdle(pools: seq<Pool>, i: nat)
    requires Run(pools) && i < |pools| && pools[i].running && pools[i].waiting == pools[i].maxActive
    ensures forall w :: 0 <= w < |pools[i].workers| ==> !pools[i].workers[w].Exec?
  {
    RunInv(pools, i);
    var ws := pools[i].workers;
    forall w | 0 <= w < |ws| ensures !ws[w].Exec? {
      if ws[w].Exec? { WaitsLessThanActive(ws, w); }
    }
  }

  lemma {:induction false} WaitsLessThanActive(ws: seq<WorkerState>, w: nat)
    requires w < |ws| && ws[w].Exec?
    ensures CountIf(ws, Waits) < CountIf(ws, Active)
  {
    CountOrder(ws[1..]);
    if w > 0 {
      WaitsLessThanActive(ws[1..], w - 1);
    }
  }

  /** Worker `w` can take a step without being notified once more. */
  ghost predicate StepsBy(p: Pool, w: nat) {
    exists st, p' :: WorkerStep(p, st, p') &&
      (st == Enter(w) || st == WakeSleeper(w) || st == WakeWaiter(w) || st == Finish(w))
  }

  lemma GoingOnIsAStep(p: Pool, w: nat)
    requires Inv(p) && w < |p.workers| && GoesOn(p.workers[w])
    ensures StepsBy(p, w)
  {
    match p.workers[w]
    case Ready => assert WorkerStep(p, Enter(w), SleepOrLook(p, w));
    case Exec(t) => assert WorkerStep(p, Finish(w), WithWorker(Completed(p, t), w, Ready));
    case Sleeping(_) => assert WorkerStep(p, WakeSleeper(w), SleepOrLook(p.(active := p.active + 1), w));
    case Waiting(_) =>
      CountAtLeast(p.workers, w, Waits);
      assert WorkerStep(p, WakeWaiter(w), Look(p.(waiting := p.waiting - 1), w));
  }

  lemma SomebodyGoesOn(p: Pool)
    requires Inv(p)
    requires (p.running && p.queue != [] && p.workers != []) || p.main == AwaitDone(false) || p.main == AwaitStop(false)
    ensures exists w :: 0 <= w < |p.workers| && GoesOn(p.workers[w]) && StepsBy(p, w)
  {
    var ws := p.workers;
    if forall w :: 0 <= w < |ws| ==> !GoesOn(ws[w]) {
      CountSame(ws, ws, Active, Blocked);
      CountSame(ws, ws, Waits, Blocked);
      CountNone(ws, Called);
    } else {
      var w :| 0 <= w < |ws| && GoesOn(ws[w]);
      GoingOnIsAStep(p, w);
    }
  }

  /** No lost wake-up: while a running pool has a task queued, some worker can take a step by itself. */
  lemma QueuedTaskIsSeen(pools: seq<Pool>, i: nat)
    requires Run(pools) && i < |pools| && pools[i].running && pools[i].queue != [] && pools[i].workers != []
    ensures exists w :: 0 <= w < |pools[i].workers| && GoesOn(pools[i].workers[w]) && StepsBy(pools[i], w)
  {
    RunInv(pools, i);
    SomebodyGoesOn(pools[i]);
  }

  /** No deadlock: while the main thread waits without a notification, some worker can take a step by itself. */
  lemma WaitingMainIsServed(pools: seq<Pool>, i: nat)
    requires Run(pools) && i < |pools| && (pools[i].main == AwaitDone(false) || pools[i].main == AwaitStop(false))
    ensures exists w :: 0 <= w < |pools[i].workers| && GoesOn(pools[i].workers[w]) && StepsBy(pools[i], w)
  {
    RunInv(pools, i);
    SomebodyGoesOn(pools[i]);
  }

  /**
   Why the number of active workers may change only while the pool is stopped: lowered while all
   workers of a running pool wait, it leaves the next caller that waits for them waiting forever.
   */
  lemma LoweringWhileRunningHangs(p: Pool, n: nat)
    requires Inv(p) && p.running && p.main.EnterWait? && 0 < n < p.maxActive == |p.workers|
    requires forall w :: 0 <= w < |p.workers| ==> p.workers[w] == Waiting(false)
    ensures var q := p.(maxActive := n, main := AwaitDone(false));
      && MainStep(p.(maxActive := n), CheckDone, q) && !MainStep(q, WakeDone, q.(main := EnterStop))
      && forall w :: 0 <= w < |q.workers| ==> !GoesOn(q.workers[w])
  {
    CountSame(p.workers, p.workers, Waits, Always);
    CountAll(p.workers);
  }

  lemma {:induction false} CountAll(ws: seq<WorkerState>)
    ensures CountIf(ws, Always) == |ws|
  {
    if ws != [] {
      CountAll(ws[1..]);
    }
  }
}
