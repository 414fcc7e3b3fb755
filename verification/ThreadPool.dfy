/**
 The collector's thread pool as a state machine. One step is one section under the pool's lock: from
 taking the lock, or waking up in a wait, to releasing it in the next wait or at the end. Condition
 variables may wake a thread without a notification.

 The exit flag is never set here: the pool is left by destroying it.
 */
module ThreadPools {

  type TaskId = nat

  datatype WorkerState =
    | Ready // between two sections, or about to take the lock
    | Exec(task: TaskId)
    | Sleeping(notified: bool) // until the pool starts, or while too many are active
    | Waiting(notified: bool) // for a task

  datatype MainState =
    | Outside
    | Helping // runs queued tasks before it waits
    | HelpExec(task: TaskId)
    | EnterWait
    | AwaitDone(notified: bool)
    | EnterStop
    | AwaitStop(notified: bool)
    | Draining
    | DrainExec(task: TaskId)

  datatype Pool = Pool(
    running: bool,
    maxActive: nat,
    active: nat, // workers that do not sleep
    waiting: nat, // workers that wait for a task
    queue: seq<TaskId>,
    workers: seq<WorkerState>,
    main: MainState,
    added: nat, // tasks are numbered in the order in which they are added
    started: seq<nat>, // how often each task was started, and finished
    finished: seq<nat>,
    runner: map<TaskId, Runner>) // bookkeeping: who runs each task that is started and not finished

  datatype Runner = OnWorker(w: nat) | OnMain

  /** All workers sleep, as the constructor leaves them. */
  ghost predicate Init(p: Pool) {
    && !p.running && p.maxActive == |p.workers| && p.active == 0 && p.waiting == 0 && p.queue == []
    && (forall w :: 0 <= w < |p.workers| ==> p.workers[w] == Sleeping(false))
    && p.main == Outside && p.added == 0 && p.started == [] && p.finished == [] && p.runner == map[]
  }

  // ------------------------------------------------------------------ pieces of the sections

  function WithWorker(p: Pool, w: nat, s: WorkerState): Pool
    requires w < |p.workers|
  {
    p.(workers := p.workers[w := s])
  }

  function NotifyAllSleeping(ws: seq<WorkerState>): (r: seq<WorkerState>)
    ensures |r| == |ws|
    ensures forall w :: 0 <= w < |ws| ==> r[w] == if ws[w].Sleeping? then Sleeping(true) else ws[w]
  {
    seq(|ws|, w requires 0 <= w < |ws| => if ws[w].Sleeping? then Sleeping(true) else ws[w])
  }

  function NotifyAllWaiting(ws: seq<WorkerState>): (r: seq<WorkerState>)
    ensures |r| == |ws|
    ensures forall w :: 0 <= w < |ws| ==> r[w] == if ws[w].Waiting? then Waiting(true) else ws[w]
  {
    seq(|ws|, w requires 0 <= w < |ws| => if ws[w].Waiting? then Waiting(true) else ws[w])
  }

  /** Takes the first task out of the queue; `who` runs it. */
  function Popped(p: Pool, who: Runner): Pool
    requires p.queue != [] && p.queue[0] < |p.started|
  {
    var t := p.queue[0];
    p.(queue := p.queue[1..], started := p.started[t := p.started[t] + 1], runner := p.runner[t := who])
  }

  function Completed(p: Pool, t: TaskId): Pool
    requires t < |p.finished|
  {
    p.(finished := p.finished[t := p.finished[t] + 1], runner := p.runner - {t})
  }

  /** Adds a task, and wakes worker `wake` if some worker waits without a notification. */
  ghost predicate CanAdd(p: Pool, wake: nat) {
    p.running && p.waiting > 0 && (exists w :: 0 <= w < |p.workers| && p.workers[w] == Waiting(false)) ==>
      wake < |p.workers| && p.workers[wake] == Waiting(false)
  }

  ghost function Added(p: Pool, wake: nat): Pool {
    p.(queue := p.queue + [p.added], added := p.added + 1, started := p.started + [0], finished := p.finished + [0],
       workers :=
         if p.running && p.waiting > 0 && wake < |p.workers| && p.workers[wake] == Waiting(false)
         then p.workers[wake := Waiting(true)] else p.workers)
  }

  /** Worker `w`, active and under the lock, looks for a task. */
  function Look(p: Pool, w: nat): Pool
    requires w < |p.workers| && (p.queue != [] ==> p.queue[0] < |p.started|)
  {
    if !p.running then WithWorker(p, w, Ready)
    else if p.queue == [] then
      var q := WithWorker(p, w, Waiting(false)).(waiting := p.waiting + 1);
      if q.waiting == p.maxActive && p.main.AwaitDone? then q.(main := AwaitDone(true)) else q
    else WithWorker(Popped(p, OnWorker(w)), w, Exec(p.queue[0]))
  }

  /** Worker `w`, active and under the lock, first checks whether it must sleep. */
  function SleepOrLook(p: Pool, w: nat): Pool
    requires w < |p.workers| && (p.queue != [] ==> p.queue[0] < |p.started|)
  {
    if p.active > p.maxActive || !p.running then
      var q := WithWorker(p, w, Sleeping(false)).(active := if p.active == 0 then 0 else p.active - 1);
      if q.active == 0 && p.main.AwaitStop? then q.(main := AwaitStop(true)) else q
    else Look(p, w)
  }

  ghost predicate QueueOk(p: Pool) {
    forall i :: 0 <= i < |p.queue| ==> p.queue[i] < |p.started|
  }

  // ------------------------------------------------------------------ the steps

  datatype Step =
    | MainAdd(wake: nat)
    | Start
    | SetMaxActive(n: nat)
    | BeginWaitFinish(addToExecute: bool)
    | HelpPop
    | HelpDone
    | CheckDone
    | WakeDone
    | StopBegin
    | WakeStop
    | DrainPop
    | DrainDone
    | WaitFinishReturns
    | Enter(w: nat)
    | WakeSleeper(w: nat)
    | WakeWaiter(w: nat)
    | TaskAdds(w: nat, wake: nat)
    | Finish(w: nat)

  ghost predicate MainStep(p: Pool, st: Step, p': Pool) {
    match st
    case MainAdd(wake) =>
      (p.main.Outside? || p.main.HelpExec? || p.main.DrainExec?) && CanAdd(p, wake) && p' == Added(p, wake)
    case Start =>
      p.main.Outside? && p' == p.(running := true, workers := NotifyAllSleeping(p.workers))
    case SetMaxActive(n) => // only between two uses of the pool, as its documentation asks
      && p.main.Outside? && !p.running && p.active == 0 && 0 < n
      && p' == p.(maxActive := if n >= |p.workers| then |p.workers| else n)
    case BeginWaitFinish(addToExecute) =>
      p.main.Outside? && p' == p.(main := if addToExecute then Helping else EnterWait)
    case HelpPop =>
      && p.main.Helping? && QueueOk(p)
      && p' == if p.queue != [] && p.running then Popped(p, OnMain).(main := HelpExec(p.queue[0]))
               else p.(main := EnterWait)
    case HelpDone =>
      p.main.HelpExec? && p.main.task < |p.finished| && p' == Completed(p, p.main.task).(main := Helping)
    case CheckDone =>
      && p.main.EnterWait?
      && p' == p.(main := if p.waiting != p.maxActive && p.running then AwaitDone(false) else EnterStop)
    case WakeDone =>
      && p.main.AwaitDone?
      && p' == p.(main := if p.waiting != p.maxActive && p.running then AwaitDone(false) else EnterStop)
    case StopBegin =>
      && p.main.EnterStop?
      && p' == p.(running := false, workers := NotifyAllWaiting(p.workers),
                  main := if p.active != 0 then AwaitStop(false) else Draining)
    case WakeStop =>
      p.main.AwaitStop? && p' == p.(main := if p.active != 0 then AwaitStop(false) else Draining)
    case DrainPop =>
      && p.main.Draining? && p.queue != [] && QueueOk(p)
      && p' == Popped(p, OnMain).(main := DrainExec(p.queue[0]))
    case DrainDone =>
      p.main.DrainExec? && p.main.task < |p.finished| && p' == Completed(p, p.main.task).(main := Draining)
    case WaitFinishReturns =>
      p.main.Draining? && p.queue == [] && p' == p.(main := Outside)
    case _ => false
  }

  ghost predicate WorkerStep(p: Pool, st: Step, p': Pool) {
    match st
    case Enter(w) => w < |p.workers| && p.workers[w].Ready? && QueueOk(p) && p' == SleepOrLook(p, w)
    case WakeSleeper(w) =>
      w < |p.workers| && p.workers[w].Sleeping? && QueueOk(p) && p' == SleepOrLook(p.(active := p.active + 1), w)
    case WakeWaiter(w) =>
      && w < |p.workers| && p.workers[w].Waiting? && p.waiting > 0 && QueueOk(p)
      && p' == Look(p.(waiting := p.waiting - 1), w)
    case TaskAdds(w, wake) => w < |p.workers| && p.workers[w].Exec? && CanAdd(p, wake) && p' == Added(p, wake)
    case Finish(w) =>
      && w < |p.workers| && p.workers[w].Exec? && p.workers[w].task < |p.finished|
      && p' == WithWorker(Completed(p, p.workers[w].task), w, Ready)
    case _ => false
  }

  ghost predicate Next(p: Pool, p': Pool) {
    exists st :: MainStep(p, st, p') || WorkerStep(p, st, p')
  }

  ghost predicate Run(pools: seq<Pool>) {
    && pools != [] && Init(pools[0])
    && forall i :: 0 <= i < |pools| - 1 ==> Next(pools[i], pools[i + 1])
  }
}
