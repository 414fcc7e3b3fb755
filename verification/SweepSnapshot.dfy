/**
 Concurrent sweeping against the mutator. Sweeping threads work through a snapshot of the page labels
 taken when the sweep begins; meanwhile the mutator goes on allocating slots from its local runs and
 pages from the tree. Here pages and who may touch them are modelled, not single objects.
 */
module SweepSnapshots {

  /**
   `allocs` maps the first page of every run and large object to all its pages; `local` are the runs
   the mutator allocates from; `todo` are the first pages that the snapshot still shows as Run or
   LargeObj; `serving` those a thread is sweeping.
   */
  datatype State = State(on: bool, allocs: map<nat, set<nat>>, local: set<nat>, todo: set<nat>, serving: set<nat>)

  datatype Step =
    | Begin(skip: set<nat>) // local runs are swept at once; what starts at a page of `skip` is left alone
    | Take(h: nat) // a thread comes to page `h`
    | Done(h: nat, emptied: bool) // it has swept what starts there, and freed it or not
    | AllocSlot(h: nat) // the mutator takes a slot of its local run `h`
    | NewRun(h: nat, pages: set<nat>, drop: set<nat>) // and a fresh run, giving up full ones
    | NewLarge(h: nat, pages: set<nat>)
    | FetchRun(h: nat, drop: set<nat>) // a partly free run
    | End

  ghost predicate Unused(s: State, pages: set<nat>) {
    forall h :: h in s.allocs ==> s.allocs[h] !! pages
  }

  ghost predicate Enabled(s: State, step: Step) {
    match step
    case Begin(_) => !s.on
    case Take(h) => s.on && h in s.todo
    case Done(h, _) => h in s.serving
    case AllocSlot(h) => h in s.local
    case NewRun(h, pages, _) => h in pages && Unused(s, pages)
    case NewLarge(h, pages) => h in pages && Unused(s, pages)
    case FetchRun(h, _) => !s.on && h in s.allocs && h !in s.local
    case End => s.on && s.todo == {} && s.serving == {}
  }

  ghost function Next(s: State, step: Step): State {
    match step
    case Begin(skip) => s.(on := true, todo := s.allocs.Keys - s.local - skip)
    case Take(h) => s.(todo := s.todo - {h}, serving := s.serving + {h})
    case Done(h, emptied) => s.(serving := s.serving - {h}, allocs := if emptied then s.allocs - {h} else s.allocs)
    case AllocSlot(_) => s
    case NewRun(h, pages, drop) => s.(allocs := s.allocs[h := pages], local := s.local - drop + {h})
    case NewLarge(h, pages) => s.(allocs := s.allocs[h := pages])
    case FetchRun(h, drop) => s.(local := s.local - drop + {h})
    case End => s.(on := false)
  }

  ghost predicate Ok(s: State) {
    && (forall h :: h in s.allocs ==> h in s.allocs[h])
    && (forall g, h :: g in s.allocs && h in s.allocs && g != h ==> s.allocs[g] !! s.allocs[h])
    && s.local <= s.allocs.Keys
    && s.todo + s.serving <= s.allocs.Keys - s.local
    && s.todo !! s.serving
    && (!s.on ==> s.todo == {} && s.serving == {})
  }

  const START := State(false, map[], {}, {}, {})

  lemma NextOk(s: State, step: Step)
    requires Ok(s) && Enabled(s, step)
    ensures Ok(Next(s, step))
  {
    match step
    case NewRun(h, pages, _) => assert h !in s.allocs;
    case NewLarge(h, pages) => assert h !in s.allocs;
    case _ =>
  }

  ghost predicate StepAt(states: seq<State>, steps: seq<Step>, i: nat)
    requires i < |steps| && |states| == |steps| + 1
  {
    Enabled(states[i], steps[i]) && states[i + 1] == Next(states[i], steps[i])
  }

  ghost predicate IsRun(states: seq<State>, steps: seq<Step>) {
    && |states| == |steps| + 1 && states[0] == START
    && forall i :: 0 <= i < |steps| ==> StepAt(states, steps, i)
  }

  lemma {:induction false} RunOk(states: seq<State>, steps: seq<Step>, n: nat)
    requires IsRun(states, steps) && n < |states|
    ensures Ok(states[n])
  {
    if n != 0 {
      RunOk(states, steps, n - 1);
      assert StepAt(states, steps, n - 1);
      NextOk(states[n - 1], steps[n - 1]);
    }
  }

  /** The pages the mutator allocates from in a step. */
  ghost function Touched(s: State, step: Step): set<nat> {
    match step
    case AllocSlot(h) => if h in s.allocs then s.allocs[h] else {}
    case NewRun(_, pages, _) => pages
    case NewLarge(_, pages) => pages
    case _ => {}
  }

  /**
   While a sweep is on, the mutator allocates only from pages that are neither waiting to be swept nor
   being swept.
   */
  lemma MutatorKeepsClear(states: seq<State>, steps: seq<Step>, n: nat, h: nat)
    requires IsRun(states, steps) && n < |steps| && h in states[n].todo + states[n].serving
    ensures h in states[n].allocs && states[n].allocs[h] !! Touched(states[n], steps[n])
  {
    RunOk(states, steps, n);
    assert StepAt(states, steps, n);
  }

  lemma {:induction false} TodoShrinks(states: seq<State>, steps: seq<Step>, i: nat, j: nat)
    requires IsRun(states, steps) && i <= j < |states|
    requires forall k :: i <= k <= j ==> states[k].on
    ensures states[j].todo <= states[i].todo
    decreases j
  {
    if i < j {
      assert states[j - 1].on;
      TodoShrinks(states, steps, i, j - 1);
      assert StepAt(states, steps, j - 1);
    }
  }

  /** What the mutator has allocated from is not swept any more in this sweep, whatever its label says. */
  lemma NewObjectsAreNotSwept(states: seq<State>, steps: seq<Step>, i: nat, j: nat)
    requires IsRun(states, steps) && i < j < |steps| && (forall k :: i <= k <= j ==> states[k].on)
    requires steps[j].Take?
    ensures steps[j].h !in Touched(states[i], steps[i])
  {
    assert StepAt(states, steps, j) && states[j].on;
    TodoShrinks(states, steps, i, j);
    var h := steps[j].h;
    assert h in states[i].todo;
    MutatorKeepsClear(states, steps, i, h);
    RunOk(states, steps, i);
  }

  /** Every run and large object is swept at most once in a sweep. */
  lemma SweptOnce(states: seq<State>, steps: seq<Step>, i: nat, j: nat)
    requires IsRun(states, steps) && i < j < |steps| && (forall k :: i <= k <= j ==> states[k].on)
    requires steps[i].Take? && steps[j].Take?
    ensures steps[i].h != steps[j].h
  {
    assert StepAt(states, steps, i) && StepAt(states, steps, j);
    assert states[i + 1].on && states[j].on;
    TodoShrinks(states, steps, i + 1, j);
  }

  /** What is to be skipped is not swept. */
  lemma SkippedIsLeft(states: seq<State>, steps: seq<Step>, i: nat, j: nat)
    requires IsRun(states, steps) && i < j < |steps| && steps[i].Begin? && (forall k :: i < k <= j ==> states[k].on)
    requires steps[j].Take?
    ensures steps[j].h !in steps[i].skip
  {
    assert StepAt(states, steps, i) && StepAt(states, steps, j);
    TodoShrinks(states, steps, i + 1, j);
  }

  /** A sweep cannot end before everything the snapshot shows has been swept, save what is to be skipped. */
  lemma {:induction false} SweepIsComplete(states: seq<State>, steps: seq<Step>, i: nat, j: nat, h: nat)
    requires IsRun(states, steps) && i < j < |steps| && steps[i].Begin? && steps[j].End?
    requires forall k :: i < k <= j ==> states[k].on
    requires h in states[i].allocs && h !in states[i].local && h !in steps[i].skip
    ensures exists k :: i < k < j && steps[k] == Take(h)
  {
    assert StepAt(states, steps, i) && StepAt(states, steps, j);
    assert h in states[i + 1].todo;
    FindTake(states, steps, i + 1, j, h);
  }

  lemma {:induction false} FindTake(states: seq<State>, steps: seq<Step>, i: nat, j: nat, h: nat)
    requires IsRun(states, steps) && i <= j < |steps| && (forall k :: i <= k <= j ==> states[k].on)
    requires h in states[i].todo && h !in states[j].todo
    ensures exists k :: i <= k < j && steps[k] == Take(h)
    decreases j - i
  {
    assert StepAt(states, steps, i);
    if steps[i] != Take(h) {
      assert states[i + 1].on && states[i].on;
      assert h in states[i + 1].todo;
      FindTake(states, steps, i + 1, j, h);
    }
  }
}
