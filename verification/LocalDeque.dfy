/**
 The fixed-size buffer that the tree walks use as their stack, with its spill area.

 Once the buffer is full, further values go to the spill area. `Pop` falls back to the buffer
 after taking a single value from the spill area, so as a stack the structure is exact only up
 to one value beyond the buffer; as a queue it is exact throughout.
 */
module LocalDeques {

  const LOCAL_LENGTH: nat := 2048

  /** What `Pop` leaves of a stack that has not been used as a queue. */
  ghost function AfterPop<T>(c: seq<T>): seq<T>
    requires c != []
  {
    if |c| > LOCAL_LENGTH then c[..LOCAL_LENGTH] else c[..|c| - 1]
  }

  /** Popping is exact precisely for stacks of at most LOCAL_LENGTH + 1 values. */
  lemma PopExactIff<T>(c: seq<T>)
    requires c != []
    ensures AfterPop(c) == c[..|c| - 1] <==> |c| <= LOCAL_LENGTH + 1
  {
    if |c| > LOCAL_LENGTH + 1 {
      assert |AfterPop(c)| == LOCAL_LENGTH < |c| - 1;
    }
  }

  lemma PopSnoc<T>(s: seq<T>, v: T)
    ensures AfterPop(s + [v]) == if |s| >= LOCAL_LENGTH then s[..LOCAL_LENGTH] else s
  {
    if |s| >= LOCAL_LENGTH { assert (s + [v])[..LOCAL_LENGTH] == s[..LOCAL_LENGTH]; }
  }

  /** With LOCAL_LENGTH + 2 values on the stack, popping one loses two. */
  lemma PopLosesAValue()
    ensures var c := seq(LOCAL_LENGTH + 2, i => i); |AfterPop(c)| == |c| - 2
  {
  }

  class LocalDeque<T(0)> {
    var front: nat
    var top: int
    const slots: array<T>
    const hasSpill: bool
    var spill: seq<T>

    ghost predicate Valid()
      reads this
    {
      && slots.Length == LOCAL_LENGTH
      && -1 <= top <= LOCAL_LENGTH && front <= LOCAL_LENGTH
      && (top < LOCAL_LENGTH ==> front <= top + 1)
      && (top == LOCAL_LENGTH ==> hasSpill && (front < LOCAL_LENGTH ==> spill != []))
    }

    ghost function Contents(): seq<T>
      requires Valid()
      reads this, slots
    {
      if top < LOCAL_LENGTH then slots[front..top + 1] else slots[front..] + spill
    }

    constructor (spills: bool)
      ensures Valid() && Contents() == [] && front == 0 && hasSpill == spills
      ensures fresh(slots)
    {
      slots := new T[LOCAL_LENGTH];
      front, top, spill, hasSpill := 0, -1, [], spills;
    }

    predicate Empty()
      requires Valid()
      reads this, slots
      ensures Empty() <==> Contents() == []
    {
      top < front || (front == LOCAL_LENGTH && spill == [])
    }

    /** `crashed`: the buffer was full and there was no spill area to go to. */
    method Push(v: T) returns (crashed: bool)
      requires Valid()
      modifies this, slots
      ensures crashed <==> !hasSpill && old(front) + |old(Contents())| == LOCAL_LENGTH
      ensures crashed ==> unchanged(this) && unchanged(slots)
      ensures !crashed ==> Valid() && front == old(front) && Contents() == old(Contents()) + [v]
    {
      crashed := false;
      if top < LOCAL_LENGTH - 1 {
        top := top + 1;
        slots[top] := v;
        return;
      } else if !hasSpill {
        return true;
      } else if top == LOCAL_LENGTH - 1 {
        top := top + 1;
        spill := [];
      }
      spill := spill + [v];
    }

    function Top(): (v: T)
      requires Valid() && Contents() != []
      reads this, slots
      ensures v == Contents()[|Contents()| - 1]
    {
      if top < LOCAL_LENGTH then slots[top] else spill[|spill| - 1]
    }

    method Pop()
      requires Valid() && Contents() != [] && front == 0
      modifies this
      ensures Valid() && front == 0
      ensures Contents() == AfterPop(old(Contents()))
    {
      if top < LOCAL_LENGTH {
        top := top - 1;
        return;
      }
      spill := spill[..|spill| - 1];
      if front < LOCAL_LENGTH {
        top := top - 1;
      }
    }

    function Front(): (v: T)
      requires Valid() && Contents() != []
      reads this, slots
      ensures v == Contents()[0]
    {
      if front < LOCAL_LENGTH then slots[front] else spill[0]
    }

    method PopFront()
      requires Valid() && Contents() != []
      modifies this
      ensures Valid() && Contents() == old(Contents())[1..]
    {
      if front < LOCAL_LENGTH {
        front := front + 1;
        return;
      }
      spill := spill[1..];
    }
  }
}
