/**
 The collector's set of pointers: open addressing with linear probing, deletion by backward
 shift, and growth by doubling while at most half of the slots are occupied.

 The hash is a parameter: everything here holds for every hash function.
 */
module PointerSets {
  import opened Collections
  import opened ProbeTables

  const INITIAL_CAPACITY: nat := 64
  const POINTER_SIZE: nat := 8
  const SIZE_MAX: nat := 0xFFFF_FFFF_FFFF_FFFF
  const MAX_CAPACITY: nat := 0x1000_0000_0000_0000 // no larger table fits into SIZE_MAX bytes
  const MAX_RESERVE: nat := MAX_CAPACITY / 2

  /** The capacities that the table ever has: 64 times a power of two. */
  ghost predicate TableCapacity(c: nat) {
    c == INITIAL_CAPACITY || (c > INITIAL_CAPACITY && c % 2 == 0 && TableCapacity(c / 2))
  }

  /** The smallest table capacity of which `size` is at most half. */
  method CapacityFor(size: nat) returns (capacity: nat)
    ensures TableCapacity(capacity) && 2 * size <= capacity
    ensures forall c :: TableCapacity(c) && 2 * size <= c ==> capacity <= c
  {
    capacity := INITIAL_CAPACITY;
    while 2 * size > capacity
      invariant TableCapacity(capacity)
      invariant forall c :: TableCapacity(c) && 2 * size <= c ==> capacity <= c
      decreases 2 * size - capacity
    {
      forall c | TableCapacity(c) && 2 * size <= c ensures 2 * capacity <= c {
        CapacitiesDouble(capacity, c);
      }
      capacity := capacity * 2;
    }
  }

  lemma {:induction false} CapacitiesDouble(a: nat, b: nat)
    requires TableCapacity(a) && TableCapacity(b) && a < b
    ensures 2 * a <= b
  {
    if a > INITIAL_CAPACITY {
      CapacitiesDouble(a / 2, b / 2);
    } else {
      assert b / 2 >= INITIAL_CAPACITY;
    }
  }

  lemma DoubledCapacity(c: nat)
    requires TableCapacity(c)
    ensures TableCapacity(2 * c) && c >= INITIAL_CAPACITY
  {
    assert (2 * c) / 2 == c;
  }

  lemma {:induction false} CapacityTimes(c: nat, n: nat)
    requires TableCapacity(c) && PowerOfTwo(n)
    ensures TableCapacity(c * n)
    decreases n
  {
    if n > 1 {
      DoubledCapacity(c);
      CapacityTimes(2 * c, n / 2);
      assert 2 * c * (n / 2) == c * n;
    }
  }

  predicate PowerOfTwo(n: nat) {
    n == 1 || (n > 1 && n % 2 == 0 && PowerOfTwo(n / 2))
  }

  /** Doubling the initial capacity leads to the largest table that fits into the address space. */
  lemma MaxCapacityIsTableCapacity()
    ensures TableCapacity(MAX_CAPACITY)
  {
    assert PowerOfTwo(4) && PowerOfTwo(16) && PowerOfTwo(64);
    CapacityTimes(0x40, 64);
    CapacityTimes(0x1000, 64);
    CapacityTimes(0x4_0000, 64);
    CapacityTimes(0x100_0000, 64);
    CapacityTimes(0x4000_0000, 64);
    CapacityTimes(0x10_0000_0000, 64);
    CapacityTimes(0x400_0000_0000, 64);
    CapacityTimes(0x1_0000_0000_0000, 64);
    CapacityTimes(0x40_0000_0000_0000, 64);
  }

  /** Doubling stops where the source's overflow check stops it. */
  lemma DoublingLimit(c: nat)
    requires TableCapacity(c)
    ensures c <= SIZE_MAX / POINTER_SIZE / 2 <==> c < MAX_CAPACITY
    ensures c < MAX_CAPACITY ==> TableCapacity(2 * c) && 2 * c <= MAX_CAPACITY
  {
    MaxCapacityIsTableCapacity();
    DoubledCapacity(c);
    if c < MAX_CAPACITY {
      CapacitiesDouble(c, MAX_CAPACITY);
    }
  }

  /** What a callback does on its `n`-th call, with pointer `p`: keep `p` or not, and insert others. */
  datatype Reply = Reply(keep: bool, inserts: seq<Ptr>)

  /** The calls `passed` reach every pointer of `all` exactly once, and no other. */
  ghost predicate PassedOnce(passed: seq<Ptr>, all: set<Ptr>) {
    AsSet(passed) == all && Distinct(passed)
  }

  lemma PassedOneMore(passed: seq<Ptr>, all: set<Ptr>, p: Ptr)
    requires PassedOnce(passed, all) && p !in all
    ensures PassedOnce(passed + [p], all + {p})
  {
    AsSetAppend(passed, p);
    forall i | 0 <= i < |passed| ensures passed[i] in all {
      assert passed[i] in AsSet(passed);
    }
  }

  lemma AsSetAppend(s: seq<Ptr>, p: Ptr)
    ensures AsSet(s + [p]) == AsSet(s) + {p}
  {
    var t := s + [p];
    assert t[|s|] == p;
    forall x | x in AsSet(s) ensures x in AsSet(t) {
      var k :| 0 <= k < |s| && s[k] == x;
      assert t[k] == x;
    }
  }

  ghost function Kept(keep: (nat, Ptr) -> Reply, passed: seq<Ptr>): set<Ptr> {
    set i | 0 <= i < |passed| && keep(i, passed[i]).keep :: passed[i]
  }

  ghost function Inserted(keep: (nat, Ptr) -> Reply, passed: seq<Ptr>): set<Ptr> {
    set i, q | 0 <= i < |passed| && q in keep(i, passed[i]).inserts :: q
  }

  lemma OneMoreCall(keep: (nat, Ptr) -> Reply, passed: seq<Ptr>, p: Ptr)
    ensures var r, more := keep(|passed|, p), passed + [p];
      && Kept(keep, more) == Kept(keep, passed) + (if r.keep then {p} else {})
      && Inserted(keep, more) == Inserted(keep, passed) + AsSet(r.inserts)
  {
    var r, more := keep(|passed|, p), passed + [p];
    forall x ensures x in Kept(keep, more) <==> x in Kept(keep, passed) + if r.keep then {p} else {} {
      if x in Kept(keep, passed) {
        var i :| 0 <= i < |passed| && keep(i, passed[i]).keep && passed[i] == x;
        assert more[i] == x && keep(i, more[i]).keep;
      }
      if r.keep && x == p {
        assert more[|passed|] == x;
      }
    }
    forall x ensures x in Inserted(keep, more) <==> x in Inserted(keep, passed) + AsSet(r.inserts) {
      if x in Inserted(keep, passed) {
        var i :| 0 <= i < |passed| && x in keep(i, passed[i]).inserts;
        assert more[i] == passed[i];
      }
      if x in r.inserts {
        assert more[|passed|] == p;
      }
    }
  }

  class PointerSet {
    const hash: Ptr -> nat
    var slots: array<Ptr>
    var capacity: nat
    var size: nat

    ghost predicate Valid()
      reads this, slots
    {
      && slots.Length == capacity && (capacity == 0 || TableCapacity(capacity))
      && Usable(hash, slots[..])
      && size == Count(slots[..]) && 2 * size <= capacity
    }

    ghost function Contents(): set<Ptr>
      reads this, slots
    {
      Elements(slots[..])
    }

    constructor (hash: Ptr -> nat)
      ensures Valid() && Contents() == {} && fresh(slots) && this.hash == hash
    {
      this.hash := hash;
      slots := new Ptr[0];
      capacity, size := 0, 0;
    }

    lemma SizeIsCardinality()
      requires Valid()
      ensures size == |Contents()|
    {
      CountIsSize(slots[..]);
    }

    /** The slot that holds `p`, or the empty one where it belongs. */
    static method FindSlot(hash: Ptr -> nat, table: array<Ptr>, p: Ptr) returns (i: nat)
      requires p != 0 && Count(table[..]) < table.Length
      ensures SearchEnds(hash, table[..], p, i)
    {
      CountBelowLength(table[..]);
      ghost var e :| 0 <= e < table.Length && table[..][e] == 0;
      ProbeStarts(hash, table[..], p);
      i := Home(hash, p, table.Length);
      while table[i] != 0 && table[i] != p
        invariant Probed(hash, table[..], p, i)
        decreases Dist(i, e, table.Length)
      {
        ProbeStep(hash, table[..], p, i, e);
        i := Next(i, table.Length);
      }
    }

    method Contains(p: Ptr) returns (r: bool)
      requires Valid()
      ensures r <==> p in Contents()
    {
      if p == 0 || capacity == 0 {
        return false;
      }
      var i := FindSlot(hash, slots, p);
      SearchDecides(hash, slots[..], p, i);
      r := slots[i] == p;
    }

    /** Moves all pointers to a new, larger table. */
    method InstallTable(table: array<Ptr>)
      requires Valid() && table != slots && TableCapacity(table.Length) && 2 * size <= table.Length
      requires forall i :: 0 <= i < table.Length ==> table[i] == 0
      modifies this, table
      ensures Valid() && slots == table && capacity == table.Length
      ensures size == old(size) && Contents() == old(Contents())
    {
      ghost var was := slots[..];
      CountEmpty(table[..]);
      var i := 0;
      while i < capacity
        invariant 0 <= i <= capacity == slots.Length && unchanged(this) && slots[..] == was
        invariant Usable(hash, table[..])
        invariant Elements(table[..]) == Elements(was[..i])
        invariant Count(table[..]) == Count(was[..i])
      {
        var p := slots[i];
        PrefixGrows(was, i);
        if p != 0 {
          var k := FindSlot(hash, table, p);
          SearchDecides(hash, table[..], p, k);
          InsertKeeps(hash, table[..], p, k);
          ghost var before := table[..];
          table[k] := p;
          assert table[..] == before[k := p];
        }
        i := i + 1;
      }
      assert was[..i] == was;
      slots := table;
      capacity := table.Length;
    }

    method Rehash(newCapacity: nat)
      requires Valid() && TableCapacity(newCapacity) && 2 * size <= newCapacity
      modifies this
      ensures Valid() && fresh(slots) && capacity == newCapacity
      ensures size == old(size) && Contents() == old(Contents())
    {
      var table := new Ptr[newCapacity](_ => 0);
      InstallTable(table);
    }

    /** Adds `p`; the answer says whether it is new. The table grows only when it is half full. */
    method Insert(p: Ptr) returns (added: bool)
      requires Valid() && p != 0
      modifies this, slots
      ensures Valid() && Contents() == old(Contents()) + {p} && added == (p !in old(Contents()))
      ensures if added && old(size) == old(capacity) / 2
              then fresh(slots) && capacity == (if old(capacity) == 0 then INITIAL_CAPACITY else 2 * old(capacity))
              else slots == old(slots) && capacity == old(capacity)
    {
      if size == capacity / 2 {
        var present := Contains(p);
        if present {
          assert Contents() == Contents() + {p};
          return false;
        }
        if capacity != 0 {
          DoubledCapacity(capacity);
        }
        Rehash(if capacity == 0 then INITIAL_CAPACITY else 2 * capacity);
      }
      var i := FindSlot(hash, slots, p);
      SearchDecides(hash, slots[..], p, i);
      if slots[i] == p {
        assert Contents() == Contents() + {p};
        return false;
      }
      AddAt(p, i);
      return true;
    }

    method AddAt(p: Ptr, i: nat)
      requires Valid() && p != 0 && SearchEnds(hash, slots[..], p, i) && slots[i] == 0 && 2 * (size + 1) <= capacity
      modifies this, slots
      ensures Valid() && Contents() == old(Contents()) + {p} && p !in old(Contents())
      ensures slots == old(slots) && capacity == old(capacity)
    {
      InsertKeeps(hash, slots[..], p, i);
      ghost var before := slots[..];
      slots[i] := p;
      assert slots[..] == before[i := p];
      size := size + 1;
    }

    /** Takes `p` out, and closes the gap by moving back every pointer that the gap cuts off. */
    method Erase(p: Ptr) returns (erased: bool)
      requires Valid()
      modifies this, slots
      ensures Valid() && Contents() == old(Contents()) - {p} && erased == (p in old(Contents()))
      ensures slots == old(slots) && capacity == old(capacity)
    {
      if p == 0 || capacity == 0 {
        return false;
      }
      var hole := FindSlot(hash, slots, p);
      SearchDecides(hash, slots[..], p, hole);
      if slots[hole] == 0 {
        return false;
      }
      CloseGap(hole);
      size := size - 1;
      return true;
    }

    /** The loop of `Erase`: the slot that is to be emptied moves on until nothing is cut off. */
    method CloseGap(start: nat)
      requires Valid() && start < capacity && slots[start] != 0
      modifies slots
      ensures Usable(hash, slots[..]) && Elements(slots[..]) == old(Elements(slots[..])) - {old(slots[start])}
      ensures Count(slots[..]) == old(Count(slots[..])) - 1
    {
      CountBelowLength(slots[..]);
      ghost var e :| 0 <= e < slots.Length && slots[..][e] == 0;
      ghost var goal, n := Elements(slots[..]) - {slots[start]}, Count(slots[..]) - 1;
      ShiftStarts(hash, slots[..], start);
      FirstStep(start, e, capacity);
      var hole: nat := start;
      var i: nat := Next(hole, capacity);
      while slots[i] != 0
        invariant Walking(hole, i, e) && Gap(hash, slots[..], hole, i, goal, n)
        decreases Dist(i, e, capacity)
      {
        hole, i := ShiftStep(hole, i, e, goal, n);
      }
      GapCloses(hash, slots[..], hole, i, goal, n);
      ghost var last := slots[..];
      slots[hole] := 0;
      assert slots[..] == last[hole := 0];
    }

    /** Between the hole and the empty slot `e` the walk has got as far as `i`. */
    ghost predicate Walking(hole: nat, i: nat, e: nat)
      reads this, slots
    {
      && slots.Length == capacity && hole < capacity && i < capacity && i != hole && e < capacity && slots[e] == 0
      && Dist(hole, i, capacity) <= Dist(hole, e, capacity)
    }

    /** One round: either the pointer at `i` fills the hole and leaves one, or it may stay. */
    method ShiftStep(hole: nat, i: nat, ghost e: nat, ghost goal: set<Ptr>, ghost n: nat)
      returns (hole': nat, i': nat)
      requires Walking(hole, i, e) && Gap(hash, slots[..], hole, i, goal, n) && slots[i] != 0
      modifies slots
      ensures Walking(hole', i', e) && Gap(hash, slots[..], hole', i', goal, n)
      ensures Dist(i', e, capacity) < Dist(i, e, capacity)
    {
      ghost var before := slots[..];
      var home := Home(hash, slots[i], capacity);
      StepNearer(hole, i, e, capacity);
      hole', i' := hole, Next(i, capacity);
      if Dist(home, hole, capacity) < Dist(home, i, capacity) {
        GapMoves(hash, before, hole, i, goal, n);
        slots[hole] := slots[i];
        assert slots[..] == before[hole := before[i]];
        hole' := i;
      } else {
        GapPasses(hash, before, hole, i, goal, n);
      }
    }

    /** Makes room for `n` pointers in advance; `available` says whether the allocation succeeds. */
    method TryReserve(n: nat, available: bool) returns (ok: bool)
      requires Valid()
      modifies this
      ensures Valid() && Contents() == old(Contents()) && size == old(size)
      ensures ok ==> 2 * n <= capacity
      ensures ok <==> 2 * n <= old(capacity) || (available && n <= MAX_RESERVE)
      ensures !ok || 2 * n <= old(capacity) ==> slots == old(slots) && capacity == old(capacity)
    {
      if n <= capacity / 2 {
        return true;
      }
      ok := TryGrow(n, available);
    }

    method TryGrow(n: nat, available: bool) returns (ok: bool)
      requires Valid() && 2 * n > capacity
      modifies this
      ensures Valid() && Contents() == old(Contents()) && size == old(size)
      ensures ok <==> available && n <= MAX_RESERVE
      ensures if ok then fresh(slots) && 2 * n <= capacity else slots == old(slots) && capacity == old(capacity)
    {
      var wanted := if capacity == 0 then INITIAL_CAPACITY else capacity;
      while n > wanted / 2
        invariant unchanged(this) && TableCapacity(wanted) && capacity <= wanted
        invariant 2 * n <= wanted ==> wanted <= MAX_CAPACITY
        decreases 2 * n - wanted
      {
        DoublingLimit(wanted);
        if wanted > SIZE_MAX / POINTER_SIZE / 2 {
          return false;
        }
        wanted := wanted * 2;
      }
      if !available {
        return false;
      }
      var table := new Ptr[wanted](_ => 0);
      InstallTable(table);
      return true;
    }

    /** Calls `fn` on every pointer; the answer lists the calls in order. */
    method ForEach() returns (passed: seq<Ptr>)
      requires Valid()
      ensures PassedOnce(passed, Contents())
    {
      passed := [];
      var i := 0;
      while i < capacity
        invariant i <= capacity
        invariant PassedOnce(passed, Elements(slots[..i]))
      {
        PrefixGrows(slots[..], i);
        if slots[i] != 0 {
          PassedOneMore(passed, Elements(slots[..i]), slots[i]);
          passed := passed + [slots[i]];
        }
        i := i + 1;
      }
      assert slots[..i] == slots[..];
    }

    /** What a callback does to the set on one call. */
    method InsertAll(ptrs: seq<Ptr>)
      requires Valid() && 0 !in ptrs
      modifies this, slots
      ensures Valid() && Contents() == old(Contents()) + AsSet(ptrs)
      ensures slots == old(slots) || fresh(slots)
    {
      var i := 0;
      while i < |ptrs|
        invariant i <= |ptrs| && Valid() && (slots == old(slots) || fresh(slots))
        invariant Contents() == old(Contents()) + AsSet(ptrs[..i])
      {
        var _ := Insert(ptrs[i]);
        assert ptrs[..i + 1] == ptrs[..i] + [ptrs[i]];
        AsSetAppend(ptrs[..i], ptrs[i]);
        i := i + 1;
      }
      assert ptrs[..i] == ptrs;
    }

    /** One call of the callback of `RetainIf`, and what follows from its answer. */
    method Obey(reply: Reply, p: Ptr)
      requires Valid() && p != 0 && 0 !in reply.inserts
      modifies this, slots
      ensures Valid() && Contents() == old(Contents()) + AsSet(reply.inserts) + if reply.keep then {p} else {}
      ensures slots == old(slots) || fresh(slots)
    {
      InsertAll(reply.inserts);
      if reply.keep {
        var _ := Insert(p);
      }
    }

    /** An empty table of the size that the present pointers need. */
    method StartOver()
      requires Valid()
      modifies this
      ensures Valid() && fresh(slots) && Contents() == {}
    {
      capacity := CapacityFor(size);
      slots := new Ptr[capacity](_ => 0);
      size := 0;
      CountEmpty(slots[..]);
    }

    method CallAndObey(keep: (nat, Ptr) -> Reply, passed: seq<Ptr>, p: Ptr) returns (more: seq<Ptr>)
      requires Valid() && p != 0 && 0 !in keep(|passed|, p).inserts
      requires Contents() == Kept(keep, passed) + Inserted(keep, passed)
      modifies this, slots
      ensures Valid() && more == passed + [p] && (slots == old(slots) || fresh(slots))
      ensures Contents() == Kept(keep, more) + Inserted(keep, more)
    {
      OneMoreCall(keep, passed, p);
      Obey(keep(|passed|, p), p);
      more := passed + [p];
    }

    /**
     Keeps the pointers that `keep` accepts. The callback may insert pointers; they stay, whether
     or not they were in the set before. `passed` lists the calls in order.
     */
    method RetainIf(keep: (nat, Ptr) -> Reply) returns (passed: seq<Ptr>)
      requires Valid() && forall n, p :: 0 !in keep(n, p).inserts
      modifies this, slots
      ensures Valid() && PassedOnce(passed, old(Contents()))
      ensures Contents() == Kept(keep, passed) + Inserted(keep, passed)
    {
      passed := [];
      if size == 0 {
        SizeIsCardinality();
        assert Contents() == {};
        Clear();
        return;
      }
      var oldSlots := slots;
      var oldCapacity := capacity;
      ghost var was := slots[..];
      StartOver();
      var i := 0;
      while i < oldCapacity
        invariant i <= oldCapacity == oldSlots.Length && oldSlots[..] == was && fresh(slots)
        invariant Valid() && PassedOnce(passed, Elements(was[..i]))
        invariant Contents() == Kept(keep, passed) + Inserted(keep, passed)
      {
        PrefixGrows(was, i);
        if oldSlots[i] != 0 {
          PassedOneMore(passed, Elements(was[..i]), oldSlots[i]);
          passed := CallAndObey(keep, passed, oldSlots[i]);
        }
        i := i + 1;
      }
      assert was[..i] == was;
    }

    /** Passes every pointer to `fn` and ends empty, whatever `fn` inserts meanwhile. */
    method Drain(fn: (nat, Ptr) -> Reply) returns (passed: seq<Ptr>)
      requires Valid() && forall n, p :: 0 !in fn(n, p).inserts
      modifies this, slots
      ensures Valid() && PassedOnce(passed, old(Contents())) && Contents() == {} && capacity == 0
    {
      passed := [];
      var oldSlots := slots;
      var oldCapacity := capacity;
      ghost var was := slots[..];
      Clear();
      var i := 0;
      while i < oldCapacity
        invariant i <= oldCapacity == oldSlots.Length && oldSlots[..] == was && fresh(slots)
        invariant Valid() && PassedOnce(passed, Elements(was[..i]))
      {
        PrefixGrows(was, i);
        if oldSlots[i] != 0 {
          InsertAll(fn(|passed|, oldSlots[i]).inserts);
          PassedOneMore(passed, Elements(was[..i]), oldSlots[i]);
          passed := passed + [oldSlots[i]];
        }
        i := i + 1;
      }
      assert was[..i] == was;
      Clear();
    }

    method Clear()
      modifies this
      ensures Valid() && Contents() == {} && fresh(slots) && capacity == 0 && size == 0
    {
      slots := new Ptr[0];
      capacity, size := 0, 0;
    }
  }
}
