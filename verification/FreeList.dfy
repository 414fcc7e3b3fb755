/**
 Lists of free slots, threaded through the slots themselves: the first word of a slot is either the
 header of the object in it, whose top bit is set, or the address of the next free slot. A list is
 spliced onto another in constant time through its tail.
 */
module FreeLists {
  import opened Collections

  type Addr = nat // 0 is the null address; user addresses lie below 2^63

  const ALLOCATED: nat := 0x8000_0000_0000_0000

  class Memory {
    var word: map<Addr, nat> // the first word of each slot

    constructor ()
      ensures word == map[]
    {
      word := map[];
    }

    /** Whether the slot holds an object: the allocated bit of its first word. */
    predicate IsAllocated(a: Addr)
      reads this
    {
      a in word && word[a] >= ALLOCATED
    }

    /** Writes the header of a new object. */
    method InitHeader(a: Addr, size: nat, slot: nat, tag: int)
      requires size < 0x8000_0000 && slot < 256
      modifies this
      ensures word == old(word)[a := Header(size, slot, tag)]
    {
      word := word[a := Header(size, slot, tag)];
    }
  }

  // ------------------------------------------------------------------ headers

  /** From the top: the allocated bit, 31 bits of size, 18 unused, 8 for the memory slot, 6 for the tag. */
  function Header(size: nat, slot: nat, tag: int): nat {
    ALLOCATED + size * 0x1_0000_0000 + slot * 64 + tag % 64
  }

  function SizeOf(w: nat): nat { w / 0x1_0000_0000 % 0x8000_0000 }
  function SlotOf(w: nat): nat { w / 64 % 256 }
  function TagOf(w: nat): nat { if w >= ALLOCATED then w % 64 else 0 }
  function WithTag(w: nat, tag: int): nat { w - w % 64 + tag % 64 }

  lemma Upper(hi: nat, low: nat)
    requires low < 0x1_0000_0000
    ensures (hi * 0x1_0000_0000 + low) / 0x1_0000_0000 == hi
  {
  }

  lemma LowSix(x: nat, tag: nat)
    requires tag < 64
    ensures (x * 64 + tag) % 64 == tag && (x * 64 + tag) / 64 == x
  {
  }

  lemma LowEight(x: nat, slot: nat)
    requires slot < 256
    ensures (x * 256 + slot) % 256 == slot
  {
  }

  /** A header tells back what was written into it, and changing the tag changes nothing else. */
  lemma HeaderRoundTrip(size: nat, slot: nat, tag: int, other: int)
    requires size < 0x8000_0000 && slot < 256
    ensures var h := Header(size, slot, tag);
      && ALLOCATED <= h < 0x1_0000_0000_0000_0000
      && SizeOf(h) == size && SlotOf(h) == slot && TagOf(h) == tag % 64
      && WithTag(h, other) == Header(size, slot, other)
  {
    var hi: nat := 0x8000_0000 + size;
    assert Header(size, slot, tag) == hi * 0x1_0000_0000 + slot * 64 + tag % 64;
    Upper(hi, slot * 64 + tag % 64);
    LowSix(hi * 0x400_0000 + slot, tag % 64);
    LowEight(hi * 0x4_0000, slot);
  }

  lemma DistinctAppend(s: seq<Addr>, t: seq<Addr>)
    requires Distinct(s) && Distinct(t) && forall a :: a in s ==> a !in t
    ensures Distinct(s + t)
  {
    var u := s + t;
    forall i, j | 0 <= i < j < |u| ensures u[i] != u[j] {
      if i < |s| <= j {
        assert u[i] in s && u[j] in t;
      }
    }
  }

  function First(s: seq<Addr>): Addr {
    if s == [] then 0 else s[0]
  }

  function Last(s: seq<Addr>): Addr {
    if s == [] then 0 else s[|s| - 1]
  }

  function After(s: seq<Addr>, i: nat): Addr {
    if i + 1 < |s| then s[i + 1] else 0
  }

  /** The slots `s` link to each other in this order, and the last one to null. */
  ghost predicate Chain(word: map<Addr, nat>, s: seq<Addr>) {
    && Distinct(s)
    && forall i :: 0 <= i < |s| ==> 0 < s[i] < ALLOCATED && s[i] in word && word[s[i]] == After(s, i)
  }

  lemma ChainCons(word: map<Addr, nat>, a: Addr, s: seq<Addr>)
    requires Chain(word, s) && 0 < a < ALLOCATED && a !in s
    ensures Chain(word[a := First(s)], [a] + s)
  {
  }

  lemma ChainTail(word: map<Addr, nat>, s: seq<Addr>)
    requires Chain(word, s) && s != []
    ensures Chain(word, s[1..]) && word[s[0]] == First(s[1..])
  {
  }

  /** Redirecting the last link of one chain to the start of another joins the two. */
  lemma ChainJoin(word: map<Addr, nat>, s: seq<Addr>, t: seq<Addr>)
    requires Chain(word, s) && Chain(word, t) && s != [] && forall a :: a in s ==> a !in t
    ensures Chain(word[Last(s) := First(t)], s + t)
  {
    DistinctAppend(s, t);
    forall i | 0 <= i < |t| ensures t[i] != Last(s) {
      assert Last(s) in s;
    }
  }

  /** The slots of a run: `n` of them, `size` apart. */
  ghost function SlotsFrom(base: Addr, size: nat, n: nat): (s: seq<Addr>)
    ensures |s| == n
    decreases n
  {
    if n == 0 then [] else [base] + SlotsFrom(base + size, size, n - 1)
  }

  lemma {:induction false} SlotAt(base: Addr, size: nat, n: nat, k: nat)
    requires k < n
    ensures SlotsFrom(base, size, n)[k] == base + k * size
    decreases n
  {
    if k > 0 {
      SlotAt(base + size, size, n - 1, k - 1);
      assert k * size == (k - 1) * size + size;
    }
  }

  lemma {:induction false} SlotsIncrease(base: Addr, size: nat, n: nat)
    requires size > 0
    ensures forall k :: 0 <= k < n ==> SlotsFrom(base, size, n)[k] >= base
    ensures Distinct(SlotsFrom(base, size, n))
    decreases n
  {
    if n > 0 {
      SlotsIncrease(base + size, size, n - 1);
    }
  }

  lemma {:induction false} SlotAfter(base: Addr, size: nat, n: nat, k: nat)
    requires 0 < k < n
    ensures SlotsFrom(base, size, n)[k] == SlotsFrom(base, size, n)[k - 1] + size
    decreases n
  {
    if k > 1 {
      SlotAfter(base + size, size, n - 1, k - 1);
    }
  }

  /** The first `k` of the slots `s` are linked, and nothing outside of `s` has changed. */
  ghost predicate Threaded(before: map<Addr, nat>, now: map<Addr, nat>, s: seq<Addr>, k: nat) {
    && k <= |s|
    && (forall i :: 0 <= i < k ==> s[i] in now && now[s[i]] == After(s, i))
    && (forall a :: a in before && a !in s ==> a in now && now[a] == before[a])
  }

  lemma ThreadOne(before: map<Addr, nat>, now: map<Addr, nat>, s: seq<Addr>, k: nat)
    requires Distinct(s) && Threaded(before, now, s, k) && k < |s|
    ensures Threaded(before, now[s[k] := After(s, k)], s, k + 1)
  {
  }

  lemma LastThread(before: map<Addr, nat>, now: map<Addr, nat>, s: seq<Addr>)
    requires s != [] && Distinct(s) && forall i :: 0 <= i < |s| ==> 0 < s[i] < ALLOCATED
    requires Threaded(before, now, s, |s| - 1)
    ensures var w := now[s[|s| - 1] := 0]; Threaded(before, w, s, |s|) && Chain(w, s)
  {
    ThreadOne(before, now, s, |s| - 1);
  }

  lemma {:induction false} SlotsBelow(base: Addr, size: nat, n: nat, limit: nat)
    requires 0 < base && base + n * size < limit
    ensures forall i :: 0 <= i < n ==> 0 < SlotsFrom(base, size, n)[i] < limit
    decreases n
  {
    if n > 0 {
      assert n * size == (n - 1) * size + size;
      SlotsBelow(base + size, size, n - 1, limit);
    }
  }

  class FreeList {
    var head: Addr
    var tail: Addr
    ghost var items: seq<Addr>

    ghost predicate Valid(mem: Memory)
      reads this, mem
    {
      Chain(mem.word, items) && head == First(items) && tail == Last(items)
    }

    constructor ()
      ensures items == [] && forall mem: Memory :: Valid(mem)
    {
      head, tail, items := 0, 0, [];
    }

    /** Frees a slot. */
    method Insert(mem: Memory, a: Addr)
      requires Valid(mem) && 0 < a < ALLOCATED && a !in items
      modifies this, mem
      ensures Valid(mem) && items == [a] + old(items)
      ensures mem.word == old(mem.word)[a := First(old(items))]
    {
      ChainCons(mem.word, a, items);
      mem.word := mem.word[a := head];
      head := a;
      if tail == 0 {
        tail := a;
      }
      items := [a] + items;
    }

    /** Allocates a slot, or answers null when none is left. */
    method Fetch(mem: Memory) returns (a: Addr)
      requires Valid(mem)
      modifies this
      ensures Valid(mem)
      ensures if old(items) == [] then a == 0 && items == [] else a == old(items)[0] != 0 && items == old(items)[1..]
    {
      if head == 0 {
        return 0;
      }
      a := head;
      ChainTail(mem.word, items);
      head := mem.word[a];
      if head == 0 {
        tail := 0;
      }
      items := items[1..];
    }

    /** Puts a whole other list, which must not be empty, in front of this one, and empties it. */
    method Prepend(mem: Memory, other: FreeList)
      requires Valid(mem) && other.Valid(mem) && other != this
      requires other.items != [] && forall a :: a in other.items ==> a !in items
      modifies this, other, mem
      ensures Valid(mem) && other.Valid(mem)
      ensures items == old(other.items) + old(items) && other.items == []
      ensures mem.word == old(mem.word)[Last(old(other.items)) := First(old(items))]
    {
      ChainJoin(mem.word, other.items, items);
      mem.word := mem.word[other.tail := head];
      head := other.head;
      if tail == 0 {
        tail := other.tail;
      }
      items := other.items + items;
      other.head, other.tail, other.items := 0, 0, [];
    }

    /** Threads the list through `n` fresh slots. */
    method Init(mem: Memory, base: Addr, size: nat, n: nat)
      requires 0 < base && size > 0 && n > 0 && base + n * size < ALLOCATED
      modifies this, mem
      ensures Valid(mem) && items == SlotsFrom(base, size, n)
      ensures Threaded(old(mem.word), mem.word, items, n)
    {
      head := base;
      items := SlotsFrom(base, size, n);
      SlotsIncrease(base, size, n);
      var last := base;
      for k := 1 to n
        invariant items == SlotsFrom(base, size, n) && last == items[k - 1] && head == base
        invariant Threaded(old(mem.word), mem.word, items, k - 1)
      {
        SlotAfter(base, size, n, k);
        ThreadOne(old(mem.word), mem.word, items, k - 1);
        mem.word := mem.word[last := last + size];
        last := last + size;
      }
      tail := last;
      SlotsBelow(base, size, n, ALLOCATED);
      LastThread(old(mem.word), mem.word, items);
      mem.word := mem.word[last := 0];
    }

    /** Allocates a slot for an object; `others` are the free slots of the run on other lists. */
    method Take(mem: Memory, size: nat, slot: nat, tag: int, ghost slots: set<Addr>, ghost others: set<Addr>)
      returns (a: Addr)
      requires size < 0x8000_0000 && slot < 256
      requires Valid(mem) && AsSet(items) <= slots && AsSet(items) !! others
      requires Tells(mem.word, slots, AsSet(items) + others)
      modifies this, mem
      ensures Valid(mem) && Tells(mem.word, slots, AsSet(items) + others)
      ensures AsSet(items) <= slots && AsSet(items) !! others
      ensures if old(items) == [] then a == 0 && items == [] && mem.word == old(mem.word)
              else a == old(items)[0] && items == old(items)[1..]
                   && mem.word == old(mem.word)[a := Header(size, slot, tag)]
    {
      ghost var was := items;
      a := Fetch(mem);
      if a != 0 {
        TakenTells(mem.word, was, slots, others, Header(size, slot, tag));
        ChainElsewhere(mem.word, items, a, Header(size, slot, tag));
        mem.InitHeader(a, size, slot, tag);
      }
    }

    /** Frees the slot of an object. */
    method Give(mem: Memory, a: Addr, ghost slots: set<Addr>, ghost others: set<Addr>)
      requires Valid(mem) && AsSet(items) <= slots && AsSet(items) !! others
      requires Tells(mem.word, slots, AsSet(items) + others)
      requires a in slots && mem.IsAllocated(a) && 0 < a < ALLOCATED
      modifies this, mem
      ensures Valid(mem) && Tells(mem.word, slots, AsSet(items) + others)
      ensures AsSet(items) <= slots && AsSet(items) !! others
      ensures items == [a] + old(items) && !mem.IsAllocated(a)
    {
      GivenTells(mem.word, items, slots, others, a);
      Insert(mem, a);
    }
  }

  // ------------------------------------------------------------------ telling objects from links

  /** Of the slots of a run exactly the free ones have no allocated bit. */
  ghost predicate Tells(word: map<Addr, nat>, slots: set<Addr>, free: set<Addr>) {
    forall a :: a in slots ==> a in word && (word[a] < ALLOCATED <==> a in free)
  }

  lemma TakenTells(word: map<Addr, nat>, items: seq<Addr>, slots: set<Addr>, others: set<Addr>, header: nat)
    requires Chain(word, items) && AsSet(items) <= slots && AsSet(items) !! others && items != []
    requires Tells(word, slots, AsSet(items) + others) && header >= ALLOCATED
    ensures items[0] in word && items[0] !in items[1..]
    ensures Tells(word[items[0] := header], slots, AsSet(items[1..]) + others)
  {
    assert items == [items[0]] + items[1..];
    assert AsSet(items) == {items[0]} + AsSet(items[1..]);
    assert items[0] in AsSet(items);
  }

  lemma ChainElsewhere(word: map<Addr, nat>, s: seq<Addr>, a: Addr, w: nat)
    requires Chain(word, s) && a !in s
    ensures Chain(word[a := w], s)
  {
  }

  lemma GivenTells(word: map<Addr, nat>, items: seq<Addr>, slots: set<Addr>, others: set<Addr>, a: Addr)
    requires Chain(word, items) && Tells(word, slots, AsSet(items) + others) && First(items) < ALLOCATED
    requires a in slots && word[a] >= ALLOCATED
    ensures a !in items && a !in others
    ensures Tells(word[a := First(items)], slots, AsSet([a] + items) + others)
  {
    assert a !in AsSet(items) + others;
    assert AsSet([a] + items) == {a} + AsSet(items);
  }

  /** Looks at the allocated bits of all slots: none is set exactly when all slots are free. */
  method LocalRunIsEmpty(mem: Memory, base: Addr, size: nat, n: nat, ghost free: set<Addr>) returns (empty: bool)
    requires Tells(mem.word, AsSet(SlotsFrom(base, size, n)), free)
    ensures empty <==> AsSet(SlotsFrom(base, size, n)) <= free
  {
    ghost var s := SlotsFrom(base, size, n);
    var addr := base;
    for k := 0 to n
      invariant addr == base + k * size
      invariant forall j :: 0 <= j < k ==> s[j] in free
    {
      SlotAt(base, size, n, k);
      assert s[k] in AsSet(s);
      if mem.IsAllocated(addr) {
        return false;
      }
      addr := addr + size;
    }
    empty := true;
  }
}
