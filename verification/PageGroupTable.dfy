/**
 The table of page groups: slots constructed in order on first use, reused through a chain of
 `nextFree` links, each carrying a copy of the write-barrier flag.
 */
module PageGroupTables {

  const GROUPS: nat := 0x4000 // slots the table has room for

  /** `flag` is the field of the slot, `header` the copy in the header page of the mapped memory. */
  datatype Group = Group(live: bool, huge: bool, capacity: nat, mapped: nat, nextFree: nat,
                         flag: bool, header: bool)

  /** `chain` records which slots the links visit; it is not part of the program. */
  datatype Table = Table(groups: seq<Group>, current: nat, marking: bool, chain: seq<nat>)

  // ------------------------------------------------------------------ invariant

  ghost predicate LinkOk(t: Table, i: nat)
    requires i < |t.chain|
  {
    && t.chain[i] < |t.groups| && !t.groups[t.chain[i]].live
    && t.groups[t.chain[i]].nextFree == if i + 1 < |t.chain| then t.chain[i + 1] else |t.groups|
  }

  ghost predicate ChainOk(t: Table) {
    && t.current == (if t.chain == [] then |t.groups| else t.chain[0])
    && (forall i :: 0 <= i < |t.chain| ==> LinkOk(t, i))
    && (forall i, j :: 0 <= i < j < |t.chain| ==> t.chain[i] != t.chain[j])
    && (forall g :: 0 <= g < |t.groups| && !t.groups[g].live ==> g in t.chain)
  }

  ghost predicate FlagOk(g: Group, marking: bool) {
    g.flag == marking && (g.live ==> g.header == marking)
  }

  ghost predicate FlagsOk(t: Table) {
    forall g :: 0 <= g < |t.groups| ==> FlagOk(t.groups[g], t.marking)
  }

  ghost predicate Valid(t: Table) {
    ChainOk(t) && FlagsOk(t)
  }

  // ------------------------------------------------------------------ operations

  const EMPTY := Table([], 0, false, [])

  /** The slot `current` points at exists afterwards. */
  function Constructed(t: Table): Table {
    if t.current == |t.groups| then
      t.(groups := t.groups + [Group(false, false, 0, 0, t.current + 1, t.marking, false)], chain := [t.current])
    else
      t
  }

  /** Maps memory for the slot `current` points at and moves `current` along the chain. */
  function Claimed(t: Table, huge: bool, capacity: nat, mapped: nat): Table
    requires t.current <= |t.groups|
    requires t.current < |t.groups| ==> t.chain != []
  {
    var c := Constructed(t);
    var g := c.groups[c.current];
    c.(groups := c.groups[c.current := g.(live := true, huge := huge, capacity := capacity,
                                          mapped := mapped, header := g.flag)],
       current := g.nextFree, chain := c.chain[1..])
  }

  /** Unmaps group `g` and puts its slot in front of the chain. */
  function Released(t: Table, g: nat): Table
    requires g < |t.groups|
  {
    t.(groups := t.groups[g := t.groups[g].(live := false, huge := false, nextFree := t.current)],
       current := g, chain := [g] + t.chain)
  }

  function Flagged(g: Group, marking: bool): Group {
    g.(flag := marking, header := if g.live then marking else g.header)
  }

  function Marking(t: Table, marking: bool): Table {
    t.(marking := marking, groups := seq(|t.groups|, i requires 0 <= i < |t.groups| => Flagged(t.groups[i], marking)))
  }

  // ------------------------------------------------------------------ every operation keeps the invariant

  lemma EmptyValid()
    ensures Valid(EMPTY)
  {
  }

  lemma ConstructedValid(t: Table)
    requires Valid(t)
    ensures Valid(Constructed(t)) && Constructed(t).chain != []
    ensures Constructed(t).current == t.current < |Constructed(t).groups|
    ensures t.current == |t.groups| ==> forall g :: 0 <= g < |t.groups| ==> t.groups[g].live
  {
    assert t.chain != [] ==> LinkOk(t, 0);
    if t.current == |t.groups| {
      var c := Constructed(t);
      assert LinkOk(c, 0);
    }
  }

  /** The slot handed out was not mapped, and no other slot changes. */
  lemma ClaimedValid(t: Table, huge: bool, capacity: nat, mapped: nat)
    requires Valid(t)
    ensures t.current <= |t.groups| && (t.current < |t.groups| ==> t.chain != [] && !t.groups[t.current].live)
    ensures var u := Claimed(t, huge, capacity, mapped);
      && Valid(u)
      && |u.groups| == (if t.current == |t.groups| then |t.groups| + 1 else |t.groups|)
      && u.groups[t.current].live && u.groups[t.current].huge == huge
      && u.groups[t.current].capacity == capacity && u.groups[t.current].mapped == mapped
      && (forall g :: 0 <= g < |t.groups| && g != t.current ==> u.groups[g] == t.groups[g])
  {
    ConstructedValid(t);
    var c := Constructed(t);
    assert LinkOk(c, 0);
    assert t.current < |t.groups| ==> LinkOk(t, 0);
    var u := Claimed(t, huge, capacity, mapped);
    forall i | 0 <= i < |u.chain| ensures LinkOk(u, i) {
      assert LinkOk(c, i + 1) && u.chain[i] == c.chain[i + 1];
    }
    forall g | 0 <= g < |u.groups| ensures FlagOk(u.groups[g], u.marking) {
      assert FlagOk(c.groups[g], c.marking);
    }
    forall g | 0 <= g < |u.groups| && !u.groups[g].live ensures g in u.chain {
      assert g in c.chain && g != c.chain[0];
      assert c.chain == [c.chain[0]] + u.chain;
    }
  }

  lemma ReleasedValid(t: Table, g: nat)
    requires Valid(t) && g < |t.groups| && t.groups[g].live
    ensures Valid(Released(t, g))
  {
    var u := Released(t, g);
    assert t.chain != [] ==> LinkOk(t, 0);
    forall i | 0 <= i < |u.chain| ensures LinkOk(u, i) {
      assert i > 0 ==> LinkOk(t, i - 1);
    }
    forall i, j | 0 <= i < j < |u.chain| ensures u.chain[i] != u.chain[j] {
      assert LinkOk(t, j - 1);
    }
    forall k | 0 <= k < |u.groups| && !u.groups[k].live ensures k in u.chain {
      assert k != g ==> k in t.chain;
    }
  }

  lemma MarkingValid(t: Table, marking: bool)
    requires Valid(t)
    ensures Valid(Marking(t, marking))
  {
    var u := Marking(t, marking);
    forall i | 0 <= i < |u.chain| ensures LinkOk(u, i) {
      assert LinkOk(t, i);
    }
  }

  lemma MarkingTwice(t: Table, first: bool, second: bool)
    ensures Marking(Marking(t, first), second) == Marking(t, second)
  {
    assert Marking(Marking(t, first), second).groups == Marking(t, second).groups;
  }

  /** Setting the flag every group already has changes nothing. */
  lemma MarkingAgain(t: Table)
    requires FlagsOk(t)
    ensures Marking(t, t.marking) == t
  {
    forall g | 0 <= g < |t.groups| ensures Flagged(t.groups[g], t.marking) == t.groups[g] {
      assert FlagOk(t.groups[g], t.marking);
    }
    assert Marking(t, t.marking).groups == t.groups;
  }

  // ------------------------------------------------------------------ the chain, followed link by link

  /** The slot reached from `current` after `n` links; a slot not constructed yet has no link to follow. */
  function Hop(t: Table, n: nat): nat {
    if n == 0 then t.current
    else
      var g := Hop(t, n - 1);
      if g < |t.groups| then t.groups[g].nextFree else g
  }

  lemma {:induction false} HopIsChain(t: Table, n: nat)
    requires ChainOk(t) && n <= |t.chain|
    ensures Hop(t, n) == if n < |t.chain| then t.chain[n] else |t.groups|
  {
    if n != 0 {
      HopIsChain(t, n - 1);
      assert LinkOk(t, n - 1);
    }
  }

  /**
   The links never come back to a slot, pass exactly the constructed slots that are not mapped, and
   end at the first slot not constructed yet.
   */
  lemma ChainIsExactlyTheUnmappedSlots(t: Table)
    requires Valid(t)
    ensures exists len: nat ::
      && Hop(t, len) == |t.groups|
      && (forall i, j :: 0 <= i < j <= len ==> Hop(t, i) != Hop(t, j))
      && (forall g :: 0 <= g < |t.groups| ==> (!t.groups[g].live <==> exists i :: 0 <= i < len && Hop(t, i) == g))
  {
    var len := |t.chain|;
    HopIsChain(t, len);
    forall i, j | 0 <= i < j <= len ensures Hop(t, i) != Hop(t, j) {
      HopIsChain(t, i); HopIsChain(t, j);
      assert LinkOk(t, i);
    }
    forall g | 0 <= g < |t.groups|
      ensures !t.groups[g].live <==> exists i :: 0 <= i < len && Hop(t, i) == g
    {
      if !t.groups[g].live {
        var i :| 0 <= i < len && t.chain[i] == g;
        HopIsChain(t, i);
        assert Hop(t, i) == g;
      }
      forall i | 0 <= i < len && Hop(t, i) == g ensures !t.groups[g].live {
        HopIsChain(t, i);
        assert LinkOk(t, i);
      }
    }
  }

  // ------------------------------------------------------------------ the table as the program keeps it

  class PageGroups {
    var groups: seq<Group> // the constructed slots
    var current: nat
    var marking: bool
    ghost var chain: seq<nat>

    ghost function P(): Table
      reads this
    {
      Table(groups, current, marking, chain)
    }

    constructor ()
      ensures P() == EMPTY
    {
      groups, current, marking, chain := [], 0, false, [];
    }

    method EnsureConstructed()
      requires Valid(P())
      modifies `groups, `chain
      ensures P() == Constructed(old(P())) && current < |groups|
    {
      ConstructedValid(P());
      if current == |groups| {
        groups := groups + [Group(false, false, 0, 0, current + 1, marking, false)];
        chain := [current];
      }
    }

    /** Maps memory for the next free slot and writes the header of the new group. */
    method NewGroup(huge: bool, capacity: nat, mapped: nat) returns (g: nat)
      requires Valid(P())
      modifies this
      ensures old(current) <= |old(groups)| && (old(current) < |old(groups)| ==> old(chain) != [])
      ensures P() == Claimed(old(P()), huge, capacity, mapped) && g == old(current) && Valid(P())
    {
      ClaimedValid(P(), huge, capacity, mapped);
      ConstructedValid(P());
      EnsureConstructed();
      g := current;
      groups := groups[g := groups[g].(live := true, huge := huge, capacity := capacity,
                                       mapped := mapped, header := groups[g].flag)];
      current, chain := groups[g].nextFree, chain[1..];
    }

    method ReleaseMem(g: nat)
      requires g < |groups| && groups[g].live
      modifies this
      ensures P() == Released(old(P()), g)
    {
      groups := groups[g := groups[g].(live := false, huge := false, nextFree := current)];
      current, chain := g, [g] + chain;
    }

    method SetConcurrentMarkForAll(flag: bool)
      modifies `groups, `marking
      ensures P() == Marking(old(P()), flag)
    {
      ghost var was, u := groups, Marking(P(), flag);
      marking := flag;
      var i := 0;
      while i < |groups|
        invariant i <= |groups| == |was| && marking == flag
        invariant forall k :: 0 <= k < i ==> groups[k] == Flagged(was[k], flag)
        invariant forall k :: i <= k < |groups| ==> groups[k] == was[k]
      {
        groups := groups[i := Flagged(groups[i], flag)];
        i := i + 1;
      }
      assert groups == u.groups;
      assert P() == u;
    }
  }
}
