/**
 Linear probing over a circular table, as mathematics on sequences.

 Slots hold non-null pointers or 0. Positions wrap around the end of the table, so that all
 reasoning is about the distance walked from one position to another. A table is usable when
 every pointer can be reached by walking from its home position over occupied slots only.
 */
module ProbeTables {

  type Ptr = nat // 0 is the null pointer

  /** The next position, wrapping around. */
  function Next(i: nat, n: nat): (r: nat)
    requires i < n
    ensures r < n && (r == i + 1 || (r == 0 && i + 1 == n))
  {
    if i + 1 == n then 0 else i + 1
  }

  /** How many steps lead from position `a` to position `b`. */
  function Dist(a: nat, b: nat, n: nat): (r: nat)
    requires a < n && b < n
    ensures r < n && (a + r == b || a + r == b + n)
  {
    if a <= b then b - a else b + n - a
  }

  /** One step nearer to `e`, and one step further from `a`. */
  lemma StepNearer(a: nat, i: nat, e: nat, n: nat)
    requires a < n && i < n && e < n && a != i && i != e && Dist(a, i, n) <= Dist(a, e, n)
    ensures Next(i, n) != a && Next(i, n) != i
    ensures Dist(a, Next(i, n), n) == Dist(a, i, n) + 1 <= Dist(a, e, n)
    ensures Dist(i, Next(i, n), n) == 1 <= Dist(i, e, n) == Dist(Next(i, n), e, n) + 1
  {
  }

  lemma FirstStep(a: nat, e: nat, n: nat)
    requires a < n && e < n && a != e
    ensures Next(a, n) < n && Next(a, n) != a && Dist(a, Next(a, n), n) <= Dist(a, e, n)
  {
  }

  /** Both in modular arithmetic, which the source computes by masking with a power of two. */
  lemma WalkIsModular(a: nat, b: nat, n: nat)
    requires a < n && b < n
    ensures Next(a, n) == (a + 1) % n && Dist(a, b, n) == (b - a) % n
  {
    if a > b {
      assert (b - a) + n == Dist(a, b, n);
      ModShift(b - a, n);
    }
  }

  lemma ModShift(x: int, n: int)
    requires -n < x < 0
    ensures x % n == x + n
  {
    assert x == -1 * n + (x + n);
  }

  function Home(hash: Ptr -> nat, p: Ptr, n: nat): (r: nat)
    requires n > 0
    ensures r < n
  {
    hash(p) % n
  }

  /** The pointers in a table. */
  ghost function Elements(s: seq<Ptr>): set<Ptr> {
    set i | 0 <= i < |s| && s[i] != 0 :: s[i]
  }

  ghost predicate DistinctPointers(s: seq<Ptr>) {
    forall i, j :: 0 <= i < j < |s| && s[i] != 0 ==> s[i] != s[j]
  }

  /** Walking from the home of the pointer in slot `i` meets no empty slot before `i`. */
  ghost predicate Reachable(hash: Ptr -> nat, s: seq<Ptr>, i: nat)
    requires i < |s|
  {
    forall j :: 0 <= j < |s| && Dist(Home(hash, s[i], |s|), j, |s|) < Dist(Home(hash, s[i], |s|), i, |s|) ==> s[j] != 0
  }

  ghost predicate WellPlaced(hash: Ptr -> nat, s: seq<Ptr>) {
    forall i :: 0 <= i < |s| && s[i] != 0 ==> Reachable(hash, s, i)
  }

  ghost predicate Usable(hash: Ptr -> nat, s: seq<Ptr>) {
    DistinctPointers(s) && WellPlaced(hash, s)
  }

  // ------------------------------------------------------------------ counting

  ghost function Count(s: seq<Ptr>): nat {
    if s == [] then 0 else Count(s[1..]) + if s[0] != 0 then 1 else 0
  }

  lemma {:induction false} CountUpdate(s: seq<Ptr>, i: nat, p: Ptr)
    requires i < |s|
    ensures Count(s[i := p]) == Count(s) + (if p != 0 then 1 else 0) - (if s[i] != 0 then 1 else 0)
  {
    if i == 0 {
      assert s[i := p][1..] == s[1..];
    } else {
      CountUpdate(s[1..], i - 1, p);
      assert s[i := p][1..] == s[1..][i - 1 := p];
    }
  }

  lemma {:induction false} CountAppend(s: seq<Ptr>, t: seq<Ptr>)
    ensures Count(s + t) == Count(s) + Count(t)
  {
    if s == [] {
      assert s + t == t;
    } else {
      CountAppend(s[1..], t);
      assert (s + t)[1..] == s[1..] + t;
    }
  }

  lemma PrefixSplits(s: seq<Ptr>, i: nat)
    requires i < |s|
    ensures s[..i + 1] == s[..i] + [s[i]] && s == s[..i + 1] + s[i + 1..]
  {
  }

  lemma PrefixCounts(s: seq<Ptr>, i: nat)
    requires i < |s|
    ensures Count(s[..i + 1]) == Count(s[..i]) + if s[i] != 0 then 1 else 0
    ensures Count(s[..i + 1]) <= Count(s)
  {
    PrefixSplits(s, i);
    CountAppend(s[..i], [s[i]]);
    CountAppend(s[..i + 1], s[i + 1..]);
  }

  /** What one more slot adds to the first `i` slots. */
  lemma PrefixGrows(s: seq<Ptr>, i: nat)
    requires i < |s| && DistinctPointers(s)
    ensures Count(s[..i + 1]) == Count(s[..i]) + if s[i] != 0 then 1 else 0
    ensures Count(s[..i + 1]) <= Count(s)
    ensures Elements(s[..i + 1]) == Elements(s[..i]) + if s[i] != 0 then {s[i]} else {}
    ensures s[i] !in Elements(s[..i])
  {
    PrefixCounts(s, i);
    PrefixSplits(s, i);
    ElementsAppend(s[..i], s[i]);
  }

  lemma ElementsAppend(s: seq<Ptr>, p: Ptr)
    ensures Elements(s + [p]) == Elements(s) + if p != 0 then {p} else {}
  {
    var t := s + [p];
    assert t[|s|] == p;
    forall x | x in Elements(s) ensures x in Elements(t) {
      var k :| 0 <= k < |s| && s[k] == x;
      assert t[k] == x;
    }
  }

  lemma {:induction false} CountBelowLength(s: seq<Ptr>)
    ensures Count(s) <= |s|
    ensures Count(s) < |s| ==> exists e :: 0 <= e < |s| && s[e] == 0
  {
    if s != [] {
      CountBelowLength(s[1..]);
      if s[0] == 0 {
        assert s[0] == 0;
      } else if Count(s) < |s| {
        var e :| 0 <= e < |s[1..]| && s[1..][e] == 0;
        assert s[e + 1] == 0;
      }
    }
  }

  lemma {:induction false} CountEmpty(s: seq<Ptr>)
    requires forall i :: 0 <= i < |s| ==> s[i] == 0
    ensures Count(s) == 0 && Elements(s) == {}
  {
    if s != [] {
      CountEmpty(s[1..]);
    }
  }

  lemma ElementsUpdate(s: seq<Ptr>, i: nat, p: Ptr)
    requires i < |s| && DistinctPointers(s)
    requires p == 0 || p !in Elements(s)
    ensures Elements(s[i := p]) == Elements(s) - {s[i]} + if p == 0 then {} else {p}
    ensures DistinctPointers(s[i := p])
  {
    var t := s[i := p];
    forall x ensures x in Elements(t) <==> x in Elements(s) - {s[i]} + if p == 0 then {} else {p} {
      if x in Elements(s) && x != s[i] {
        var k :| 0 <= k < |s| && s[k] == x;
        assert t[k] == x;
      }
      if x == p && p != 0 {
        assert t[i] == x;
      }
    }
  }

  /** A table without duplicates holds as many pointers as it has occupied slots. */
  lemma {:induction false} CountIsSize(s: seq<Ptr>)
    requires DistinctPointers(s)
    ensures |Elements(s)| == Count(s)
  {
    if s == [] {
      assert Elements(s) == {};
    } else {
      CountIsSize(s[1..]);
      forall x ensures x in Elements(s) <==> x in Elements(s[1..]) || (x == s[0] && x != 0) {
        if x in Elements(s[1..]) {
          var k :| 0 <= k < |s[1..]| && s[1..][k] == x;
          assert s[k + 1] == x;
        }
      }
      assert Elements(s) == Elements(s[1..]) + if s[0] != 0 then {s[0]} else {};
    }
  }

  // ------------------------------------------------------------------ looking up and inserting

  /** The search for `p` has got as far as `i`: the slots before hold other pointers. */
  ghost predicate Probed(hash: Ptr -> nat, s: seq<Ptr>, p: Ptr, i: nat) {
    && i < |s|
    && forall j :: 0 <= j < |s| && Dist(Home(hash, p, |s|), j, |s|) < Dist(Home(hash, p, |s|), i, |s|) ==>
         s[j] != 0 && s[j] != p
  }

  lemma ProbeStarts(hash: Ptr -> nat, s: seq<Ptr>, p: Ptr)
    requires s != []
    ensures Probed(hash, s, p, Home(hash, p, |s|))
  {
  }

  /** One more slot that does not end the search brings it nearer to an empty one. */
  lemma ProbeStep(hash: Ptr -> nat, s: seq<Ptr>, p: Ptr, i: nat, e: nat)
    requires Probed(hash, s, p, i) && s[i] != 0 && s[i] != p && e < |s| && s[e] == 0
    ensures Probed(hash, s, p, Next(i, |s|)) && Dist(Next(i, |s|), e, |s|) < Dist(i, e, |s|)
  {
    var n, h := |s|, Home(hash, p, |s|);
    assert Dist(h, i, n) <= Dist(h, e, n);
    forall j | 0 <= j < n && Dist(h, j, n) < Dist(h, Next(i, n), n) ensures s[j] != 0 && s[j] != p {
      if j != i { assert Dist(h, j, n) < Dist(h, i, n); }
    }
  }

  /** Position `i` is where a search for `p` ends: an empty slot or `p` itself, and neither before. */
  ghost predicate SearchEnds(hash: Ptr -> nat, s: seq<Ptr>, p: Ptr, i: nat) {
    Probed(hash, s, p, i) && (s[i] == 0 || s[i] == p)
  }

  /** The search finds `p` exactly when `p` is in the table. */
  lemma SearchDecides(hash: Ptr -> nat, s: seq<Ptr>, p: Ptr, i: nat)
    requires WellPlaced(hash, s) && p != 0 && SearchEnds(hash, s, p, i)
    ensures s[i] == p <==> p in Elements(s)
  {
    if p in Elements(s) {
      var k :| 0 <= k < |s| && s[k] == p;
      assert Reachable(hash, s, k);
    }
  }

  lemma InsertKeeps(hash: Ptr -> nat, s: seq<Ptr>, p: Ptr, i: nat)
    requires Usable(hash, s) && p != 0 && SearchEnds(hash, s, p, i) && s[i] == 0
    ensures Usable(hash, s[i := p]) && Elements(s[i := p]) == Elements(s) + {p} && p !in Elements(s)
    ensures Count(s[i := p]) == Count(s) + 1
  {
    SearchDecides(hash, s, p, i);
    ElementsUpdate(s, i, p);
    CountUpdate(s, i, p);
    assert 0 !in Elements(s);
    var t := s[i := p];
    forall k | 0 <= k < |t| && t[k] != 0 ensures Reachable(hash, t, k) {
      if k != i { assert Reachable(hash, s, k); }
    }
  }

  // ------------------------------------------------------------------ erasing by backward shift

  /**
   The state of a deletion that has emptied slot `hole` and examined the slots up to `i`: only
   pointers at `i` or later may still be cut off from their homes, and only by the hole.
   */
  ghost predicate Shifting(hash: Ptr -> nat, t: seq<Ptr>, hole: nat, i: nat) {
    && hole < |t| && i < |t| && t[hole] == 0 && DistinctPointers(t)
    && forall k :: 0 <= k < |t| && t[k] != 0 ==> CutOffOnlyBy(hash, t, hole, i, k)
  }

  ghost predicate CutOffOnlyBy(hash: Ptr -> nat, t: seq<Ptr>, hole: nat, i: nat, k: nat)
    requires hole < |t| && i < |t| && k < |t|
  {
    var h := Home(hash, t[k], |t|);
    forall j :: 0 <= j < |t| && Dist(h, j, |t|) < Dist(h, k, |t|) ==>
      t[j] != 0 || (j == hole && Dist(hole, i, |t|) <= Dist(hole, k, |t|))
  }

  /** The pointer in slot `k` is cut off from its home by the hole. */
  ghost predicate Crosses(hash: Ptr -> nat, s: seq<Ptr>, hole: nat, k: nat)
    requires hole < |s| && k < |s|
  {
    var h := Home(hash, s[k], |s|);
    Dist(h, hole, |s|) < Dist(h, k, |s|)
  }

  lemma ShiftStarts(hash: Ptr -> nat, s: seq<Ptr>, hole: nat)
    requires Usable(hash, s) && hole < |s| && |s| > 1 && s[hole] != 0
    ensures Shifting(hash, s[hole := 0], hole, Next(hole, |s|))
    ensures Elements(s[hole := 0]) == Elements(s) - {s[hole]} && Count(s[hole := 0]) == Count(s) - 1
  {
    ElementsUpdate(s, hole, 0);
    CountUpdate(s, hole, 0);
    var t := s[hole := 0];
    forall k | 0 <= k < |t| && t[k] != 0 ensures CutOffOnlyBy(hash, t, hole, Next(hole, |s|), k) {
      assert Reachable(hash, s, k);
    }
  }

  /** A pointer that the hole does not cut off stays. */
  lemma ShiftPasses(hash: Ptr -> nat, t: seq<Ptr>, hole: nat, i: nat)
    requires Shifting(hash, t, hole, i) && i != hole && t[i] != 0 && !Crosses(hash, t, hole, i)
    requires Next(i, |t|) != hole
    ensures Shifting(hash, t, hole, Next(i, |t|))
  {
    forall k | 0 <= k < |t| && t[k] != 0 ensures CutOffOnlyBy(hash, t, hole, Next(i, |t|), k) {
      assert CutOffOnlyBy(hash, t, hole, i, k);
    }
  }

  lemma MoveKeepsElements(t: seq<Ptr>, hole: nat, i: nat)
    requires hole < |t| && i < |t| && i != hole && t[hole] == 0 && t[i] != 0 && DistinctPointers(t)
    ensures var u := t[hole := t[i]][i := 0];
      DistinctPointers(u) && Elements(u) == Elements(t) && Count(u) == Count(t)
  {
    var p, v := t[i], t[i := 0];
    assert t[hole := p][i := 0] == v[hole := p];
    ElementsUpdate(t, i, 0);
    ElementsUpdate(v, hole, p);
    assert p in Elements(t) && 0 !in Elements(t);
    CountUpdate(t, i, 0);
    CountUpdate(v, hole, p);
  }

  /** A pointer that the hole cuts off moves into it, and leaves a new hole behind. */
  lemma ShiftMoves(hash: Ptr -> nat, t: seq<Ptr>, hole: nat, i: nat)
    requires Shifting(hash, t, hole, i) && i != hole && t[i] != 0 && Crosses(hash, t, hole, i)
    ensures var u := t[hole := t[i]][i := 0];
      Shifting(hash, u, i, Next(i, |t|)) && Elements(u) == Elements(t) && Count(u) == Count(t)
  {
    MoveKeepsElements(t, hole, i);
    var u := t[hole := t[i]][i := 0];
    forall k | 0 <= k < |u| && u[k] != 0 ensures CutOffOnlyBy(hash, u, i, Next(i, |t|), k) {
      if k == hole { MovedPointer(hash, t, hole, i); } else { OtherPointer(hash, t, hole, i, k); }
    }
  }

  lemma MovedPointer(hash: Ptr -> nat, t: seq<Ptr>, hole: nat, i: nat)
    requires Shifting(hash, t, hole, i) && i != hole && t[i] != 0 && Crosses(hash, t, hole, i)
    ensures CutOffOnlyBy(hash, t[hole := t[i]][i := 0], i, Next(i, |t|), hole)
  {
    assert CutOffOnlyBy(hash, t, hole, i, i);
  }

  lemma OtherPointer(hash: Ptr -> nat, t: seq<Ptr>, hole: nat, i: nat, k: nat)
    requires Shifting(hash, t, hole, i) && i != hole && t[i] != 0 && Crosses(hash, t, hole, i)
    requires k < |t| && k != hole && k != i && t[k] != 0
    ensures CutOffOnlyBy(hash, t[hole := t[i]][i := 0], i, Next(i, |t|), k)
  {
    assert CutOffOnlyBy(hash, t, hole, i, k);
  }

  /** At the first empty slot nothing is cut off any more. */
  lemma ShiftEnds(hash: Ptr -> nat, t: seq<Ptr>, hole: nat, i: nat)
    requires Shifting(hash, t, hole, i) && i != hole && t[i] == 0
    ensures Usable(hash, t)
  {
    forall k | 0 <= k < |t| && t[k] != 0 ensures Reachable(hash, t, k) {
      assert CutOffOnlyBy(hash, t, hole, i, k);
    }
  }

  /**
   The table `s` in the middle of a deletion: slot `hole` still shows a stale pointer; without it,
   the table holds `goal` in `n` slots.
   */
  ghost predicate Gap(hash: Ptr -> nat, s: seq<Ptr>, hole: nat, i: nat, goal: set<Ptr>, n: nat) {
    && hole < |s| && i < |s| && s[hole] != 0
    && Shifting(hash, s[hole := 0], hole, i) && Elements(s[hole := 0]) == goal && Count(s[hole := 0]) == n
  }

  lemma GapMoves(hash: Ptr -> nat, s: seq<Ptr>, hole: nat, i: nat, goal: set<Ptr>, n: nat)
    requires Gap(hash, s, hole, i, goal, n) && i != hole && s[i] != 0 && Crosses(hash, s, hole, i)
    ensures Gap(hash, s[hole := s[i]], i, Next(i, |s|), goal, n)
  {
    var t := s[hole := 0];
    assert s[hole := s[i]][i := 0] == t[hole := t[i]][i := 0];
    ShiftMoves(hash, t, hole, i);
  }

  lemma GapPasses(hash: Ptr -> nat, s: seq<Ptr>, hole: nat, i: nat, goal: set<Ptr>, n: nat)
    requires Gap(hash, s, hole, i, goal, n) && i != hole && s[i] != 0 && !Crosses(hash, s, hole, i)
    requires Next(i, |s|) != hole
    ensures Gap(hash, s, hole, Next(i, |s|), goal, n)
  {
    ShiftPasses(hash, s[hole := 0], hole, i);
  }

  lemma GapCloses(hash: Ptr -> nat, s: seq<Ptr>, hole: nat, i: nat, goal: set<Ptr>, n: nat)
    requires Gap(hash, s, hole, i, goal, n) && i != hole && s[i] == 0
    ensures Usable(hash, s[hole := 0]) && Elements(s[hole := 0]) == goal && Count(s[hole := 0]) == n
  {
    ShiftEnds(hash, s[hole := 0], hole, i);
  }
}
