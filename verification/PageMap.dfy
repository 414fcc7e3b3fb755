/**
 The labels of the pages of one group. An allocation labels its first page Run or LargeObj and the
 others RunRem or LargeObjRem; how many pages it has is recorded nowhere else, so everything rests
 on reading the labels back.
 */
module PageMaps {
  import opened PageSets

  datatype Label = Released | Free | Run | RunRem | LargeObj | LargeObjRem

  predicate IsFree(x: Label) {
    x == Released || x == Free
  }

  predicate IsHead(x: Label) {
    x == Run || x == LargeObj
  }

  function RemOf(head: Label): Label {
    if head == Run then RunRem else LargeObjRem
  }

  // ------------------------------------------------------------------ what the range loops compute

  function Filled(ls: seq<Label>, i: nat, j: nat, x: Label): seq<Label> {
    seq(|ls|, k requires 0 <= k < |ls| => if i <= k < j then x else ls[k])
  }

  /** The labels of an allocation of `n` pages at `i`. */
  function Laid(ls: seq<Label>, i: nat, n: nat, head: Label): seq<Label> {
    seq(|ls|, k requires 0 <= k < |ls| => if k == i then head else if i < k < i + n then RemOf(head) else ls[k])
  }

  /** How many pages of [i, j) go from or to Released when the range is labelled `x`. */
  function Converted(ls: seq<Label>, i: nat, j: nat, x: Label): nat
    requires j <= |ls|
  {
    if i >= j then 0
    else Converted(ls, i, j - 1, x) + if (x == Released) != (ls[j - 1] == Released) then 1 else 0
  }

  /** How many labels `rem` follow each other from `i` on. */
  function Following(ls: seq<Label>, i: nat, rem: Label): nat
    decreases |ls| - i
  {
    if i < |ls| && ls[i] == rem then 1 + Following(ls, i + 1, rem) else 0
  }

  /** The backward scan for the first page of the allocation around page `i`. */
  function StartOf(ls: seq<Label>, i: nat, head: Label): nat
    requires i < |ls|
  {
    if i == 0 || ls[i] == head then i else StartOf(ls, i - 1, head)
  }

  // ------------------------------------------------------------------ allocations

  /** `sizes` records the allocations, `owner` the one around each page; neither is in the program. */
  datatype Pages = Pages(labels: seq<Label>, sizes: map<nat, nat>, owner: map<nat, nat>)

  ghost predicate HasOwner(m: Pages, i: nat) {
    i in m.owner && m.owner[i] in m.sizes && m.owner[i] <= i < m.owner[i] + m.sizes[m.owner[i]]
  }

  /** Page `i` carries the label of its place in the allocation at `h`. */
  ghost predicate Placed(m: Pages, h: nat, i: nat)
    requires h <= i < |m.labels|
  {
    && i in m.owner && m.owner[i] == h
    && (if i == h then IsHead(m.labels[h]) else m.labels[i] == RemOf(m.labels[h]))
  }

  ghost predicate Extends(m: Pages, h: nat, n: nat) {
    && 0 < n && h + n <= |m.labels|
    && forall i :: h <= i < h + n ==> Placed(m, h, i)
  }

  ghost predicate Valid(m: Pages) {
    && (forall i :: 0 <= i < |m.labels| && !IsFree(m.labels[i]) ==> HasOwner(m, i))
    && (forall h :: h in m.sizes ==> Extends(m, h, m.sizes[h]))
  }

  function Fresh(n: nat): Pages {
    Pages(seq(n, _ => Released), map[], map[])
  }

  ghost function Put(m: Pages, i: nat, n: nat, head: Label): Pages {
    Pages(Laid(m.labels, i, n, head), m.sizes[i := n], m.owner + map k | k in Span(i, n) :: i)
  }

  ghost function Cleared(m: Pages, i: nat, n: nat, x: Label): Pages {
    Pages(Filled(m.labels, i, i + n, x), m.sizes - {i}, m.owner - Span(i, n))
  }

  ghost predicate AllFree(ls: seq<Label>, i: nat, n: nat) {
    i + n <= |ls| && forall k :: i <= k < i + n ==> IsFree(ls[k])
  }

  lemma FreeAfterPut(m: Pages, i: nat, n: nat, head: Label, k: nat)
    requires 0 < n && k < |m.labels| && IsHead(head)
    ensures IsFree(Put(m, i, n, head).labels[k]) <==> IsFree(m.labels[k]) && !(i <= k < i + n)
  {
    assert Laid(m.labels, i, n, head)[k] == if k == i then head else if i < k < i + n then RemOf(head) else m.labels[k];
  }

  lemma FreeAfterCleared(m: Pages, i: nat, n: nat, x: Label, k: nat)
    requires k < |m.labels| && IsFree(x)
    ensures IsFree(Cleared(m, i, n, x).labels[k]) <==> IsFree(m.labels[k]) || i <= k < i + n
  {
  }

  lemma OwnedPagesAreNotFree(m: Pages, h: nat, i: nat)
    requires Valid(m) && h in m.sizes && h <= i < h + m.sizes[h]
    ensures i < |m.labels| && Placed(m, h, i) && !IsFree(m.labels[i])
  {
    assert Extends(m, h, m.sizes[h]) && Placed(m, h, i);
  }

  lemma PutValid(m: Pages, i: nat, n: nat, head: Label)
    requires Valid(m) && IsHead(head) && 0 < n && AllFree(m.labels, i, n)
    ensures Valid(Put(m, i, n, head)) && i !in m.sizes
  {
    var u := Put(m, i, n, head);
    if i in m.sizes { OwnedPagesAreNotFree(m, i, i); }
    forall k: nat | k < |u.labels| && !IsFree(u.labels[k]) ensures HasOwner(u, k) {
      PutOwns(m, i, n, head, k);
    }
    forall h | h in u.sizes ensures Extends(u, h, u.sizes[h]) {
      if h == i { PutExtends(m, i, n, head); } else { PutKeeps(m, i, n, head, h); }
    }
  }

  lemma PutOwns(m: Pages, i: nat, n: nat, head: Label, k: nat)
    requires Valid(m) && i !in m.sizes && k < |m.labels| && !IsFree(Put(m, i, n, head).labels[k]) && 0 < n
    ensures HasOwner(Put(m, i, n, head), k)
  {
    assert k !in Span(i, n) ==> HasOwner(m, k);
  }

  lemma PutExtends(m: Pages, i: nat, n: nat, head: Label)
    requires IsHead(head) && 0 < n && i + n <= |m.labels|
    ensures Extends(Put(m, i, n, head), i, n)
  {
    var u := Put(m, i, n, head);
    forall k | i <= k < i + n ensures Placed(u, i, k) {
      assert k in Span(i, n) && u.owner[k] == i;
      assert u.labels[i] == head;
    }
  }

  /** An allocation elsewhere is not touched. */
  lemma PutKeeps(m: Pages, i: nat, n: nat, head: Label, h: nat)
    requires Valid(m) && 0 < n && AllFree(m.labels, i, n) && h in m.sizes
    ensures Extends(Put(m, i, n, head), h, m.sizes[h])
  {
    var u := Put(m, i, n, head);
    assert Extends(m, h, m.sizes[h]);
    OwnedPagesAreNotFree(m, h, h);
    forall k | h <= k < h + m.sizes[h] ensures Placed(u, h, k) {
      OwnedPagesAreNotFree(m, h, k);
      assert h !in Span(i, n) && k !in Span(i, n);
    }
  }

  lemma ClearedValid(m: Pages, h: nat, x: Label)
    requires Valid(m) && h in m.sizes && IsFree(x)
    ensures Valid(Cleared(m, h, m.sizes[h], x)) && AllFree(Cleared(m, h, m.sizes[h], x).labels, h, m.sizes[h])
  {
    var u := Cleared(m, h, m.sizes[h], x);
    assert Extends(m, h, m.sizes[h]);
    forall k | 0 <= k < |u.labels| && !IsFree(u.labels[k]) ensures HasOwner(u, k) {
      assert HasOwner(m, k);
    }
    forall g | g in u.sizes ensures Extends(u, g, u.sizes[g]) {
      assert Extends(m, g, m.sizes[g]);
      forall k | g <= k < g + m.sizes[g] ensures Placed(u, g, k) {
        OwnedPagesAreNotFree(m, g, k);
        OwnedPagesAreNotFree(m, g, g);
        assert h <= k < h + m.sizes[h] ==> Placed(m, h, k);
        assert h <= g < h + m.sizes[h] ==> Placed(m, h, g);
      }
    }
  }

  // ------------------------------------------------------------------ reading the labels back

  lemma {:induction false} FollowingStops(ls: seq<Label>, i: nat, n: nat, rem: Label)
    requires i + n <= |ls| && (forall k :: i <= k < i + n ==> ls[k] == rem)
    requires i + n < |ls| ==> ls[i + n] != rem
    ensures Following(ls, i, rem) == n
    decreases n
  {
    if n != 0 { FollowingStops(ls, i + 1, n - 1, rem); }
  }

  /** The page after an allocation is free or starts another one. */
  lemma NextIsNoRemainder(m: Pages, h: nat)
    requires Valid(m) && h in m.sizes && h + m.sizes[h] < |m.labels|
    ensures var x := m.labels[h + m.sizes[h]]; IsFree(x) || IsHead(x)
  {
    var g := h + m.sizes[h];
    if !IsFree(m.labels[g]) {
      assert HasOwner(m, g);
      var o := m.owner[g];
      OwnedPagesAreNotFree(m, o, g);
      assert Extends(m, h, m.sizes[h]);
      OwnedPagesAreNotFree(m, h, g - 1);
      if o < g { OwnedPagesAreNotFree(m, o, g - 1); }
    }
  }

  /** A scan over the labels finds the page count the allocation was made with. */
  lemma CountIsExact(m: Pages, h: nat)
    requires Valid(m) && h in m.sizes
    ensures h < |m.labels| && 1 + Following(m.labels, h + 1, RemOf(m.labels[h])) == m.sizes[h]
  {
    var n := m.sizes[h];
    assert Extends(m, h, n) && Placed(m, h, h);
    forall k | h + 1 <= k < h + n ensures m.labels[k] == RemOf(m.labels[h]) {
      assert Placed(m, h, k);
    }
    if h + n < |m.labels| { NextIsNoRemainder(m, h); }
    FollowingStops(m.labels, h + 1, n - 1, RemOf(m.labels[h]));
  }

  lemma {:induction false} StartOfScan(ls: seq<Label>, h: nat, i: nat, head: Label)
    requires h <= i < |ls| && (h == 0 || ls[h] == head) && (forall k :: h < k <= i ==> ls[k] != head)
    ensures StartOf(ls, i, head) == h
  {
    if i != h { StartOfScan(ls, h, i - 1, head); }
  }

  /** From any page of an allocation the backward scan ends at its first page. */
  lemma StartIsFound(m: Pages, i: nat)
    requires Valid(m) && i < |m.labels| && !IsFree(m.labels[i])
    ensures HasOwner(m, i) && StartOf(m.labels, i, m.labels[m.owner[i]]) == m.owner[i]
    ensures m.labels[i] == LargeObjRem ==> m.labels[m.owner[i]] == LargeObj
    ensures m.labels[i] == RunRem ==> m.labels[m.owner[i]] == Run
  {
    assert HasOwner(m, i);
    var h := m.owner[i];
    OwnedPagesAreNotFree(m, h, i);
    OwnedPagesAreNotFree(m, h, h);
    forall k | h < k <= i ensures m.labels[k] != m.labels[h] {
      OwnedPagesAreNotFree(m, h, k);
    }
    StartOfScan(m.labels, h, i, m.labels[h]);
  }

  /** Two allocations never share a page. */
  lemma AllocationsDisjoint(m: Pages, g: nat, h: nat, i: nat)
    requires Valid(m) && g in m.sizes && h in m.sizes
    requires g <= i < g + m.sizes[g] && h <= i < h + m.sizes[h]
    ensures g == h
  {
    OwnedPagesAreNotFree(m, g, i);
    OwnedPagesAreNotFree(m, h, i);
  }

  // ------------------------------------------------------------------ the map as the program keeps it

  class PageMap {
    const map_: array<Label>

    constructor (n: nat)
      ensures fresh(map_) && map_[..] == Fresh(n).labels
    {
      map_ := new Label[n](_ => Released);
    }

    method SetRangeAndCount(i: nat, j: nat, x: Label) returns (count: nat)
      requires i <= j <= map_.Length
      modifies map_
      ensures map_[..] == Filled(old(map_[..]), i, j, x)
      ensures count == Converted(old(map_[..]), i, j, x)
    {
      ghost var was := map_[..];
      count := 0;
      var k := i;
      while k < j
        invariant i <= k <= j && count == Converted(was, i, k, x)
        invariant map_[..] == Filled(was, i, k, x)
      {
        assert map_[..][k] == was[k];
        if (x == Released) != (map_[k] == Released) {
          count := count + 1;
        }
        map_[k] := x;
        k := k + 1;
      }
    }

    /** SetAsRunPage and SetAsLargeObjPage differ only in the label of the first page. */
    method SetAs(i: nat, n: nat, head: Label) returns (count: nat)
      requires IsHead(head) && 0 < n && i + n <= map_.Length && IsFree(map_[i])
      modifies map_
      ensures map_[..] == Laid(old(map_[..]), i, n, head)
      ensures count == Converted(old(map_[..]), i, i + n, head)
    {
      ghost var was := map_[..];
      count := 0;
      if map_[i] == Released {
        count := count + 1;
      }
      map_[i] := head;
      ghost var headed := map_[..];
      if n > 1 {
        var c := SetRangeAndCount(i + 1, i + n, RemOf(head));
        count := count + c;
      }
      ConvertedSplit(was, headed, i, i + n, head);
    }

    lemma {:induction false} ConvertedSplit(was: seq<Label>, headed: seq<Label>, i: nat, j: nat, head: Label)
      requires i < j <= |was| && headed == was[i := head] && IsHead(head)
      ensures Converted(was, i, j, head)
           == (if was[i] == Released then 1 else 0) + Converted(headed, i + 1, j, RemOf(head))
    {
      if i + 1 < j { ConvertedSplit(was, headed, i, j - 1, head); }
    }

    /** RunPageCount and LargeObjPageCount. */
    method PageCount(i: nat) returns (count: nat)
      requires i < map_.Length && IsHead(map_[i])
      ensures count == 1 + Following(map_[..], i + 1, RemOf(map_[i]))
    {
      var rem := RemOf(map_[i]);
      count := 1;
      var k := i + 1;
      while k < map_.Length && map_[k] == rem
        invariant i + 1 <= k <= map_.Length && count == k - i
        invariant k - i - 1 + Following(map_[..], k, rem) == Following(map_[..], i + 1, rem)
      {
        k, count := k + 1, count + 1;
      }
    }

    method ClearLargeObjPageAndCount(i: nat, release: bool) returns (count: nat)
      requires i < map_.Length && map_[i] == LargeObj
      modifies map_
      ensures count == 1 + Following(old(map_[..]), i + 1, LargeObjRem)
      ensures map_[..] == Filled(old(map_[..]), i, i + count, if release then Released else Free)
    {
      ghost var was := map_[..];
      var x := if release then Released else Free;
      count := 1;
      map_[i] := x;
      var k := i + 1;
      while k < map_.Length && map_[k] == LargeObjRem
        invariant i + 1 <= k <= map_.Length && count == k - i
        invariant k - i - 1 + Following(was, k, LargeObjRem) == Following(was, i + 1, LargeObjRem)
        invariant map_[..] == Filled(was, i, k, x)
      {
        assert map_[..][k] == was[k];
        map_[k] := x;
        k, count := k + 1, count + 1;
      }
      assert k < map_.Length ==> map_[..][k] == was[k];
    }

    method ClearRunPage(i: nat, n: nat, release: bool)
      requires i + n <= map_.Length
      modifies map_
      ensures map_[..] == Filled(old(map_[..]), i, i + n, if release then Released else Free)
    {
      ghost var was := map_[..];
      var x := if release then Released else Free;
      var k := i;
      while k < i + n
        invariant i <= k <= i + n
        invariant map_[..] == Filled(was, i, k, x)
      {
        map_[k] := x;
        k := k + 1;
      }
    }

    /** GetRunStartFromAddr and GetLargeObjStartFromAddr. */
    method GetStart(i: nat, head: Label) returns (start: nat)
      requires i < map_.Length
      ensures start == StartOf(map_[..], i, head)
    {
      start := 0;
      var k: nat := i;
      while k > 0
        invariant k <= i && StartOf(map_[..], k, head) == StartOf(map_[..], i, head) && start == 0
      {
        if map_[k] == head {
          start := k;
          break;
        }
        k := k - 1;
      }
    }
  }
}
