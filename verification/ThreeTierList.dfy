/**
 The list of partly free runs of one size: a doubly linked list cut into three tiers by how full
 the runs were when they were inserted. Allocation takes runs from the middle tier.
 */
module ThreeTierLists {
  import opened Collections

  // ------------------------------------------------------------------ the tiers as sequences

  datatype Tiers<T> = Tiers(first: seq<T>, second: seq<T>, third: seq<T>) {
    function All(): seq<T> {
      first + second + third
    }

    /** The middle tier is empty only when the whole list is. */
    ghost predicate Filled() {
      second == [] ==> first == [] && third == []
    }
  }

  datatype Tier = First | Second | Third

  function Without<T>(s: seq<T>, i: nat): seq<T>
    requires i < |s|
  {
    s[..i] + s[i + 1..]
  }

  function IndexOf<T(==)>(s: seq<T>, n: T): (i: nat)
    requires n in s
    ensures i < |s| && s[i] == n
  {
    if s[0] == n then 0 else 1 + IndexOf(s[1..], n)
  }

  function Inserted<T>(t: Tiers<T>, n: T, tier: Tier): Tiers<T> {
    if t.second == [] then t.(second := [n])
    else match tier
      case First => t.(first := [n] + t.first)
      case Second => t.(second := [n] + t.second)
      case Third => t.(third := [n] + t.third)
  }

  /** The middle tier without its only node: a neighbour moves in, from the third tier if there is one. */
  function Refilled<T>(t: Tiers<T>): Tiers<T> {
    if t.third != [] then Tiers(t.first, [t.third[0]], t.third[1..])
    else if t.first != [] then Tiers(t.first[..|t.first| - 1], [t.first[|t.first| - 1]], [])
    else Tiers([], [], [])
  }

  function Erased<T(==)>(t: Tiers<T>, n: T): Tiers<T>
    requires n in t.All()
  {
    if n in t.first then t.(first := Without(t.first, IndexOf(t.first, n)))
    else if n in t.second then
      if |t.second| == 1 then Refilled(t) else t.(second := Without(t.second, IndexOf(t.second, n)))
    else t.(third := Without(t.third, IndexOf(t.third, n)))
  }

  lemma DistinctWithout<T>(s: seq<T>, i: nat)
    requires Distinct(s) && i < |s|
    ensures Distinct(Without(s, i)) && s[i] !in Without(s, i)
  {
    forall j | 0 <= j < |Without(s, i)| ensures Without(s, i)[j] == s[if j < i then j else j + 1] {
    }
  }

  lemma DistinctWith<T>(s: seq<T>, k: nat, n: T)
    requires Distinct(s) && k <= |s| && n !in s
    ensures Distinct(s[..k] + [n] + s[k..])
  {
    var u := s[..k] + [n] + s[k..];
    forall j | 0 <= j < |u| ensures u[j] == if j < k then s[j] else if j == k then n else s[j - 1] {
    }
  }

  lemma InSpliced<T>(s: seq<T>, k: nat, n: T, x: T)
    requires k <= |s|
    ensures x in s[..k] + [n] + s[k..] <==> x == n || x in s
  {
    assert s == s[..k] + s[k..];
  }

  lemma InWithout<T>(s: seq<T>, k: nat, x: T)
    requires k < |s| && Distinct(s)
    ensures x in Without(s, k) <==> x != s[k] && x in s
  {
    assert s == s[..k] + [s[k]] + s[k + 1..];
    DistinctWithout(s, k);
  }

  lemma WithoutMiddle<T>(a: seq<T>, b: seq<T>, c: seq<T>, i: nat)
    requires i < |b|
    ensures (a + b + c)[|a| + i] == b[i]
    ensures Without(a + b + c, |a| + i) == a + Without(b, i) + c
  {
  }

  lemma WithMiddle<T>(a: seq<T>, b: seq<T>, n: T)
    ensures a + [n] + b == (a + b)[..|a|] + [n] + (a + b)[|a|..]
  {
    assert (a + b)[..|a|] == a && (a + b)[|a|..] == b;
  }

  /** Insertion puts the new node somewhere, leaves the others in order and keeps the middle tier filled. */
  lemma InsertedAddsOne<T>(t: Tiers<T>, n: T, tier: Tier) returns (k: nat)
    requires t.Filled() && Distinct(t.All()) && n !in t.All()
    ensures k == if t.second == [] || tier == First then 0
                 else if tier == Second then |t.first| else |t.first + t.second|
    ensures k <= |t.All()| && Inserted(t, n, tier).All() == t.All()[..k] + [n] + t.All()[k..]
    ensures Inserted(t, n, tier).Filled() && Distinct(Inserted(t, n, tier).All())
  {
    var u := Inserted(t, n, tier);
    if t.second == [] {
      k := 0;
    } else {
      match tier
      case First =>
        k := 0;
        assert u.All() == [] + [n] + t.All();
      case Second =>
        k := |t.first|;
        assert u.All() == t.first + [n] + (t.second + t.third);
        assert t.All() == t.first + (t.second + t.third);
        WithMiddle(t.first, t.second + t.third, n);
      case Third =>
        k := |t.first + t.second|;
        WithMiddle(t.first + t.second, t.third, n);
        assert u.All() == t.first + t.second + [n] + t.third;
    }
    DistinctWith(t.All(), k, n);
  }

  lemma FirstWithout<T>(t: Tiers<T>, i: nat)
    requires i < |t.first|
    ensures t.All()[i] == t.first[i] && t.(first := Without(t.first, i)).All() == Without(t.All(), i)
  {
    var f, rest := t.first, t.second + t.third;
    assert t.All() == [] + f + rest;
    WithoutMiddle([], f, rest, i);
    assert t.(first := Without(f, i)).All() == [] + Without(f, i) + rest;
  }

  lemma SecondWithout<T>(t: Tiers<T>, i: nat)
    requires i < |t.second|
    ensures t.All()[|t.first| + i] == t.second[i]
    ensures t.(second := Without(t.second, i)).All() == Without(t.All(), |t.first| + i)
    ensures |t.second| == 1 ==> Refilled(t).All() == Without(t.All(), |t.first| + i)
  {
    WithoutMiddle(t.first, t.second, t.third, i);
    RefilledKeepsOthers(t);
    if |t.second| == 1 {
      assert Without(t.second, i) == [];
      assert t.first + [] + t.third == t.first + t.third;
    }
  }

  lemma ThirdWithout<T>(t: Tiers<T>, i: nat)
    requires i < |t.third|
    ensures t.All()[|t.first + t.second| + i] == t.third[i]
    ensures t.(third := Without(t.third, i)).All() == Without(t.All(), |t.first + t.second| + i)
  {
    var l, rest := t.third, t.first + t.second;
    assert t.All() == rest + l + [];
    WithoutMiddle(rest, l, [], i);
    assert t.(third := Without(l, i)).All() == rest + Without(l, i) + [];
  }

  /** Where the node to erase sits in the whole list. */
  lemma ErasedAt<T>(t: Tiers<T>, n: T) returns (k: nat)
    requires t.Filled() && n in t.All()
    ensures k < |t.All()| && t.All()[k] == n && Erased(t, n).All() == Without(t.All(), k)
    ensures Erased(t, n).Filled()
  {
    if n in t.first {
      k := IndexOf(t.first, n);
      FirstWithout(t, k);
    } else if n in t.second {
      k := |t.first| + IndexOf(t.second, n);
      SecondWithout(t, IndexOf(t.second, n));
    } else {
      k := |t.first + t.second| + IndexOf(t.third, n);
      ThirdWithout(t, IndexOf(t.third, n));
    }
  }

  /** Erasure takes out exactly that node, leaves the others in order and keeps the middle tier filled. */
  lemma ErasedRemovesOne<T>(t: Tiers<T>, n: T) returns (k: nat)
    requires t.Filled() && Distinct(t.All()) && n in t.All()
    ensures k < |t.All()| && t.All()[k] == n && Erased(t, n).All() == Without(t.All(), k)
    ensures Erased(t, n).Filled() && Distinct(Erased(t, n).All()) && n !in Erased(t, n).All()
  {
    k := ErasedAt(t, n);
    DistinctWithout(t.All(), k);
  }

  lemma RefilledKeepsOthers<T>(t: Tiers<T>)
    ensures Refilled(t).All() == t.first + t.third
  {
  }

  ghost predicate InFirst<T>(t: Tiers<T>, n: T) { n in t.first && n !in t.second && n !in t.third }
  ghost predicate InSecond<T>(t: Tiers<T>, n: T) { n !in t.first && n in t.second && n !in t.third }
  ghost predicate InThird<T>(t: Tiers<T>, n: T) { n !in t.first && n !in t.second && n in t.third }

  lemma InOneTier<T>(t: Tiers<T>, n: T)
    requires Distinct(t.All()) && n in t.All()
    ensures InFirst(t, n) || InSecond(t, n) || InThird(t, n)
    ensures Distinct(t.first) && Distinct(t.second) && Distinct(t.third)
  {
    var s, f, m := t.All(), |t.first|, |t.second|;
    assert forall i :: 0 <= i < f ==> t.first[i] == s[i];
    assert forall i :: 0 <= i < m ==> t.second[i] == s[f + i];
    assert forall i :: 0 <= i < |t.third| ==> t.third[i] == s[f + m + i];
  }

  /** Erasure of a node at either end of a tier. */
  lemma ErasedAtEnds<T>(t: Tiers<T>, n: T)
    requires Distinct(t.All()) && n in t.All()
    ensures t.first != [] && n == t.first[0] ==> Erased(t, n) == t.(first := t.first[1..])
    ensures t.second != [] && n == t.second[0] ==>
      Erased(t, n) == if |t.second| == 1 then Refilled(t) else t.(second := t.second[1..])
    ensures |t.second| > 1 && n == t.second[|t.second| - 1] ==> Erased(t, n) == t.(second := t.second[..|t.second| - 1])
    ensures t.third != [] && n == t.third[0] ==> Erased(t, n) == t.(third := t.third[1..])
  {
    InOneTier(t, n);
    if n in t.first {
      WithoutEnds(t.first, n);
    } else if n in t.second {
      WithoutEnds(t.second, n);
    } else {
      WithoutEnds(t.third, n);
    }
  }

  /** What removal of one element does to the two ends of a sequence. */
  lemma WithoutEnds<T>(s: seq<T>, n: T)
    requires Distinct(s) && n in s
    ensures var u := Without(s, IndexOf(s, n));
      && (n == s[0] ==> u == s[1..])
      && (n != s[0] ==> u != [] && u[0] == s[0])
      && (n == s[|s| - 1] ==> u == s[..|s| - 1])
      && (n != s[|s| - 1] ==> u != [] && u[|u| - 1] == s[|s| - 1])
  {
    var i := IndexOf(s, n);
    var u := Without(s, i);
    if i == 0 { assert u == s[1..]; } else { assert u[0] == s[0] != n; }
    if i == |s| - 1 { assert u == s[..i]; } else { assert u[|u| - 1] == s[|s| - 1] != n; }
  }
}
