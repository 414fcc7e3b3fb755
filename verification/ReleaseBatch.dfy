/**
 The batch in which a sweeping thread adds up the releases of one run, so that each memory slot it
 touches is subtracted from only once. The byte sums start uninitialised: only the mask says which
 of them mean anything.
 */
module ReleaseBatches {
  import opened Collections
  import opened PageSets

  const SLOTS: nat := 256
  const PER_MASK: nat := 64

  /** Different numbers below `n`, with one missing, are fewer than `n`. */
  lemma RoomLeft(touched: seq<nat>, slot: nat, n: nat)
    requires forall k :: k in touched ==> k < n
    requires Distinct(touched)
    requires slot < n && slot !in touched
    ensures |touched| < n
  {
    DistinctSize(touched);
    SubsetSize(AsSet(touched) + {slot}, Span(0, n));
  }

  class ReleaseBatch {
    const mask: array<set<nat>> // 64-bit words, as the sets of their one bits
    const bytes: array<nat>
    const touched: array<nat>
    var count: nat
    ghost var sums: map<nat, nat> // what was added for each slot

    ghost predicate Shape()
      reads this
    {
      && mask.Length == SLOTS / PER_MASK && bytes.Length == SLOTS && touched.Length == SLOTS && bytes != touched
      && count <= SLOTS
    }

    predicate Seen(slot: nat)
      requires mask.Length == SLOTS / PER_MASK && slot < SLOTS
      reads mask
    {
      slot % PER_MASK in mask[slot / PER_MASK]
    }

    ghost predicate Valid()
      reads this, mask, bytes, touched
    {
      && Shape()
      && (forall k :: k in sums ==> k < SLOTS)
      && (forall k :: 0 <= k < SLOTS ==> (Seen(k) <==> k in sums))
      && (forall k :: 0 <= k < SLOTS && k in sums ==> bytes[k] == sums[k])
      && (forall k :: k in sums <==> k in touched[..count])
      && (forall i, j :: 0 <= i < j < count ==> touched[i] != touched[j])
    }

    function Sum(sums: map<nat, nat>, k: nat): nat { if k in sums then sums[k] else 0 }

    constructor ()
      ensures Valid() && fresh(mask) && fresh(bytes) && fresh(touched) && sums == map[]
    {
      mask := new set<nat>[SLOTS / PER_MASK](_ => {});
      bytes := new nat[SLOTS];
      touched := new nat[SLOTS];
      count, sums := 0, map[];
    }

    method MarkSeen(slot: nat)
      requires mask.Length == SLOTS / PER_MASK && slot < SLOTS
      modifies mask
      ensures forall k :: 0 <= k < SLOTS ==> (Seen(k) <==> old(Seen(k)) || k == slot)
    {
      mask[slot / PER_MASK] := mask[slot / PER_MASK] + {slot % PER_MASK};
    }

    method Add(slot: nat, size: nat)
      requires Valid() && slot < SLOTS
      modifies this, mask, bytes, touched
      ensures Valid() && sums == old(sums)[slot := Sum(old(sums), slot) + size]
    {
      if Seen(slot) {
        bytes[slot] := bytes[slot] + size;
        sums := sums[slot := sums[slot] + size];
        return;
      }
      assert slot !in touched[..count];
      RoomLeft(touched[..count], slot, SLOTS);
      MarkSeen(slot);
      touched[count] := slot;
      count := count + 1;
      bytes[slot] := size;
      sums := sums[slot := size];
      assert touched[..count] == old(touched[..count]) + [slot];
    }

    /** The end of the batch: each touched slot gives back its sum, once. */
    method Close(committed: array<int>)
      requires Valid() && committed.Length == SLOTS
      modifies committed
      ensures forall k :: 0 <= k < SLOTS ==> committed[k] == old(committed[k]) - Sum(sums, k)
    {
      var i := 0;
      while i < count
        invariant i <= count && Valid()
        invariant forall k :: 0 <= k < SLOTS ==>
          committed[k] == old(committed[k]) - if k in touched[..i] then Sum(sums, k) else 0
      {
        var slot := touched[i];
        assert slot in touched[..count] && slot !in touched[..i];
        committed[slot] := committed[slot] - bytes[slot];
        assert touched[..i + 1] == touched[..i] + [slot];
        i := i + 1;
      }
    }
  }
}
