/**
 The mark bits of one page group: one bit for each 16 bytes of the 512 KiB that the group spans, in
 32-bit words, with the highest bit of a word for the lowest address. A word is given as the set of
 its bits that are one.
 */
module Bitmaps {

  type Addr = nat

  const GROUP_SPAN: nat := 0x8_0000
  const INDEXED_BYTES: nat := 0x1000
  const WORDS: nat := 0x400

  // ------------------------------------------------------------------ where the bit of an address is

  function Header(a: Addr): Addr { a - a % GROUP_SPAN }

  function Line(a: Addr): nat { (a - Header(a)) / 32 / 16 }

  function Bit(a: Addr): nat { 31 - (a - Header(a)) / 16 % 32 }

  /** Every location lies in the words that ResetBitmap clears. */
  lemma LocationInRange(a: Addr)
    ensures Line(a) < WORDS && Line(a) * 4 + 4 <= INDEXED_BYTES && Bit(a) < 32
  {
  }

  /** Two addresses of a group have the same location exactly when they are in the same 16 bytes. */
  lemma LocationIsGranule(a: Addr, b: Addr)
    requires Header(a) == Header(b)
    ensures Line(a) == Line(b) && Bit(a) == Bit(b) <==> a / 16 == b / 16
  {
    var o, p := a - Header(a), b - Header(b);
    assert o / 32 / 16 == o / 16 / 32 && p / 32 / 16 == p / 16 / 32;
    assert Header(a) % 16 == 0;
    assert a / 16 == Header(a) / 16 + o / 16 && b / 16 == Header(a) / 16 + p / 16;
  }

  /** Any two objects 16 bytes apart have bits of their own. */
  lemma ObjectsHaveTheirOwnBits(a: Addr, b: Addr)
    requires a + 16 <= b && Header(a) == Header(b)
    ensures !(Line(a) == Line(b) && Bit(a) == Bit(b))
  {
    LocationIsGranule(a, b);
  }

  function SlotAt(start: Addr, slotSize: nat, i: nat): Addr {
    if i == 0 then start else SlotAt(start, slotSize, i - 1) + slotSize
  }

  lemma {:induction false} SlotsApart(start: Addr, slotSize: nat, i: nat, j: nat)
    requires i < j
    ensures SlotAt(start, slotSize, i) + slotSize <= SlotAt(start, slotSize, j)
  {
    if i < j - 1 { SlotsApart(start, slotSize, i, j - 1); }
  }

  /** So do the slots of a run, whatever its size class: no slot has fewer than 16 bytes. */
  lemma SlotsHaveTheirOwnBits(start: Addr, slotSize: nat, i: nat, j: nat)
    requires 16 <= slotSize && i < j
    requires Header(SlotAt(start, slotSize, i)) == Header(SlotAt(start, slotSize, j))
    ensures var a, b := SlotAt(start, slotSize, i), SlotAt(start, slotSize, j);
      !(Line(a) == Line(b) && Bit(a) == Bit(b))
  {
    SlotsApart(start, slotSize, i, j);
    ObjectsHaveTheirOwnBits(SlotAt(start, slotSize, i), SlotAt(start, slotSize, j));
  }

  // ------------------------------------------------------------------ the bitmap of a group

  class Bitmap {
    const header: Addr
    const words: array<set<nat>>

    ghost predicate Valid() {
      words.Length == WORDS
    }

    predicate Marked(a: Addr)
      requires Valid()
      reads words
    {
      LocationInRange(a);
      Bit(a) in words[Line(a)]
    }

    /** Fresh memory is all zero. */
    constructor (header: Addr)
      ensures Valid() && fresh(words) && this.header == header
      ensures forall a: Addr :: !Marked(a)
    {
      this.header := header;
      words := new set<nat>[WORDS](_ => {});
    }

    /** Tests and sets in one step; true when the object was marked already. No other object changes. */
    method MarkObject(a: Addr) returns (already: bool)
      requires Valid() && Header(a) == header
      modifies words
      ensures already == old(Marked(a))
      ensures forall b: Addr :: Header(b) == header ==> (Marked(b) <==> old(Marked(b)) || b / 16 == a / 16)
    {
      LocationInRange(a);
      var line := Line(a);
      already := Bit(a) in words[line];
      if !already {
        words[line] := words[line] + {Bit(a)};
      }
      forall b: Addr | Header(b) == header
        ensures Marked(b) <==> old(Marked(b)) || b / 16 == a / 16
      {
        LocationIsGranule(a, b);
      }
    }

    method UnMarkObject(a: Addr)
      requires Valid() && Header(a) == header
      modifies words
      ensures forall b: Addr :: Header(b) == header ==> (Marked(b) <==> old(Marked(b)) && b / 16 != a / 16)
    {
      LocationInRange(a);
      var line := Line(a);
      words[line] := words[line] - {Bit(a)};
      forall b: Addr | Header(b) == header
        ensures Marked(b) <==> old(Marked(b)) && b / 16 != a / 16
      {
        LocationIsGranule(a, b);
      }
    }

    /** Clears the indexed bytes, which hold every bit there is. */
    method ResetBitmap()
      requires Valid()
      modifies words
      ensures forall a: Addr :: !Marked(a)
    {
      var i := 0;
      while i < INDEXED_BYTES / 4
        invariant i <= WORDS && forall k :: 0 <= k < i ==> words[k] == {}
      {
        words[i] := {};
        i := i + 1;
      }
      forall a: Addr ensures !Marked(a) { LocationInRange(a); }
    }
  }
}
