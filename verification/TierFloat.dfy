/**
 How full a run is, computed in single precision as the program does, against the exact fraction: for
 every run the two lead to the same tier.
 */
module TierFloats {
  import T = ThreeTierLists
  import RL = RunLists

  const UNIT_24: real := 1.0 / 16777216.0 // the spacing of floats from 1/2 to 1
  const UNIT_25: real := 1.0 / 33554432.0 // and from 1/4 to 1/2

  function OnGrid(k: int, unit: real): real { k as real * unit }

  /** `v` is a multiple of `unit` nearest to `x`; of two, the even one. */
  ghost predicate Nearest(v: real, x: real, unit: real) {
    exists k: int :: v == OnGrid(k, unit) && -unit <= 2.0 * (v - x) <= unit
      && (2.0 * (v - x) == unit || 2.0 * (v - x) == -unit ==> k % 2 == 0)
  }

  /** `v` is `x` rounded to a float, for `x` from 0 to 1. */
  ghost predicate Rounds(v: real, x: real) {
    if 0.5 <= x <= 1.0 then Nearest(v, x, UNIT_24)
    else if 0.25 <= x < 0.5 then Nearest(v, x, UNIT_25)
    else -UNIT_25 <= 4.0 * (v - x) <= UNIT_25
  }

  // The two bars as floats.
  const FIRST: real := OnGrid(10066330, UNIT_24)
  const SECOND: real := OnGrid(10066330, UNIT_25)

  function FloatTier(v: real): T.Tier {
    if v > FIRST then T.First else if v > SECOND then T.Second else T.Third
  }

  lemma RoundsNear(v: real, x: real)
    requires Rounds(v, x)
    ensures -UNIT_24 <= 2.0 * (v - x) <= UNIT_24
  {
  }

  /** Two fifths: 1 - 0.4 is the float that the first bar is. */
  lemma AtFirstBar(q: real, v: real)
    requires Rounds(q, 0.4) && Rounds(v, 1.0 - q)
    ensures v == FIRST
  {
    var k: int :| q == OnGrid(k, UNIT_25) && -UNIT_25 <= 2.0 * (q - 0.4) <= UNIT_25;
    assert k == 13421773;
    assert 1.0 - q == 20132659.0 * UNIT_25;
    var j: int :| v == OnGrid(j, UNIT_24) && -UNIT_24 <= 2.0 * (v - (1.0 - q)) <= UNIT_24
      && (2.0 * (v - (1.0 - q)) == UNIT_24 || 2.0 * (v - (1.0 - q)) == -UNIT_24 ==> j % 2 == 0);
    assert j == 10066330 || j == 10066329;
  }

  /** Seven tenths: 1 - 0.7 is the float that the second bar is. */
  lemma AtSecondBar(q: real, v: real)
    requires Rounds(q, 0.7) && Rounds(v, 1.0 - q)
    ensures v == SECOND
  {
    var k: int :| q == OnGrid(k, UNIT_24) && -UNIT_24 <= 2.0 * (q - 0.7) <= UNIT_24;
    assert k == 11744051;
    assert 1.0 - q == 10066330.0 * UNIT_25;
    var j: int :| v == OnGrid(j, UNIT_25) && -UNIT_25 <= 2.0 * (v - (1.0 - q)) <= UNIT_25;
    assert j == 10066330;
  }

  /** A fraction with a small denominator is at a bar or well away from it. */
  lemma AwayFromBars(nFree: nat, maxSlots: nat, x: real)
    requires 0 < maxSlots <= 0x10_0000 && x == nFree as real / maxSlots as real
    ensures 5 * nFree == 2 * maxSlots <==> x == 0.4
    ensures 10 * nFree == 7 * maxSlots <==> x == 0.7
    ensures x != 0.4 ==> x - 0.4 > 2.0 * UNIT_24 || 0.4 - x > 2.0 * UNIT_24
    ensures x != 0.7 ==> x - 0.7 > 1.5 * UNIT_24 || 0.7 - x > 1.5 * UNIT_24
  {
    var m := maxSlots as real;
    assert x * m == nFree as real;
    assert (x - 0.4) * m == nFree as real - 0.4 * m;
    assert (x - 0.7) * m == nFree as real - 0.7 * m;
    Scaled(x - 0.4, m, (5 * nFree - 2 * maxSlots) as real / 5.0, 0.2);
    Scaled(x - 0.7, m, (10 * nFree - 7 * maxSlots) as real / 10.0, 0.1);
  }

  lemma Scaled(d: real, m: real, e: real, least: real)
    requires 0.0 < m <= 1048576.0 && d * m == e && 0.1 <= least
    ensures e == 0.0 <==> d == 0.0
    ensures e >= least ==> d >= least / 1048576.0
    ensures e <= -least ==> d <= -least / 1048576.0
  {
    if e >= least {
      assert d > 0.0;
      assert d * 1048576.0 >= d * m;
    }
    if e <= -least {
      assert d < 0.0;
      assert d * 1048576.0 <= d * m;
    }
  }

  /** The tier of a run, computed in floats, is the one that the exact fraction stands for. */
  lemma FloatTierIsExact(nFree: nat, maxSlots: nat, q: real, v: real)
    requires 0 < maxSlots <= 0x10_0000 && nFree <= maxSlots
    requires Rounds(q, nFree as real / maxSlots as real) && Rounds(v, 1.0 - q)
    ensures FloatTier(v) == RL.TierOf(1.0 - nFree as real / maxSlots as real)
  {
    var x := nFree as real / maxSlots as real;
    AwayFromBars(nFree, maxSlots, x);
    RoundsNear(q, x);
    RoundsNear(v, 1.0 - q);
    if x == 0.4 {
      AtFirstBar(q, v);
    } else if x == 0.7 {
      AtSecondBar(q, v);
    }
  }
}
