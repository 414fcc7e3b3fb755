/** Intervals of page indices as sets. */
module PageSets {

  /** The pages [a, a+n). */
  ghost function Span(a: nat, n: nat): (s: set<nat>)
    ensures forall p: nat :: p in s <==> a <= p < a + n
    ensures |s| == n
  {
    if n == 0 then {} else Span(a, n - 1) + {a + n - 1}
  }
}
