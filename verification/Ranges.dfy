/** Ranges of numbers as sets. */
module Ranges {
  function Range(lo: nat, hi: nat): (r: set<nat>)
    requires lo <= hi
    ensures forall c :: c in r <==> lo <= c < hi
    ensures |r| == hi - lo
    decreases hi - lo
  {
    if lo == hi then {} else Range(lo, hi - 1) + {hi - 1}
  }
}
