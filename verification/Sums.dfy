/** Sums of sample sequences, and how large they can get. */
module Sums {
  import opened Arith

  function Sum(s: seq<int>): int {
    if s == [] then 0 else Sum(s[..|s| - 1]) + s[|s| - 1]
  }

  ghost predicate Bounded(s: seq<int>, bound: int) {
    forall k :: 0 <= k < |s| ==> -bound <= s[k] <= bound
  }

  lemma {:induction false} SumBound(s: seq<int>, bound: int)
    requires Bounded(s, bound) && bound >= 0
    ensures -(|s| * bound) <= Sum(s) <= |s| * bound
  {
    if s != [] {
      SumBound(s[..|s| - 1], bound);
      assert |s| * bound == (|s| - 1) * bound + bound;
    }
  }
}
