/** Hamming distance between bit words of equal length. */
module Hamming {

  function Differ(a: bool, b: bool): nat {
    if a != b then 1 else 0
  }

  // In how many places two words differ.
  function Distance(a: seq<bool>, b: seq<bool>): (d: nat)
    requires |a| == |b|
    ensures d <= |a|
  {
    if a == [] then 0 else Distance(a[..|a| - 1], b[..|b| - 1]) + Differ(a[|a| - 1], b[|b| - 1])
  }

  lemma {:induction false} DistanceZero(a: seq<bool>, b: seq<bool>)
    requires |a| == |b|
    ensures Distance(a, b) == 0 <==> a == b
  {
    if a != [] {
      DistanceZero(a[..|a| - 1], b[..|b| - 1]);
      assert a == a[..|a| - 1] + [a[|a| - 1]];
      assert b == b[..|b| - 1] + [b[|b| - 1]];
    }
  }

  lemma {:induction false} DistanceSymmetric(a: seq<bool>, b: seq<bool>)
    requires |a| == |b|
    ensures Distance(a, b) == Distance(b, a)
  {
    if a != [] {
      DistanceSymmetric(a[..|a| - 1], b[..|b| - 1]);
    }
  }

  lemma {:induction false} TriangleInequality(a: seq<bool>, b: seq<bool>, c: seq<bool>)
    requires |a| == |b| == |c|
    ensures Distance(a, c) <= Distance(a, b) + Distance(b, c)
  {
    if a != [] {
      TriangleInequality(a[..|a| - 1], b[..|b| - 1], c[..|c| - 1]);
    }
  }

  lemma {:induction false} DistanceAppend(a: seq<bool>, b: seq<bool>, c: seq<bool>, d: seq<bool>)
    requires |a| == |b| && |c| == |d|
    ensures Distance(a + c, b + d) == Distance(a, b) + Distance(c, d)
    decreases |c|
  {
    if c == [] {
      assert a + c == a && b + d == b;
    } else {
      var n := |c| - 1;
      DistanceAppend(a, b, c[..n], d[..n]);
      assert (a + c)[..|a + c| - 1] == a + c[..n] && (b + d)[..|b + d| - 1] == b + d[..n];
    }
  }

  lemma DistanceOfOne(x: bool, y: bool)
    ensures Distance([x], [y]) == Differ(x, y)
  {
    assert [x][..0] == [] && [y][..0] == [];
  }
}
