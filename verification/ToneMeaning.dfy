/**
 * What a tone correlator's power measures: it does not depend on where in its
 * turn the tone stands, and it is the square of the sample's level, to scale.
 */
module ToneMeaning {
  import opened Arith
  import opened Sums
  import opened Correlator

  function Negated(s: seq<int>): (n: seq<int>)
    ensures |n| == |s|
  {
    seq(|s|, k requires 0 <= k < |s| => -s[k])
  }

  lemma {:induction false} SumNegated(s: seq<int>)
    ensures Sum(Negated(s)) == -Sum(s)
  {
    if s != [] {
      SumNegated(s[..|s| - 1]);
      assert Negated(s)[..|s| - 1] == Negated(s[..|s| - 1]);
    }
  }

  function HalfTurnOn(p: int): int {
    (p + 0x8000_0000) % 0x1_0000_0000
  }

  function QuarterTurnOn(p: int): int {
    (p + 0x4000_0000) % 0x1_0000_0000
  }

  // Half a turn on, the table reads the opposite.
  ghost predicate Alternates(sine: Table) {
    forall p {:trigger HalfTurnOn(p)} :: 0 <= p < 0x1_0000_0000 ==> sine(HalfTurnOn(p)) == -sine(p)
  }

  function Advanced(sine: Table): Table {
    p => sine(QuarterTurnOn(p))
  }

  lemma PhaseRange(inc: nat, k: nat)
    ensures 0 <= PhaseAt(inc, k) < 0x1_0000_0000
  {
  }

  lemma TwoQuarters(p: nat)
    requires p < 0x1_0000_0000
    ensures QuarterTurnOn(QuarterTurnOn(p)) == HalfTurnOn(p)
  {
  }

  lemma ReferencesAre(sine: Table, phase: nat, x: int)
    requires phase < 0x1_0000_0000
    ensures Contribution(sine, phase, 0, x) == x * sine(phase)
    ensures Contribution(sine, phase, 0x4000_0000, x) == x * sine(QuarterTurnOn(phase))
  {
  }

  lemma TimesOpposite(x: int, s: int)
    ensures x * -s == -(x * s)
  {
  }

  lemma AdvancedReference(sine: Table, phase: nat, x: int)
    requires Alternates(sine) && phase < 0x1_0000_0000
    ensures Contribution(Advanced(sine), phase, 0, x) == Contribution(sine, phase, 0x4000_0000, x)
    ensures Contribution(Advanced(sine), phase, 0x4000_0000, x) == -Contribution(sine, phase, 0, x)
  {
    ReferencesAre(sine, phase, x);
    ReferencesAre(Advanced(sine), phase, x);
    TwoQuarters(phase);
    TimesOpposite(x, sine(phase));
    assert sine(HalfTurnOn(phase)) == -sine(phase);
    assert Advanced(sine)(QuarterTurnOn(phase)) == sine(HalfTurnOn(phase));
    hide Contribution, QuarterTurnOn, HalfTurnOn, Alternates;
  }

  lemma ProductsAt(sine: Table, inc: nat, offset: nat, xs: seq<int>, k: nat)
    requires k < |xs|
    ensures Products(sine, inc, offset, xs)[k] == Contribution(sine, PhaseAt(inc, k), offset, xs[k])
  {
    hide PhaseAt;
  }

  lemma AdvancedProducts(sine: Table, inc: nat, xs: seq<int>)
    requires Alternates(sine)
    ensures Products(Advanced(sine), inc, 0, xs) == Products(sine, inc, 0x4000_0000, xs)
    ensures Products(Advanced(sine), inc, 0x4000_0000, xs) == Negated(Products(sine, inc, 0, xs))
  {
    ProductCounts(sine, inc, xs);
    ProductCounts(Advanced(sine), inc, xs);
    hide PhaseAt, Contribution, Products, Advanced, Alternates;
    forall k | 0 <= k < |xs|
      ensures Products(Advanced(sine), inc, 0, xs)[k] == Products(sine, inc, 0x4000_0000, xs)[k]
      ensures Products(Advanced(sine), inc, 0x4000_0000, xs)[k] == -Products(sine, inc, 0, xs)[k]
    {
      PhaseRange(inc, k);
      AdvancedReference(sine, PhaseAt(inc, k), xs[k]);
      ProductsAt(sine, inc, 0, xs, k);
      ProductsAt(sine, inc, 0x4000_0000, xs, k);
      ProductsAt(Advanced(sine), inc, 0, xs, k);
      ProductsAt(Advanced(sine), inc, 0x4000_0000, xs, k);
    }
  }

  lemma ProductCounts(sine: Table, inc: nat, xs: seq<int>)
    ensures |Products(sine, inc, 0, xs)| == |Products(sine, inc, 0x4000_0000, xs)| == |xs|
  {
  }

  lemma NegatedLast(s: seq<int>, len: nat)
    ensures Last(Negated(s), len) == Negated(Last(s, len))
  {
  }

  lemma AdvancedSums(sine: Table, inc: nat, len: nat, xs: seq<int>)
    requires Alternates(sine)
    ensures Correlation(Advanced(sine), inc, 0, len, xs) == Correlation(sine, inc, 0x4000_0000, len, xs)
    ensures Correlation(Advanced(sine), inc, 0x4000_0000, len, xs) == -Correlation(sine, inc, 0, len, xs)
  {
    AdvancedProducts(sine, inc, xs);
    var p := Products(sine, inc, 0, xs);
    hide Products, Advanced;
    NegatedLast(p, len);
    SumNegated(Last(p, len));
  }

  lemma TruncOfPositive(x: int, y: int, d: nat)
    requires d > 0 && x > 0 && y == -x
    ensures TruncDiv(y, d) == -TruncDiv(x, d)
  {
    assert -y == x;
  }

  lemma TruncOdd(x: int, d: nat)
    requires d > 0
    ensures TruncDiv(-x, d) == -TruncDiv(x, d)
  {
    if x > 0 {
      TruncOfPositive(x, -x, d);
    } else if x < 0 {
      TruncOfPositive(-x, x, d);
    } else {
      DivUnique(0, d, 0, 0);
    }
  }

  lemma SquareOdd(x: int)
    ensures (-x) * (-x) == x * x
  {
  }

  // A sum of squares of two readings, in either order and of either sign.
  function Squares(i: int, q: int): int {
    i * i + q * q
  }

  lemma SquaresTurned(i: int, q: int)
    ensures Squares(q, -i) == Squares(i, q)
  {
    SquareOdd(i);
  }

  lemma ReadingsTurned(i: int, q: int, d: nat)
    requires d > 0
    ensures Squares(TruncDiv(q, d), TruncDiv(-i, d)) == Squares(TruncDiv(i, d), TruncDiv(q, d))
  {
    hide TruncDiv, Squares;
    TruncOdd(i, d);
    SquaresTurned(TruncDiv(i, d), TruncDiv(q, d));
  }

  lemma PowerIs(sine: Table, inc: nat, len: nat, xs: seq<int>)
    requires len > 0
    ensures Power(sine, inc, len, xs)
         == Squares(TruncDiv(Correlation(sine, inc, 0, len, xs), 256 * len),
                    TruncDiv(Correlation(sine, inc, 0x4000_0000, len, xs), 256 * len))
  {
    hide Correlation, TruncDiv;
  }

  // Turning the reference a quarter round swaps its two sums, up to sign, and so
  // changes nothing: the power of a tone does not depend on its phase.
  lemma PowerIgnoresPhase(sine: Table, inc: nat, len: nat, xs: seq<int>)
    requires Alternates(sine) && len > 0
    ensures Power(Advanced(sine), inc, len, xs) == Power(sine, inc, len, xs)
  {
    hide *;
    AdvancedSums(sine, inc, len, xs);
    PowerIs(sine, inc, len, xs);
    PowerIs(Advanced(sine), inc, len, xs);
    ReadingsTurned(Correlation(sine, inc, 0, len, xs), Correlation(sine, inc, 0x4000_0000, len, xs), 256 * len);
  }

  // ---------------------------------------------------------------- the scale

  lemma StillPhase(k: nat)
    ensures PhaseAt(0, k) == 0
  {
    PhaseIsMultiple(0, k);
  }

  lemma StillContribution(sine: Table, offset: nat, x: int)
    requires offset < 0x1_0000_0000
    ensures Contribution(sine, 0, offset, x) == x * sine(offset)
  {
  }

  lemma StillProducts(sine: Table, offset: nat, xs: seq<int>, x: int, n: nat)
    requires offset < 0x1_0000_0000
    ensures var p := Products(sine, 0, offset, xs + Level(n, x));
            |p| == |xs| + n && forall k :: |xs| <= k < |p| ==> p[k] == x * sine(offset)
  {
    var all := xs + Level(n, x);
    assert |Products(sine, 0, offset, all)| == |all|;
    hide PhaseAt, Products, Contribution;
    forall k | |xs| <= k < |all|
      ensures Products(sine, 0, offset, all)[k] == x * sine(offset)
    {
      ProductsAt(sine, 0, offset, all, k);
      StillPhase(k);
      StillContribution(sine, offset, x);
    }
  }

  // `n` equal samples.
  function Level(n: nat, x: int): (s: seq<int>)
    ensures |s| == n && forall k :: 0 <= k < n ==> s[k] == x
  {
    seq(n, _ => x)
  }

  lemma {:induction false} SumOfLevel(s: seq<int>, v: int)
    requires forall k :: 0 <= k < |s| ==> s[k] == v
    ensures Sum(s) == |s| * v
  {
    if s != [] {
      SumOfLevel(s[..|s| - 1], v);
      assert |s| * v == (|s| - 1) * v + v;
    }
  }

  lemma StillSum(sine: Table, offset: nat, len: nat, xs: seq<int>, x: int, n: nat)
    requires offset < 0x1_0000_0000 && 0 < len <= n
    ensures Correlation(sine, 0, offset, len, xs + Level(n, x)) == len * (x * sine(offset))
  {
    var p := Products(sine, 0, offset, xs + Level(n, x));
    StillProducts(sine, offset, xs, x, n);
    hide Products;
    assert |Last(p, len)| == len && forall k :: 0 <= k < len ==> Last(p, len)[k] == x * sine(offset);
    SumOfLevel(Last(p, len), x * sine(offset));
  }

  lemma TruncExact(v: int, d: nat)
    requires d > 0
    ensures TruncDiv(v * d, d) == v
  {
    if v < 0 {
      MulMonotone(v, -1, d);
      assert -(v * d) == -v * d;
      DivUnique(-(v * d), d, -v, 0);
    } else {
      MulMonotone(0, v, d);
      DivUnique(v * d, d, v, 0);
    }
  }

  lemma StillReading(sine: Table, offset: nat, len: nat, xs: seq<int>, y: int, n: nat)
    requires offset < 0x1_0000_0000 && 0 < len <= n
    ensures TruncDiv(Correlation(sine, 0, offset, len, xs + Level(n, 256 * y)), 256 * len) == y * sine(offset)
  {
    hide Correlation, TruncDiv, Level;
    StillSum(sine, offset, len, xs, 256 * y, n);
    var v := y * sine(offset);
    assert len * (256 * y * sine(offset)) == v * (256 * len);
    TruncExact(v, 256 * len);
  }

  // A level of 256 held for the window against a reference that stands still
  // reads exactly the reference: whatever the window, whatever came before.
  lemma PowerIsToScale(sine: Table, len: nat, xs: seq<int>, y: int, n: nat)
    requires 0 < len <= n
    ensures Power(sine, 0, len, xs + Level(n, 256 * y))
         == Squares(y * sine(0), y * sine(0x4000_0000))
  {
    hide *;
    PowerIs(sine, 0, len, xs + Level(n, 256 * y));
    StillReading(sine, 0, len, xs, y, n);
    StillReading(sine, 0x4000_0000, len, xs, y, n);
  }
}
