/**
 * One tone's sliding quadrature correlator: the incremental ring sums, the
 * multiply-shift that replaces the normalising division, and the proof that
 * neither ever departs from exact arithmetic. The sine table is any function
 * into [-32767, 32767].
 */
module Correlator {
  import opened Arith
  import opened Sums

  const MAX_WINDOW: nat := 240
  const RECIP_MAX_LEN: nat := 181
  const TURN: nat := 0x1_0000_0000
  const QUARTER_TURN: nat := 0x4000_0000
  const RECIP_SCALE: nat := 0x80_0000_0000 // 2^39
  const U64: nat := 0x1_0000_0000_0000_0000
  const I64_MAX: int := 0x7FFF_FFFF_FFFF_FFFF
  const SAMPLE_MAX: int := 0x2_0000 // 2^17
  const PRODUCT_MAX: int := 0x1_0000_0000 // 2^32

  type Table = int -> int

  ghost predicate Amplitude(sine: Table) {
    forall phase :: -32767 <= sine(phase) <= 32767
  }

  // Two's-complement wrap-around of an i64.
  function Wrap64(x: int): int {
    (x + I64_MAX + 1) % U64 - I64_MAX - 1
  }

  function Saturate64(x: int): int {
    if x > I64_MAX then I64_MAX else if x < -I64_MAX - 1 then -I64_MAX - 1 else x
  }

  lemma WrapsNothing(x: int)
    requires -I64_MAX - 1 <= x <= I64_MAX
    ensures Wrap64(x) == x && Saturate64(x) == x
  {
  }

  // Rust's truncating division.
  function TruncDiv(x: int, d: nat): int
    requires d > 0
  {
    if x < 0 then -(-x / d) else x / d
  }

  // ---------------------------------------------------------------- the window, as history

  function PhaseAt(inc: nat, k: nat): nat {
    if k == 0 then 0 else (PhaseAt(inc, k - 1) + inc) % TURN
  }

  lemma ModAdd(p: nat, q: nat)
    ensures (p % TURN + q) % TURN == (p + q) % TURN
  {
    var r := (p % TURN + q) % TURN;
    DivUnique(p + q, TURN, p / TURN + (p % TURN + q) / TURN, r);
  }

  // The reference oscillator is free-running: sample `k` sees `k` increments.
  lemma {:induction false} PhaseIsMultiple(inc: nat, k: nat)
    ensures PhaseAt(inc, k) == k * inc % TURN
  {
    if k > 0 {
      PhaseIsMultiple(inc, k - 1);
      ModAdd((k - 1) * inc, inc);
      assert k * inc == (k - 1) * inc + inc;
    }
  }

  // Sample times reference for every sample heard.
  function Products(sine: Table, inc: nat, offset: nat, xs: seq<int>): seq<int> {
    seq(|xs|, k requires 0 <= k < |xs| => xs[k] * sine((PhaseAt(inc, k) + offset) % TURN))
  }

  function Last(s: seq<int>, len: nat): seq<int> {
    if |s| <= len then s else s[|s| - len..]
  }

  lemma {:induction false} SumCons(x: int, s: seq<int>)
    ensures Sum([x] + s) == x + Sum(s)
  {
    if s == [] {
      assert [x] + s == [x] && [x][..0] == [];
    } else {
      var n := |s| - 1;
      SumCons(x, s[..n]);
      assert ([x] + s)[..|[x] + s| - 1] == [x] + s[..n];
    }
  }

  lemma LastSlides(p: seq<int>, x: int, len: nat)
    requires len > 0
    ensures |Last(p, len)| == if |p| >= len then len else |p|
    ensures |p| >= len ==> Last(p, len)[0] == p[|p| - len] && Last(p + [x], len) == Last(p, len)[1..] + [x]
    ensures |p| < len ==> Last(p + [x], len) == Last(p, len) + [x]
  {
  }

  // The incremental update: in comes the new product, out goes the one that left.
  lemma SlideSum(p: seq<int>, x: int, len: nat)
    requires len > 0
    ensures Sum(Last(p + [x], len)) == Sum(Last(p, len)) - (if |p| >= len then p[|p| - len] else 0) + x
  {
    var w := Last(p, len);
    LastSlides(p, x, len);
    hide Last;
    if |p| >= len {
      SumCons(w[0], w[1..]);
      assert w == [w[0]] + w[1..];
      assert (w[1..] + [x])[..|w| - 1] == w[1..];
    } else {
      assert (w + [x])[..|w|] == w;
    }
  }

  lemma ProductBound(sine: Table, inc: nat, offset: nat, xs: seq<int>, peak: nat)
    requires Amplitude(sine) && Bounded(xs, peak)
    ensures Bounded(Products(sine, inc, offset, xs), peak * 32767)
  {
    hide PhaseAt;
    forall k | 0 <= k < |xs|
      ensures -(peak * 32767) <= Products(sine, inc, offset, xs)[k] <= peak * 32767
    {
      var s := sine((PhaseAt(inc, k) + offset) % TURN);
      MulBound(xs[k], s, peak, 32767);
    }
  }

  // The correlation sum over the window after `xs`.
  function Correlation(sine: Table, inc: nat, offset: nat, len: nat, xs: seq<int>): int {
    Sum(Last(Products(sine, inc, offset, xs), len))
  }

  lemma CorrelationBound(sine: Table, inc: nat, offset: nat, len: nat, xs: seq<int>, peak: nat)
    requires Amplitude(sine) && Bounded(xs, peak)
    ensures Abs(Correlation(sine, inc, offset, len, xs)) <= len * (peak * 32767)
  {
    var p := Products(sine, inc, offset, xs);
    ProductBound(sine, inc, offset, xs, peak);
    SumBound(Last(p, len), peak * 32767);
    MulMonotone(|Last(p, len)|, len, peak * 32767);
  }

  // ---------------------------------------------------------------- normalisation

  // Round-up reciprocal; zero marks a window too long for the fast path.
  function Reciprocal(len: nat): nat
    requires len > 0
  {
    if len <= RECIP_MAX_LEN then (RECIP_SCALE + len - 1) / len else 0
  }

  function Scale(sum: int, len: nat, recip: nat): int
    requires len > 0
  {
    var x := Abs(sum) / 256;
    var q := if recip != 0 then x * recip % U64 / RECIP_SCALE else x / len;
    if sum < 0 then -q else q
  }

  lemma ReciprocalError(n: nat)
    requires 1 <= n <= RECIP_MAX_LEN
    ensures var m := Reciprocal(n); RECIP_SCALE <= m * n < RECIP_SCALE + n && m > 0
  {
    var a := RECIP_SCALE + n - 1;
    assert a == (a / n) * n + a % n;
  }

  lemma QuotientBelow(x: nat, n: nat, b: nat)
    requires n > 0 && x < n * b
    ensures x / n < b
  {
    assert x == (x / n) * n + x % n;
    if x / n >= b {
      MulMonotone(b, x / n, n);
    }
  }

  // How far the rounded-up reciprocal carries the product past the multiple.
  lemma Excess(n: nat, m: nat, q: nat, r: nat, e: nat)
    requires 1 <= n <= RECIP_MAX_LEN && q < 0x100_0000 && r < n && e < n && m * n == RECIP_SCALE + e
    ensures 0 <= q * e + r * m < RECIP_SCALE
  {
    SmallRemainder(n, m, q, e);
    MulMonotone(r, n - 1, m);
    assert (n - 1) * m == m * n - m;
    MulMonotone(0, q, e);
    MulMonotone(0, r, m);
  }

  lemma ProductParts(n: nat, m: nat, q: nat, r: nat, e: nat)
    requires m * n == RECIP_SCALE + e
    ensures (q * n + r) * m == q * RECIP_SCALE + (q * e + r * m)
  {
    assert (q * n + r) * m == q * (m * n) + r * m;
    assert q * (m * n) == q * RECIP_SCALE + q * e;
  }

  lemma ShiftDivides(product: nat, q: nat, low: nat)
    requires product == q * RECIP_SCALE + low && low < RECIP_SCALE && q < 0x100_0000
    ensures product < U64 && product / RECIP_SCALE == q
  {
  }

  lemma MultiplyShiftParts(x: nat, n: nat, m: nat, q: nat, r: nat)
    requires 1 <= n <= RECIP_MAX_LEN && RECIP_SCALE <= m * n < RECIP_SCALE + n
    requires x == q * n + r && r < n && q < 0x100_0000
    ensures x * m < U64 && x * m / RECIP_SCALE == q
  {
    var e := m * n - RECIP_SCALE;
    Excess(n, m, q, r, e);
    ProductParts(n, m, q, r, e);
    ShiftDivides(x * m, q, q * e + r * m);
  }

  // The source's bound, spelt out: with x < n * 2^24 and n <= 181 the rounded-up
  // reciprocal never carries the product past the next multiple, nor past 2^64.
  lemma MultiplyShiftIsDivision(x: nat, n: nat)
    requires 1 <= n <= RECIP_MAX_LEN && x < n * 0x100_0000
    ensures x * Reciprocal(n) < U64
    ensures x * Reciprocal(n) / RECIP_SCALE == x / n
  {
    ReciprocalError(n);
    hide Reciprocal;
    assert x == (x / n) * n + x % n;
    QuotientBelow(x, n, 0x100_0000);
    MultiplyShiftParts(x, n, Reciprocal(n), x / n, x % n);
  }

  lemma SmallRemainder(n: nat, m: nat, q: nat, e: nat)
    requires 1 <= n <= RECIP_MAX_LEN && q < 0x100_0000 && e < n && RECIP_SCALE <= m * n
    ensures (q + 1) * e < m
    ensures q * e + e < m
  {
    var k := (q + 1) * e;
    assert k == q * e + e;
    MulMonotone(q + 1, 0x100_0000, e);
    MulMonotone(e, n - 1, 0x100_0000);
    if k >= m {
      MulMonotone(m, k, n);
      MulMonotone(k, 0x100_0000 * (n - 1), n);
      assert 0x100_0000 * (n - 1) * n == 0x100_0000 * ((n - 1) * n);
      MulMonotone(n - 1, 180, n);
    }
  }

  lemma QuotientFits(a: nat, len: nat)
    requires a < len * PRODUCT_MAX
    ensures a / 256 < len * 0x100_0000
  {
    assert len * PRODUCT_MAX == (len * 0x100_0000) * 256;
  }

  lemma Unwrapped(x: nat)
    requires x < U64
    ensures x % U64 == x
  {
  }

  lemma ScaleOfMagnitude(a: nat, len: nat)
    requires 1 <= len <= MAX_WINDOW && a < len * PRODUCT_MAX
    ensures Scale(a, len, Reciprocal(len)) == a / 256 / len
  {
    var x, recip := a / 256, Reciprocal(len);
    QuotientFits(a, len);
    if len <= RECIP_MAX_LEN {
      MultiplyShiftIsDivision(x, len);
      ReciprocalError(len);
      hide Reciprocal;
      Unwrapped(x * recip);
    }
  }

  lemma ScaleOfNegated(sum: int, len: nat, recip: nat)
    requires sum < 0 && len > 0
    ensures Scale(sum, len, recip) == -Scale(-sum, len, recip)
  {
  }

  // Bit-identical to the truncating division by 256 * len, for every window
  // length and every sum the correlator can hold.
  lemma ScaleIsDivision(sum: int, len: nat)
    requires 1 <= len <= MAX_WINDOW && Abs(sum) < len * PRODUCT_MAX
    ensures Scale(sum, len, Reciprocal(len)) == TruncDiv(sum, 256 * len)
  {
    hide Scale, Reciprocal;
    ScaleOfMagnitude(Abs(sum), len);
    DivDiv(Abs(sum), 256, len);
    if sum < 0 {
      ScaleOfNegated(sum, len, Reciprocal(len));
    }
  }

  // ---------------------------------------------------------------- the correlator

  // What one push returns: the window's power, exactly normalised.
  function Power(sine: Table, inc: nat, len: nat, xs: seq<int>): int
    requires len > 0
  {
    var i := TruncDiv(Correlation(sine, inc, 0, len, xs), 256 * len);
    var q := TruncDiv(Correlation(sine, inc, QUARTER_TURN, len, xs), 256 * len);
    i * i + q * q
  }

  lemma DivBound(a: nat, d: nat, c: nat)
    requires 0 < d && a <= c * d
    ensures a / d <= c
  {
    assert a == (a / d) * d + a % d;
    if a / d > c {
      MulMonotone(c + 1, a / d, d);
    }
  }

  lemma DivIsNat(a: nat, d: nat)
    requires d > 0
    ensures a / d >= 0
  {
  }

  lemma TruncMagnitude(x: int, d: nat)
    requires d > 0
    ensures Abs(TruncDiv(x, d)) == Abs(x) / d
  {
    DivIsNat(Abs(x), d);
  }

  lemma TruncBound(x: int, d: nat, c: nat)
    requires d > 0 && Abs(x) <= c * d
    ensures Abs(TruncDiv(x, d)) <= c
  {
    TruncMagnitude(x, d);
    hide TruncDiv;
    DivBound(Abs(x), d, c);
  }

  lemma ScaledPeak(len: nat, peak: nat)
    ensures len * (peak * 32767) <= (peak * 128) * (256 * len)
  {
    var t := len * peak;
    assert len * (peak * 32767) == 32767 * t;
    assert (peak * 128) * (256 * len) == 32768 * t;
  }

  lemma ScaledBound(sum: int, len: nat, peak: nat)
    requires len > 0 && Abs(sum) <= len * (peak * 32767)
    ensures Abs(TruncDiv(sum, 256 * len)) <= peak * 128
  {
    hide TruncDiv;
    ScaledPeak(len, peak);
    TruncBound(sum, 256 * len, peak * 128);
  }

  lemma SquareBound(x: int, b: nat)
    requires Abs(x) <= b
    ensures 0 <= x * x <= b * b
  {
    MulBound(x, x, b, b);
  }

  lemma PowerBound(sine: Table, inc: nat, len: nat, xs: seq<int>, peak: nat)
    requires Amplitude(sine) && Bounded(xs, peak) && len > 0
    ensures 0 <= Power(sine, inc, len, xs) <= 2 * ((peak * 128) * (peak * 128))
  {
    var a, b := Correlation(sine, inc, 0, len, xs), Correlation(sine, inc, QUARTER_TURN, len, xs);
    CorrelationBound(sine, inc, 0, len, xs, peak);
    CorrelationBound(sine, inc, QUARTER_TURN, len, xs, peak);
    ScaledBound(a, len, peak);
    ScaledBound(b, len, peak);
    SquareBound(TruncDiv(a, 256 * len), peak * 128);
    SquareBound(TruncDiv(b, 256 * len), peak * 128);
  }

  // ---------------------------------------------------------------- one push, step by step

  const PRODUCT_BOUND: nat := SAMPLE_MAX * 32767

  // `sum.wrapping_sub(old).wrapping_add(new)`: within the bounds of the window,
  // neither step ever wraps.
  method Slide(sum: int, old': int, new': int, len: nat) returns (next: int)
    requires len <= MAX_WINDOW && Abs(sum) <= len * PRODUCT_BOUND
    requires Abs(old') <= PRODUCT_BOUND && Abs(new') <= PRODUCT_BOUND
    ensures next == sum - old' + new'
  {
    MulMonotone(len, MAX_WINDOW, PRODUCT_BOUND);
    WrapsNothing(sum - old');
    WrapsNothing(sum - old' + new');
    next := Wrap64(Wrap64(sum - old') + new');
  }

  // A sample against the reference oscillator at a phase.
  function Contribution(sine: Table, phase: nat, offset: nat, x: int): int {
    x * sine((phase + offset) % TURN)
  }

  // The product of sample number |xs|, and the one that it pushes out.
  function NewProduct(sine: Table, inc: nat, offset: nat, xs: seq<int>, x: int): int {
    Contribution(sine, PhaseAt(inc, |xs|), offset, x)
  }

  function OldProduct(p: seq<int>, len: nat): int {
    if 0 < len <= |p| then p[|p| - len] else 0
  }

  // Hearing one more sample appends one product.
  lemma ProductsGrow(sine: Table, inc: nat, offset: nat, xs: seq<int>, x: int)
    requires Amplitude(sine) && Bounded(xs, SAMPLE_MAX) && Abs(x) <= SAMPLE_MAX
    ensures Products(sine, inc, offset, xs + [x])
         == Products(sine, inc, offset, xs) + [NewProduct(sine, inc, offset, xs, x)]
    ensures Bounded(Products(sine, inc, offset, xs), PRODUCT_BOUND)
    ensures Abs(NewProduct(sine, inc, offset, xs, x)) <= PRODUCT_BOUND
  {
    hide PhaseAt;
    ProductBound(sine, inc, offset, xs, SAMPLE_MAX);
    MulBound(x, sine((PhaseAt(inc, |xs|) + offset) % TURN), SAMPLE_MAX, 32767);
  }

  // One running sum: what it becomes, and why the wrapping steps are safe.
  lemma SumSlides(p: seq<int>, x: int, len: nat)
    requires Bounded(p, PRODUCT_BOUND) && Abs(x) <= PRODUCT_BOUND && len > 0
    ensures Bounded(p + [x], PRODUCT_BOUND)
    ensures Sum(Last(p + [x], len)) == Sum(Last(p, len)) - OldProduct(p, len) + x
    ensures Abs(Sum(Last(p, len))) <= len * PRODUCT_BOUND && Abs(OldProduct(p, len)) <= PRODUCT_BOUND
  {
    SlideSum(p, x, len);
    SumBound(Last(p, len), PRODUCT_BOUND);
    MulMonotone(|Last(p, len)|, len, PRODUCT_BOUND);
  }

  lemma NormalisedSum(sum: int, len: nat)
    requires 1 <= len <= MAX_WINDOW && Abs(sum) <= len * PRODUCT_BOUND
    ensures Scale(sum, len, Reciprocal(len)) == TruncDiv(sum, 256 * len)
    ensures Abs(TruncDiv(sum, 256 * len)) <= SAMPLE_MAX * 128
  {
    ScaleIsDivision(sum, len);
    ScaledBound(sum, len, SAMPLE_MAX);
  }

  lemma PowerFits(i: int, q: int)
    requires Abs(i) <= SAMPLE_MAX * 128 && Abs(q) <= SAMPLE_MAX * 128
    ensures Saturate64(Saturate64(i * i) + Saturate64(q * q)) == i * i + q * q
  {
    SquareBound(i, SAMPLE_MAX * 128);
    SquareBound(q, SAMPLE_MAX * 128);
  }

  /**
   * The source's correlator. The ghost history `heard` is every sample pushed;
   * `Valid` says that the ring holds exactly the products of its last `len`, and
   * the running sums are exactly theirs.
   */
  class ToneCorrelator {
    const sine: Table
    const window: array<(int, int)>
    const len: nat
    const phaseInc: nat
    const recip: nat
    var pos: nat
    var phase: nat
    var iSum: int
    var qSum: int
    ghost var heard: seq<int>
    ghost var base: nat // pushes before the current round of the ring

    constructor (sine: Table, phaseInc: nat, len: nat)
      requires Amplitude(sine)
      ensures Valid() && fresh(window) && heard == []
      ensures this.sine == sine && this.phaseInc == phaseInc
      ensures this.len == if len < 1 then 1 else if len > MAX_WINDOW then MAX_WINDOW else len
    {
      var n := if len < 1 then 1 else if len > MAX_WINDOW then MAX_WINDOW else len;
      this.sine := sine;
      window := new (int, int)[MAX_WINDOW](_ => (0, 0));
      this.len := n;
      this.phaseInc := phaseInc;
      recip := Reciprocal(n);
      pos, phase, iSum, qSum := 0, 0, 0, 0;
      heard, base := [], 0;
    }

    ghost function Holder(j: nat): int
      reads this`pos, this`base
    {
      if j < pos then base + j else base + j - len
    }

    // Slot by slot, the last `len` of two product sequences.
    ghost predicate Holds(ip: seq<int>, qp: seq<int>)
      reads this`pos, this`base, window
    {
      && window.Length == MAX_WINDOW && pos < len <= MAX_WINDOW
      && |ip| == |qp| == base + pos && (base == 0 || len <= base)
      && forall j :: 0 <= j < len ==>
           window[j] == if Holder(j) < 0 then (0, 0) else (ip[Holder(j)], qp[Holder(j)])
    }

    // The ring and the running sums are those of two product sequences.
    ghost predicate Tracks(ip: seq<int>, qp: seq<int>)
      reads this`pos, this`base, this`iSum, this`qSum, window
    {
      && 1 <= len && Holds(ip, qp)
      && Bounded(ip, PRODUCT_BOUND) && Bounded(qp, PRODUCT_BOUND)
      && iSum == Sum(Last(ip, len)) && qSum == Sum(Last(qp, len))
    }

    ghost predicate Valid()
      reads this, window
    {
      && Amplitude(sine) && 1 <= len <= MAX_WINDOW && recip == Reciprocal(len)
      && phase == PhaseAt(phaseInc, |heard|)
      && Bounded(heard, SAMPLE_MAX)
      && Tracks(Products(sine, phaseInc, 0, heard), Products(sine, phaseInc, QUARTER_TURN, heard))
    }

    // Overwrites the oldest slot and returns what it held.
    method Replace(contrib: (int, int), ghost ip: seq<int>, ghost qp: seq<int>) returns (old': (int, int))
      requires Holds(ip, qp)
      modifies this`pos, this`base, window
      ensures Holds(ip + [contrib.0], qp + [contrib.1])
      ensures old' == (OldProduct(ip, len), OldProduct(qp, len))
    {
      old' := window[pos];
      window[pos] := contrib;
      pos := pos + 1;
      if pos >= len {
        pos := 0;
        base := base + len;
      }
      assert forall j :: 0 <= j < len ==> Holder(j) == if j == old(pos) then |ip| else old(Holder(j));
    }

    method Accumulate(i: int, q: int, ghost ip: seq<int>, ghost qp: seq<int>)
      requires Tracks(ip, qp) && Abs(i) <= PRODUCT_BOUND && Abs(q) <= PRODUCT_BOUND
      modifies this`pos, this`base, this`iSum, this`qSum, window
      ensures Tracks(ip + [i], qp + [q])
    {
      hide Sum, Last, OldProduct;
      SumSlides(ip, i, len);
      SumSlides(qp, q, len);
      var old' := Replace((i, q), ip, qp);
      iSum := Slide(iSum, old'.0, i, len);
      qSum := Slide(qSum, old'.1, q, len);
    }

    // The oscillator moves on by one increment.
    method Advance(sample: int)
      requires phase == PhaseAt(phaseInc, |heard|) && Bounded(heard, SAMPLE_MAX) && Abs(sample) <= SAMPLE_MAX
      modifies this`phase, this`heard
      ensures heard == old(heard) + [sample]
      ensures phase == PhaseAt(phaseInc, |heard|) && Bounded(heard, SAMPLE_MAX)
    {
      phase := (phase + phaseInc) % TURN;
      heard := heard + [sample];
    }

    // The sample bound is the one the source's own argument rests on.
    method Push(sample: int) returns (power: int)
      requires Valid() && Abs(sample) <= SAMPLE_MAX
      modifies this, window
      ensures Valid() && heard == old(heard) + [sample]
      ensures power == Power(sine, phaseInc, len, heard)
    {
      hide Products, Power, Tracks, PhaseAt;
      ghost var ip := Products(sine, phaseInc, 0, heard);
      ghost var qp := Products(sine, phaseInc, QUARTER_TURN, heard);
      var i := Mix(sample, 0);
      var q := Mix(sample, QUARTER_TURN);
      Accumulate(i, q, ip, qp);
      Advance(sample);
      power := Normalised();
    }

    // The sample against the oscillator: the next product.
    method Mix(sample: int, offset: nat) returns (product: int)
      requires Amplitude(sine) && phase == PhaseAt(phaseInc, |heard|)
      requires Bounded(heard, SAMPLE_MAX) && Abs(sample) <= SAMPLE_MAX
      ensures Products(sine, phaseInc, offset, heard + [sample]) == Products(sine, phaseInc, offset, heard) + [product]
      ensures Abs(product) <= PRODUCT_BOUND
    {
      ProductsGrow(sine, phaseInc, offset, heard, sample);
      product := Contribution(sine, phase, offset, sample);
    }

    method Normalised() returns (power: int)
      requires Valid()
      ensures power == Power(sine, phaseInc, len, heard)
    {
      CorrelationBound(sine, phaseInc, 0, len, heard, SAMPLE_MAX);
      CorrelationBound(sine, phaseInc, QUARTER_TURN, len, heard, SAMPLE_MAX);
      NormalisedSum(iSum, len);
      NormalisedSum(qSum, len);
      var i, q := Scale(iSum, len, recip), Scale(qSum, len, recip);
      PowerFits(i, q);
      power := Saturate64(Saturate64(i * i) + Saturate64(q * q));
    }
  }
}
