/**
 * The baseband receive filter: tap quantisation with exact unity gain, the split
 * ring that evaluates the convolution, and the trackers behind it. Filter weights
 * are any real numbers with a positive sum.
 */
module Fir {
  import opened Prelude
  import opened Arith
  import opened Sums

  const MAX_FIR_TAPS: nat := 15
  const FIR_SPAN_BITS: nat := 3
  const TAP_UNITY: int := 32768
  const TAP_SHIFT: nat := 15
  const BASELINE_SHIFT: nat := 9
  const I32_MAX: int := 0x7FFF_FFFF
  const U32: int := 0x1_0000_0000

  // ---------------------------------------------------------------- taps

  function TapsLen(sampleRate: nat, baud: positive): nat {
    var spb := FIR_SPAN_BITS * ((sampleRate + baud / 2) / baud);
    var odd := if spb % 2 == 0 then spb + 1 else spb;
    if odd < 3 then 3 else if odd > MAX_FIR_TAPS then MAX_FIR_TAPS else odd
  }

  // Rust's float-to-int cast truncates toward zero.
  function Trunc(x: real): int {
    if x >= 0.0 then x.Floor else -((-x).Floor)
  }

  function Total(w: seq<real>): real {
    if w == [] then 0.0 else Total(w[..|w| - 1]) + w[|w| - 1]
  }

  function Quantised(x: real, total: real): int
    requires total > 0.0
  {
    Trunc(x / total * TAP_UNITY as real + 0.5)
  }

  function AllQuantised(w: seq<real>, total: real): (q: seq<int>)
    requires total > 0.0
    ensures |q| == |w|
  {
    seq(|w|, k requires 0 <= k < |w| => Quantised(w[k], total))
  }

  // The rounding residue goes into the centre tap.
  function Taps(w: seq<real>): (t: seq<int>)
    requires w != [] && Total(w) > 0.0
    ensures |t| == |w|
  {
    var q := AllQuantised(w, Total(w));
    q[|w| / 2 := q[|w| / 2] + (TAP_UNITY - Sum(q))]
  }

  lemma {:induction false} SumUpdate(s: seq<int>, i: nat, v: int)
    requires i < |s|
    ensures Sum(s[i := v]) == Sum(s) - s[i] + v
  {
    var n := |s| - 1;
    if i == n {
      assert s[i := v][..n] == s[..n];
    } else {
      SumUpdate(s[..n], i, v);
      assert s[i := v][..n] == s[..n][i := v];
    }
  }

  // Whatever the design, the gain at zero frequency is exactly one.
  lemma TapsSumToUnity(w: seq<real>)
    requires w != [] && Total(w) > 0.0
    ensures Sum(Taps(w)) == TAP_UNITY
  {
    hide Total, Quantised;
    var q := AllQuantised(w, Total(w));
    SumUpdate(q, |w| / 2, q[|w| / 2] + (TAP_UNITY - Sum(q)));
  }

  method AddUp(w: seq<real>) returns (total: real)
    ensures total == Total(w)
  {
    total := 0.0;
    for k := 0 to |w|
      invariant total == Total(w[..k])
    {
      assert w[..k + 1][..k] == w[..k];
      total := total + w[k];
    }
    assert w[..|w|] == w;
  }

  method BuildTaps(w: seq<real>) returns (taps: array<int>)
    requires 0 < |w| <= MAX_FIR_TAPS && Total(w) > 0.0
    ensures fresh(taps) && taps.Length == MAX_FIR_TAPS && taps[..|w|] == Taps(w)
  {
    hide Total, Quantised;
    var total := AddUp(w);
    ghost var q := AllQuantised(w, total);
    taps := new int[MAX_FIR_TAPS](_ => 0);
    var acc := 0;
    for k := 0 to |w|
      invariant taps[..k] == q[..k] && acc == Sum(q[..k])
    {
      taps[k] := Quantised(w[k], total);
      assert q[..k + 1][..k] == q[..k];
      acc := acc + taps[k];
    }
    assert q[..|w|] == q;
    var centre := |w| / 2;
    taps[centre] := taps[centre] + (TAP_UNITY - acc);
  }

  // ---------------------------------------------------------------- the filter, as history

  function Dot(taps: seq<int>, xs: seq<int>): int
    requires |taps| == |xs|
  {
    if taps == [] then 0 else taps[0] * xs[0] + Dot(taps[1..], xs[1..])
  }

  // The last `len` samples, oldest first; before the first there was silence.
  function Window(len: nat, heard: seq<int>): (w: seq<int>)
    ensures |w| == len
  {
    (Repeat(len, 0) + heard)[|heard|..]
  }

  function Filtered(taps: seq<int>, heard: seq<int>): int {
    ShiftRight(Dot(taps, Window(|taps|, heard)), TAP_SHIFT)
  }

  // What the filter has put out, sample by sample.
  function Outputs(taps: seq<int>, heard: seq<int>): (out: seq<int>)
    ensures |out| == |heard|
  {
    seq(|heard|, k requires 0 <= k < |heard| => Filtered(taps, heard[..k + 1]))
  }

  datatype Trackers = Trackers(baseline: int, amplitude: int)

  // Two's complement: the value of a 32-bit register that `x` is written to.
  function Wrap32(x: int): int {
    (x + I32_MAX + 1) % U32 - I32_MAX - 1
  }

  // Decision feedback as the source computes it, in 32-bit registers throughout:
  // the amplitude follows the metric's magnitude, the baseline what is left of
  // the output once the decided level is taken off.
  function Tracked32(t: Trackers, filtered: int): Trackers {
    var metric := Wrap32(filtered - t.baseline);
    var magnitude := if metric >= 0 then metric else Wrap32(-metric);
    var amplitude := Wrap32(t.amplitude + ShiftRight(Wrap32(magnitude - t.amplitude), BASELINE_SHIFT));
    var level := if metric >= 0 then amplitude else Wrap32(-amplitude);
    var residual := Wrap32(filtered - level);
    Trackers(Wrap32(t.baseline + ShiftRight(Wrap32(residual - t.baseline), BASELINE_SHIFT)), amplitude)
  }

  function TrackersAt(outputs: seq<int>): Trackers {
    if outputs == [] then Trackers(0, 0)
    else Tracked32(TrackersAt(outputs[..|outputs| - 1]), outputs[|outputs| - 1])
  }

  function Metric(outputs: seq<int>): int
    requires outputs != []
  {
    Wrap32(outputs[|outputs| - 1] - TrackersAt(outputs[..|outputs| - 1]).baseline)
  }

  lemma OutputsSnoc(taps: seq<int>, heard: seq<int>, x: int)
    ensures Outputs(taps, heard + [x]) == Outputs(taps, heard) + [Filtered(taps, heard + [x])]
  {
    hide Filtered;
    assert (heard + [x])[..|heard| + 1] == heard + [x];
    forall k | 0 <= k < |heard|
      ensures Outputs(taps, heard + [x])[k] == Outputs(taps, heard)[k]
    {
      assert (heard + [x])[..k + 1] == heard[..k + 1];
    }
  }

  lemma TrackersFollow(outputs: seq<int>, f: int)
    ensures TrackersAt(outputs + [f]) == Tracked32(TrackersAt(outputs), f)
    ensures Metric(outputs + [f]) == Wrap32(f - TrackersAt(outputs).baseline)
  {
    hide Tracked32, Wrap32;
    assert (outputs + [f])[..|outputs + [f]| - 1] == outputs;
  }

  lemma {:induction false} DotAppend(a: seq<int>, b: seq<int>, x: seq<int>, y: seq<int>)
    requires |a| == |x| && |b| == |y|
    ensures Dot(a + b, x + y) == Dot(a, x) + Dot(b, y)
  {
    if a == [] {
      assert a + b == b && x + y == y;
    } else {
      DotAppend(a[1..], b, x[1..], y);
      assert (a + b)[1..] == a[1..] + b && (x + y)[1..] == x[1..] + y;
    }
  }

  lemma {:induction false} DotOfConstant(taps: seq<int>, c: int)
    ensures Dot(taps, Repeat(|taps|, c)) == FrontSum(taps) * c
  {
    if taps != [] {
      DotOfConstant(taps[1..], c);
      assert Repeat(|taps|, c)[1..] == Repeat(|taps[1..]|, c);
      assert (taps[0] + FrontSum(taps[1..])) * c == taps[0] * c + FrontSum(taps[1..]) * c;
    }
  }

  function FrontSum(s: seq<int>): int {
    if s == [] then 0 else s[0] + FrontSum(s[1..])
  }

  lemma {:induction false} SumsAgree(s: seq<int>)
    ensures FrontSum(s) == Sum(s)
    decreases |s|
  {
    if s != [] {
      FrontSumSnoc(s[..|s| - 1], s[|s| - 1]);
      SumsAgree(s[..|s| - 1]);
      assert s == s[..|s| - 1] + [s[|s| - 1]];
    }
  }

  lemma {:induction false} FrontSumSnoc(s: seq<int>, x: int)
    ensures FrontSum(s + [x]) == FrontSum(s) + x
  {
    if s == [] {
      assert [x][1..] == [] && s + [x] == [x];
    } else {
      FrontSumSnoc(s[1..], x);
      assert (s + [x])[1..] == s[1..] + [x];
    }
  }

  // A constant input held for the filter's length comes out exactly as it went
  // in, whatever was heard before and whatever the weights.
  lemma ConstantPasses(w: seq<real>, before: seq<int>, c: int, n: nat)
    requires w != [] && Total(w) > 0.0 && n >= |w|
    ensures Filtered(Taps(w), before + Repeat(n, c)) == c
  {
    var taps, heard := Taps(w), before + Repeat(n, c);
    TapsSumToUnity(w);
    SumsAgree(taps);
    assert Window(|w|, heard) == Repeat(|w|, c);
    DotOfConstant(taps, c);
    hide Total, Taps, Dot, Window;
    ShiftIsFloor(TAP_UNITY * c, TAP_SHIFT);
    PowersOfTwo();
    DivUnique(TAP_UNITY * c, TAP_UNITY, c, 0);
  }

  // The output depends on nothing but the last inputs of the filter's length.
  lemma FilterForgets(taps: seq<int>, before: seq<int>, other: seq<int>, recent: seq<int>)
    requires |recent| >= |taps|
    ensures Filtered(taps, before + recent) == Filtered(taps, other + recent)
  {
    assert Window(|taps|, before + recent) == recent[|recent| - |taps|..];
    assert Window(|taps|, other + recent) == recent[|recent| - |taps|..];
  }

  lemma {:induction false} DotOfSilence(taps: seq<int>, xs: seq<int>)
    requires |taps| == |xs| && forall k :: 0 <= k < |xs| ==> xs[k] == 0
    ensures Dot(taps, xs) == 0
  {
    if taps != [] {
      DotOfSilence(taps[1..], xs[1..]);
    }
  }

  lemma DotOfPulse(before: seq<int>, t: int, after: seq<int>, v: int)
    ensures Dot(before + [t] + after, Repeat(|before|, 0) + [v] + Repeat(|after|, 0)) == t * v
  {
    DotOfSilence(before, Repeat(|before|, 0));
    DotOfSilence(after, Repeat(|after|, 0));
    DotOfOne(t, v);
    hide Dot, Repeat;
    DotAppend(before + [t], after, Repeat(|before|, 0) + [v], Repeat(|after|, 0));
    DotAppend(before, [t], Repeat(|before|, 0), [v]);
  }

  // A single full-scale sample among silence reads the taps out, the last one
  // first: which sample each tap weighs.
  lemma PulseReadsTaps(taps: seq<int>, n: nat, k: nat)
    requires k < |taps| <= n
    ensures Filtered(taps, Repeat(n, 0) + [32768] + Repeat(k, 0)) == taps[|taps| - 1 - k]
  {
    var i := |taps| - 1 - k;
    assert Window(|taps|, Repeat(n, 0) + [32768] + Repeat(k, 0)) == Repeat(i, 0) + [32768] + Repeat(k, 0);
    assert taps == taps[..i] + [taps[i]] + taps[i + 1..];
    hide Dot, Window, Repeat;
    DotOfPulse(taps[..i], taps[i], taps[i + 1..], 32768);
    ShiftIsFloor(taps[i] * 32768, TAP_SHIFT);
    PowersOfTwo();
    hide ShiftRight, Pow2;
    DivUnique(taps[i] * 32768, 32768, taps[i], 0);
  }

  // Three bits' worth of taps at the rounded rate, made odd, from 3 to 15.
  lemma TapsLenIs(sampleRate: nat, baud: positive)
    ensures var len, samples := TapsLen(sampleRate, baud), (sampleRate + baud / 2) / baud;
            && len % 2 == 1 && 3 <= len <= 15
            && (3 <= 3 * samples <= 15 ==> 3 * samples <= len <= 3 * samples + 1)
            && (samples > 5 ==> len == 15) && (samples == 0 ==> len == 3)
  {
  }

  // ---------------------------------------------------------------- bounds

  const SAMPLE_PEAK: nat := 32768
  const TAP_PEAK: nat := 0x10_0000
  const PRODUCT_PEAK: nat := 0x8_0000_0000

  lemma {:induction false} DotFits(taps: seq<int>, xs: seq<int>, r: nat)
    requires |taps| == |xs| && forall k :: 0 <= k < |taps| ==> Abs(taps[k] * xs[k]) <= r
    ensures Abs(Dot(taps, xs)) <= |taps| * r
  {
    if taps != [] {
      forall k | 0 <= k < |taps[1..]|
        ensures Abs(taps[1..][k] * xs[1..][k]) <= r
      {
        assert taps[1..][k] == taps[k + 1] && xs[1..][k] == xs[k + 1];
      }
      DotFits(taps[1..], xs[1..], r);
      var first := taps[0] * xs[0];
      assert Abs(first) <= r;
      assert |taps| * r == r + |taps[1..]| * r;
    }
  }

  lemma ShiftFifteen(x: int)
    requires Abs(x) <= MAX_FIR_TAPS * PRODUCT_PEAK
    ensures Abs(ShiftRight(x, TAP_SHIFT)) <= 0x100_0000
  {
    ShiftIsFloor(x, TAP_SHIFT);
    PowersOfTwo();
    hide ShiftRight, Pow2;
    assert x == (x / 32768) * 32768 + x % 32768;
  }

  lemma ConvolutionFits(taps: seq<int>, w: seq<int>)
    requires |taps| == |w| <= MAX_FIR_TAPS && Bounded(taps, TAP_PEAK) && Bounded(w, SAMPLE_PEAK)
    ensures Abs(Dot(taps, w)) <= MAX_FIR_TAPS * PRODUCT_PEAK
  {
    forall k | 0 <= k < |taps|
      ensures Abs(taps[k] * w[k]) <= PRODUCT_PEAK
    {
      MulBound(taps[k], w[k], TAP_PEAK, SAMPLE_PEAK);
    }
    DotFits(taps, w, PRODUCT_PEAK);
    hide Dot;
    MulMonotone(|taps|, MAX_FIR_TAPS, PRODUCT_PEAK);
  }

  // On 16-bit samples the narrowing cast of the output loses nothing.
  lemma FilteredFits(taps: seq<int>, heard: seq<int>)
    requires |taps| <= MAX_FIR_TAPS && Bounded(taps, TAP_PEAK) && Bounded(heard, SAMPLE_PEAK)
    ensures Wrap32(Filtered(taps, heard)) == Filtered(taps, heard)
  {
    hide Dot, ShiftRight, Window, Bounded;
    WindowFits(|taps|, heard);
    ConvolutionFits(taps, Window(|taps|, heard));
    ShiftFifteen(Dot(taps, Window(|taps|, heard)));
  }

  lemma WindowFits(len: nat, heard: seq<int>)
    requires Bounded(heard, SAMPLE_PEAK)
    ensures Bounded(Window(len, heard), SAMPLE_PEAK)
  {
  }

  // A design in which no weight exceeds the sum of them all.
  ghost predicate Design(w: seq<real>) {
    && 0 < |w| <= MAX_FIR_TAPS && Total(w) > 0.0
    && forall k :: 0 <= k < |w| ==> -Total(w) <= w[k] <= Total(w)
  }

  lemma PositiveProduct(a: real, b: real)
    ensures a > 0.0 && b > 0.0 ==> a * b > 0.0
  {
  }

  lemma RatioFits(x: real, total: real)
    requires total > 0.0 && -total <= x <= total
    ensures -1.0 <= x / total <= 1.0
  {
    var r := x / total;
    assert r * total == x;
    PositiveProduct(r - 1.0, total);
    PositiveProduct(-1.0 - r, total);
    assert (r - 1.0) * total == x - total && (-1.0 - r) * total == -total - x;
  }

  lemma QuantisedFits(x: real, total: real)
    requires total > 0.0 && -total <= x <= total
    ensures Abs(Quantised(x, total)) <= TAP_UNITY
  {
    RatioFits(x, total);
    var y := x / total * TAP_UNITY as real + 0.5;
    assert -32767.5 <= y <= 32768.5;
  }

  lemma TapsFit(w: seq<real>)
    requires Design(w)
    ensures Bounded(Taps(w), TAP_PEAK)
  {
    var q := AllQuantised(w, Total(w));
    hide Total;
    forall k | 0 <= k < |w|
      ensures Abs(q[k]) <= TAP_UNITY
    {
      QuantisedFits(w[k], Total(w));
    }
    SumBound(q, 32768);
    hide Quantised, AllQuantised, Sum;
    MulMonotone(|w|, MAX_FIR_TAPS, 32768);
  }

  // ---------------------------------------------------------------- the trackers' drift

  const OUTPUT_PEAK: int := 0x1_0000
  const RUN_LIMIT: int := 2 * I32_MAX - 0x8_0000

  // The same update over unbounded integers.
  function Tracked(t: Trackers, filtered: int): Trackers {
    var metric := filtered - t.baseline;
    var amplitude := t.amplitude + ShiftRight(Abs(metric) - t.amplitude, BASELINE_SHIFT);
    var residual := if metric >= 0 then filtered - amplitude else filtered + amplitude;
    Trackers(t.baseline + ShiftRight(residual - t.baseline, BASELINE_SHIFT), amplitude)
  }

  function IdealTrackers(outputs: seq<int>): Trackers {
    if outputs == [] then Trackers(0, 0)
    else Tracked(IdealTrackers(outputs[..|outputs| - 1]), outputs[|outputs| - 1])
  }

  // The upper decision level stays where the outputs are. The lower one may sink
  // by one an output, because both shifts round down.
  ghost predicate Steady(t: Trackers, n: nat) {
    && t.amplitude >= 0
    && -OUTPUT_PEAK - 2 <= t.baseline + t.amplitude <= OUTPUT_PEAK
    && t.baseline - t.amplitude >= -OUTPUT_PEAK - n
  }

  ghost predicate Floor9(x: int, q: int) {
    512 * q <= x < 512 * q + 512
  }

  lemma TwoToTheNine()
    ensures Pow2(BASELINE_SHIFT) == 512
  {
    SmallPowers();
    hide Pow2;
    Pow2Add(1, 1);
    Pow2Add(7, 2);
  }

  lemma ShiftNine(x: int)
    ensures Floor9(x, ShiftRight(x, BASELINE_SHIFT))
  {
    ShiftIsFloor(x, BASELINE_SHIFT);
    TwoToTheNine();
    hide ShiftRight, Pow2;
    assert x == (x / 512) * 512 + x % 512;
  }

  // Deciding upward, `d` is the way from the upper level to the output.
  lemma UpwardStep(d: int, q: int, r: int)
    requires Floor9(d, q) && Floor9(d - q, r)
    ensures (if d < 0 then d else 0) <= q + r <= (if d > 0 then d else 0)
    ensures q <= 512 ==> r - q >= -1
  {
  }

  // Deciding downward, `d` is the way from the output to the lower level.
  lemma DownwardStep(d: int, q: int, r: int)
    requires Floor9(d, q) && Floor9(q - d, r)
    ensures r - q >= if d > 0 then -d else 0
    ensures q < 512 ==> q + r <= 0
    ensures q >= -513 ==> q + r >= -2
  {
  }

  // The shifts' results `q` and `r` applied to the levels.
  lemma StepIsSteady(t: Trackers, f: int, n: nat, q: int, r: int)
    requires Steady(t, n) && Abs(f) <= OUTPUT_PEAK
    requires Floor9(Abs(f - t.baseline) - t.amplitude, q)
    requires Floor9(if f >= t.baseline then f - t.baseline - t.amplitude - q
                    else f - t.baseline + t.amplitude + q, r)
    ensures Steady(Trackers(t.baseline + r, t.amplitude + q), n + 1)
  {
    if f >= t.baseline {
      UpwardStep(f - t.baseline - t.amplitude, q, r);
    } else {
      DownwardStep(t.baseline - f - t.amplitude, q, r);
    }
  }

  lemma TrackedStaysSteady(t: Trackers, f: int, n: nat)
    requires Steady(t, n) && Abs(f) <= OUTPUT_PEAK
    ensures Steady(Tracked(t, f), n + 1)
  {
    var metric := f - t.baseline;
    var q := ShiftRight(Abs(metric) - t.amplitude, BASELINE_SHIFT);
    var d := if metric >= 0 then metric - t.amplitude - q else metric + t.amplitude + q;
    ShiftNine(Abs(metric) - t.amplitude);
    ShiftNine(d);
    hide ShiftRight, Floor9;
    StepIsSteady(t, f, n, q, ShiftRight(d, BASELINE_SHIFT));
  }

  ghost predicate Fits(x: int) {
    -I32_MAX - 1 <= x <= I32_MAX
  }

  lemma WrapFits(x: int)
    requires Fits(x)
    ensures Wrap32(x) == x
  {
  }

  // Every operation of one update has its exact result in an i32.
  ghost predicate UpdateFits(t: Trackers, f: int) {
    var metric := f - t.baseline;
    var gap := Abs(metric) - t.amplitude;
    var amplitude := t.amplitude + ShiftRight(gap, BASELINE_SHIFT);
    var residual := if metric >= 0 then f - amplitude else f + amplitude;
    && Fits(metric) && Fits(-metric) && Fits(gap) && Fits(amplitude) && Fits(-amplitude)
    && Fits(residual) && Fits(residual - t.baseline)
    && Fits(t.baseline + ShiftRight(residual - t.baseline, BASELINE_SHIFT))
  }

  lemma ExactIfItFits(t: Trackers, f: int)
    requires UpdateFits(t, f)
    ensures Tracked32(t, f) == Tracked(t, f)
    ensures Wrap32(f - t.baseline) == f - t.baseline
  {
    hide ShiftRight, Wrap32, Fits;
    var metric := f - t.baseline;
    var gap := Abs(metric) - t.amplitude;
    var amplitude := t.amplitude + ShiftRight(gap, BASELINE_SHIFT);
    var residual := if metric >= 0 then f - amplitude else f + amplitude;
    WrapFits(metric);
    WrapFits(-metric);
    WrapFits(gap);
    WrapFits(amplitude);
    WrapFits(-amplitude);
    WrapFits(residual);
    WrapFits(residual - t.baseline);
    WrapFits(t.baseline + ShiftRight(residual - t.baseline, BASELINE_SHIFT));
  }

  lemma SteadyFits(t: Trackers, f: int, n: nat)
    requires Steady(t, n) && Abs(f) <= OUTPUT_PEAK && n < RUN_LIMIT
    ensures UpdateFits(t, f)
  {
    var metric := f - t.baseline;
    var gap := Abs(metric) - t.amplitude;
    var amplitude := t.amplitude + ShiftRight(gap, BASELINE_SHIFT);
    var residual := if metric >= 0 then f - amplitude else f + amplitude;
    ShiftShrinks(gap, BASELINE_SHIFT);
    ShiftShrinks(residual - t.baseline, BASELINE_SHIFT);
    hide ShiftRight;
  }

  ghost predicate NeverOverflows(outputs: seq<int>) {
    outputs == [] ||
    (var n := |outputs| - 1;
     NeverOverflows(outputs[..n]) && UpdateFits(IdealTrackers(outputs[..n]), outputs[n]))
  }

  // The one way out of the registers: a metric above the largest i32, or a
  // residual below the smallest.
  ghost predicate InReach(t: Trackers, f: int) {
    && f - t.baseline <= I32_MAX
    && f - Tracked(t, f).amplitude >= -I32_MAX - 1
  }

  lemma FitsIffInReach(t: Trackers, f: int, n: nat)
    requires Steady(t, n) && Fits(t.baseline) && Fits(t.amplitude) && Abs(f) <= OUTPUT_PEAK
    ensures UpdateFits(t, f) <==> InReach(t, f)
  {
    var metric := f - t.baseline;
    var gap := Abs(metric) - t.amplitude;
    var amplitude := t.amplitude + ShiftRight(gap, BASELINE_SHIFT);
    var residual := if metric >= 0 then f - amplitude else f + amplitude;
    ShiftShrinks(gap, BASELINE_SHIFT);
    ShiftShrinks(residual - t.baseline, BASELINE_SHIFT);
    hide ShiftRight;
  }

  lemma {:induction false} RunIsSteady(outputs: seq<int>)
    requires Bounded(outputs, OUTPUT_PEAK)
    ensures Steady(IdealTrackers(outputs), |outputs|)
    decreases |outputs|
  {
    if outputs != [] {
      var n := |outputs| - 1;
      assert Abs(outputs[n]) <= OUTPUT_PEAK;
      hide Tracked, Steady;
      RunIsSteady(outputs[..n]);
      TrackedStaysSteady(IdealTrackers(outputs[..n]), outputs[n], n);
    }
  }

  // An output on the baseline is decided upward, so the baseline gives way.
  lemma TieDecidesUp(t: Trackers)
    requires t.amplitude >= 2
    ensures Tracked(t, t.baseline).baseline < t.baseline
  {
    ShiftShrinks(-t.amplitude, BASELINE_SHIFT);
    ShiftNine(-t.amplitude);
    ShiftShrinks(-(t.amplitude + ShiftRight(-t.amplitude, BASELINE_SHIFT)), BASELINE_SHIFT);
    hide ShiftRight;
  }

  lemma {:induction false} RunFits(outputs: seq<int>)
    requires Bounded(outputs, OUTPUT_PEAK) && |outputs| <= RUN_LIMIT
    ensures NeverOverflows(outputs)
    decreases |outputs|
  {
    if outputs != [] {
      var n := |outputs| - 1;
      assert Abs(outputs[n]) <= OUTPUT_PEAK;
      hide IdealTrackers, UpdateFits, Steady;
      RunFits(outputs[..n]);
      RunIsSteady(outputs[..n]);
      SteadyFits(IdealTrackers(outputs[..n]), outputs[n], n);
    }
  }

  // The wrapping registers hold the unbounded trackers until something overflows.
  lemma {:induction false} RegistersSuffice(outputs: seq<int>)
    requires NeverOverflows(outputs)
    ensures TrackersAt(outputs) == IdealTrackers(outputs)
    decreases |outputs|
  {
    if outputs != [] {
      var n := |outputs| - 1;
      hide Tracked, Tracked32, UpdateFits;
      RegistersSuffice(outputs[..n]);
      ExactIfItFits(IdealTrackers(outputs[..n]), outputs[n]);
    }
  }

  // The amplitude is one: never negative, whatever the outputs.
  lemma {:induction false} AmplitudeStaysNonNegative(outputs: seq<int>)
    ensures IdealTrackers(outputs).amplitude >= 0
    decreases |outputs|
  {
    if outputs != [] {
      var n := |outputs| - 1;
      AmplitudeStaysNonNegative(outputs[..n]);
      var t := IdealTrackers(outputs[..n]);
      ShiftShrinks(Abs(outputs[n] - t.baseline) - t.amplitude, BASELINE_SHIFT);
      hide ShiftRight;
    }
  }

  // Twice unity: the absolute taps of a low-pass design stay below it.
  ghost predicate Tame(taps: seq<int>) {
    Magnitude(taps) <= 2 * TAP_UNITY
  }

  function Magnitude(taps: seq<int>): nat {
    if taps == [] then 0 else Abs(taps[0]) + Magnitude(taps[1..])
  }

  lemma {:induction false} DotWithin(taps: seq<int>, xs: seq<int>)
    requires |taps| == |xs| && Bounded(xs, SAMPLE_PEAK)
    ensures Abs(Dot(taps, xs)) <= Magnitude(taps) * SAMPLE_PEAK
  {
    if taps != [] {
      assert Abs(xs[0]) <= SAMPLE_PEAK;
      DotWithin(taps[1..], xs[1..]);
      MulBound(taps[0], xs[0], Abs(taps[0]), SAMPLE_PEAK);
    }
  }

  lemma ShiftUnity(x: int)
    requires Abs(x) <= OUTPUT_PEAK * SAMPLE_PEAK
    ensures Abs(ShiftRight(x, TAP_SHIFT)) <= OUTPUT_PEAK
  {
    ShiftIsFloor(x, TAP_SHIFT);
    PowersOfTwo();
    hide ShiftRight, Pow2;
    assert x == (x / 32768) * 32768 + x % 32768;
  }

  lemma FilteredWithin(taps: seq<int>, heard: seq<int>)
    requires Tame(taps) && Bounded(heard, SAMPLE_PEAK)
    ensures Abs(Filtered(taps, heard)) <= OUTPUT_PEAK
  {
    WindowFits(|taps|, heard);
    DotWithin(taps, Window(|taps|, heard));
    hide Dot, Window, ShiftRight;
    ShiftUnity(Dot(taps, Window(|taps|, heard)));
  }

  lemma OutputsWithin(taps: seq<int>, heard: seq<int>)
    requires Tame(taps) && Bounded(heard, SAMPLE_PEAK)
    ensures Bounded(Outputs(taps, heard), OUTPUT_PEAK)
  {
    hide Filtered, Tame;
    forall k | 0 <= k < |heard|
      ensures Abs(Outputs(taps, heard)[k]) <= OUTPUT_PEAK
    {
      FilteredWithin(taps, heard[..k + 1]);
    }
  }

  lemma MetricFits(outputs: seq<int>, f: int)
    requires Bounded(outputs, OUTPUT_PEAK) && Abs(f) <= OUTPUT_PEAK && |outputs| < RUN_LIMIT
    ensures Metric(outputs + [f]) == f - IdealTrackers(outputs).baseline
  {
    hide Tracked, Tracked32, TrackersAt, IdealTrackers, Wrap32, Metric, Steady, NeverOverflows, UpdateFits;
    TrackersFollow(outputs, f);
    RunFits(outputs);
    RegistersSuffice(outputs);
    RunIsSteady(outputs);
    SteadyFits(IdealTrackers(outputs), f, |outputs|);
    ExactIfItFits(IdealTrackers(outputs), f);
  }

  // Over 16-bit samples the baseline and the amplitude together leave the
  // outputs' range by no more than one a sample, so neither leaves it by more than
  // one every two, and for RUN_LIMIT samples no operation overflows and the
  // registers hold exactly the unbounded trackers.
  lemma TrackersNeverWrap(taps: seq<int>, heard: seq<int>)
    requires Tame(taps) && Bounded(heard, SAMPLE_PEAK)
    ensures var t := IdealTrackers(Outputs(taps, heard));
            t.amplitude >= 0 && Abs(t.baseline) + t.amplitude <= OUTPUT_PEAK + 2 + |heard|
    ensures |heard| <= RUN_LIMIT ==>
              && NeverOverflows(Outputs(taps, heard))
              && TrackersAt(Outputs(taps, heard)) == IdealTrackers(Outputs(taps, heard))
  {
    OutputsWithin(taps, heard);
    hide Outputs, Tame, TrackersAt, IdealTrackers, NeverOverflows;
    RunIsSteady(Outputs(taps, heard));
    if |heard| <= RUN_LIMIT {
      RunFits(Outputs(taps, heard));
      RegistersSuffice(Outputs(taps, heard));
    }
  }

  // And so long the metric is exactly the output less the baseline.
  lemma MetricNeverWraps(taps: seq<int>, heard: seq<int>, x: int)
    requires Tame(taps) && Bounded(heard + [x], SAMPLE_PEAK) && |heard| < RUN_LIMIT
    ensures Metric(Outputs(taps, heard + [x]))
         == Filtered(taps, heard + [x]) - IdealTrackers(Outputs(taps, heard)).baseline
  {
    assert Bounded(heard, SAMPLE_PEAK) by {
      assert (heard + [x])[..|heard|] == heard;
    }
    hide Outputs, Filtered, Tame, TrackersAt, IdealTrackers, Metric, Bounded;
    OutputsWithin(taps, heard);
    FilteredWithin(taps, heard + [x]);
    OutputsSnoc(taps, heard, x);
    MetricFits(Outputs(taps, heard), Filtered(taps, heard + [x]));
  }

  lemma IdealSnoc(outputs: seq<int>, f: int)
    ensures IdealTrackers(outputs + [f]) == Tracked(IdealTrackers(outputs), f)
    ensures NeverOverflows(outputs + [f]) <==> NeverOverflows(outputs) && UpdateFits(IdealTrackers(outputs), f)
  {
    hide Tracked, UpdateFits;
    assert (outputs + [f])[..|outputs|] == outputs;
  }

  lemma {:induction false} TrackersFit(outputs: seq<int>)
    requires NeverOverflows(outputs)
    ensures Fits(IdealTrackers(outputs).baseline) && Fits(IdealTrackers(outputs).amplitude)
  {
    hide ShiftRight;
  }

  ghost predicate AllInReach(outputs: seq<int>) {
    forall k :: 0 <= k < |outputs| ==> InReach(IdealTrackers(outputs[..k]), outputs[k])
  }

  lemma AllInReachSnoc(outputs: seq<int>, f: int)
    ensures AllInReach(outputs + [f]) <==> AllInReach(outputs) && InReach(IdealTrackers(outputs), f)
  {
    var all := outputs + [f];
    hide IdealTrackers, InReach;
    forall k | 0 <= k <= |outputs|
      ensures all[..k] == outputs[..k]
    {
    }
    assert outputs[..|outputs|] == outputs;
    if AllInReach(all) {
      forall k | 0 <= k < |outputs|
        ensures InReach(IdealTrackers(outputs[..k]), outputs[k])
      {
        assert InReach(IdealTrackers(all[..k]), all[k]);
      }
      assert InReach(IdealTrackers(all[..|outputs|]), all[|outputs|]);
    }
  }

  // A run of outputs keeps within the registers if and only if every update of it
  // is in reach of them.
  lemma {:induction false} NeverOverflowsIff(outputs: seq<int>)
    requires Bounded(outputs, OUTPUT_PEAK)
    ensures NeverOverflows(outputs) <==> AllInReach(outputs)
    decreases |outputs|
  {
    if outputs != [] {
      var n := |outputs| - 1;
      var before, f := outputs[..n], outputs[n];
      assert Abs(f) <= OUTPUT_PEAK;
      assert outputs == before + [f];
      NeverOverflowsIff(before);
      hide NeverOverflows, AllInReach, IdealTrackers, InReach, UpdateFits, Steady, Fits, Tracked;
      AllInReachSnoc(before, f);
      IdealSnoc(before, f);
      RunIsSteady(before);
      if NeverOverflows(before) {
        TrackersFit(before);
        FitsIffInReach(IdealTrackers(before), f, n);
      }
    }
  }

  // ---------------------------------------------------------------- the split ring

  // Sum of products of two stretches.
  method DotOf(a: array<int>, i: nat, b: array<int>, j: nat, n: nat) returns (acc: int)
    requires i + n <= a.Length && j + n <= b.Length
    ensures acc == Dot(a[i..i + n], b[j..j + n])
  {
    acc := 0;
    for k := 0 to n
      invariant acc == Dot(a[i..i + k], b[j..j + k])
    {
      assert a[i..i + k + 1] == a[i..i + k] + [a[i + k]];
      assert b[j..j + k + 1] == b[j..j + k] + [b[j + k]];
      DotAppend(a[i..i + k], [a[i + k]], b[j..j + k], [b[j + k]]);
      DotOfOne(a[i + k], b[j + k]);
      acc := acc + a[i + k] * b[j + k];
    }
  }

  lemma DotOfOne(t: int, x: int)
    ensures Dot([t], [x]) == t * x
  {
    assert [t][1..] == [] && [x][1..] == [];
  }

  lemma WindowSlides(len: nat, heard: seq<int>, x: int)
    requires len > 0
    ensures Window(len, heard + [x]) == Window(len, heard)[1..] + [x]
  {
  }

  /**
   * The source's filter. `heard` is every sample pushed; `Valid` says that the
   * ring, read from `pos` round, is the window of the last inputs in age order.
   */
  class BasebandFilter {
    const taps: array<int>
    const history: array<int>
    const tapsLen: nat
    var pos: nat
    var baseline: int
    var amplitude: int
    ghost const coefficients: seq<int>
    ghost var heard: seq<int>

    constructor (sampleRate: nat, baud: positive, w: seq<real>)
      requires |w| == TapsLen(sampleRate, baud) && Design(w)
      ensures Valid() && heard == [] && coefficients == Taps(w) && fresh(taps) && fresh(history)
    {
      TapsFit(w);
      hide Total, Taps;
      tapsLen := |w|;
      coefficients := Taps(w);
      var built := BuildTaps(w);
      taps := built;
      history := new int[MAX_FIR_TAPS](_ => 0);
      pos, baseline, amplitude := 0, 0, 0;
      heard := [];
    }

    ghost predicate RingHolds(w: seq<int>)
      reads this`pos, history
    {
      && history.Length == MAX_FIR_TAPS && pos < tapsLen <= MAX_FIR_TAPS
      && history[pos..tapsLen] + history[..pos] == w
    }

    // All but the trackers.
    ghost predicate Ready()
      reads this`pos, this`heard, taps, history
    {
      && taps.Length == MAX_FIR_TAPS && taps != history
      && RingHolds(Window(tapsLen, heard)) && coefficients == taps[..tapsLen]
      && Bounded(coefficients, TAP_PEAK) && Bounded(heard, SAMPLE_PEAK)
    }

    ghost predicate Valid()
      reads this, taps, history
    {
      Ready() && Trackers(baseline, amplitude) == TrackersAt(Outputs(coefficients, heard))
    }

    // Overwrites the oldest sample and moves on round the ring.
    method Write(sample: int, ghost w: seq<int>)
      requires RingHolds(w)
      modifies this`pos, history
      ensures RingHolds(w[1..] + [sample])
    {
      history[pos] := sample;
      pos := pos + 1;
      if pos == tapsLen {
        pos := 0;
      }
    }

    // The two slices of the ring against the head and the tail of the taps.
    method Convolve(ghost w: seq<int>) returns (acc: int)
      requires taps.Length == MAX_FIR_TAPS && RingHolds(w) && |w| == tapsLen && coefficients == taps[..tapsLen]
      ensures acc == Dot(coefficients, w)
    {
      hide Dot;
      var head := DotOf(taps, 0, history, pos, tapsLen - pos);
      var tail := DotOf(taps, tapsLen - pos, history, 0, pos);
      acc := head + tail;
      ghost var split := tapsLen - pos;
      assert coefficients == taps[0..0 + split] + taps[split..split + pos];
      assert w == history[pos..pos + split] + history[0..0 + pos];
      DotAppend(taps[0..0 + split], taps[split..split + pos], history[pos..pos + split], history[0..0 + pos]);
    }

    // Every operation on the trackers' registers wraps.
    method UpdateTrackers(filtered: int) returns (metric: int)
      modifies this`baseline, this`amplitude
      ensures metric == Wrap32(filtered - old(baseline))
      ensures Trackers(baseline, amplitude) == Tracked32(old(Trackers(baseline, amplitude)), filtered)
    {
      hide ShiftRight, Wrap32;
      metric := Wrap32(filtered - baseline);
      var magnitude := if metric < 0 then Wrap32(-metric) else metric;
      amplitude := Wrap32(amplitude + ShiftRight(Wrap32(magnitude - amplitude), BASELINE_SHIFT));
      var residual := Wrap32(filtered - (if metric >= 0 then amplitude else Wrap32(-amplitude)));
      baseline := Wrap32(baseline + ShiftRight(Wrap32(residual - baseline), BASELINE_SHIFT));
    }

    // Into the ring, and out of the convolution.
    method Filter(sample: int) returns (filtered: int)
      requires Ready() && Abs(sample) <= SAMPLE_PEAK
      modifies this`pos, this`heard, history
      ensures Ready() && heard == old(heard) + [sample]
      ensures filtered == Filtered(coefficients, heard)
    {
      hide Dot, Window, ShiftRight, Wrap32;
      WindowSlides(tapsLen, heard, sample);
      Write(sample, Window(tapsLen, heard));
      heard := heard + [sample];
      var acc := Convolve(Window(tapsLen, heard));
      FilteredFits(coefficients, heard);
      filtered := Wrap32(ShiftRight(acc, TAP_SHIFT));
    }

    method Push(sample: int) returns (metric: int)
      requires Valid() && Abs(sample) <= SAMPLE_PEAK
      modifies this, history
      ensures Valid() && heard == old(heard) + [sample]
      ensures metric == Metric(Outputs(coefficients, heard))
    {
      OutputsSnoc(coefficients, heard, sample);
      TrackersFollow(Outputs(coefficients, heard), Filtered(coefficients, heard + [sample]));
      hide Ready, Filtered, Outputs, TrackersAt, Tracked32, Metric, Wrap32, Abs;
      var filtered := Filter(sample);
      metric := UpdateTrackers(filtered);
    }
  }
}
