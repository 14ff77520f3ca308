/**
 * What the discriminator is for: which way its metric points, how its smoothing
 * answers, and the window, smoothing and phase step a configuration gets.
 */
module EnvelopeMeaning {
  import opened Prelude
  import opened Arith
  import opened Correlator
  import opened Envelope

  // ---------------------------------------------------------------- configuration

  lemma Nearest(x: nat, rate: nat, q: nat)
    requires rate > 0 && q == (x + rate / 2) / rate
    ensures -(rate as int) <= 2 * (q * rate - x) <= rate
  {
    var y := x + rate / 2;
    assert y == q * rate + y % rate;
  }

  lemma BelowTurn(hz: nat, rate: nat, q: nat)
    requires hz < rate && 2 * (q * rate - hz * 0x1_0000_0000) <= rate < 0x1_0000_0000
    ensures q < 0x1_0000_0000
  {
    if q >= 0x1_0000_0000 {
      MulMonotone(0x1_0000_0000, q, rate);
    }
  }

  // The phase step is the tone's, to the nearest: 2^32 steps to a turn.
  lemma PhaseStepIsNearest(hz: nat, rate: nat)
    requires hz < rate < 0x1_0000_0000
    ensures -(rate as int) <= 2 * (PhaseIncrement(hz, rate) * rate - hz * 0x1_0000_0000) <= rate
  {
    var q := (hz * 0x1_0000_0000 + rate / 2) / rate;
    assert PhaseIncrement(hz, rate) == q % 0x1_0000_0000;
    hide PhaseIncrement;
    Nearest(hz * 0x1_0000_0000, rate, q);
    BelowTurn(hz, rate, q);
  }

  // None below 16 samples a bit, then a power of two more for every eight samples,
  // up to three.
  lemma SmoothingIs(samplesPerBit: nat)
    ensures EnvShift(samplesPerBit)
         == if samplesPerBit / 8 <= 1 then 0 else if samplesPerBit / 8 >= 4 then 3 else samplesPerBit / 8 - 1
  {
  }

  // A window that tells the tones apart: a whole number of their beats, no shorter
  // than a bit, and no longer than the ring.
  predicate Apart(period: nat, samplesPerBit: nat, w: nat) {
    period > 0 && w % period == 0 && samplesPerBit <= w <= 240
  }

  lemma RoundedUp(x: nat, period: nat) returns (w: nat)
    requires period > 0
    ensures w == period * ((x + period - 1) / period) && w % period == 0 && x <= w
    ensures forall m: nat :: m % period == 0 && x <= m ==> w <= m
  {
    var q := (x + period - 1) / period;
    w := period * q;
    assert x + period - 1 == q * period + (x + period - 1) % period;
    DivUnique(w, period, q, 0);
    forall m: nat | m % period == 0 && x <= m
      ensures w <= m
    {
      assert m == (m / period) * period;
      NotBelow(q, m / period, period, x);
    }
  }

  lemma NotBelow(q: nat, k: nat, period: nat, x: nat)
    requires period > 0 && x <= k * period && q * period <= x + period - 1
    ensures q * period <= k * period
  {
    if k < q {
      MulMonotone(k + 1, q, period);
    } else {
      MulMonotone(q, k, period);
    }
  }

  // The tones' beat, in samples.
  function Beat(sr: nat, shift: nat): nat {
    if shift == 0 then 0 else (sr + shift / 2) / shift
  }

  ghost predicate Shortest(period: nat, samplesPerBit: nat, w: nat) {
    Apart(period, samplesPerBit, w) && forall m :: Apart(period, samplesPerBit, m) ==> w <= m
  }

  lemma ShortestIs(period: nat, samplesPerBit: nat)
    requires period > 0
    ensures var w := period * ((samplesPerBit + period - 1) / period);
            if w <= 240 then Shortest(period, samplesPerBit, w) else forall m :: !Apart(period, samplesPerBit, m)
  {
    var w := RoundedUp(samplesPerBit, period);
  }

  lemma OrthogonalIs(sr: nat, bd: nat, shift: nat, samplesPerBit: nat)
    ensures OrthogonalWindow(sr, bd, shift, samplesPerBit)
         == if 4 * shift >= 3 * bd || Beat(sr, shift) == 0 then None
            else
              var w := Beat(sr, shift) * ((samplesPerBit + Beat(sr, shift) - 1) / Beat(sr, shift));
              if w <= 240 then Some(w) else None
  {
  }

  // The shortest window that tells the tones apart, if one is wanted and there is
  // one; otherwise the bit, as far as the ring goes.
  ghost predicate BestWindow(period: nat, samplesPerBit: nat, wanted: bool, w: nat) {
    if wanted && exists m :: Apart(period, samplesPerBit, m) then Shortest(period, samplesPerBit, w)
    else w == if samplesPerBit > 240 then 240 else samplesPerBit
  }

  // It is wanted for tones less than three quarters of a baud apart.
  lemma WindowIs(sr: nat, bd: nat, shift: nat)
    requires bd > 0
    ensures BestWindow(Beat(sr, shift), sr / bd, 4 * shift < 3 * bd, WindowFor(sr, bd, shift))
  {
    var spb, period := sr / bd, Beat(sr, shift);
    OrthogonalIs(sr, bd, shift, spb);
    if period > 0 {
      ShortestIs(period, spb);
    } else {
      NoBeat(spb);
    }
    hide OrthogonalWindow, Beat, Apart;
  }

  lemma NoBeat(samplesPerBit: nat)
    ensures forall m :: !Apart(0, samplesPerBit, m)
  {
  }

  // ---------------------------------------------------------------- the amplitude

  // The root of the power, rounded down.
  lemma AmplitudeIsRoot(t: Tone, xs: seq<int>)
    ensures var a, p := AmplitudeAt(t, xs), Power(t.sine, t.inc, t.len, xs);
            a * a <= p < (a + 1) * (a + 1)
  {
    var i := TruncDiv(Correlation(t.sine, t.inc, 0, t.len, xs), 256 * t.len);
    var q := TruncDiv(Correlation(t.sine, t.inc, 0x4000_0000, t.len, xs), 256 * t.len);
    assert Power(t.sine, t.inc, t.len, xs) == i * i + q * q;
    SumOfSquares(i, q);
    ISqrtIsRoot(Abs(Power(t.sine, t.inc, t.len, xs)));
    hide Power, ISqrt;
  }

  lemma SumOfSquares(i: int, q: int)
    ensures i * i + q * q >= 0
  {
    SquareBound(i, Abs(i));
    SquareBound(q, Abs(q));
  }

  // ---------------------------------------------------------------- the smoothing

  lemma FloorGrows(d: int, d': int, e: int, e': int, p: nat, r: int, r': int)
    requires p >= 1 && d + e >= d' + e' && e >= e'
    requires p * r <= d < p * r + p && p * r' <= d' < p * r' + p
    ensures e + r >= e' + r'
  {
    var gap := r' - r - 1;
    assert p * r' == p * r + p + p * gap;
    if gap >= 0 {
      MulMonotone(1, p, gap);
    }
  }

  lemma ShiftFloor(x: int, n: nat)
    ensures Pow2(n) * ShiftRight(x, n) <= x < Pow2(n) * ShiftRight(x, n) + Pow2(n)
  {
    ShiftIsFloor(x, n);
    hide ShiftRight;
    assert x == (x / Pow2(n)) * Pow2(n) + x % Pow2(n);
  }

  // One step of a pole keeps the order of what it holds and of what it is fed.
  lemma SmoothGrows(e: int, a: int, e': int, a': int, shift: nat)
    requires e >= e' && a >= a'
    ensures Smooth(e, a, shift) >= Smooth(e', a', shift)
  {
    ShiftFloor(a - e, shift);
    ShiftFloor(a' - e', shift);
    hide ShiftRight, Pow2;
    FloorGrows(a - e, a' - e', e, e', Pow2(shift), ShiftRight(a - e, shift), ShiftRight(a' - e', shift));
  }

  lemma {:induction false} PolesGrow(amps: seq<nat>, amps': seq<nat>, shift: nat)
    requires |amps| == |amps'| && forall k :: 0 <= k < |amps| ==> amps[k] >= amps'[k]
    ensures PolesOver(amps, shift).first >= PolesOver(amps', shift).first
    ensures PolesOver(amps, shift).second >= PolesOver(amps', shift).second
  {
    if amps != [] {
      var n := |amps| - 1;
      PolesGrow(amps[..n], amps'[..n], shift);
      var p, p' := PolesOver(amps[..n], shift), PolesOver(amps'[..n], shift);
      hide Smooth;
      SmoothGrows(p.first, amps[n], p'.first, amps'[n], shift);
      SmoothGrows(p.second, Smooth(p.first, amps[n], shift), p'.second, Smooth(p'.first, amps'[n], shift), shift);
    }
  }

  ghost predicate LouderThroughout(a: Tone, b: Tone, xs: seq<int>) {
    forall k :: 0 < k <= |xs| ==> AmplitudeAt(a, xs[..k]) >= AmplitudeAt(b, xs[..k])
  }

  lemma LouderPoles(a: Tone, b: Tone, xs: seq<int>)
    requires a.shift == b.shift && LouderThroughout(a, b, xs)
    ensures PolesAt(a, xs).second >= PolesAt(b, xs).second
  {
    var amps, amps' := Profile(Loudness(a), xs), Profile(Loudness(b), xs);
    hide AmplitudeAt, Profile, PolesOver;
    forall k | 0 <= k < |xs|
      ensures amps[k] >= amps'[k]
    {
      ProfileAt(Loudness(a), xs, k);
      ProfileAt(Loudness(b), xs, k);
      assert AmplitudeAt(a, xs[..k + 1]) >= AmplitudeAt(b, xs[..k + 1]);
    }
    PolesGrow(amps, amps', a.shift);
  }

  // The metric points to the louder tone: up to the mark, down to the space.
  lemma MetricPoints(mark: Tone, space: Tone, xs: seq<int>)
    requires mark.shift == space.shift
    ensures LouderThroughout(mark, space, xs) ==> Metric(mark, space, xs) >= 0
    ensures LouderThroughout(space, mark, xs) ==> Metric(mark, space, xs) <= 0
  {
    hide LouderThroughout, PolesAt;
    if LouderThroughout(mark, space, xs) {
      LouderPoles(mark, space, xs);
    }
    if LouderThroughout(space, mark, xs) {
      LouderPoles(space, mark, xs);
    }
  }

  // From rest the first amplitude passes both poles in turn, each dividing it.
  lemma FirstStep(a: nat, shift: nat)
    ensures PolesOver([a], shift) == Poles(a / Pow2(shift), a / Pow2(shift) / Pow2(shift))
  {
    assert [a][..0] == [];
    ShiftIsFloor(a, shift);
    ShiftIsFloor(a / Pow2(shift), shift);
    hide ShiftRight, Pow2;
  }
}
