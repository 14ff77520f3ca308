/**
 * The dual-tone discriminator: amplitude envelopes through two cascaded integer
 * poles, the metric, and the window and smoothing it is configured with.
 */
module Envelope {
  import opened Prelude
  import opened Arith
  import opened Sums
  import opened Correlator
  import opened Rate

  const I32_MAX: int := 0x7FFF_FFFF

  // ---------------------------------------------------------------- configuration

  // The shortest whole multiple of 1/shift that covers a bit, when that helps.
  function OrthogonalWindow(sr: nat, bd: nat, shift: nat, samplesPerBit: nat): Option<nat> {
    if shift == 0 || 4 * shift >= 3 * bd then None
    else
      var period := (sr + shift / 2) / shift;
      if period == 0 then None
      else
        var window := period * ((samplesPerBit + period - 1) / period);
        if window <= MAX_WINDOW then Some(window) else None
  }

  lemma OrthogonalWindowIsShortest(sr: nat, bd: nat, shift: nat, samplesPerBit: nat, m: nat)
    requires OrthogonalWindow(sr, bd, shift, samplesPerBit).Some?
    ensures var w, period := OrthogonalWindow(sr, bd, shift, samplesPerBit).value, (sr + shift / 2) / shift;
            && samplesPerBit <= w <= MAX_WINDOW && w % period == 0
            && (m * period >= samplesPerBit ==> w <= m * period)
  {
    var period := (sr + shift / 2) / shift;
    var q := (samplesPerBit + period - 1) / period;
    assert samplesPerBit + period - 1 == q * period + (samplesPerBit + period - 1) % period;
    DivUnique(period * q, period, q, 0);
    if m < q {
      MulMonotone(m + 1, q, period);
      assert (m + 1) * period == m * period + period;
    } else {
      MulMonotone(q, m, period);
    }
  }

  function EnvShift(samplesPerBit: nat): (s: nat)
    ensures s <= 3
  {
    if samplesPerBit < 16 then 0 else if samplesPerBit < 24 then 1 else if samplesPerBit < 32 then 2 else 3
  }

  // round(hz * 2^32 / rate)
  function PhaseIncrement(hz: nat, rate: nat): nat
    requires rate > 0
  {
    (hz * TURN + rate / 2) / rate % TURN
  }

  // ---------------------------------------------------------------- one tone's envelope, as history

  // Counts up through the squares; `next` is the one after r * r.
  function ISqrtFrom(n: nat, r: nat, next: nat): nat
    decreases if n >= r then n - r else 0
  {
    if r < next <= n then ISqrtFrom(n, r + 1, next + 2 * r + 3) else r
  }

  function ISqrt(n: nat): nat {
    ISqrtFrom(n, 0, 1)
  }

  lemma {:induction false} ISqrtFromIsRoot(n: nat, r: nat, next: nat)
    requires r * r <= n && next == (r + 1) * (r + 1)
    ensures var s := ISqrtFrom(n, r, next); s * s <= n < (s + 1) * (s + 1)
    decreases if n >= r then n - r else 0
  {
    MulMonotone(1, r + 1, r + 1);
    if next <= n {
      ISqrtFromIsRoot(n, r + 1, next + 2 * r + 3);
    }
  }

  lemma ISqrtIsRoot(n: nat)
    ensures ISqrt(n) * ISqrt(n) <= n < (ISqrt(n) + 1) * (ISqrt(n) + 1)
  {
    ISqrtFromIsRoot(n, 0, 1);
  }

  lemma RootBound(n: nat, s: nat, b: nat)
    requires s * s <= n <= b * b
    ensures s <= b
  {
    if s > b {
      MulMonotone(b + 1, s, b + 1);
      MulMonotone(b + 1, s, s);
    }
  }

  lemma ISqrtBound(n: nat, b: nat)
    requires n <= b * b
    ensures ISqrt(n) <= b
  {
    ISqrtIsRoot(n);
    var s := ISqrt(n);
    hide ISqrt;
    RootBound(n, s, b);
  }

  datatype Tone = Tone(sine: Table, inc: nat, len: positive, shift: nat)

  function AmplitudeAt(t: Tone, xs: seq<int>): nat {
    ISqrt(Abs(Power(t.sine, t.inc, t.len, xs)))
  }

  // `e += (a - e) >> shift`
  function Smooth(e: int, a: int, shift: nat): int {
    e + ShiftRight(a - e, shift)
  }

  datatype Poles = Poles(first: int, second: int)

  function PolesAfter(p: Poles, amplitude: int, shift: nat): Poles {
    var first := Smooth(p.first, amplitude, shift);
    Poles(first, Smooth(p.second, first, shift))
  }

  // Both poles after a run of amplitudes, starting from rest.
  function PolesOver(amps: seq<nat>, shift: nat): Poles {
    if amps == [] then Poles(0, 0)
    else PolesAfter(PolesOver(amps[..|amps| - 1], shift), amps[|amps| - 1], shift)
  }

  lemma PolesSnoc(amps: seq<nat>, a: nat, shift: nat)
    ensures PolesOver(amps + [a], shift) == PolesAfter(PolesOver(amps, shift), a, shift)
  {
    assert (amps + [a])[..|amps|] == amps;
  }

  // What a measure of the history so far reads after each sample of it.
  function Profile(loud: seq<int> -> nat, xs: seq<int>): (amps: seq<nat>)
    ensures |amps| == |xs|
  {
    if xs == [] then [] else Profile(loud, xs[..|xs| - 1]) + [loud(xs)]
  }

  lemma {:induction false} ProfileAt(loud: seq<int> -> nat, xs: seq<int>, k: nat)
    requires k < |xs|
    ensures Profile(loud, xs)[k] == loud(xs[..k + 1])
  {
    if k == |xs| - 1 {
      assert xs[..k + 1] == xs;
    } else {
      ProfileAt(loud, xs[..|xs| - 1], k);
      assert xs[..|xs| - 1][..k + 1] == xs[..k + 1];
    }
  }

  lemma ProfileSnoc(loud: seq<int> -> nat, xs: seq<int>, x: int)
    ensures Profile(loud, xs + [x]) == Profile(loud, xs) + [loud(xs + [x])]
  {
    assert (xs + [x])[..|xs|] == xs;
  }

  function Loudness(t: Tone): seq<int> -> nat {
    xs => AmplitudeAt(t, xs)
  }

  // One tone's two poles after the samples heard.
  function PolesAt(t: Tone, xs: seq<int>): Poles {
    PolesOver(Profile(Loudness(t), xs), t.shift)
  }

  // One more sample: one more step of both poles.
  lemma PolesAdvance(t: Tone, xs: seq<int>, x: int)
    ensures PolesAt(t, xs + [x]) == PolesAfter(PolesAt(t, xs), AmplitudeAt(t, xs + [x]), t.shift)
  {
    hide AmplitudeAt;
    ProfileSnoc(Loudness(t), xs, x);
    PolesSnoc(Profile(Loudness(t), xs), AmplitudeAt(t, xs + [x]), t.shift);
  }

  // ---------------------------------------------------------------- bounds

  // A pole lands between where it was and what it is fed; fed nothing, it falls.
  lemma SmoothMoves(e: int, a: int, shift: nat)
    ensures e <= a ==> e <= Smooth(e, a, shift) <= a
    ensures a < e ==> a <= Smooth(e, a, shift) <= e - 1
  {
    ShiftShrinks(a - e, shift);
  }

  ghost predicate Within(p: Poles, peak: int) {
    0 <= p.first <= peak && 0 <= p.second <= peak
  }

  // On every run, both stages stay between zero and the peak amplitude.
  lemma {:induction false} PolesStayWithin(amps: seq<nat>, shift: nat, peak: nat)
    requires forall k :: 0 <= k < |amps| ==> amps[k] <= peak
    ensures Within(PolesOver(amps, shift), peak)
  {
    if amps != [] {
      var n := |amps| - 1;
      PolesStayWithin(amps[..n], shift, peak);
      var p := PolesOver(amps[..n], shift);
      SmoothMoves(p.first, amps[n], shift);
      SmoothMoves(p.second, Smooth(p.first, amps[n], shift), shift);
    }
  }

  lemma SquareDoubles(h: nat)
    ensures 2 * (h * h) <= (2 * h) * (2 * h)
  {
    assert (2 * h) * (2 * h) == 4 * (h * h);
  }

  // An amplitude is at most 256 times the loudest sample: under 2^23 on the
  // 16-bit path.
  lemma AmplitudeFits(t: Tone, xs: seq<int>, peak: nat)
    requires Amplitude(t.sine) && Bounded(xs, peak)
    ensures AmplitudeAt(t, xs) <= peak * 256
  {
    hide ISqrt, Power;
    PowerBound(t.sine, t.inc, t.len, xs, peak);
    SquareDoubles(peak * 128);
    ISqrtBound(Abs(Power(t.sine, t.inc, t.len, xs)), 2 * (peak * 128));
  }

  lemma ProfileFits(t: Tone, xs: seq<int>, peak: nat)
    requires Amplitude(t.sine) && Bounded(xs, peak)
    ensures forall k :: 0 <= k < |xs| ==> Profile(Loudness(t), xs)[k] <= peak * 256
  {
    hide Profile, AmplitudeAt;
    forall k | 0 <= k < |xs|
      ensures Profile(Loudness(t), xs)[k] <= peak * 256
    {
      ProfileAt(Loudness(t), xs, k);
      AmplitudeFits(t, xs[..k + 1], peak);
    }
  }

  lemma PolesFit(t: Tone, xs: seq<int>, peak: nat)
    requires Amplitude(t.sine) && Bounded(xs, peak)
    ensures Within(PolesAt(t, xs), peak * 256)
  {
    ProfileFits(t, xs, peak);
    PolesStayWithin(Profile(Loudness(t), xs), t.shift, peak * 256);
  }

  // ---------------------------------------------------------------- silence

  function Zeros(n: nat): seq<int> {
    seq(n, _ => 0)
  }

  lemma {:induction false} SumOfZeros(s: seq<int>)
    requires forall k :: 0 <= k < |s| ==> s[k] == 0
    ensures Sum(s) == 0
  {
    if s != [] {
      SumOfZeros(s[..|s| - 1]);
    }
  }

  lemma SilentCorrelation(t: Tone, xs: seq<int>, n: nat, offset: nat)
    requires n >= t.len
    ensures Correlation(t.sine, t.inc, offset, t.len, xs + Zeros(n)) == 0
  {
    var all := xs + Zeros(n);
    var p := Products(t.sine, t.inc, offset, all);
    forall k | |xs| <= k < |all|
      ensures p[k] == 0
    {
      assert all[k] == 0;
    }
    SumOfZeros(Last(p, t.len));
  }

  // Once the window has flushed, silence has no amplitude.
  lemma SilenceFlushes(t: Tone, xs: seq<int>, n: nat)
    requires n >= t.len
    ensures AmplitudeAt(t, xs + Zeros(n)) == 0
  {
    SilentCorrelation(t, xs, n, 0);
    SilentCorrelation(t, xs, n, QUARTER_TURN);
    assert TruncDiv(0, 256 * t.len) == 0;
    ISqrtBound(0, 1);
  }

  function Less(x: nat, y: nat): nat {
    if x >= y then x - y else 0
  }

  // `n` samples with no amplitude at all, after a run of others.
  function Quiet(amps: seq<nat>, n: nat): seq<nat> {
    amps + seq(n, _ => 0)
  }

  lemma QuietStep(amps: seq<nat>, n: nat, shift: nat)
    ensures PolesOver(Quiet(amps, n + 1), shift) == PolesAfter(PolesOver(Quiet(amps, n), shift), 0, shift)
  {
    assert Quiet(amps, n + 1) == Quiet(amps, n) + [0];
    PolesSnoc(Quiet(amps, n), 0, shift);
  }

  lemma {:induction false} SilenceIsQuiet(loud: seq<int> -> nat, xs: seq<int>, len: nat, n: nat)
    requires forall m: nat :: m >= len ==> loud(xs + Zeros(m)) == 0
    ensures Profile(loud, xs + Zeros(len + n)) == Quiet(Profile(loud, xs + Zeros(len)), n)
  {
    if n > 0 {
      SilenceIsQuiet(loud, xs, len, n - 1);
      assert xs + Zeros(len + n) == (xs + Zeros(len + (n - 1))) + [0];
      ProfileSnoc(loud, xs + Zeros(len + (n - 1)), 0);
    }
  }

  // With nothing to follow, the first pole falls by at least one a sample until
  // it is zero, and from then on so does the second.
  lemma {:induction false} FirstPoleDecays(amps: seq<nat>, shift: nat, peak: nat, n: nat)
    requires forall k :: 0 <= k < |amps| ==> amps[k] <= peak
    ensures 0 <= PolesOver(Quiet(amps, n), shift).first <= Less(peak, n)
  {
    if n == 0 {
      assert Quiet(amps, n) == amps;
      PolesStayWithin(amps, shift, peak);
    } else {
      FirstPoleDecays(amps, shift, peak, n - 1);
      QuietStep(amps, n - 1, shift);
      SmoothMoves(PolesOver(Quiet(amps, n - 1), shift).first, 0, shift);
    }
  }

  lemma {:induction false} SecondPoleDecays(amps: seq<nat>, shift: nat, peak: nat, n: nat)
    requires forall k :: 0 <= k < |amps| ==> amps[k] <= peak
    ensures 0 <= PolesOver(Quiet(amps, peak + n), shift).second <= Less(peak, n)
  {
    if n == 0 {
      PolesStayWithin(Quiet(amps, peak), shift, peak);
    } else {
      SecondPoleDecays(amps, shift, peak, n - 1);
      FirstPoleDecays(amps, shift, peak, peak + n);
      QuietStep(amps, peak + (n - 1), shift);
      assert peak + (n - 1) + 1 == peak + n;
      SmoothMoves(PolesOver(Quiet(amps, peak + (n - 1)), shift).second, 0, shift);
    }
  }

  lemma QuietEnds(loud: seq<int> -> nat, shift: nat, xs: seq<int>, len: nat, peak: nat, n: nat)
    requires forall m: nat :: m >= len ==> loud(xs + Zeros(m)) == 0
    requires forall k :: 0 <= k < |xs| + len ==> Profile(loud, xs + Zeros(len))[k] <= peak
    requires n >= 2 * peak
    ensures PolesOver(Profile(loud, xs + Zeros(len + n)), shift) == Poles(0, 0)
  {
    var amps := Profile(loud, xs + Zeros(len));
    SilenceIsQuiet(loud, xs, len, n);
    FirstPoleDecays(amps, shift, peak, n);
    SecondPoleDecays(amps, shift, peak, n - peak);
    assert peak + (n - peak) == n;
  }

  lemma LoudnessFlushes(t: Tone, xs: seq<int>)
    ensures forall m: nat :: m >= t.len ==> Loudness(t)(xs + Zeros(m)) == 0
  {
    forall m: nat | m >= t.len
      ensures Loudness(t)(xs + Zeros(m)) == 0
    {
      SilenceFlushes(t, xs, m);
    }
  }

  // From any state that samples can reach, the window's length of silence and
  // twice the peak amplitude more bring both poles to rest, and they stay there.
  lemma PolesComeToRest(t: Tone, xs: seq<int>, peak: nat, n: nat)
    requires Amplitude(t.sine) && Bounded(xs, peak) && n >= 2 * (peak * 256)
    ensures PolesAt(t, xs + Zeros(t.len + n)) == Poles(0, 0)
  {
    hide AmplitudeAt;
    ProfileFits(t, xs + Zeros(t.len), peak);
    LoudnessFlushes(t, xs);
    QuietEnds(Loudness(t), t.shift, xs, t.len, peak * 256, n);
  }

  // ---------------------------------------------------------------- the metric

  function Metric(mark: Tone, space: Tone, xs: seq<int>): int {
    PolesAt(mark, xs).second - PolesAt(space, xs).second
  }

  lemma MetricFits(mark: Tone, space: Tone, xs: seq<int>, peak: nat)
    requires Amplitude(mark.sine) && Amplitude(space.sine) && Bounded(xs, peak)
    ensures Abs(Metric(mark, space, xs)) <= peak * 256
  {
    PolesFit(mark, xs, peak);
    PolesFit(space, xs, peak);
  }

  lemma SilenceConverges(mark: Tone, space: Tone, xs: seq<int>, peak: nat, n: nat)
    requires mark.len == space.len && Amplitude(mark.sine) && Amplitude(space.sine)
    requires Bounded(xs, peak) && n >= 2 * (peak * 256)
    ensures Metric(mark, space, xs + Zeros(mark.len + n)) == 0
  {
    hide AmplitudeAt;
    PolesComeToRest(mark, xs, peak, n);
    PolesComeToRest(space, xs, peak, n);
  }

  // ---------------------------------------------------------------- the discriminator

  function WindowFor(sr: nat, bd: positive, shift: nat): nat {
    var samplesPerBit := sr / bd;
    match OrthogonalWindow(sr, bd, shift, samplesPerBit)
    case Some(window) => window
    case None => if samplesPerBit > MAX_WINDOW then MAX_WINDOW else samplesPerBit
  }

  // Never shorter than the bit it watches, unless the ring is.
  lemma WindowCoversBit(sr: nat, bd: positive, shift: nat)
    ensures WindowFor(sr, bd, shift) <= MAX_WINDOW
    ensures sr / bd <= WindowFor(sr, bd, shift) || WindowFor(sr, bd, shift) == MAX_WINDOW
  {
    if OrthogonalWindow(sr, bd, shift, sr / bd).Some? {
      OrthogonalWindowIsShortest(sr, bd, shift, sr / bd, 0);
    }
  }

  /**
   * Two correlators and four envelopes. `Valid` says what the four integers are:
   * the poles of the two tones over everything heard.
   */
  class QuadratureCorrelator {
    const mark: ToneCorrelator
    const space: ToneCorrelator
    const envShift: nat
    var markEnv: int
    var spaceEnv: int
    var markEnv2: int
    var spaceEnv2: int

    constructor (sine: Table, sr: positive, bd: positive, markHz: nat, spaceHz: nat)
      requires Amplitude(sine) && sr / bd >= 2
      ensures Valid() && Heard() == [] && fresh(mark) && fresh(space) && fresh(mark.window) && fresh(space.window)
      ensures mark.sine == space.sine == sine
      ensures mark.phaseInc == PhaseIncrement(markHz, sr) && space.phaseInc == PhaseIncrement(spaceHz, sr)
      ensures mark.len == space.len == WindowFor(sr, bd, Abs(spaceHz - markHz)) && envShift == EnvShift(sr / bd)
    {
      var len := WindowFor(sr, bd, Abs(spaceHz - markHz));
      WindowCoversBit(sr, bd, Abs(spaceHz - markHz));
      mark := new ToneCorrelator(sine, PhaseIncrement(markHz, sr), len);
      space := new ToneCorrelator(sine, PhaseIncrement(spaceHz, sr), len);
      envShift := EnvShift(sr / bd);
      markEnv, spaceEnv, markEnv2, spaceEnv2 := 0, 0, 0, 0;
    }

    ghost function Heard(): seq<int>
      reads mark`heard
    {
      mark.heard
    }

    ghost function MarkTone(): Tone
      requires mark.len > 0
    {
      Tone(mark.sine, mark.phaseInc, mark.len, envShift)
    }

    ghost function SpaceTone(): Tone
      requires space.len > 0
    {
      Tone(space.sine, space.phaseInc, space.len, envShift)
    }

    ghost predicate Valid()
      reads this, mark, space, mark.window, space.window
    {
      && mark != space && mark.window != space.window
      && mark.Valid() && space.Valid() && mark.heard == space.heard
      && Poles(markEnv, markEnv2) == PolesAt(MarkTone(), mark.heard)
      && Poles(spaceEnv, spaceEnv2) == PolesAt(SpaceTone(), mark.heard)
    }

    method Correlate(sample: int) returns (m: nat, s: nat)
      requires Valid() && Abs(sample) <= SAMPLE_MAX
      modifies mark, space, mark.window, space.window
      ensures mark.Valid() && space.Valid()
      ensures mark.heard == space.heard == old(mark.heard) + [sample]
      ensures m == AmplitudeAt(MarkTone(), mark.heard) && s == AmplitudeAt(SpaceTone(), mark.heard)
    {
      hide Power, ISqrt, PolesAt;
      var markPower := mark.Push(sample);
      var spacePower := space.Push(sample);
      m, s := ISqrt(Abs(markPower)), ISqrt(Abs(spacePower));
    }

    method Filter(m: nat, s: nat)
      modifies this
      ensures Poles(markEnv, markEnv2) == PolesAfter(old(Poles(markEnv, markEnv2)), m, envShift)
      ensures Poles(spaceEnv, spaceEnv2) == PolesAfter(old(Poles(spaceEnv, spaceEnv2)), s, envShift)
    {
      markEnv := Smooth(markEnv, m, envShift);
      spaceEnv := Smooth(spaceEnv, s, envShift);
      markEnv2 := Smooth(markEnv2, markEnv, envShift);
      spaceEnv2 := Smooth(spaceEnv2, spaceEnv, envShift);
    }

    method PushEnvelopes(sample: int) returns (m: int, s: int)
      requires Valid() && Abs(sample) <= SAMPLE_MAX
      modifies this, mark, space, mark.window, space.window
      ensures Valid() && Heard() == old(Heard()) + [sample]
      ensures m == PolesAt(MarkTone(), Heard()).second && s == PolesAt(SpaceTone(), Heard()).second
    {
      hide AmplitudeAt, PolesAt, PolesAfter, ToneCorrelator.Valid;
      PolesAdvance(MarkTone(), Heard(), sample);
      PolesAdvance(SpaceTone(), Heard(), sample);
      var markAmp, spaceAmp := Correlate(sample);
      Filter(markAmp, spaceAmp);
      m, s := markEnv2, spaceEnv2;
    }

    lemma MetricStaysSmall()
      requires Valid()
      ensures Abs(Metric(MarkTone(), SpaceTone(), Heard())) <= SAMPLE_MAX * 256
    {
      hide Metric;
      MetricFits(MarkTone(), SpaceTone(), Heard(), SAMPLE_MAX);
    }

    // Saturating, then clamped to 32 bits; neither ever acts.
    method Push(sample: int) returns (metric: int)
      requires Valid() && Abs(sample) <= SAMPLE_MAX
      modifies this, mark, space, mark.window, space.window
      ensures Valid() && Heard() == old(Heard()) + [sample]
      ensures metric == Metric(MarkTone(), SpaceTone(), Heard())
    {
      hide Valid, PolesAt;
      var m, s := PushEnvelopes(sample);
      MetricStaysSmall();
      var diff := Saturate64(m - s);
      metric := if diff > I32_MAX then I32_MAX else if diff < -I32_MAX - 1 then -I32_MAX - 1 else diff;
    }
  }

  // The discriminator for a configuration, or the refusal of one with fewer than
  // two samples a bit.
  method NewDiscriminator(sine: Table, sr: positive, bd: positive, markHz: nat, spaceHz: nat)
    returns (r: Result<QuadratureCorrelator, ConfigError>)
    requires Amplitude(sine)
    ensures sr / bd < 2 <==> r == Err(BaudExceedsSampleRate(bd, sr))
    ensures r.Ok? ==>
              var d, len := r.value, WindowFor(sr, bd, Abs(spaceHz - markHz));
              && fresh(d) && d.Valid() && d.Heard() == []
              && d.mark.sine == d.space.sine == sine && d.mark.len == d.space.len == len
              && d.mark.phaseInc == PhaseIncrement(markHz, sr) && d.space.phaseInc == PhaseIncrement(spaceHz, sr)
              && d.envShift == EnvShift(sr / bd)
    ensures r.Ok? || r == Err(BaudExceedsSampleRate(bd, sr))
  {
    hide QuadratureCorrelator.Valid, PhaseIncrement, WindowFor;
    match SamplesPerBit(sr, bd) {
      case Err(e) => return Err(e);
      case Ok(_) =>
        var d := new QuadratureCorrelator(sine, sr, bd, markHz, spaceHz);
        return Ok(d);
    }
  }
}
