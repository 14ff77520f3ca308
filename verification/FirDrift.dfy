/**
 * The receive filter's trackers on one run of 16-bit samples that sinks them
 * without end, through a filter that the source builds, to where their registers
 * overflow and beyond.
 */
module FirDrift {
  import opened Arith
  import opened Sums
  import opened Fir

  // At two samples a bit, the source's windowed sinc to six places and what it is
  // quantised to.
  const NARROW_WEIGHTS: seq<real> := [0.010091, -0.058654, 0.180082, 1.0, 0.180082, -0.058654, 0.010091]
  const NARROW_TAPS: seq<int> := [262, -1521, 4672, 25942, 4672, -1521, 262]

  lemma NarrowTotal()
    ensures Total(NARROW_WEIGHTS) == 1.263038
  {
    var w := NARROW_WEIGHTS;
    var sums := [0.0, 0.010091, -0.048563, 0.131519, 1.131519, 1.311601, 1.252947, 1.263038];
    assert w[..7] == w;
    for k := 0 to 7
      invariant Total(w[..k]) == sums[k]
    {
      assert w[..k + 1][..k] == w[..k];
    }
  }

  lemma NarrowQuantised()
    ensures AllQuantised(NARROW_WEIGHTS, 1.263038) == [262, -1521, 4672, 25944, 4672, -1521, 262]
  {
    var total := 1.263038;
    assert Quantised(0.010091, total) == 262;
    assert Quantised(-0.058654, total) == -1521;
    assert Quantised(0.180082, total) == 4672;
    assert Quantised(1.0, total) == 25944;
  }

  lemma NarrowSum()
    ensures Sum([262, -1521, 4672, 25944, 4672, -1521, 262]) == 32770
  {
    var q := [262, -1521, 4672, 25944, 4672, -1521, 262];
    var sums := [0, 262, -1259, 3413, 29357, 34029, 32508, 32770];
    assert q[..7] == q;
    for k := 0 to 7
      invariant Sum(q[..k]) == sums[k]
    {
      assert q[..k + 1][..k] == q[..k];
    }
  }

  lemma MagnitudeStep(taps: seq<int>, i: nat)
    requires i < |taps|
    ensures Magnitude(taps[i..]) == Abs(taps[i]) + Magnitude(taps[i + 1..])
  {
    assert taps[i..][1..] == taps[i + 1..];
  }

  lemma NarrowIsTame()
    ensures Tame(NARROW_TAPS)
  {
    var t := NARROW_TAPS;
    assert t[7..] == [] && t[0..] == t && Magnitude([]) == 0;
    hide Magnitude;
    MagnitudeStep(t, 0);
    MagnitudeStep(t, 1);
    MagnitudeStep(t, 2);
    MagnitudeStep(t, 3);
    MagnitudeStep(t, 4);
    MagnitudeStep(t, 5);
    MagnitudeStep(t, 6);
  }

  // The filter of 19200 samples and 9600 bits a second, for one.
  lemma NarrowIsBuilt()
    ensures |NARROW_WEIGHTS| == TapsLen(19200, 9600) && Design(NARROW_WEIGHTS)
    ensures Taps(NARROW_WEIGHTS) == NARROW_TAPS && Tame(NARROW_TAPS)
  {
    NarrowTotal();
    NarrowQuantised();
    NarrowSum();
    NarrowIsTame();
    hide Total, AllQuantised, Sum, Tame;
  }

  lemma DotStep(taps: seq<int>, w: seq<int>, i: nat)
    requires |taps| == |w| && i < |w|
    ensures Dot(taps[i..], w[i..]) == taps[i] * w[i] + Dot(taps[i + 1..], w[i + 1..])
  {
    assert taps[i..][1..] == taps[i + 1..] && w[i..][1..] == w[i + 1..];
  }

  lemma DotThree(taps: seq<int>, w: seq<int>, i: nat)
    requires |taps| == |w| && i + 3 <= |w|
    ensures Dot(taps[i..], w[i..])
         == taps[i] * w[i] + taps[i + 1] * w[i + 1] + taps[i + 2] * w[i + 2] + Dot(taps[i + 3..], w[i + 3..])
  {
    hide Dot;
    DotStep(taps, w, i);
    DotStep(taps, w, i + 1);
    DotStep(taps, w, i + 2);
  }

  function NarrowSumOf(w: seq<int>): int
    requires |w| == 7
  {
    262 * w[0] - 1521 * w[1] + 4672 * w[2] + 25942 * w[3] + 4672 * w[4] - 1521 * w[5] + 262 * w[6]
  }

  lemma NarrowDot(w: seq<int>)
    requires |w| == 7
    ensures Dot(NARROW_TAPS, w) == NarrowSumOf(w)
  {
    var t := NARROW_TAPS;
    assert t[7..] == [] && t[0..] == t && w[7..] == [] && w[0..] == w && Dot([], []) == 0;
    hide Dot;
    DotThree(t, w, 0);
    DotThree(t, w, 3);
    DotStep(t, w, 6);
  }

  // One tap-weighted sum, written out.
  lemma NarrowFiltered(heard: seq<int>, w: seq<int>, f: int)
    requires Window(7, heard) == w && 32768 * f <= NarrowSumOf(w) < 32768 * f + 32768
    ensures Filtered(NARROW_TAPS, heard) == f
  {
    NarrowDot(w);
    ShiftIsFloor(NarrowSumOf(w), TAP_SHIFT);
    PowersOfTwo();
    hide Dot, NarrowSumOf, ShiftRight, Window, Pow2;
    assert |NARROW_TAPS| == 7;
  }

  // What the shifts of one update come to.
  ghost predicate Shifts(t: Trackers, f: int, q: int, r: int) {
    && Floor9(Abs(f - t.baseline) - t.amplitude, q)
    && Floor9(if f >= t.baseline then f - t.baseline - t.amplitude - q
              else f - t.baseline + t.amplitude + q, r)
  }

  ghost predicate FitsWith(t: Trackers, f: int, q: int, r: int) {
    var residual := if f >= t.baseline then f - t.amplitude - q else f + t.amplitude + q;
    && Fits(f - t.baseline) && Fits(t.baseline - f) && Fits(Abs(f - t.baseline) - t.amplitude)
    && Fits(t.amplitude + q) && Fits(-t.amplitude - q)
    && Fits(residual) && Fits(residual - t.baseline) && Fits(t.baseline + r)
  }

  lemma UpdateWith(t: Trackers, f: int, q: int, r: int)
    requires Shifts(t, f, q, r)
    ensures Tracked(t, f) == Trackers(t.baseline + r, t.amplitude + q)
    ensures UpdateFits(t, f) <==> FitsWith(t, f, q, r)
  {
    ShiftNine(Abs(f - t.baseline) - t.amplitude);
    ShiftNine(if f >= t.baseline then f - t.baseline - t.amplitude - q else f - t.baseline + t.amplitude + q);
    hide ShiftRight, Fits;
  }

  // What the narrow filter holds, and where its unbounded trackers stand.
  ghost predicate Stands(heard: seq<int>, w: seq<int>, t: Trackers) {
    Window(7, heard) == w && IdealTrackers(Outputs(NARROW_TAPS, heard)) == t
  }

  ghost predicate Exact(heard: seq<int>) {
    NeverOverflows(Outputs(NARROW_TAPS, heard))
  }

  // One sample more into a window, and the output it gives.
  ghost predicate Emits(w: seq<int>, x: int, next: seq<int>, f: int) {
    |w| == 7 && next == w[1..] + [x] && 32768 * f <= NarrowSumOf(next) < 32768 * f + 32768
  }

  // With it the trackers go from `t` to `u`.
  ghost predicate Goes(t: Trackers, f: int, u: Trackers) {
    Shifts(t, f, u.amplitude - t.amplitude, u.baseline - t.baseline)
  }

  ghost predicate GoesExactly(t: Trackers, f: int, u: Trackers) {
    FitsWith(t, f, u.amplitude - t.amplitude, u.baseline - t.baseline)
  }

  lemma NarrowStep(heard: seq<int>, x: int, w: seq<int>, next: seq<int>, f: int, t: Trackers, u: Trackers)
    requires Stands(heard, w, t) && Emits(w, x, next, f) && Goes(t, f, u)
    ensures Stands(heard + [x], next, u)
    ensures Filtered(NARROW_TAPS, heard + [x]) == f
    ensures Exact(heard + [x]) <==> Exact(heard) && GoesExactly(t, f, u)
  {
    hide Window, Outputs, Filtered, IdealTrackers, Tracked, NeverOverflows, UpdateFits, FitsWith, Shifts, NarrowSumOf;
    WindowSlides(7, heard, x);
    NarrowFiltered(heard + [x], next, f);
    OutputsSnoc(NARROW_TAPS, heard, x);
    IdealSnoc(Outputs(NARROW_TAPS, heard), f);
    UpdateWith(t, f, u.amplitude - t.amplitude, u.baseline - t.baseline);
  }

  function Three(heard: seq<int>): seq<int> {
    heard + [582] + [584] + [-137]
  }

  // Three 16-bit samples over and over. From the third round on the filter puts
  // out 513, 514 and 1 each time round.
  function Sinking(n: nat): seq<int> {
    if n == 0 then Three(Three([])) else Three(Sinking(n - 1))
  }

  // Where the trackers stand after so many of those rounds.
  function Sunk(n: int): Trackers {
    Trackers(-n, n + 1)
  }

  lemma NothingStands()
    ensures Stands([], Clear(), Trackers(0, 0)) && Exact([])
  {
    assert Outputs(NARROW_TAPS, []) == [];
  }

  lemma ThreeSteps(heard: seq<int>, w: seq<seq<int>>, f: seq<int>, t: seq<Trackers>)
    requires |w| == |t| == 4 && |f| == 3 && Stands(heard, w[0], t[0])
    requires Emits(w[0], 582, w[1], f[0]) && Emits(w[1], 584, w[2], f[1]) && Emits(w[2], -137, w[3], f[2])
    requires forall k :: 0 <= k < 3 ==> Goes(t[k], f[k], t[k + 1])
    ensures Stands(Three(heard), w[3], t[3])
    ensures Exact(Three(heard)) <==> Exact(heard) && forall k :: 0 <= k < 3 ==> GoesExactly(t[k], f[k], t[k + 1])
  {
    hide Stands, Exact, Emits, Goes, GoesExactly, Filtered;
    NarrowStep(heard, 582, w[0], w[1], f[0], t[0], t[1]);
    NarrowStep(heard + [582], 584, w[1], w[2], f[1], t[1], t[2]);
    NarrowStep(heard + [582] + [584], -137, w[2], w[3], f[2], t[2], t[3]);
  }

  lemma TwoSteps(heard: seq<int>, w: seq<seq<int>>, f: seq<int>, t: seq<Trackers>)
    requires |w| == |t| == 4 && |f| == 3 && Stands(heard, w[0], t[0])
    requires Emits(w[0], 582, w[1], f[0]) && Emits(w[1], 584, w[2], f[1])
    requires forall k :: 0 <= k < 3 ==> Goes(t[k], f[k], t[k + 1])
    ensures Stands(heard + [582], w[1], t[1])
    ensures Exact(heard + [582]) <==> Exact(heard) && GoesExactly(t[0], f[0], t[1])
    ensures Filtered(NARROW_TAPS, heard + [582] + [584]) == f[1]
  {
    hide Stands, Exact, Emits, Goes, GoesExactly, Filtered;
    NarrowStep(heard, 582, w[0], w[1], f[0], t[0], t[1]);
    NarrowStep(heard + [582], 584, w[1], w[2], f[1], t[1], t[2]);
  }

  function Clear(): seq<int> {
    [0, 0, 0, 0, 0, 0, 0]
  }

  function Entering(): seq<seq<int>> {
    [Clear(), [0, 0, 0, 0, 0, 0, 582], [0, 0, 0, 0, 0, 582, 584], [0, 0, 0, 0, 582, 584, -137]]
  }

  lemma EnteringEmits()
    ensures |Entering()| == 4 && Emits(Entering()[0], 582, Entering()[1], 4)
    ensures Emits(Entering()[1], 584, Entering()[2], -23) && Emits(Entering()[2], -137, Entering()[3], 54)
  {
  }

  lemma EnteringGoes()
    ensures var t := [Trackers(0, 0), Trackers(0, 0), Trackers(-1, 0), Trackers(-1, 0)];
            var f := [4, -23, 54];
            forall k :: 0 <= k < 3 ==> Goes(t[k], f[k], t[k + 1]) && GoesExactly(t[k], f[k], t[k + 1])
  {
  }

  lemma FirstThree()
    ensures Stands(Three([]), Entering()[3], Trackers(-1, 0)) && Exact(Three([]))
  {
    NothingStands();
    EnteringEmits();
    EnteringGoes();
    assert Entering()[0] == Clear();
    hide Stands, Exact, Emits, Goes, GoesExactly, Three, Entering, Clear;
    ThreeSteps([], Entering(), [4, -23, 54], [Trackers(0, 0), Trackers(0, 0), Trackers(-1, 0), Trackers(-1, 0)]);
  }

  function Filling(): seq<seq<int>> {
    [Entering()[3], [0, 0, 0, 582, 584, -137, 582], [0, 0, 582, 584, -137, 582, 584], Ring(0)]
  }

  lemma FillingEmits()
    ensures |Filling()| == 4 && Emits(Filling()[0], 582, Filling()[1], 555)
    ensures Emits(Filling()[1], 584, Filling()[2], 503) && Emits(Filling()[2], -137, Filling()[3], 2)
  {
  }

  lemma FillingGoes()
    ensures var t := [Trackers(-1, 0), Sunk(0), Sunk(0), Sunk(0)];
            var f := [555, 503, 2];
            forall k :: 0 <= k < 3 ==> Goes(t[k], f[k], t[k + 1]) && GoesExactly(t[k], f[k], t[k + 1])
  {
  }

  lemma NextThree(heard: seq<int>)
    requires Stands(heard, Entering()[3], Trackers(-1, 0)) && Exact(heard)
    ensures Stands(Three(heard), Ring(0), Sunk(0)) && Exact(Three(heard))
  {
    FillingEmits();
    FillingGoes();
    assert Filling()[0] == Entering()[3] && Filling()[3] == Ring(0);
    hide Stands, Exact, Emits, Goes, GoesExactly, Three, Entering, Filling, Ring, Sunk;
    ThreeSteps(heard, Filling(), [555, 503, 2], [Trackers(-1, 0), Sunk(0), Sunk(0), Sunk(0)]);
  }

  // The window at the start of a round and within it.
  function Ring(first: int): seq<int> {
    [first, 582, 584, -137, 582, 584, -137]
  }

  function Ring1(): seq<int> {
    [582, 584, -137, 582, 584, -137, 582]
  }

  function Ring2(): seq<int> {
    [584, -137, 582, 584, -137, 582, 584]
  }

  function Rings(first: int): seq<seq<int>> {
    [Ring(first), Ring1(), Ring2(), Ring(-137)]
  }

  function Sinks(n: int): seq<Trackers> {
    [Sunk(n), Trackers(-n, n + 2), Trackers(-n, n + 3), Sunk(n + 1)]
  }

  lemma RoundEmits(first: int)
    ensures |Rings(first)| == 4 && Emits(Rings(first)[0], 582, Rings(first)[1], 513)
    ensures Emits(Rings(first)[1], 584, Rings(first)[2], 514) && Emits(Rings(first)[2], -137, Rings(first)[3], 1)
  {
  }

  lemma RoundGoes(n: int)
    requires n >= 0
    ensures var t, f := Sinks(n), [513, 514, 1];
            && |t| == 4 && t[0] == Sunk(n) && t[3] == Sunk(n + 1)
            && (forall k :: 0 <= k < 3 ==> Goes(t[k], f[k], t[k + 1]))
            && (GoesExactly(t[0], f[0], t[1]) <==> n <= I32_MAX - 513)
            && ((forall k :: 0 <= k < 3 ==> GoesExactly(t[k], f[k], t[k + 1])) <==> n <= I32_MAX - 514)
  {
    var t, f := Sinks(n), [513, 514, 1];
    assert GoesExactly(t[1], f[1], t[2]) <==> n <= I32_MAX - 514;
  }

  ghost predicate AtRound(heard: seq<int>, n: int) {
    exists first :: Stands(heard, Ring(first), Sunk(n))
  }

  lemma SinkingRound(heard: seq<int>, n: int)
    requires n >= 0 && AtRound(heard, n)
    ensures AtRound(Three(heard), n + 1)
    ensures Exact(Three(heard)) <==> Exact(heard) && n <= I32_MAX - 514
  {
    var first :| Stands(heard, Ring(first), Sunk(n));
    assert Rings(first)[0] == Ring(first) && Rings(first)[3] == Ring(-137);
    RoundEmits(first);
    RoundGoes(n);
    hide Stands, Exact, Emits, Goes, GoesExactly, Three, Ring, Rings, Sinks, Sunk;
    ThreeSteps(heard, Rings(first), [513, 514, 1], Sinks(n));
  }

  lemma {:induction false} SinkingRounds(n: nat)
    ensures AtRound(Sinking(n), n)
    ensures Exact(Sinking(n)) <==> n <= I32_MAX - 513
  {
    hide Stands, Exact, AtRound, Three;
    if n == 0 {
      FirstThree();
      NextThree(Three([]));
      RoundBegins(Sinking(0));
    } else {
      SinkingRounds(n - 1);
      SinkingRound(Sinking(n - 1), n - 1);
    }
  }

  lemma RoundBegins(heard: seq<int>)
    requires Stands(heard, Ring(0), Sunk(0))
    ensures AtRound(heard, 0)
  {
    hide Stands, Ring, Sunk;
  }

  lemma {:induction false} SinkingIsShort(n: nat)
    ensures |Sinking(n)| == 3 * n + 6 && Bounded(Sinking(n), SAMPLE_PEAK)
  {
    if n > 0 {
      SinkingIsShort(n - 1);
    }
  }

  // So no bound on the trackers holds of every run: 16-bit samples take a filter
  // the source builds as low as one likes, and this run of them overflows exactly
  // from a round on.
  lemma DriftIsReal(n: nat)
    ensures |Sinking(n)| == 3 * n + 6 && Bounded(Sinking(n), SAMPLE_PEAK)
    ensures IdealTrackers(Outputs(NARROW_TAPS, Sinking(n))) == Sunk(n)
    ensures NeverOverflows(Outputs(NARROW_TAPS, Sinking(n))) <==> n <= I32_MAX - 513
  {
    SinkingIsShort(n);
    hide Sinking, Outputs, IdealTrackers, NeverOverflows, Bounded;
    SinkingRounds(n);
  }

  // One sample further, in the first round that overflows.
  lemma LastExact(heard: seq<int>, n: int)
    requires n == I32_MAX - 513 && AtRound(heard, n) && Exact(heard)
    ensures Exact(heard + [582])
    ensures IdealTrackers(Outputs(NARROW_TAPS, heard + [582])).baseline == -n
    ensures Filtered(NARROW_TAPS, heard + [582] + [584]) == 514
  {
    var first :| Stands(heard, Ring(first), Sunk(n));
    assert Rings(first)[0] == Ring(first) && Sinks(n)[1].baseline == -n;
    RoundEmits(first);
    RoundGoes(n);
    hide Emits, Goes, GoesExactly, Window, Outputs, IdealTrackers, Filtered, Ring, Rings, Sinks, Sunk, NeverOverflows;
    TwoSteps(heard, Rings(first), [513, 514, 1], Sinks(n));
  }

  // What an overflow does: a metric of 2^31 comes out as -2^31, its sign lost.
  lemma MetricWraps(outputs: seq<int>, f: int)
    requires NeverOverflows(outputs) && f - IdealTrackers(outputs).baseline == I32_MAX + 1
    ensures Metric(outputs + [f]) == -I32_MAX - 1
  {
    hide IdealTrackers, NeverOverflows, TrackersAt, Metric;
    RegistersSuffice(outputs);
    TrackersFollow(outputs, f);
  }

  lemma SignIsLost(n: nat)
    requires n == I32_MAX - 513
    ensures var heard := Sinking(n) + [582];
            && Filtered(NARROW_TAPS, heard + [584]) - IdealTrackers(Outputs(NARROW_TAPS, heard)).baseline == I32_MAX + 1
            && Metric(Outputs(NARROW_TAPS, heard + [584])) == -I32_MAX - 1
  {
    hide Sinking, Outputs, IdealTrackers, Filtered, NeverOverflows, TrackersAt, Metric, AtRound;
    SinkingRounds(n);
    LastExact(Sinking(n), n);
    OutputsSnoc(NARROW_TAPS, Sinking(n) + [582], 584);
    MetricWraps(Outputs(NARROW_TAPS, Sinking(n) + [582]), 514);
  }
}
