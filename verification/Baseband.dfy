/**
 * The baseband pulse modulator: one bit of lookahead, cosine-shaped edges, exact
 * rate. The sine table is any function into [-32767, 32767].
 */
module Baseband {
  import opened Prelude
  import opened Arith
  import opened Rate
  import opened Correlator

  const AMPLITUDE: int := 32767
  const HALF_TURN: nat := 0x8000_0000
  const I16_MAX: int := 32767

  datatype Config = Config(rate: nat, baud: positive, sine: Table)

  // ---------------------------------------------------------------- one cell

  datatype Cell = Cell(level: int, first: bool, second: bool)

  function Level(bit: bool): int {
    if bit then 1 else -1
  }

  // Sample `k` of a cell of `n`: shaped in the halves that ride a transition.
  function Pulse(sine: Table, cell: Cell, n: positive, k: nat): int {
    var ph := k * (TURN / n);
    var shaped := if ph < HALF_TURN then cell.first else cell.second;
    cell.level * (if shaped then sine(ph / 2) else AMPLITUDE)
  }

  function CellFrom(sine: Table, cell: Cell, n: positive, k: nat): (s: seq<int>)
    requires k <= n
    ensures |s| == n - k
    decreases n - k
  {
    if k == n then [] else [Pulse(sine, cell, n, k)] + CellFrom(sine, cell, n, k + 1)
  }

  lemma {:induction false} CellFromAt(sine: Table, cell: Cell, n: positive, k: nat, j: nat)
    requires k + j < n
    ensures CellFrom(sine, cell, n, k)[j] == Pulse(sine, cell, n, k + j)
    decreases j
  {
    hide Pulse;
    if j > 0 {
      CellFromAt(sine, cell, n, k + 1, j - 1);
      assert k + 1 + (j - 1) == k + j;
    }
  }

  // Within a cell the phase never wraps.
  lemma PhaseStays(n: positive, k: nat)
    requires k < n
    ensures k * (TURN / n) < TURN && k * (TURN / n) + TURN / n <= TURN
  {
    var step := TURN / n;
    assert TURN == step * n + TURN % n;
    MulMonotone(k + 1, n, step);
    assert (k + 1) * step == k * step + step;
    if step == 0 {
      assert k * step == 0;
    }
  }

  lemma PhaseMoves(n: positive, k: nat, step: nat)
    requires k < n && step == TURN / n
    ensures k * step < TURN
    ensures k + 1 < n ==> (k * step + step) % TURN == (k + 1) * step
  {
    PhaseStays(n, k);
    assert (k + 1) * step == k * step + step;
    if k + 1 < n {
      PhaseStays(n, k + 1);
    }
  }

  lemma CellFromHead(sine: Table, cell: Cell, n: positive, k: nat)
    requires k < n
    ensures CellFrom(sine, cell, n, k) == [Pulse(sine, cell, n, k)] + CellFrom(sine, cell, n, k + 1)
  {
  }

  // Which half a sample falls in. Only the middle sample of an even cell is not
  // where its time says: it counts as first-half exactly when the cell length
  // does not divide the turn, since the step was then rounded down.
  lemma WhichHalf(n: positive, k: nat)
    requires k < n <= 65535
    ensures 2 * k < n ==> k * (TURN / n) < HALF_TURN
    ensures 2 * k > n ==> k * (TURN / n) >= HALF_TURN
    ensures 2 * k == n ==> (k * (TURN / n) < HALF_TURN <==> TURN % n != 0)
  {
    var step, r := TURN / n, TURN % n;
    assert TURN == step * n + r;
    assert (2 * k) * step == 2 * (k * step);
    if 2 * k < n {
      MulMonotone(2 * k + 1, n, step);
      assert (2 * k + 1) * step == 2 * (k * step) + step;
      StepIsPositive(n);
    } else if 2 * k > n {
      MulMonotone(n + 1, 2 * k, step);
      assert (n + 1) * step == step * n + step;
      StepBeatsRemainder(n);
    }
  }

  lemma StepIsPositive(n: positive)
    requires n <= 65535
    ensures TURN / n > 0
  {
  }

  lemma DivAtLeast(x: nat, d: positive, q: nat)
    requires q * d <= x
    ensures q <= x / d
  {
    assert x == (x / d) * d + x % d;
    if q > x / d {
      MulMonotone(x / d + 1, q, d);
    }
  }

  lemma StepBeatsRemainder(n: positive)
    requires n <= 65535
    ensures TURN / n >= n > TURN % n
  {
    MulMonotone(n, 65535, n);
    MulMonotone(n, 65535, 65535);
    DivAtLeast(TURN, n, n);
  }

  // ---------------------------------------------------------------- the batch waveform

  // What a bit's cell is made of: the bit and whether each neighbour differs.
  function CellOf(bits: seq<bool>, i: nat): Cell
    requires i < |bits|
  {
    Cell(Level(bits[i]), i > 0 && bits[i - 1] != bits[i], i + 1 < |bits| && bits[i + 1] != bits[i])
  }

  function CellSize(c: Config, i: nat): (n: positive)
    requires c.rate / c.baud >= 2
    ensures n == CellLen(c.rate, c.baud, i) && n >= 2
  {
    CellLenBounds(c.rate, c.baud, i);
    CellLen(c.rate, c.baud, i)
  }

  // Bits from `i` on, each as its own cell.
  function WaveFrom(c: Config, bits: seq<bool>, i: nat): seq<int>
    requires c.rate / c.baud >= 2 && i <= |bits|
    decreases |bits| - i
  {
    if i == |bits| then []
    else CellFrom(c.sine, CellOf(bits, i), CellSize(c, i), 0) + WaveFrom(c, bits, i + 1)
  }

  function Wave(c: Config, bits: seq<bool>): seq<int>
    requires c.rate / c.baud >= 2
  {
    WaveFrom(c, bits, 0)
  }

  lemma {:induction false} WaveLength(c: Config, bits: seq<bool>, i: nat)
    requires c.rate / c.baud >= 2 && i <= |bits|
    ensures |WaveFrom(c, bits, i)| == Start(c.rate, c.baud, |bits|) - Start(c.rate, c.baud, i)
    decreases |bits| - i
  {
    hide Start, CellOf, CellFrom;
    if i < |bits| {
      WaveLength(c, bits, i + 1);
    }
  }

  // Every sample of the wave, in terms of the one cell it lies in.
  lemma {:induction false} WaveAt(c: Config, bits: seq<bool>, from: nat, i: nat, s: nat)
    requires c.rate / c.baud >= 2 && from <= i < |bits|
    requires Start(c.rate, c.baud, i) <= s < Start(c.rate, c.baud, i + 1)
    ensures Start(c.rate, c.baud, from) <= s
    ensures s - Start(c.rate, c.baud, from) < |WaveFrom(c, bits, from)|
    ensures WaveFrom(c, bits, from)[s - Start(c.rate, c.baud, from)]
         == Pulse(c.sine, CellOf(bits, i), CellSize(c, i), s - Start(c.rate, c.baud, i))
    decreases i - from
  {
    CellLenBounds(c.rate, c.baud, from);
    hide Start, CellOf, Pulse;
    if from < i {
      WaveAt(c, bits, from + 1, i, s);
    } else {
      CellFromAt(c.sine, CellOf(bits, i), CellSize(c, i), 0, s - Start(c.rate, c.baud, i));
    }
  }

  // The pulse: full level beside an equal bit, and the sine's half turn between
  // unlike ones, rising through the first half of a cell and falling through the
  // second.
  lemma WaveShape(c: Config, bits: seq<bool>, i: nat, s: nat)
    requires c.rate / c.baud >= 2 && i < |bits| && CellLen(c.rate, c.baud, i) <= 65535
    requires Start(c.rate, c.baud, i) <= s < Start(c.rate, c.baud, i + 1)
    ensures s < |Wave(c, bits)|
    ensures var n, k, level := CellLen(c.rate, c.baud, i), s - Start(c.rate, c.baud, i), if bits[i] then 1 else -1;
            && (2 * k < n ==>
                  Wave(c, bits)[s]
                  == level * (if i > 0 && bits[i - 1] != bits[i] then c.sine(k * (0x1_0000_0000 / n) / 2) else 32767))
            && (2 * k > n ==>
                  Wave(c, bits)[s]
                  == level * (if i + 1 < |bits| && bits[i + 1] != bits[i] then c.sine(k * (0x1_0000_0000 / n) / 2)
                              else 32767))
  {
    NothingOwed(c.rate, c.baud);
    WaveAt(c, bits, 0, i, s);
    hide WaveFrom, Start;
    var n, k := CellSize(c, i), s - Start(c.rate, c.baud, i);
    WhichHalf(n, k);
    PulseIs(c.sine, CellOf(bits, i), n, k);
  }

  lemma PulseIs(sine: Table, cell: Cell, n: positive, k: nat)
    ensures var ph := k * (0x1_0000_0000 / n);
            && (ph < 0x8000_0000 ==>
                  Pulse(sine, cell, n, k) == cell.level * (if cell.first then sine(ph / 2) else 32767))
            && (ph >= 0x8000_0000 ==>
                  Pulse(sine, cell, n, k) == cell.level * (if cell.second then sine(ph / 2) else 32767))
  {
  }

  // Two bit sequences agree on a bit and on what lies next to it.
  predicate SameAround(a: seq<bool>, b: seq<bool>, i: nat) {
    && i < |a| && i < |b| && a[i] == b[i]
    && (i > 0 ==> a[i - 1] == b[i - 1])
    && (i + 1 < |a| <==> i + 1 < |b|) && (i + 1 < |a| ==> a[i + 1] == b[i + 1])
  }

  // Then their waves agree throughout that cell, however else they differ.
  lemma WaveIsLocal(c: Config, a: seq<bool>, b: seq<bool>, i: nat, s: nat)
    requires c.rate / c.baud >= 2 && SameAround(a, b, i)
    requires Start(c.rate, c.baud, i) <= s < Start(c.rate, c.baud, i + 1)
    ensures s < |Wave(c, a)| && s < |Wave(c, b)| && Wave(c, a)[s] == Wave(c, b)[s]
  {
    assert CellOf(a, i) == CellOf(b, i);
    NothingOwed(c.rate, c.baud);
    hide CellOf, Pulse, WaveFrom;
    WaveAt(c, a, 0, i, s);
    WaveAt(c, b, 0, i, s);
  }

  lemma SamplesFit(c: Config, cell: Cell, n: positive, k: nat)
    requires Correlator.Amplitude(c.sine) && -1 <= cell.level <= 1
    ensures -I16_MAX <= Pulse(c.sine, cell, n, k) <= I16_MAX
  {
    var ph := k * (TURN / n);
    assert -32767 <= c.sine(ph / 2) <= 32767;
  }

  // ---------------------------------------------------------------- one bit behind

  // What is still to be emitted when `pending`, if any, awaits its successor.
  function Following(c: Config, i: nat, pending: Option<(int, bool)>, bits: seq<bool>): seq<int>
    requires c.rate / c.baud >= 2
    decreases |bits|
  {
    match pending
    case None => if bits == [] then [] else Following(c, i, Some((Level(bits[0]), false)), bits[1..])
    case Some((level, inTrans)) =>
      if bits == [] then CellFrom(c.sine, Cell(level, inTrans, false), CellSize(c, i), 0)
      else
        var outTrans := level != Level(bits[0]);
        CellFrom(c.sine, Cell(level, inTrans, outTrans), CellSize(c, i), 0)
        + Following(c, i + 1, Some((Level(bits[0]), outTrans)), bits[1..])
  }

  lemma {:induction false} FollowingIsWave(c: Config, bits: seq<bool>, i: nat)
    requires c.rate / c.baud >= 2 && i < |bits|
    ensures Following(c, i, Some((Level(bits[i]), i > 0 && bits[i - 1] != bits[i])), bits[i + 1..])
         == WaveFrom(c, bits, i)
    decreases |bits| - i
  {
    hide CellFrom;
    if i + 1 < |bits| {
      FollowingIsWave(c, bits, i + 1);
      assert bits[i + 1..][1..] == bits[i + 2..];
    } else {
      WaveEnds(c, bits);
      var cell := CellFrom(c.sine, CellOf(bits, i), CellSize(c, i), 0);
      assert cell + [] == cell;
    }
  }

  lemma WaveEnds(c: Config, bits: seq<bool>)
    requires c.rate / c.baud >= 2
    ensures WaveFrom(c, bits, |bits|) == []
  {
  }

  // The streaming form, one bit behind, emits the batch waveform.
  lemma LookaheadIsBatch(c: Config, bits: seq<bool>)
    requires c.rate / c.baud >= 2
    ensures Following(c, 0, None, bits) == Wave(c, bits)
    ensures |Wave(c, bits)| == |bits| * c.rate / c.baud
  {
    WaveLength(c, bits, 0);
    NothingOwed(c.rate, c.baud);
    if bits != [] {
      FollowingIsWave(c, bits, 0);
    }
  }

  // ---------------------------------------------------------------- the machine

  /**
   * The source's modulator. `cells` counts the cells started and `n` is the
   * length of the current one.
   */
  class BasebandModulator {
    const config: Config
    const wholePerBit: nat
    const remPerBit: nat
    var remAcc: nat
    var pendingLevel: int
    var havePending: bool
    var pendingInTrans: bool
    var level: int
    var firstShaped: bool
    var secondShaped: bool
    var ph: nat
    var phStep: nat
    var remaining: nat
    ghost var cells: nat
    ghost var n: positive

    constructor (config: Config)
      requires SamplesPerBit(config.rate, config.baud).Ok?
      ensures Valid() && this.config == config && cells == 0
      ensures Pending() == None && Current() == []
    {
      this.config := config;
      wholePerBit := config.rate / config.baud;
      remPerBit := config.rate % config.baud;
      remAcc, ph, phStep, remaining := 0, 0, 0, 0;
      pendingLevel, level := 0, 0;
      havePending, pendingInTrans, firstShaped, secondShaped := false, false, false, false;
      cells, n := 0, 1;
      new;
      NothingOwed(config.rate, config.baud);
    }

    ghost predicate Configured() {
      && config.rate / config.baud >= 2
      && wholePerBit == config.rate / config.baud && remPerBit == config.rate % config.baud
    }

    ghost predicate Valid()
      reads this
    {
      && Configured()
      && remAcc == Owed(config.rate, config.baud, cells)
      && remaining <= n && -1 <= level <= 1 && -1 <= pendingLevel <= 1
      && (remaining > 0 ==> phStep == TURN / n && ph == (n - remaining) * phStep)
    }

    function Pending(): Option<(int, bool)>
      reads this
    {
      if havePending then Some((pendingLevel, pendingInTrans)) else None
    }

    ghost function CurrentCell(): Cell
      reads this
    {
      Cell(level, firstShaped, secondShaped)
    }

    // What is left of the cell being emitted.
    ghost function Current(): seq<int>
      requires Valid()
      reads this
    {
      CellFrom(config.sine, CurrentCell(), n, n - remaining)
    }

    // The length of the next cell, a sample longer whenever a whole one is owed.
    method NextLen() returns (len: nat)
      requires Valid()
      modifies this`remAcc
      ensures len == CellSize(config, cells) && remAcc == Owed(config.rate, config.baud, cells + 1)
    {
      AccumulatorIsSchedule(config.rate, config.baud, cells);
      hide Owed, CellLen;
      remAcc := remAcc + remPerBit;
      len := wholePerBit;
      if remAcc >= config.baud {
        remAcc := remAcc - config.baud;
        len := len + 1;
      }
    }

    method StartCell(level: int, firstShaped: bool, secondShaped: bool)
      requires Valid() && -1 <= level <= 1
      modifies this
      ensures Valid() && cells == old(cells) + 1 && Pending() == old(Pending())
      ensures Current()
           == CellFrom(config.sine, Cell(level, firstShaped, secondShaped), CellSize(config, old(cells)), 0)
    {
      hide Configured, Owed, CellLen, CellFrom;
      var len: positive := NextLen();
      this.level := level;
      this.firstShaped := firstShaped;
      this.secondShaped := secondShaped;
      ph := 0;
      phStep := TURN / len;
      remaining := len;
      n := len;
      cells := cells + 1;
    }

    // The previous bit's cell starts, now that its successor is known; what was
    // left of the one before is dropped.
    method Feed(bit: bool)
      requires Valid()
      modifies this
      ensures Valid()
      ensures match old(Pending())
              case None =>
                Pending() == Some((Level(bit), false)) && cells == old(cells) && Current() == old(Current())
              case Some((level, inTrans)) =>
                var outTrans := level != Level(bit);
                && Pending() == Some((Level(bit), outTrans)) && cells == old(cells) + 1
                && Current() == CellFrom(config.sine, Cell(level, inTrans, outTrans), CellSize(config, old(cells)), 0)
    {
      hide Owed, CellLen, CellFrom;
      var newLevel := if bit then 1 else -1;
      if havePending {
        var outTrans := pendingLevel != newLevel;
        StartCell(pendingLevel, pendingInTrans, outTrans);
        pendingInTrans := outTrans;
      } else {
        havePending := true;
        pendingInTrans := false;
      }
      pendingLevel := newLevel;
    }

    // The last bit's cell, flat in its second half.
    method Finish()
      requires Valid()
      modifies this
      ensures Valid() && Pending() == None
      ensures match old(Pending())
              case None => cells == old(cells) && Current() == old(Current())
              case Some((level, inTrans)) =>
                && cells == old(cells) + 1
                && Current() == CellFrom(config.sine, Cell(level, inTrans, false), CellSize(config, old(cells)), 0)
    {
      hide Owed, CellLen, CellFrom;
      if havePending {
        StartCell(pendingLevel, pendingInTrans, false);
        havePending := false;
        pendingInTrans := false;
      }
    }

    lemma CurrentHead()
      requires Valid() && remaining > 0
      ensures Current() == [Pulse(config.sine, CurrentCell(), n, n - remaining)]
                           + CellFrom(config.sine, CurrentCell(), n, n - remaining + 1)
    {
      CellFromHead(config.sine, CurrentCell(), n, n - remaining);
    }

    // The magnitude at the current phase, with the level's sign.
    function Raw(): int
      reads this
    {
      var shaped := if ph < HALF_TURN then firstShaped else secondShaped;
      level * (if shaped then config.sine(ph / 2) else AMPLITUDE)
    }

    method NextRaw() returns (r: Option<int>)
      requires Valid()
      modifies this`ph, this`remaining
      ensures Valid()
      ensures old(Current()) == [] ==> r == None && Current() == []
      ensures old(Current()) != [] ==> r.Some? && old(Current()) == [r.value] + Current()
    {
      hide Owed, CellFrom;
      if remaining == 0 {
        return None;
      }
      CurrentHead();
      PhaseMoves(n, n - remaining, phStep);
      r := Some(Raw());
      assert Raw() == Pulse(config.sine, CurrentCell(), n, n - remaining);
      hide Pulse, Raw;
      ph := (ph + phStep) % TURN;
      remaining := remaining - 1;
    }

    // The clamp to 16 bits never acts.
    method NextI16() returns (r: Option<int>)
      requires Valid() && Correlator.Amplitude(config.sine)
      modifies this`ph, this`remaining
      ensures Valid()
      ensures old(Current()) == [] ==> r == None && Current() == []
      ensures old(Current()) != [] ==> r.Some? && old(Current()) == [r.value] + Current()
    {
      ghost var k := n - remaining;
      if remaining > 0 {
        CurrentHead();
        SamplesFit(config, CurrentCell(), n, k);
      }
      hide CellFrom, Pulse, Owed;
      r := NextRaw();
      if r.Some? {
        var v := r.value;
        r := Some(if v > I16_MAX then I16_MAX else if v < -I16_MAX - 1 then -I16_MAX - 1 else v);
      }
    }
  }

  /** Samples from bits; `Rest` is everything still to come. */
  class BasebandI16Samples {
    const modulator: BasebandModulator
    const bits: seq<bool>
    var pos: nat
    var flushed: bool

    constructor (modulator: BasebandModulator, bits: seq<bool>)
      requires modulator.Valid() && Correlator.Amplitude(modulator.config.sine)
      ensures Valid() && this.modulator == modulator && this.bits == bits && pos == 0 && !flushed
    {
      this.modulator := modulator;
      this.bits := bits;
      pos := 0;
      flushed := false;
    }

    ghost predicate Valid()
      reads this, modulator
    {
      && modulator.Valid() && Correlator.Amplitude(modulator.config.sine) && pos <= |bits|
      && (flushed ==> pos == |bits| && modulator.Pending() == None)
    }

    ghost function Rest(): seq<int>
      requires Valid()
      reads this, modulator
    {
      modulator.Current() + Following(modulator.config, modulator.cells, modulator.Pending(), bits[pos..])
    }

    // With its cell emitted, the modulator takes the next bit, or is flushed.
    method Advance()
      requires Valid() && modulator.Current() == [] && !flushed
      modifies this, modulator
      ensures Valid() && Rest() == old(Rest())
      ensures if old(pos) < |bits| then pos == old(pos) + 1 && !flushed else pos == old(pos) && flushed
    {
      hide CellFrom, Amplitude;
      if pos < |bits| {
        assert bits[pos..][1..] == bits[pos + 1..];
        modulator.Feed(bits[pos]);
        pos := pos + 1;
      } else {
        flushed := true;
        modulator.Finish();
      }
    }

    method Next() returns (r: Option<int>)
      requires Valid()
      modifies this, modulator
      ensures Valid()
      ensures r == if old(Rest()) == [] then None else Some(old(Rest())[0])
      ensures Rest() == if old(Rest()) == [] then [] else old(Rest())[1..]
    {
      hide CellFrom, Amplitude;
      while true
        invariant Valid() && Rest() == old(Rest())
        decreases |bits| - pos, if flushed then 0 else 1
      {
        var sample := modulator.NextI16();
        if sample.Some? {
          return sample;
        }
        if flushed {
          return None;
        }
        Advance();
      }
    }
  }

  // A fresh modulator over a bit sequence: everything to come is the batch
  // waveform, of exactly floor(bits * rate / baud) samples.
  method Samples(config: Config, bits: seq<bool>) returns (r: Result<BasebandI16Samples, ConfigError>)
    requires Correlator.Amplitude(config.sine)
    ensures match SamplesPerBit(config.rate, config.baud)
            case Err(e) => r == Err(e)
            case Ok(_) => r.Ok? && fresh(r.value) && fresh(r.value.modulator) && r.value.Valid()
                          && r.value.Rest() == Wave(config, bits)
                          && |r.value.Rest()| == |bits| * config.rate / config.baud
  {
    if SamplesPerBit(config.rate, config.baud).Err? {
      return Err(SamplesPerBit(config.rate, config.baud).error);
    }
    var m := new BasebandModulator(config);
    var it := new BasebandI16Samples(m, bits);
    LookaheadIsBatch(config, bits);
    hide Wave, Following, Amplitude;
    return Ok(it);
  }
}
