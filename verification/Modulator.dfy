/**
 * The continuous-phase AFSK modulator: one tone a bit, exact rate, and a phase
 * that nothing ever resets. The sine table is any function of the phase.
 */
module Modulator {
  import opened Prelude
  import opened Rate
  import opened Correlator

  // ---------------------------------------------------------------- the waveform

  datatype Config = Config(rate: nat, baud: positive, mark: nat, space: nat)

  // The phase step of a bit's tone.
  function Inc(c: Config, bit: bool): nat {
    if bit then c.mark else c.space
  }

  // The phase steps of every sample of these bits, the first of them being cell `i`.
  function Steps(c: Config, i: nat, bits: seq<bool>): seq<nat>
    decreases |bits|
  {
    CellLenBounds(c.rate, c.baud, i);
    if bits == [] then [] else Repeat(CellLen(c.rate, c.baud, i), Inc(c, bits[0])) + Steps(c, i + 1, bits[1..])
  }

  // The samples of a run of steps, from a phase.
  function Sound(sine: Table, phase: nat, steps: seq<nat>): (s: seq<int>)
    ensures |s| == |steps|
    decreases |steps|
  {
    if steps == [] then [] else [sine(phase)] + Sound(sine, (phase + steps[0]) % TURN, steps[1..])
  }

  function Total(steps: seq<nat>): nat {
    if steps == [] then 0 else steps[0] + Total(steps[1..])
  }

  // The phase of every sample is the sum, modulo one turn, of every step taken
  // before it: bit boundaries leave no trace.
  lemma {:induction false} PhaseIsContinuous(sine: Table, phase: nat, steps: seq<nat>, k: nat)
    requires k < |steps| && phase < TURN
    ensures Sound(sine, phase, steps)[k] == sine((phase + Total(steps[..k])) % TURN)
    decreases |steps|
  {
    if k == 0 {
      assert steps[..0] == [] && Total([]) == 0;
    } else {
      PhaseIsContinuous(sine, (phase + steps[0]) % TURN, steps[1..], k - 1);
      assert steps[..k][1..] == steps[1..][..k - 1];
      ModAdd(phase + steps[0], Total(steps[1..][..k - 1]));
    }
  }

  // Exactly floor(bits * rate / baud) samples from a fresh start.
  lemma {:induction false} StepCount(c: Config, i: nat, bits: seq<bool>)
    ensures |Steps(c, i, bits)| == Start(c.rate, c.baud, i + |bits|) - Start(c.rate, c.baud, i)
    decreases |bits|
  {
    if bits != [] {
      StepCount(c, i + 1, bits[1..]);
      CellLenBounds(c.rate, c.baud, i);
      assert i + 1 + |bits[1..]| == i + |bits|;
    }
  }

  // Sample by sample, the step is that of the bit in whose cell the sample lies.
  lemma {:induction false} StepsFollowBits(c: Config, i: nat, bits: seq<bool>, j: nat, s: nat)
    requires j < |bits|
    requires Start(c.rate, c.baud, i + j) <= s < Start(c.rate, c.baud, i + j + 1)
    ensures Start(c.rate, c.baud, i) <= s
    ensures var at := s - Start(c.rate, c.baud, i);
            at < |Steps(c, i, bits)| && Steps(c, i, bits)[at] == if bits[j] then c.mark else c.space
    decreases |bits|
  {
    CellLenBounds(c.rate, c.baud, i);
    hide Start;
    if j > 0 {
      assert i + 1 + (j - 1) == i + j;
      StepsFollowBits(c, i + 1, bits[1..], j - 1, s);
    }
  }

  lemma {:induction false} TotalOfEqual(steps: seq<nat>, inc: nat)
    requires forall k :: 0 <= k < |steps| ==> steps[k] == inc
    ensures Total(steps) == |steps| * inc
  {
    if steps != [] {
      TotalOfEqual(steps[1..], inc);
      assert |steps| * inc == inc + (|steps| - 1) * inc;
    }
  }

  lemma {:induction false} SteadySteps(c: Config, i: nat, bits: seq<bool>, bit: bool)
    requires forall k :: 0 <= k < |bits| ==> bits[k] == bit
    ensures forall k :: 0 <= k < |Steps(c, i, bits)| ==> Steps(c, i, bits)[k] == if bit then c.mark else c.space
    decreases |bits|
  {
    if bits != [] {
      SteadySteps(c, i + 1, bits[1..], bit);
    }
  }

  // Ones on end sound the mark tone and zeros the space tone, from the first
  // sample to the last.
  lemma SteadyTone(sine: Table, c: Config, bits: seq<bool>, bit: bool, k: nat)
    requires (forall j :: 0 <= j < |bits| ==> bits[j] == bit) && k < |Steps(c, 0, bits)|
    ensures Sound(sine, 0, Steps(c, 0, bits))[k] == sine(k * (if bit then c.mark else c.space) % 0x1_0000_0000)
  {
    var steps := Steps(c, 0, bits);
    SteadySteps(c, 0, bits, bit);
    hide Steps, Sound;
    PhaseIsContinuous(sine, 0, steps, k);
    TotalOfEqual(steps[..k], if bit then c.mark else c.space);
  }

  // ---------------------------------------------------------------- the machine

  /**
   * The source's modulator; `cells` counts the bits fed to it.
   */
  class Modulator {
    const sine: Table
    const config: Config
    const wholePerBit: nat
    const remPerBit: nat
    var phase: nat
    var incCurrent: nat
    var remAcc: nat
    var remaining: nat
    ghost var cells: nat

    constructor (sine: Table, config: Config)
      ensures Valid() && cells == 0 && phase == 0 && remaining == 0
      ensures this.sine == sine && this.config == config
    {
      this.sine := sine;
      this.config := config;
      wholePerBit := config.rate / config.baud;
      remPerBit := config.rate % config.baud;
      phase, remAcc, remaining := 0, 0, 0;
      incCurrent := config.mark;
      cells := 0;
      NothingOwed(config.rate, config.baud);
    }

    ghost predicate Valid()
      reads this
    {
      && wholePerBit == config.rate / config.baud && remPerBit == config.rate % config.baud
      && remAcc == Owed(config.rate, config.baud, cells) && phase < TURN
    }

    // Selects the bit's tone and owes its cell; the phase goes on from where it is.
    method Feed(bit: bool)
      requires Valid()
      modifies this`incCurrent, this`remAcc, this`remaining, this`cells
      ensures Valid() && cells == old(cells) + 1
      ensures incCurrent == Inc(config, bit) && remaining == CellLen(config.rate, config.baud, old(cells))
    {
      AccumulatorIsSchedule(config.rate, config.baud, cells);
      hide Owed, CellLen;
      incCurrent := if bit then config.mark else config.space;
      remAcc := remAcc + remPerBit;
      var extra := 0;
      if remAcc >= config.baud {
        remAcc := remAcc - config.baud;
        extra := 1;
      }
      remaining := wholePerBit + extra;
      cells := cells + 1;
    }

    method NextI16() returns (r: Option<int>)
      requires Valid()
      modifies this`phase, this`remaining
      ensures Valid()
      ensures old(remaining) == 0 ==> r == None && phase == old(phase) && remaining == 0
      ensures old(remaining) > 0 ==> r == Some(sine(old(phase))) && remaining == old(remaining) - 1
                                     && phase == (old(phase) + incCurrent) % TURN
    {
      if remaining == 0 {
        return None;
      }
      remaining := remaining - 1;
      r := Some(sine(phase));
      phase := (phase + incCurrent) % TURN;
    }
  }

  /** Samples from bits; `Rest` is everything still to come. */
  class I16Samples {
    const modulator: Modulator
    const bits: seq<bool>
    var pos: nat

    constructor (modulator: Modulator, bits: seq<bool>)
      requires modulator.Valid()
      ensures Valid() && this.modulator == modulator && this.bits == bits && pos == 0
    {
      this.modulator := modulator;
      this.bits := bits;
      pos := 0;
    }

    ghost predicate Valid()
      reads this, modulator
    {
      modulator.Valid() && pos <= |bits|
    }

    ghost function Ahead(): seq<nat>
      requires Valid()
      reads this, modulator
    {
      Repeat(modulator.remaining, modulator.incCurrent) + Steps(modulator.config, modulator.cells, bits[pos..])
    }

    ghost function Rest(): seq<int>
      requires Valid()
      reads this, modulator
    {
      Sound(modulator.sine, modulator.phase, Ahead())
    }

    // The bit under the cursor, fed, is the first thing ahead.
    method FeedNext()
      requires Valid() && modulator.remaining == 0 && pos < |bits|
      modifies this, modulator
      ensures Valid() && Rest() == old(Rest()) && pos == old(pos) + 1
    {
      hide CellLen, Start, Sound;
      assert bits[pos..][1..] == bits[pos + 1..];
      assert Ahead() == Steps(modulator.config, modulator.cells, bits[pos..]);
      modulator.Feed(bits[pos]);
      pos := pos + 1;
    }

    method Next() returns (r: Option<int>)
      requires Valid()
      modifies this, modulator
      ensures Valid()
      ensures r == if old(Rest()) == [] then None else Some(old(Rest())[0])
      ensures Rest() == if old(Rest()) == [] then [] else old(Rest())[1..]
    {
      hide Steps;
      while true
        invariant Valid() && Rest() == old(Rest())
        decreases |bits| - pos
      {
        ghost var ahead := Ahead();
        var sample := modulator.NextI16();
        if sample.Some? {
          assert ahead[1..] == Ahead();
          return sample;
        }
        if pos == |bits| {
          NoSteps(modulator.config, modulator.cells);
          assert bits[pos..] == [] && Ahead() == [];
          return None;
        }
        FeedNext();
      }
    }
  }

  lemma NoSteps(c: Config, i: nat)
    ensures Steps(c, i, []) == []
  {
  }

  // A fresh modulator over a bit sequence: everything to come, from phase zero,
  // in exactly floor(bits * rate / baud) samples.
  method Samples(sine: Table, config: Config, bits: seq<bool>) returns (it: I16Samples)
    ensures fresh(it) && fresh(it.modulator) && it.Valid()
    ensures it.Rest() == Sound(sine, 0, Steps(config, 0, bits))
    ensures |it.Rest()| == |bits| * config.rate / config.baud
  {
    hide Steps, Sound;
    var m := new Modulator(sine, config);
    it := new I16Samples(m, bits);
    StepCount(config, 0, bits);
    NothingOwed(config.rate, config.baud);
    assert it.Ahead() == Steps(config, 0, bits);
  }
}
