/**
 * FT8's symbol layer: Gray-mapped tones between Costas arrays, and max-log LLRs
 * from tone energies, over the reals.
 */
module Ft8Symbols {
  import opened Bits
  import opened Ft8Ldpc
  import opened Ft8MinSum

  const SYMBOL_COUNT: nat := 79
  const DATA_SYMBOLS: nat := 58
  const COSTAS: seq<nat> := [3, 1, 4, 0, 6, 5, 2]
  const GRAY_MAP: seq<nat> := [0, 1, 3, 2, 5, 6, 4, 7]
  const F32_MIN: real := -F32_MAX
  // 2^-126
  const F32_MIN_POSITIVE: real := 1.0 / 85070591730234615865843651857942052864.0

  // ---------------------------------------------------------------- bits to symbols

  function Group(word: Word, j: nat): (g: nat)
    requires j < DATA_SYMBOLS
    ensures g < 8
  {
    (if word[3 * j] then 4 else 0) + (if word[3 * j + 1] then 2 else 0) + (if word[3 * j + 2] then 1 else 0)
  }

  function Tone(word: Word, j: nat): (t: nat)
    requires j < DATA_SYMBOLS
    ensures t < 8
  {
    GRAY_MAP[Group(word, j)]
  }

  // Where data symbol `j` goes among the 79.
  function Position(j: nat): nat {
    if j < 29 then 7 + j else 43 + (j - 29)
  }

  predicate Framed(symbols: seq<nat>, word: Word) {
    && |symbols| == SYMBOL_COUNT
    && symbols[0..7] == COSTAS && symbols[36..43] == COSTAS && symbols[72..79] == COSTAS
    && forall j :: 0 <= j < DATA_SYMBOLS ==> symbols[Position(j)] == Tone(word, j)
  }

  method PlaceCostas(out: array<nat>, at: nat)
    requires at + 7 <= out.Length
    modifies out
    ensures out[at..at + 7] == COSTAS
    ensures forall p :: 0 <= p < out.Length && !(at <= p < at + 7) ==> out[p] == old(out[p])
  {
    for i := 0 to 7
      invariant forall k :: 0 <= k < i ==> out[at + k] == COSTAS[k]
      invariant forall p :: 0 <= p < out.Length && !(at <= p < at + 7) ==> out[p] == old(out[p])
    {
      out[at + i] := COSTAS[i];
    }
  }

  method ReadTone(codeword: seq<Octet>, ghost word: Word, j: nat) returns (tone: nat)
    requires |codeword| == 22 && j < DATA_SYMBOLS && word == ToBits(codeword)[..CODEWORD_BITS]
    ensures tone == Tone(word, j)
  {
    var bits := 0;
    for b := 0 to 3
      invariant b == 0 ==> bits == 0
      invariant b == 1 ==> bits == (if word[3 * j] then 1 else 0)
      invariant b == 2 ==> bits == (if word[3 * j] then 2 else 0) + (if word[3 * j + 1] then 1 else 0)
      invariant b == 3 ==> bits == Group(word, j)
    {
      bits := 2 * bits + (if ReadBit(codeword, 3 * j + b) then 1 else 0);
    }
    tone := GRAY_MAP[bits];
  }

  predicate InCostas(p: nat) {
    p < 7 || 36 <= p < 43 || 72 <= p < 79
  }

  method PlaceData(codeword: seq<Octet>, ghost word: Word, out: array<nat>)
    requires |codeword| == 22 && word == ToBits(codeword)[..CODEWORD_BITS] && out.Length == SYMBOL_COUNT
    modifies out
    ensures forall j :: 0 <= j < DATA_SYMBOLS ==> out[Position(j)] == Tone(word, j)
    ensures forall p :: 0 <= p < SYMBOL_COUNT && InCostas(p) ==> out[p] == old(out[p])
  {
    hide Tone, ToBits;
    for j := 0 to DATA_SYMBOLS
      invariant forall k :: 0 <= k < j ==> out[Position(k)] == Tone(word, k)
      invariant forall p :: 0 <= p < SYMBOL_COUNT && InCostas(p) ==> out[p] == old(out[p])
    {
      out[Position(j)] := ReadTone(codeword, word, j);
    }
  }

  method SymbolsFromCodeword(codeword: seq<Octet>) returns (symbols: seq<nat>)
    requires |codeword| == 22
    ensures Framed(symbols, ToBits(codeword)[..CODEWORD_BITS])
  {
    ghost var word: Word := ToBits(codeword)[..CODEWORD_BITS];
    hide Tone, ToBits;
    var out := new nat[SYMBOL_COUNT](_ => 0);
    PlaceCostas(out, 0);
    PlaceCostas(out, 36);
    PlaceCostas(out, 72);
    assert out[0..7] == COSTAS && out[36..43] == COSTAS;
    PlaceData(codeword, word, out);
    symbols := out[..];
    assert symbols[0..7] == COSTAS && symbols[36..43] == COSTAS && symbols[72..79] == COSTAS;
  }

  // Every one of the 79 symbols is one of the eight tones.
  lemma SymbolsAreTones(symbols: seq<nat>, word: Word, p: nat)
    requires Framed(symbols, word) && p < SYMBOL_COUNT
    ensures symbols[p] < 8
  {
    if p < 7 {
      assert symbols[p] == symbols[0..7][p];
    } else if p < 36 {
      assert symbols[Position(p - 7)] == Tone(word, p - 7);
    } else if p < 43 {
      assert symbols[p] == symbols[36..43][p - 36];
    } else if p < 72 {
      assert symbols[Position(p - 14)] == Tone(word, p - 14);
    } else {
      assert symbols[p] == symbols[72..79][p - 72];
    }
  }

  // A Costas array: no two pairs of its tones are the same distance apart in time
  // and in frequency.
  lemma CostasHasDistinctDisplacements(i: nat, j: nat, d: nat)
    requires 0 < d && i < j && j + d < 7
    ensures COSTAS[i + d] as int - COSTAS[i] as int != COSTAS[j + d] as int - COSTAS[j] as int
  {
  }

  lemma CostasIsPublished()
    ensures COSTAS == [3, 1, 4, 0, 6, 5, 2]
  {
  }

  // Data symbols fill, in order, exactly the places the arrays leave free.
  lemma DataFillsGaps(p: nat)
    requires p < 79
    ensures (p < 7 || 36 <= p < 43 || p >= 72) <==> !exists j: nat :: j < 58 && Position(j) == p
    ensures forall i: nat, j: nat :: i < j < 58 ==> Position(i) < Position(j)
  {
    if 7 <= p < 36 {
      assert Position(p - 7) == p;
    } else if 43 <= p < 72 {
      assert Position(p - 14) == p;
    }
  }

  // ---------------------------------------------------------------- energies to bits

  type ToneEnergies = e: seq<real> | |e| == 8 witness [0.0, 0.0, 0.0, 0.0, 0.0, 0.0, 0.0, 0.0]

  type Energies = e: seq<ToneEnergies> | |e| == DATA_SYMBOLS
    witness seq<ToneEnergies>(DATA_SYMBOLS, _ => [0.0, 0.0, 0.0, 0.0, 0.0, 0.0, 0.0, 0.0])

  // Bit `b` of the three-bit group that the Gray map sends to a tone.
  function ToneBit(tone: nat, b: nat): bool
    requires tone < 8 && b < 3
  {
    var group := [0, 1, 3, 2, 6, 4, 5, 7][tone];
    if b == 0 then group / 4 == 1 else if b == 1 then group / 2 % 2 == 1 else group % 2 == 1
  }

  // A Gray map: neighbouring tones differ in one bit; the lowest is all zeros, the
  // highest all ones.
  lemma NeighboursDifferInOneBit(t: nat)
    requires t < 7
    ensures exists b: nat :: b < 3 && NextDiffersOnlyAt(t, b)
    ensures forall b: nat :: b < 3 ==> !ToneBit(0, b) && ToneBit(7, b)
  {
    var b := [2, 1, 2, 0, 1, 2, 1][t];
    assert NextDiffersOnlyAt(t, b);
  }

  predicate NextDiffersOnlyAt(t: nat, b: nat)
    requires t < 7
  {
    forall c: nat :: c < 3 ==> (ToneBit(t, c) != ToneBit(t + 1, c) <==> c == b)
  }

  // The published tone of each group.
  lemma ToneOfGroup(word: Word, j: nat)
    requires j < 58
    ensures var g := 4 * One(word[3 * j]) + 2 * One(word[3 * j + 1]) + One(word[3 * j + 2]);
            Tone(word, j) == [0, 1, 3, 2, 5, 6, 4, 7][g]
  {
  }

  function One(bit: bool): (n: nat)
    ensures n <= 1
  {
    if bit then 1 else 0
  }

  lemma GrayInverse(word: Word, j: nat, b: nat)
    requires j < DATA_SYMBOLS && b < 3
    ensures ToneBit(Tone(word, j), b) == word[3 * j + b]
  {
  }

  // Largest energy among the first `n` tones whose bit `b` is `bit`.
  function MaxOver(e: ToneEnergies, b: nat, bit: bool, n: nat): real
    requires b < 3 && n <= 8
  {
    if n == 0 then F32_MIN
    else
      var m := MaxOver(e, b, bit, n - 1);
      if ToneBit(n - 1, b) == bit && e[n - 1] > m then e[n - 1] else m
  }

  function RowSum(e: ToneEnergies, n: nat): real
    requires n <= 8
  {
    if n == 0 then 0.0 else RowSum(e, n - 1) + e[n - 1]
  }

  function TotalEnergy(e: Energies, n: nat): real
    requires n <= DATA_SYMBOLS
  {
    if n == 0 then 0.0 else TotalEnergy(e, n - 1) + RowSum(e[n - 1], 8)
  }

  function Mean(e: Energies): (m: real)
    ensures m > 0.0
  {
    var m := TotalEnergy(e, DATA_SYMBOLS) / 464.0;
    if m > F32_MIN_POSITIVE then m else F32_MIN_POSITIVE
  }

  function Llrs(e: Energies): Soft {
    seq(CODEWORD_BITS, i requires 0 <= i < CODEWORD_BITS =>
      (MaxOver(e[i / 3], i % 3, false, 8) - MaxOver(e[i / 3], i % 3, true, 8)) / Mean(e))
  }

  // Bit `b` of a three-bit group, most significant first.
  predicate GroupBit(g: nat, b: nat) {
    if b == 0 then g / 4 == 1 else if b == 1 then g / 2 % 2 == 1 else g % 2 == 1
  }

  predicate IsInverse(inv: seq<nat>) {
    |inv| == 8 && forall t, b :: 0 <= t < 8 && 0 <= b < 3 ==> ToneBit(t, b) == GroupBit(inv[t], b)
  }

  method InverseGray() returns (inv: seq<nat>)
    ensures IsInverse(inv)
  {
    inv := [0, 0, 0, 0, 0, 0, 0, 0];
    for bits := 0 to 8
      invariant |inv| == 8
      invariant forall g :: 0 <= g < bits ==> inv[GRAY_MAP[g]] == g
    {
      inv := inv[GRAY_MAP[bits] := bits];
    }
    assert inv[GRAY_MAP[0]] == 0 && inv[GRAY_MAP[1]] == 1 && inv[GRAY_MAP[2]] == 2 && inv[GRAY_MAP[3]] == 3;
    assert inv[GRAY_MAP[4]] == 4 && inv[GRAY_MAP[5]] == 5 && inv[GRAY_MAP[6]] == 6 && inv[GRAY_MAP[7]] == 7;
    assert inv == [0, 1, 3, 2, 6, 4, 5, 7];
  }

  method MeanEnergy(e: Energies) returns (mean: real)
    ensures mean == Mean(e)
  {
    mean := 0.0;
    for j := 0 to DATA_SYMBOLS
      invariant mean == TotalEnergy(e, j)
    {
      for t := 0 to 8
        invariant mean == TotalEnergy(e, j) + RowSum(e[j], t)
      {
        mean := mean + e[j][t];
      }
    }
    mean := mean / (58.0 * 8.0);
    if mean < F32_MIN_POSITIVE {
      mean := F32_MIN_POSITIVE;
    }
  }

  // The best energies among the tones that say zero and those that say one.
  method BestOfEach(e: ToneEnergies, b: nat, inv: seq<nat>) returns (max0: real, max1: real)
    requires b < 3 && IsInverse(inv)
    ensures max0 == MaxOver(e, b, false, 8) && max1 == MaxOver(e, b, true, 8)
  {
    max0, max1 := F32_MIN, F32_MIN;
    for t := 0 to 8
      invariant max0 == MaxOver(e, b, false, t) && max1 == MaxOver(e, b, true, t)
    {
      var one := GroupBit(inv[t], b);
      if !one {
        if e[t] > max0 {
          max0 := e[t];
        }
      } else if e[t] > max1 {
        max1 := e[t];
      }
    }
  }

  method LlrsFromEnergies(e: Energies) returns (llr: seq<real>)
    ensures llr == Llrs(e)
  {
    var inv := InverseGray();
    var mean := MeanEnergy(e);
    hide Mean, MaxOver, IsInverse;
    var out := new real[CODEWORD_BITS](_ => 0.0);
    for j := 0 to DATA_SYMBOLS
      invariant forall k :: 0 <= k < 3 * j ==> out[k] == Llrs(e)[k]
    {
      for b := 0 to 3
        invariant forall k :: 0 <= k < 3 * j + b ==> out[k] == Llrs(e)[k]
      {
        var max0, max1 := BestOfEach(e[j], b, inv);
        var i := 3 * j + b;
        assert i / 3 == j && i % 3 == b;
        out[i] := (max0 - max1) / mean;
      }
    }
    llr := out[..];
  }

  // `tone` is the strict maximum of its symbol, and the values are f32 numbers.
  predicate Strongest(e: ToneEnergies, tone: nat)
    requires tone < 8
  {
    forall t :: 0 <= t < 8 ==> F32_MIN <= e[t] && (t != tone ==> e[t] < e[tone])
  }

  lemma {:induction false} MaxOverBounds(e: ToneEnergies, b: nat, bit: bool, tone: nat, n: nat)
    requires b < 3 && n <= 8 && tone < 8 && Strongest(e, tone)
    ensures ToneBit(tone, b) == bit && tone < n ==> MaxOver(e, b, bit, n) == e[tone]
    ensures ToneBit(tone, b) != bit ==> MaxOver(e, b, bit, n) < e[tone]
    ensures MaxOver(e, b, bit, n) <= e[tone]
  {
    var other := if tone == 0 then 1 else 0;
    assert F32_MIN <= e[other] < e[tone];
    if n > 0 {
      MaxOverBounds(e, b, bit, tone, n - 1);
    }
  }

  lemma DividedSign(x: real, m: real)
    requires m > 0.0
    ensures x / m < 0.0 <==> x < 0.0
  {
    var q := x / m;
    assert q * m == x;
    if q < 0.0 {
      assert q * m < 0.0;
    } else {
      assert q * m >= 0.0;
    }
  }

  // When every transmitted data tone is the strongest of its symbol, the hard
  // decision on the LLRs is the transmitted word.
  lemma HardDecisionRecoversWord(word: Word, e: Energies)
    requires forall j :: 0 <= j < DATA_SYMBOLS ==> Strongest(e[j], Tone(word, j))
    ensures Hard(Llrs(e)) == word
  {
    forall i | 0 <= i < CODEWORD_BITS
      ensures Hard(Llrs(e))[i] == word[i]
    {
      var j, b := i / 3, i % 3;
      var tone := Tone(word, j);
      GrayInverse(word, j, b);
      assert 3 * j + b == i;
      MaxOverBounds(e[j], b, false, tone, 8);
      MaxOverBounds(e[j], b, true, tone, 8);
      DividedSign(MaxOver(e[j], b, false, 8) - MaxOver(e[j], b, true, 8), Mean(e));
    }
  }

  // ---------------------------------------------------------------- the scale

  // One tone of each symbol holds all its energy.
  ghost predicate LoneTones(e: Energies, word: Word, power: real) {
    forall j, t :: 0 <= j < DATA_SYMBOLS && 0 <= t < 8 ==> e[j][t] == if t == Tone(word, j) then power else 0.0
  }

  lemma {:induction false} LoneRow(e: ToneEnergies, tone: nat, power: real, n: nat)
    requires n <= 8 && tone < 8 && forall t :: 0 <= t < 8 ==> e[t] == if t == tone then power else 0.0
    ensures RowSum(e, n) == if tone < n then power else 0.0
  {
    if n > 0 {
      LoneRow(e, tone, power, n - 1);
    }
  }

  lemma {:induction false} LoneTotal(e: Energies, word: Word, power: real, n: nat)
    requires n <= DATA_SYMBOLS && LoneTones(e, word, power)
    ensures TotalEnergy(e, n) == n as real * power
  {
    if n > 0 {
      LoneTotal(e, word, power, n - 1);
      hide Tone, RowSum;
      LoneRow(e[n - 1], Tone(word, n - 1), power, 8);
      assert n as real * power == (n - 1) as real * power + power;
    }
  }

  lemma {:induction false} LoneMax(e: ToneEnergies, b: nat, bit: bool, tone: nat, power: real, n: nat)
    requires b < 3 && n <= 8 && tone < 8 && power > 0.0
    requires forall t :: 0 <= t < 8 ==> e[t] == if t == tone then power else 0.0
    ensures ToneBit(tone, b) == bit && tone < n ==> MaxOver(e, b, bit, n) == power
    ensures !(ToneBit(tone, b) == bit && tone < n) ==>
              MaxOver(e, b, bit, n) == if exists t: nat :: t < n && ToneBit(t, b) == bit then 0.0 else F32_MIN
  {
    if n > 0 {
      LoneMax(e, b, bit, tone, power, n - 1);
    }
  }

  lemma BothKinds(b: nat, bit: bool)
    requires b < 3
    ensures exists t: nat :: t < 8 && ToneBit(t, b) == bit
  {
    assert !ToneBit(0, b) && ToneBit(7, b);
  }

  lemma Eighth(power: real)
    requires power > 0.0
    ensures (power - 0.0) / (power / 8.0) == 8.0 && (0.0 - power) / (power / 8.0) == -8.0
  {
    var m := power / 8.0;
    assert 8.0 * m == power;
    Quotient(8.0, m);
    Quotient(-8.0, m);
  }

  lemma Quotient(q: real, m: real)
    requires m > 0.0
    ensures q * m / m == q
  {
  }

  lemma LoneMean(e: Energies, word: Word, power: real)
    requires power >= 8.0 / 85070591730234615865843651857942052864.0 && LoneTones(e, word, power)
    ensures power > 0.0 && Mean(e) == power / 8.0
  {
    LoneTotal(e, word, power, DATA_SYMBOLS);
    hide LoneTones, TotalEnergy;
    assert 58.0 * power / 464.0 == power / 8.0;
  }

  lemma LoneBit(e: ToneEnergies, tone: nat, power: real, b: nat, bit: bool)
    requires b < 3 && tone < 8 && power > 0.0
    requires forall t :: 0 <= t < 8 ==> e[t] == if t == tone then power else 0.0
    ensures MaxOver(e, b, bit, 8) == if ToneBit(tone, b) == bit then power else 0.0
  {
    BothKinds(b, bit);
    LoneMax(e, b, bit, tone, power, 8);
    hide MaxOver, ToneBit;
  }

  // Energy in one tone of each symbol and no other makes every ratio 8, towards
  // zero for a clear bit, whatever the energy is.
  lemma LoneToneRatios(e: Energies, word: Word, power: real, i: nat)
    requires power >= 8.0 / 85070591730234615865843651857942052864.0 && LoneTones(e, word, power) && i < CODEWORD_BITS
    ensures Llrs(e)[i] == if word[i] then -8.0 else 8.0
  {
    var j, b := i / 3, i % 3;
    LoneMean(e, word, power);
    GrayInverse(word, j, b);
    assert 3 * j + b == i;
    assert forall t :: 0 <= t < 8 ==> e[j][t] == if t == Tone(word, j) then power else 0.0;
    hide LoneTones, Mean, MaxOver, ToneBit, Tone;
    LoneBit(e[j], Tone(word, j), power, b, false);
    LoneBit(e[j], Tone(word, j), power, b, true);
    Eighth(power);
  }
}
