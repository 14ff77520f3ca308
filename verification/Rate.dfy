/**
 * Fractional samples per bit: the remainder accumulator that both modulators
 * keep, and the schedule of cells it amounts to.
 */
module Rate {
  import opened Arith
  import opened Prelude

  datatype ConfigError = BaudExceedsSampleRate(baud: nat, sampleRate: nat)

  // Two samples a bit is the least that shaping and tone decisions can use.
  function SamplesPerBit(rate: nat, baud: positive): Result<nat, ConfigError> {
    if rate / baud < 2 then Err(BaudExceedsSampleRate(baud, rate)) else Ok(rate / baud)
  }

  // Where cell `i` starts if every cell is exactly rate / baud samples long.
  function Start(rate: nat, baud: positive, i: nat): nat {
    i * rate / baud
  }

  function CellLen(rate: nat, baud: positive, i: nat): int {
    Start(rate, baud, i + 1) - Start(rate, baud, i)
  }

  // The remainder owed before cell `i`.
  function Owed(rate: nat, baud: positive, i: nat): nat {
    i * rate % baud
  }

  lemma AddDivMod(a: nat, r: nat, b: positive)
    ensures var sum := a % b + r % b;
            var extra := if sum >= b then 1 else 0;
            (a + r) / b == a / b + r / b + extra && (a + r) % b == sum - extra * b
  {
    var q, m, q', m' := a / b, a % b, r / b, r % b;
    assert a == q * b + m && r == q' * b + m';
    if m + m' >= b {
      assert (q + q' + 1) * b == q * b + q' * b + b;
      DivUnique(a + r, b, q + q' + 1, m + m' - b);
    } else {
      assert (q + q') * b == q * b + q' * b;
      DivUnique(a + r, b, q + q', m + m');
    }
  }

  // The source's step: whole samples, plus one when the remainder comes to a
  // whole one.
  lemma AccumulatorIsSchedule(rate: nat, baud: positive, i: nat)
    ensures var sum := Owed(rate, baud, i) + rate % baud;
            var extra := if sum >= baud then 1 else 0;
            && rate / baud + extra == CellLen(rate, baud, i)
            && sum - extra * baud == Owed(rate, baud, i + 1)
  {
    AddDivMod(i * rate, rate, baud);
    assert (i + 1) * rate == i * rate + rate;
  }

  lemma CellLenBounds(rate: nat, baud: positive, i: nat)
    ensures rate / baud <= CellLen(rate, baud, i) <= rate / baud + 1
  {
    AccumulatorIsSchedule(rate, baud, i);
  }

  lemma NothingOwed(rate: nat, baud: positive)
    ensures Start(rate, baud, 0) == 0 && Owed(rate, baud, 0) == 0
  {
    assert 0 * rate == 0;
  }

  // Any run of cells is as long as the exact rate makes it, to within the one
  // sample that is still owed.
  lemma NoDrift(rate: nat, baud: positive, from: nat, to: nat)
    requires from <= to
    ensures var n := Start(rate, baud, to) - Start(rate, baud, from);
            n * baud - (to - from) * rate == Owed(rate, baud, from) - Owed(rate, baud, to)
  {
    assert to * rate == Start(rate, baud, to) * baud + Owed(rate, baud, to);
    assert from * rate == Start(rate, baud, from) * baud + Owed(rate, baud, from);
    assert (to - from) * rate == to * rate - from * rate;
  }
}
