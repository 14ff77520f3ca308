/** Integer division facts shared by the codecs and the fixed-point stages. */
module Arith {

  lemma MulMonotone(a: int, b: int, c: int)
    requires a <= b && 0 <= c
    ensures a * c <= b * c
  {
  }

  lemma DivUnique(x: int, d: int, q: int, r: int)
    requires 0 <= r < d && x == q * d + r
    ensures x / d == q && x % d == r
  {
    var q', r' := x / d, x % d;
    assert x == q' * d + r';
    if q < q' {
      MulMonotone(q + 1, q', d);
    } else if q' < q {
      MulMonotone(q' + 1, q, d);
    }
  }

  // floor(floor(x / a) / b) == floor(x / (a * b))
  lemma DivDiv(x: int, a: int, b: int)
    requires 0 < a && 0 < b
    ensures 0 < a * b
    ensures x / a / b == x / (a * b)
  {
    var q, r := x / a, x % a;
    var p, s := q / b, q % b;
    assert x == q * a + r && q == p * b + s;
    assert x == p * (a * b) + (s * a + r) by {
      assert (p * b + s) * a == p * (a * b) + s * a;
    }
    MulMonotone(s, b - 1, a);
    assert (b - 1) * a == a * b - a;
    MulMonotone(0, s, a);
    DivUnique(x, a * b, p, s * a + r);
  }

  lemma DoubleProduct(a: int, b: int)
    ensures a * (2 * b) == 2 * (a * b) == (2 * b) * a
  {
  }

  function Pow2(n: nat): (p: nat)
    ensures p > 0
  {
    if n == 0 then 1 else 2 * Pow2(n - 1)
  }

  lemma {:induction false} Pow2Add(a: nat, b: nat)
    ensures Pow2(a + b) == Pow2(a) * Pow2(b)
  {
    if a > 0 {
      Pow2Add(a - 1, b);
      assert Pow2(a) == 2 * Pow2(a - 1) && Pow2(a + b) == 2 * Pow2((a - 1) + b);
      hide Pow2;
      DoubleProduct(Pow2(b), Pow2(a - 1));
    }
  }

  lemma SmallPowers()
    ensures Pow2(1) == 2 && Pow2(4) == 16 && Pow2(7) == 128
  {
  }

  lemma PowersOfTwo()
    ensures Pow2(7) == 128 && Pow2(14) == 16384 && Pow2(15) == 32768 && Pow2(28) == 268_435_456
    ensures Pow2(32) == 0x1_0000_0000 && Pow2(39) == 0x80_0000_0000
    ensures Pow2(64) == 0x1_0000_0000_0000_0000 && Pow2(71) == 0x80_0000_0000_0000_0000
  {
    hide Pow2;
    SmallPowers();
    Pow2Add(7, 7);
    Pow2Add(1, 14);
    Pow2Add(14, 14);
    Pow2Add(4, 28);
    Pow2Add(32, 7);
    Pow2Add(32, 32);
    Pow2Add(64, 7);
  }

  // `x >> n`, rounding down, a place at a time.
  function ShiftRight(x: int, n: nat): int
    decreases n
  {
    if n == 0 then x else ShiftRight(x, n - 1) / 2
  }

  lemma {:induction false} ShiftIsFloor(x: int, n: nat)
    ensures ShiftRight(x, n) == x / Pow2(n)
    decreases n
  {
    if n > 0 {
      ShiftIsFloor(x, n - 1);
      DivDiv(x, Pow2(n - 1), 2);
    }
  }

  // Shifting moves toward zero, and never past it from above.
  lemma {:induction false} ShiftShrinks(d: int, n: nat)
    ensures d >= 0 ==> 0 <= ShiftRight(d, n) <= d
    ensures d < 0 ==> d <= ShiftRight(d, n) <= -1
    decreases n
  {
    if n > 0 {
      ShiftShrinks(d, n - 1);
    }
  }

  function Abs(x: int): nat {
    if x < 0 then -x else x
  }

  lemma MulBound(x: int, y: int, a: nat, b: nat)
    requires Abs(x) <= a && Abs(y) <= b
    ensures Abs(x * y) <= a * b
  {
    var u, v := Abs(x), Abs(y);
    MulMonotone(u, a, v);
    MulMonotone(v, b, a);
    assert u * v <= a * v <= a * b;
    assert x * y == u * v || x * y == -(u * v);
  }
}
