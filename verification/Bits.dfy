/**
 * Octets as their eight bits, most significant first, and bit strings packed
 * into them: how the FT8 codec stores its payload, message and codeword, and how
 * integers are laid out in those.
 */
module Bits {
  import opened Arith

  // ---------------------------------------------------------------- octets

  type Octet = b: seq<bool> | |b| == 8 witness seq(8, _ => false)

  const ZERO: Octet := seq(8, _ => false)

  // a & b
  function And(a: Octet, b: Octet): Octet {
    seq(8, k requires 0 <= k < 8 => a[k] && b[k])
  }

  // a ^ b
  function Xor8(a: Octet, b: Octet): Octet {
    seq(8, k requires 0 <= k < 8 => a[k] != b[k])
  }

  // The octet whose first `keep` bits are set: `b & HighMask(keep)` drops the rest.
  function HighMask(keep: nat): Octet {
    seq(8, k requires 0 <= k < 8 => k < keep)
  }

  // count_ones over the first `k` bits.
  function OnesUpTo(b: Octet, k: nat): nat
    requires k <= 8
  {
    if k == 0 then 0 else OnesUpTo(b, k - 1) + (if b[k - 1] then 1 else 0)
  }

  function CountOnes(b: Octet): nat {
    OnesUpTo(b, 8)
  }

  lemma {:induction false} XorParity(a: Octet, b: Octet, k: nat)
    requires k <= 8
    ensures (OnesUpTo(Xor8(a, b), k) % 2 == 1) == ((OnesUpTo(a, k) % 2 == 1) != (OnesUpTo(b, k) % 2 == 1))
  {
    if k > 0 {
      XorParity(a, b, k - 1);
    }
  }

  lemma {:induction false} ZeroHasNoOnes(k: nat)
    requires k <= 8
    ensures OnesUpTo(ZERO, k) == 0
  {
    if k > 0 {
      ZeroHasNoOnes(k - 1);
    }
  }

  // ---------------------------------------------------------------- packed bits

  function ToBits(bytes: seq<Octet>): (bits: seq<bool>)
    ensures |bits| == 8 * |bytes|
    ensures forall i :: 0 <= i < |bits| ==> bits[i] == bytes[i / 8][i % 8]
  {
    seq(8 * |bytes|, i requires 0 <= i < 8 * |bytes| => bytes[i / 8][i % 8])
  }

  lemma ByteInBits(bytes: seq<Octet>, i: nat)
    requires i < |bytes|
    ensures forall j :: 0 <= j < 8 ==> ToBits(bytes)[8 * i + j] == bytes[i][j]
  {
    forall j | 0 <= j < 8
      ensures ToBits(bytes)[8 * i + j] == bytes[i][j]
    {
      assert (8 * i + j) / 8 == i && (8 * i + j) % 8 == j;
    }
  }

  lemma ToBitsPrefix(bytes: seq<Octet>, n: nat)
    requires n <= |bytes|
    ensures ToBits(bytes[..n]) == ToBits(bytes)[..8 * n]
  {
  }

  function Falses(n: nat): seq<bool> {
    seq(n, _ => false)
  }

  // `bytes` stores exactly `bits`, left-justified, with its spare bits clear.
  predicate Stores(bytes: seq<Octet>, bits: seq<bool>) {
    |bits| <= 8 * |bytes| && ToBits(bytes) == bits + Falses(8 * |bytes| - |bits|)
  }

  // `bytes[pos / 8] |= v << (7 - pos % 8)`
  method SetBit(bytes: array<Octet>, pos: nat, v: bool)
    requires pos < 8 * bytes.Length
    modifies bytes
    ensures ToBits(bytes[..]) == old(ToBits(bytes[..]))[pos := old(ToBits(bytes[..]))[pos] || v]
  {
    var i, k := pos / 8, pos % 8;
    bytes[i] := bytes[i][k := bytes[i][k] || v];
    assert forall j :: 0 <= j < 8 * bytes.Length && j / 8 == i && j % 8 == k ==> j == pos;
  }

  // Appending a bit to a left-justified field is one OR.
  method AppendBit(bytes: array<Octet>, ghost bits: seq<bool>, v: bool, pos: nat)
    requires |bits| == pos < 8 * bytes.Length
    modifies bytes
    ensures old(Stores(bytes[..], bits)) ==> Stores(bytes[..], bits + [v])
  {
    SetBit(bytes, pos, v);
    if old(Stores(bytes[..], bits)) {
      assert ToBits(bytes[..]) == (bits + [v]) + Falses(8 * bytes.Length - (pos + 1));
    }
  }

  // A field appended bit by bit at position `at`.
  method AppendBits(bytes: array<Octet>, ghost bits: seq<bool>, at: nat, field: seq<bool>)
    requires |bits| == at && at + |field| <= 8 * bytes.Length
    modifies bytes
    ensures old(Stores(bytes[..], bits)) ==> Stores(bytes[..], bits + field)
  {
    hide Stores;
    assert bits + field[..0] == bits;
    for i := 0 to |field|
      invariant old(Stores(bytes[..], bits)) ==> Stores(bytes[..], bits + field[..i])
    {
      AppendBit(bytes, bits + field[..i], field[i], at + i);
      assert bits + field[..i] + [field[i]] == bits + field[..i + 1];
    }
    assert field[..|field|] == field;
  }

  // `(bytes[pos / 8] >> (7 - pos % 8)) & 1`
  function ReadBit(bytes: seq<Octet>, pos: nat): (bit: bool)
    requires pos < 8 * |bytes|
    ensures bit == ToBits(bytes)[pos]
  {
    bytes[pos / 8][pos % 8]
  }

  lemma StoresPrefix(bytes: seq<Octet>, bits: seq<bool>)
    requires Stores(bytes, bits)
    ensures ToBits(bytes)[..|bits|] == bits
  {
  }

  // Masking the last octet leaves the bits before the mask and clears the rest.
  lemma MaskedTail(bytes: seq<Octet>, keep: nat)
    requires |bytes| > 0 && keep <= 8
    ensures var n := |bytes| - 1;
            Stores(bytes[n := And(bytes[n], HighMask(keep))], ToBits(bytes)[..8 * n + keep])
  {
    var n := |bytes| - 1;
    var after, bits := bytes[n := And(bytes[n], HighMask(keep))], ToBits(bytes)[..8 * n + keep];
    forall i | 0 <= i < 8 * |bytes|
      ensures ToBits(after)[i] == (bits + Falses(8 * |bytes| - |bits|))[i]
    {
      assert i / 8 == n ==> i == 8 * n + i % 8;
    }
  }

  // Clear octets behind a field leave it stored.
  lemma StoresExtended(bytes: seq<Octet>, bits: seq<bool>, more: nat)
    requires Stores(bytes, bits)
    ensures Stores(bytes + seq(more, _ => ZERO), bits)
  {
    var longer := bytes + seq(more, _ => ZERO);
    forall i | 0 <= i < 8 * |longer|
      ensures ToBits(longer)[i] == (bits + Falses(8 * |longer| - |bits|))[i]
    {
      if i < 8 * |bytes| {
        assert ToBits(bytes)[i] == (bits + Falses(8 * |bytes| - |bits|))[i];
      }
    }
  }

  // ---------------------------------------------------------------- integers as bits

  // The loop `v = (v << 1) | bit`.
  function IntOf(bits: seq<bool>): nat {
    if bits == [] then 0
    else 2 * IntOf(bits[..|bits| - 1]) + (if bits[|bits| - 1] then 1 else 0)
  }

  // The `count` low bits of `v`, most significant first.
  function BitsOf(v: nat, count: nat): (bits: seq<bool>)
    ensures |bits| == count
  {
    if count == 0 then [] else BitsOf(v / 2, count - 1) + [v % 2 == 1]
  }

  lemma {:induction false} IntOfBitsOf(v: nat, count: nat)
    requires v < Pow2(count)
    ensures IntOf(BitsOf(v, count)) == v
  {
    if count > 0 {
      IntOfBitsOf(v / 2, count - 1);
      assert BitsOf(v, count)[..count - 1] == BitsOf(v / 2, count - 1);
    }
  }

  lemma {:induction false} BitsOfIntOf(bits: seq<bool>)
    ensures IntOf(bits) < Pow2(|bits|)
    ensures BitsOf(IntOf(bits), |bits|) == bits
  {
    if bits != [] {
      BitsOfIntOf(bits[..|bits| - 1]);
    }
  }

  lemma JoinSplits(q: nat, r: nat, p: nat)
    ensures (q * (2 * p) + r) / 2 == q * p + r / 2
    ensures (q * (2 * p) + r) % 2 == r % 2
  {
    DoubleProduct(q, p);
  }

  lemma BitsOfStep(v: nat, count: nat)
    ensures BitsOf(v, count + 1) == BitsOf(v / 2, count) + [v % 2 == 1]
  {
  }

  // A field written in two parts reads as one.
  lemma {:induction false} BitsOfJoin(q: nat, r: nat, a: nat, b: nat)
    requires r < Pow2(b)
    ensures BitsOf(q * Pow2(b) + r, a + b) == BitsOf(q, a) + BitsOf(r, b)
    decreases b
  {
    if b == 0 {
      assert BitsOf(r, b) == [];
      assert BitsOf(q, a) + [] == BitsOf(q, a);
    } else {
      var p := Pow2(b - 1);
      assert Pow2(b) == 2 * p;
      hide BitsOf, Pow2;
      JoinSplits(q, r, p);
      BitsOfStep(q * (2 * p) + r, a + (b - 1));
      BitsOfStep(r, b - 1);
      BitsOfJoin(q, r / 2, a, b - 1);
    }
  }

  lemma PlaceShifts(v: nat, b: nat, k: nat)
    requires b <= 1
    ensures (2 * v + b) / Pow2(k + 1) == v / Pow2(k)
  {
    assert (2 * v + b) / 2 == v;
    DivDiv(2 * v + b, 2, Pow2(k));
    assert Pow2(k + 1) == 2 * Pow2(k);
  }

  lemma LastPlace(v: nat, b: nat)
    requires b <= 1
    ensures (2 * v + b) / Pow2(0) % 2 == b
  {
  }

  // Bit `i` of a field, counted from the front, is its number's bit of that place:
  // of an octet, `(byte >> (7 - i)) & 1`.
  lemma {:induction false} BitOfNumber(bits: seq<bool>, i: nat)
    requires i < |bits|
    ensures bits[i] == (IntOf(bits) / Pow2(|bits| - 1 - i) % 2 == 1)
  {
    var n, k := |bits| - 1, |bits| - 1 - i;
    var last := if bits[n] then 1 else 0;
    assert IntOf(bits) == 2 * IntOf(bits[..n]) + last;
    hide IntOf;
    if k > 0 {
      BitOfNumber(bits[..n], i);
      assert bits[i] == bits[..n][i];
      hide Pow2;
      PlaceShifts(IntOf(bits[..n]), last, k - 1);
    } else {
      LastPlace(IntOf(bits[..n]), last);
    }
  }
}
