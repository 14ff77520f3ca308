/**
 * FT8's LDPC(174,91) code in systematic form: the generator rows as packed by
 * the source, the encoder, and the syndrome count, for any generator matrix of
 * the declared shape.
 */
module Ft8Ldpc {
  import opened Arith
  import opened Bits
  import opened Ft8Crc
  import opened Hamming

  const CODEWORD_BITS: nat := 174
  const PARITY_BITS: nat := 83

  // ---------------------------------------------------------------- the code

  // GF(2) dot product.
  function Dot(a: seq<bool>, b: seq<bool>): bool
    requires |a| == |b|
  {
    if a == [] then false
    else Dot(a[..|a| - 1], b[..|b| - 1]) != (a[|a| - 1] && b[|b| - 1])
  }

  type Matrix = g: seq<seq<bool>> | |g| == PARITY_BITS && forall i :: 0 <= i < |g| ==> |g[i]| == MESSAGE_BITS
    witness seq(PARITY_BITS, _ => seq(MESSAGE_BITS, _ => false))

  function Parity(g: Matrix, message: seq<bool>): (p: seq<bool>)
    requires |message| == MESSAGE_BITS
    ensures |p| == PARITY_BITS
  {
    seq(PARITY_BITS, i requires 0 <= i < PARITY_BITS => Dot(g[i], message))
  }

  function Encode(g: Matrix, message: seq<bool>): (c: seq<bool>)
    requires |message| == MESSAGE_BITS
    ensures |c| == CODEWORD_BITS
  {
    message + Parity(g, message)
  }

  ghost predicate IsCodeword(g: Matrix, word: seq<bool>)
    requires |word| == CODEWORD_BITS
  {
    exists message: seq<bool> :: |message| == MESSAGE_BITS && word == Encode(g, message)
  }

  // ---------------------------------------------------------------- packed rows

  // A 91-bit row left-justified in 12 bytes, its 5 spare bits clear.
  predicate RowShape(row: seq<Octet>) {
    |row| == 12 && Stores(row, ToBits(row)[..MESSAGE_BITS])
  }

  predicate RowsShape(rows: seq<seq<Octet>>) {
    |rows| == PARITY_BITS && forall i :: 0 <= i < PARITY_BITS ==> RowShape(rows[i])
  }

  function RowsMatrix(rows: seq<seq<Octet>>): Matrix
    requires RowsShape(rows)
  {
    seq(PARITY_BITS, i requires 0 <= i < PARITY_BITS => ToBits(rows[i])[..MESSAGE_BITS])
  }

  lemma ClearStores(bytes: seq<Octet>)
    requires forall i :: 0 <= i < |bytes| ==> bytes[i] == ZERO
    ensures Stores(bytes, [])
  {
    assert ToBits(bytes) == [] + Falses(8 * |bytes|);
  }

  lemma StoredRow(bytes: seq<Octet>, bits: seq<bool>)
    requires |bytes| == 12 && |bits| == MESSAGE_BITS && Stores(bytes, bits)
    ensures RowShape(bytes) && ToBits(bytes)[..MESSAGE_BITS] == bits
  {
    StoresPrefix(bytes, bits);
  }

  // Repacks one 91-bit generator integer: column `j` is bit `90 - j`.
  method ParseGeneratorRow(row: nat) returns (bytes: seq<Octet>)
    requires row < Pow2(MESSAGE_BITS)
    ensures RowShape(bytes) && ToBits(bytes)[..MESSAGE_BITS] == BitsOf(row, MESSAGE_BITS)
  {
    hide BitsOf, Stores, ToBits, RowShape;
    var bits := BitsOf(row, MESSAGE_BITS);
    var out := new Octet[12](_ => ZERO);
    assert out[..] == seq(12, _ => ZERO);
    ClearStores(out[..]);
    AppendBits(out, [], 0, bits);
    assert [] + bits == bits;
    bytes := out[..];
    StoredRow(bytes, bits);
  }

  lemma DotSnoc(a: seq<bool>, b: seq<bool>, n: nat)
    requires n < |a| && n < |b|
    ensures Dot(a[..n + 1], b[..n + 1]) == (Dot(a[..n], b[..n]) != (a[n] && b[n]))
  {
    assert a[..n + 1][..n] == a[..n] && b[..n + 1][..n] == b[..n];
  }

  lemma {:induction false} DotRun(a: seq<bool>, b: seq<bool>, base: nat, both: Octet, k: nat)
    requires k <= 8 && base + 8 <= |a| && base + 8 <= |b|
    requires forall j :: 0 <= j < 8 ==> both[j] == (a[base + j] && b[base + j])
    ensures Dot(a[..base + k], b[..base + k]) == (Dot(a[..base], b[..base]) != (OnesUpTo(both, k) % 2 == 1))
  {
    if k > 0 {
      DotRun(a, b, base, both, k - 1);
      DotSnoc(a, b, base + (k - 1));
    }
  }

  lemma {:induction false} DotTail(a: seq<bool>, b: seq<bool>, n: nat)
    requires n <= |a| == |b|
    requires forall i :: n <= i < |a| ==> !a[i]
    ensures Dot(a, b) == Dot(a[..n], b[..n])
  {
    if n == |a| {
      assert a[..n] == a && b[..n] == b;
    } else {
      var m := |a| - 1;
      DotTail(a[..m], b[..m], n);
      assert a[..m][..n] == a[..n] && b[..m][..n] == b[..n];
    }
  }

  // The byte-wise AND / XOR / popcount of one row against the front of a word
  // is the dot product: the row's clear spare bits hide whatever follows.
  method RowParity(row: seq<Octet>, word: seq<Octet>) returns (odd: bool)
    requires RowShape(row) && |word| >= 12
    ensures odd == Dot(ToBits(row)[..MESSAGE_BITS], ToBits(word)[..MESSAGE_BITS])
  {
    var parity := ZERO;
    ZeroHasNoOnes(8);
    for i := 0 to 12
      invariant (CountOnes(parity) % 2 == 1) == Dot(ToBits(row)[..8 * i], ToBits(word)[..8 * i])
    {
      ByteInBits(row, i);
      ByteInBits(word, i);
      DotRun(ToBits(row), ToBits(word), 8 * i, And(row[i], word[i]), 8);
      XorParity(parity, And(row[i], word[i]), 8);
      parity := Xor8(parity, And(row[i], word[i]));
    }
    ghost var a, b := ToBits(row)[..96], ToBits(word)[..96];
    DotTail(a, b, MESSAGE_BITS);
    assert a[..MESSAGE_BITS] == ToBits(row)[..MESSAGE_BITS] && b[..MESSAGE_BITS] == ToBits(word)[..MESSAGE_BITS];
    odd := CountOnes(parity) % 2 == 1;
  }

  // The 91 message bits, spare bits cleared, at the head of 22 clear bytes.
  method MessageFront(message: seq<Octet>) returns (out: array<Octet>)
    requires |message| == 12
    ensures fresh(out) && out.Length == 22
    ensures Stores(out[..], ToBits(message)[..MESSAGE_BITS])
  {
    out := new Octet[22](_ => ZERO);
    for i := 0 to 12
      invariant out[..i] == message[..i]
      invariant forall k :: i <= k < 22 ==> out[k] == ZERO
    {
      out[i] := message[i];
    }
    out[11] := And(out[11], HighMask(3)); // & 0xE0
    MaskedTail(message, 3);
    hide Stores, ToBits;
    assert out[..] == message[11 := And(message[11], HighMask(3))] + seq(10, _ => ZERO);
    StoresExtended(message[11 := And(message[11], HighMask(3))], ToBits(message)[..MESSAGE_BITS], 10);
  }

  lemma WordParts(g: Matrix, bits: seq<bool>)
    requires |bits| == MESSAGE_BITS
    ensures Encode(g, bits)[..MESSAGE_BITS] == bits
    ensures forall i :: 0 <= i < PARITY_BITS ==> Encode(g, bits)[MESSAGE_BITS + i] == Dot(g[i], bits)
  {
  }

  method LdpcEncode(rows: seq<seq<Octet>>, message: seq<Octet>) returns (codeword: seq<Octet>)
    requires RowsShape(rows) && |message| == 12
    ensures |codeword| == 22
    ensures Stores(codeword, Encode(RowsMatrix(rows), ToBits(message)[..MESSAGE_BITS]))
  {
    ghost var bits := ToBits(message)[..MESSAGE_BITS];
    ghost var word := Encode(RowsMatrix(rows), bits);
    WordParts(RowsMatrix(rows), bits);
    var out := MessageFront(message);
    hide Stores, ToBits, Encode, Dot, RowShape;
    for i := 0 to PARITY_BITS
      invariant Stores(out[..], word[..MESSAGE_BITS + i])
    {
      var bit := RowParity(rows[i], message);
      assert bit == word[MESSAGE_BITS + i];
      AppendBit(out, word[..MESSAGE_BITS + i], bit, MESSAGE_BITS + i);
      assert word[..MESSAGE_BITS + i] + [bit] == word[..MESSAGE_BITS + i + 1];
    }
    assert word[..CODEWORD_BITS] == word;
    codeword := out[..];
  }

  lemma CountSnoc(a: seq<bool>, b: seq<bool>, n: nat)
    requires |a| == |b| && n < |a|
    ensures Distance(a[..n + 1], b[..n + 1]) == Distance(a[..n], b[..n]) + (if a[n] != b[n] then 1 else 0)
  {
    assert a[..n + 1][..n] == a[..n] && b[..n + 1][..n] == b[..n];
  }

  // The number of failed checks of `H = [G | I]` is the number of parity bits in
  // which a word differs from the encoding of its own first 91 bits.
  method LdpcCheck(rows: seq<seq<Octet>>, codeword: seq<Octet>) returns (failed: nat)
    requires RowsShape(rows) && |codeword| == 22
    ensures var word := ToBits(codeword)[..CODEWORD_BITS];
            failed == Distance(word[MESSAGE_BITS..], Parity(RowsMatrix(rows), word[..MESSAGE_BITS]))
  {
    ghost var word := ToBits(codeword)[..CODEWORD_BITS];
    ghost var parity := Parity(RowsMatrix(rows), word[..MESSAGE_BITS]);
    ghost var tail := word[MESSAGE_BITS..];
    assert ToBits(codeword)[..MESSAGE_BITS] == word[..MESSAGE_BITS];
    hide Dot, ToBits, RowShape;
    failed := 0;
    for i := 0 to PARITY_BITS
      invariant failed == Distance(tail[..i], parity[..i])
    {
      var sum := RowParity(rows[i], codeword);
      sum := sum != ReadBit(codeword, MESSAGE_BITS + i);
      assert tail[i] == word[MESSAGE_BITS + i];
      CountSnoc(tail, parity, i);
      failed := failed + (if sum then 1 else 0);
    }
    assert tail[..PARITY_BITS] == tail && parity[..PARITY_BITS] == parity;
  }

  // ---------------------------------------------------------------- what the count means

  function Failed(g: Matrix, word: seq<bool>): nat
    requires |word| == CODEWORD_BITS
  {
    Distance(word[MESSAGE_BITS..], Parity(g, word[..MESSAGE_BITS]))
  }

  // No failed check: exactly the codewords.
  lemma NoFailureIffCodeword(g: Matrix, word: seq<bool>)
    requires |word| == CODEWORD_BITS
    ensures Failed(g, word) == 0 <==> IsCodeword(g, word)
    ensures IsCodeword(g, word) <==> word == Encode(g, word[..MESSAGE_BITS])
  {
    DistanceZero(word[MESSAGE_BITS..], Parity(g, word[..MESSAGE_BITS]));
    assert word == word[..MESSAGE_BITS] + word[MESSAGE_BITS..];
    if IsCodeword(g, word) {
      var message: seq<bool> :| |message| == MESSAGE_BITS && word == Encode(g, message);
      assert word[..MESSAGE_BITS] == message && word[MESSAGE_BITS..] == Parity(g, message);
    }
  }

  lemma {:induction false} DotLinear(a: seq<bool>, x: seq<bool>, y: seq<bool>)
    requires |a| == |x| == |y|
    ensures Dot(a, Xor(x, y)) == (Dot(a, x) != Dot(a, y))
  {
    if a != [] {
      var n := |a| - 1;
      DotLinear(a[..n], x[..n], y[..n]);
      assert Xor(x, y)[..n] == Xor(x[..n], y[..n]);
    }
  }

  lemma {:induction false} DistanceShift(a: seq<bool>, b: seq<bool>, c: seq<bool>)
    requires |a| == |b| == |c|
    ensures Distance(Xor(a, c), Xor(b, c)) == Distance(a, b)
  {
    if a != [] {
      var n := |a| - 1;
      DistanceShift(a[..n], b[..n], c[..n]);
      assert Xor(a, c)[..n] == Xor(a[..n], c[..n]) && Xor(b, c)[..n] == Xor(b[..n], c[..n]);
    }
  }

  // The count depends on the error alone, never on the codeword it hit; so an
  // error passes unnoticed exactly when it is itself a codeword.
  lemma FailuresDependOnErrorOnly(g: Matrix, message: seq<bool>, error: seq<bool>)
    requires |message| == MESSAGE_BITS && |error| == CODEWORD_BITS
    ensures Failed(g, Xor(error, Encode(g, message))) == Failed(g, error)
    ensures IsCodeword(g, Xor(error, Encode(g, message))) <==> IsCodeword(g, error)
  {
    var sent := Encode(g, message);
    var word, em, ep := Xor(error, sent), error[..MESSAGE_BITS], error[MESSAGE_BITS..];
    assert word[..MESSAGE_BITS] == Xor(em, message);
    assert word[MESSAGE_BITS..] == Xor(ep, Parity(g, message));
    forall i | 0 <= i < PARITY_BITS
      ensures Parity(g, Xor(em, message))[i] == Xor(Parity(g, em), Parity(g, message))[i]
    {
      DotLinear(g[i], em, message);
    }
    assert Parity(g, Xor(em, message)) == Xor(Parity(g, em), Parity(g, message));
    DistanceShift(ep, Parity(g, em), Parity(g, message));
    NoFailureIffCodeword(g, word);
    NoFailureIffCodeword(g, error);
  }
}
