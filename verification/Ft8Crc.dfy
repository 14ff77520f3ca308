/**
 * FT8's CRC-14: the register loop, the 91-bit protected message, and what the
 * check detects. The 16-bit register only ever holds 14 bits, so it is modelled
 * as those, most significant first; shifting left and masking drops the head.
 */
module Ft8Crc {
  import opened Prelude
  import opened Arith
  import opened Bits

  const PAYLOAD_BITS: nat := 77
  const MESSAGE_BITS: nat := 91

  // 0x2757
  const CRC_POLY: seq<bool> := [
    true, false, false, true, true, true, false,
    true, false, true, false, true, true, true]

  datatype CrcError = CrcMismatch

  type Register = r: seq<bool> | |r| == 14 witness seq(14, _ => false)

  lemma IntOfPrefix(bits: seq<bool>, k: nat)
    requires k < |bits|
    ensures IntOf(bits[..k + 1]) == 2 * IntOf(bits[..k]) + (if bits[k] then 1 else 0)
  {
    assert bits[..k + 1][..k] == bits[..k];
  }

  lemma IntOfSeven(bits: seq<bool>, k: nat, d: seq<nat>)
    requires k + 7 <= |bits| && |d| == 8 && IntOf(bits[..k]) == d[0]
    requires forall i :: 0 <= i < 7 ==> d[i + 1] == 2 * d[i] + (if bits[k + i] then 1 else 0)
    ensures IntOf(bits[..k + 7]) == d[7]
  {
    hide IntOf;
    for i := 0 to 7
      invariant IntOf(bits[..k + i]) == d[i]
    {
      IntOfPrefix(bits, k + i);
    }
  }

  lemma PolynomialValue()
    ensures IntOf(CRC_POLY) == 0x2757
  {
    var p := CRC_POLY;
    assert IntOf(p[..0]) == 0;
    assert p[..14] == p;
    hide IntOf;
    IntOfSeven(p, 0, [0, 1, 2, 4, 9, 0x13, 0x27, 0x4E]);
    IntOfSeven(p, 7, [0x4E, 0x9D, 0x13A, 0x275, 0x4EA, 0x9D5, 0x13AB, 0x2757]);
  }

  function Xor(a: seq<bool>, b: seq<bool>): (x: seq<bool>)
    requires |a| == |b|
    ensures |x| == |a|
    ensures forall i :: 0 <= i < |a| ==> x[i] == (a[i] != b[i])
  {
    seq(|a|, i requires 0 <= i < |a| => a[i] != b[i])
  }

  function Step(reg: Register, bit: bool): Register {
    var shifted := reg[1..] + [false];
    if reg[0] != bit then Xor(shifted, CRC_POLY) else shifted
  }

  function Feed(reg: Register, bits: seq<bool>): Register {
    if bits == [] then reg else Step(Feed(reg, bits[..|bits| - 1]), bits[|bits| - 1])
  }

  // 77 payload bits zero-extended to 82, zero initial register.
  function Crc(payload: seq<bool>): Register {
    Feed(Falses(14), payload + Falses(5))
  }

  function AddCrc(payload: seq<bool>): seq<bool> {
    payload + Crc(payload)
  }

  function VerifyCrc(message: seq<bool>): Result<seq<bool>, CrcError>
    requires |message| == MESSAGE_BITS
  {
    if IntOf(Crc(message[..PAYLOAD_BITS])) == IntOf(message[PAYLOAD_BITS..])
    then Ok(message[..PAYLOAD_BITS]) else Err(CrcMismatch)
  }

  // ---------------------------------------------------------------- the loops

  method ShiftIn(before: Register, bit: bool) returns (reg: Register)
    ensures reg == Step(before, bit)
  {
    reg := before[1..] + [false];
    if before[0] != bit {
      reg := Xor(reg, CRC_POLY);
    }
  }

  method Crc14(payload: seq<Octet>) returns (reg: Register)
    requires |payload| == 10
    ensures reg == Crc(ToBits(payload)[..PAYLOAD_BITS])
  {
    hide Step, ToBits;
    ghost var fed := ToBits(payload)[..PAYLOAD_BITS] + Falses(5);
    reg := Falses(14);
    for pos := 0 to 82
      invariant reg == Feed(Falses(14), fed[..pos])
    {
      var bit := if pos < PAYLOAD_BITS then ReadBit(payload, pos) else false;
      assert fed[..pos + 1][..pos] == fed[..pos];
      reg := ShiftIn(reg, bit);
    }
    assert fed[..82] == fed;
  }

  method AddCrcBytes(payload: seq<Octet>) returns (message: seq<Octet>)
    requires |payload| == 10
    ensures |message| == 12
    ensures Stores(payload, ToBits(payload)[..PAYLOAD_BITS])
            ==> Stores(message, AddCrc(ToBits(payload)[..PAYLOAD_BITS]))
  {
    ghost var bits := ToBits(payload)[..PAYLOAD_BITS];
    var field := Crc14(payload);
    var out := new Octet[12](_ => ZERO);
    for i := 0 to 10
      invariant out[..i] == payload[..i]
      invariant forall k :: i <= k < 12 ==> out[k] == ZERO
    {
      out[i] := payload[i];
    }
    assert out[..] == payload + seq(2, _ => ZERO);
    if Stores(payload, bits) {
      StoresExtended(payload, bits, 2);
    }
    hide Stores, ToBits;
    AppendBits(out, bits, PAYLOAD_BITS, field);
    message := out[..];
  }

  method StoredCrc(message: seq<Octet>, ghost bits: seq<bool>) returns (crc: nat)
    requires |message| == 12 && bits == ToBits(message)[..MESSAGE_BITS]
    ensures crc == IntOf(bits[PAYLOAD_BITS..])
  {
    hide ToBits;
    ghost var field := bits[PAYLOAD_BITS..];
    assert IntOf(field[..0]) == 0;
    hide IntOf;
    crc := 0;
    for i := 0 to 14
      invariant crc == IntOf(field[..i])
    {
      IntOfPrefix(field, i);
      crc := 2 * crc + (if ReadBit(message, PAYLOAD_BITS + i) then 1 else 0);
    }
    assert field[..14] == field;
  }

  method VerifyCrcBytes(message: seq<Octet>) returns (r: Result<seq<Octet>, CrcError>)
    requires |message| == 12
    ensures match VerifyCrc(ToBits(message)[..MESSAGE_BITS])
            case Ok(bits) => r.Ok? && |r.value| == 10 && Stores(r.value, bits)
            case Err(e) => r == Err(e)
  {
    var payload := message[..10];
    MaskedTail(payload, 5);
    ToBitsPrefix(message, 10);
    payload := payload[9 := And(payload[9], HighMask(5))]; // & 0xF8
    ghost var bits := ToBits(message)[..MESSAGE_BITS];
    assert Stores(payload, bits[..PAYLOAD_BITS]);
    StoresPrefix(payload, bits[..PAYLOAD_BITS]);
    var crc := StoredCrc(message, bits);
    var computed := Crc14(payload);
    if IntOf(computed) == crc {
      r := Ok(payload);
    } else {
      r := Err(CrcMismatch);
    }
  }

  // ---------------------------------------------------------------- exactness

  // A message verifies exactly when it is the protected form of its payload.
  lemma VerifyInvertsAdd(message: seq<bool>)
    requires |message| == MESSAGE_BITS
    ensures VerifyCrc(message) == (if message == AddCrc(message[..PAYLOAD_BITS])
                                   then Ok(message[..PAYLOAD_BITS]) else Err(CrcMismatch))
  {
    var payload, field := message[..PAYLOAD_BITS], message[PAYLOAD_BITS..];
    assert message == payload + field;
    BitsOfIntOf(Crc(payload));
    BitsOfIntOf(field);
  }

  // ---------------------------------------------------------------- division

  // x^14 + CRC_POLY
  const GENERATOR: seq<bool> := [true] + CRC_POLY

  function Partial(n: nat, b: bool): (p: seq<bool>)
    ensures |p| == n + 15
  {
    Falses(n) + if b then GENERATOR else Falses(15)
  }

  // The product of `q` and the generator over GF(2), highest power first: one
  // shifted copy of the generator for every set bit of `q`.
  function Product(q: seq<bool>): (p: seq<bool>)
    ensures |p| == |q| + 14
  {
    if q == [] then Falses(14)
    else Xor(Product(q[..|q| - 1]) + [false], Partial(|q| - 1, q[|q| - 1]))
  }

  ghost predicate IsMultiple(p: seq<bool>) {
    exists q: seq<bool> :: |q| + 14 == |p| && Product(q) == p
  }

  // The bits fed back are the quotient.
  function Quotient(bits: seq<bool>): (q: seq<bool>)
    ensures |q| == |bits|
  {
    if bits == [] then []
    else
      var n := |bits| - 1;
      Quotient(bits[..n]) + [Feed(Falses(14), bits[..n])[0] != bits[n]]
  }

  lemma PartialParts(n: nat, b: bool)
    ensures Partial(n, b)[..n] == Falses(n)
    ensures Partial(n, b)[n] == b
    ensures Partial(n, b)[n + 1..] == if b then CRC_POLY else Falses(14)
  {
    var tail := if b then GENERATOR else Falses(15);
    assert tail[0] == b && tail[1..] == if b then CRC_POLY else Falses(14);
    assert Partial(n, b) == Falses(n) + tail;
  }

  // Adding a shifted copy leaves what lies above it.
  lemma PartialHead(p: seq<bool>, n: nat, b: bool)
    requires |p| == n + 15
    ensures Xor(p, Partial(n, b))[..n] == p[..n]
    ensures Xor(p, Partial(n, b))[n] == (p[n] != b)
  {
    PartialParts(n, b);
    hide Partial, Xor;
    forall i | 0 <= i < n
      ensures Xor(p, Partial(n, b))[i] == p[i]
    {
      assert Partial(n, b)[..n][i] == Falses(n)[i] == false;
    }
  }

  lemma PartialTail(p: seq<bool>, reg: Register, n: nat, bit: bool)
    requires |p| == n + 15 && p[n + 1..] == reg[1..] + [false]
    ensures Xor(p, Partial(n, reg[0] != bit))[n + 1..] == Step(reg, bit)
  {
    var fed := reg[0] != bit;
    PartialParts(n, fed);
    hide Partial, Xor;
    forall i | 0 <= i < 14
      ensures Xor(p, Partial(n, fed))[n + 1 + i] == Step(reg, bit)[i]
    {
      assert Partial(n, fed)[n + 1 + i] == Partial(n, fed)[n + 1..][i];
      assert p[n + 1 + i] == p[n + 1..][i];
    }
  }

  // One line of the long division.
  lemma DivisionStep(done: seq<bool>, reg: Register, bit: bool)
    ensures Xor(done + reg + [false], Partial(|done|, reg[0] != bit)) == done + [bit] + Step(reg, bit)
  {
    hide Partial, Step, Xor;
    var n, p := |done|, done + reg + [false];
    var line := Xor(p, Partial(n, reg[0] != bit));
    PartialHead(p, n, reg[0] != bit);
    PartialTail(p, reg, n, bit);
    assert p[..n] == done && p[n] == reg[0];
    assert line == line[..n] + [line[n]] + line[n + 1..];
  }

  lemma {:induction false} FedIsRemainder(bits: seq<bool>)
    ensures Product(Quotient(bits)) == bits + Feed(Falses(14), bits)
  {
    hide Step, Xor, Partial;
    if bits != [] {
      var n := |bits| - 1;
      var reg := Feed(Falses(14), bits[..n]);
      FedIsRemainder(bits[..n]);
      assert Quotient(bits)[..n] == Quotient(bits[..n]);
      DivisionStep(bits[..n], reg, bits[n]);
      assert bits == bits[..n] + [bits[n]];
    }
  }

  lemma ProductSnoc(q: seq<bool>, b: bool)
    ensures Product(q + [b]) == Xor(Product(q) + [false], Partial(|q|, b))
  {
    hide Xor, Partial;
    assert (q + [b])[..|q|] == q;
  }

  // The last shifted copy changes nothing above its leading bit.
  lemma ProductHead(q: seq<bool>, b: bool)
    ensures Product(q + [b])[..|q|] == Product(q)[..|q|]
    ensures Product(q + [b])[|q|] == (Product(q)[|q|] != b)
  {
    hide Product, Partial, Xor;
    var shifted := Product(q) + [false];
    ProductSnoc(q, b);
    PartialHead(shifted, |q|, b);
    assert shifted[..|q|] == Product(q)[..|q|];
  }

  lemma {:induction false} QuotientIsUnique(q: seq<bool>, bits: seq<bool>, r: Register)
    requires |q| == |bits| && Product(q) == bits + r
    ensures q == Quotient(bits)
  {
    hide Xor, Partial, Product;
    if bits != [] {
      var n := |bits| - 1;
      var earlier, rest := q[..n], Product(q[..n])[n..];
      assert q == earlier + [q[n]];
      ProductHead(earlier, q[n]);
      assert Product(earlier)[..n] == bits[..n];
      assert Product(earlier) == bits[..n] + rest;
      QuotientIsUnique(earlier, bits[..n], rest);
      FedIsRemainder(bits[..n]);
      assert rest == Feed(Falses(14), bits[..n]);
    }
  }

  // Polynomial division: among all 14-bit fields the register's is the only one
  // that completes the payload and its five zeros to a multiple of the generator.
  lemma CrcIsRemainder(payload: seq<bool>, field: Register)
    ensures IsMultiple(payload + Falses(5) + field) <==> field == Crc(payload)
  {
    var bits := payload + Falses(5);
    FedIsRemainder(bits);
    assert field == Crc(payload) ==> Product(Quotient(bits)) == bits + field;
    hide Product, Quotient, Feed;
    if q: seq<bool> :| |q| == |bits| && Product(q) == bits + field {
      QuotientIsUnique(q, bits, field);
      assert field == (bits + field)[|bits|..];
    }
  }

  // The receiver's comparison is a test for divisibility.
  lemma VerifiesIffMultiple(message: seq<bool>)
    requires |message| == MESSAGE_BITS
    ensures VerifyCrc(message).Ok?
       <==> IsMultiple(message[..PAYLOAD_BITS] + Falses(5) + message[PAYLOAD_BITS..])
  {
    hide VerifyCrc, Crc, IsMultiple;
    VerifyInvertsAdd(message);
    CrcIsRemainder(message[..PAYLOAD_BITS], message[PAYLOAD_BITS..]);
    assert message == message[..PAYLOAD_BITS] + message[PAYLOAD_BITS..];
  }

  // ---------------------------------------------------------------- burst detection

  lemma StepLinear(a: Register, c: Register, x: bool, y: bool)
    ensures Step(Xor(a, c), x != y) == Xor(Step(a, x), Step(c, y))
  {
  }

  lemma {:induction false} FeedLinear(a: Register, c: Register, s: seq<bool>, t: seq<bool>)
    requires |s| == |t|
    ensures Feed(Xor(a, c), Xor(s, t)) == Xor(Feed(a, s), Feed(c, t))
  {
    if s != [] {
      var n := |s| - 1;
      FeedLinear(a, c, s[..n], t[..n]);
      assert Xor(s, t)[..n] == Xor(s[..n], t[..n]);
      StepLinear(Feed(a, s[..n]), Feed(c, t[..n]), s[n], t[n]);
    }
  }

  lemma {:induction false} FeedAppend(reg: Register, s: seq<bool>, t: seq<bool>)
    ensures Feed(reg, s + t) == Feed(Feed(reg, s), t)
  {
    if t == [] {
      assert s + t == s;
    } else {
      var n := |t| - 1;
      FeedAppend(reg, s, t[..n]);
      assert (s + t)[..|s + t| - 1] == s + t[..n];
    }
  }

  // The zero-input step is invertible at zero: the polynomial's low bit is set,
  // so feedback always shows in the last place.
  lemma StepZero(reg: Register)
    ensures Step(reg, false) == Falses(14) <==> reg == Falses(14)
  {
    var next := Step(reg, false);
    assert next[13] == reg[0];
    if next == Falses(14) {
      assert !reg[0];
      forall i | 0 <= i < 14
        ensures !reg[i]
      {
        if i > 0 {
          assert next[i - 1] == reg[i];
        }
      }
    }
  }

  lemma {:induction false} FeedZeros(reg: Register, n: nat)
    ensures Feed(reg, Falses(n)) == Falses(14) <==> reg == Falses(14)
  {
    if n > 0 {
      assert Falses(n)[..n - 1] == Falses(n - 1);
      FeedZeros(reg, n - 1);
      StepZero(Feed(reg, Falses(n - 1)));
    }
  }

  // `w` against the top of the register.
  function Loaded(w: seq<bool>): Register
    requires |w| <= 14
  {
    w + Falses(14 - |w|)
  }

  lemma LoadThenStep(reg: Register, b: bool, rest: seq<bool>)
    requires |rest| < 14
    ensures Step(Xor(reg, Loaded([b] + rest)), false) == Xor(Step(reg, b), Loaded(rest))
  {
    var loaded := Loaded([b] + rest);
    assert loaded[1..] + [false] == Loaded(rest);
    assert Xor(reg, loaded)[0] == (reg[0] != b);
  }

  // Feeding up to 14 bits is XORing them into the register and stepping on zeros.
  lemma {:induction false} FeedIsLoad(reg: Register, w: seq<bool>)
    requires |w| <= 14
    ensures Feed(reg, w) == Feed(Xor(reg, Loaded(w)), Falses(|w|))
    decreases |w|
  {
    if w == [] {
      assert Xor(reg, Loaded(w)) == reg;
    } else {
      var b, rest := w[0], w[1..];
      assert w == [b] + rest;
      FeedAppend(reg, [b], rest);
      FeedOne(reg, b);
      FeedIsLoad(Step(reg, b), rest);
      LoadThenStep(reg, b, rest);
      assert Falses(|w|) == [false] + Falses(|rest|);
      FeedAppend(Xor(reg, Loaded(w)), [false], Falses(|rest|));
      FeedOne(Xor(reg, Loaded(w)), false);
    }
  }

  lemma FeedOne(reg: Register, b: bool)
    ensures Feed(reg, [b]) == Step(reg, b)
  {
    assert [b][..0] == [];
  }

  ghost predicate BurstAt(error: seq<bool>, p: nat) {
    && (exists i :: p <= i < |error| && error[i])
    && forall i :: 0 <= i < |error| && error[i] ==> p <= i < p + 14
  }

  lemma WindowReachesRegister(w: seq<bool>, i: nat)
    requires i < |w| <= 14 && w[i]
    ensures Feed(Falses(14), w) != Falses(14)
  {
    hide Feed;
    FeedIsLoad(Falses(14), w);
    assert Xor(Falses(14), Loaded(w)) == Loaded(w);
    assert Loaded(w)[i];
    FeedZeros(Loaded(w), |w|);
  }

  lemma ZerosAround(p: nat, w: seq<bool>, after: nat)
    requires Feed(Falses(14), w) != Falses(14)
    ensures Feed(Falses(14), Falses(p) + w + Falses(after)) != Falses(14)
  {
    FeedAppend(Falses(14), Falses(p) + w, Falses(after));
    FeedAppend(Falses(14), Falses(p), w);
    FeedZeros(Falses(14), p);
    FeedZeros(Feed(Falses(14), w), after);
  }

  lemma BurstPadding(error: seq<bool>, p: nat, end: nat)
    requires |error| == PAYLOAD_BITS && BurstAt(error, p) && p <= end <= PAYLOAD_BITS
    requires end == p + 14 || end == PAYLOAD_BITS
    ensures error + Falses(5) == Falses(p) + error[p..end] + Falses(PAYLOAD_BITS - end + 5)
  {
  }

  lemma BurstReachesRegister(error: seq<bool>, p: nat)
    requires |error| == PAYLOAD_BITS && BurstAt(error, p)
    ensures Feed(Falses(14), error + Falses(5)) != Falses(14)
  {
    var i :| p <= i < |error| && error[i];
    var end := if p + 14 <= PAYLOAD_BITS then p + 14 else PAYLOAD_BITS;
    hide Feed, Falses, BurstAt;
    WindowReachesRegister(error[p..end], i - p);
    ZerosAround(p, error[p..end], PAYLOAD_BITS - end + 5);
    BurstPadding(error, p, end);
  }

  // Any change to a payload confined to 14 consecutive bits changes its CRC, so
  // the stored CRC no longer verifies.
  lemma BurstDetected(payload: seq<bool>, error: seq<bool>, p: nat)
    requires |payload| == |error| == PAYLOAD_BITS && BurstAt(error, p)
    ensures Crc(Xor(payload, error)) != Crc(payload)
    ensures VerifyCrc(Xor(payload, error) + Crc(payload)) == Err(CrcMismatch)
  {
    var hit, zero := Xor(payload, error), Falses(14);
    assert hit + Falses(5) == Xor(payload + Falses(5), error + Falses(5));
    assert Xor(zero, zero) == zero;
    FeedLinear(zero, zero, payload + Falses(5), error + Falses(5));
    BurstReachesRegister(error, p);
    var e := Feed(zero, error + Falses(5));
    var j :| 0 <= j < 14 && e[j];
    assert Crc(hit)[j] != Crc(payload)[j];
    var message := hit + Crc(payload);
    assert message[..PAYLOAD_BITS] == hit && message[PAYLOAD_BITS..] == Crc(payload);
    VerifyInvertsAdd(message);
    assert AddCrc(hit)[PAYLOAD_BITS..] == Crc(hit);
  }
}
