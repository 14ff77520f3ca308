/**
 * FX.25 framing: the transmitter's wrapper and the receiver's tag hunter and
 * block collector. The Reed-Solomon encoder is any function that yields the
 * parity length it is asked for.
 */
module Fx25 {
  import opened Prelude
  import opened Arith
  import opened Fx25Tags

  const FLAG_FILL: byte := 0x7E
  const U32_MAX: nat := 0xFFFF_FFFF

  datatype Fx25Error = FrameTooLong(got: nat, max: nat) | BufferTooSmall(needed: nat, got: nat)

  // Parity for data, of the length asked for.
  type RsEncoder = (seq<byte>, nat) -> seq<byte>

  ghost predicate Encodes(rs: RsEncoder) {
    forall data, n :: |rs(data, n)| == n
  }

  // ---------------------------------------------------------------- the transmission

  // The data block: the stuffed frame, then flags.
  function DataBlock(tag: CorrelationTag, stuffed: seq<byte>): (d: seq<byte>)
    requires |stuffed| <= DataLen(tag)
    ensures |d| == DataLen(tag)
  {
    stuffed + Repeat(DataLen(tag) - |stuffed|, FLAG_FILL)
  }

  // What the Reed-Solomon encoder is given: the data block and its zero suffix.
  function EncoderInput(tag: CorrelationTag, stuffed: seq<byte>): (d: seq<byte>)
    requires |stuffed| <= DataLen(tag)
    ensures |d| == RsDataLen(tag)
  {
    DataBlock(tag, stuffed) + Repeat(RsDataLen(tag) - DataLen(tag), 0)
  }

  function Parity(rs: RsEncoder, tag: CorrelationTag, stuffed: seq<byte>): seq<byte>
    requires |stuffed| <= DataLen(tag)
  {
    rs(EncoderInput(tag, stuffed), ParityLen(tag))
  }

  // The full 255-byte codeword, of which the zero suffix is never sent.
  function Codeword(rs: RsEncoder, tag: CorrelationTag, stuffed: seq<byte>): seq<byte>
    requires |stuffed| <= DataLen(tag)
  {
    EncoderInput(tag, stuffed) + Parity(rs, tag, stuffed)
  }

  function OnAirBlock(rs: RsEncoder, tag: CorrelationTag, stuffed: seq<byte>): seq<byte>
    requires |stuffed| <= DataLen(tag)
  {
    DataBlock(tag, stuffed) + Parity(rs, tag, stuffed)
  }

  function Wrapped(rs: RsEncoder, tag: CorrelationTag, stuffed: seq<byte>): seq<byte>
    requires |stuffed| <= DataLen(tag)
  {
    TagBytes(tag) + OnAirBlock(rs, tag, stuffed)
  }

  method WriteTag(tag: CorrelationTag, out: array<byte>)
    requires out.Length >= TAG_BYTES
    modifies out
    ensures out[..] == TagBytes(tag) + old(out[TAG_BYTES..])
  {
    hide TagBytes, TagValue;
    var value := TagValue(tag);
    for k := 0 to TAG_BYTES
      invariant value == ShiftBytes(TagValue(tag), k)
      invariant forall j :: 0 <= j < k ==> out[j] == TagBytes(tag)[j]
      invariant out[k..] == old(out[k..])
    {
      TagBytesSpellValue(tag, k);
      out[k] := value % 256;
      value := value / 256;
    }
    assert out[..TAG_BYTES] == TagBytes(tag);
  }

  method Pad(tag: CorrelationTag, stuffed: seq<byte>) returns (padded: array<byte>)
    requires |stuffed| <= DataLen(tag)
    ensures fresh(padded) && padded.Length == BLOCK_MAX
    ensures padded[..DataLen(tag)] == DataBlock(tag, stuffed)
    ensures padded[..RsDataLen(tag)] == EncoderInput(tag, stuffed)
  {
    padded := new byte[BLOCK_MAX](_ => 0);
    for i := 0 to |stuffed|
      invariant padded[..i] == stuffed[..i]
      invariant forall j :: i <= j < BLOCK_MAX ==> padded[j] == 0
    {
      padded[i] := stuffed[i];
    }
    for i := |stuffed| to DataLen(tag)
      invariant padded[..|stuffed|] == stuffed
      invariant forall j :: |stuffed| <= j < i ==> padded[j] == FLAG_FILL
      invariant forall j :: i <= j < BLOCK_MAX ==> padded[j] == 0
    {
      padded[i] := FLAG_FILL;
    }
  }

  method CopyAt(out: array<byte>, at: nat, bytes: seq<byte>)
    requires at + |bytes| <= out.Length
    modifies out
    ensures out[..] == old(out[..at]) + bytes + old(out[at + |bytes|..])
  {
    for i := 0 to |bytes|
      invariant forall j :: 0 <= j < i ==> out[at + j] == bytes[j]
      invariant forall j :: 0 <= j < out.Length && !(at <= j < at + i) ==> out[j] == old(out[j])
    {
      out[at + i] := bytes[i];
    }
  }

  // Where the first copy goes the second has written nothing yet.
  lemma TwoCopies(before: seq<byte>, between: seq<byte>, at: nat, first: seq<byte>, second: seq<byte>)
    requires at + |first| + |second| <= |before|
    requires between == before[..at + |first|] + second + before[at + |first| + |second|..]
    ensures between[..at] == before[..at]
    ensures between[at + |first|..] == second + before[at + |first| + |second|..]
  {
  }

  method CopyTwo(out: array<byte>, at: nat, first: seq<byte>, second: seq<byte>)
    requires at + |first| + |second| <= out.Length
    modifies out
    ensures out[..] == old(out[..at]) + first + second + old(out[at + |first| + |second|..])
  {
    ghost var before := out[..];
    CopyAt(out, at + |first|, second);
    ghost var between := out[..];
    CopyAt(out, at, first);
    TwoCopies(before, between, at, first, second);
  }

  method WriteBlock(rs: RsEncoder, tag: CorrelationTag, stuffed: seq<byte>, out: array<byte>)
    requires Encodes(rs) && |stuffed| <= DataLen(tag) && out.Length >= TAG_BYTES + BlockLen(tag)
    modifies out
    ensures out[..] == old(out[..TAG_BYTES]) + OnAirBlock(rs, tag, stuffed) + old(out[TAG_BYTES + BlockLen(tag)..])
  {
    Sizes(tag);
    hide DataLen, ParityLen, DataBlock, EncoderInput;
    var padded := Pad(tag, stuffed);
    var data, parity := padded[..DataLen(tag)], rs(padded[..RsDataLen(tag)], ParityLen(tag));
    assert OnAirBlock(rs, tag, stuffed) == data + parity;
    ghost var head := out[..TAG_BYTES];
    hide OnAirBlock;
    CopyTwo(out, TAG_BYTES, data, parity);
    assert head + (data + parity) == head + data + parity;
  }

  lemma WrappedLength(rs: RsEncoder, tag: CorrelationTag, stuffed: seq<byte>)
    requires Encodes(rs) && |stuffed| <= DataLen(tag)
    ensures |Wrapped(rs, tag, stuffed)| == TAG_BYTES + BlockLen(tag)
    ensures |OnAirBlock(rs, tag, stuffed)| == BlockLen(tag)
  {
    hide DataLen, ParityLen, TagBytes;
  }

  method WrapWith(rs: RsEncoder, tag: CorrelationTag, stuffed: seq<byte>, out: array<byte>)
    returns (r: Result<nat, Fx25Error>)
    requires Encodes(rs)
    modifies out
    ensures |stuffed| > DataLen(tag) ==> r == Err(FrameTooLong(|stuffed|, DataLen(tag)))
    ensures |stuffed| <= DataLen(tag) ==>
              var sent := Wrapped(rs, tag, stuffed);
              if |sent| > out.Length then r == Err(BufferTooSmall(|sent|, out.Length))
              else r == Ok(|sent|) && out[..] == sent + old(out[..])[|sent|..]
    ensures r.Err? ==> out[..] == old(out[..])
  {
    hide DataLen, ParityLen, TagBytes, OnAirBlock, Encodes;
    if |stuffed| > DataLen(tag) {
      return Err(FrameTooLong(|stuffed|, DataLen(tag)));
    }
    WrappedLength(rs, tag, stuffed);
    var total := TAG_BYTES + BlockLen(tag);
    if out.Length < total {
      return Err(BufferTooSmall(total, out.Length));
    }
    WriteTag(tag, out);
    WriteBlock(rs, tag, stuffed, out);
    return Ok(total);
  }

  // With the tag of least airtime that holds the frame.
  method Wrap(rs: RsEncoder, stuffed: seq<byte>, out: array<byte>)
    returns (r: Result<(CorrelationTag, nat), Fx25Error>)
    requires Encodes(rs)
    modifies out
    ensures |stuffed| > 239 <==> r == Err(FrameTooLong(|stuffed|, 239))
    ensures r.Ok? ==>
              var (tag, len) := r.value;
              && SmallestFor(|stuffed|) == Some(tag) && |stuffed| <= DataLen(tag)
              && len == |Wrapped(rs, tag, stuffed)| <= out.Length
              && out[..] == Wrapped(rs, tag, stuffed) + old(out[..])[len..]
    ensures r.Err? ==> out[..] == old(out[..])
  {
    var chosen := SmallestFor(|stuffed|);
    SmallestForIsBest(|stuffed|, Rs255_239);
    FirstFittingFits(PREFERRED, |stuffed|);
    hide SmallestFor, Wrapped;
    if chosen.None? {
      return Err(FrameTooLong(|stuffed|, 239));
    }
    var sent := WrapWith(rs, chosen.value, stuffed, out);
    if sent.Err? {
      return Err(sent.error);
    }
    return Ok((chosen.value, sent.value));
  }

  // ---------------------------------------------------------------- bits on the air

  lemma {:induction false} AirBitsAppend(a: seq<byte>, b: seq<byte>)
    ensures AirBits(a + b) == AirBits(a) + AirBits(b)
  {
    hide LowBits;
    if a == [] {
      assert a + b == b;
    } else {
      AirBitsAppend(a[1..], b);
      AppendParts(a, b);
      assert AirBits(a + b) == LowBits(a[0], 8) + AirBits(a[1..] + b);
      hide AirBits;
      ConcatAssoc(LowBits(a[0], 8), AirBits(a[1..]), AirBits(b));
    }
  }

  lemma LowBitsAt(v: nat, n: nat, j: nat)
    requires j < n
    ensures LowBits(v, n)[j] == (ShiftRight(v, j) % 2 == 1)
    decreases n
  {
    if j > 0 {
      LowBitsAt(v / 2, n - 1, j - 1);
      ShiftFirst(v, j - 1);
    }
  }

  lemma {:induction false} ShiftFirst(v: int, n: nat)
    ensures ShiftRight(v / 2, n) == ShiftRight(v, n + 1)
    decreases n
  {
    if n > 0 {
      ShiftFirst(v, n - 1);
    }
  }

  lemma {:induction false} AirBitAt(bytes: seq<byte>, p: nat)
    requires p < 8 * |bytes|
    ensures AirBits(bytes)[p] == LowBits(bytes[p / 8], 8)[p % 8]
    decreases |bytes|
  {
    hide LowBits;
    if p >= 8 {
      AirBitAt(bytes[1..], p - 8);
    }
  }

  // Bit `p` on the air, in numbers.
  lemma BitOnAir(bytes: seq<byte>, p: nat)
    requires p < 8 * |bytes|
    ensures AirBits(bytes)[p] == (bytes[p / 8] / Pow2(p % 8) % 2 == 1)
  {
    hide AirBits, LowBits, Pow2;
    AirBitAt(bytes, p);
    LowBitsAt(bytes[p / 8], 8, p % 8);
    ShiftIsFloor(bytes[p / 8], p % 8);
  }

  lemma TwoLowBits(v: nat, n: nat)
    requires n >= 2
    ensures LowBits(v, n) == [v % 2 == 1, v / 2 % 2 == 1] + LowBits(v / 4, n - 2)
  {
    assert LowBits(v, n) == [v % 2 == 1] + LowBits(v / 2, n - 1);
    assert LowBits(v / 2, n - 1) == [v / 2 % 2 == 1] + LowBits(v / 2 / 2, n - 2);
    assert v / 2 / 2 == v / 4;
    hide LowBits;
  }

  // The HDLC flag, as bits.
  predicate IsFlag(b: byte) {
    LowBits(b, 8) == [false, true, true, true, true, true, true, false]
  }

  lemma FillIsFlag()
    ensures IsFlag(FLAG_FILL)
  {
    hide LowBits;
    TwoLowBits(126, 8);
    TwoLowBits(31, 6);
    TwoLowBits(7, 4);
    TwoLowBits(1, 2);
  }

  lemma WrappedParts(rs: RsEncoder, tag: CorrelationTag, stuffed: seq<byte>)
    requires |stuffed| <= DataLen(tag)
    ensures var w, k := Wrapped(rs, tag, stuffed), DataLen(tag);
            && |w| >= 8 + k && w[..8] == TagBytes(tag)
            && w[8..8 + k] == DataBlock(tag, stuffed) && w[8 + k..] == Parity(rs, tag, stuffed)
  {
    hide TagBytes, DataLen, DataBlock, Parity;
  }

  lemma BlockParts(w: seq<byte>, k: nat, stuffed: seq<byte>)
    requires |stuffed| <= k && 8 + k <= |w| && w[8..8 + k] == stuffed + Repeat(k - |stuffed|, FLAG_FILL)
    ensures w[8..8 + |stuffed|] == stuffed
    ensures forall i :: 8 + |stuffed| <= i < 8 + k ==> w[i] == FLAG_FILL
  {
    assert w[8..8 + |stuffed|] == w[8..8 + k][..|stuffed|];
    forall i | 8 + |stuffed| <= i < 8 + k
      ensures w[i] == FLAG_FILL
    {
      assert w[i] == w[8..8 + k][i - 8];
    }
  }

  // Tag, frame, flags to the end of the `k` data bytes, and the parity of the data
  // and its zeros up to the full code.
  ghost predicate OnAirLayout(rs: RsEncoder, w: seq<byte>, tagBytes: seq<byte>, stuffed: seq<byte>, n: nat, k: nat) {
    && |w| == 8 + n && |stuffed| <= k <= n <= 255
    && w[..8] == tagBytes && w[8..8 + |stuffed|] == stuffed
    && (forall i :: 8 + |stuffed| <= i < 8 + k ==> IsFlag(w[i]))
    && w[8 + k..] == rs(w[8..8 + k] + Repeat(255 - n, 0), n - k)
  }

  // What is on the air under a tag, in order.
  lemma WrappedLayout(rs: RsEncoder, tag: CorrelationTag, stuffed: seq<byte>)
    requires Encodes(rs) && |stuffed| <= DataLen(tag)
    ensures OnAirLayout(rs, Wrapped(rs, tag, stuffed), TagBytes(tag), stuffed, NamedCode(tag).0, NamedCode(tag).1)
  {
    Sizes(tag);
    SizesAreNamed(tag);
    hide TagBytes, DataLen, ParityLen, NamedCode, Wrapped, Encodes, OnAirBlock, IsFlag;
    WrappedLength(rs, tag, stuffed);
    WrappedParts(rs, tag, stuffed);
    BlockParts(Wrapped(rs, tag, stuffed), DataLen(tag), stuffed);
    FillIsFlag();
  }

  /** The lazy bit iterator; `Rest` is what it has still to yield. */
  class ByteBits {
    const bytes: seq<byte>
    var pos: nat

    constructor (bytes: seq<byte>)
      ensures Valid() && Rest() == AirBits(bytes)
    {
      this.bytes := bytes;
      pos := 0;
    }

    predicate Valid()
      reads this
    {
      pos <= 8 * |bytes|
    }

    function Rest(): seq<bool>
      requires Valid()
      reads this
    {
      AirBits(bytes)[pos..]
    }

    method Next() returns (r: Option<bool>)
      requires Valid()
      modifies this
      ensures Valid()
      ensures r == if old(Rest()) == [] then None else Some(old(Rest())[0])
      ensures Rest() == if old(Rest()) == [] then [] else old(Rest())[1..]
    {
      if pos / 8 >= |bytes| {
        return None;
      }
      AirBitAt(bytes, pos);
      LowBitsAt(bytes[pos / 8], 8, pos % 8);
      hide LowBits, ShiftRight, AirBits;
      r := Some(ShiftRight(bytes[pos / 8], pos % 8) % 2 == 1);
      pos := pos + 1;
    }
  }
}
