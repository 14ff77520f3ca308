/**
 * FT8 payload packing and unpacking as the source runs it: bit writer, character
 * buffers and digit loops, proved against the message specifications.
 */
module Ft8Payload {
  import opened Prelude
  import opened Arith
  import opened Bits
  import opened Ft8Crc
  import opened Ft8Source
  import opened Ft8Message

  lemma NextBit(value: nat, i: nat, n: nat)
    requires ShiftRight(value, i + 1) >= 0
    ensures ShiftRight(value, i) >= 0
    ensures BitsOf(ShiftRight(value, i), n + 1)
         == BitsOf(ShiftRight(value, i + 1), n) + [ShiftRight(value, i) % 2 == 1]
  {
  }

  lemma NoBits(v: nat)
    ensures BitsOf(v, 0) == []
  {
  }

  lemma {:induction false} ShiftStaysNat(value: nat, i: nat)
    ensures ShiftRight(value, i) >= 0
  {
    if i > 0 {
      ShiftStaysNat(value, i - 1);
    }
  }

  /** Accumulates MSB-first bits into a fixed 10-byte payload. */
  class BitWriter {
    const bytes: array<Octet>
    var used: nat
    ghost var written: seq<bool>

    ghost predicate Valid()
      reads this, bytes
    {
      bytes.Length == 10 && |written| == used <= 80 && Stores(bytes[..], written)
    }

    constructor ()
      ensures Valid() && fresh(bytes) && written == []
    {
      bytes := new Octet[10](_ => ZERO);
      used := 0;
      written := [];
      new;
      assert ToBits(bytes[..]) == [] + Falses(80);
    }

    method PushBit(bit: bool)
      requires Valid() && used < 80
      modifies this, bytes
      ensures Valid() && written == old(written) + [bit] && used == old(used) + 1
    {
      hide Stores;
      AppendBit(bytes, written, bit, used);
      written := written + [bit];
      used := used + 1;
    }

    // Appends the `count` low bits of `value`, most significant first.
    method Push(value: nat, count: nat)
      requires Valid() && used + count <= 80
      modifies this, bytes
      ensures Valid()
      ensures written == old(written) + BitsOf(value, count)
    {
      hide Valid, BitsOf;
      var i := count;
      ShiftStaysNat(value, count);
      NoBits(ShiftRight(value, count));
      while i > 0
        invariant 0 <= i <= count && used == old(used) + (count - i)
        invariant ShiftRight(value, i) >= 0
        invariant written == old(written) + BitsOf(ShiftRight(value, i), count - i)
        invariant Valid()
      {
        i := i - 1;
        NextBit(value, i, count - i - 1);
        PushBit(ShiftRight(value, i) % 2 == 1);
      }
    }

    method Finish() returns (payload: seq<Octet>)
      requires Valid()
      ensures |payload| == 10 && Stores(payload, written)
    {
      payload := bytes[..];
    }
  }

  // ---------------------------------------------------------------- packing

  // One character of the scan: what is wrong with it, if anything.
  method ScanChar(call: string, up: array<char>, len: nat) returns (bad: Option<Ft8Error>)
    requires len < |call| && len <= 7 && up.Length == 8
    requires up[..len] == Upper(call)[..len]
    modifies up
    ensures bad == BadAt(call, len)
    ensures bad.None? ==> len < 7 && up[..len + 1] == Upper(call)[..len + 1]
  {
    var c := UpperChar(call[len]);
    if c == '/' {
      return Some(CallsignCompound);
    }
    if c == ' ' {
      if len >= 2 && up[..2] == "CQ" {
        assert up[..len][..2] == up[..2] && Upper(call)[..len][..2] == Upper(call)[..2];
        return Some(DirectedCqUnsupported);
      }
      assert len >= 2 ==> up[..len][..2] == up[..2] && Upper(call)[..len][..2] == Upper(call)[..2];
      return Some(CallsignChar(c, len));
    }
    if c as int >= 128 || len >= 7 {
      return Some(CallsignLength(|call|));
    }
    up[len] := c;
    assert up[..len + 1] == up[..len] + [c] && Upper(call)[..len + 1] == Upper(call)[..len] + [c];
    return None;
  }

  method ScanAndPackC28(call: string) returns (r: Result<nat, Ft8Error>)
    ensures r == PackC28(call)
  {
    hide BadAt, PackShaped, Upper;
    var up := new char[8](_ => ' ');
    var len := 0;
    UpperLength(call);
    while len < |call|
      invariant 0 <= len <= |call| && len <= 7
      invariant up[..len] == Upper(call)[..len]
      invariant FirstBad(call, 0) == FirstBad(call, len)
    {
      var bad := ScanChar(call, up, len);
      if bad.Some? {
        return Err(bad.value);
      }
      len := len + 1;
    }
    var text := up[..len];
    assert text == Upper(call);
    if TokenOf(text).Some? {
      return Ok(TokenOf(text).value);
    }
    r := PackShaped(text);
  }

  lemma UpperLength(s: string)
    ensures |Upper(s)| == |s|
  {
  }

  method StandardMessage(callA: string, callB: string, r: bool, tail: Tail)
    returns (result: Result<seq<Octet>, Ft8Error>)
    requires tail.Grid? ==> tail.grid.Valid()
    ensures match Standard(callA, callB, r, tail)
            case Ok(p) => result.Ok? && |result.value| == 10 && Stores(result.value, p)
            case Err(e) => result == Err(e)
  {
    var a := ScanAndPackC28(callA);
    if a.Err? {
      return Err(a.error);
    }
    var b := ScanAndPackC28(callB);
    if b.Err? {
      return Err(b.error);
    }
    if b.value < NTOKENS + MAX22 {
      return Err(TokenNotAllowedHere);
    }
    if r && !tail.Grid? && !tail.Report? {
      return Err(AckFlagInvalid);
    }
    var g15 := PackG15(tail);
    if g15.Err? {
      return Err(g15.error);
    }
    var payload := WriteStandard(a.value, b.value, r, g15.value);
    return Ok(payload);
  }

  method WriteStandard(a: nat, b: nat, r: bool, g15: nat) returns (payload: seq<Octet>)
    ensures |payload| == 10 && Stores(payload, StandardLayout(a, b, r, g15))
  {
    var w := new BitWriter();
    SingleBit(false);
    SingleBit(r);
    hide BitsOf, Stores;
    w.Push(a, 28);
    w.Push(0, 1);
    assert w.written == BitsOf(a, 28) + [false];
    w.Push(b, 28);
    w.Push(0, 1);
    assert w.written == BitsOf(a, 28) + [false] + BitsOf(b, 28) + [false];
    w.Push(if r then 1 else 0, 1);
    w.Push(g15, 15);
    w.Push(1, 3);
    payload := w.Finish();
  }

  lemma SingleBit(b: bool)
    ensures BitsOf(if b then 1 else 0, 1) == [b]
  {
    assert BitsOf(if b then 1 else 0, 1) == BitsOf(0, 0) + [b];
  }

  method FreeTextMessage(text: string) returns (result: Result<seq<Octet>, Ft8Error>)
    ensures match FreeText(text)
            case Ok(p) => result.Ok? && |result.value| == 10 && Stores(result.value, p)
            case Err(e) => result == Err(e)
  {
    var len := |text|;
    if len > FREE_TEXT_LEN {
      return Err(FreeTextLength(len));
    }
    var justified := JustifyText(FREE_TEXT_ALPHABET, text);
    if justified.Err? {
      return Err(justified.error);
    }
    var value := Base42Value(FREE_TEXT_ALPHABET, justified.value);
    var payload := WriteFreeText(value);
    return Ok(payload);
  }

  method WriteFreeText(value: nat) returns (payload: seq<Octet>)
    ensures |payload| == 10 && Stores(payload, FreeLayout(value))
  {
    hide BitsOf, Stores;
    var w := new BitWriter();
    w.Push(value / U64, 7);
    w.Push(value % U64, 64);
    w.Push(0, 3);
    w.Push(0, 3);
    assert w.written == FreeLayout(value);
    payload := w.Finish();
  }

  // Upper-cases into the right-hand end of a space-filled buffer.
  method JustifyText(alphabet: string, text: string) returns (r: Result<string, Ft8Error>)
    requires |text| <= FREE_TEXT_LEN
    ensures match FirstBadText(alphabet, text, 0)
            case Some(e) => r == Err(e)
            case None => r == Ok(Justified(text))
  {
    var chars := new char[FREE_TEXT_LEN](_ => ' ');
    var offset := FREE_TEXT_LEN - |text|;
    for index := 0 to |text|
      invariant chars[..offset + index] == Justified(text)[..offset + index]
      invariant FirstBadText(alphabet, text, 0) == FirstBadText(alphabet, text, index)
    {
      var up := UpperChar(text[index]);
      if up !in alphabet {
        return Err(FreeTextChar(up, index));
      }
      chars[offset + index] := up;
    }
    assert chars[..] == Justified(text);
    return Ok(chars[..]);
  }

  method Base42Value(alphabet: string, chars: string) returns (value: nat)
    ensures value == Base42(alphabet, chars)
  {
    value := 0;
    for i := 0 to |chars|
      invariant value == Base42(alphabet, chars[..i])
    {
      assert chars[..i + 1][..i] == chars[..i];
      var idx := IndexIn(alphabet, chars[i]);
      value := value * 42 + (if idx.Some? then idx.value else 0);
    }
    assert chars[..|chars|] == chars;
  }

  // ---------------------------------------------------------------- unpacking

  function Clip(s: string): string {
    if |s| <= CAPACITY then s else s[..CAPACITY]
  }

  /** The fixed text buffer: whatever does not fit is dropped. */
  class Ft8Text {
    const buf: array<char>
    var len: nat

    ghost predicate Valid()
      reads this
    {
      buf.Length == CAPACITY && len <= CAPACITY
    }

    function Contents(): string
      requires Valid()
      reads this, buf
    {
      buf[..len]
    }

    constructor ()
      ensures Valid() && fresh(buf) && Contents() == ""
    {
      buf := new char[CAPACITY](_ => ' ');
      len := 0;
    }

    method PushBytes(s: string)
      requires Valid()
      modifies this`len, buf
      ensures Valid() && Contents() == Clip(old(Contents()) + s)
    {
      ghost var before := Contents();
      for i := 0 to |s|
        invariant Valid() && Contents() == Clip(before + s[..i])
      {
        assert before + s[..i + 1] == (before + s[..i]) + [s[i]];
        if len < CAPACITY {
          buf[len] := s[i];
          len := len + 1;
        }
      }
      assert s[..|s|] == s;
    }
  }

  method ReadBits(payload: seq<Octet>, pos: nat, count: nat) returns (v: nat)
    requires |payload| == 10 && pos + count <= PAYLOAD_BITS
    ensures v == Ft8Message.Field(ToBits(payload)[..PAYLOAD_BITS], pos, count)
  {
    ghost var bits := ToBits(payload)[..PAYLOAD_BITS];
    v := 0;
    for i := pos to pos + count
      invariant v == IntOf(bits[pos..i])
    {
      assert bits[pos..i + 1][..i - pos] == bits[pos..i];
      v := 2 * v + (if ReadBit(payload, i) then 1 else 0);
    }
  }

  method RenderC28(v: nat, text: Ft8Text) returns (e: Option<Ft8Error>)
    requires text.Valid() && v < C28_SIZE
    modifies text`len, text.buf
    ensures text.Valid()
    ensures match UnpackC28(v)
            case Err(x) => e == Some(x)
            case Ok(s) => e == None && text.Contents() == Clip(old(text.Contents()) + s)
  {
    if v <= 2 {
      text.PushBytes(TokenText(v));
      return None;
    }
    if v < NTOKENS {
      return Some(DirectedCqUnsupported);
    }
    if v < NTOKENS + MAX22 {
      return Some(UnsupportedMessageType);
    }
    text.PushBytes(Trim(AlignedOf(UnpackPlaces(v - NTOKENS - MAX22))));
    return None;
  }

  method RenderCalls(a: nat, b: nat, text: Ft8Text) returns (e: Option<Ft8Error>)
    requires a < C28_SIZE && b < C28_SIZE && text.Valid() && text.Contents() == ""
    modifies text`len, text.buf
    ensures text.Valid()
    ensures e.Some? ==> forall r, g15 | g15 < 32768 :: RenderFields(a, false, b, false, r, g15) == Err(e.value)
    ensures e.None? ==> UnpackC28(a).Ok? && UnpackC28(b).Ok?
                        && text.Contents() == UnpackC28(a).value + " " + UnpackC28(b).value
                        && |text.Contents()| <= 13
  {
    e := RenderC28(a, text);
    if e.Some? {
      return;
    }
    CallTextShort(a);
    assert text.Contents() == UnpackC28(a).value;
    text.PushBytes(" ");
    e := RenderC28(b, text);
    if e.None? {
      CallTextShort(b);
    }
  }

  method RenderText(a: nat, b: nat, r: bool, g15: nat) returns (result: Result<string, Ft8Error>)
    requires a < C28_SIZE && b < C28_SIZE && g15 < 32768
    ensures result == RenderFields(a, false, b, false, r, g15)
  {
    var text := new Ft8Text();
    var e := RenderCalls(a, b, text);
    if e.Some? {
      return Err(e.value);
    }
    var tail := TailText(g15, r);
    if tail.None? {
      return Err(UnsupportedMessageType);
    }
    TailTextShort(g15, r);
    text.PushBytes(tail.value);
    return Ok(text.Contents());
  }

  method RenderStandard(payload: seq<Octet>) returns (r: Result<string, Ft8Error>)
    requires |payload| == 10
    ensures r == UnpackStandard(ToBits(payload)[..PAYLOAD_BITS])
  {
    FieldWidths(ToBits(payload)[..PAYLOAD_BITS]);
    var a := ReadBits(payload, 0, 28);
    var b := ReadBits(payload, 29, 28);
    var g15 := ReadBits(payload, 59, 15);
    if ReadBit(payload, 28) || ReadBit(payload, 57) {
      return Err(UnsupportedMessageType);
    }
    r := RenderText(a, b, ReadBit(payload, 58), g15);
  }

  method RenderFreeText(payload: seq<Octet>) returns (r: Result<string, Ft8Error>)
    requires |payload| == 10
    ensures r == UnpackFreeText(ToBits(payload)[..PAYLOAD_BITS])
  {
    var i3 := ReadBits(payload, 74, 3);
    var n3 := ReadBits(payload, 71, 3);
    if i3 != 0 || n3 != 0 {
      return Err(UnsupportedMessageType);
    }
    var value := ReadBits(payload, 0, 71);
    if value >= Pow42(FREE_TEXT_LEN) {
      return Err(UnsupportedMessageType);
    }
    var chars := Digits42(FREE_TEXT_ALPHABET, value, FREE_TEXT_LEN);
    return Ok(chars);
  }

  method Digits42(alphabet: string, v: nat, n: nat) returns (chars: string)
    requires |alphabet| == 42
    ensures chars == Chars42(alphabet, v, n)
  {
    var out := new char[n](_ => ' ');
    var value, i := v, n;
    while i > 0
      invariant 0 <= i <= n
      invariant Chars42(alphabet, v, n) == Chars42(alphabet, value, i) + out[i..]
    {
      i := i - 1;
      out[i] := alphabet[value % 42];
      assert out[i..] == [alphabet[value % 42]] + out[i + 1..];
      value := value / 42;
    }
    chars := out[..];
  }

  method BufferText(s: string) returns (text: string)
    ensures text == Clip(s)
  {
    var buffer := new Ft8Text();
    buffer.PushBytes(s);
    text := buffer.Contents();
  }

  method RenderMessage(payload: seq<Octet>) returns (r: Result<string, Ft8Error>)
    requires |payload| == 10
    ensures r == UnpackMessage(ToBits(payload)[..PAYLOAD_BITS])
  {
    var i3 := ReadBits(payload, 74, 3);
    if i3 == 0 {
      r := RenderFreeText(payload);
      if r.Ok? {
        TrimShortens(r.value);
        TrimShortens(TrimLeft(r.value));
        var text := BufferText(Trim(r.value));
        return Ok(text);
      }
    } else if i3 == 1 {
      r := RenderStandard(payload);
    } else {
      r := Err(UnsupportedMessageType);
    }
  }
}
