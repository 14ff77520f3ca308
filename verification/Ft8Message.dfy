/**
 * FT8 messages: the 77-bit payload of the two supported message types, and the
 * proof that unpacking a payload gives back the text it was built from.
 */
module Ft8Message {
  import opened Prelude
  import opened Arith
  import opened Bits
  import opened Ft8Source
  import opened Ft8Crc

  const U64: nat := 0x1_0000_0000_0000_0000

  type Payload = p: seq<bool> | |p| == PAYLOAD_BITS witness seq(PAYLOAD_BITS, _ => false)

  // ---------------------------------------------------------------- standard messages

  function StandardLayout(a: nat, b: nat, r: bool, g15: nat): Payload {
    BitsOf(a, 28) + [false] + BitsOf(b, 28) + [false] + [r] + BitsOf(g15, 15) + BitsOf(1, 3)
  }

  function Standard(callA: string, callB: string, r: bool, tail: Tail): Result<Payload, Ft8Error>
    requires tail.Grid? ==> tail.grid.Valid()
  {
    match PackC28(callA)
    case Err(e) => Err(e)
    case Ok(a) =>
      match PackC28(callB)
      case Err(e) => Err(e)
      case Ok(b) =>
        if b < NTOKENS + MAX22 then Err(TokenNotAllowedHere)
        else if r && !tail.Grid? && !tail.Report? then Err(AckFlagInvalid)
        else
          match PackG15(tail)
          case Err(e) => Err(e)
          case Ok(g15) => Ok(StandardLayout(a, b, r, g15))
  }

  function Field(p: Payload, pos: nat, count: nat): nat
    requires pos + count <= PAYLOAD_BITS
  {
    IntOf(p[pos..pos + count])
  }

  lemma FieldFits(p: Payload, pos: nat, count: nat)
    requires pos + count <= PAYLOAD_BITS
    ensures Field(p, pos, count) < Pow2(count)
  {
    BitsOfIntOf(p[pos..pos + count]);
  }

  function RenderFields(a: nat, roverA: bool, b: nat, roverB: bool, r: bool, g15: nat): Result<string, Ft8Error>
    requires a < C28_SIZE && b < C28_SIZE && g15 < 32768
  {
    if roverA || roverB then Err(UnsupportedMessageType)
    else
      match UnpackC28(a)
      case Err(e) => Err(e)
      case Ok(callA) =>
        match UnpackC28(b)
        case Err(e) => Err(e)
        case Ok(callB) =>
          match TailText(g15, r)
          case None => Err(UnsupportedMessageType)
          case Some(t) => Ok(callA + " " + callB + t)
  }

  lemma FieldWidths(p: Payload)
    ensures Field(p, 0, 28) < C28_SIZE && Field(p, 29, 28) < C28_SIZE && Field(p, 59, 15) < 32768
  {
    FieldFits(p, 0, 28);
    FieldFits(p, 29, 28);
    FieldFits(p, 59, 15);
    PowersOfTwo();
  }

  function UnpackStandard(p: Payload): Result<string, Ft8Error> {
    FieldWidths(p);
    RenderFields(Field(p, 0, 28), p[28], Field(p, 29, 28), p[57], p[58], Field(p, 59, 15))
  }

  lemma FieldHolds(p: Payload, pos: nat, count: nat, v: nat)
    requires pos + count <= PAYLOAD_BITS && v < Pow2(count) && p[pos..pos + count] == BitsOf(v, count)
    ensures Field(p, pos, count) == v
  {
    IntOfBitsOf(v, count);
  }

  lemma StandardSlices(a: nat, b: nat, r: bool, g15: nat)
    ensures var p := StandardLayout(a, b, r, g15);
            && p[0..28] == BitsOf(a, 28) && p[29..57] == BitsOf(b, 28)
            && p[59..74] == BitsOf(g15, 15) && p[74..77] == BitsOf(1, 3)
            && !p[28] && !p[57] && p[58] == r
  {
    hide BitsOf;
  }

  lemma StandardFields(a: nat, b: nat, r: bool, g15: nat)
    requires a < C28_SIZE && b < C28_SIZE && g15 < 32768
    ensures var p := StandardLayout(a, b, r, g15);
            && Field(p, 0, 28) == a && !p[28] && Field(p, 29, 28) == b && !p[57]
            && p[58] == r && Field(p, 59, 15) == g15 && Field(p, 74, 3) == 1
  {
    StandardSlices(a, b, r, g15);
    hide BitsOf, IntOf, Field, StandardLayout;
    var p := StandardLayout(a, b, r, g15);
    PowersOfTwo();
    assert Pow2(3) == 8;
    hide Pow2;
    FieldHolds(p, 0, 28, a);
    FieldHolds(p, 29, 28, b);
    FieldHolds(p, 59, 15, g15);
    FieldHolds(p, 74, 3, 1);
  }

  // ---------------------------------------------------------------- free text

  const FREE_TEXT_LEN: nat := 13

  function FirstBadText(alphabet: string, text: string, i: nat): Option<Ft8Error>
    requires i <= |text|
    decreases |text| - i
  {
    if i == |text| then None
    else if UpperChar(text[i]) !in alphabet then Some(FreeTextChar(UpperChar(text[i]), i))
    else FirstBadText(alphabet, text, i + 1)
  }

  function Pow42(n: nat): (p: nat)
    ensures p > 0
  {
    if n == 0 then 1 else 42 * Pow42(n - 1)
  }

  // First character most significant.
  function Base42(alphabet: string, chars: string): nat {
    if chars == [] then 0
    else
      var i := IndexIn(alphabet, chars[|chars| - 1]);
      Base42(alphabet, chars[..|chars| - 1]) * 42 + (if i.Some? then i.value else 0)
  }

  function Chars42(alphabet: string, v: nat, n: nat): (s: string)
    requires |alphabet| == 42
    ensures |s| == n
  {
    if n == 0 then [] else Chars42(alphabet, v / 42, n - 1) + [alphabet[v % 42]]
  }

  lemma {:induction false} Base42RoundTrip(alphabet: string, chars: string)
    requires |alphabet| == 42 && forall j :: 0 <= j < |chars| ==> chars[j] in alphabet
    ensures Base42(alphabet, chars) < Pow42(|chars|)
    ensures Chars42(alphabet, Base42(alphabet, chars), |chars|) == chars
  {
    if chars != [] {
      var n := |chars| - 1;
      Base42RoundTrip(alphabet, chars[..n]);
      var i := IndexIn(alphabet, chars[n]).value;
      var v := Base42(alphabet, chars);
      assert v / 42 == Base42(alphabet, chars[..n]) && v % 42 == i;
    }
  }

  // 42^13 < 2^71
  lemma FreeTextFits()
    ensures Pow42(FREE_TEXT_LEN) == 1_265_437_718_438_866_624_512 < Pow2(71)
  {
    PowersOfTwo();
  }

  function Justified(text: string): string
    requires |text| <= FREE_TEXT_LEN
  {
    Spaces(FREE_TEXT_LEN - |text|) + Upper(text)
  }

  // 71 bits written as 7 and 64, then n3 = 0 and i3 = 0.
  function FreeLayout(value: nat): Payload {
    BitsOf(value / U64, 7) + BitsOf(value % U64, 64) + BitsOf(0, 3) + BitsOf(0, 3)
  }

  function FreeText(text: string): Result<Payload, Ft8Error> {
    if |text| > FREE_TEXT_LEN then Err(FreeTextLength(|text|))
    else
      match FirstBadText(FREE_TEXT_ALPHABET, text, 0)
      case Some(e) => Err(e)
      case None => Ok(FreeLayout(Base42(FREE_TEXT_ALPHABET, Justified(text))))
  }

  function UnpackFreeText(p: Payload): Result<string, Ft8Error> {
    if Field(p, 74, 3) != 0 || Field(p, 71, 3) != 0 then Err(UnsupportedMessageType)
    else if Field(p, 0, 71) >= Pow42(FREE_TEXT_LEN) then Err(UnsupportedMessageType)
    else Ok(Chars42(FREE_TEXT_ALPHABET, Field(p, 0, 71), FREE_TEXT_LEN))
  }

  function UnpackMessage(p: Payload): Result<string, Ft8Error> {
    var i3 := Field(p, 74, 3);
    if i3 == 0 then
      match UnpackFreeText(p)
      case Err(e) => Err(e)
      case Ok(chars) => Ok(Trim(chars))
    else if i3 == 1 then UnpackStandard(p)
    else Err(UnsupportedMessageType)
  }

  lemma {:induction false} CleanText(alphabet: string, text: string, i: nat)
    requires i <= |text|
    ensures FirstBadText(alphabet, text, i).None? <==> forall j :: i <= j < |text| ==> UpperChar(text[j]) in alphabet
    decreases |text| - i
  {
    if i < |text| {
      CleanText(alphabet, text, i + 1);
    }
  }

  lemma FreeFields(value: nat)
    requires value < Pow2(71)
    ensures var p := FreeLayout(value);
            Field(p, 0, 71) == value && Field(p, 71, 3) == 0 && Field(p, 74, 3) == 0
  {
    hide BitsOf, IntOf, Field;
    var p, q, r := FreeLayout(value), value / U64, value % U64;
    PowersOfTwo();
    assert Pow2(3) == 8;
    hide Pow2;
    assert value == q * U64 + r;
    BitsOfJoin(q, r, 7, 64);
    FieldHolds(p, 0, 71, value);
    FieldHolds(p, 71, 3, 0);
    FieldHolds(p, 74, 3, 0);
  }

  // ---------------------------------------------------------------- the two directions

  // The text of a standard message, as the operator reads it.
  function StandardText(callA: string, callB: string, r: bool, tail: Tail): string
    requires PackedTail(tail)
  {
    Upper(callA) + " " + Upper(callB) + Rendered(tail, r)
  }

  lemma StandardAccepted(callA: string, callB: string, r: bool, tail: Tail)
    requires (tail.Grid? ==> tail.grid.Valid()) && Standard(callA, callB, r, tail).Ok?
    ensures PackC28(callA).Ok? && PackC28(callB).Ok? && PackedTail(tail) && AckAllowed(tail, r)
    ensures PackC28(callB).value >= NTOKENS + MAX22
    ensures Standard(callA, callB, r, tail).value
         == StandardLayout(PackC28(callA).value, PackC28(callB).value, r, PackG15(tail).value)
  {
  }

  // Every accepted standard message unpacks to exactly its upper-cased text, with
  // room to spare in the 24-byte buffer.
  lemma StandardRoundTrip(callA: string, callB: string, r: bool, tail: Tail)
    requires (tail.Grid? ==> tail.grid.Valid()) && Standard(callA, callB, r, tail).Ok?
    ensures PackedTail(tail)
    ensures UnpackMessage(Standard(callA, callB, r, tail).value) == Ok(StandardText(callA, callB, r, tail))
    ensures |StandardText(callA, callB, r, tail)| <= CAPACITY
  {
    StandardAccepted(callA, callB, r, tail);
    CallsignRoundTrip(callA);
    CallsignRoundTrip(callB);
    TailRoundTrip(tail, r);
    StandardFields(PackC28(callA).value, PackC28(callB).value, r, PackG15(tail).value);
  }

  lemma {:induction false} TrimShortens(s: string)
    ensures |TrimLeft(s)| <= |s| && |TrimRight(s)| <= |s|
    decreases |s|
  {
    if s != [] {
      TrimShortens(s[1..]);
      TrimShortens(s[..|s| - 1]);
    }
  }

  lemma JustifiedInAlphabet(alphabet: string, text: string)
    requires |text| <= FREE_TEXT_LEN && FirstBadText(alphabet, text, 0).None? && ' ' in alphabet
    ensures forall j :: 0 <= j < FREE_TEXT_LEN ==> Justified(text)[j] in alphabet
  {
    CleanText(alphabet, text, 0);
    var pad := FREE_TEXT_LEN - |text|;
    forall j | pad <= j < FREE_TEXT_LEN
      ensures Justified(text)[j] in alphabet
    {
      assert Justified(text)[j] == UpperChar(text[j - pad]);
    }
  }

  // Every accepted free text unpacks to its upper-cased form, trimmed of spaces.
  lemma FreeTextRoundTrip(text: string)
    requires FreeText(text).Ok?
    ensures UnpackMessage(FreeText(text).value) == Ok(Trim(Upper(text)))
    ensures |Trim(Upper(text))| <= CAPACITY
  {
    var chars := Justified(text);
    assert FREE_TEXT_ALPHABET[0] == ' ';
    JustifiedInAlphabet(FREE_TEXT_ALPHABET, text);
    Base42RoundTrip(FREE_TEXT_ALPHABET, chars);
    FreeTextFits();
    FreeFields(Base42(FREE_TEXT_ALPHABET, chars));
    TrimLeftPadding(FREE_TEXT_LEN - |text|, Upper(text));
    TrimShortens(Upper(text));
    TrimShortens(TrimLeft(Upper(text)));
  }

  // No payload at all, valid or not, renders to more than the buffer holds.
  lemma NeverTruncates(p: Payload)
    requires UnpackMessage(p).Ok?
    ensures |UnpackMessage(p).value| <= CAPACITY
  {
    if Field(p, 74, 3) == 0 {
      var chars := UnpackFreeText(p).value;
      TrimShortens(chars);
      TrimShortens(TrimLeft(chars));
    } else {
      FieldWidths(p);
      CallTextShort(Field(p, 0, 28));
      CallTextShort(Field(p, 29, 28));
      TailTextShort(Field(p, 59, 15), p[58]);
    }
  }

  lemma TailTextShort(v: nat, r: bool)
    requires v < 32768 && TailText(v, r).Some?
    ensures |TailText(v, r).value| <= 7
  {
  }

  lemma CallTextShort(v: nat)
    requires v < C28_SIZE && UnpackC28(v).Ok?
    ensures |UnpackC28(v).value| <= 6
  {
    if v >= NTOKENS + MAX22 {
      var aligned := AlignedOf(UnpackPlaces(v - NTOKENS - MAX22));
      TrimShortens(aligned);
      TrimShortens(TrimLeft(aligned));
    }
  }
}
