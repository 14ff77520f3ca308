/**
 * The whole FT8 channel: message to symbols, and tone energies back to text.
 */
module Ft8EndToEnd {
  import opened Prelude
  import opened Arith
  import opened Bits
  import opened Ft8Crc
  import opened Ft8Ldpc
  import opened Ft8MinSum
  import opened Ft8Symbols
  import opened Ft8Source
  import opened Ft8Message
  import Ft8Payload

  // ---------------------------------------------------------------- transmit

  function SentWord(g: Matrix, payload: Payload): Word {
    Encode(g, AddCrc(payload))
  }

  method ChannelSymbols(rows: seq<seq<Octet>>, bytes: seq<Octet>, ghost payload: Payload) returns (symbols: seq<nat>)
    requires RowsShape(rows) && |bytes| == 10 && Stores(bytes, payload)
    ensures Framed(symbols, SentWord(RowsMatrix(rows), payload))
  {
    StoresPrefix(bytes, payload);
    var message := AddCrcBytes(bytes);
    StoresPrefix(message, AddCrc(payload));
    var codeword := LdpcEncode(rows, message);
    StoresPrefix(codeword, SentWord(RowsMatrix(rows), payload));
    symbols := SymbolsFromCodeword(codeword);
  }

  // ---------------------------------------------------------------- receive

  function TextOf(payload: Payload): Option<string> {
    if payload == Falses(77) then None
    else
      match UnpackMessage(payload)
      case Ok(text) => Some(text)
      case Err(_) => None
  }

  // Energies of the data symbols to message text: LLRs, decoder, CRC, unpacking.
  function Receive(table: CheckTable, e: Energies): Option<string> {
    match DecodeFrom(table, Llrs(e), 0)
    case None => None
    case Some(word) =>
      match VerifyCrc(word[..MESSAGE_BITS])
      case Err(_) => None
      case Ok(payload) => TextOf(payload)
  }

  method MessageFromCodeword(codeword: seq<Octet>, ghost word: Word) returns (message: seq<Octet>)
    requires |codeword| == 22 && Stores(codeword, word)
    ensures |message| == 12 && Stores(message, word[..MESSAGE_BITS])
  {
    message := codeword[..12];
    StoresPrefix(codeword, word);
    ToBitsPrefix(codeword, 12);
    MaskedTail(message, 3);
    message := message[11 := And(message[11], HighMask(3))]; // & 0xE0
  }

  method AllZero(bytes: seq<Octet>, ghost payload: Payload) returns (zero: bool)
    requires |bytes| == 10 && Stores(bytes, payload)
    ensures zero == (payload == Falses(77))
  {
    zero := forall i :: 0 <= i < 10 ==> bytes[i] == ZERO;
    StoresPrefix(bytes, payload);
    if zero {
      assert forall i :: 0 <= i < 80 ==> !ToBits(bytes)[i];
    } else if payload == Falses(77) {
      assert ToBits(bytes) == Falses(80);
      forall i | 0 <= i < 10
        ensures bytes[i] == ZERO
      {
        ByteInBits(bytes, i);
        assert forall j :: 0 <= j < 8 ==> bytes[i][j] == ToBits(bytes)[8 * i + j];
      }
    }
  }

  method ReceiveSymbols(table: CheckTable, energies: seq<ToneEnergies>) returns (text: Option<string>)
    requires |energies| == SYMBOL_COUNT
    ensures text == Receive(table, seq(DATA_SYMBOLS, j requires 0 <= j < DATA_SYMBOLS => energies[Position(j)]))
  {
    var data: Energies := seq(DATA_SYMBOLS, j requires 0 <= j < DATA_SYMBOLS => energies[Position(j)]);
    var llr := LlrsFromEnergies(data);
    var channel := seq(CODEWORD_BITS, i requires 0 <= i < CODEWORD_BITS => Finite(llr[i]));
    assert Numbers(channel) == Llrs(data);
    var decoded := LdpcDecode(table, channel);
    if decoded.Err? {
      return None;
    }
    ghost var word := DecodeFrom(table, Llrs(data), 0).value;
    var message := MessageFromCodeword(decoded.value, word);
    StoresPrefix(message, word[..MESSAGE_BITS]);
    var checked := VerifyCrcBytes(message);
    if checked.Err? {
      return None;
    }
    ghost var payload: Payload := word[..MESSAGE_BITS][..Ft8Crc.PAYLOAD_BITS];
    StoresPrefix(checked.value, payload);
    var zero := AllZero(checked.value, payload);
    if zero {
      return None;
    }
    var rendered := Ft8Payload.RenderMessage(checked.value);
    if rendered.Err? {
      return None;
    }
    return Some(rendered.value);
  }

  // ---------------------------------------------------------------- the loop closes

  // The sparse check table belongs to the code: it annihilates every codeword.
  ghost predicate Annihilates(table: CheckTable, g: Matrix) {
    forall message: seq<bool> :: |message| == MESSAGE_BITS ==> ChecksHold(table, Encode(g, message))
  }

  predicate StrongestTones(word: Word, e: Energies) {
    forall j :: 0 <= j < DATA_SYMBOLS ==> Strongest(e[j], Tone(word, j))
  }

  // Any energies in which each transmitted tone is the strict maximum of its
  // symbol bring the transmitted payload through every stage.
  lemma PayloadArrives(table: CheckTable, g: Matrix, payload: Payload, e: Energies)
    requires Annihilates(table, g) && StrongestTones(SentWord(g, payload), e)
    ensures DecodeFrom(table, Llrs(e), 0) == Some(SentWord(g, payload))
    ensures VerifyCrc(SentWord(g, payload)[..MESSAGE_BITS]) == Ok(payload)
    ensures Receive(table, e) == TextOf(payload)
  {
    var word := SentWord(g, payload);
    HardDecisionRecoversWord(word, e);
    assert |AddCrc(payload)| == MESSAGE_BITS;
    ValidWordUnchanged(table, Llrs(e));
    assert word[..MESSAGE_BITS] == AddCrc(payload);
    assert AddCrc(payload)[..Ft8Crc.PAYLOAD_BITS] == payload;
    VerifyInvertsAdd(word[..MESSAGE_BITS]);
  }

  lemma TypeBitSet(a: nat, b: nat, r: bool, g15: nat)
    ensures StandardLayout(a, b, r, g15) != Falses(77)
  {
    var front := BitsOf(a, 28) + [false] + BitsOf(b, 28) + [false] + [r] + BitsOf(g15, 15);
    assert BitsOf(1, 3) == BitsOf(0, 2) + [true];
    assert StandardLayout(a, b, r, g15)[76] == (front + BitsOf(1, 3))[76];
  }

  lemma StandardIsNonzero(callA: string, callB: string, r: bool, tail: Tail)
    requires (tail.Grid? ==> tail.grid.Valid()) && Standard(callA, callB, r, tail).Ok?
    ensures Standard(callA, callB, r, tail).value != Falses(77)
  {
    StandardAccepted(callA, callB, r, tail);
    TypeBitSet(PackC28(callA).value, PackC28(callB).value, r, PackG15(tail).value);
  }

  // A standard message arrives as exactly its upper-cased text.
  lemma StandardArrives(table: CheckTable, g: Matrix, callA: string, callB: string, r: bool, tail: Tail, e: Energies)
    requires (tail.Grid? ==> tail.grid.Valid()) && Standard(callA, callB, r, tail).Ok?
    requires Annihilates(table, g) && StrongestTones(SentWord(g, Standard(callA, callB, r, tail).value), e)
    ensures PackedTail(tail)
    ensures Receive(table, e) == Some(StandardText(callA, callB, r, tail))
  {
    StandardRoundTrip(callA, callB, r, tail);
    StandardIsNonzero(callA, callB, r, tail);
    PayloadArrives(table, g, Standard(callA, callB, r, tail).value, e);
  }

  lemma {:induction false} ZeroField(n: nat)
    ensures BitsOf(0, n) == Falses(n)
  {
    if n > 0 {
      ZeroField(n - 1);
    }
  }

  lemma {:induction false} SpacesAreZero(alphabet: string, n: nat)
    requires |alphabet| == 42 && alphabet[0] == ' '
    ensures Base42(alphabet, Spaces(n)) == 0
    ensures Chars42(alphabet, 0, n) == Spaces(n)
  {
    if n > 0 {
      SpacesAreZero(alphabet, n - 1);
      assert Spaces(n)[..n - 1] == Spaces(n - 1);
    }
  }

  lemma {:induction false} LeftTrimmedBlank(s: string)
    ensures TrimLeft(s) == "" <==> s == Spaces(|s|)
    ensures TrimLeft(s) != "" ==> TrimLeft(s)[0] != ' '
  {
    if s != "" && s[0] == ' ' {
      LeftTrimmedBlank(s[1..]);
      assert s == [s[0]] + s[1..];
      assert Spaces(|s|)[1..] == Spaces(|s| - 1);
    } else if s != "" {
      assert Spaces(|s|)[0] == ' ';
    }
  }

  lemma {:induction false} RightTrimmedKeeps(s: string)
    requires s != "" && s[0] != ' '
    ensures TrimRight(s) != ""
  {
    if s[|s| - 1] == ' ' {
      RightTrimmedKeeps(s[..|s| - 1]);
    }
  }

  lemma TrimmedBlank(s: string)
    ensures Trim(s) == "" <==> s == Spaces(|s|)
  {
    LeftTrimmedBlank(s);
    if TrimLeft(s) != "" {
      RightTrimmedKeeps(TrimLeft(s));
    }
  }

  lemma ZeroLayout(value: nat)
    requires value < Pow2(71)
    ensures FreeLayout(value) == Falses(77) <==> value == 0
  {
    FreeFields(value);
    if value == 0 {
      ZeroField(7);
      ZeroField(64);
      ZeroField(3);
    } else {
      ZeroField(71);
      PowersOfTwo();
      IntOfBitsOf(0, 71);
      assert Falses(77)[0..71] == BitsOf(0, 71);
    }
  }

  lemma ZeroIsBlank(alphabet: string, chars: string)
    requires |alphabet| == 42 && alphabet[0] == ' ' && forall j :: 0 <= j < |chars| ==> chars[j] in alphabet
    ensures Base42(alphabet, chars) == 0 <==> chars == Spaces(|chars|)
  {
    Base42RoundTrip(alphabet, chars);
    SpacesAreZero(alphabet, |chars|);
  }

  lemma JustifyingTrims(text: string)
    requires |text| <= FREE_TEXT_LEN
    ensures Trim(Justified(text)) == Trim(Upper(text))
  {
    hide TrimLeft, TrimRight, Upper;
    TrimLeftPadding(FREE_TEXT_LEN - |text|, Upper(text));
  }

  lemma JustifiedZero(alphabet: string, text: string)
    requires |alphabet| == 42 && alphabet[0] == ' '
    requires |text| <= FREE_TEXT_LEN && FirstBadText(alphabet, text, 0).None?
    ensures var value := Base42(alphabet, Justified(text));
            value < Pow42(FREE_TEXT_LEN) && (value == 0 <==> Trim(Upper(text)) == "")
  {
    hide Base42, Chars42, Pow42, Upper, Trim, FirstBadText;
    var chars := Justified(text);
    JustifiedInAlphabet(alphabet, text);
    Base42RoundTrip(alphabet, chars);
    ZeroIsBlank(alphabet, chars);
    TrimmedBlank(chars);
    JustifyingTrims(text);
  }

  // The payload is all zero exactly when the text is blank.
  lemma BlankTextIsZero(text: string)
    requires FreeText(text).Ok?
    ensures FreeText(text).value == Falses(77) <==> Trim(Upper(text)) == ""
  {
    hide Base42, Trim, Upper, FreeLayout, Pow42, Pow2, FirstBadText, Falses, Justified;
    assert FREE_TEXT_ALPHABET[0] == ' ';
    JustifiedZero(FREE_TEXT_ALPHABET, text);
    FreeTextFits();
    ZeroLayout(Base42(FREE_TEXT_ALPHABET, Justified(text)));
  }

  // Free text arrives upper-cased and trimmed, if and only if it is not blank: a
  // blank text packs to the all-zero payload, which the receiver never reports.
  lemma FreeTextArrives(table: CheckTable, g: Matrix, text: string, e: Energies)
    requires FreeText(text).Ok?
    requires Annihilates(table, g) && StrongestTones(SentWord(g, FreeText(text).value), e)
    ensures Receive(table, e) == if Trim(Upper(text)) == "" then None else Some(Trim(Upper(text)))
  {
    FreeTextRoundTrip(text);
    BlankTextIsZero(text);
    PayloadArrives(table, g, FreeText(text).value, e);
  }

  // A message the packer accepts and the receiver never shows: a single space.
  lemma BlankTextVanishes(table: CheckTable, g: Matrix, e: Energies)
    ensures FreeText(" ").Ok?
    ensures Annihilates(table, g) && StrongestTones(SentWord(g, FreeText(" ").value), e) ==> Receive(table, e).None?
  {
    assert FREE_TEXT_ALPHABET[0] == ' ' && UpperChar(' ') == ' ';
    assert Upper(" ") == " " && TrimLeft(" ") == "" && Trim(" ") == "";
    hide Receive, StrongestTones, Annihilates;
    if Annihilates(table, g) && StrongestTones(SentWord(g, FreeText(" ").value), e) {
      FreeTextArrives(table, g, " ", e);
    }
  }

  // Whatever is reported was protected by a matching CRC inside a word that
  // satisfies every check.
  lemma ReportsAreChecked(table: CheckTable, e: Energies)
    requires Receive(table, e).Some?
    ensures exists word: Word, payload: Payload ::
              && ChecksHold(table, word) && word[..MESSAGE_BITS] == AddCrc(payload)
              && UnpackMessage(payload) == Ok(Receive(table, e).value)
  {
    var word := DecodeFrom(table, Llrs(e), 0).value;
    DecodedWordIsSound(table, Llrs(e), 0);
    VerifyInvertsAdd(word[..MESSAGE_BITS]);
    var payload: Payload := VerifyCrc(word[..MESSAGE_BITS]).value;
    assert ChecksHold(table, word) && word[..MESSAGE_BITS] == AddCrc(payload);
  }
}
