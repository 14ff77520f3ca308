/**
 * FT8's published numbers, stated over the characters and fields themselves: which
 * integer every callsign, trailer and text has, and where it stands among the 77
 * payload bits. A station elsewhere reads the same numbers.
 */
module Ft8Numbering {
  import opened Prelude
  import opened Arith
  import opened Bits
  import opened Ft8Source
  import opened Ft8Message
  import Geo

  // ---------------------------------------------------------------- characters

  lemma DigitAt(k: nat)
    requires k < 10
    ensures DIGITS[k] as int == 48 + k
  {
  }

  lemma LetterAt(k: nat)
    requires k < 26
    ensures LETTERS[k] as int == 65 + k
  {
  }

  // The published order of the callsign characters: the space, digits, letters.
  function CallRank(c: char): int {
    if c == ' ' then 0 else if Digit(c) then c as int - 47 else c as int - 54
  }

  // The rank of the character with which each place starts counting.
  function FirstRank(k: nat): int {
    if k == 1 || k == 2 then 1 else 0
  }

  // The letter places have no digits between the space and the letters.
  function PlaceOf(c: char, k: nat): int {
    if k >= 3 && c != ' ' then CallRank(c) - 10 else CallRank(c) - FirstRank(k)
  }

  lemma Set0Counts(i: nat)
    requires i < |SET0|
    ensures CallRank(SET0[i]) == i
  {
    if 1 <= i <= 10 {
      DigitAt(i - 1);
    } else if i > 10 {
      LetterAt(i - 11);
    }
  }

  lemma Set1Counts(i: nat)
    requires i < |SET1|
    ensures CallRank(SET1[i]) == i + 1 && SET1[i] != ' '
  {
    if i < 10 {
      DigitAt(i);
    } else {
      LetterAt(i - 10);
    }
  }

  lemma Set3Counts(i: nat)
    requires i < |SET3|
    ensures CallRank(SET3[i]) == if i == 0 then 0 else i + 10
  {
    if i > 0 {
      LetterAt(i - 1);
    }
  }

  // Each place counts its characters in that order.
  lemma SetsCount(k: nat, i: nat)
    requires k < 6 && i < |Sets()[k]|
    ensures PlaceOf(Sets()[k][i], k) == i
  {
    hide CallRank;
    NoRank();
    if k == 0 {
      Set0Counts(i);
    } else if k == 1 {
      Set1Counts(i);
    } else if k == 2 {
      Set1Counts(i);
    } else {
      Set3Counts(i);
    }
  }

  lemma NoRank()
    ensures CallRank(' ') == 0
  {
  }

  // ---------------------------------------------------------------- callsigns

  lemma PlacesCount(aligned: string, p: seq<nat>, k: nat)
    requires |aligned| == 6 && k < 6 && Spell(Sets(), aligned, 6, p)
    ensures p[k] == PlaceOf(aligned[k], k)
  {
    SetsCount(k, p[k]);
    hide PlaceOf;
  }

  lemma LaterPlaceIsLess(p: seq<nat>, q: seq<nat>, i: nat)
    requires |p| == |q| == 6 && i < 6 && p[..i] == q[..i] && p[i] < q[i]
    requires p[0] < 37 && p[1] < 36 && p[2] < 10 && p[3] < 27 && p[4] < 27 && p[5] < 27
    ensures PackPlaces(p) < PackPlaces(q)
  {
    assert i > 0 ==> p[0] == p[..i][0] == q[..i][0];
    assert i > 1 ==> p[1] == p[..i][1] == q[..i][1];
    assert i > 2 ==> p[2] == p[..i][2] == q[..i][2];
    assert i > 3 ==> p[3] == p[..i][3] == q[..i][3];
    assert i > 4 ==> p[4] == p[..i][4] == q[..i][4];
  }

  ghost predicate Published(x: string, p: seq<nat>) {
    && |x| == |p| == 6
    && (forall k :: 0 <= k < 6 ==> p[k] == PlaceOf(x[k], k) && (x[k] == ' ' || Alnum(x[k])))
    && (forall k :: 3 <= k < 6 ==> !Digit(x[k]))
    && p[0] < 37 && p[1] < 36 && p[2] < 10 && p[3] < 27 && p[4] < 27 && p[5] < 27
  }

  lemma AlignedPlaces(x: string) returns (p: seq<nat>)
    requires |x| == 6 && PackAligned(x).Ok?
    ensures Published(x, p) && PackAligned(x).value == PackPlaces(p) + 6_257_896
  {
    PlacesSpell(Sets(), x, |x|);
    p := Places(Sets(), x, |x|).value;
    hide Places, PackPlaces, PlaceOf;
    PlaceChars(x);
    SpelledPlaces(x, p);
    hide Sets;
    forall k | 0 <= k < 6
      ensures p[k] == PlaceOf(x[k], k)
    {
      PlacesCount(x, p, k);
    }
  }

  // The number follows the alphabet: of two aligned callsigns the one with the
  // earlier character (the space, then digits, then letters) at the first place
  // where they differ has the smaller number.
  lemma CallsignOrder(x: string, y: string, i: nat)
    requires |x| == |y| == 6 && PackAligned(x).Ok? && PackAligned(y).Ok?
    requires i < 6 && x[..i] == y[..i] && x[i] < y[i]
    ensures PackAligned(x).value < PackAligned(y).value
  {
    hide PackAligned, PackPlaces, PlaceOf, Digit, Alnum;
    var p := AlignedPlaces(x);
    var q := AlignedPlaces(y);
    forall k | 0 <= k < i
      ensures p[k] == q[k]
    {
      assert x[k] == x[..i][k] == y[..i][k] == y[k];
    }
    RankGrows(x[i], y[i], i);
    LaterPlaceIsLess(p, q, i);
  }

  lemma RankGrows(a: char, b: char, k: nat)
    requires a < b && k < 6 && PlaceOf(a, k) >= 0
    requires (a == ' ' || Alnum(a)) && (b == ' ' || Alnum(b)) && (k >= 3 ==> !Digit(a) && !Digit(b))
    ensures PlaceOf(a, k) < PlaceOf(b, k)
  {
  }

  lemma AcceptedAligned(x: string)
    requires |x| == 6 && forall k :: 0 <= k < 6 ==> x[k] in Sets()[k]
    ensures PackAligned(x).Ok?
  {
    PlacesSpell(Sets(), x, |x|);
    hide Sets, Places;
  }

  // The callsign whose places count as `p`.
  lemma NumberOf(x: string, p: seq<nat>)
    requires |x| == |p| == 6 && (x[0] == ' ' || Alnum(x[0])) && Alnum(x[1]) && Digit(x[2])
    requires forall k :: 3 <= k < 6 ==> x[k] == ' ' || 'A' <= x[k] <= 'Z'
    requires forall k :: 0 <= k < 6 ==> p[k] == PlaceOf(x[k], k)
    ensures PackAligned(x) == Ok(PackPlaces(p) + 6_257_896)
  {
    hide PackPlaces, PlaceOf, PackAligned, Alnum, Digit;
    forall k | 0 <= k < 6
      ensures x[k] in Sets()[k]
    {
      SetMembers(x[k]);
    }
    hide Sets;
    AcceptedAligned(x);
    var q := AlignedPlaces(x);
    assert p == q;
  }

  lemma FirstNumber()
    ensures PackAligned(" 00   ") == Ok(6_257_896)
  {
    hide PackAligned;
    NumberOf(" 00   ", [0, 0, 0, 0, 0, 0]);
  }

  lemma LastNumber()
    ensures PackAligned("ZZ9ZZZ") == Ok(268_435_455)
  {
    hide PackAligned;
    NumberOf("ZZ9ZZZ", [36, 35, 9, 26, 26, 26]);
  }

  lemma OneNumber()
    ensures PackAligned(" K1ABC") == Ok(10_214_965)
  {
    hide PackAligned;
    NumberOf(" K1ABC", [0, 20, 1, 1, 2, 3]);
  }

  // The first and the last callsign there are, and one between them; with the
  // order these fix every other number.
  lemma CallsignNumbers()
    ensures PackAligned(" 00   ") == Ok(6_257_896)
    ensures PackAligned("ZZ9ZZZ") == Ok(268_435_455)
    ensures PackAligned(" K1ABC") == Ok(10_214_965)
  {
    hide *;
    FirstNumber();
    LastNumber();
    OneNumber();
  }

  lemma ScanOf(call: string)
    requires forall j :: 0 <= j < |call| ==> BadAt(call, j).None?
    ensures FirstBad(call, 0).None?
  {
    CleanScan(call, 0);
  }

  lemma TokenNumbers()
    ensures PackC28("DE") == Ok(0) && PackC28("QRZ") == Ok(1) && PackC28("CQ") == Ok(2)
  {
    assert Upper("DE") == "DE" && Upper("QRZ") == "QRZ" && Upper("CQ") == "CQ";
    ScanOf("DE");
    ScanOf("QRZ");
    ScanOf("CQ");
    hide FirstBad, PackShaped;
  }

  // ---------------------------------------------------------------- trailers

  // The published trailer numbers; locators come first, in alphabetical order.
  lemma TailNumbers(db: int)
    ensures PackG15(Blank) == Ok(32401) && PackG15(Rrr) == Ok(32402) && PackG15(Seventy3) == Ok(32404)
    ensures PackG15(Rr73) == Ok(32373) && TailText(32403, false) == Some(" RR73")
    ensures -30 <= db <= 49 ==> PackG15(Report(db)) == Ok(32435 + db)
    ensures db < -30 || db > 49 ==> PackG15(Report(db)) == Err(ReportOutOfRange(db))
  {
  }

  lemma LaterSquareIsLess(a: seq<nat>, b: seq<nat>, i: nat)
    requires |a| == |b| == 4 && i < 4 && a[..i] == b[..i] && a[i] < b[i]
    requires a[0] < 18 && a[1] < 18 && a[2] < 10 && a[3] < 10
    ensures SquareIndex(a[0], a[1], a[2], a[3]) < SquareIndex(b[0], b[1], b[2], b[3])
  {
    assert i > 0 ==> a[0] == a[..i][0] == b[..i][0];
    assert i > 1 ==> a[1] == a[..i][1] == b[..i][1];
    assert i > 2 ==> a[2] == a[..i][2] == b[..i][2];
  }

  function Digits(g: Geo.MaidenheadGrid): (d: seq<nat>)
    requires g.Valid()
    ensures |d| == 4 && d[0] < 18 && d[1] < 18 && d[2] < 10 && d[3] < 10
  {
    Geo.ValidAlphabets(g);
    [g.chars[0] as int - 65, g.chars[1] as int - 65, g.chars[2] as int - 48, g.chars[3] as int - 48]
  }

  lemma GridOrder(g: Geo.MaidenheadGrid, h: Geo.MaidenheadGrid, i: nat)
    requires g.Valid() && h.Valid() && g.len == h.len == 4
    requires i < 4 && g.chars[..i] == h.chars[..i] && g.chars[i] < h.chars[i]
    ensures PackG15(Grid(g)).Ok? && PackG15(Grid(h)).Ok?
    ensures 0 <= PackG15(Grid(g)).value < PackG15(Grid(h)).value <= 32399
  {
    var a, b := Digits(g), Digits(h);
    forall k | 0 <= k < i
      ensures a[k] == b[k]
    {
      assert g.chars[..i][k] == h.chars[..i][k];
    }
    SquareIndexDigits(b[0], b[1], b[2], b[3]);
    LaterSquareIsLess(a, b, i);
  }

  // How a report reads: the acknowledgement, the sign and two digits.
  lemma ReportReads(db: int, r: bool)
    requires -30 <= db <= 49
    ensures var t := Rendered(Report(db), r);
            && |t| == (if r then 5 else 4) && t[0] == ' ' && (r ==> t[1] == 'R')
            && t[|t| - 3] == (if db < 0 then '-' else '+')
            && '0' <= t[|t| - 2] <= '9' && '0' <= t[|t| - 1] <= '9'
            && 10 * (t[|t| - 2] as int - 48) + (t[|t| - 1] as int - 48) == if db < 0 then -db else db
  {
  }

  // The other trailers.
  lemma TailsRead(g: Geo.MaidenheadGrid, r: bool)
    requires g.Valid() && g.len == 4
    ensures PackedTail(Grid(g)) && PackedTail(Rrr) && PackedTail(Rr73) && PackedTail(Seventy3)
    ensures var t := Rendered(Grid(g), r);
            && |t| == (if r then 7 else 5) && t[0] == ' ' && (r ==> t[1] == 'R' && t[2] == ' ')
            && forall k :: 0 <= k < 4 ==> t[|t| - 4 + k] as int == g.chars[k]
    ensures Rendered(Rrr, r) == " RRR" && Rendered(Rr73, r) == " RR73" && Rendered(Seventy3, r) == " 73"
  {
    Geo.ValidAlphabets(g);
    hide SquareIndex;
  }

  lemma MessageReads(r: bool)
    ensures StandardText("cq", "k1abc", false, Rr73) == "CQ K1ABC RR73"
    ensures StandardText("CQ", "K1ABC", r, Blank) == "CQ K1ABC"
  {
    assert Upper("cq") == "CQ" && Upper("k1abc") == "K1ABC" && Upper("CQ") == "CQ" && Upper("K1ABC") == "K1ABC";
    assert Rendered(Rr73, false) == " RR73" && Rendered(Blank, r) == "";
    hide Upper, Rendered;
  }

  // ---------------------------------------------------------------- the 77 bits as one number

  lemma {:induction false} IntAppend(a: seq<bool>, b: seq<bool>)
    ensures IntOf(a + b) == IntOf(a) * Pow2(|b|) + IntOf(b)
  {
    if b == [] {
      assert a + b == a;
    } else {
      var n := |b| - 1;
      IntAppend(a, b[..n]);
      assert a + b == (a + b[..n]) + [b[n]] && b == b[..n] + [b[n]];
      FlagAppend(a + b[..n], b[n]);
      FlagAppend(b[..n], b[n]);
      assert Pow2(|b|) == 2 * Pow2(n);
      hide IntOf, Pow2;
      DoubleProduct(IntOf(a), Pow2(n));
    }
  }

  lemma FieldAppend(a: seq<bool>, v: nat, n: nat)
    requires v < Pow2(n)
    ensures IntOf(a + BitsOf(v, n)) == IntOf(a) * Pow2(n) + v
  {
    IntAppend(a, BitsOf(v, n));
    IntOfBitsOf(v, n);
  }

  lemma FlagAppend(a: seq<bool>, flag: bool)
    ensures IntOf(a + [flag]) == IntOf(a) * 2 + (if flag then 1 else 0)
  {
    assert (a + [flag])[..|a|] == a;
  }

  lemma SmallPowersOfTwo()
    ensures Pow2(3) == 8 && Pow2(15) == 32768 && Pow2(28) == 268_435_456
  {
    PowersOfTwo();
    assert Pow2(3) == 8;
  }

  // Callsign, rover flag, callsign, rover flag, acknowledgement, trailer and type
  // stand where the protocol puts them.
  lemma StandardNumber(a: nat, b: nat, r: bool, g15: nat)
    requires a < 268_435_456 && b < 268_435_456 && g15 < 32768
    ensures IntOf(StandardLayout(a, b, r, g15))
         == a * 0x2_0000_0000_0000 + b * 0x10_0000 + (if r then 0x4_0000 else 0) + g15 * 8 + 1
  {
    SmallPowersOfTwo();
    hide IntOf, BitsOf, Pow2;
    var p0 := BitsOf(a, 28);
    assert [] + p0 == p0;
    NoBits();
    FieldAppend([], a, 28);
    FlagAppend(p0, false);
    FieldAppend(p0 + [false], b, 28);
    FlagAppend(p0 + [false] + BitsOf(b, 28), false);
    FlagAppend(p0 + [false] + BitsOf(b, 28) + [false], r);
    FieldAppend(p0 + [false] + BitsOf(b, 28) + [false] + [r], g15, 15);
    FieldAppend(p0 + [false] + BitsOf(b, 28) + [false] + [r] + BitsOf(g15, 15), 1, 3);
  }

  lemma NoBits()
    ensures IntOf([]) == 0
  {
  }

  lemma InThree(p: Payload)
    ensures IntOf(p) == (Field(p, 0, 71) * Pow2(3) + Field(p, 71, 3)) * Pow2(3) + Field(p, 74, 3)
  {
    assert p == p[0..71] + p[71..74] + p[74..77];
    hide IntOf, Pow2;
    IntAppend(p[0..71] + p[71..74], p[74..77]);
    IntAppend(p[0..71], p[71..74]);
  }

  // The text's number stands above six zeros.
  lemma FreeNumber(value: nat)
    requires value < Pow2(71)
    ensures IntOf(FreeLayout(value)) == value * 64
  {
    hide FreeLayout, Pow2, IntOf, BitsOf;
    FreeFields(value);
    SmallPowersOfTwo();
    InThree(FreeLayout(value));
  }

  // ---------------------------------------------------------------- free text

  // The published alphabet: the space, digits, letters, then + - . / and ?.
  function TextRank(c: char): nat {
    if '0' <= c <= '9' then c as int - 47
    else if 'A' <= c <= 'Z' then c as int - 54
    else if c == '+' then 37 else if c == '-' then 38 else if c == '.' then 39
    else if c == '/' then 40 else if c == '?' then 41 else 0
  }

  const SIGNS: string := "+-./?"

  lemma SignAt(k: nat)
    requires k < 5
    ensures TextRank(SIGNS[k]) == 37 + k
  {
  }

  lemma AlphabetParts(i: nat)
    requires i < 42
    ensures |FREE_TEXT_ALPHABET| == 42
    ensures FREE_TEXT_ALPHABET[i]
         == if i == 0 then ' ' else if i <= 10 then DIGITS[i - 1]
            else if i <= 36 then LETTERS[i - 11] else SIGNS[i - 37]
  {
  }

  lemma AlphabetCounts(i: nat)
    requires i < 42
    ensures |FREE_TEXT_ALPHABET| == 42 && TextRank(FREE_TEXT_ALPHABET[i]) == i
  {
    AlphabetParts(i);
    if 1 <= i <= 10 {
      DigitAt(i - 1);
    } else if 11 <= i <= 36 {
      LetterAt(i - 11);
    } else if i > 36 {
      SignAt(i - 37);
    }
  }

  // The first character counts most, each one 42 times the next.
  function TextNumber(chars: string): nat {
    if chars == [] then 0 else TextRank(chars[0]) * Pow42(|chars| - 1) + TextNumber(chars[1..])
  }

  lemma {:induction false} TextNumberSnoc(chars: string, c: char)
    ensures TextNumber(chars + [c]) == 42 * TextNumber(chars) + TextRank(c)
  {
    hide TextRank;
    if chars == [] {
      assert chars + [c] == [c] && [c][1..] == [];
    } else {
      assert (chars + [c])[1..] == chars[1..] + [c];
      TextNumberSnoc(chars[1..], c);
      var n := |chars| - 1;
      assert Pow42(n + 1) == 42 * Pow42(n);
      assert TextRank(chars[0]) * (42 * Pow42(n)) == 42 * (TextRank(chars[0]) * Pow42(n));
    }
  }

  lemma RankIsIndex(c: char)
    requires c in FREE_TEXT_ALPHABET
    ensures IndexIn(FREE_TEXT_ALPHABET, c) == Some(TextRank(c))
  {
    var i := IndexIn(FREE_TEXT_ALPHABET, c).value;
    hide IndexIn, TextRank;
    AlphabetSize();
    AlphabetCounts(i);
  }

  lemma AlphabetSize()
    ensures |FREE_TEXT_ALPHABET| == 42
  {
  }

  lemma {:induction false} FreeTextNumber(chars: string)
    requires forall c :: c in chars ==> c in FREE_TEXT_ALPHABET
    ensures Base42(FREE_TEXT_ALPHABET, chars) == TextNumber(chars)
  {
    hide TextRank, IndexIn, TextNumber;
    if chars == [] {
      NoText();
    } else {
      var n := |chars| - 1;
      FreeTextNumber(chars[..n]);
      assert chars == chars[..n] + [chars[n]];
      TextNumberSnoc(chars[..n], chars[n]);
      RankIsIndex(chars[n]);
    }
  }

  lemma NoText()
    ensures TextNumber([]) == 0
  {
  }

  // ---------------------------------------------------------------- what is refused, and as what

  lemma UpperCases(k: nat, c: char)
    requires k < 26
    ensures UpperChar((97 + k) as char) == (65 + k) as char
    ensures c < 'a' || c > 'z' ==> UpperChar(c) == c
  {
  }

  lemma {:induction false} FirstBadIs(call: string, i: nat, k: nat)
    requires i <= k < |call| && (forall j :: i <= j < k ==> BadAt(call, j).None?) && BadAt(call, k).Some?
    ensures FirstBad(call, i) == BadAt(call, k)
    decreases |call| - i
  {
    if i < k {
      FirstBadIs(call, i + 1, k);
    }
  }

  lemma StartsWithCq(call: string)
    requires |call| >= 2
    ensures Upper(call)[..2] == "CQ" <==> UpperChar(call[0]) == 'C' && UpperChar(call[1]) == 'Q'
  {
    assert Upper(call)[..2] == [UpperChar(call[0]), UpperChar(call[1])];
  }

  // A slash among the first seven characters, with nothing but letters and digits
  // before it, is a compound callsign; a blank there is a directed CQ after "CQ" and
  // a bad character elsewhere.
  lemma RefusedAt(call: string, k: nat)
    requires k < |call| && k <= 7 && forall j :: 0 <= j < k ==> Alnum(UpperChar(call[j]))
    ensures call[k] == '/' ==> PackC28(call) == Err(CallsignCompound)
    ensures call[k] == ' ' ==>
              PackC28(call) == Err(if k >= 2 && UpperChar(call[0]) == 'C' && UpperChar(call[1]) == 'Q'
                                   then DirectedCqUnsupported else CallsignChar(' ', k))
    ensures k == 7 && call[k] != '/' && call[k] != ' ' ==> PackC28(call) == Err(CallsignLength(|call|))
  {
    forall j | 0 <= j < k
      ensures BadAt(call, j).None?
    {
      assert Alnum(UpperChar(call[j]));
    }
    if k >= 2 {
      StartsWithCq(call);
    }
    if BadAt(call, k).Some? {
      FirstBadIs(call, 0, k);
    }
    hide FirstBad, PackShaped;
  }

  // The second callsign is never a token, and only a locator or a report can be
  // acknowledged.
  lemma StandardRefusals(callA: string, callB: string, r: bool, tail: Tail)
    requires (tail.Grid? ==> tail.grid.Valid()) && PackC28(callA).Ok? && PackC28(callB).Ok?
    ensures PackC28(callB).value <= 2 <==> Standard(callA, callB, r, tail) == Err(TokenNotAllowedHere)
    ensures PackC28(callB).value > 2 && r && !tail.Grid? && !tail.Report?
       <==> Standard(callA, callB, r, tail) == Err(AckFlagInvalid)
  {
    CallsignRoundTrip(callB);
    hide PackC28, StandardLayout, PackG15;
    TailErrors(tail);
  }

  lemma TailErrors(tail: Tail)
    requires tail.Grid? ==> tail.grid.Valid()
    ensures PackG15(tail).Err? ==> PackG15(tail).error.GridLength? || PackG15(tail).error.ReportOutOfRange?
  {
    hide SquareIndex;
  }
}
