/**
 * FT8 source encoding: callsigns, trailers and free text as integers and bit
 * fields, back to text, and the proof that the two directions are inverse.
 */
module Ft8Source {
  import opened Prelude
  import opened Arith
  import opened Bits
  import Geo

  const NTOKENS: nat := 2_063_592
  const MAX22: nat := 4_194_304
  const C28_SIZE: nat := 268_435_456
  const MAXGRID4: nat := 32_400
  const RR73_AS_GRID: nat := 32_373
  const CAPACITY: nat := 24

  const DIGITS: string := "0123456789"
  const LETTERS: string := "ABCDEFGHIJKLMNOPQRSTUVWXYZ"

  // The four callsign character sets and the 42-character free-text alphabet.
  const SET0: string := " " + DIGITS + LETTERS
  const SET1: string := DIGITS + LETTERS
  const SET2: string := DIGITS
  const SET3: string := " " + LETTERS
  const FREE_TEXT_ALPHABET: string := " " + DIGITS + LETTERS + "+-./?"

  datatype Ft8Error =
    | CallsignCompound
    | CallsignLength(len: nat)
    | CallsignChar(ch: char, index: nat)
    | CallsignShape
    | TokenNotAllowedHere
    | DirectedCqUnsupported
    | GridLength(gridLen: nat)
    | ReportOutOfRange(got: int)
    | AckFlagInvalid
    | FreeTextLength(textLen: nat)
    | FreeTextChar(textCh: char, textIndex: nat)
    | UnsupportedMessageType

  datatype Tail = Blank | Grid(grid: Geo.MaidenheadGrid) | Report(db: int) | Rrr | Rr73 | Seventy3

  // ---------------------------------------------------------------- characters

  function UpperChar(c: char): char {
    if 'a' <= c <= 'z' then c - 32 as char else c
  }

  function Upper(s: string): (u: string)
    ensures |u| == |s|
  {
    seq(|s|, i requires 0 <= i < |s| => UpperChar(s[i]))
  }

  function Spaces(n: nat): string {
    seq(n, _ => ' ')
  }

  // First position of a character in a set.
  function IndexIn(alphabet: string, c: char): (r: Option<nat>)
    ensures r.Some? ==> r.value < |alphabet| && alphabet[r.value] == c
    ensures r.Some? <==> c in alphabet
  {
    if alphabet == [] then None
    else if alphabet[0] == c then Some(0)
    else
      match IndexIn(alphabet[1..], c)
      case Some(i) => Some(i + 1)
      case None => None
  }

  function TrimLeft(s: string): string {
    if s != [] && s[0] == ' ' then TrimLeft(s[1..]) else s
  }

  function TrimRight(s: string): string {
    if s != [] && s[|s| - 1] == ' ' then TrimRight(s[..|s| - 1]) else s
  }

  function Trim(s: string): string {
    TrimRight(TrimLeft(s))
  }

  lemma {:induction false} TrimLeftPadding(n: nat, s: string)
    ensures TrimLeft(Spaces(n) + s) == TrimLeft(s)
  {
    if n == 0 {
      assert Spaces(0) + s == s;
    } else {
      TrimLeftPadding(n - 1, s);
      assert (Spaces(n) + s)[1..] == Spaces(n - 1) + s;
    }
  }

  lemma PaddingEnds(n: nat, s: string)
    requires n > 0
    ensures var padded := s + Spaces(n);
            padded != [] && padded[|padded| - 1] == ' ' && padded[..|padded| - 1] == s + Spaces(n - 1)
  {
  }

  lemma {:induction false} TrimRightPadding(n: nat, s: string)
    ensures TrimRight(s + Spaces(n)) == TrimRight(s)
  {
    if n == 0 {
      assert s + Spaces(0) == s;
    } else {
      PaddingEnds(n, s);
      var padded := s + Spaces(n);
      assert TrimRight(padded) == TrimRight(padded[..|padded| - 1]);
      hide Spaces, TrimRight;
      TrimRightPadding(n - 1, s);
    }
  }

  // ---------------------------------------------------------------- callsigns

  predicate Digit(c: char) {
    '0' <= c <= '9'
  }

  predicate Alnum(c: char) {
    Digit(c) || 'A' <= c <= 'Z'
  }

  // What the character scan objects to at position `i`, if anything.
  function BadAt(call: string, i: nat): Option<Ft8Error>
    requires i < |call|
  {
    var c := UpperChar(call[i]);
    if c == '/' then Some(CallsignCompound)
    else if c == ' ' then
      if i >= 2 && Upper(call)[..2] == "CQ" then Some(DirectedCqUnsupported) else Some(CallsignChar(c, i))
    else if c as int >= 128 || i >= 7 then Some(CallsignLength(|call|))
    else None
  }

  function FirstBad(call: string, i: nat): Option<Ft8Error>
    requires i <= |call|
    decreases |call| - i
  {
    if i == |call| then None
    else if BadAt(call, i).Some? then BadAt(call, i)
    else FirstBad(call, i + 1)
  }

  // Aligned so the third of six characters is the digit.
  function Align(up: string): (r: Option<string>)
    requires 1 <= |up| <= 6
    ensures r.Some? ==> |r.value| == 6
  {
    if |up| >= 3 && Digit(up[2]) then Some(up + Spaces(6 - |up|))
    else if 2 <= |up| <= 5 && Digit(up[1]) then Some(" " + up + Spaces(5 - |up|))
    else None
  }

  // The character set of each aligned position.
  function Sets(): (sets: seq<string>)
    ensures |sets| == 6
  {
    [SET0, SET1, SET2, SET3, SET3, SET3]
  }

  // Each character's index in the set of its position, refusing the first outside it.
  function Places(sets: seq<string>, aligned: string, k: nat): Result<seq<nat>, Ft8Error>
    requires k <= |aligned| && k <= |sets|
  {
    if k == 0 then Ok([])
    else
      match Places(sets, aligned, k - 1)
      case Err(e) => Err(e)
      case Ok(ps) =>
        match IndexIn(sets[k - 1], aligned[k - 1])
        case None => Err(CallsignChar(aligned[k - 1], k - 1))
        case Some(i) => Ok(ps + [i])
  }

  function PackPlaces(p: seq<nat>): nat
    requires |p| == 6
  {
    ((((p[0] * 36 + p[1]) * 10 + p[2]) * 27 + p[3]) * 27 + p[4]) * 27 + p[5]
  }

  ghost predicate Spell(sets: seq<string>, aligned: string, k: nat, p: seq<nat>)
    requires k <= |aligned| && k <= |sets|
  {
    |p| == k && forall j :: 0 <= j < k ==> p[j] < |sets[j]| && sets[j][p[j]] == aligned[j]
  }

  lemma {:induction false} PlacesSpell(sets: seq<string>, aligned: string, k: nat)
    requires k <= |aligned| && k <= |sets|
    ensures Places(sets, aligned, k).Ok? ==> Spell(sets, aligned, k, Places(sets, aligned, k).value)
    ensures Places(sets, aligned, k).Ok? <==> forall j :: 0 <= j < k ==> aligned[j] in sets[j]
  {
    if k > 0 {
      PlacesSpell(sets, aligned, k - 1);
    }
  }

  function PackAligned(aligned: string): Result<nat, Ft8Error>
    requires |aligned| == 6
  {
    PlacesSpell(Sets(), aligned, |aligned|);
    match Places(Sets(), aligned, |aligned|)
    case Err(e) => Err(e)
    case Ok(p) => Ok(PackPlaces(p) + NTOKENS + MAX22)
  }

  function PackShaped(up: string): Result<nat, Ft8Error> {
    if |up| == 0 || |up| > 6 then Err(CallsignLength(|up|))
    else
      match Align(up)
      case None => Err(CallsignShape)
      case Some(aligned) => PackAligned(aligned)
  }

  function TokenOf(up: string): Option<nat> {
    if up == "DE" then Some(0) else if up == "QRZ" then Some(1) else if up == "CQ" then Some(2) else None
  }

  function PackC28(call: string): Result<nat, Ft8Error> {
    if FirstBad(call, 0).Some? then Err(FirstBad(call, 0).value)
    else if TokenOf(Upper(call)).Some? then Ok(TokenOf(Upper(call)).value)
    else PackShaped(Upper(call))
  }

  function UnpackPlaces(n: nat): (p: seq<nat>)
    requires n < 37 * 36 * 10 * 27 * 27 * 27
    ensures |p| == 6 && p[0] < 37 && p[1] < 36 && p[2] < 10 && p[3] < 27 && p[4] < 27 && p[5] < 27
  {
    var m3 := n / 27 / 27 / 27;
    [m3 / 10 / 36, m3 / 10 % 36, m3 % 10, n / 27 / 27 % 27, n / 27 % 27, n % 27]
  }

  lemma PlacesRoundTrip(p: seq<nat>)
    requires |p| == 6 && p[0] < 37 && p[1] < 36 && p[2] < 10 && p[3] < 27 && p[4] < 27 && p[5] < 27
    ensures PackPlaces(p) < 37 * 36 * 10 * 27 * 27 * 27
    ensures UnpackPlaces(PackPlaces(p)) == p
  {
    var a := p[0] * 36 + p[1];
    var b := a * 10 + p[2];
    var c := b * 27 + p[3];
    var d := c * 27 + p[4];
    var n := d * 27 + p[5];
    assert n / 27 == d && n % 27 == p[5];
    assert d / 27 == c && d % 27 == p[4];
    assert c / 27 == b && c % 27 == p[3];
    assert b / 10 == a && b % 10 == p[2];
    assert a / 36 == p[0] && a % 36 == p[1];
  }

  function AlignedOf(p: seq<nat>): string
    requires |p| == 6 && p[0] < 37 && p[1] < 36 && p[2] < 10 && p[3] < 27 && p[4] < 27 && p[5] < 27
  {
    [SET0[p[0]], SET1[p[1]], SET2[p[2]], SET3[p[3]], SET3[p[4]], SET3[p[5]]]
  }

  function TokenText(v: nat): string
    requires v <= 2
  {
    if v == 0 then "DE" else if v == 1 then "QRZ" else "CQ"
  }

  function UnpackC28(v: nat): Result<string, Ft8Error>
    requires v < C28_SIZE
  {
    if v <= 2 then Ok(TokenText(v))
    else if v < NTOKENS then Err(DirectedCqUnsupported)
    else if v < NTOKENS + MAX22 then Err(UnsupportedMessageType)
    else Ok(Trim(AlignedOf(UnpackPlaces(v - NTOKENS - MAX22))))
  }

  lemma {:induction false} CleanScan(call: string, i: nat)
    requires i <= |call|
    ensures FirstBad(call, i).None? <==> forall j :: i <= j < |call| ==> BadAt(call, j).None?
    decreases |call| - i
  {
    if i < |call| {
      CleanScan(call, i + 1);
    }
  }

  lemma TrimAligned(up: string, left: nat, right: nat)
    requires up != [] && ' ' !in up
    ensures Trim(Spaces(left) + up + Spaces(right)) == up
  {
    assert up[0] in up && up[|up| - 1] in up;
    assert Spaces(left) + up + Spaces(right) == Spaces(left) + (up + Spaces(right));
    TrimLeftPadding(left, up + Spaces(right));
    TrimRightPadding(right, up);
  }

  lemma SpelledPlaces(aligned: string, p: seq<nat>)
    requires |aligned| == 6 && Spell(Sets(), aligned, |aligned|, p)
    ensures p[0] < 37 && p[1] < 36 && p[2] < 10 && p[3] < 27 && p[4] < 27 && p[5] < 27
    ensures AlignedOf(p) == aligned
  {
    assert p[0] < |Sets()[0]| && p[1] < |Sets()[1]| && p[2] < |Sets()[2]|;
    assert p[3] < |Sets()[3]| && p[4] < |Sets()[4]| && p[5] < |Sets()[5]|;
  }

  lemma PackedPlacesRender(p: seq<nat>)
    requires |p| == 6 && p[0] < 37 && p[1] < 36 && p[2] < 10 && p[3] < 27 && p[4] < 27 && p[5] < 27
    ensures var v := PackPlaces(p) + NTOKENS + MAX22;
            v < C28_SIZE && UnpackC28(v) == Ok(Trim(AlignedOf(p)))
  {
    PlacesRoundTrip(p);
    hide PackPlaces, UnpackPlaces, AlignedOf, Trim, TokenText;
  }

  lemma AlignedRoundTrip(aligned: string)
    requires |aligned| == 6 && PackAligned(aligned).Ok?
    ensures var v := PackAligned(aligned).value;
            NTOKENS + MAX22 <= v < C28_SIZE && UnpackC28(v) == Ok(Trim(aligned))
  {
    hide Places, UnpackC28, Sets, Spell, PackPlaces, AlignedOf, Trim;
    PlacesSpell(Sets(), aligned, |aligned|);
    var p := Places(Sets(), aligned, |aligned|).value;
    SpelledPlaces(aligned, p);
    PackedPlacesRender(p);
  }

  lemma AlignThenTrim(up: string)
    requires 1 <= |up| <= 6 && ' ' !in up && Align(up).Some?
    ensures Trim(Align(up).value) == up
  {
    if |up| >= 3 && Digit(up[2]) {
      TrimAligned(up, 0, 6 - |up|);
      assert Spaces(0) + up + Spaces(6 - |up|) == Align(up).value;
    } else {
      TrimAligned(up, 1, 5 - |up|);
      assert Spaces(1) + up + Spaces(5 - |up|) == Align(up).value;
    }
  }

  lemma ScanExcludesSpaces(call: string)
    requires FirstBad(call, 0).None?
    ensures ' ' !in Upper(call)
  {
    CleanScan(call, 0);
    forall j | 0 <= j < |call|
      ensures Upper(call)[j] != ' '
    {
      assert BadAt(call, j).None?;
    }
  }

  // Whatever the packer accepts, the unpacker renders as the upper-cased text.
  lemma CallsignRoundTrip(call: string)
    requires PackC28(call).Ok?
    ensures var v := PackC28(call).value;
            v < C28_SIZE && UnpackC28(v) == Ok(Upper(call)) && (v < NTOKENS + MAX22 ==> v <= 2)
    ensures 1 <= |call| <= 6
  {
    var up := Upper(call);
    if TokenOf(up).None? {
      ScanExcludesSpaces(call);
      AlignThenTrim(up);
      AlignedRoundTrip(Align(up).value);
    }
  }

  // ---------------------------------------------------------------- which callsigns

  lemma DigitMembers(c: char)
    ensures c in DIGITS <==> Digit(c)
  {
    if Digit(c) {
      assert DIGITS[c as int - 48] == c;
    }
  }

  lemma LetterMembers(c: char)
    ensures c in LETTERS <==> 'A' <= c <= 'Z'
  {
    if 'A' <= c <= 'Z' {
      assert LETTERS[c as int - 65] == c;
    }
  }

  lemma SetMembers(c: char)
    ensures c in SET2 <==> Digit(c)
    ensures c in SET3 <==> c == ' ' || 'A' <= c <= 'Z'
    ensures c in SET1 <==> Alnum(c)
    ensures c in SET0 <==> c == ' ' || Alnum(c)
  {
    DigitMembers(c);
    LetterMembers(c);
  }

  // The published shape: after at most one leading space, three alphanumeric
  // places (the first may be the space, the third is a digit), then letters.
  predicate FitsShape(up: string, pad: nat)
    requires pad <= 1
  {
    && 1 <= |up| <= 6 - pad
    && (forall j :: 0 <= j < |up| ==> Alnum(up[j]))
    && |up| + pad >= 3
    && Digit(up[2 - pad])
    && forall j :: 3 - pad <= j < |up| ==> !Digit(up[j])
  }

  lemma AlignmentFits(up: string, pad: nat, k: nat)
    requires pad <= 1 && k < 6 && FitsShape(up, pad)
    ensures (Spaces(pad) + up + Spaces(6 - pad - |up|))[k] in Sets()[k]
  {
    SetMembers((Spaces(pad) + up + Spaces(6 - pad - |up|))[k]);
  }

  lemma PlaceChars(aligned: string)
    requires |aligned| == 6 && forall k :: 0 <= k < 6 ==> aligned[k] in Sets()[k]
    ensures Digit(aligned[2])
    ensures forall k :: 0 <= k < 3 ==> aligned[k] == ' ' || Alnum(aligned[k])
    ensures forall k :: 3 <= k < 6 ==> aligned[k] == ' ' || 'A' <= aligned[k] <= 'Z'
  {
    forall k | 0 <= k < 6
      ensures k == 2 ==> Digit(aligned[k])
      ensures k < 3 ==> aligned[k] == ' ' || Alnum(aligned[k])
      ensures k >= 3 ==> aligned[k] == ' ' || 'A' <= aligned[k] <= 'Z'
    {
      SetMembers(aligned[k]);
      assert aligned[k] in Sets()[k];
    }
  }

  lemma FitsFromPlaces(up: string, pad: nat, aligned: string)
    requires pad <= 1 && 1 <= |up| <= 6 - pad && (forall j :: 0 <= j < |up| ==> up[j] != ' ')
    requires aligned == Spaces(pad) + up + Spaces(6 - pad - |up|)
    requires forall k :: 0 <= k < 6 ==> aligned[k] in Sets()[k]
    ensures FitsShape(up, pad)
  {
    hide Sets;
    PlaceChars(aligned);
    assert forall j :: 0 <= j < |up| ==> up[j] == aligned[j + pad];
    assert aligned[2] != ' ';
    assert |up| + pad >= 3;
  }

  lemma AlignedAs(up: string, pad: nat)
    requires pad <= 1 && FitsShape(up, pad) && (pad == 1 ==> !FitsShape(up, 0))
    ensures Align(up) == Some(Spaces(pad) + up + Spaces(6 - pad - |up|))
  {
    if pad == 0 {
      assert Spaces(0) + up + Spaces(6 - |up|) == up + Spaces(6 - |up|);
    } else {
      assert Spaces(1) + up + Spaces(5 - |up|) == " " + up + Spaces(5 - |up|);
    }
  }

  lemma ShapeAccepted(call: string, pad: nat)
    requires pad <= 1 && FitsShape(Upper(call), pad) && (pad == 1 ==> !FitsShape(Upper(call), 0))
    ensures PackC28(call).Ok?
  {
    var up := Upper(call);
    forall j | 0 <= j < |call|
      ensures BadAt(call, j).None?
    {
      assert UpperChar(call[j]) == up[j] && Alnum(up[j]);
    }
    CleanScan(call, 0);
    var aligned := Spaces(pad) + up + Spaces(6 - pad - |up|);
    AlignedAs(up, pad);
    forall k | 0 <= k < 6
      ensures aligned[k] in Sets()[k]
    {
      AlignmentFits(up, pad, k);
    }
    hide FitsShape, Spaces, FirstBad, Align;
    PlacesSpell(Sets(), aligned, |aligned|);
  }

  lemma PackedIsAligned(up: string)
    requires PackShaped(up).Ok?
    ensures Align(up).Some? && forall k :: 0 <= k < 6 ==> Align(up).value[k] in Sets()[k]
  {
    hide Sets, Places;
    var aligned := Align(up).value;
    PlacesSpell(Sets(), aligned, |aligned|);
  }

  lemma AcceptedIsShaped(call: string)
    requires PackC28(call).Ok? && TokenOf(Upper(call)).None?
    ensures FitsShape(Upper(call), 0) || FitsShape(Upper(call), 1)
  {
    hide PackShaped, Sets, FitsShape, Upper;
    var up := Upper(call);
    ScanExcludesSpaces(call);
    hide FirstBad;
    PackedIsAligned(up);
    if |up| >= 3 && Digit(up[2]) {
      assert up + Spaces(6 - |up|) == Spaces(0) + up + Spaces(6 - |up|);
      FitsFromPlaces(up, 0, Align(up).value);
    } else {
      FitsFromPlaces(up, 1, Align(up).value);
    }
  }

  // Exactly the three tokens and the callsigns of the published shape, with or
  // without the leading space, are accepted.
  lemma AcceptedCalls(call: string)
    ensures PackC28(call).Ok? <==>
              var up := Upper(call);
              TokenOf(up).Some? || FitsShape(up, 0) || FitsShape(up, 1)
  {
    var up := Upper(call);
    if TokenOf(up).Some? {
      CleanScan(call, 0);
      forall j | 0 <= j < |call|
        ensures BadAt(call, j).None?
      {
        assert UpperChar(call[j]) == up[j];
      }
    } else if FitsShape(up, 0) {
      ShapeAccepted(call, 0);
    } else if FitsShape(up, 1) {
      ShapeAccepted(call, 1);
    } else if PackC28(call).Ok? {
      AcceptedIsShaped(call);
    }
  }

  // ---------------------------------------------------------------- trailers

  function SquareIndex(f1: nat, f2: nat, d1: nat, d2: nat): nat {
    ((f1 * 18 + f2) * 10 + d1) * 10 + d2
  }

  lemma SquareIndexDigits(f1: nat, f2: nat, d1: nat, d2: nat)
    requires f1 < 18 && f2 < 18 && d1 < 10 && d2 < 10
    ensures var v := SquareIndex(f1, f2, d1, d2);
            v < MAXGRID4 && v / 1800 == f1 && v / 100 % 18 == f2 && v / 10 % 10 == d1 && v % 10 == d2
  {
    var a := f1 * 18 + f2;
    var b := a * 10 + d1;
    var v := b * 10 + d2;
    assert v / 10 == b && v / 100 == a;
  }

  function PackG15(tail: Tail): Result<nat, Ft8Error>
    requires tail.Grid? ==> tail.grid.Valid()
  {
    match tail
    case Blank => Ok(MAXGRID4 + 1)
    case Rrr => Ok(MAXGRID4 + 2)
    case Rr73 => Ok(RR73_AS_GRID)
    case Seventy3 => Ok(MAXGRID4 + 4)
    case Report(db) => if -30 <= db <= 49 then Ok(MAXGRID4 + (db + 35)) else Err(ReportOutOfRange(db))
    case Grid(g) =>
      if g.len != 4 then Err(GridLength(g.len))
      else
        Geo.ValidAlphabets(g);
        Ok(SquareIndex(g.chars[0] as int - 65, g.chars[1] as int - 65, g.chars[2] as int - 48, g.chars[3] as int - 48))
  }

  function AsChar(code: int): char
    requires 0 <= code < 128
  {
    code as char
  }

  function TwoDigits(n: nat): string
    requires n < 100
  {
    [AsChar(48 + n / 10), AsChar(48 + n % 10)]
  }

  function TailText(v: nat, r: bool): Option<string>
    requires v < 32768
  {
    if v < MAXGRID4 then
      Some((if r then " R " else " ") +
           [AsChar(65 + v / 1800), AsChar(65 + v / 100 % 18), AsChar(48 + v / 10 % 10), AsChar(48 + v % 10)])
    else if v == MAXGRID4 + 1 then Some("")
    else if v == MAXGRID4 + 2 then Some(" RRR")
    else if v == MAXGRID4 + 3 then Some(" RR73")
    else if v == MAXGRID4 + 4 then Some(" 73")
    else if MAXGRID4 + 5 <= v <= MAXGRID4 + 84 then
      var report := v - MAXGRID4 - 35;
      var mag := if report < 0 then -report else report;
      Some((if r then " R" else " ") + (if report < 0 then "-" else "+") + TwoDigits(mag))
    else None
  }

  // The trailer as the operator reads it.
  function Rendered(tail: Tail, r: bool): string
    requires PackedTail(tail)
  {
    match tail
    case Blank => ""
    case Rrr => " RRR"
    case Rr73 => " RR73"
    case Seventy3 => " 73"
    case Report(db) => (if r then " R" else " ") + (if db < 0 then "-" else "+") + TwoDigits(if db < 0 then -db else db)
    case Grid(g) =>
      Geo.ValidAlphabets(g);
      (if r then " R " else " ") + [AsChar(g.chars[0]), AsChar(g.chars[1]), AsChar(g.chars[2]), AsChar(g.chars[3])]
  }

  predicate PackedTail(tail: Tail) {
    (tail.Grid? ==> tail.grid.Valid()) && PackG15(tail).Ok?
  }

  predicate AckAllowed(tail: Tail, r: bool) {
    r ==> tail.Grid? || tail.Report?
  }

  lemma GridTail(g: Geo.MaidenheadGrid, r: bool)
    requires PackedTail(Grid(g))
    ensures var v := PackG15(Grid(g)).value;
            v < MAXGRID4 && TailText(v, r) == Some(Rendered(Grid(g), r)) && |Rendered(Grid(g), r)| <= 7
  {
    var c := g.chars;
    Geo.ValidAlphabets(g);
    SquareIndexDigits(c[0] as int - 65, c[1] as int - 65, c[2] as int - 48, c[3] as int - 48);
  }

  lemma ReportTail(db: int, r: bool)
    requires PackedTail(Report(db))
    ensures var v := PackG15(Report(db)).value;
            MAXGRID4 + 5 <= v <= MAXGRID4 + 84 && TailText(v, r) == Some(Rendered(Report(db), r))
            && |Rendered(Report(db), r)| <= 7
  {
  }

  lemma Rr73Tail()
    ensures TailText(RR73_AS_GRID, false) == Some(" RR73")
  {
    SquareIndexDigits(17, 17, 7, 3);
    assert SquareIndex(17, 17, 7, 3) == RR73_AS_GRID;
    assert TailText(RR73_AS_GRID, false).value == " RR73";
  }

  lemma TailRoundTrip(tail: Tail, r: bool)
    requires PackedTail(tail) && AckAllowed(tail, r)
    ensures PackG15(tail).value < 32768
    ensures TailText(PackG15(tail).value, r) == Some(Rendered(tail, r))
    ensures |Rendered(tail, r)| <= 7
  {
    match tail
    case Grid(g) => GridTail(g, r);
    case Report(db) => ReportTail(db, r);
    case Rr73 => Rr73Tail();
    case _ =>
  }
}
