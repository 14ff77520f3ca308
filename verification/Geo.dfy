/**
 * The Maidenhead locator: integer-only encoding of a coordinate, the centre of a
 * locator's cell, parsing, and coarsening.
 */
module Geo {
  import opened Prelude
  import opened Arith

  const UNITS_PER_DEGREE: int := 342_833_400_000_000
  const LAT_MAX: int := 90 * UNITS_PER_DEGREE
  const LON_MAX: int := 180 * UNITS_PER_DEGREE

  datatype GeoError = BadGridLength(len: nat) | BadGridChar(got: byte, position: nat)

  datatype Coordinates = Coordinates(latitude: int, longitude: int) {
    predicate Valid() {
      -LAT_MAX <= latitude <= LAT_MAX && -LON_MAX <= longitude <= LON_MAX
    }
  }

  datatype GridPrecision = Square | Subsquare | ExtendedSquare {
    function Characters(): nat {
      match this
      case Square => 4
      case Subsquare => 6
      case ExtendedSquare => 8
    }
  }

  // How many finest cells one cell of a precision spans on each axis.
  function Span(p: GridPrecision): nat {
    match p
    case Square => 240
    case Subsquare => 10
    case ExtendedSquare => 1
  }

  // The canonical form of a byte at a position, if the position's alphabet has it:
  // field letters upper case, subsquare letters lower, digits elsewhere.
  function Canonical(i: nat, b: byte): Option<byte> {
    if i == 0 || i == 1 then
      if 65 <= b <= 82 then Some(b) else if 97 <= b <= 114 then Some(b - 32) else None
    else if i == 4 || i == 5 then
      if 97 <= b <= 120 then Some(b) else if 65 <= b <= 88 then Some(b + 32) else None
    else if 48 <= b <= 57 then Some(b) else None
  }

  // Canonical characters; those beyond `len` are zero, so equality is equality of text.
  datatype MaidenheadGrid = MaidenheadGrid(chars: seq<byte>, len: nat) {
    predicate Valid() {
      && |chars| == 8 && (len == 4 || len == 6 || len == 8)
      && forall i :: 0 <= i < 8 ==> if i < len then Canonical(i, chars[i]) == Some(chars[i]) else chars[i] == 0
    }

    function Precision(): GridPrecision {
      if len == 4 then Square else if len == 8 then ExtendedSquare else Subsquare
    }
  }

  // ---------------------------------------------------------------- encoding and decoding

  // One axis, square size `s`: field, square, subsquare and extended digits, in
  // the divisions the encoder makes.
  function Field(x: int, s: int): int requires s >= 24 { x / (10 * s) }
  function SquareOf(x: int, s: int): int requires s >= 24 { x % (10 * s) / s }
  function Sub(x: int, s: int): int requires s >= 24 { x % s / (s / 24) }
  function Ext(x: int, s: int): int requires s >= 24 { x % (s / 24) * 10 / (s / 24) }

  // Longitude wraps at +180 degrees; latitude is clamped below the pole.
  function LonOffset(c: Coordinates): int {
    var lon := c.longitude + LON_MAX;
    if lon >= 2 * LON_MAX then lon - 2 * LON_MAX else lon
  }

  function LatOffset(c: Coordinates): int {
    var lat := c.latitude + LAT_MAX;
    if lat >= 2 * LAT_MAX then 2 * LAT_MAX - 1 else lat
  }

  const LON_SQUARE: int := 2 * UNITS_PER_DEGREE
  const LAT_SQUARE: int := UNITS_PER_DEGREE
  const LON_CELL: int := LON_SQUARE / 240
  const LAT_CELL: int := LAT_SQUARE / 240
  const CELLS: int := 43200

  function AsByte(x: int): byte {
    x % 256
  }

  // The locator with given digits on the two axes.
  function Written(f: int, q: int, t: int, u: int, f': int, q': int, t': int, u': int,
                   p: GridPrecision): MaidenheadGrid {
    var len := p.Characters();
    MaidenheadGrid([
      AsByte(65 + f), AsByte(65 + f'), AsByte(48 + q), AsByte(48 + q'),
      if len >= 6 then AsByte(97 + t) else 0, if len >= 6 then AsByte(97 + t') else 0,
      if len >= 8 then AsByte(48 + u) else 0, if len >= 8 then AsByte(48 + u') else 0], len)
  }

  function Maidenhead(c: Coordinates, p: GridPrecision): MaidenheadGrid {
    var lat, lon := LatOffset(c), LonOffset(c);
    Written(Field(lon, LON_SQUARE), SquareOf(lon, LON_SQUARE), Sub(lon, LON_SQUARE), Ext(lon, LON_SQUARE),
            Field(lat, LAT_SQUARE), SquareOf(lat, LAT_SQUARE), Sub(lat, LAT_SQUARE), Ext(lat, LAT_SQUARE), p)
  }

  // South-west corner of one axis, and its cell size, as the decoder sums them.
  function Corner(field: byte, square: byte, sub: byte, ext: byte, s: int, len: nat): int {
    (field - 65) * 10 * s + (square - 48) * s
    + (if len >= 6 then (sub - 97) * (s / 24) else 0)
    + (if len == 8 then (ext - 48) * (s / 24 / 10) else 0)
  }

  function CellSize(s: int, len: nat): int {
    if len == 8 then s / 24 / 10 else if len >= 6 then s / 24 else s
  }

  function FromMaidenhead(g: MaidenheadGrid): Coordinates
    requires |g.chars| == 8
  {
    var lon := Corner(g.chars[0], g.chars[2], g.chars[4], g.chars[6], LON_SQUARE, g.len);
    var lat := Corner(g.chars[1], g.chars[3], g.chars[5], g.chars[7], LAT_SQUARE, g.len);
    Coordinates(lat + CellSize(LAT_SQUARE, g.len) / 2 - LAT_MAX, lon + CellSize(LON_SQUARE, g.len) / 2 - LON_MAX)
  }

  // ---------------------------------------------------------------- one axis, exactly

  // x mod (a * b), divided by a, is the b-ary digit above a.
  lemma DigitOf(x: int, a: int, b: int)
    requires 0 < a && 0 < b
    ensures 0 < a * b
    ensures x % (a * b) / a == x / a % b
  {
    var q, m := x / (a * b), x % (a * b);
    var h, r := m / a, m % a;
    assert x == q * (a * b) + m && m == h * a + r;
    assert x == (q * b + h) * a + r by {
      assert q * (a * b) == (q * b) * a;
    }
    DivUnique(x, a, q * b + h, r);
    if h >= b {
      MulMonotone(b, h, a);
    }
    if h < 0 {
      MulMonotone(h, -1, a);
    }
    DivUnique(q * b + h, b, q, h);
  }

  // The four digits are the mixed-radix digits of the finest cell index.
  lemma AxisDigits(x: int, e: int)
    requires 0 < e && 0 <= x < CELLS * e
    ensures var n, s := x / e, 240 * e;
            && 0 <= n < CELLS
            && Field(x, s) == n / 2400 && SquareOf(x, s) == n / 240 % 10
            && Sub(x, s) == n / 10 % 24 && Ext(x, s) == n % 10
  {
    var n, s := x / e, 240 * e;
    assert x == n * e + x % e;
    if n >= CELLS {
      MulMonotone(CELLS, n, e);
    }
    assert s / 24 == 10 * e;
    DivDiv(x, e, 2400);
    DivDiv(x, e, 240);
    DivDiv(x, e, 10);
    assert e * 2400 == 10 * s && e * 240 == s && e * 10 == 10 * e;
    DigitOf(x, s, 10);
    assert s * 10 == 10 * s;
    DigitOf(x, 10 * e, 24);
    assert 10 * e * 24 == s;
    DigitOf(x, e, 10);
    ScaleDiv(x % (10 * e), e);
  }

  lemma ScaleDiv(m: int, e: int)
    requires 0 < e
    ensures m * 10 / (10 * e) == m / e
  {
    var q, r := m / e, m % e;
    assert m * 10 == q * (10 * e) + 10 * r by {
      assert (q * e + r) * 10 == q * (10 * e) + 10 * r;
    }
    DivUnique(m * 10, 10 * e, q, 10 * r);
  }

  lemma CellSizes()
    ensures LON_SQUARE == 240 * LON_CELL && LAT_SQUARE == 240 * LAT_CELL
    ensures 2 * LON_MAX == CELLS * LON_CELL && 2 * LAT_MAX == CELLS * LAT_CELL
    ensures LON_CELL % 2 == 0 && LAT_CELL % 2 == 0 && LON_CELL > 0 && LAT_CELL > 0
  {
  }

  // Index, among cells of a precision, of the cell containing a coordinate.
  function LonIndex(c: Coordinates, p: GridPrecision): int {
    LonOffset(c) / LON_CELL / Span(p)
  }

  function LatIndex(c: Coordinates, p: GridPrecision): int {
    LatOffset(c) / LAT_CELL / Span(p)
  }

  // The index a locator's characters spell.
  function Spelled(field: byte, square: byte, sub: byte, ext: byte, len: nat): int {
    var n := (field - 65) * 10 + (square - 48);
    if len == 4 then n else
    var m := n * 24 + (sub - 97);
    if len == 6 then m else m * 10 + (ext - 48)
  }

  function LonSpelled(g: MaidenheadGrid): int
    requires |g.chars| == 8
  {
    Spelled(g.chars[0], g.chars[2], g.chars[4], g.chars[6], g.len)
  }

  function LatSpelled(g: MaidenheadGrid): int
    requires |g.chars| == 8
  {
    Spelled(g.chars[1], g.chars[3], g.chars[5], g.chars[7], g.len)
  }

  lemma DigitsSpell(n: int)
    requires 0 <= n < CELLS
    ensures 0 <= n / 2400 < 18
    ensures n / 2400 * 10 + n / 240 % 10 == n / 240
    ensures n / 240 * 24 + n / 10 % 24 == n / 10
    ensures n / 10 * 10 + n % 10 == n
  {
  }

  // The value a precision's characters spell, from the four digits.
  function DigitValue(f: int, q: int, t: int, u: int, p: GridPrecision): int {
    match p
    case Square => f * 10 + q
    case Subsquare => (f * 10 + q) * 24 + t
    case ExtendedSquare => ((f * 10 + q) * 24 + t) * 10 + u
  }

  lemma SpelledDigits(f: int, q: int, t: int, u: int, p: GridPrecision)
    requires 0 <= f < 18 && 0 <= q < 10 && 0 <= t < 24 && 0 <= u < 10
    ensures 65 <= AsByte(65 + f) <= 82 && 48 <= AsByte(48 + q) <= 57
    ensures 97 <= AsByte(97 + t) <= 120 && 48 <= AsByte(48 + u) <= 57
    ensures var len := p.Characters();
            Spelled(AsByte(65 + f), AsByte(48 + q), if len >= 6 then AsByte(97 + t) else 0,
                    if len >= 8 then AsByte(48 + u) else 0, len) == DigitValue(f, q, t, u, p)
  {
  }

  lemma AxisSpelled(x: int, e: int, p: GridPrecision)
    requires 0 < e && 0 <= x < CELLS * e
    ensures var s := 240 * e;
            && 0 <= Field(x, s) < 18 && 0 <= SquareOf(x, s) < 10 && 0 <= Sub(x, s) < 24 && 0 <= Ext(x, s) < 10
            && DigitValue(Field(x, s), SquareOf(x, s), Sub(x, s), Ext(x, s), p) == x / e / Span(p)
  {
    AxisDigits(x, e);
    DigitsSpell(x / e);
  }

  lemma OffsetsInRange(c: Coordinates)
    requires c.Valid()
    ensures 0 <= LonOffset(c) < CELLS * LON_CELL && 0 <= LatOffset(c) < CELLS * LAT_CELL
  {
  }

  lemma WrittenSpells(f: int, q: int, t: int, u: int, f': int, q': int, t': int, u': int, p: GridPrecision)
    requires 0 <= f < 18 && 0 <= q < 10 && 0 <= t < 24 && 0 <= u < 10
    requires 0 <= f' < 18 && 0 <= q' < 10 && 0 <= t' < 24 && 0 <= u' < 10
    ensures var g := Written(f, q, t, u, f', q', t', u', p);
            && g.Valid() && g.Precision() == p
            && LonSpelled(g) == DigitValue(f, q, t, u, p) && LatSpelled(g) == DigitValue(f', q', t', u', p)
  {
    SpelledDigits(f, q, t, u, p);
    SpelledDigits(f', q', t', u', p);
  }

  // The encoder produces a canonical locator spelling the indices of the cell.
  lemma EncodesIndex(c: Coordinates, p: GridPrecision)
    requires c.Valid()
    ensures var g := Maidenhead(c, p);
            g.Valid() && g.Precision() == p && LonSpelled(g) == LonIndex(c, p) && LatSpelled(g) == LatIndex(c, p)
  {
    var x, y, s, z := LonOffset(c), LatOffset(c), LON_SQUARE, LAT_SQUARE;
    CellSizes();
    OffsetsInRange(c);
    AxisSpelled(x, LON_CELL, p);
    AxisSpelled(y, LAT_CELL, p);
    WrittenSpells(Field(x, s), SquareOf(x, s), Sub(x, s), Ext(x, s),
                  Field(y, z), SquareOf(y, z), Sub(y, z), Ext(y, z), p);
  }

  lemma SpelledInjective(f1: byte, q1: byte, s1: byte, e1: byte, f2: byte, q2: byte, s2: byte, e2: byte, len: nat)
    requires len == 4 || len == 6 || len == 8
    requires 48 <= q1 <= 57 && 48 <= q2 <= 57
    requires len >= 6 ==> 97 <= s1 <= 120 && 97 <= s2 <= 120
    requires len == 8 ==> 48 <= e1 <= 57 && 48 <= e2 <= 57
    requires Spelled(f1, q1, s1, e1, len) == Spelled(f2, q2, s2, e2, len)
    ensures f1 == f2 && q1 == q2 && (len >= 6 ==> s1 == s2) && (len == 8 ==> e1 == e2)
  {
  }

  lemma ValidAlphabets(g: MaidenheadGrid)
    requires g.Valid()
    ensures 65 <= g.chars[0] <= 82 && 65 <= g.chars[1] <= 82
    ensures 48 <= g.chars[2] <= 57 && 48 <= g.chars[3] <= 57
    ensures if g.len >= 6 then 97 <= g.chars[4] <= 120 && 97 <= g.chars[5] <= 120 else g.chars[4] == g.chars[5] == 0
    ensures if g.len == 8 then 48 <= g.chars[6] <= 57 && 48 <= g.chars[7] <= 57 else g.chars[6] == g.chars[7] == 0
  {
    assert g.chars[0] == g.chars[0] && g.chars[1] == g.chars[1] && g.chars[2] == g.chars[2] && g.chars[3] == g.chars[3];
    assert g.chars[4] == g.chars[4] && g.chars[5] == g.chars[5] && g.chars[6] == g.chars[6] && g.chars[7] == g.chars[7];
  }

  lemma LocatorIsItsIndex(g: MaidenheadGrid, h: MaidenheadGrid)
    requires g.Valid() && h.Valid() && g.len == h.len
    requires LonSpelled(g) == LonSpelled(h) && LatSpelled(g) == LatSpelled(h)
    ensures g == h
  {
    var a, b := g.chars, h.chars;
    ValidAlphabets(g);
    ValidAlphabets(h);
    SpelledInjective(a[0], a[2], a[4], a[6], b[0], b[2], b[4], b[6], g.len);
    SpelledInjective(a[1], a[3], a[5], a[7], b[1], b[3], b[5], b[7], g.len);
    assert a == b;
  }

  // Letters are taken in either case; fields are stored in capitals, subsquares in
  // small letters.
  lemma CanonicalCases(i: nat, b: byte)
    ensures i < 2 ==> Canonical(i, b) == (if 'A' <= b as char <= 'R' then Some(b)
                                          else if 'a' <= b as char <= 'r' then Some(b - 32) else None)
    ensures i == 4 || i == 5 ==> Canonical(i, b) == (if 'a' <= b as char <= 'x' then Some(b)
                                                     else if 'A' <= b as char <= 'X' then Some(b + 32) else None)
    ensures i == 2 || i == 3 || i == 6 || i == 7 ==>
              Canonical(i, b) == if '0' <= b as char <= '9' then Some(b) else None
  {
  }

  lemma AxisLetters(x: int, e: int)
    requires 0 < e && 0 <= x < CELLS * e
    ensures Field(x, 240 * e) == x / (2400 * e) && SquareOf(x, 240 * e) == x / (240 * e) % 10
    ensures Sub(x, 240 * e) == x / (10 * e) % 24 && Ext(x, 240 * e) == x / e % 10
    ensures 0 <= x / (2400 * e) < 18
  {
    AxisDigits(x, e);
    hide Field, SquareOf, Sub, Ext;
    DivDiv(x, e, 2400);
    DivDiv(x, e, 240);
    DivDiv(x, e, 10);
    assert e * 2400 == 2400 * e && e * 240 == 240 * e && e * 10 == 10 * e;
  }

  lemma WrittenAt(f: int, q: int, t: int, u: int, f': int, q': int, t': int, u': int, p: GridPrecision)
    requires 0 <= f < 18 && 0 <= q < 10 && 0 <= t < 24 && 0 <= u < 10
    requires 0 <= f' < 18 && 0 <= q' < 10 && 0 <= t' < 24 && 0 <= u' < 10
    ensures var g := Written(f, q, t, u, f', q', t', u', p).chars;
            && |g| == 8 && g[0] == 65 + f && g[1] == 65 + f' && g[2] == 48 + q && g[3] == 48 + q'
            && (p != Square ==> g[4] == 97 + t && g[5] == 97 + t')
            && (p == ExtendedSquare ==> g[6] == 48 + u && g[7] == 48 + u')
  {
  }

  // The published grid, in units of which 342_833_400_000_000 are a degree:
  // longitude first in every pair, counted east from 180 degrees west, then
  // latitude, north from the pole; letters A to R every 20 and 10 degrees, digits
  // every 2 and 1, letters a to x every 5 and 2.5 minutes, digits every tenth of those.
  lemma LocatorCharacters(c: Coordinates, p: GridPrecision)
    requires c.Valid()
    ensures var g := Maidenhead(c, p).chars;
            var x := if c.longitude == 61_710_012_000_000_000 then 0 else c.longitude + 61_710_012_000_000_000;
            var y := if c.latitude == 30_855_006_000_000_000 then 61_710_011_999_999_999
                     else c.latitude + 30_855_006_000_000_000;
            && |g| == 8
            && g[0] == 65 + x / 6_856_668_000_000_000 && g[1] == 65 + y / 3_428_334_000_000_000
            && g[2] == 48 + x / 685_666_800_000_000 % 10 && g[3] == 48 + y / 342_833_400_000_000 % 10
            && (p != Square ==>
                  g[4] == 97 + x / 28_569_450_000_000 % 24 && g[5] == 97 + y / 14_284_725_000_000 % 24)
            && (p == ExtendedSquare ==>
                  g[6] == 48 + x / 2_856_945_000_000 % 10 && g[7] == 48 + y / 1_428_472_500_000 % 10)
  {
    var x, y, s, z := LonOffset(c), LatOffset(c), LON_SQUARE, LAT_SQUARE;
    OffsetsInRange(c);
    AxisLetters(x, 2_856_945_000_000);
    AxisLetters(y, 1_428_472_500_000);
    hide Field, SquareOf, Sub, Ext, Written;
    WrittenAt(Field(x, s), SquareOf(x, s), Sub(x, s), Ext(x, s),
              Field(y, z), SquareOf(y, z), Sub(y, z), Ext(y, z), p);
  }

  // ---------------------------------------------------------------- the three laws

  lemma IndexIffInside(x: int, e: int, k: int, i: int)
    requires 0 < e && 0 < k
    ensures x / e / k == i <==> i * (k * e) <= x < (i + 1) * (k * e)
  {
    DivDiv(x, e, k);
    var w := e * k;
    assert k * e == w;
    var q, r := x / w, x % w;
    assert x == q * w + r;
    if q < i {
      MulMonotone(q + 1, i, w);
    } else if i < q {
      MulMonotone(i + 1, q, w);
    }
    assert (i + 1) * w == i * w + w;
  }

  // A locator names exactly the coordinates of one half-open cell, longitude
  // taken modulo 360 degrees and the pole counted with the row below it.
  lemma EncodesToIffInCell(c: Coordinates, g: MaidenheadGrid)
    requires c.Valid() && g.Valid()
    ensures var k := Span(g.Precision());
            Maidenhead(c, g.Precision()) == g <==>
            && LonSpelled(g) * (k * LON_CELL) <= LonOffset(c) < (LonSpelled(g) + 1) * (k * LON_CELL)
            && LatSpelled(g) * (k * LAT_CELL) <= LatOffset(c) < (LatSpelled(g) + 1) * (k * LAT_CELL)
  {
    var p := g.Precision();
    EncodesIndex(c, p);
    CellSizes();
    IndexIffInside(LonOffset(c), LON_CELL, Span(p), LonSpelled(g));
    IndexIffInside(LatOffset(c), LAT_CELL, Span(p), LatSpelled(g));
    if LonIndex(c, p) == LonSpelled(g) && LatIndex(c, p) == LatSpelled(g) {
      LocatorIsItsIndex(Maidenhead(c, p), g);
    }
  }

  // One more digit in base `base`, in units `w` instead of `base * w`.
  lemma NextDigit(n: int, digit: int, base: int, w: int, wider: int)
    requires wider == base * w
    ensures (n * base + digit) * w == n * wider + digit * w
  {
  }

  lemma CornerIsIndex(field: byte, square: byte, sub: byte, ext: byte, e: int, len: nat)
    requires 0 < e && (len == 4 || len == 6 || len == 8)
    ensures var k := if len == 4 then 240 else if len == 6 then 10 else 1;
            && CellSize(240 * e, len) == k * e
            && Corner(field, square, sub, ext, 240 * e, len) == Spelled(field, square, sub, ext, len) * (k * e)
  {
    var e4, e6 := 240 * e, 10 * e;
    assert e4 / 24 == e6 && e6 / 10 == e && 1 * e == e;
    var n := (field - 65) * 10 + (square - 48);
    NextDigit(field - 65, square - 48, 10, e4, 10 * e4);
    NextDigit(n, sub - 97, 24, e6, e4);
    NextDigit(n * 24 + (sub - 97), ext - 48, 10, e, e6);
    assert (field - 65) * 10 * e4 == (field - 65) * (10 * e4);
  }

  lemma SpelledRange(g: MaidenheadGrid)
    requires g.Valid()
    ensures 0 <= LonSpelled(g) && (LonSpelled(g) + 1) * Span(g.Precision()) <= CELLS
    ensures 0 <= LatSpelled(g) && (LatSpelled(g) + 1) * Span(g.Precision()) <= CELLS
  {
    ValidAlphabets(g);
  }

  lemma CentreInside(i: int, k: int, e: int)
    requires 0 <= i && 0 < k && 0 < e && (i + 1) * k <= CELLS && e % 2 == 0
    ensures k * e > 0 && k * e % 2 == 0
    ensures 0 < i * (k * e) + k * e / 2 < CELLS * e
    ensures i * (k * e) <= i * (k * e) + k * e / 2 < (i + 1) * (k * e)
  {
    var w := k * e;
    assert w == 2 * (k * (e / 2)) && k * (e / 2) > 0;
    MulMonotone((i + 1) * k, CELLS, e);
    assert (i + 1) * k * e == (i + 1) * w == i * w + w;
    MulMonotone(0, i, w);
  }

  // The decoder returns the centre of the cell the locator spells.
  lemma DecodesToCentre(g: MaidenheadGrid)
    requires g.Valid()
    ensures var c, k := FromMaidenhead(g), Span(g.Precision());
            && c.Valid() && -LON_MAX < c.longitude < LON_MAX && -LAT_MAX < c.latitude < LAT_MAX
            && c.longitude + LON_MAX == LonSpelled(g) * (k * LON_CELL) + k * LON_CELL / 2
            && c.latitude + LAT_MAX == LatSpelled(g) * (k * LAT_CELL) + k * LAT_CELL / 2
  {
    var a, k := g.chars, Span(g.Precision());
    CellSizes();
    SpelledRange(g);
    CornerIsIndex(a[0], a[2], a[4], a[6], LON_CELL, g.len);
    CornerIsIndex(a[1], a[3], a[5], a[7], LAT_CELL, g.len);
    CentreInside(LonSpelled(g), k, LON_CELL);
    CentreInside(LatSpelled(g), k, LAT_CELL);
  }

  // Inversion: re-encoding the centre of any locator gives it back.
  lemma LocatorRoundTrip(g: MaidenheadGrid)
    requires g.Valid()
    ensures FromMaidenhead(g).Valid()
    ensures Maidenhead(FromMaidenhead(g), g.Precision()) == g
  {
    DecodesToCentre(g);
    CellSizes();
    SpelledRange(g);
    CentreInside(LonSpelled(g), Span(g.Precision()), LON_CELL);
    CentreInside(LatSpelled(g), Span(g.Precision()), LAT_CELL);
    EncodesToIffInCell(FromMaidenhead(g), g);
  }

  function Distance(x: int, y: int): int {
    if x < y then y - x else x - y
  }

  lemma HalfCell(x: int, i: int, w: int)
    requires 0 < w && w % 2 == 0 && i * w <= x < (i + 1) * w
    ensures 2 * Distance(x, i * w + w / 2) <= w
    ensures x == (i + 1) * w - 1 ==> 2 * Distance(x + 1, i * w + w / 2) <= w
  {
    assert (i + 1) * w == i * w + w;
  }

  // The clamp only ever acts on the last point below the pole, which ends a cell.
  lemma PoleEndsCell(i: int, k: int, e: int)
    requires 0 < k && 0 < e && CELLS % k == 0
    requires i * (k * e) <= CELLS * e - 1 < (i + 1) * (k * e)
    ensures CELLS * e == (i + 1) * (k * e)
  {
    var m, w := CELLS / k, k * e;
    assert CELLS * e == m * w by {
      assert m * k == CELLS;
      assert m * k * e == m * (k * e);
    }
    assert (i + 2) * w == (i + 1) * w + w;
    if i + 1 < m {
      MulMonotone(i + 2, m, w);
    } else if m < i + 1 {
      MulMonotone(m, i, w);
    }
  }

  // The longitude that is encoded: +180 degrees is -180.
  function Wrapped(longitude: int): int {
    if longitude == LON_MAX then -LON_MAX else longitude
  }

  // Longitude: the cell a coordinate is in, and the centre decoded.
  lemma LongitudeCell(c: Coordinates, p: GridPrecision)
    requires c.Valid()
    ensures var g, w := Maidenhead(c, p), Span(p) * LON_CELL;
            && w > 0 && w % 2 == 0
            && LonSpelled(g) * w <= LonOffset(c) < (LonSpelled(g) + 1) * w
            && FromMaidenhead(g).longitude + LON_MAX == LonSpelled(g) * w + w / 2
  {
    var g := Maidenhead(c, p);
    EncodesIndex(c, p);
    CellSizes();
    hide Maidenhead, FromMaidenhead, Span, LonSpelled, LatSpelled, LonOffset, LatOffset;
    EncodesToIffInCell(c, g);
    DecodesToCentre(g);
    SpelledRange(g);
    CentreInside(LonSpelled(g), Span(p), LON_CELL);
  }

  lemma NearLongitude(c: Coordinates, p: GridPrecision)
    requires c.Valid()
    ensures 2 * Distance(Wrapped(c.longitude), FromMaidenhead(Maidenhead(c, p)).longitude) <= Span(p) * LON_CELL
  {
    assert LonOffset(c) == Wrapped(c.longitude) + LON_MAX;
    EncodesIndex(c, p);
    hide Maidenhead, FromMaidenhead, Span, LonSpelled, LonOffset, Wrapped;
    LongitudeCell(c, p);
    HalfCell(LonOffset(c), LonSpelled(Maidenhead(c, p)), Span(p) * LON_CELL);
  }

  // Reading the pole as the last point below it costs nothing.
  lemma NearPole(y: int, i: int, k: int, e: int)
    requires 0 < k && 0 < e && CELLS % k == 0 && k * e % 2 == 0 && y <= CELLS * e
    requires var x := if y == CELLS * e then y - 1 else y; i * (k * e) <= x < (i + 1) * (k * e)
    ensures 2 * Distance(y, i * (k * e) + k * e / 2) <= k * e
  {
    if y == CELLS * e {
      PoleEndsCell(i, k, e);
      HalfCell(y - 1, i, k * e);
    } else {
      HalfCell(y, i, k * e);
    }
  }

  lemma LatitudeCell(c: Coordinates, p: GridPrecision)
    requires c.Valid()
    ensures var g, w := Maidenhead(c, p), Span(p) * LAT_CELL;
            && w > 0 && w % 2 == 0
            && LatSpelled(g) * w <= LatOffset(c) < (LatSpelled(g) + 1) * w
            && FromMaidenhead(g).latitude + LAT_MAX == LatSpelled(g) * w + w / 2
  {
    var g := Maidenhead(c, p);
    EncodesIndex(c, p);
    CellSizes();
    hide Maidenhead, FromMaidenhead, Span, LonSpelled, LatSpelled, LonOffset, LatOffset;
    EncodesToIffInCell(c, g);
    DecodesToCentre(g);
    SpelledRange(g);
    CentreInside(LatSpelled(g), Span(p), LAT_CELL);
  }

  lemma NearLatitude(c: Coordinates, p: GridPrecision)
    requires c.Valid()
    ensures 2 * Distance(c.latitude, FromMaidenhead(Maidenhead(c, p)).latitude) <= Span(p) * LAT_CELL
  {
    assert LatOffset(c) == if c.latitude == LAT_MAX then 2 * LAT_MAX - 1 else c.latitude + LAT_MAX;
    assert Span(p) > 0 && CELLS % Span(p) == 0;
    CellSizes();
    EncodesIndex(c, p);
    hide Maidenhead, FromMaidenhead, Span, LatSpelled, LatOffset;
    LatitudeCell(c, p);
    NearPole(c.latitude + LAT_MAX, LatSpelled(Maidenhead(c, p)), Span(p), LAT_CELL);
  }

  // Containment: a coordinate lies within half a cell of its locator's centre on
  // both axes, with +180 degrees read as -180 and the pole included.
  lemma WithinHalfACell(c: Coordinates, p: GridPrecision)
    requires c.Valid()
    ensures var centre := FromMaidenhead(Maidenhead(c, p));
            && 2 * Distance(Wrapped(c.longitude), centre.longitude) <= Span(p) * LON_CELL
            && 2 * Distance(c.latitude, centre.latitude) <= Span(p) * LAT_CELL
  {
    hide *;
    EncodesIndex(c, p);
    NearLongitude(c, p);
    NearLatitude(c, p);
  }

  // ---------------------------------------------------------------- parsing and coarsening

  method FromBytes(bytes: seq<byte>) returns (r: Result<MaidenheadGrid, GeoError>)
    ensures r.Ok? ==> r.value.Valid() && r.value.len == |bytes|
                      && forall i :: 0 <= i < |bytes| ==> Canonical(i, bytes[i]) == Some(r.value.chars[i])
    ensures r.Err? && |bytes| !in {4, 6, 8} ==> r.error == BadGridLength(|bytes|)
    ensures r.Err? && |bytes| in {4, 6, 8} ==>
              && r.error.BadGridChar? && r.error.position < |bytes| && r.error.got == bytes[r.error.position]
              && Canonical(r.error.position, r.error.got) == None
              && forall i :: 0 <= i < r.error.position ==> Canonical(i, bytes[i]).Some?
    ensures r.Ok? <==> |bytes| in {4, 6, 8} && forall i :: 0 <= i < |bytes| ==> Canonical(i, bytes[i]).Some?
  {
    var len := |bytes|;
    if len != 4 && len != 6 && len != 8 {
      return Err(BadGridLength(len));
    }
    var chars := new byte[8](_ => 0);
    var i := 0;
    while i < len
      invariant 0 <= i <= len
      invariant forall k :: 0 <= k < i ==>
                  Canonical(k, bytes[k]) == Some(chars[k]) && Canonical(k, chars[k]) == Some(chars[k])
      invariant forall k :: i <= k < 8 ==> chars[k] == 0
    {
      var canonical := Canonical(i, bytes[i]);
      if canonical == None {
        return Err(BadGridChar(bytes[i], i));
      }
      chars[i] := canonical.value;
      i := i + 1;
    }
    return Ok(MaidenheadGrid(chars[..], len));
  }

  function Coarsen(g: MaidenheadGrid, p: GridPrecision): MaidenheadGrid
    requires |g.chars| == 8
  {
    var wanted := p.Characters();
    if wanted >= g.len then g
    else MaidenheadGrid(g.chars[..wanted] + seq(8 - wanted, _ => 0), wanted)
  }

  method ToPrecision(g: MaidenheadGrid, p: GridPrecision) returns (coarse: MaidenheadGrid)
    requires g.Valid()
    ensures coarse == Coarsen(g, p)
    ensures coarse.Valid()
  {
    var wanted := p.Characters();
    if wanted >= g.len {
      return g;
    }
    var chars := new byte[8](k requires 0 <= k < 8 => g.chars[k]);
    var i := wanted;
    while i < chars.Length
      invariant wanted <= i <= 8
      invariant forall k :: 0 <= k < 8 ==> chars[k] == if wanted <= k < i then 0 else g.chars[k]
    {
      chars[i] := 0;
      i := i + 1;
    }
    assert chars[..] == g.chars[..wanted] + seq(8 - wanted, _ => 0);
    return MaidenheadGrid(chars[..], wanted);
  }

  // Coarsening a fine locator is encoding coarsely at once.
  lemma CoarsenCommutes(c: Coordinates, fine: GridPrecision, coarse: GridPrecision)
    requires c.Valid()
    ensures Coarsen(Maidenhead(c, fine), coarse)
         == Maidenhead(c, if coarse.Characters() >= fine.Characters() then fine else coarse)
  {
    var g := Maidenhead(c, fine);
    if coarse.Characters() < fine.Characters() {
      assert Coarsen(g, coarse).chars == Maidenhead(c, coarse).chars;
    }
  }

  // So no place leaves its locator: whatever the fine locator names, and in
  // particular its centre, the coarse one names too.
  lemma CoarsenContains(g: MaidenheadGrid, p: GridPrecision, c: Coordinates)
    requires g.Valid() && c.Valid() && Maidenhead(c, g.Precision()) == g
    ensures Coarsen(g, p).Valid()
    ensures Maidenhead(c, Coarsen(g, p).Precision()) == Coarsen(g, p)
  {
    CoarsenCommutes(c, g.Precision(), p);
    EncodesIndex(c, p);
    EncodesIndex(c, g.Precision());
  }

  lemma CoarsenKeepsCentre(g: MaidenheadGrid, p: GridPrecision)
    requires g.Valid()
    ensures Maidenhead(FromMaidenhead(g), Coarsen(g, p).Precision()) == Coarsen(g, p)
  {
    LocatorRoundTrip(g);
    CoarsenContains(g, p, FromMaidenhead(g));
  }
}
