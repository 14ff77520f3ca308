/**
 * The eleven FX.25 correlation tags: their codes, sizes and mutual distance, and
 * the tolerant match that hunts for them.
 */
module Fx25Tags {
  import opened Prelude
  import opened Arith
  import opened Hamming

  datatype CorrelationTag =
    | Rs255_239 | Rs144_128 | Rs80_64 | Rs48_32
    | Rs255_223 | Rs160_128 | Rs96_64 | Rs64_32
    | Rs255_191 | Rs192_128 | Rs128_64

  const TAG_BYTES: nat := 8
  const TAG_TOLERANCE: nat := 8
  const BLOCK_MAX: nat := 255

  // The published 64-bit correlation value.
  function TagValue(tag: CorrelationTag): nat {
    match tag
    case Rs255_239 => 0xB74D_B7DF_8A53_2F3E
    case Rs144_128 => 0x26FF_60A6_00CC_8FDE
    case Rs80_64 => 0xC7DC_0508_F3D9_B09E
    case Rs48_32 => 0x8F05_6EB4_3696_60EE
    case Rs255_223 => 0x6E26_0B1A_C583_5FAE
    case Rs160_128 => 0xFF94_DC63_4F1C_FF4E
    case Rs96_64 => 0x1EB7_B9CD_BC09_C00E
    case Rs64_32 => 0xDBF8_69BD_2DBB_1776
    case Rs255_191 => 0x3ADB_0C13_DEAE_2836
    case Rs192_128 => 0xAB69_DB6A_5431_88D6
    case Rs128_64 => 0x4A4A_BEC4_A724_B796
  }

  function DataLen(tag: CorrelationTag): nat {
    match tag
    case Rs48_32 | Rs64_32 => 32
    case Rs80_64 | Rs96_64 | Rs128_64 => 64
    case Rs144_128 | Rs160_128 | Rs192_128 => 128
    case Rs255_191 => 191
    case Rs255_223 => 223
    case Rs255_239 => 239
  }

  function ParityLen(tag: CorrelationTag): nat {
    match tag
    case Rs255_239 | Rs144_128 | Rs80_64 | Rs48_32 => 16
    case Rs255_223 | Rs160_128 | Rs96_64 | Rs64_32 => 32
    case Rs255_191 | Rs192_128 | Rs128_64 => 64
  }

  // Data length of the full code; what lies above `DataLen` is never sent.
  function RsDataLen(tag: CorrelationTag): nat {
    BLOCK_MAX - ParityLen(tag)
  }

  function BlockLen(tag: CorrelationTag): nat {
    DataLen(tag) + ParityLen(tag)
  }

  lemma Sizes(tag: CorrelationTag)
    ensures DataLen(tag) <= RsDataLen(tag) < RsDataLen(tag) + ParityLen(tag) == BLOCK_MAX
    ensures 0 < DataLen(tag) && 0 < BlockLen(tag)
  {
  }

  // The code that each tag is named after: RS(n, k), n bytes sent, k of them data.
  function NamedCode(tag: CorrelationTag): (nat, nat) {
    match tag
    case Rs255_239 => (255, 239)
    case Rs144_128 => (144, 128)
    case Rs80_64 => (80, 64)
    case Rs48_32 => (48, 32)
    case Rs255_223 => (255, 223)
    case Rs160_128 => (160, 128)
    case Rs96_64 => (96, 64)
    case Rs64_32 => (64, 32)
    case Rs255_191 => (255, 191)
    case Rs192_128 => (192, 128)
    case Rs128_64 => (128, 64)
  }

  // The published list, in its own order.
  lemma PublishedTags(i: nat)
    requires i < 11
    ensures var tag := ALL[i];
            && TagValue(tag)
               == [0xB74D_B7DF_8A53_2F3E, 0x26FF_60A6_00CC_8FDE, 0xC7DC_0508_F3D9_B09E, 0x8F05_6EB4_3696_60EE,
                   0x6E26_0B1A_C583_5FAE, 0xFF94_DC63_4F1C_FF4E, 0x1EB7_B9CD_BC09_C00E, 0xDBF8_69BD_2DBB_1776,
                   0x3ADB_0C13_DEAE_2836, 0xAB69_DB6A_5431_88D6, 0x4A4A_BEC4_A724_B796][i]
            && NamedCode(tag)
               == [(255, 239), (144, 128), (80, 64), (48, 32), (255, 223), (160, 128), (96, 64), (64, 32),
                   (255, 191), (192, 128), (128, 64)][i]
  {
  }

  lemma SizesAreNamed(tag: CorrelationTag)
    ensures (BlockLen(tag), DataLen(tag)) == NamedCode(tag)
    ensures RsDataLen(tag) == 255 - (NamedCode(tag).0 - NamedCode(tag).1)
  {
  }

  // ---------------------------------------------------------------- choosing a tag

  const ALL: seq<CorrelationTag> := [
    Rs255_239, Rs144_128, Rs80_64, Rs48_32, Rs255_223, Rs160_128, Rs96_64, Rs64_32, Rs255_191, Rs192_128, Rs128_64]

  const PREFERRED: seq<CorrelationTag> := [
    Rs48_32, Rs64_32, Rs80_64, Rs96_64, Rs128_64, Rs144_128, Rs160_128, Rs192_128, Rs255_191, Rs255_223, Rs255_239]

  function FirstFitting(tags: seq<CorrelationTag>, len: nat): Option<CorrelationTag> {
    if tags == [] then None
    else if DataLen(tags[0]) >= len then Some(tags[0])
    else FirstFitting(tags[1..], len)
  }

  function SmallestFor(len: nat): Option<CorrelationTag> {
    FirstFitting(PREFERRED, len)
  }

  lemma {:induction false} FirstFittingIsFirst(tags: seq<CorrelationTag>, len: nat, j: nat)
    requires j < |tags| && DataLen(tags[j]) >= len
    ensures FirstFitting(tags, len).Some?
    ensures exists i :: 0 <= i <= j && FirstFitting(tags, len).value == tags[i]
    decreases |tags|
  {
    if DataLen(tags[0]) < len {
      FirstFittingIsFirst(tags[1..], len, j - 1);
      var i :| 0 <= i <= j - 1 && FirstFitting(tags[1..], len).value == tags[1..][i];
      assert tags[i + 1] == tags[1..][i];
    }
  }

  lemma {:induction false} FirstFittingFits(tags: seq<CorrelationTag>, len: nat)
    ensures FirstFitting(tags, len).Some? ==> DataLen(FirstFitting(tags, len).value) >= len
    decreases |tags|
  {
    if tags != [] && DataLen(tags[0]) < len {
      FirstFittingFits(tags[1..], len);
    }
  }

  lemma PreferredOrder(i: nat, j: nat)
    requires i <= j < |PREFERRED|
    ensures BlockLen(PREFERRED[i]) <= BlockLen(PREFERRED[j])
    ensures BlockLen(PREFERRED[i]) == BlockLen(PREFERRED[j]) ==> ParityLen(PREFERRED[i]) >= ParityLen(PREFERRED[j])
  {
  }

  function PreferredIndex(tag: CorrelationTag): (i: nat)
    ensures i < |PREFERRED| && PREFERRED[i] == tag
  {
    match tag
    case Rs48_32 => 0
    case Rs64_32 => 1
    case Rs80_64 => 2
    case Rs96_64 => 3
    case Rs128_64 => 4
    case Rs144_128 => 5
    case Rs160_128 => 6
    case Rs192_128 => 7
    case Rs255_191 => 8
    case Rs255_223 => 9
    case Rs255_239 => 10
  }

  // The chosen tag holds the frame in the least airtime, and of equally long
  // blocks in the one with most parity; a frame is refused only above 239 bytes.
  lemma SmallestForIsBest(len: nat, other: CorrelationTag)
    ensures SmallestFor(len).Some? <==> len <= 239
    ensures SmallestFor(len).Some? && DataLen(other) >= len ==>
              var tag := SmallestFor(len).value;
              && DataLen(tag) >= len && BlockLen(tag) <= BlockLen(other)
              && (BlockLen(tag) == BlockLen(other) ==> ParityLen(tag) >= ParityLen(other))
  {
    FirstFittingFits(PREFERRED, len);
    if len <= 239 {
      FirstFittingIsFirst(PREFERRED, len, 10);
    }
    if DataLen(other) >= len {
      var j := PreferredIndex(other);
      FirstFittingIsFirst(PREFERRED, len, j);
      var i :| 0 <= i <= j && SmallestFor(len).value == PREFERRED[i];
      PreferredOrder(i, j);
    }
  }

  function Index(tag: CorrelationTag): nat {
    match tag
    case Rs255_239 => 0
    case Rs144_128 => 1
    case Rs80_64 => 2
    case Rs48_32 => 3
    case Rs255_223 => 4
    case Rs160_128 => 5
    case Rs96_64 => 6
    case Rs64_32 => 7
    case Rs255_191 => 8
    case Rs192_128 => 9
    case Rs128_64 => 10
  }

  // ---------------------------------------------------------------- bits on the air

  // The `n` low bits of `v`, least significant first.
  function LowBits(v: nat, n: nat): (bits: seq<bool>)
    ensures |bits| == n
    decreases n
  {
    if n == 0 then [] else [v % 2 == 1] + LowBits(v / 2, n - 1)
  }

  // Bytes as they are sent, each least significant bit first.
  function AirBits(bytes: seq<byte>): (bits: seq<bool>)
    ensures |bits| == 8 * |bytes|
  {
    if bytes == [] then [] else LowBits(bytes[0], 8) + AirBits(bytes[1..])
  }

  datatype TagOctet = TagOctet(b0: bool, b1: bool, b2: bool, b3: bool, b4: bool, b5: bool, b6: bool, b7: bool)
  datatype Word = Word(o0: TagOctet, o1: TagOctet, o2: TagOctet, o3: TagOctet,
                       o4: TagOctet, o5: TagOctet, o6: TagOctet, o7: TagOctet)

  // The tag's 64 bits in the order they are sent.
  function TagWord(tag: CorrelationTag): Word {
    var I, o := true, false;
    match tag
    case Rs255_239 =>
      Word(TagOctet(o, I, I, I, I, I, o, o), TagOctet(I, I, I, I, o, I, o, o),
           TagOctet(I, I, o, o, I, o, I, o), TagOctet(o, I, o, I, o, o, o, I),
           TagOctet(I, I, I, I, I, o, I, I), TagOctet(I, I, I, o, I, I, o, I),
           TagOctet(I, o, I, I, o, o, I, o), TagOctet(I, I, I, o, I, I, o, I))
    case Rs144_128 =>
      Word(TagOctet(o, I, I, I, I, o, I, I), TagOctet(I, I, I, I, o, o, o, I),
           TagOctet(o, o, I, I, o, o, I, I), TagOctet(o, o, o, o, o, o, o, o),
           TagOctet(o, I, I, o, o, I, o, I), TagOctet(o, o, o, o, o, I, I, o),
           TagOctet(I, I, I, I, I, I, I, I), TagOctet(o, I, I, o, o, I, o, o))
    case Rs80_64 =>
      Word(TagOctet(o, I, I, I, I, o, o, I), TagOctet(o, o, o, o, I, I, o, I),
           TagOctet(I, o, o, I, I, o, I, I), TagOctet(I, I, o, o, I, I, I, I),
           TagOctet(o, o, o, I, o, o, o, o), TagOctet(I, o, I, o, o, o, o, o),
           TagOctet(o, o, I, I, I, o, I, I), TagOctet(I, I, I, o, o, o, I, I))
    case Rs48_32 =>
      Word(TagOctet(o, I, I, I, o, I, I, I), TagOctet(o, o, o, o, o, I, I, o),
           TagOctet(o, I, I, o, I, o, o, I), TagOctet(o, I, I, o, I, I, o, o),
           TagOctet(o, o, I, o, I, I, o, I), TagOctet(o, I, I, I, o, I, I, o),
           TagOctet(I, o, I, o, o, o, o, o), TagOctet(I, I, I, I, o, o, o, I))
    case Rs255_223 =>
      Word(TagOctet(o, I, I, I, o, I, o, I), TagOctet(I, I, I, I, I, o, I, o),
           TagOctet(I, I, o, o, o, o, o, I), TagOctet(I, o, I, o, o, o, I, I),
           TagOctet(o, I, o, I, I, o, o, o), TagOctet(I, I, o, I, o, o, o, o),
           TagOctet(o, I, I, o, o, I, o, o), TagOctet(o, I, I, I, o, I, I, o))
    case Rs160_128 =>
      Word(TagOctet(o, I, I, I, o, o, I, o), TagOctet(I, I, I, I, I, I, I, I),
           TagOctet(o, o, I, I, I, o, o, o), TagOctet(I, I, I, I, o, o, I, o),
           TagOctet(I, I, o, o, o, I, I, o), TagOctet(o, o, I, I, I, o, I, I),
           TagOctet(o, o, I, o, I, o, o, I), TagOctet(I, I, I, I, I, I, I, I))
    case Rs96_64 =>
      Word(TagOctet(o, I, I, I, o, o, o, o), TagOctet(o, o, o, o, o, o, I, I),
           TagOctet(I, o, o, I, o, o, o, o), TagOctet(o, o, I, I, I, I, o, I),
           TagOctet(I, o, I, I, o, o, I, I), TagOctet(I, o, o, I, I, I, o, I),
           TagOctet(I, I, I, o, I, I, o, I), TagOctet(o, I, I, I, I, o, o, o))
    case Rs64_32 =>
      Word(TagOctet(o, I, I, o, I, I, I, o), TagOctet(I, I, I, o, I, o, o, o),
           TagOctet(I, I, o, I, I, I, o, I), TagOctet(I, o, I, I, o, I, o, o),
           TagOctet(I, o, I, I, I, I, o, I), TagOctet(I, o, o, I, o, I, I, o),
           TagOctet(o, o, o, I, I, I, I, I), TagOctet(I, I, o, I, I, o, I, I))
    case Rs255_191 =>
      Word(TagOctet(o, I, I, o, I, I, o, o), TagOctet(o, o, o, I, o, I, o, o),
           TagOctet(o, I, I, I, o, I, o, I), TagOctet(o, I, I, I, I, o, I, I),
           TagOctet(I, I, o, o, I, o, o, o), TagOctet(o, o, I, I, o, o, o, o),
           TagOctet(I, I, o, I, I, o, I, I), TagOctet(o, I, o, I, I, I, o, o))
    case Rs192_128 =>
      Word(TagOctet(o, I, I, o, I, o, I, I), TagOctet(o, o, o, I, o, o, o, I),
           TagOctet(I, o, o, o, I, I, o, o), TagOctet(o, o, I, o, I, o, I, o),
           TagOctet(o, I, o, I, o, I, I, o), TagOctet(I, I, o, I, I, o, I, I),
           TagOctet(I, o, o, I, o, I, I, o), TagOctet(I, I, o, I, o, I, o, I))
    case Rs128_64 =>
      Word(TagOctet(o, I, I, o, I, o, o, I), TagOctet(I, I, I, o, I, I, o, I),
           TagOctet(o, o, I, o, o, I, o, o), TagOctet(I, I, I, o, o, I, o, I),
           TagOctet(o, o, I, o, o, o, I, I), TagOctet(o, I, I, I, I, I, o, I),
           TagOctet(o, I, o, I, o, o, I, o), TagOctet(o, I, o, I, o, o, I, o))
  }

  function N(b: bool): nat {
    if b then 1 else 0
  }

  function OctetValue(x: TagOctet): (v: byte) {
    N(x.b0) + 2 * N(x.b1) + 4 * N(x.b2) + 8 * N(x.b3) + 16 * N(x.b4) + 32 * N(x.b5) + 64 * N(x.b6) + 128 * N(x.b7)
  }

  function OctetBits(x: TagOctet): (bits: seq<bool>)
    ensures |bits| == 8
  {
    [x.b0, x.b1, x.b2, x.b3, x.b4, x.b5, x.b6, x.b7]
  }

  function WordBytes(w: Word): (bytes: seq<byte>)
    ensures |bytes| == TAG_BYTES
  {
    [OctetValue(w.o0), OctetValue(w.o1), OctetValue(w.o2), OctetValue(w.o3),
     OctetValue(w.o4), OctetValue(w.o5), OctetValue(w.o6), OctetValue(w.o7)]
  }

  function TagBytes(tag: CorrelationTag): (bytes: seq<byte>)
    ensures |bytes| == TAG_BYTES
  {
    WordBytes(TagWord(tag))
  }

  function TagBits(tag: CorrelationTag): (bits: seq<bool>)
    ensures |bits| == 64
  {
    AirBits(TagBytes(tag))
  }

  function Join(b: byte, rest: nat): nat {
    b as nat + 256 * rest
  }

  function WordValue(w: Word): nat {
    Join(OctetValue(w.o0), Join(OctetValue(w.o1), Join(OctetValue(w.o2), Join(OctetValue(w.o3),
      Join(OctetValue(w.o4), Join(OctetValue(w.o5), Join(OctetValue(w.o6), Join(OctetValue(w.o7), 0))))))))
  }

  // `(value >> (8 * k))`
  function ShiftBytes(value: nat, k: nat): nat {
    if k == 0 then value else ShiftBytes(value, k - 1) / 256
  }

  lemma Spelled(w: Word, b0: byte, b1: byte, b2: byte, b3: byte, b4: byte, b5: byte, b6: byte, b7: byte)
    requires OctetValue(w.o0) == b0 && OctetValue(w.o1) == b1 && OctetValue(w.o2) == b2 && OctetValue(w.o3) == b3
    requires OctetValue(w.o4) == b4 && OctetValue(w.o5) == b5 && OctetValue(w.o6) == b6 && OctetValue(w.o7) == b7
    ensures WordValue(w) == Join(b0, Join(b1, Join(b2, Join(b3, Join(b4, Join(b5, Join(b6, Join(b7, 0))))))))
  {
    hide OctetValue, Join;
  }

  lemma FirstTagsSpelled(tag: CorrelationTag)
    requires Index(tag) < 2
    ensures WordValue(TagWord(tag)) == TagValue(tag)
  {
    hide WordValue;
    match tag
    case Rs255_239 => Spelled(TagWord(tag), 0x3E, 0x2F, 0x53, 0x8A, 0xDF, 0xB7, 0x4D, 0xB7);
    case Rs144_128 => Spelled(TagWord(tag), 0xDE, 0x8F, 0xCC, 0x00, 0xA6, 0x60, 0xFF, 0x26);
  }

  lemma SecondTagsSpelled(tag: CorrelationTag)
    requires 2 <= Index(tag) < 4
    ensures WordValue(TagWord(tag)) == TagValue(tag)
  {
    hide WordValue;
    match tag
    case Rs80_64 => Spelled(TagWord(tag), 0x9E, 0xB0, 0xD9, 0xF3, 0x08, 0x05, 0xDC, 0xC7);
    case Rs48_32 => Spelled(TagWord(tag), 0xEE, 0x60, 0x96, 0x36, 0xB4, 0x6E, 0x05, 0x8F);
  }

  lemma ThirdTagsSpelled(tag: CorrelationTag)
    requires 4 <= Index(tag) < 6
    ensures WordValue(TagWord(tag)) == TagValue(tag)
  {
    hide WordValue;
    match tag
    case Rs255_223 => Spelled(TagWord(tag), 0xAE, 0x5F, 0x83, 0xC5, 0x1A, 0x0B, 0x26, 0x6E);
    case Rs160_128 => Spelled(TagWord(tag), 0x4E, 0xFF, 0x1C, 0x4F, 0x63, 0xDC, 0x94, 0xFF);
  }

  lemma FourthTagsSpelled(tag: CorrelationTag)
    requires 6 <= Index(tag) < 8
    ensures WordValue(TagWord(tag)) == TagValue(tag)
  {
    hide WordValue;
    match tag
    case Rs96_64 => Spelled(TagWord(tag), 0x0E, 0xC0, 0x09, 0xBC, 0xCD, 0xB9, 0xB7, 0x1E);
    case Rs64_32 => Spelled(TagWord(tag), 0x76, 0x17, 0xBB, 0x2D, 0xBD, 0x69, 0xF8, 0xDB);
  }

  lemma FifthTagsSpelled(tag: CorrelationTag)
    requires 8 <= Index(tag) < 10
    ensures WordValue(TagWord(tag)) == TagValue(tag)
  {
    hide WordValue;
    match tag
    case Rs255_191 => Spelled(TagWord(tag), 0x36, 0x28, 0xAE, 0xDE, 0x13, 0x0C, 0xDB, 0x3A);
    case Rs192_128 => Spelled(TagWord(tag), 0xD6, 0x88, 0x31, 0x54, 0x6A, 0xDB, 0x69, 0xAB);
  }

  lemma LastTagSpelled(tag: CorrelationTag)
    requires Index(tag) == 10
    ensures WordValue(TagWord(tag)) == TagValue(tag)
  {
    hide WordValue;
    match tag
    case Rs128_64 => Spelled(TagWord(tag), 0x96, 0xB7, 0x24, 0xA7, 0xC4, 0xBE, 0x4A, 0x4A);
  }

  lemma TagSpelled(tag: CorrelationTag)
    ensures WordValue(TagWord(tag)) == TagValue(tag)
  {
    hide TagWord, TagValue, WordValue;
    if Index(tag) < 2 {
      FirstTagsSpelled(tag);
    } else if Index(tag) < 4 {
      SecondTagsSpelled(tag);
    } else if Index(tag) < 6 {
      ThirdTagsSpelled(tag);
    } else if Index(tag) < 8 {
      FourthTagsSpelled(tag);
    } else if Index(tag) < 10 {
      FifthTagsSpelled(tag);
    } else {
      LastTagSpelled(tag);
    }
  }

  // The bits above are the published values, least significant byte first.
  lemma TagBytesSpellValue(tag: CorrelationTag, k: nat)
    requires k < TAG_BYTES
    ensures TagBytes(tag)[k] == ShiftBytes(TagValue(tag), k) % 256
  {
    hide TagWord, TagValue, OctetValue, WordValue;
    TagSpelled(tag);
    WordBytesAreShifts(TagWord(tag), k);
  }

  lemma ShiftJoined(value: nat, k: nat, b: byte, rest: nat)
    requires ShiftBytes(value, k) == Join(b, rest)
    ensures ShiftBytes(value, k) % 256 == b && ShiftBytes(value, k + 1) == rest
  {
  }

  lemma ShiftFour(v: nat, k: nat, b0: byte, b1: byte, b2: byte, b3: byte, rest: nat)
    requires ShiftBytes(v, k) == Join(b0, Join(b1, Join(b2, Join(b3, rest))))
    ensures ShiftBytes(v, k) % 256 == b0 && ShiftBytes(v, k + 1) % 256 == b1
    ensures ShiftBytes(v, k + 2) % 256 == b2 && ShiftBytes(v, k + 3) % 256 == b3
    ensures ShiftBytes(v, k + 4) == rest
  {
    hide ShiftBytes, Join;
    ShiftJoined(v, k, b0, Join(b1, Join(b2, Join(b3, rest))));
    ShiftJoined(v, k + 1, b1, Join(b2, Join(b3, rest)));
    ShiftJoined(v, k + 2, b2, Join(b3, rest));
    ShiftJoined(v, k + 3, b3, rest);
  }

  lemma WordBytesAt(w: Word)
    ensures var b := WordBytes(w);
            && b[0] == OctetValue(w.o0) && b[1] == OctetValue(w.o1) && b[2] == OctetValue(w.o2)
            && b[3] == OctetValue(w.o3) && b[4] == OctetValue(w.o4) && b[5] == OctetValue(w.o5)
            && b[6] == OctetValue(w.o6) && b[7] == OctetValue(w.o7)
  {
    hide OctetValue;
  }

  lemma WordBytesAreShifts(w: Word, k: nat)
    requires k < TAG_BYTES
    ensures WordBytes(w)[k] == ShiftBytes(WordValue(w), k) % 256
  {
    var v := WordValue(w);
    var high := Join(OctetValue(w.o4), Join(OctetValue(w.o5), Join(OctetValue(w.o6), Join(OctetValue(w.o7), 0))));
    assert ShiftBytes(v, 0) == v;
    WordBytesAt(w);
    hide ShiftBytes, Join, OctetValue, WordBytes;
    ShiftFour(v, 0, OctetValue(w.o0), OctetValue(w.o1), OctetValue(w.o2), OctetValue(w.o3), high);
    ShiftFour(v, 4, OctetValue(w.o4), OctetValue(w.o5), OctetValue(w.o6), OctetValue(w.o7), 0);
    hide WordValue;
  }

  // The number that bits spell, least significant first.
  function BitsValue(bits: seq<bool>): nat {
    if bits == [] then 0 else N(bits[0]) + 2 * BitsValue(bits[1..])
  }

  lemma {:induction false} LowBitsOfValue(bits: seq<bool>)
    ensures LowBits(BitsValue(bits), |bits|) == bits
  {
    if bits != [] {
      LowBitsOfValue(bits[1..]);
    }
  }

  function PlaceValue(bits: seq<bool>, i: nat): nat
    requires i < |bits|
  {
    N(bits[i])
  }

  lemma BitsValueFrom(bits: seq<bool>, i: nat)
    requires i < |bits|
    ensures BitsValue(bits[i..]) == PlaceValue(bits, i) + 2 * BitsValue(bits[i + 1..])
  {
    assert bits[i..][1..] == bits[i + 1..];
  }

  lemma FourBitsValue(bits: seq<bool>, i: nat)
    requires i + 4 <= |bits|
    ensures BitsValue(bits[i..]) == PlaceValue(bits, i) + 2 * PlaceValue(bits, i + 1) + 4 * PlaceValue(bits, i + 2)
                                    + 8 * PlaceValue(bits, i + 3) + 16 * BitsValue(bits[i + 4..])
  {
    hide BitsValue, PlaceValue;
    BitsValueFrom(bits, i);
    BitsValueFrom(bits, i + 1);
    BitsValueFrom(bits, i + 2);
    BitsValueFrom(bits, i + 3);
  }

  lemma BitsValueOfEight(bits: seq<bool>)
    requires |bits| == 8
    ensures BitsValue(bits) == PlaceValue(bits, 0) + 2 * PlaceValue(bits, 1) + 4 * PlaceValue(bits, 2)
                               + 8 * PlaceValue(bits, 3) + 16 * PlaceValue(bits, 4) + 32 * PlaceValue(bits, 5)
                               + 64 * PlaceValue(bits, 6) + 128 * PlaceValue(bits, 7)
  {
    assert bits[0..] == bits && bits[8..] == [] && BitsValue([]) == 0;
    hide BitsValue, PlaceValue;
    FourBitsValue(bits, 0);
    FourBitsValue(bits, 4);
  }

  lemma OctetBitsAre(x: TagOctet)
    ensures var b := OctetBits(x);
            && b[0] == x.b0 && b[1] == x.b1 && b[2] == x.b2 && b[3] == x.b3
            && b[4] == x.b4 && b[5] == x.b5 && b[6] == x.b6 && b[7] == x.b7
  {
  }

  lemma PlacesAre(x: TagOctet)
    ensures var b := OctetBits(x);
            && PlaceValue(b, 0) == N(x.b0) && PlaceValue(b, 1) == N(x.b1)
            && PlaceValue(b, 2) == N(x.b2) && PlaceValue(b, 3) == N(x.b3)
            && PlaceValue(b, 4) == N(x.b4) && PlaceValue(b, 5) == N(x.b5)
            && PlaceValue(b, 6) == N(x.b6) && PlaceValue(b, 7) == N(x.b7)
  {
    OctetBitsAre(x);
    hide OctetBits;
  }

  lemma OctetOnAir(x: TagOctet)
    ensures LowBits(OctetValue(x), 8) == OctetBits(x)
  {
    hide LowBits, N, OctetBits, PlaceValue, BitsValue;
    LowBitsOfValue(OctetBits(x));
    BitsValueOfEight(OctetBits(x));
    PlacesAre(x);
  }

  // ---------------------------------------------------------------- distance

  function OctetDistance(x: TagOctet, y: TagOctet): nat {
    Differ(x.b0, y.b0) + Differ(x.b1, y.b1) + Differ(x.b2, y.b2) + Differ(x.b3, y.b3)
    + Differ(x.b4, y.b4) + Differ(x.b5, y.b5) + Differ(x.b6, y.b6) + Differ(x.b7, y.b7)
  }

  function WordDistance(x: Word, y: Word): nat {
    OctetDistance(x.o0, y.o0) + OctetDistance(x.o1, y.o1) + OctetDistance(x.o2, y.o2) + OctetDistance(x.o3, y.o3)
    + OctetDistance(x.o4, y.o4) + OctetDistance(x.o5, y.o5) + OctetDistance(x.o6, y.o6) + OctetDistance(x.o7, y.o7)
  }

  lemma NoDistance()
    ensures Distance([], []) == 0
  {
  }

  function DifferAt(a: seq<bool>, b: seq<bool>, i: nat): nat
    requires i < |a| == |b|
  {
    Differ(a[i], b[i])
  }

  lemma DistanceFrom(a: seq<bool>, b: seq<bool>, i: nat)
    requires i < |a| == |b|
    ensures Distance(a[i..], b[i..]) == DifferAt(a, b, i) + Distance(a[i + 1..], b[i + 1..])
  {
    hide Distance;
    assert a[i..] == [a[i]] + a[i + 1..] && b[i..] == [b[i]] + b[i + 1..];
    DistanceAppend([a[i]], [b[i]], a[i + 1..], b[i + 1..]);
    DistanceOfOne(a[i], b[i]);
  }

  lemma DistanceOfEight(a: seq<bool>, b: seq<bool>)
    requires |a| == |b| == 8
    ensures Distance(a, b) == DifferAt(a, b, 0) + DifferAt(a, b, 1) + DifferAt(a, b, 2) + DifferAt(a, b, 3)
                              + DifferAt(a, b, 4) + DifferAt(a, b, 5) + DifferAt(a, b, 6) + DifferAt(a, b, 7)
  {
    hide Distance, DifferAt;
    assert a[0..] == a && b[0..] == b && a[8..] == [] && b[8..] == [];
    DistanceFrom(a, b, 0);
    DistanceFrom(a, b, 1);
    DistanceFrom(a, b, 2);
    DistanceFrom(a, b, 3);
    DistanceFrom(a, b, 4);
    DistanceFrom(a, b, 5);
    DistanceFrom(a, b, 6);
    DistanceFrom(a, b, 7);
    NoDistance();
  }

  lemma DifferencesAre(x: TagOctet, y: TagOctet)
    ensures var a, b := OctetBits(x), OctetBits(y);
            && DifferAt(a, b, 0) == Differ(x.b0, y.b0) && DifferAt(a, b, 1) == Differ(x.b1, y.b1)
            && DifferAt(a, b, 2) == Differ(x.b2, y.b2) && DifferAt(a, b, 3) == Differ(x.b3, y.b3)
            && DifferAt(a, b, 4) == Differ(x.b4, y.b4) && DifferAt(a, b, 5) == Differ(x.b5, y.b5)
            && DifferAt(a, b, 6) == Differ(x.b6, y.b6) && DifferAt(a, b, 7) == Differ(x.b7, y.b7)
  {
    OctetBitsAre(x);
    OctetBitsAre(y);
    hide OctetBits;
  }

  lemma DistanceOfOctets(x: TagOctet, y: TagOctet)
    ensures Distance(OctetBits(x), OctetBits(y)) == OctetDistance(x, y)
  {
    hide Distance, Differ, DifferAt, OctetBits;
    DistanceOfEight(OctetBits(x), OctetBits(y));
    DifferencesAre(x, y);
  }

  // A byte string against another: octet by octet.
  lemma DistanceByOctet(x: TagOctet, xs: seq<byte>, y: TagOctet, ys: seq<byte>)
    requires |xs| == |ys|
    ensures Distance(AirBits([OctetValue(x)] + xs), AirBits([OctetValue(y)] + ys))
         == OctetDistance(x, y) + Distance(AirBits(xs), AirBits(ys))
  {
    OctetOnAir(x);
    OctetOnAir(y);
    hide OctetValue, OctetBits;
    AirBitsHead(OctetValue(x), xs);
    AirBitsHead(OctetValue(y), ys);
    DistanceOfOctets(x, y);
    hide AirBits, LowBits, Distance, OctetDistance;
    DistanceAppend(LowBits(OctetValue(x), 8), LowBits(OctetValue(y), 8), AirBits(xs), AirBits(ys));
  }

  lemma AirBitsHead(b: byte, bytes: seq<byte>)
    ensures AirBits([b] + bytes) == LowBits(b, 8) + AirBits(bytes)
  {
    assert ([b] + bytes)[1..] == bytes;
  }

  lemma DistanceFromOctet(a: seq<byte>, b: seq<byte>, k: nat, x: TagOctet, y: TagOctet)
    requires k < |a| == |b| && a[k] == OctetValue(x) && b[k] == OctetValue(y)
    ensures Distance(AirBits(a[k..]), AirBits(b[k..]))
         == OctetDistance(x, y) + Distance(AirBits(a[k + 1..]), AirBits(b[k + 1..]))
  {
    hide OctetValue, OctetDistance, AirBits, Distance;
    assert a[k..] == [a[k]] + a[k + 1..] && b[k..] == [b[k]] + b[k + 1..];
    DistanceByOctet(x, a[k + 1..], y, b[k + 1..]);
  }

  lemma NothingLeft(bytes: seq<byte>)
    requires |bytes| == TAG_BYTES
    ensures bytes[8..] == []
  {
  }

  lemma DistanceOfHighOctets(x: Word, y: Word)
    ensures Distance(AirBits(WordBytes(x)[4..]), AirBits(WordBytes(y)[4..]))
         == OctetDistance(x.o4, y.o4) + OctetDistance(x.o5, y.o5)
            + OctetDistance(x.o6, y.o6) + OctetDistance(x.o7, y.o7)
  {
    hide OctetValue, OctetDistance, AirBits, Distance, WordBytes;
    var a, b := WordBytes(x), WordBytes(y);
    WordBytesAt(x);
    WordBytesAt(y);
    NothingLeft(a);
    NothingLeft(b);
    DistanceFromOctet(a, b, 4, x.o4, y.o4);
    DistanceFromOctet(a, b, 5, x.o5, y.o5);
    DistanceFromOctet(a, b, 6, x.o6, y.o6);
    DistanceFromOctet(a, b, 7, x.o7, y.o7);
    NoAir();
    NoDistance();
  }

  lemma DistanceOfLowOctets(x: Word, y: Word)
    ensures Distance(AirBits(WordBytes(x)[0..]), AirBits(WordBytes(y)[0..]))
         == OctetDistance(x.o0, y.o0) + OctetDistance(x.o1, y.o1)
            + OctetDistance(x.o2, y.o2) + OctetDistance(x.o3, y.o3)
            + Distance(AirBits(WordBytes(x)[4..]), AirBits(WordBytes(y)[4..]))
  {
    WordBytesAt(x);
    WordBytesAt(y);
    hide OctetValue, OctetDistance, AirBits, Distance, WordBytes;
    var a, b := WordBytes(x), WordBytes(y);
    DistanceFromOctet(a, b, 0, x.o0, y.o0);
    DistanceFromOctet(a, b, 1, x.o1, y.o1);
    DistanceFromOctet(a, b, 2, x.o2, y.o2);
    DistanceFromOctet(a, b, 3, x.o3, y.o3);
  }

  lemma DistanceOfWords(x: Word, y: Word)
    ensures Distance(AirBits(WordBytes(x)), AirBits(WordBytes(y))) == WordDistance(x, y)
  {
    assert WordBytes(x)[0..] == WordBytes(x) && WordBytes(y)[0..] == WordBytes(y);
    hide OctetValue, OctetDistance, AirBits, Distance, WordBytes;
    DistanceOfLowOctets(x, y);
    DistanceOfHighOctets(x, y);
  }

  lemma NoAir()
    ensures AirBits([]) == []
  {
  }

  lemma FirstTagsApart(a: CorrelationTag, b: CorrelationTag)
    requires Index(a) < 2 && Index(a) < Index(b)
    ensures WordDistance(TagWord(a), TagWord(b)) == 32
  {
  }

  lemma MiddleTagsApart(a: CorrelationTag, b: CorrelationTag)
    requires 2 <= Index(a) < 4 && Index(a) < Index(b)
    ensures WordDistance(TagWord(a), TagWord(b)) == 32
  {
  }

  lemma LastTagsApart(a: CorrelationTag, b: CorrelationTag)
    requires 4 <= Index(a) < Index(b)
    ensures WordDistance(TagWord(a), TagWord(b)) == 32
  {
  }

  lemma LaterTagsApart(a: CorrelationTag, b: CorrelationTag)
    requires Index(a) < Index(b)
    ensures WordDistance(TagWord(a), TagWord(b)) == 32
  {
    hide TagWord, WordDistance;
    if Index(a) < 2 {
      FirstTagsApart(a, b);
    } else if Index(a) < 4 {
      MiddleTagsApart(a, b);
    } else {
      LastTagsApart(a, b);
    }
  }

  // Every two tags differ in exactly half of their 64 bits.
  lemma TagsApart(a: CorrelationTag, b: CorrelationTag)
    requires a != b
    ensures Distance(TagBits(a), TagBits(b)) == 32
  {
    hide TagWord, WordDistance;
    if Index(a) < Index(b) {
      LaterTagsApart(a, b);
      DistanceOfWords(TagWord(a), TagWord(b));
    } else {
      LaterTagsApart(b, a);
      DistanceOfWords(TagWord(b), TagWord(a));
      DistanceSymmetric(TagBits(a), TagBits(b));
    }
  }

  // ---------------------------------------------------------------- the tolerant match

  function FirstNear(tags: seq<CorrelationTag>, accum: seq<bool>): Option<CorrelationTag>
    requires |accum| == 64
    decreases tags, accum
  {
    if tags == [] then None
    else if Distance(accum, TagBits(tags[0])) <= TAG_TOLERANCE then Some(tags[0])
    else FirstNear(tags[1..], accum)
  }

  function MatchTag(accum: seq<bool>): Option<CorrelationTag>
    requires |accum| == 64
  {
    FirstNear(ALL, accum)
  }

  // Two tags are never both near.
  lemma OnlyOneNear(accum: seq<bool>, tag: CorrelationTag, other: CorrelationTag)
    requires |accum| == 64 && Distance(accum, TagBits(tag)) <= TAG_TOLERANCE
    requires Distance(accum, TagBits(other)) <= TAG_TOLERANCE
    ensures other == tag
  {
    hide TagBits, Distance;
    if other != tag {
      TagsApart(tag, other);
      TriangleInequality(TagBits(tag), accum, TagBits(other));
      DistanceSymmetric(TagBits(tag), accum);
    }
  }

  lemma {:induction false} NearIsFound(tags: seq<CorrelationTag>, accum: seq<bool>, tag: CorrelationTag)
    requires |accum| == 64
    ensures tag in tags && Distance(accum, TagBits(tag)) <= TAG_TOLERANCE ==> FirstNear(tags, accum) == Some(tag)
    ensures FirstNear(tags, accum) == Some(tag) ==> Distance(accum, TagBits(tag)) <= TAG_TOLERANCE
  {
    hide TagBits, Distance;
    if tags != [] {
      NearIsFound(tags[1..], accum, tag);
      if Distance(accum, TagBits(tag)) <= TAG_TOLERANCE && Distance(accum, TagBits(tags[0])) <= TAG_TOLERANCE {
        OnlyOneNear(accum, tag, tags[0]);
      }
    }
  }

  lemma AllHas(tag: CorrelationTag)
    ensures tag in ALL
  {
    assert ALL[Index(tag)] == tag;
  }

  // The receiver reads a tag exactly when the word is within the tolerance of it:
  // order plays no part, and no word is read as two.
  lemma MatchIsExact(accum: seq<bool>, tag: CorrelationTag)
    requires |accum| == 64
    ensures MatchTag(accum) == Some(tag) <==> Distance(accum, TagBits(tag)) <= 8
  {
    AllHas(tag);
    hide TagBits, Distance, FirstNear;
    NearIsFound(ALL, accum, tag);
  }
}
