/**
 * The FX.25 receive path up to the Reed-Solomon decoder: hunting for a tag in a
 * sliding 64-bit window, then collecting the block that the tag announced.
 */
module Fx25Receiving {
  import opened Prelude
  import opened Arith
  import opened Fx25Tags
  import opened Hamming
  import opened Fx25

  // ---------------------------------------------------------------- the batch reading

  // What a full window is read as, if as anything.
  type Matcher = seq<bool> -> Option<CorrelationTag>

  datatype Lock = Lock(at: nat, tag: CorrelationTag)

  // Where, in a stream heard from a reset, the hunter first locks: after which
  // bit, at least 64 in, the last 64 are near a tag.
  function FirstLock(near: Matcher, bits: seq<bool>): (lock: Option<Lock>)
    ensures lock.Some? ==> 64 <= lock.value.at <= |bits|
  {
    if |bits| < 64 then None
    else
      var before := FirstLock(near, bits[..|bits| - 1]);
      if before.Some? then before
      else
        match near(bits[|bits| - 64..])
        case None => None
        case Some(tag) => Some(Lock(|bits|, tag))
  }

  function BytesOf(bits: seq<bool>): (bytes: seq<byte>)
    ensures |bytes| == |bits| / 8
  {
    seq(|bits| / 8, k requires 0 <= k < |bits| / 8 => ByteValue(bits[8 * k..8 * k + 8]))
  }

  function ByteValue(bits: seq<bool>): byte
    requires |bits| <= 8
  {
    BitsValueFits(bits);
    BitsValue(bits)
  }

  lemma {:induction false} BitsValueFits(bits: seq<bool>)
    ensures BitsValue(bits) < Pow2(|bits|)
    ensures |bits| <= 8 ==> BitsValue(bits) < 256
  {
    assert Pow2(8) == 256;
    if bits != [] {
      BitsValueFits(bits[1..]);
      PowGrows(|bits|);
    }
  }

  lemma PowGrows(n: nat)
    ensures n <= 8 ==> Pow2(n) <= 256
  {
    PowersUpToEight(n);
  }

  lemma {:induction false} PowersUpToEight(n: nat)
    ensures n <= 8 ==> Pow2(n) * Pow2(8 - n) == 256
  {
    if n <= 8 {
      Pow2Add(n, 8 - n);
      assert Pow2(8) == 256;
    }
  }

  // The byte of the full word at `i`: data at the front, parity behind the zero
  // suffix, zero where nothing has been received yet.
  function ByteAt(tag: CorrelationTag, bytes: seq<byte>, i: nat): byte {
    if i < DataLen(tag) then (if i < |bytes| then bytes[i] else 0)
    else if i < RsDataLen(tag) then 0
    else if i - RsDataLen(tag) + DataLen(tag) < |bytes| then bytes[i - RsDataLen(tag) + DataLen(tag)]
    else 0
  }

  // Received bytes in their places in the full word.
  function Place(tag: CorrelationTag, bytes: seq<byte>): (word: seq<byte>)
    ensures |word| == BLOCK_MAX
  {
    seq(BLOCK_MAX, i requires 0 <= i < BLOCK_MAX => ByteAt(tag, bytes, i))
  }

  datatype Block = Block(tag: CorrelationTag, word: seq<byte>)

  // The bit after the last one of the block that a lock announces.
  function BlockEnd(lock: Lock): nat {
    lock.at + 8 * BlockLen(lock.tag)
  }

  // What the decoder is handed when the block is in.
  function BlockAt(bits: seq<bool>, lock: Lock): Block
    requires lock.at <= |bits|
  {
    Block(lock.tag, Place(lock.tag, BytesOf(bits[lock.at..])))
  }

  // Everything a stream heard from a reset hands to the decoder.
  function Blocks(near: Matcher, bits: seq<bool>): seq<Block>
    decreases |bits|
  {
    match FirstLock(near, bits)
    case None => []
    case Some(lock) =>
      if |bits| < BlockEnd(lock) then []
      else [BlockAt(bits[..BlockEnd(lock)], lock)] + Blocks(near, bits[BlockEnd(lock)..])
  }

  // What has been heard since the last completed block.
  function Tail(near: Matcher, bits: seq<bool>): seq<bool>
    decreases |bits|
  {
    match FirstLock(near, bits)
    case None => bits
    case Some(lock) => if |bits| < BlockEnd(lock) then bits else Tail(near, bits[BlockEnd(lock)..])
  }

  // ---------------------------------------------------------------- one bit more

  lemma FirstLockSnoc(near: Matcher, bits: seq<bool>, b: bool)
    ensures FirstLock(near, bits + [b]) ==
            if FirstLock(near, bits).Some? then FirstLock(near, bits)
            else if |bits| < 63 then None
            else
              match near((bits + [b])[|bits| - 63..])
              case None => None
              case Some(tag) => Some(Lock(|bits| + 1, tag))
  {
    assert (bits + [b])[..|bits|] == bits;
  }

  lemma {:induction false} FirstLockAppend(near: Matcher, bits: seq<bool>, more: seq<bool>)
    requires FirstLock(near, bits).Some?
    ensures FirstLock(near, bits + more) == FirstLock(near, bits)
  {
    hide FirstLock;
    if more == [] {
      assert bits + more == bits;
    } else {
      var n := |more| - 1;
      FirstLockAppend(near, bits, more[..n]);
      assert bits + more == (bits + more[..n]) + [more[n]];
      FirstLockSnoc(near, bits + more[..n], more[n]);
    }
  }

  // The event, if any, that the last of these bits raises.
  function EndEvent(near: Matcher, bits: seq<bool>): seq<Block> {
    match FirstLock(near, bits)
    case None => []
    case Some(lock) => if |bits| == BlockEnd(lock) then [BlockAt(bits, lock)] else []
  }

  predicate Complete(near: Matcher, bits: seq<bool>) {
    FirstLock(near, bits).Some? && |bits| >= BlockEnd(FirstLock(near, bits).value)
  }

  lemma WhenComplete(near: Matcher, bits: seq<bool>)
    requires Complete(near, bits)
    ensures var lock := FirstLock(near, bits).value;
            var end := BlockEnd(lock);
            && Blocks(near, bits) == [BlockAt(bits[..end], lock)] + Blocks(near, bits[end..])
            && Tail(near, bits) == Tail(near, bits[end..])
  {
    hide BlockAt;
  }

  lemma WhenOpen(near: Matcher, bits: seq<bool>)
    requires !Complete(near, bits)
    ensures Blocks(near, bits) == [] && Tail(near, bits) == bits
  {
    hide BlockAt;
  }

  lemma OpenSnoc(near: Matcher, bits: seq<bool>, b: bool)
    requires !Complete(near, bits)
    ensures Blocks(near, bits + [b]) == Blocks(near, bits) + EndEvent(near, bits + [b])
    ensures Tail(near, bits + [b]) == if EndEvent(near, bits + [b]) != [] then [] else bits + [b]
    ensures Tail(near, bits) == bits
  {
    var all := bits + [b];
    WhenOpen(near, bits);
    FirstLockSnoc(near, bits, b);
    NothingHeard(near);
    hide FirstLock, Blocks, Tail, BlockAt;
    if Complete(near, all) {
      WhenComplete(near, all);
      assert all[..|all|] == all && all[|all|..] == [];
    } else {
      WhenOpen(near, all);
    }
  }

  // A stream that hears `b` next hands over what `b` completes, if anything, and
  // the completed block is then forgotten.
  lemma {:induction false} BlocksSnoc(near: Matcher, bits: seq<bool>, b: bool)
    ensures Blocks(near, bits + [b]) == Blocks(near, bits) + EndEvent(near, Tail(near, bits) + [b])
    ensures Tail(near, bits + [b])
         == if EndEvent(near, Tail(near, bits) + [b]) != [] then [] else Tail(near, bits) + [b]
    decreases |bits|
  {
    hide FirstLock, Blocks, Tail, BlockAt, EndEvent;
    var all := bits + [b];
    if Complete(near, bits) {
      FirstLockAppend(near, bits, [b]);
      var end := BlockEnd(FirstLock(near, bits).value);
      assert all[..end] == bits[..end] && all[end..] == bits[end..] + [b];
      WhenComplete(near, bits);
      WhenComplete(near, all);
      BlocksSnoc(near, bits[end..], b);
    } else {
      OpenSnoc(near, bits, b);
    }
  }

  lemma NothingHeard(near: Matcher)
    ensures Blocks(near, []) == [] && Tail(near, []) == []
  {
  }

  // Whatever follows a stream is read after what it has left unfinished.
  lemma {:induction false} BlocksAppend(near: Matcher, heard: seq<bool>, more: seq<bool>)
    ensures Blocks(near, heard + more) == Blocks(near, heard) + Blocks(near, Tail(near, heard) + more)
    decreases |heard|
  {
    hide FirstLock, Blocks, Tail, BlockAt;
    if Complete(near, heard) {
      var end, all := BlockEnd(FirstLock(near, heard).value), heard + more;
      FirstLockAppend(near, heard, more);
      assert all[..end] == heard[..end] && all[end..] == heard[end..] + more;
      WhenComplete(near, heard);
      WhenComplete(near, all);
      BlocksAppend(near, heard[end..], more);
    } else {
      WhenOpen(near, heard);
    }
  }

  lemma {:induction false} TailIsOpen(near: Matcher, bits: seq<bool>)
    ensures !Complete(near, Tail(near, bits))
    decreases |bits|
  {
    hide FirstLock, Blocks, Tail;
    if Complete(near, bits) {
      WhenComplete(near, bits);
      TailIsOpen(near, bits[BlockEnd(FirstLock(near, bits).value)..]);
    } else {
      WhenOpen(near, bits);
    }
  }

  // ---------------------------------------------------------------- bytes in their places

  lemma BytesOfSnoc(c: seq<bool>, b: bool)
    ensures BytesOf(c + [b]) == BytesOf(c) + (if |c| % 8 == 7 then [ByteValue((c + [b])[|c| - 7..])] else [])
  {
    var all := c + [b];
    forall k | 0 <= k < |c| / 8
      ensures all[8 * k..8 * k + 8] == c[8 * k..8 * k + 8]
    {
    }
    if |c| % 8 == 7 {
      assert 8 * (|c| / 8) == |c| - 7;
      assert all[|c| - 7..|c| + 1] == all[|c| - 7..];
    }
  }

  lemma {:induction false} BitsValueSnoc(bits: seq<bool>, b: bool)
    ensures BitsValue(bits + [b]) == BitsValue(bits) + N(b) * Pow2(|bits|)
  {
    if bits == [] {
      assert [b][1..] == [] && bits + [b] == [b];
    } else {
      BitsValueSnoc(bits[1..], b);
      assert (bits + [b])[1..] == bits[1..] + [b];
    }
  }

  // The bits of the byte being assembled.
  function Partial(c: seq<bool>): (bits: seq<bool>)
    ensures |bits| == |c| % 8
  {
    c[|c| - |c| % 8..]
  }

  // `cur |= 1 << nbits`, the bit being clear.
  function WithBit(cur: byte, nbits: nat, b: bool): nat {
    cur + N(b) * Pow2(nbits)
  }

  lemma PartialSnoc(c: seq<bool>, b: bool)
    ensures WithBit(ByteValue(Partial(c)), |c| % 8, b) == BitsValue(Partial(c) + [b]) < 256
    ensures |c| % 8 < 7 ==> Partial(c + [b]) == Partial(c) + [b] && BytesOf(c + [b]) == BytesOf(c)
    ensures |c| % 8 == 7 ==> Partial(c + [b]) == [] && BytesOf(c + [b]) == BytesOf(c) + [ByteValue(Partial(c) + [b])]
  {
    var p, all := Partial(c), c + [b];
    BitsValueSnoc(p, b);
    BitsValueFits(p + [b]);
    BytesOfSnoc(c, b);
    assert ByteValue(p) == BitsValue(p);
    hide BitsValue, ByteValue, BytesOf;
    if |c| % 8 == 7 {
      assert all[|c| - 7..] == p + [b];
    } else {
      var k := |c| - |c| % 8;
      assert |all| - |all| % 8 == k && all[k..] == c[k..] + [b];
      assert BytesOf(c) + [] == BytesOf(c);
    }
  }

  // Where the next byte of a block goes in the full word.
  function SlotOf(tag: CorrelationTag, count: nat): nat {
    if count < DataLen(tag) then count else RsDataLen(tag) + (count - DataLen(tag))
  }

  lemma PlaceSnoc(tag: CorrelationTag, bytes: seq<byte>, v: byte)
    requires |bytes| < BlockLen(tag)
    ensures SlotOf(tag, |bytes|) < BLOCK_MAX
    ensures Place(tag, bytes + [v]) == Place(tag, bytes)[SlotOf(tag, |bytes|) := v]
  {
    Sizes(tag);
    hide DataLen, ParityLen;
  }

  lemma PlaceNothing(tag: CorrelationTag)
    ensures forall i :: 0 <= i < BLOCK_MAX ==> Place(tag, [])[i] == 0
  {
  }

  // ---------------------------------------------------------------- the machine

  // The hunter's own matcher.
  function Tags(): Matcher {
    w => if |w| == 64 then MatchTag(w) else None
  }

  datatype RxState = Hunt | Collect(tag: CorrelationTag, count: nat, nbits: nat, cur: byte)

  // The correlation window, oldest bit first, and what it is once it is full.
  lemma WindowSlides(t: seq<bool>, b: bool)
    ensures var w := (Repeat(64, false) + t)[|t|..][1..] + [b];
            && w == (Repeat(64, false) + (t + [b]))[|t| + 1..]
            && (|t| >= 63 ==> w == (t + [b])[|t| - 63..])
  {
  }

  /**
   * The source's hunter and collector. `heard` is every bit pushed; `Valid` says
   * that the machine's fields are what the batch reading of `heard` calls for,
   * and `Push` hands over exactly what the new bit adds to that reading.
   */
  class TagHunter {
    var accum: seq<bool> // least significant bit first; the newest bit is last
    var seen: nat
    var state: RxState
    const block: array<byte>
    ghost var heard: seq<bool>

    constructor ()
      ensures Valid() && fresh(block) && heard == []
    {
      accum := Repeat(64, false);
      seen := 0;
      state := Hunt;
      block := new byte[BLOCK_MAX](_ => 0);
      heard := [];
      new;
      NothingHeard(Tags());
    }

    ghost predicate Hunting(t: seq<bool>)
      reads this`accum, this`seen, this`state
    {
      && state == Hunt && accum == (Repeat(64, false) + t)[|t|..]
      && seen == if |t| < U32_MAX then |t| else U32_MAX
    }

    ghost predicate Collecting(tag: CorrelationTag, c: seq<bool>)
      reads this`state, block
    {
      && state == Collect(tag, |c| / 8, |c| % 8, ByteValue(Partial(c)))
      && block[..] == Place(tag, BytesOf(c))
    }

    ghost predicate Follows(t: seq<bool>)
      reads this`accum, this`seen, this`state, block
    {
      && block.Length == BLOCK_MAX && |accum| == 64
      && match FirstLock(Tags(), t)
         case None => Hunting(t)
         case Some(lock) => Collecting(lock.tag, t[lock.at..])
    }

    ghost predicate Valid()
      reads this, block
    {
      Follows(Tail(Tags(), heard))
    }

    // A bit while hunting: the window slides, and a near tag locks.
    method HuntBit(bit: bool, ghost t: seq<bool>)
      requires Follows(t) && FirstLock(Tags(), t).None?
      modifies this`accum, this`seen, this`state, block
      ensures Follows(t + [bit]) && EndEvent(Tags(), t + [bit]) == []
    {
      hide MatchTag, FirstLock, Repeat;
      FirstLockSnoc(Tags(), t, bit);
      WindowSlides(t, bit);
      accum := accum[1..] + [bit];
      seen := if seen < U32_MAX then seen + 1 else U32_MAX;
      if seen >= 64 {
        var tag := MatchTag(accum);
        if tag.Some? {
          Begin(tag.value, t + [bit]);
        }
      }
    }

    method Begin(tag: CorrelationTag, ghost t: seq<bool>)
      requires block.Length == BLOCK_MAX && |accum| == 64
      requires FirstLock(Tags(), t) == Some(Lock(|t|, tag))
      modifies this`state, block
      ensures Follows(t) && EndEvent(Tags(), t) == []
    {
      hide MatchTag, FirstLock, Tags;
      forall i | 0 <= i < BLOCK_MAX {
        block[i] := 0;
      }
      PlaceNothing(tag);
      Sizes(tag);
      state := Collect(tag, 0, 0, 0);
      assert t[|t|..] == [];
    }

    // One bit into the byte being assembled, and a whole byte into its slot.
    method Assemble(bit: bool, ghost c: seq<bool>)
      requires state.Collect? && block.Length == BLOCK_MAX
      requires Collecting(state.tag, c) && |c| < 8 * BlockLen(state.tag)
      modifies this`state, block
      ensures state.Collect? && state.tag == old(state.tag) && Collecting(state.tag, c + [bit])
    {
      var Collect(tag, count, nbits, cur) := state;
      PartialSnoc(c, bit);
      hide BitsValue, BytesOf, Place, Pow2, DataLen, ParityLen, Partial;
      cur := WithBit(cur, nbits, bit);
      nbits := nbits + 1;
      if nbits == 8 {
        PlaceSnoc(tag, BytesOf(c), cur);
        block[SlotOf(tag, count)] := cur;
        count, nbits, cur := count + 1, 0, 0;
        NoValue();
      }
      state := Collect(tag, count, nbits, cur);
    }

    lemma FollowsCollecting(t: seq<bool>, lock: Lock)
      requires FirstLock(Tags(), t) == Some(lock)
      ensures Follows(t) <==> block.Length == BLOCK_MAX && |accum| == 64 && Collecting(lock.tag, t[lock.at..])
    {
      hide FirstLock, Tags;
    }

    lemma FollowsReset()
      requires block.Length == BLOCK_MAX && accum == Repeat(64, false) && seen == 0 && state == Hunt
      ensures Follows([])
    {
      NothingHeard(Tags());
      hide Tags;
    }

    // A bit of a block: the last one hands the block over and resets the hunter.
    method CollectBit(bit: bool, ghost t: seq<bool>, ghost lock: Lock) returns (event: Option<Block>)
      requires Follows(t) && FirstLock(Tags(), t) == Some(lock) && |t| < BlockEnd(lock)
      modifies this`accum, this`seen, this`state, block
      ensures EndEvent(Tags(), t + [bit]) == if event.None? then [] else [event.value]
      ensures Follows(if event.None? then t + [bit] else [])
    {
      hide FirstLock, Tags, Follows, Place, Partial, ByteValue, BytesOf, BlockLen;
      FollowsCollecting(t, lock);
      FirstLockAppend(Tags(), t, [bit]);
      assert (t + [bit])[lock.at..] == t[lock.at..] + [bit];
      Assemble(bit, t[lock.at..]);
      CountTells(|t[lock.at..] + [bit]|, BlockLen(lock.tag));
      if state.count == BlockLen(state.tag) {
        event := Some(Block(state.tag, block[..]));
        accum := Repeat(64, false);
        seen := 0;
        state := Hunt;
        FollowsReset();
      } else {
        event := None;
        FollowsCollecting(t + [bit], lock);
      }
    }

    method Push(bit: bool) returns (event: Option<Block>)
      requires Valid()
      modifies this, block
      ensures Valid() && heard == old(heard) + [bit]
      ensures Blocks(Tags(), heard) == Blocks(Tags(), old(heard)) + (if event.None? then [] else [event.value])
    {
      hide MatchTag, FirstLock, Follows, Blocks, Tail, EndEvent, Tags;
      ghost var t := Tail(Tags(), heard);
      BlocksSnoc(Tags(), heard, bit);
      TailIsOpen(Tags(), heard);
      StateTellsLock(t);
      heard := heard + [bit];
      match state {
        case Hunt =>
          HuntBit(bit, t);
          event := None;
        case Collect(_, _, _, _) =>
          event := CollectBit(bit, t, FirstLock(Tags(), t).value);
      }
    }

    // Nothing locks before 64 bits have been heard since the last reset.
    lemma HuntsFor64()
      requires Valid() && |Tail(Tags(), heard)| < 64
      ensures state == Hunt
    {
      ShortNeverLocks(Tags(), Tail(Tags(), heard));
      hide FirstLock, Tail, Tags;
    }

    lemma StateTellsLock(t: seq<bool>)
      requires Follows(t)
      ensures state.Hunt? <==> FirstLock(Tags(), t).None?
    {
      hide FirstLock, Tags;
    }
  }

  lemma CountTells(n: nat, blockLen: nat)
    requires n <= 8 * blockLen
    ensures n / 8 == blockLen <==> n == 8 * blockLen
  {
  }

  lemma NoValue()
    ensures ByteValue([]) == 0
  {
  }

  // ---------------------------------------------------------------- from transmitter to receiver

  lemma {:induction false} LowBitsValue(v: nat, n: nat)
    requires v < Pow2(n)
    ensures BitsValue(LowBits(v, n)) == v
    decreases n
  {
    if n > 0 {
      LowBitsValue(v / 2, n - 1);
      assert LowBits(v, n)[1..] == LowBits(v / 2, n - 1);
    }
  }

  lemma ByteOnAir(b: byte)
    ensures ByteValue(LowBits(b, 8)) == b
  {
    assert Pow2(8) == 256;
    LowBitsValue(b, 8);
  }

  lemma {:induction false} AirByte(bytes: seq<byte>, k: nat)
    requires k < |bytes|
    ensures AirBits(bytes)[8 * k..8 * k + 8] == LowBits(bytes[k], 8)
  {
    hide LowBits;
    if k > 0 {
      AirByte(bytes[1..], k - 1);
      var rest := AirBits(bytes[1..]);
      assert AirBits(bytes)[8 * k..8 * k + 8] == rest[8 * (k - 1)..8 * (k - 1) + 8];
    }
  }

  // The receiver reassembles the bytes that were sent.
  lemma BytesOfAir(bytes: seq<byte>)
    ensures BytesOf(AirBits(bytes)) == bytes
  {
    hide AirBits, LowBits, ByteValue;
    forall k | 0 <= k < |bytes|
      ensures BytesOf(AirBits(bytes))[k] == bytes[k]
    {
      AirByte(bytes, k);
      ByteOnAir(bytes[k]);
    }
  }

  lemma PlaceWhole(tag: CorrelationTag, data: seq<byte>, parity: seq<byte>)
    requires |data| == DataLen(tag) && |parity| == ParityLen(tag)
    ensures Place(tag, data + parity) == data + Repeat(RsDataLen(tag) - DataLen(tag), 0) + parity
  {
    Sizes(tag);
    hide DataLen, ParityLen;
  }

  ghost predicate NearTag(bits: seq<bool>, tag: CorrelationTag) {
    |bits| == 64 && Distance(bits, TagBits(tag)) <= 8
  }

  lemma ShortNeverLocks(near: Matcher, bits: seq<bool>)
    requires |bits| < 64
    ensures FirstLock(near, bits).None?
  {
  }

  lemma LocksAt64(near: Matcher, bits: seq<bool>, tag: CorrelationTag)
    requires |bits| == 64 && near(bits) == Some(tag)
    ensures FirstLock(near, bits) == Some(Lock(64, tag))
  {
    ShortNeverLocks(near, bits[..|bits| - 1]);
    assert bits[|bits| - 64..] == bits;
  }

  lemma TagsRead(sent: seq<bool>, tag: CorrelationTag)
    requires NearTag(sent, tag)
    ensures |sent| == 64 && Tags()(sent) == Some(tag)
  {
    hide MatchTag, Distance, TagBits;
    MatchIsExact(sent, tag);
  }

  // From a reset, a tag with at most eight bits wrong locks the right tag at its
  // last bit.
  lemma TagLocks(sent: seq<bool>, tag: CorrelationTag)
    requires NearTag(sent, tag)
    ensures FirstLock(Tags(), sent) == Some(Lock(64, tag))
  {
    TagsRead(sent, tag);
    hide *;
    LocksAt64(Tags(), sent, tag);
  }

  // What comes before a tag is never mistaken for one, alone or together with the
  // tag's first bits.
  ghost predicate Unmistaken(lead: seq<bool>, sent: seq<bool>)
    requires |sent| == 64
  {
    FirstLock(Tags(), lead + sent[..63]).None?
  }

  lemma NoLead(sent: seq<bool>)
    requires |sent| == 64
    ensures Unmistaken([], sent)
  {
    assert [] + sent[..63] == sent[..63];
    ShortNeverLocks(Tags(), sent[..63]);
  }

  lemma LocksAfterLead(near: Matcher, lead: seq<bool>, sent: seq<bool>, tag: CorrelationTag)
    requires |sent| == 64 && near(sent) == Some(tag) && FirstLock(near, lead + sent[..63]).None?
    ensures FirstLock(near, lead + sent) == Some(Lock(|lead + sent|, tag))
  {
    var before := lead + sent[..63];
    assert lead + sent == before + [sent[63]];
    assert (before + [sent[63]])[|before| - 63..] == sent;
    hide FirstLock;
    FirstLockSnoc(near, before, sent[63]);
  }

  // However it was led up to, a tag locks itself at its last bit.
  lemma TagLocksAfter(lead: seq<bool>, sent: seq<bool>, tag: CorrelationTag)
    requires NearTag(sent, tag) && Unmistaken(lead, sent)
    ensures FirstLock(Tags(), lead + sent) == Some(Lock(|lead + sent|, tag))
  {
    hide Tags, FirstLock, NearTag;
    TagsRead(sent, tag);
    LocksAfterLead(Tags(), lead, sent, tag);
  }

  lemma CutOut(a: seq<bool>, b: seq<bool>, c: seq<bool>)
    ensures a + b + c == a + (b + c)
    ensures (a + b + c)[..|a| + |b|][|a|..] == b && (a + b + c)[|a| + |b|..] == c
  {
  }

  lemma BlockAfterLock(near: Matcher, sent: seq<bool>, tag: CorrelationTag, bytes: seq<byte>, rest: seq<bool>)
    requires FirstLock(near, sent) == Some(Lock(|sent|, tag)) && |bytes| == BlockLen(tag)
    ensures Blocks(near, sent + AirBits(bytes) + rest) == [Block(tag, Place(tag, bytes))] + Blocks(near, rest)
  {
    hide FirstLock, Blocks, Tail, Place, AirBits, BlockLen, BytesOf;
    CutOut(sent, AirBits(bytes), rest);
    FirstLockAppend(near, sent, AirBits(bytes) + rest);
    WhenComplete(near, sent + AirBits(bytes) + rest);
    BytesOfAir(bytes);
  }

  // Whatever block bytes follow it, damaged or not, reach the decoder in their
  // places, and the receiver is then as it was at the start.
  lemma BlockArrives(lead: seq<bool>, sent: seq<bool>, tag: CorrelationTag, bytes: seq<byte>, rest: seq<bool>)
    requires NearTag(sent, tag) && Unmistaken(lead, sent) && |bytes| == BlockLen(tag)
    ensures Blocks(Tags(), lead + sent + AirBits(bytes) + rest)
         == [Block(tag, Place(tag, bytes))] + Blocks(Tags(), rest)
  {
    hide *;
    TagLocksAfter(lead, sent, tag);
    BlockAfterLock(Tags(), lead + sent, tag, bytes, rest);
  }

  // A frame that fits, sent after `lead` under a tag of which at most eight bits
  // went wrong.
  datatype Transmission = Transmission(lead: seq<bool>, tag: CorrelationTag, stuffed: seq<byte>, tagBits: seq<bool>)
  {
    ghost predicate Fits() {
      |stuffed| <= DataLen(tag)
    }

    ghost predicate Sendable() {
      Fits() && NearTag(tagBits, tag) && Unmistaken(lead, tagBits)
    }
  }

  ghost predicate AllFit(txs: seq<Transmission>) {
    forall i :: 0 <= i < |txs| ==> txs[i].Fits()
  }

  ghost predicate AllSendable(txs: seq<Transmission>) {
    forall i :: 0 <= i < |txs| ==> txs[i].Sendable()
  }

  function OnAir(rs: RsEncoder, tx: Transmission): seq<bool>
    requires |tx.stuffed| <= DataLen(tx.tag)
  {
    tx.lead + tx.tagBits + AirBits(OnAirBlock(rs, tx.tag, tx.stuffed))
  }

  ghost function AllOnAir(rs: RsEncoder, txs: seq<Transmission>): seq<bool>
    requires AllFit(txs)
  {
    if txs == [] then []
    else
      assert txs[0].Fits();
      OnAir(rs, txs[0]) + AllOnAir(rs, txs[1..])
  }

  ghost function Codewords(rs: RsEncoder, txs: seq<Transmission>): seq<Block>
    requires AllFit(txs)
  {
    if txs == [] then []
    else
      assert txs[0].Fits();
      [Block(txs[0].tag, Codeword(rs, txs[0].tag, txs[0].stuffed))] + Codewords(rs, txs[1..])
  }

  // Undamaged and with nothing before it, what is sent is what `WrapWith` wrote.
  lemma CleanTransmission(rs: RsEncoder, tag: CorrelationTag, stuffed: seq<byte>)
    requires |stuffed| <= DataLen(tag)
    ensures Transmission([], tag, stuffed, TagBits(tag)).Sendable()
    ensures OnAir(rs, Transmission([], tag, stuffed, TagBits(tag))) == AirBits(Wrapped(rs, tag, stuffed))
  {
    hide AirBits, TagBytes, OnAirBlock, Distance, Unmistaken;
    DistanceZero(TagBits(tag), TagBits(tag));
    NoLead(TagBits(tag));
    AirBitsAppend(TagBytes(tag), OnAirBlock(rs, tag, stuffed));
    assert [] + TagBits(tag) == TagBits(tag);
  }

  lemma OneArrives(rs: RsEncoder, tx: Transmission, rest: seq<bool>)
    requires Encodes(rs) && tx.Sendable()
    ensures Blocks(Tags(), OnAir(rs, tx) + rest)
         == [Block(tx.tag, Codeword(rs, tx.tag, tx.stuffed))] + Blocks(Tags(), rest)
  {
    hide Tags, Blocks, NearTag, AirBits, Unmistaken, DataLen, ParityLen;
    BlockArrives(tx.lead, tx.tagBits, tx.tag, OnAirBlock(rs, tx.tag, tx.stuffed), rest);
    PlaceWhole(tx.tag, DataBlock(tx.tag, tx.stuffed), Parity(rs, tx.tag, tx.stuffed));
  }

  // From a reset, every transmission of a stream reaches the decoder as exactly
  // the codeword whose data part was given to the encoder.
  lemma {:induction false} StreamArrives(rs: RsEncoder, txs: seq<Transmission>)
    requires Encodes(rs) && AllSendable(txs) && AllFit(txs)
    ensures Blocks(Tags(), AllOnAir(rs, txs)) == Codewords(rs, txs)
  {
    if txs == [] {
      NothingHeard(Tags());
    } else {
      assert txs[0].Sendable() && txs[0].Fits();
      StreamArrives(rs, txs[1..]);
      hide Tags, Blocks, OnAir, Codeword;
      OneArrives(rs, txs[0], AllOnAir(rs, txs[1..]));
    }
  }

  // What a hunting receiver has already heard leads into the first of them.
  function After(heard: seq<bool>, txs: seq<Transmission>): seq<Transmission> {
    if txs == [] then [] else [txs[0].(lead := heard + txs[0].lead)] + txs[1..]
  }

  lemma LeadOnAir(rs: RsEncoder, heard: seq<bool>, tx: Transmission, rest: seq<bool>)
    requires tx.Fits()
    ensures OnAir(rs, tx.(lead := heard + tx.lead)) + rest == heard + (OnAir(rs, tx) + rest)
  {
    hide AirBits, OnAirBlock;
  }

  lemma AfterOnAir(rs: RsEncoder, heard: seq<bool>, txs: seq<Transmission>)
    requires txs != [] && AllFit(txs)
    ensures AllFit(After(heard, txs)) && AllOnAir(rs, After(heard, txs)) == heard + AllOnAir(rs, txs)
    ensures Codewords(rs, After(heard, txs)) == Codewords(rs, txs)
  {
    var after := After(heard, txs);
    assert txs[0].Fits();
    forall i | 0 <= i < |after|
      ensures after[i].Fits()
    {
      assert txs[i].Fits();
    }
    assert after[1..] == txs[1..];
    hide OnAir, Codeword, DataLen;
    LeadOnAir(rs, heard, txs[0], AllOnAir(rs, txs[1..]));
  }

  // After any traffic at all, whatever it was and wherever it has left the
  // receiver hunting, every transmission reaches the decoder as exactly the
  // codeword whose data part was given to the encoder: nothing lost, added or moved.
  lemma CodewordsArrive(rs: RsEncoder, heard: seq<bool>, txs: seq<Transmission>)
    requires Encodes(rs) && AllFit(txs) && AllSendable(After(Tail(Tags(), heard), txs))
    ensures Blocks(Tags(), heard + AllOnAir(rs, txs)) == Blocks(Tags(), heard) + Codewords(rs, txs)
  {
    var t := Tail(Tags(), heard);
    hide Blocks, Tail, Tags, After, AllSendable;
    if txs == [] {
      assert heard + AllOnAir(rs, txs) == heard;
    } else {
      BlocksAppend(Tags(), heard, AllOnAir(rs, txs));
      AfterOnAir(rs, t, txs);
      StreamArrives(rs, After(t, txs));
    }
  }
}
