/**
 * KISS framing, receive side: the push-one-byte deframer, proved against a
 * batch reading of everything it has heard.
 */
module KissDeframing {
  import opened Prelude
  import opened Kiss

  const USIZE_MAX: nat := 0xFFFF_FFFF_FFFF_FFFF

  datatype KissFrame = KissFrame(command: Command, port: Port, payload: seq<byte>)

  type Event = Result<KissFrame, KissError>

  // ---------------------------------------------------------------- the batch reading

  datatype Unescaped =
    | Good(content: seq<byte>, dangling: bool)
    | Bad(follow: byte)

  function Prepend(b: byte, u: Unescaped): Unescaped {
    if u.Good? then Good([b] + u.content, u.dangling) else u
  }

  // Undoes the transparency rule on one segment, stopping at its first bad escape.
  function Unescape(segment: seq<byte>): Unescaped {
    if segment == [] then Good([], false)
    else if segment[0] != FESC then Prepend(segment[0], Unescape(segment[1..]))
    else if |segment| == 1 then Good([], true)
    else if segment[1] == TFEND then Prepend(FEND, Unescape(segment[2..]))
    else if segment[1] == TFESC then Prepend(FESC, Unescape(segment[2..]))
    else Bad(segment[1])
  }

  function FrameEvent(content: seq<byte>): Event
    requires content != []
  {
    match FromByte(content[0])
    case Ok((command, port)) => Ok(KissFrame(command, port, content[1..]))
    case Err(e) => Err(e)
  }

  // What one segment yields to a deframer of capacity `n`; `closed` says
  // whether a FEND has ended it.
  function SegmentEvents(n: nat, segment: seq<byte>, closed: bool): seq<Event> {
    match Unescape(segment)
    case Bad(b) => [Err(InvalidEscape(b))]
    case Good(content, dangling) =>
      if !closed || content == [] then []
      else if dangling then [Err(InvalidEscape(FEND))]
      else if |content| > n then [Err(FrameTooLarge(n))]
      else [FrameEvent(content)]
  }

  // Position of the first FEND, or the length when there is none.
  function FirstFend(s: seq<byte>): (i: nat)
    ensures i <= |s|
    ensures FEND !in s[..i]
    ensures i < |s| ==> s[i] == FEND
  {
    if s == [] || s[0] == FEND then 0
    else
      assert s[..1 + FirstFend(s[1..])] == [s[0]] + s[1..][..FirstFend(s[1..])];
      1 + FirstFend(s[1..])
  }

  // Everything after an opening FEND: split on FEND, read segment by segment.
  function Segments(n: nat, s: seq<byte>): seq<Event> {
    var i := FirstFend(s);
    if i == |s| then SegmentEvents(n, s, false)
    else SegmentEvents(n, s[..i], true) + Segments(n, s[i + 1..])
  }

  // A whole byte stream: bytes before the first FEND are dropped.
  function Batch(n: nat, heard: seq<byte>): seq<Event> {
    var i := FirstFend(heard);
    if i == |heard| then [] else Segments(n, heard[i + 1..])
  }

  function LastSegment(s: seq<byte>): seq<byte> {
    var i := FirstFend(s);
    if i == |s| then s else LastSegment(s[i + 1..])
  }

  // The segment still open after `heard`, if an opening FEND has been seen.
  function Open(heard: seq<byte>): Option<seq<byte>> {
    var i := FirstFend(heard);
    if i == |heard| then None else Some(LastSegment(heard[i + 1..]))
  }

  lemma {:induction false} BadByteIsThere(segment: seq<byte>)
    ensures Unescape(segment).Bad? ==> Unescape(segment).follow in segment
  {
    if segment == [] {
    } else if segment[0] != FESC {
      BadByteIsThere(segment[1..]);
    } else if |segment| > 1 {
      BadByteIsThere(segment[2..]);
    }
  }

  lemma NoContent(segment: seq<byte>)
    ensures Unescape(segment).Good? && Unescape(segment).content == [] && Unescape(segment).dangling
       <==> segment == [FESC]
  {
    assert |segment| == 1 && segment[0] == FESC ==> segment == [FESC];
  }

  // A segment closed in the middle of an escape reports the delimiter as the bad
  // byte, unless it holds nothing but that escape byte: that is dropped.
  lemma {:induction false} DanglingEscape(n: nat, segment: seq<byte>)
    requires FEND !in segment
    ensures SegmentEvents(n, segment, true) == [Err(InvalidEscape(FEND))]
       <==> Unescape(segment).Good? && Unescape(segment).dangling && segment != [FESC]
    ensures SegmentEvents(n, [FESC], true) == []
  {
    BadByteIsThere(segment);
    NoContent(segment);
    NoContent([FESC]);
    hide Unescape;
  }

  // Content within the capacity is a frame or names its unknown command, and beyond
  // it is refused as too large.
  lemma SegmentVerdict(n: nat, segment: seq<byte>)
    requires Unescape(segment).Good? && !Unescape(segment).dangling && Unescape(segment).content != []
    ensures var c := Unescape(segment).content;
            && (|c| > n <==> SegmentEvents(n, segment, true) == [Err(FrameTooLarge(n))])
            && (|c| <= n && c[0] % 16 > 6 && c[0] != 0xFF
                <==> SegmentEvents(n, segment, true) == [Err(UnknownCommand(c[0] % 16))])
            && SegmentEvents(n, segment, false) == []
  {
    CommandByteExact(Unescape(segment).content[0]);
    hide Unescape;
  }

  // An escape byte before anything but 0xDC or 0xDD spoils the segment from there on.
  lemma {:induction false} BadEscape(n: nat, content: seq<byte>, b: byte, rest: seq<byte>, closed: bool)
    requires b != 0xDC && b != 0xDD
    ensures SegmentEvents(n, Escape(content) + [0xDB, b] + rest, closed) == [Err(InvalidEscape(b))]
  {
    BadUnescape(content, b, rest);
  }

  lemma {:induction false} BadUnescape(content: seq<byte>, b: byte, rest: seq<byte>)
    requires b != 0xDC && b != 0xDD
    ensures Unescape(Escape(content) + [0xDB, b] + rest) == Bad(b)
  {
    var segment := Escape(content) + [0xDB, b] + rest;
    if content == [] {
      assert segment == [0xDB, b] + rest;
    } else {
      var first, more := EscapeByte(content[0]), Escape(content[1..]) + [0xDB, b] + rest;
      assert segment == first + more;
      BadUnescape(content[1..], b, rest);
      assert first == [content[0]] || first == [0xDB, 0xDC] || first == [0xDB, 0xDD];
      assert segment[|first|..] == more;
      hide Escape;
    }
  }

  // Nothing is read before the first delimiter.
  lemma NothingBeforeFend(n: nat, heard: seq<byte>)
    requires 0xC0 !in heard
    ensures Batch(n, heard) == [] && Open(heard).None?
  {
  }

  // So a lone escape byte between delimiters is never reported.
  lemma LoneEscapeIsDropped(n: nat)
    ensures Batch(n, [FEND, FESC, FEND]) == []
  {
    var all, s := [FEND, FESC, FEND], [FESC, FEND];
    assert all[1..] == s && s[1..] == [FEND] && s[..1] == [FESC] && s[2..] == [];
    assert FirstFend(all) == 0 && FirstFend(s) == 1 && FirstFend([]) == 0;
    DanglingEscape(n, [FESC]);
    assert SegmentEvents(n, [], false) == [];
    hide SegmentEvents, FirstFend;
    assert Segments(n, []) == [];
    assert Segments(n, s) == SegmentEvents(n, [FESC], true) + Segments(n, []);
  }

  // ---------------------------------------------------------------- one byte at a time

  function UnescapeNext(u: Unescaped, b: byte): Unescaped {
    match u
    case Bad(_) => u
    case Good(c, false) => if b == FESC then Good(c, true) else Good(c + [b], false)
    case Good(c, true) =>
      if b == TFEND then Good(c + [FEND], false)
      else if b == TFESC then Good(c + [FESC], false)
      else Bad(b)
  }

  lemma PrependNext(h: byte, u: Unescaped, b: byte)
    ensures UnescapeNext(Prepend(h, u), b) == Prepend(h, UnescapeNext(u, b))
  {
    if u.Good? {
      assert [h] + (u.content + [FEND]) == [h] + u.content + [FEND];
      assert [h] + (u.content + [FESC]) == [h] + u.content + [FESC];
      assert [h] + (u.content + [b]) == [h] + u.content + [b];
    }
  }

  lemma {:induction false} UnescapeSnoc(segment: seq<byte>, b: byte)
    ensures Unescape(segment + [b]) == UnescapeNext(Unescape(segment), b)
    decreases |segment|
  {
    var all := segment + [b];
    if segment == [] {
      assert all[1..] == [];
    } else if segment[0] != FESC {
      UnescapeSnoc(segment[1..], b);
      assert all[1..] == segment[1..] + [b];
      PrependNext(segment[0], Unescape(segment[1..]), b);
      hide UnescapeNext, Prepend;
    } else if |segment| == 1 {
      assert all[2..] == [];
    } else {
      UnescapeSnoc(segment[2..], b);
      assert all[2..] == segment[2..] + [b];
      PrependNext(FEND, Unescape(segment[2..]), b);
      PrependNext(FESC, Unescape(segment[2..]), b);
      hide Prepend;
    }
  }

  // What `b` adds to the events of a stream whose open segment is `segment`.
  function ByteEvents(n: nat, segment: seq<byte>, b: byte): seq<Event> {
    if Unescape(segment).Bad? then []
    else if b == FEND then SegmentEvents(n, segment, true)
    else SegmentEvents(n, segment + [b], false)
  }

  lemma {:induction false} FirstFendSnoc(s: seq<byte>, b: byte)
    ensures FirstFend(s + [b]) == if FirstFend(s) < |s| then FirstFend(s)
                                  else if b == FEND then |s| else |s| + 1
  {
    if s != [] && s[0] != FEND {
      FirstFendSnoc(s[1..], b);
      assert (s + [b])[1..] == s[1..] + [b];
    }
  }

  // The last step of `SegmentsSnoc`: no FEND before the new byte.
  lemma OpenSnoc(n: nat, s: seq<byte>, b: byte)
    requires FirstFend(s) == |s|
    ensures Segments(n, s + [b]) == Segments(n, s) + ByteEvents(n, s, b)
    ensures LastSegment(s + [b]) == if b == FEND then [] else s + [b]
  {
    var all := s + [b];
    FirstFendSnoc(s, b);
    if b == FEND {
      assert all[..|s|] == s && all[|s| + 1..] == [];
      assert FirstFend([]) == 0 && Segments(n, []) == [];
      hide Unescape, FirstFend, FrameEvent;
    } else {
      UnescapeSnoc(s, b);
      hide Unescape, FirstFend, FrameEvent;
    }
  }

  lemma FirstSegment(n: nat, s: seq<byte>, i: nat)
    requires i == FirstFend(s) < |s|
    ensures Segments(n, s) == SegmentEvents(n, s[..i], true) + Segments(n, s[i + 1..])
    ensures LastSegment(s) == LastSegment(s[i + 1..])
  {
    hide SegmentEvents;
  }

  lemma {:induction false} SegmentsSnoc(n: nat, s: seq<byte>, b: byte)
    ensures Segments(n, s + [b]) == Segments(n, s) + ByteEvents(n, LastSegment(s), b)
    ensures LastSegment(s + [b]) == if b == FEND then [] else LastSegment(s) + [b]
    decreases |s|
  {
    var i, all := FirstFend(s), s + [b];
    hide FirstFend, Segments, LastSegment, SegmentEvents, ByteEvents;
    if i < |s| {
      FirstFendSnoc(s, b);
      FirstSegment(n, s, i);
      FirstSegment(n, all, i);
      assert all[..i] == s[..i];
      assert all[i + 1..] == s[i + 1..] + [b];
      SegmentsSnoc(n, s[i + 1..], b);
    } else {
      OpenSnoc(n, s, b);
      LastIsWhole(s);
    }
  }

  lemma LastIsWhole(s: seq<byte>)
    requires FirstFend(s) == |s|
    ensures LastSegment(s) == s
  {
  }

  function OpenEvents(n: nat, open: Option<seq<byte>>, b: byte): seq<Event> {
    if open.None? then [] else ByteEvents(n, open.value, b)
  }

  lemma NothingOpen(n: nat)
    ensures Segments(n, []) == []
  {
    assert FirstFend([]) == 0;
  }

  lemma AfterFend(n: nat, heard: seq<byte>, i: nat)
    requires i == FirstFend(heard) < |heard|
    ensures Batch(n, heard) == Segments(n, heard[i + 1..])
    ensures Open(heard) == Some(LastSegment(heard[i + 1..]))
  {
  }

  lemma BeforeFend(n: nat, heard: seq<byte>)
    requires FirstFend(heard) == |heard|
    ensures Batch(n, heard) == [] && Open(heard) == None
  {
  }

  lemma SliceSnoc(heard: seq<byte>, b: byte, i: nat)
    requires i <= |heard|
    ensures (heard + [b])[i..] == heard[i..] + [b]
  {
  }

  lemma OpenedSnoc(n: nat, heard: seq<byte>, b: byte)
    requires FirstFend(heard) < |heard|
    ensures Batch(n, heard + [b]) == Batch(n, heard) + OpenEvents(n, Open(heard), b)
    ensures Open(heard).Some? && Open(heard + [b]) == if b == FEND then Some([]) else Some(Open(heard).value + [b])
  {
    var i := FirstFend(heard);
    FirstFendSnoc(heard, b);
    hide FirstFend, Segments, LastSegment, Batch, Open, ByteEvents;
    AfterFend(n, heard, i);
    AfterFend(n, heard + [b], i);
    SliceSnoc(heard, b, i + 1);
    SegmentsSnoc(n, heard[i + 1..], b);
  }

  lemma UnopenedSnoc(n: nat, heard: seq<byte>, b: byte)
    requires FirstFend(heard) == |heard|
    ensures Batch(n, heard + [b]) == Batch(n, heard) == [] && Open(heard).None?
    ensures Open(heard + [b]) == if b == FEND then Some([]) else None
  {
    FirstFendSnoc(heard, b);
    LastIsWhole([]);
    NothingOpen(n);
    hide FirstFend, Segments, LastSegment, Batch, Open;
    BeforeFend(n, heard);
    if b == FEND {
      AfterFend(n, heard + [b], |heard|);
      assert (heard + [b])[|heard| + 1..] == [];
    } else {
      BeforeFend(n, heard + [b]);
    }
  }

  // The open segment after one more byte.
  function Next(open: Option<seq<byte>>, b: byte): Option<seq<byte>> {
    if b == FEND then Some([]) else if open.None? then None else Some(open.value + [b])
  }

  lemma BatchSnoc(n: nat, heard: seq<byte>, b: byte)
    ensures Batch(n, heard + [b]) == Batch(n, heard) + OpenEvents(n, Open(heard), b)
    ensures Open(heard + [b]) == Next(Open(heard), b)
  {
    if FirstFend(heard) < |heard| {
      OpenedSnoc(n, heard, b);
    } else {
      UnopenedSnoc(n, heard, b);
    }
    hide Batch, Open, ByteEvents;
  }

  // ---------------------------------------------------------------- the deframer

  /**
   * `heard` records every byte pushed so far. `Valid` says that the five
   * machine fields are exactly what the batch reading of `heard` calls for, and
   * `Push` emits exactly what the new byte adds to that reading; so on every
   * byte stream, from every reachable state, machine and batch agree.
   */
  class KissDeframer {
    const N: nat
    const buf: array<byte>
    var len: nat
    var inFrame: bool
    var escaping: bool
    var overflowed: bool
    ghost var heard: seq<byte>

    constructor (n: nat)
      requires n <= USIZE_MAX
      ensures Valid() && fresh(buf)
      ensures N == n && heard == []
    {
      N := n;
      buf := new byte[n];
      len := 0;
      inFrame := false;
      escaping := false;
      overflowed := false;
      heard := [];
    }

    ghost predicate Holds(content: seq<byte>, dangling: bool)
      reads this`len, this`escaping, this`overflowed, buf
      requires buf.Length == N
    {
      && escaping == dangling
      && len == (if |content| <= USIZE_MAX then |content| else USIZE_MAX)
      && overflowed == (|content| > N)
      && (|content| <= N ==> buf[..|content|] == content)
      && (|content| > N ==> buf[..] == content[..N])
    }

    // The machine fields, for an open segment.
    ghost predicate Tracks(open: Option<seq<byte>>)
      reads this`inFrame, this`len, this`escaping, this`overflowed, buf
    {
      && buf.Length == N <= USIZE_MAX
      && inFrame == (open.Some? && Unescape(open.value).Good?)
      && (inFrame ==> Holds(Unescape(open.value).content, Unescape(open.value).dangling))
    }

    ghost predicate Valid()
      reads this, buf
    {
      Tracks(Open(heard))
    }

    method ResetFrame()
      modifies this`len, this`escaping, this`overflowed
      ensures len == 0 && !escaping && !overflowed
    {
      len := 0;
      escaping := false;
      overflowed := false;
    }

    method Store(b: byte, ghost content: seq<byte>)
      requires buf.Length == N <= USIZE_MAX && Holds(content, false)
      modifies this`len, this`overflowed, buf
      ensures Holds(content + [b], false)
    {
      if len < N {
        buf[len] := b;
      } else {
        overflowed := true;
      }
      len := if len < USIZE_MAX then len + 1 else USIZE_MAX;
    }

    // A FEND: the open segment, if it held anything, is reported.
    method Close(ghost open: Option<seq<byte>>) returns (event: Option<Event>)
      requires Tracks(open)
      modifies this`inFrame, this`len, this`escaping, this`overflowed
      ensures Tracks(Some([]))
      ensures OpenEvents(N, open, FEND) == if event.None? then [] else [event.value]
    {
      hide FrameEvent;
      var close, wasEscaping, wasOverflowed, n := inFrame && len > 0, escaping, overflowed, len;
      inFrame := true;
      ResetFrame();
      if !close {
        return None;
      }
      if wasEscaping {
        return Some(Err(InvalidEscape(FEND)));
      }
      if wasOverflowed {
        return Some(Err(FrameTooLarge(N)));
      }
      var bytes := if n <= buf.Length then buf[..n] else [];
      if bytes == [] {
        return None;
      }
      return Some(FrameEvent(bytes));
    }

    // Any other byte: unescaped and stored, or the segment is abandoned.
    method Accept(b: byte, ghost open: seq<byte>) returns (event: Option<Event>)
      requires b != FEND && inFrame && Tracks(Some(open))
      modifies this`inFrame, this`len, this`escaping, this`overflowed, buf
      ensures Tracks(Some(open + [b]))
      ensures ByteEvents(N, open, b) == if event.None? then [] else [event.value]
    {
      UnescapeSnoc(open, b);
      ghost var u := Unescape(open);
      hide Unescape, FrameEvent;
      event := None;
      if escaping {
        escaping := false;
        if b == TFEND {
          Store(FEND, u.content);
        } else if b == TFESC {
          Store(FESC, u.content);
        } else {
          inFrame := false;
          ResetFrame();
          event := Some(Err(InvalidEscape(b)));
        }
      } else if b == FESC {
        escaping := true;
      } else {
        Store(b, u.content);
      }
    }

    lemma DeadStaysDead(open: Option<seq<byte>>, b: byte)
      requires !inFrame && Tracks(open) && b != FEND
      ensures Tracks(if open.None? then None else Some(open.value + [b]))
      ensures OpenEvents(N, open, b) == []
    {
      if open.Some? {
        UnescapeSnoc(open.value, b);
      }
      hide Unescape, SegmentEvents;
    }

    // One byte, on the reading of the open segment.
    method Handle(b: byte, ghost open: Option<seq<byte>>) returns (event: Option<Event>)
      requires Tracks(open)
      modifies this`inFrame, this`len, this`escaping, this`overflowed, buf
      ensures Tracks(Next(open, b))
      ensures OpenEvents(N, open, b) == if event.None? then [] else [event.value]
    {
      assert inFrame ==> open.Some?;
      hide Tracks, ByteEvents, SegmentEvents, Unescape;
      if b == FEND {
        event := Close(open);
      } else if inFrame {
        event := Accept(b, open.value);
      } else {
        DeadStaysDead(open, b);
        event := None;
      }
    }

    method Push(b: byte) returns (event: Option<Event>)
      requires Valid()
      modifies this, buf
      ensures Valid()
      ensures heard == old(heard) + [b]
      ensures Batch(N, heard) == Batch(N, old(heard)) + (if event.None? then [] else [event.value])
    {
      hide Open, Batch, Tracks, OpenEvents, Next;
      BatchSnoc(N, heard, b);
      event := Handle(b, Open(heard));
      heard := heard + [b];
    }
  }

  // ---------------------------------------------------------------- round trip

  datatype Outgoing = Outgoing(port: Port, command: Command, payload: seq<byte>)

  function Stream(frames: seq<Outgoing>): seq<byte> {
    if frames == [] then []
    else Wire(frames[0].port, frames[0].command, frames[0].payload) + Stream(frames[1..])
  }

  function Delivered(f: Outgoing): Event {
    Ok(KissFrame(f.command, ReportedPort(f.command, f.port), f.payload))
  }

  function AllDelivered(frames: seq<Outgoing>): seq<Event> {
    if frames == [] then [] else [Delivered(frames[0])] + AllDelivered(frames[1..])
  }

  lemma {:induction false} UnescapeInvertsEscape(content: seq<byte>)
    ensures Unescape(Escape(content)) == Good(content, false)
  {
    if content != [] {
      var rest := Escape(content[1..]);
      UnescapeInvertsEscape(content[1..]);
      assert Escape(content) == EscapeByte(content[0]) + rest;
      if content[0] == FEND || content[0] == FESC {
        assert Escape(content)[2..] == rest;
      } else {
        assert Escape(content)[1..] == rest;
      }
      assert content == [content[0]] + content[1..];
    }
  }

  lemma {:induction false} FirstFendAppend(s: seq<byte>, t: seq<byte>)
    requires FEND !in s
    ensures FirstFend(s + [FEND] + t) == |s|
  {
    if s != [] {
      assert s[0] in s;
      FirstFendAppend(s[1..], t);
      assert (s + [FEND] + t)[1..] == s[1..] + [FEND] + t;
    }
  }

  lemma ClosedSegment(n: nat, a: seq<byte>, t: seq<byte>)
    requires FEND !in a
    ensures Segments(n, a + [FEND] + t) == SegmentEvents(n, a, true) + Segments(n, t)
    ensures Batch(n, a + [FEND] + t) == Segments(n, t)
  {
    hide SegmentEvents;
    var all := a + [FEND] + t;
    FirstFendAppend(a, t);
    assert all[..|a|] == a && all[|a| + 1..] == t;
  }

  // Where a stream is closed by a FEND, what follows is read on its own.
  lemma {:induction false} SegmentsSplit(n: nat, s: seq<byte>, t: seq<byte>)
    ensures Segments(n, s + [FEND] + t) == Segments(n, s + [FEND]) + Segments(n, t)
    decreases |s|
  {
    var i := FirstFend(s);
    hide FirstFend, Segments, SegmentEvents, Batch;
    if i < |s| {
      var rest := s[i + 1..];
      assert s == s[..i] + [FEND] + rest;
      ClosedSegment(n, s[..i], rest + [FEND] + t);
      assert s + [FEND] + t == s[..i] + [FEND] + (rest + [FEND] + t);
      ClosedSegment(n, s[..i], rest + [FEND]);
      assert s + [FEND] == s[..i] + [FEND] + (rest + [FEND]);
      SegmentsSplit(n, rest, t);
    } else {
      assert s[..i] == s;
      ClosedSegment(n, s, t);
      ClosedSegment(n, s, []);
      NothingOpen(n);
      assert s + [FEND] == s + [FEND] + [];
    }
  }

  lemma BatchSplit(n: nat, heard: seq<byte>, t: seq<byte>)
    ensures Batch(n, heard + [FEND] + t) == Batch(n, heard + [FEND]) + Segments(n, t)
  {
    var i := FirstFend(heard);
    hide FirstFend, Segments, SegmentEvents, Batch;
    if i < |heard| {
      var rest := heard[i + 1..];
      assert heard == heard[..i] + [FEND] + rest;
      ClosedSegment(n, heard[..i], rest + [FEND] + t);
      assert heard + [FEND] + t == heard[..i] + [FEND] + (rest + [FEND] + t);
      ClosedSegment(n, heard[..i], rest + [FEND]);
      assert heard + [FEND] == heard[..i] + [FEND] + (rest + [FEND]);
      SegmentsSplit(n, rest, t);
    } else {
      assert heard[..i] == heard;
      ClosedSegment(n, heard, t);
      ClosedSegment(n, heard, []);
      NothingOpen(n);
      assert heard + [FEND] == heard + [FEND] + [];
    }
  }

  ghost predicate Fits(n: nat, frames: seq<Outgoing>) {
    forall i :: 0 <= i < |frames| ==> 1 + |frames[i].payload| <= n
  }

  lemma FrameSegment(n: nat, f: Outgoing, t: seq<byte>)
    requires 1 + |f.payload| <= n
    ensures Segments(n, Escape(Content(f.port, f.command, f.payload)) + [FEND] + t) == [Delivered(f)] + Segments(n, t)
  {
    var content := Content(f.port, f.command, f.payload);
    var body := Escape(content);
    EscapeHidesFend(content);
    FirstFendAppend(body, t);
    assert (body + [FEND] + t)[..|body|] == body;
    assert (body + [FEND] + t)[|body| + 1..] == t;
    UnescapeInvertsEscape(content);
    CommandByteRoundTrip(f.command, f.port);
    assert content[1..] == f.payload;
  }

  lemma EmptySegment(n: nat, t: seq<byte>)
    ensures Segments(n, [FEND] + t) == Segments(n, t)
  {
    var s := [FEND] + t;
    assert FirstFend(s) == 0 && s[..0] == [] && s[1..] == t;
  }

  // The stream after its first FEND.
  lemma {:induction false} StreamSegments(n: nat, frames: seq<Outgoing>)
    requires frames != [] && Fits(n, frames)
    ensures Stream(frames) == [FEND] + Stream(frames)[1..]
    ensures Segments(n, Stream(frames)[1..]) == AllDelivered(frames)
    decreases |frames|
  {
    hide Segments, SegmentEvents, Escape, Content;
    var f, rest := frames[0], frames[1..];
    var body := Escape(Content(f.port, f.command, f.payload));
    assert Stream(frames)[1..] == body + [FEND] + Stream(rest);
    FrameSegment(n, f, Stream(rest));
    if rest != [] {
      StreamSegments(n, rest);
      EmptySegment(n, Stream(rest)[1..]);
    } else {
      NothingOpen(n);
    }
  }

  // Encoded frames that fit come through whole and in order, whatever came
  // before them: the first FEND closes what was open, the rest is the frames.
  lemma EncodedFramesDelivered(n: nat, heard: seq<byte>, frames: seq<Outgoing>)
    requires frames != [] && Fits(n, frames)
    ensures Batch(n, heard + Stream(frames)) == Batch(n, heard + [FEND]) + AllDelivered(frames)
    ensures Batch(n, heard + [FEND]) == Batch(n, heard) + OpenEvents(n, Open(heard), FEND)
    ensures Batch(n, Stream(frames)) == AllDelivered(frames)
  {
    var tail := Stream(frames)[1..];
    StreamSegments(n, frames);
    assert heard + Stream(frames) == heard + [FEND] + tail;
    BatchSplit(n, heard, tail);
    BatchSnoc(n, heard, FEND);
    assert FirstFend(Stream(frames)) == 0;
  }
}
