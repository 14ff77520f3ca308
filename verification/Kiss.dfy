/**
 * KISS framing, transmit side: the command byte, the transparency rule, and
 * the three encoders (length, buffer, lazy iterator), all proved against one
 * reference, `Wire`.
 */
module Kiss {
  import opened Prelude

  const FEND: byte := 0xC0
  const FESC: byte := 0xDB
  const TFEND: byte := 0xDC
  const TFESC: byte := 0xDD

  type Port = p: int | 0 <= p <= 15

  datatype Command = Data | TxDelay | Persistence | SlotTime | TxTail | FullDuplex | SetHardware | Return

  datatype KissError =
    | UnknownCommand(nibble: byte)
    | BufferTooSmall(needed: nat, got: nat)
    | InvalidEscape(follow: byte)
    | FrameTooLarge(capacity: nat)

  // `port.0 << 4` fits a byte because a port is a nibble.
  function ToByte(command: Command, port: Port): byte {
    match command
    case Data => port * 16
    case TxDelay => port * 16 + 1
    case Persistence => port * 16 + 2
    case SlotTime => port * 16 + 3
    case TxTail => port * 16 + 4
    case FullDuplex => port * 16 + 5
    case SetHardware => port * 16 + 6
    case Return => 0xFF
  }

  function FromByte(b: byte): Result<(Command, Port), KissError> {
    if b == 0xFF then Ok((Return, 0))
    else
      var port: Port := b / 16;
      match b % 16
      case 0 => Ok((Data, port))
      case 1 => Ok((TxDelay, port))
      case 2 => Ok((Persistence, port))
      case 3 => Ok((SlotTime, port))
      case 4 => Ok((TxTail, port))
      case 5 => Ok((FullDuplex, port))
      case 6 => Ok((SetHardware, port))
      case nibble => Err(UnknownCommand(nibble))
  }

  // The port a receiver reports: `Return` carries none, so it comes back as 0.
  function ReportedPort(command: Command, port: Port): Port {
    if command == Return then 0 else port
  }

  lemma CommandByteRoundTrip(command: Command, port: Port)
    ensures FromByte(ToByte(command, port)) == Ok((command, ReportedPort(command, port)))
    ensures ToByte(command, port) != FESC
    ensures ToByte(command, port) == FEND <==> command == Data && port == 12
  {
    assert (port * 16) / 16 == port;
  }

  // Decoding is exact the other way too: an accepted byte is the encoding of
  // what it decodes to, and only the nibbles 7..=15 of a byte other than 0xFF
  // are refused.
  lemma CommandByteExact(b: byte)
    ensures match FromByte(b)
            case Ok((c, p)) => ToByte(c, p) == b
            case Err(e) => e == UnknownCommand(b % 16) && b % 16 > 6 && b != 0xFF
    ensures FromByte(b).Err? <==> b != 0xFF && b % 16 > 6
  {
    assert b == 16 * (b / 16) + b % 16;
  }

  // The protocol's command codes, below the port.
  lemma CommandCodes(port: Port, k: nat)
    requires k < 7
    ensures var command := [Data, TxDelay, Persistence, SlotTime, TxTail, FullDuplex, SetHardware][k];
            ToByte(command, port) == 16 * port + k && FromByte(16 * port + k) == Ok((command, port))
    ensures ToByte(Return, port) == 255
  {
    assert (16 * port + k) / 16 == port && (16 * port + k) % 16 == k;
  }

  // ---------------------------------------------------------------- transparency

  function EscapeByte(b: byte): seq<byte> {
    if b == FEND then [FESC, TFEND] else if b == FESC then [FESC, TFESC] else [b]
  }

  function Escape(content: seq<byte>): seq<byte> {
    if content == [] then [] else EscapeByte(content[0]) + Escape(content[1..])
  }

  function Content(port: Port, command: Command, payload: seq<byte>): seq<byte> {
    [ToByte(command, port)] + payload
  }

  // The reference: one frame on the wire.
  function Wire(port: Port, command: Command, payload: seq<byte>): seq<byte> {
    [FEND] + Escape(Content(port, command, payload)) + [FEND]
  }

  lemma {:induction false} EscapeAppend(a: seq<byte>, b: seq<byte>)
    ensures Escape(a + b) == Escape(a) + Escape(b)
  {
    hide EscapeByte;
    if a == [] {
      assert a + b == b;
    } else {
      EscapeAppend(a[1..], b);
      AppendParts(a, b);
      assert Escape(a + b) == EscapeByte(a[0]) + Escape(a[1..] + b);
      hide Escape;
      ConcatAssoc(EscapeByte(a[0]), Escape(a[1..]), Escape(b));
    }
  }

  lemma {:induction false} EscapeHidesFend(content: seq<byte>)
    ensures FEND !in Escape(content)
  {
    if content != [] {
      EscapeHidesFend(content[1..]);
    }
  }

  // On the wire 0xC0 never occurs inside a frame, 0xDB only before 0xDC or 0xDD,
  // and whatever is free of both goes out as it is.
  lemma {:induction false} EscapePairs(content: seq<byte>, i: nat)
    requires i < |Escape(content)|
    ensures Escape(content)[i] != 0xC0
    ensures Escape(content)[i] == 0xDB ==> i + 1 < |Escape(content)| && Escape(content)[i + 1] in {0xDC, 0xDD}
  {
    var first := EscapeByte(content[0]);
    if i >= |first| {
      EscapePairs(content[1..], i - |first|);
    }
  }

  lemma {:induction false} PlainContent(content: seq<byte>)
    requires 0xC0 !in content && 0xDB !in content
    ensures Escape(content) == content
  {
    if content != [] {
      PlainContent(content[1..]);
    }
  }

  lemma EscapedOctets()
    ensures Escape([0xC0]) == [0xDB, 0xDC] && Escape([0xDB]) == [0xDB, 0xDD]
  {
    assert [0xC0][1..] == [] && [0xDB][1..] == [];
  }

  // FEND is on the wire as a frame boundary and nowhere else.
  lemma FendOnlyDelimits(port: Port, command: Command, payload: seq<byte>, i: nat)
    requires i < |Wire(port, command, payload)|
    ensures Wire(port, command, payload)[i] == 0xC0 <==> i == 0 || i == |Wire(port, command, payload)| - 1
  {
    var body := Escape(Content(port, command, payload));
    EscapeHidesFend(Content(port, command, payload));
    if 0 < i <= |body| {
      assert Wire(port, command, payload)[i] == body[i - 1];
      assert body[i - 1] in body;
    }
  }

  // ---------------------------------------------------------------- encoders

  function Escapes(content: seq<byte>): nat {
    if content == [] then 0
    else (if content[0] == FEND || content[0] == FESC then 1 else 0) + Escapes(content[1..])
  }

  // The source counts over the payload followed by the command byte.
  function EncodedLen(port: Port, command: Command, payload: seq<byte>): nat {
    3 + |payload| + Escapes(payload + [ToByte(command, port)])
  }

  lemma {:induction false} EscapesAppend(a: seq<byte>, b: seq<byte>)
    ensures Escapes(a + b) == Escapes(a) + Escapes(b)
  {
    if a == [] {
      assert a + b == b;
    } else {
      EscapesAppend(a[1..], b);
      assert (a + b)[1..] == a[1..] + b;
    }
  }

  lemma {:induction false} EscapeLength(content: seq<byte>)
    ensures |Escape(content)| == |content| + Escapes(content)
  {
    if content != [] {
      EscapeLength(content[1..]);
    }
  }

  lemma EncodedLenIsExact(port: Port, command: Command, payload: seq<byte>)
    ensures EncodedLen(port, command, payload) == |Wire(port, command, payload)|
  {
    var cmd := [ToByte(command, port)];
    EscapesAppend(cmd, payload);
    EscapesAppend(payload, cmd);
    EscapeLength(cmd + payload);
  }

  // `out` holds `prefix` over what it held before.
  predicate Written(out: seq<byte>, prefix: seq<byte>, before: seq<byte>) {
    |prefix| <= |before| && out == prefix + before[|prefix|..]
  }

  method Put(out: array<byte>, pos: nat, b: byte, ghost prefix: seq<byte>, ghost before: seq<byte>)
    returns (next: nat)
    requires pos == |prefix| < out.Length && Written(out[..], prefix, before)
    modifies out
    ensures next == |prefix + [b]| && Written(out[..], prefix + [b], before)
  {
    if pos < out.Length {
      out[pos] := b;
    }
    next := pos + 1;
  }

  // One frame byte under the escaping rule.
  method PutEscaped(out: array<byte>, pos: nat, b: byte, ghost prefix: seq<byte>, ghost before: seq<byte>)
    returns (next: nat)
    requires pos == |prefix| && |prefix + EscapeByte(b)| <= out.Length && Written(out[..], prefix, before)
    modifies out
    ensures next == |prefix + EscapeByte(b)| && Written(out[..], prefix + EscapeByte(b), before)
  {
    if b == FEND || b == FESC {
      var follow := if b == FEND then TFEND else TFESC;
      next := Put(out, pos, FESC, prefix, before);
      next := Put(out, next, follow, prefix + [FESC], before);
      assert prefix + [FESC] + [follow] == prefix + EscapeByte(b);
    } else {
      next := Put(out, pos, b, prefix, before);
    }
  }

  lemma EscapeStep(content: seq<byte>, i: nat)
    requires i < |content|
    ensures [FEND] + Escape(content[..i + 1]) == [FEND] + Escape(content[..i]) + EscapeByte(content[i])
    ensures |Escape(content[..i + 1])| <= |Escape(content)|
  {
    assert content[..i + 1] == content[..i] + [content[i]];
    EscapeAppend(content[..i], [content[i]]);
    assert content == content[..i + 1] + content[i + 1..];
    EscapeAppend(content[..i + 1], content[i + 1..]);
  }

  method PutContent(content: seq<byte>, out: array<byte>, pos: nat, ghost before: seq<byte>)
    returns (next: nat)
    requires pos == 1 && |Escape(content)| + 1 <= out.Length && Written(out[..], [FEND], before)
    modifies out
    ensures next == |[FEND] + Escape(content)| && Written(out[..], [FEND] + Escape(content), before)
  {
    hide Written, Escape, EscapeByte;
    next := pos;
    EscapeOfNothing(content);
    for i := 0 to |content|
      invariant next == |[FEND] + Escape(content[..i])|
      invariant Written(out[..], [FEND] + Escape(content[..i]), before)
    {
      EscapeStep(content, i);
      next := PutEscaped(out, next, content[i], [FEND] + Escape(content[..i]), before);
    }
    assert content[..|content|] == content;
  }

  lemma EscapeOfNothing(content: seq<byte>)
    ensures [FEND] + Escape(content[..0]) == [FEND]
  {
  }

  method EncodeInto(port: Port, command: Command, payload: seq<byte>, out: array<byte>)
    returns (r: Result<nat, KissError>)
    modifies out
    ensures r.Ok? <==> |Wire(port, command, payload)| <= out.Length
    ensures r.Ok? ==> r.value == |Wire(port, command, payload)|
                      && Written(out[..], Wire(port, command, payload), old(out[..]))
    ensures r.Err? ==> r.error == BufferTooSmall(|Wire(port, command, payload)|, out.Length)
                       && out[..] == old(out[..])
  {
    hide EncodedLen, Escape, Content;
    EncodedLenIsExact(port, command, payload);
    var needed := EncodedLen(port, command, payload);
    if out.Length < needed {
      return Err(BufferTooSmall(needed, out.Length));
    }
    var content := Content(port, command, payload);
    ghost var before := out[..];
    var pos := Put(out, 0, FEND, [], before);
    pos := PutContent(content, out, pos, before);
    pos := Put(out, pos, FEND, [FEND] + Escape(content), before);
    return Ok(pos);
  }

  datatype EncState = OpenFend | InContent(pos: nat, pending: Option<byte>) | Done

  /** The lazy encoder; `Rest` is everything it has still to yield. */
  class KissFrameIter {
    const payload: seq<byte>
    const cmdByte: byte
    var state: EncState

    constructor (port: Port, command: Command, payload: seq<byte>)
      ensures Valid()
      ensures Rest() == Wire(port, command, payload)
    {
      this.payload := payload;
      this.cmdByte := ToByte(command, port);
      this.state := OpenFend;
    }

    function Frame(): seq<byte> {
      [cmdByte] + payload
    }

    function ContentAt(pos: nat): Option<byte>
      ensures ContentAt(pos) == if pos < |Frame()| then Some(Frame()[pos]) else None
    {
      if pos == 0 then Some(cmdByte)
      else if pos - 1 < |payload| then Some(payload[pos - 1]) else None
    }

    predicate Valid()
      reads this
    {
      state.InContent? ==>
        && state.pos <= |Frame()|
        && (state.pending.Some? ==> state.pos < |Frame()|)
    }

    function Rest(): seq<byte>
      reads this
      requires Valid()
    {
      match state
      case OpenFend => [FEND] + Escape(Frame()) + [FEND]
      case InContent(pos, None) => Escape(Frame()[pos..]) + [FEND]
      case InContent(pos, Some(b)) => [b] + Escape(Frame()[pos + 1..]) + [FEND]
      case Done => []
    }

    lemma EscapeHead(pos: nat)
      requires pos < |Frame()|
      ensures Escape(Frame()[pos..]) == EscapeByte(Frame()[pos]) + Escape(Frame()[pos + 1..])
    {
      assert Frame()[pos..] == [Frame()[pos]] + Frame()[pos + 1..];
    }

    // The next byte when no second half of an escape is pending.
    method NextContent(pos: nat) returns (b: byte)
      requires state == InContent(pos, None) && pos <= |Frame()|
      modifies this
      ensures Valid() && Escape(Frame()[pos..]) + [FEND] == [b] + Rest()
    {
      if pos < |Frame()| {
        EscapeHead(pos);
      } else {
        assert Escape(Frame()[pos..]) == [];
      }
      hide Escape;
      var c := ContentAt(pos);
      if c == Some(FEND) {
        state := InContent(pos, Some(TFEND));
        b := FESC;
      } else if c == Some(FESC) {
        state := InContent(pos, Some(TFESC));
        b := FESC;
      } else if c.Some? {
        state := InContent(pos + 1, None);
        b := c.value;
      } else {
        state := Done;
        b := FEND;
      }
    }

    method Next() returns (r: Option<byte>)
      requires Valid()
      modifies this
      ensures Valid()
      ensures r == if old(Rest()) == [] then None else Some(old(Rest())[0])
      ensures Rest() == if old(Rest()) == [] then [] else old(Rest())[1..]
    {
      hide Escape;
      match state {
        case OpenFend =>
          assert Frame()[0..] == Frame();
          state := InContent(0, None);
          r := Some(FEND);
        case InContent(pos, pending) =>
          if pending.Some? {
            state := InContent(pos + 1, None);
            return pending;
          }
          var b := NextContent(pos);
          r := Some(b);
        case Done =>
          r := None;
      }
    }
  }
}
