/**
 * The async decode pipeline as a step system: any number of feeds, each a reader
 * task and a blocking decode worker joined by a bounded chunk queue, all sharing
 * one bounded frame queue towards one consumer that may hang up at any moment.
 * The decoder is any function; every interleaving of the steps is a schedule.
 */
module Asynk {
  import opened Prelude

  const CHUNK_CAPACITY: nat := 4
  const CHANNEL_CAPACITY: nat := 64

  // What one call to the reader returns; the end of a script is end of file.
  datatype Read = Data(bytes: seq<byte>) | Interrupted | Failed(code: nat)

  datatype Item<F> = Frame(frame: F) | UnexpectedEof | ReadError(code: nat)

  datatype Pump = Reading | Sending(chunk: seq<byte>) | Joining(error: Option<nat>) | SendingError(code: nat) | PumpDone

  datatype Worker<F> =
    | Receiving
    | Decoding(pending: seq<byte>)
    | SendingFrame(frame: F, rest: seq<byte>)
    | SendingEof
    | WorkerDone

  datatype Feed<D, F> = Feed(script: seq<Read>, pump: Pump, chunkQ: seq<seq<byte>>, worker: Worker<F>,
                             carry: Option<byte>, decoder: D)

  // A 16-bit sample into the decoder, and the frame it completes, if any.
  type Decoder<!D, !F> = (D, int) -> (D, Option<F>)

  datatype Sys<D, F> = Sys(feeds: seq<Feed<D, F>>, frameQ: seq<(nat, Item<F>)>,
                           delivered: seq<(nat, Item<F>)>, live: bool)

  datatype Action = PumpStep(feed: nat) | WorkerStep(feed: nat) | Receive | HangUp

  // ---------------------------------------------------------------- what a feed should yield

  // The bytes read before the first failure or the end of file.
  function Input(script: seq<Read>): seq<byte> {
    if script == [] || script[0].Failed? then []
    else (if script[0].Data? then script[0].bytes else []) + Input(script[1..])
  }

  function FirstError(script: seq<Read>): Option<nat> {
    if script == [] then None
    else if script[0].Failed? then Some(script[0].code)
    else FirstError(script[1..])
  }

  // `i16::from_le_bytes`
  function Sample(lo: byte, hi: byte): int {
    if hi < 128 then lo + 256 * hi else lo + 256 * hi - 65536
  }

  // Little-endian byte pairs through the decoder; an odd byte out is an error.
  function Yield<D, F>(dec: Decoder<D, F>, d: D, bytes: seq<byte>): seq<Item<F>> {
    if bytes == [] then []
    else if |bytes| == 1 then [UnexpectedEof]
    else
      var (next, frame) := dec(d, Sample(bytes[0], bytes[1]));
      (if frame.Some? then [Frame(frame.value)] else []) + Yield(dec, next, bytes[2..])
  }

  function ErrorItem<F>(e: Option<nat>): seq<Item<F>> {
    if e.Some? then [ReadError(e.value)] else []
  }

  // The frames of the whole input, then the odd-byte error if any, then the read
  // error if any, last.
  function Expected<D, F>(dec: Decoder<D, F>, d: D, script: seq<Read>): seq<Item<F>> {
    Yield(dec, d, Input(script)) + ErrorItem(FirstError(script))
  }

  // ---------------------------------------------------------------- steps

  function StartFeed<D, F>(d: D, script: seq<Read>): Feed<D, F> {
    Feed(script, Reading, [], Receiving, None, d)
  }

  function Start<D, F>(d: D, scripts: seq<seq<Read>>): Sys<D, F> {
    Sys(seq(|scripts|, i requires 0 <= i < |scripts| => StartFeed<D, F>(d, scripts[i])), [], [], true)
  }

  predicate Closed(p: Pump) {
    p.Joining? || p.SendingError? || p.PumpDone?
  }

  // What one task does to its feed, and what it sends, if anything.
  datatype Move<D, F> = Move(feed: Feed<D, F>, item: Option<Item<F>>)

  function MovePump<D, F>(f: Feed<D, F>, canSend: bool): Option<Move<D, F>> {
    match f.pump
    case Reading =>
      if f.script == [] then Some(Move(f.(pump := Joining(None)), None))
      else (
        match f.script[0]
        case Data(bytes) => Some(Move(f.(pump := Sending(bytes), script := f.script[1..]), None))
        case Interrupted => Some(Move(f.(script := f.script[1..]), None))
        case Failed(code) => Some(Move(f.(pump := Joining(Some(code)), script := []), None))
      )
    case Sending(chunk) =>
      if f.worker.WorkerDone? then Some(Move(f.(pump := Joining(None)), None))
      else if |f.chunkQ| < CHUNK_CAPACITY then
        Some(Move(f.(pump := Reading, chunkQ := f.chunkQ + [chunk]), None))
      else None
    case Joining(error) =>
      if !f.worker.WorkerDone? then None
      else Some(Move(f.(pump := if error.Some? then SendingError(error.value) else PumpDone), None))
    case SendingError(code) =>
      if canSend then Some(Move(f.(pump := PumpDone), Some(ReadError(code)))) else None
    case PumpDone => None
  }

  // One sample through the decoder.
  function PushSample<D, F>(dec: Decoder<D, F>, f: Feed<D, F>, lo: byte, hi: byte, rest: seq<byte>): Feed<D, F> {
    var (next, frame) := dec(f.decoder, Sample(lo, hi));
    f.(carry := None, decoder := next,
       worker := if frame.Some? then SendingFrame(frame.value, rest) else Decoding(rest))
  }

  function Decode<D, F>(dec: Decoder<D, F>, f: Feed<D, F>, p: seq<byte>): Feed<D, F> {
    if f.carry.Some? && p != [] then PushSample(dec, f, f.carry.value, p[0], p[1..])
    else if p == [] then f.(worker := Receiving, carry := None)
    else if |p| == 1 then f.(worker := Receiving, carry := Some(p[0]))
    else PushSample(dec, f, p[0], p[1], p[2..])
  }

  function MoveWorker<D, F>(dec: Decoder<D, F>, f: Feed<D, F>, canSend: bool, live: bool): Option<Move<D, F>> {
    match f.worker
    case Receiving =>
      if f.chunkQ != [] then Some(Move(f.(worker := Decoding(f.chunkQ[0]), chunkQ := f.chunkQ[1..]), None))
      else if Closed(f.pump) then Some(Move(f.(worker := if f.carry.Some? then SendingEof else WorkerDone), None))
      else None
    case Decoding(p) => Some(Move(Decode(dec, f, p), None))
    case SendingFrame(frame, rest) =>
      if canSend then Some(Move(f.(worker := if live then Decoding(rest) else WorkerDone), Some(Frame(frame))))
      else None
    case SendingEof =>
      if canSend then Some(Move(f.(worker := WorkerDone, carry := None), Some(UnexpectedEof))) else None
    case WorkerDone => None
  }

  // A send on the frame queue fails at once when the consumer is gone, and blocks
  // when the queue is full.
  predicate CanSend<D, F>(s: Sys<D, F>) {
    !s.live || |s.frameQ| < CHANNEL_CAPACITY
  }

  function Apply<D, F>(s: Sys<D, F>, i: nat, move: Option<Move<D, F>>): Option<Sys<D, F>>
    requires i < |s.feeds|
  {
    match move
    case None => None
    case Some(m) =>
      Some(s.(feeds := s.feeds[i := m.feed],
              frameQ := if m.item.Some? && s.live then s.frameQ + [(i, m.item.value)] else s.frameQ))
  }

  function Step<D, F>(dec: Decoder<D, F>, s: Sys<D, F>, a: Action): Option<Sys<D, F>> {
    match a
    case PumpStep(i) => if i < |s.feeds| then Apply(s, i, MovePump(s.feeds[i], CanSend(s))) else None
    case WorkerStep(i) => if i < |s.feeds| then Apply(s, i, MoveWorker(dec, s.feeds[i], CanSend(s), s.live)) else None
    case Receive =>
      if s.live && s.frameQ != [] then Some(s.(frameQ := s.frameQ[1..], delivered := s.delivered + [s.frameQ[0]]))
      else None
    case HangUp => if s.live then Some(s.(live := false, frameQ := [])) else None
  }

  // A schedule: every action of it enabled in turn.
  function Run<D, F>(dec: Decoder<D, F>, s: Sys<D, F>, schedule: seq<Action>): Option<Sys<D, F>> {
    if schedule == [] then Some(s)
    else
      match Run(dec, s, schedule[..|schedule| - 1])
      case None => None
      case Some(t) => Step(dec, t, schedule[|schedule| - 1])
  }

  // ---------------------------------------------------------------- the invariant

  // The items of one feed, in order.
  function Of<F>(i: nat, q: seq<(nat, Item<F>)>): seq<Item<F>> {
    if q == [] then []
    else Of(i, q[..|q| - 1]) + (if q[|q| - 1].0 == i then [q[|q| - 1].1] else [])
  }

  function Concat(chunks: seq<seq<byte>>): seq<byte> {
    if chunks == [] then [] else chunks[0] + Concat(chunks[1..])
  }

  // The bytes behind the worker: queued, in the reader's hand, still to be read.
  function Upstream<D, F>(f: Feed<D, F>): seq<byte> {
    Concat(f.chunkQ) + (if f.pump.Sending? then f.pump.chunk else []) + Input(f.script)
  }

  function PendingError<D, F>(f: Feed<D, F>): Option<nat> {
    match f.pump
    case Joining(e) => e
    case SendingError(code) => Some(code)
    case PumpDone => None
    case _ => FirstError(f.script)
  }

  function Carried(carry: Option<byte>): seq<byte> {
    if carry.Some? then [carry.value] else []
  }

  // Everything a feed has still to send.
  function Outstanding<D, F>(dec: Decoder<D, F>, f: Feed<D, F>): seq<Item<F>> {
    (match f.worker
     case Receiving => Yield(dec, f.decoder, Carried(f.carry) + Upstream(f))
     case Decoding(p) => Yield(dec, f.decoder, Carried(f.carry) + p + Upstream(f))
     case SendingFrame(frame, rest) => [Frame(frame)] + Yield(dec, f.decoder, rest + Upstream(f))
     case SendingEof => [UnexpectedEof]
     case WorkerDone => [])
    + ErrorItem(PendingError(f))
  }

  predicate ChunksNonempty(script: seq<Read>) {
    forall k :: 0 <= k < |script| && script[k].Data? ==> script[k].bytes != []
  }

  ghost predicate FeedOk<D, F>(f: Feed<D, F>, live: bool) {
    && ChunksNonempty(f.script)
    && (forall k :: 0 <= k < |f.chunkQ| ==> f.chunkQ[k] != [])
    && (f.pump.Sending? ==> f.pump.chunk != [])
    && |f.chunkQ| <= CHUNK_CAPACITY
    && (f.worker.SendingFrame? ==> f.carry.None?)
    && (f.worker.Decoding? && f.carry.Some? ==> f.worker.pending != [])
    && (live && Closed(f.pump) ==> f.script == [])
    && (f.worker.SendingEof? || (live && f.worker.WorkerDone?) ==> Closed(f.pump) && f.chunkQ == [])
    && (f.pump.SendingError? || f.pump.PumpDone? ==> f.worker.WorkerDone?)
  }

  // Feed `i`: what has been queued for the consumer, then what is outstanding, is
  // what was expected of it from the start.
  ghost predicate Balanced<D, F>(dec: Decoder<D, F>, d: D, script: seq<Read>, s: Sys<D, F>, i: nat)
    requires i < |s.feeds|
  {
    Of(i, s.delivered + s.frameQ) + Outstanding(dec, s.feeds[i]) == Expected(dec, d, script)
  }

  ghost predicate Inv<D, F>(dec: Decoder<D, F>, d: D, scripts: seq<seq<Read>>, s: Sys<D, F>) {
    && |s.feeds| == |scripts|
    && |s.frameQ| <= CHANNEL_CAPACITY
    && (!s.live ==> s.frameQ == [])
    && (forall i :: 0 <= i < |s.feeds| ==> FeedOk(s.feeds[i], s.live))
    && (forall i :: 0 <= i < |s.feeds| ==> Of(i, s.delivered) <= Expected(dec, d, scripts[i]))
    && (s.live ==> forall i :: 0 <= i < |s.feeds| ==> Balanced(dec, d, scripts[i], s, i))
  }

  lemma {:induction false} OfAppend<F>(i: nat, a: seq<(nat, Item<F>)>, b: seq<(nat, Item<F>)>)
    ensures Of(i, a + b) == Of(i, a) + Of(i, b)
  {
    if b == [] {
      assert a + b == a;
    } else {
      var n := |b| - 1;
      OfAppend(i, a, b[..n]);
      assert (a + b)[..|a + b| - 1] == a + b[..n];
    }
  }

  lemma OfOne<F>(i: nat, j: nat, item: Item<F>)
    ensures Of(i, [(j, item)]) == if i == j then [item] else []
  {
    assert [(j, item)][..0] == [];
  }

  lemma {:induction false} ConcatAppend(chunks: seq<seq<byte>>, c: seq<byte>)
    ensures Concat(chunks + [c]) == Concat(chunks) + c
  {
    if chunks == [] {
      assert chunks + [c] == [c] && [c][1..] == [];
    } else {
      ConcatAppend(chunks[1..], c);
      assert (chunks + [c])[1..] == chunks[1..] + [c];
    }
  }

  // ---------------------------------------------------------------- each step conserves a feed's items

  lemma SampleKeeps<D, F>(dec: Decoder<D, F>, f: Feed<D, F>, lo: byte, hi: byte, rest: seq<byte>)
    ensures Outstanding(dec, PushSample(dec, f, lo, hi, rest))
         == Yield(dec, f.decoder, [lo, hi] + rest + Upstream(f)) + ErrorItem(PendingError(f))
  {
    var bytes := [lo, hi] + rest + Upstream(f);
    var g := PushSample(dec, f, lo, hi, rest);
    assert bytes[2..] == rest + Upstream(f);
    assert Upstream(g) == Upstream(f);
    assert Carried(None) + rest + Upstream(f) == rest + Upstream(f);
  }

  lemma DecodeKeeps<D, F>(dec: Decoder<D, F>, f: Feed<D, F>, live: bool)
    requires FeedOk(f, live) && f.worker.Decoding?
    ensures var g := Decode(dec, f, f.worker.pending);
            FeedOk(g, live) && Outstanding(dec, g) == Outstanding(dec, f)
  {
    hide Yield, Concat, Input, FirstError;
    var p, g := f.worker.pending, Decode(dec, f, f.worker.pending);
    assert Upstream(g) == Upstream(f);
    if f.carry.Some? {
      SampleKeeps(dec, f, f.carry.value, p[0], p[1..]);
      assert Carried(f.carry) + p == [f.carry.value, p[0]] + p[1..];
    } else if |p| >= 2 {
      SampleKeeps(dec, f, p[0], p[1], p[2..]);
      assert Carried(f.carry) + p == [p[0], p[1]] + p[2..];
    } else if |p| == 1 {
      assert Carried(f.carry) + p == Carried(Some(p[0]));
    } else {
      assert Carried(f.carry) + p == Carried(None);
    }
  }

  function Sends<F>(item: Option<Item<F>>): seq<Item<F>> {
    if item.Some? then [item.value] else []
  }

  // What a move sends and what it leaves outstanding is what was outstanding.
  ghost predicate Conserves<D, F>(dec: Decoder<D, F>, f: Feed<D, F>, live: bool, m: Move<D, F>) {
    FeedOk(m.feed, live) && (live ==> Sends(m.item) + Outstanding(dec, m.feed) == Outstanding(dec, f))
  }

  // Moving bytes along upstream of the worker changes nothing it will see.
  lemma SameOutstanding<D, F>(dec: Decoder<D, F>, f: Feed<D, F>, g: Feed<D, F>)
    requires g.worker == f.worker && g.carry == f.carry && g.decoder == f.decoder
    requires Upstream(g) == Upstream(f) && PendingError(g) == PendingError(f)
    ensures Outstanding(dec, g) == Outstanding(dec, f)
  {
  }

  lemma ReadingMovesOn<D, F>(f: Feed<D, F>, canSend: bool, live: bool)
    requires FeedOk(f, live) && f.pump.Reading?
    ensures var g := MovePump(f, canSend).value.feed;
            FeedOk(g, live) && Upstream(g) == Upstream(f) && PendingError(g) == PendingError(f)
  {
    hide Concat;
    if f.script != [] {
      assert f.script[0].Data? ==> f.script[0].bytes != [];
      assert Input(f.script) == (if f.script[0].Data? then f.script[0].bytes else [])
                                + (if f.script[0].Failed? then [] else Input(f.script[1..]));
    }
  }

  lemma ReadingConserves<D, F>(dec: Decoder<D, F>, f: Feed<D, F>, canSend: bool, live: bool)
    requires FeedOk(f, live) && f.pump.Reading?
    ensures Conserves(dec, f, live, MovePump(f, canSend).value)
  {
    var m := MovePump(f, canSend).value;
    assert m.item == None && m.feed.worker == f.worker && m.feed.carry == f.carry && m.feed.decoder == f.decoder;
    ReadingMovesOn(f, canSend, live);
    hide MovePump, Outstanding, Upstream, PendingError, FeedOk;
    SameOutstanding(dec, f, m.feed);
  }

  lemma SendingConserves<D, F>(dec: Decoder<D, F>, f: Feed<D, F>, canSend: bool, live: bool)
    requires FeedOk(f, live) && f.pump.Sending? && MovePump(f, canSend).Some?
    ensures Conserves(dec, f, live, MovePump(f, canSend).value)
  {
    var g := MovePump(f, canSend).value.feed;
    if !f.worker.WorkerDone? {
      ConcatAppend(f.chunkQ, f.pump.chunk);
      assert Upstream(g) == Upstream(f);
      hide Upstream, Outstanding, Concat;
      SameOutstanding(dec, f, g);
    } else {
      hide Yield, Concat, Input, FirstError;
    }
  }

  lemma PumpConserves<D, F>(dec: Decoder<D, F>, f: Feed<D, F>, canSend: bool, live: bool)
    requires FeedOk(f, live) && MovePump(f, canSend).Some?
    ensures Conserves(dec, f, live, MovePump(f, canSend).value)
  {
    match f.pump
    case Reading => ReadingConserves(dec, f, canSend, live);
    case Sending(_) => SendingConserves(dec, f, canSend, live);
    case Joining(_) =>
    case SendingError(_) =>
    case PumpDone =>
  }

  // The worker takes the next chunk, or finds the channel closed and empty.
  lemma TakingConserves<D, F>(dec: Decoder<D, F>, f: Feed<D, F>, live: bool)
    requires FeedOk(f, live) && f.worker.Receiving? && f.chunkQ != []
    ensures Conserves(dec, f, live, Move(f.(worker := Decoding(f.chunkQ[0]), chunkQ := f.chunkQ[1..]), None))
  {
    var g := f.(worker := Decoding(f.chunkQ[0]), chunkQ := f.chunkQ[1..]);
    assert Upstream(f) == f.chunkQ[0] + Upstream(g);
    assert PendingError(g) == PendingError(f);
    hide Upstream, PendingError, Yield;
    assert Carried(f.carry) + Upstream(f) == Carried(f.carry) + f.chunkQ[0] + Upstream(g);
  }

  lemma ClosedIsEmpty<D, F>(f: Feed<D, F>)
    requires FeedOk(f, true) && f.chunkQ == [] && Closed(f.pump)
    ensures Upstream(f) == []
  {
  }

  lemma ClosingConserves<D, F>(dec: Decoder<D, F>, f: Feed<D, F>, live: bool)
    requires FeedOk(f, live) && f.worker.Receiving? && f.chunkQ == [] && Closed(f.pump)
    ensures Conserves(dec, f, live, Move(f.(worker := if f.carry.Some? then SendingEof else WorkerDone), None))
  {
    if live {
      ClosedIsEmpty(f);
      hide Upstream;
      assert Carried(f.carry) + [] == Carried(f.carry);
    }
  }

  lemma ReceivingConserves<D, F>(dec: Decoder<D, F>, f: Feed<D, F>, canSend: bool, live: bool)
    requires FeedOk(f, live) && f.worker.Receiving? && MoveWorker(dec, f, canSend, live).Some?
    ensures Conserves(dec, f, live, MoveWorker(dec, f, canSend, live).value)
  {
    hide Conserves;
    if f.chunkQ != [] {
      TakingConserves(dec, f, live);
    } else {
      ClosingConserves(dec, f, live);
    }
  }

  lemma SendingFrameConserves<D, F>(dec: Decoder<D, F>, f: Feed<D, F>, live: bool)
    requires FeedOk(f, live) && f.worker.SendingFrame?
    ensures Conserves(dec, f, live, MoveWorker(dec, f, true, live).value)
  {
    var m := MoveWorker(dec, f, true, live).value;
    if live {
      var rest := f.worker.rest;
      assert Carried(f.carry) + rest + Upstream(f) == rest + Upstream(f);
      assert Upstream(m.feed) == Upstream(f) && PendingError(m.feed) == PendingError(f);
    }
  }

  lemma SendingEofConserves<D, F>(dec: Decoder<D, F>, f: Feed<D, F>, live: bool)
    requires FeedOk(f, live) && f.worker.SendingEof?
    ensures Conserves(dec, f, live, MoveWorker(dec, f, true, live).value)
  {
    assert PendingError(MoveWorker(dec, f, true, live).value.feed) == PendingError(f);
  }

  lemma WorkerConserves<D, F>(dec: Decoder<D, F>, f: Feed<D, F>, canSend: bool, live: bool)
    requires FeedOk(f, live) && MoveWorker(dec, f, canSend, live).Some?
    ensures Conserves(dec, f, live, MoveWorker(dec, f, canSend, live).value)
  {
    match f.worker
    case Receiving => ReceivingConserves(dec, f, canSend, live);
    case Decoding(_) => DecodeKeeps(dec, f, live);
    case SendingFrame(_, _) => SendingFrameConserves(dec, f, live);
    case SendingEof => SendingEofConserves(dec, f, live);
    case WorkerDone =>
  }

  lemma OfSends<F>(j: nat, i: nat, q: seq<(nat, Item<F>)>, item: Option<Item<F>>)
    ensures Of(j, q + (if item.Some? then [(i, item.value)] else []))
         == Of(j, q) + (if i == j then Sends(item) else [])
  {
    if item.Some? {
      OfAppend(j, q, [(i, item.value)]);
      OfOne(j, i, item.value);
    } else {
      assert q + [] == q;
    }
  }

  lemma ApplyBalanced<D, F>(dec: Decoder<D, F>, d: D, script: seq<Read>, s: Sys<D, F>, i: nat, m: Move<D, F>, j: nat)
    requires s.live && i < |s.feeds| && j < |s.feeds| && Conserves(dec, s.feeds[i], s.live, m)
    requires Balanced(dec, d, script, s, j)
    ensures Balanced(dec, d, script, Apply(s, i, Some(m)).value, j)
  {
    hide Of, Outstanding, Expected, FeedOk;
    var t, before := Apply(s, i, Some(m)).value, Of(j, s.delivered + s.frameQ);
    assert t.delivered + t.frameQ
        == (s.delivered + s.frameQ) + (if m.item.Some? then [(i, m.item.value)] else []);
    OfSends(j, i, s.delivered + s.frameQ, m.item);
    if i == j {
      assert (before + Sends(m.item)) + Outstanding(dec, m.feed) == before + (Sends(m.item) + Outstanding(dec, m.feed));
    } else {
      assert before + [] == before;
    }
  }

  lemma ApplyKeepsInv<D, F>(dec: Decoder<D, F>, d: D, scripts: seq<seq<Read>>, s: Sys<D, F>, i: nat, m: Move<D, F>)
    requires Inv(dec, d, scripts, s) && i < |s.feeds| && Conserves(dec, s.feeds[i], s.live, m)
    requires m.item.Some? ==> CanSend(s)
    ensures Inv(dec, d, scripts, Apply(s, i, Some(m)).value)
  {
    if s.live {
      forall j | 0 <= j < |s.feeds|
        ensures Balanced(dec, d, scripts[j], Apply(s, i, Some(m)).value, j)
      {
        ApplyBalanced(dec, d, scripts[j], s, i, m, j);
      }
    }
  }

  lemma ReceiveKeepsFeed<D, F>(dec: Decoder<D, F>, d: D, script: seq<Read>, s: Sys<D, F>, i: nat)
    requires s.live && s.frameQ != [] && i < |s.feeds| && Balanced(dec, d, script, s, i)
    ensures var t := Step(dec, s, Receive).value;
            Balanced(dec, d, script, t, i) && Of(i, t.delivered) <= Expected(dec, d, script)
  {
    hide Of, Outstanding, Expected;
    var t := Step(dec, s, Receive).value;
    assert t.delivered + t.frameQ == s.delivered + s.frameQ;
    OfAppend(i, t.delivered, t.frameQ);
  }

  lemma ReceiveKeepsInv<D, F>(dec: Decoder<D, F>, d: D, scripts: seq<seq<Read>>, s: Sys<D, F>)
    requires Inv(dec, d, scripts, s) && s.live && s.frameQ != []
    ensures Inv(dec, d, scripts, Step(dec, s, Receive).value)
  {
    var t := Step(dec, s, Receive).value;
    forall i | 0 <= i < |t.feeds|
      ensures Balanced(dec, d, scripts[i], t, i) && Of(i, t.delivered) <= Expected(dec, d, scripts[i])
    {
      ReceiveKeepsFeed(dec, d, scripts[i], s, i);
    }
  }

  lemma StepKeepsInv<D, F>(dec: Decoder<D, F>, d: D, scripts: seq<seq<Read>>, s: Sys<D, F>, a: Action)
    requires Inv(dec, d, scripts, s) && Step(dec, s, a).Some?
    ensures Inv(dec, d, scripts, Step(dec, s, a).value)
  {
    match a
    case PumpStep(i) =>
      PumpConserves(dec, s.feeds[i], CanSend(s), s.live);
      ApplyKeepsInv(dec, d, scripts, s, i, MovePump(s.feeds[i], CanSend(s)).value);
    case WorkerStep(i) =>
      WorkerConserves(dec, s.feeds[i], CanSend(s), s.live);
      ApplyKeepsInv(dec, d, scripts, s, i, MoveWorker(dec, s.feeds[i], CanSend(s), s.live).value);
    case Receive => ReceiveKeepsInv(dec, d, scripts, s);
    case HangUp =>
  }

  lemma StartInv<D, F>(dec: Decoder<D, F>, d: D, scripts: seq<seq<Read>>)
    requires forall i :: 0 <= i < |scripts| ==> ChunksNonempty(scripts[i])
    ensures Inv(dec, d, scripts, Start<D, F>(d, scripts))
  {
    var s := Start<D, F>(d, scripts);
    forall i | 0 <= i < |scripts|
      ensures Balanced(dec, d, scripts[i], s, i)
    {
      assert Carried(None) + Upstream(s.feeds[i]) == Input(scripts[i]);
    }
  }

  // ---------------------------------------------------------------- safety over every schedule

  lemma {:induction false} RunInv<D, F>(dec: Decoder<D, F>, d: D, scripts: seq<seq<Read>>, schedule: seq<Action>)
    requires forall i :: 0 <= i < |scripts| ==> ChunksNonempty(scripts[i])
    requires Run(dec, Start<D, F>(d, scripts), schedule).Some?
    ensures Inv(dec, d, scripts, Run(dec, Start<D, F>(d, scripts), schedule).value)
  {
    if schedule == [] {
      StartInv(dec, d, scripts);
    } else {
      var n := |schedule| - 1;
      RunInv(dec, d, scripts, schedule[..n]);
      StepKeepsInv(dec, d, scripts, Run(dec, Start<D, F>(d, scripts), schedule[..n]).value, schedule[n]);
    }
  }

  // Safety: on every schedule, each feed's delivered items are a prefix of what
  // its decoder yields on the whole input, and no queue outgrows its bound.
  lemma DeliveredIsPrefix<D, F>(dec: Decoder<D, F>, d: D, scripts: seq<seq<Read>>, schedule: seq<Action>, i: nat)
    requires forall k :: 0 <= k < |scripts| ==> ChunksNonempty(scripts[k])
    requires Run(dec, Start<D, F>(d, scripts), schedule).Some? && i < |scripts|
    ensures var s := Run(dec, Start<D, F>(d, scripts), schedule).value;
            && |s.feeds| == |scripts|
            && Of(i, s.delivered) <= Expected(dec, d, scripts[i])
            && |s.frameQ| <= 64 && |s.feeds[i].chunkQ| <= 4
  {
    RunInv(dec, d, scripts, schedule);
    var s := Run(dec, Start<D, F>(d, scripts), schedule).value;
    assert FeedOk(s.feeds[i], s.live);
  }

  predicate Complete<D, F>(s: Sys<D, F>) {
    s.frameQ == [] && forall i :: 0 <= i < |s.feeds| ==> s.feeds[i].pump.PumpDone?
  }

  // Completeness: once every task has ended and the queue is drained, a consumer
  // that stayed has received exactly what was expected, feed by feed.
  lemma CompleteMeansAll<D, F>(dec: Decoder<D, F>, d: D, scripts: seq<seq<Read>>, schedule: seq<Action>, i: nat)
    requires forall k :: 0 <= k < |scripts| ==> ChunksNonempty(scripts[k])
    requires Run(dec, Start<D, F>(d, scripts), schedule).Some? && i < |scripts|
    ensures var s := Run(dec, Start<D, F>(d, scripts), schedule).value;
            s.live && Complete(s) ==> Of(i, s.delivered) == Expected(dec, d, scripts[i])
  {
    RunInv(dec, d, scripts, schedule);
    var s := Run(dec, Start<D, F>(d, scripts), schedule).value;
    if s.live && Complete(s) {
      assert FeedOk(s.feeds[i], true) && s.feeds[i].pump.PumpDone?;
      assert Balanced(dec, d, scripts[i], s, i);
      assert s.delivered + s.frameQ == s.delivered;
      assert Outstanding(dec, s.feeds[i]) == [];
    }
  }

  // ---------------------------------------------------------------- no deadlock, and every schedule ends

  // In every state some task can move until all have ended and the queue is
  // drained; the consumer's part is only to keep receiving.
  lemma NeverStuck<D, F>(dec: Decoder<D, F>, s: Sys<D, F>) returns (a: Action)
    requires (!s.live ==> s.frameQ == []) && !Complete(s)
    ensures a != HangUp && Step(dec, s, a).Some?
  {
    if s.frameQ != [] {
      return Receive;
    }
    var i :| 0 <= i < |s.feeds| && !s.feeds[i].pump.PumpDone?;
    if MovePump(s.feeds[i], CanSend(s)).Some? {
      return PumpStep(i);
    }
    return WorkerStep(i);
  }

  function ChunkCost(chunks: seq<seq<byte>>): nat {
    if chunks == [] then 0 else 4 + 4 * |chunks[0]| + ChunkCost(chunks[1..])
  }

  function ScriptCost(script: seq<Read>): nat {
    if script == [] then 0
    else 6 + (if script[0].Data? then 4 * |script[0].bytes| else 0) + ScriptCost(script[1..])
  }

  // Work left in one feed: bytes not yet decoded, and how far its tasks are from done.
  function FeedCost<D, F>(f: Feed<D, F>): nat {
    ScriptCost(f.script) + ChunkCost(f.chunkQ)
    + (match f.pump
       case Reading => 8
       case Sending(c) => 13 + 4 * |c|
       case Joining(_) => 6
       case SendingError(_) => 5
       case PumpDone => 0)
    + (match f.worker
       case Receiving => 3
       case Decoding(p) => 5 + 4 * |p|
       case SendingFrame(_, rest) => 7 + 4 * |rest|
       case SendingEof => 2
       case WorkerDone => 0)
  }

  function TotalCost<D, F>(feeds: seq<Feed<D, F>>): nat {
    if feeds == [] then 0 else FeedCost(feeds[0]) + TotalCost(feeds[1..])
  }

  function Cost<D, F>(s: Sys<D, F>): nat {
    TotalCost(s.feeds) + |s.frameQ| + (if s.live then 1 else 0)
  }

  lemma {:induction false} TotalCostUpdate<D, F>(feeds: seq<Feed<D, F>>, i: nat, f: Feed<D, F>)
    requires i < |feeds|
    ensures TotalCost(feeds[i := f]) == TotalCost(feeds) - FeedCost(feeds[i]) + FeedCost(f)
  {
    if i == 0 {
      assert feeds[i := f][1..] == feeds[1..];
    } else {
      TotalCostUpdate(feeds[1..], i - 1, f);
      assert feeds[i := f][1..] == feeds[1..][i - 1 := f];
    }
  }

  lemma {:induction false} ChunkCostAppend(chunks: seq<seq<byte>>, c: seq<byte>)
    ensures ChunkCost(chunks + [c]) == ChunkCost(chunks) + 4 + 4 * |c|
  {
    if chunks == [] {
      assert chunks + [c] == [c] && [c][1..] == [];
    } else {
      ChunkCostAppend(chunks[1..], c);
      assert (chunks + [c])[1..] == chunks[1..] + [c];
    }
  }

  lemma PumpCostsLess<D, F>(f: Feed<D, F>, canSend: bool)
    requires MovePump(f, canSend).Some?
    ensures var m := MovePump(f, canSend).value; FeedCost(m.feed) + |Sends(m.item)| < FeedCost(f)
  {
    if f.pump.Sending? {
      ChunkCostAppend(f.chunkQ, f.pump.chunk);
    }
  }

  lemma DecodeCostsLess<D, F>(dec: Decoder<D, F>, f: Feed<D, F>)
    requires f.worker.Decoding?
    ensures FeedCost(Decode(dec, f, f.worker.pending)) < FeedCost(f)
  {
    hide ChunkCost;
  }

  lemma WorkerCostsLess<D, F>(dec: Decoder<D, F>, f: Feed<D, F>, canSend: bool, live: bool)
    requires MoveWorker(dec, f, canSend, live).Some?
    ensures var m := MoveWorker(dec, f, canSend, live).value; FeedCost(m.feed) + |Sends(m.item)| < FeedCost(f)
  {
    if f.worker.Decoding? {
      hide Decode, FeedCost;
      DecodeCostsLess(dec, f);
    } else {
      hide Decode;
    }
  }

  // Every step costs something, so no schedule is longer than the initial cost.
  lemma StepCostsLess<D, F>(dec: Decoder<D, F>, s: Sys<D, F>, a: Action)
    requires Step(dec, s, a).Some?
    ensures Cost(Step(dec, s, a).value) < Cost(s)
  {
    match a
    case PumpStep(i) =>
      PumpCostsLess(s.feeds[i], CanSend(s));
      TotalCostUpdate(s.feeds, i, MovePump(s.feeds[i], CanSend(s)).value.feed);
    case WorkerStep(i) =>
      WorkerCostsLess(dec, s.feeds[i], CanSend(s), s.live);
      TotalCostUpdate(s.feeds, i, MoveWorker(dec, s.feeds[i], CanSend(s), s.live).value.feed);
    case Receive =>
    case HangUp =>
  }

  lemma {:induction false} SchedulesAreBounded<D, F>(dec: Decoder<D, F>, s: Sys<D, F>, schedule: seq<Action>)
    requires Run(dec, s, schedule).Some?
    ensures |schedule| + Cost(Run(dec, s, schedule).value) <= Cost(s)
  {
    if schedule != [] {
      var n := |schedule| - 1;
      SchedulesAreBounded(dec, s, schedule[..n]);
      StepCostsLess(dec, Run(dec, s, schedule[..n]).value, schedule[n]);
    }
  }

  ghost predicate Maximal<D, F>(dec: Decoder<D, F>, s: Sys<D, F>) {
    forall a :: a != HangUp ==> Step(dec, s, a).None?
  }

  // Together: a schedule that has run until nothing but a hang-up is possible has
  // delivered everything, in order, errors last, to a consumer still there.
  lemma MaximalSchedulesDeliverAll<D, F>(dec: Decoder<D, F>, d: D, scripts: seq<seq<Read>>,
                                         schedule: seq<Action>, i: nat)
    requires forall k :: 0 <= k < |scripts| ==> ChunksNonempty(scripts[k])
    requires Run(dec, Start<D, F>(d, scripts), schedule).Some? && i < |scripts|
    requires var s := Run(dec, Start<D, F>(d, scripts), schedule).value; s.live && Maximal(dec, s)
    ensures Of(i, Run(dec, Start<D, F>(d, scripts), schedule).value.delivered) == Expected(dec, d, scripts[i])
  {
    var s := Run(dec, Start<D, F>(d, scripts), schedule).value;
    if !Complete(s) {
      var a := NeverStuck(dec, s);
    }
    CompleteMeansAll(dec, d, scripts, schedule, i);
  }

  // The odd-byte error is reported exactly when the number of bytes read is odd,
  // after every frame.
  lemma {:induction false} OddByteReported<D, F>(dec: Decoder<D, F>, d: D, bytes: seq<byte>)
    ensures |bytes| % 2 == 1 <==> UnexpectedEof in Yield(dec, d, bytes)
    ensures forall k :: 0 <= k < |Yield(dec, d, bytes)| && Yield(dec, d, bytes)[k] == UnexpectedEof
              ==> k == |Yield(dec, d, bytes)| - 1
    decreases |bytes|
  {
    if |bytes| >= 2 {
      OddByteReported(dec, dec(d, Sample(bytes[0], bytes[1])).0, bytes[2..]);
    }
  }

  // ---------------------------------------------------------------- samples, and when a send waits

  // A sample as the source of the bytes writes it: the low octet first.
  function Octets(x: int): seq<byte> {
    [x % 256, x / 256 % 256]
  }

  function AllOctets(samples: seq<int>): seq<byte> {
    if samples == [] then [] else Octets(samples[0]) + AllOctets(samples[1..])
  }

  // What the decoder makes of the samples themselves.
  function Frames<D, F>(dec: Decoder<D, F>, d: D, samples: seq<int>): seq<Item<F>> {
    if samples == [] then []
    else
      var (next, frame) := dec(d, samples[0]);
      (if frame.Some? then [Frame(frame.value)] else []) + Frames(dec, next, samples[1..])
  }

  lemma SampleOfOctets(x: int)
    requires -32768 <= x <= 32767
    ensures Sample(Octets(x)[0], Octets(x)[1]) == x
  {
    assert x == (x / 256) * 256 + x % 256;
  }

  lemma OctetsFirst(samples: seq<int>)
    requires samples != []
    ensures var bytes, first := AllOctets(samples), Octets(samples[0]);
            |bytes| >= 2 && bytes[0] == first[0] && bytes[1] == first[1] && bytes[2..] == AllOctets(samples[1..])
  {
  }

  lemma YieldOfPair<D, F>(dec: Decoder<D, F>, d: D, bytes: seq<byte>)
    requires |bytes| >= 2
    ensures var (next, frame) := dec(d, Sample(bytes[0], bytes[1]));
            Yield(dec, d, bytes) == (if frame.Some? then [Frame(frame.value)] else []) + Yield(dec, next, bytes[2..])
  {
  }

  // The bytes of 16-bit samples give exactly the decoder's frames for those
  // samples, and no odd byte.
  lemma {:induction false} SamplesArrive<D, F>(dec: Decoder<D, F>, d: D, samples: seq<int>)
    requires forall k :: 0 <= k < |samples| ==> -32768 <= samples[k] <= 32767
    ensures Yield(dec, d, AllOctets(samples)) == Frames(dec, d, samples)
  {
    if samples != [] {
      var x := samples[0];
      SampleOfOctets(x);
      SamplesArrive(dec, dec(d, x).0, samples[1..]);
      hide Sample, AllOctets, Yield;
      OctetsFirst(samples);
      YieldOfPair(dec, d, AllOctets(samples));
    }
  }

  // A script that reads data, with interruptions, and then fails or ends.
  predicate OnlyReads(script: seq<Read>) {
    forall k :: 0 <= k < |script| ==> !script[k].Failed?
  }

  function AllRead(script: seq<Read>): seq<byte> {
    if script == [] then []
    else (match script[0] case Data(bytes) => bytes case _ => []) + AllRead(script[1..])
  }

  lemma {:induction false} ReadsGoOn(script: seq<Read>, rest: seq<Read>)
    requires OnlyReads(script)
    ensures Input(script + rest) == AllRead(script) + Input(rest)
    ensures FirstError(script + rest) == FirstError(rest)
  {
    if script == [] {
      assert script + rest == rest;
    } else {
      AppendParts(script, rest);
      ReadsGoOn(script[1..], rest);
      var first := match script[0] case Data(bytes) => bytes case _ => [];
      assert Input(script + rest) == first + Input(script[1..] + rest);
      assert FirstError(script + rest) == FirstError(script[1..] + rest);
      assert AllRead(script) == first + AllRead(script[1..]);
      hide Input, AllRead, FirstError;
      ConcatAssoc(first, AllRead(script[1..]), Input(rest));
    }
  }

  // Interruptions change nothing; a failure ends the reading and is the last item,
  // behind everything the bytes before it yield.
  lemma FailureIsLast<D, F>(dec: Decoder<D, F>, d: D, script: seq<Read>, code: nat, rest: seq<Read>)
    requires OnlyReads(script)
    ensures Expected(dec, d, script + [Failed(code)] + rest) == Yield(dec, d, AllRead(script)) + [ReadError(code)]
    ensures Expected(dec, d, script) == Yield(dec, d, AllRead(script))
  {
    assert script + [Failed(code)] + rest == script + ([Failed(code)] + rest);
    ReadsGoOn(script, [Failed(code)] + rest);
    ReadsGoOn(script, []);
    assert script + [] == script && AllRead(script) + [] == AllRead(script);
    assert Yield(dec, d, AllRead(script)) + [] == Yield(dec, d, AllRead(script));
    assert Input([Failed(code)] + rest) == [] && FirstError([Failed(code)] + rest) == Some(code);
  }

  // Once the consumer has hung up, the worker gives up at its next frame, the pump
  // at its next chunk after that, and nothing more is queued.
  lemma HangUpEndsFeed<D, F>(dec: Decoder<D, F>, s: Sys<D, F>, i: nat)
    requires i < |s.feeds| && !s.live && s.frameQ == []
    ensures var f := s.feeds[i];
            f.worker.SendingFrame? ==>
              Step(dec, s, WorkerStep(i)) == Some(s.(feeds := s.feeds[i := f.(worker := WorkerDone)]))
    ensures var f := s.feeds[i];
            f.pump.Sending? && f.worker.WorkerDone? ==>
              Step(dec, s, PumpStep(i)) == Some(s.(feeds := s.feeds[i := f.(pump := Joining(None))]))
  {
  }

  // A worker with a frame to send waits if and only if the consumer is there and
  // 64 items are queued; a pump with a chunk waits if and only if its worker still
  // runs and four chunks are queued.
  lemma WaitsExactlyWhenFull<D, F>(dec: Decoder<D, F>, s: Sys<D, F>, i: nat)
    requires i < |s.feeds| && |s.frameQ| <= 64 && |s.feeds[i].chunkQ| <= 4
    ensures s.feeds[i].worker.SendingFrame? || s.feeds[i].worker.SendingEof? ==>
              (Step(dec, s, WorkerStep(i)).None? <==> s.live && |s.frameQ| == 64)
    ensures s.feeds[i].pump.SendingError? ==>
              (Step(dec, s, PumpStep(i)).None? <==> s.live && |s.frameQ| == 64)
    ensures s.feeds[i].pump.Sending? ==>
              (Step(dec, s, PumpStep(i)).None? <==> !s.feeds[i].worker.WorkerDone? && |s.feeds[i].chunkQ| == 4)
  {
  }

  // ---------------------------------------------------------------- the blocking reader

  /** The plain reader the blocking side gets over the chunk queue. */
  class ChunkReader {
    var chunks: seq<Result<seq<byte>, nat>>
    var buffer: seq<byte>
    var pos: nat

    constructor (chunks: seq<Result<seq<byte>, nat>>)
      ensures pos == 0 && buffer == [] && this.chunks == chunks
    {
      this.chunks := chunks;
      buffer := [];
      pos := 0;
    }

    ghost predicate Valid()
      reads this
    {
      pos <= |buffer|
    }

    // The bytes still to come before the first error or the end.
    ghost function Ahead(): seq<byte>
      reads this
      requires Valid()
    {
      buffer[pos..] + UpToError(chunks)
    }

    method Read(room: nat) returns (r: Result<seq<byte>, nat>)
      requires Valid()
      modifies this
      ensures Valid()
      ensures r.Ok? ==> |r.value| <= room && old(Ahead()) == r.value + Ahead()
                        && ErrorOf(chunks) == ErrorOf(old(chunks))
                        && (room > 0 && r.value == [] ==> old(Ahead()) == [] && ErrorOf(old(chunks)) == None)
                        && (|r.value| < room ==> pos == |buffer|)
      ensures r.Err? ==> old(Ahead()) == [] && ErrorOf(old(chunks)) == Some(r.error)
    {
      while pos >= |buffer|
        invariant Valid()
        invariant Ahead() == old(Ahead()) && ErrorOf(chunks) == ErrorOf(old(chunks))
        decreases |chunks|, |buffer| - pos
      {
        if chunks == [] {
          return Ok([]);
        }
        var next := chunks[0];
        chunks := chunks[1..];
        if next.Err? {
          return Err(next.error);
        }
        buffer := next.value;
        pos := 0;
      }
      var n := if room < |buffer| - pos then room else |buffer| - pos;
      var out := buffer[pos..pos + n];
      pos := pos + n;
      return Ok(out);
    }
  }

  function UpToError(chunks: seq<Result<seq<byte>, nat>>): seq<byte> {
    if chunks == [] || chunks[0].Err? then [] else chunks[0].value + UpToError(chunks[1..])
  }

  function ErrorOf(chunks: seq<Result<seq<byte>, nat>>): Option<nat> {
    if chunks == [] then None
    else if chunks[0].Err? then Some(chunks[0].error)
    else ErrorOf(chunks[1..])
  }
}
