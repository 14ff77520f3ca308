/**
 * FT8's normalized min-sum belief-propagation decoder, over the reals, for any
 * sparse check table of the declared shape: 83 rows of seven slots, each a
 * codeword index or the padding value 255.
 */
module Ft8MinSum {
  import opened Prelude
  import opened Bits
  import opened Ft8Ldpc

  const LDPC_MAX_ITERS: nat := 40
  const MIN_SUM_ALPHA: real := 0.8
  const F32_MAX: real := 340282346638528859811704183484516925440.0
  const PAD: nat := 255

  // An f32 channel value: a number, or NaN / an infinity.
  datatype Llr = Finite(v: real) | NotFinite

  datatype DecodeError = LdpcNotConverged | LlrNotFinite

  const NO_EDGES: CheckRow := [PAD, PAD, PAD, PAD, PAD, PAD, PAD]
  const QUIET: RowMessages := [0.0, 0.0, 0.0, 0.0, 0.0, 0.0, 0.0]

  type CheckRow = r: seq<nat> | |r| == 7 && forall e :: 0 <= e < 7 ==> r[e] == PAD || r[e] < CODEWORD_BITS
    witness seq(7, _ => PAD)

  type CheckTable = t: seq<CheckRow> | |t| == PARITY_BITS witness seq<CheckRow>(PARITY_BITS, _ => NO_EDGES)

  type RowMessages = m: seq<real> | |m| == 7 witness seq(7, _ => 0.0)

  type Messages = m: seq<RowMessages> | |m| == PARITY_BITS witness seq<RowMessages>(PARITY_BITS, _ => QUIET)

  type Word = w: seq<bool> | |w| == CODEWORD_BITS witness seq(CODEWORD_BITS, _ => false)

  type Soft = s: seq<real> | |s| == CODEWORD_BITS witness seq(CODEWORD_BITS, _ => 0.0)

  function Abs(x: real): real {
    if x < 0.0 then -x else x
  }

  function Min(x: real, y: real): real {
    if x < y then x else y
  }

  function Sgn(x: real): real {
    if x < 0.0 then -1.0 else 1.0
  }

  // ---------------------------------------------------------------- the textbook iteration

  // What the first `r` rows and `e` slots of row `r` say about bit `v`.
  function Incoming(table: CheckTable, msgs: Messages, v: nat, r: nat, e: nat): real
    requires (r < PARITY_BITS && e <= 7) || (r == PARITY_BITS && e == 0)
    decreases r, e
  {
    if e > 0 then
      Incoming(table, msgs, v, r, e - 1) + (if table[r][e - 1] == v then msgs[r][e - 1] else 0.0)
    else if r > 0 then Incoming(table, msgs, v, r - 1, 7)
    else 0.0
  }

  function Posterior(table: CheckTable, llr: Soft, msgs: Messages): Soft {
    seq(CODEWORD_BITS, v requires 0 <= v < CODEWORD_BITS => llr[v] + Incoming(table, msgs, v, PARITY_BITS, 0))
  }

  // A negative posterior is a one.
  function Hard(post: Soft): Word {
    seq(CODEWORD_BITS, v requires 0 <= v < CODEWORD_BITS => post[v] < 0.0)
  }

  function Odd(row: CheckRow, word: Word, n: nat): bool
    requires n <= 7
  {
    if n == 0 then false
    else Odd(row, word, n - 1) != (row[n - 1] != PAD && word[row[n - 1]])
  }

  predicate ChecksHold(table: CheckTable, word: Word) {
    forall r :: 0 <= r < PARITY_BITS ==> !Odd(table[r], word, 7)
  }

  // The extrinsic value of edge `e`: what the bit says without this check.
  function Extrinsic(row: CheckRow, post: Soft, msgs: RowMessages, e: nat): real
    requires e < 7 && row[e] != PAD
  {
    post[row[e]] - msgs[e]
  }

  // Product of the signs, over the first `n` slots, of every edge but `skip`.
  function SignExcept(row: CheckRow, post: Soft, msgs: RowMessages, skip: nat, n: nat): real
    requires n <= 7
  {
    if n == 0 then 1.0
    else if n - 1 == skip || row[n - 1] == PAD then SignExcept(row, post, msgs, skip, n - 1)
    else SignExcept(row, post, msgs, skip, n - 1) * Sgn(Extrinsic(row, post, msgs, n - 1))
  }

  // Smallest magnitude, over the first `n` slots, of every edge but `skip`.
  function MinExcept(row: CheckRow, post: Soft, msgs: RowMessages, skip: nat, n: nat): real
    requires n <= 7
  {
    if n == 0 then F32_MAX
    else if n - 1 == skip || row[n - 1] == PAD then MinExcept(row, post, msgs, skip, n - 1)
    else Min(MinExcept(row, post, msgs, skip, n - 1), Abs(Extrinsic(row, post, msgs, n - 1)))
  }

  // 0.8 x (product of the other edges' signs) x (minimum of their magnitudes).
  function Message(row: CheckRow, post: Soft, msgs: RowMessages, e: nat): real
    requires e < 7
  {
    if row[e] == PAD then msgs[e]
    else MIN_SUM_ALPHA * SignExcept(row, post, msgs, e, 7) * MinExcept(row, post, msgs, e, 7)
  }

  function NextRow(row: CheckRow, post: Soft, msgs: RowMessages): RowMessages {
    seq(7, e requires 0 <= e < 7 => Message(row, post, msgs, e))
  }

  function NextMessages(table: CheckTable, post: Soft, msgs: Messages): Messages {
    seq(PARITY_BITS, r requires 0 <= r < PARITY_BITS => NextRow(table[r], post, msgs[r]))
  }

  function Silent(): Messages {
    seq(PARITY_BITS, _ => QUIET)
  }

  // The messages after `k` rounds, and the posteriors of round `k`.
  function MessagesAt(table: CheckTable, llr: Soft, k: nat): Messages
    decreases k, 0
  {
    if k == 0 then Silent()
    else NextMessages(table, Round(table, llr, k - 1), MessagesAt(table, llr, k - 1))
  }

  function Round(table: CheckTable, llr: Soft, k: nat): Soft
    decreases k, 1
  {
    Posterior(table, llr, MessagesAt(table, llr, k))
  }

  function RoundWord(table: CheckTable, llr: Soft, k: nat): Word {
    Hard(Round(table, llr, k))
  }

  predicate ConvergesAt(table: CheckTable, llr: Soft, k: nat) {
    ChecksHold(table, RoundWord(table, llr, k))
  }

  // The hard decision of the first converging round from round `k` on.
  function DecodeFrom(table: CheckTable, llr: Soft, k: nat): Option<Word>
    decreases LDPC_MAX_ITERS - k, llr
  {
    if k >= LDPC_MAX_ITERS then None
    else if ConvergesAt(table, llr, k) then Some(RoundWord(table, llr, k))
    else DecodeFrom(table, llr, k + 1)
  }

  // ---------------------------------------------------------------- the two-minimum form

  const NO_SKIP: nat := 7

  // Leaving an edge out never lowers the minimum, and leaving out any other edge
  // than `at` keeps `at` in it.
  lemma {:induction false} MinExceptBounds(row: CheckRow, post: Soft, msgs: RowMessages, skip: nat, at: nat, n: nat)
    requires n <= 7
    ensures MinExcept(row, post, msgs, NO_SKIP, n) <= MinExcept(row, post, msgs, skip, n) <= F32_MAX
    ensures at < n && at != skip && row[at] != PAD
            ==> MinExcept(row, post, msgs, skip, n) <= Abs(Extrinsic(row, post, msgs, at))
  {
    if n > 0 {
      MinExceptBounds(row, post, msgs, skip, at, n - 1);
    }
  }

  lemma {:induction false} MinExceptBeyond(row: CheckRow, post: Soft, msgs: RowMessages, skip: nat, n: nat)
    requires n <= 7 && n <= skip
    ensures MinExcept(row, post, msgs, skip, n) == MinExcept(row, post, msgs, NO_SKIP, n)
    ensures SignExcept(row, post, msgs, skip, n) == SignExcept(row, post, msgs, NO_SKIP, n)
  {
    if n > 0 {
      MinExceptBeyond(row, post, msgs, skip, n - 1);
    }
  }

  // Flipping the overall sign by an edge's own sign takes that edge out again.
  lemma {:induction false} SignOfOthers(row: CheckRow, post: Soft, msgs: RowMessages, e: nat, n: nat)
    requires e < n <= 7 && row[e] != PAD
    ensures SignExcept(row, post, msgs, NO_SKIP, n)
         == SignExcept(row, post, msgs, e, n) * Sgn(Extrinsic(row, post, msgs, e))
  {
    var s := Sgn(Extrinsic(row, post, msgs, e));
    if n - 1 == e {
      MinExceptBeyond(row, post, msgs, e, n - 1);
    } else {
      SignOfOthers(row, post, msgs, e, n - 1);
      if row[n - 1] != PAD {
        var t, x := Sgn(Extrinsic(row, post, msgs, n - 1)), SignExcept(row, post, msgs, e, n - 1);
        assert (x * s) * t == (x * t) * s;
      }
    }
  }

  // What the scan has established after `n` slots.
  ghost predicate Scanned(row: CheckRow, post: Soft, msgs: RowMessages, n: nat,
                          signAll: real, min1: real, min2: real, minAt: nat)
    requires n <= 7
  {
    && signAll == SignExcept(row, post, msgs, NO_SKIP, n)
    && min1 == MinExcept(row, post, msgs, NO_SKIP, n)
    && min2 == MinExcept(row, post, msgs, minAt, n)
    && min1 <= min2
    && minAt < 7
    && (min1 < F32_MAX ==> minAt < n && row[minAt] != PAD && Abs(Extrinsic(row, post, msgs, minAt)) == min1)
  }

  lemma ScanStep(row: CheckRow, post: Soft, msgs: RowMessages, n: nat,
                 signAll: real, min1: real, min2: real, minAt: nat)
    requires n < 7 && Scanned(row, post, msgs, n, signAll, min1, min2, minAt)
    ensures row[n] == PAD ==> Scanned(row, post, msgs, n + 1, signAll, min1, min2, minAt)
    ensures row[n] != PAD ==>
              var m := Extrinsic(row, post, msgs, n);
              var sign, a := if m < 0.0 then -signAll else signAll, Abs(m);
              && (a < min1 ==> Scanned(row, post, msgs, n + 1, sign, a, min1, n))
              && (min1 <= a < min2 ==> Scanned(row, post, msgs, n + 1, sign, min1, a, minAt))
              && (min1 <= a && min2 <= a ==> Scanned(row, post, msgs, n + 1, sign, min1, min2, minAt))
  {
    MinExceptBeyond(row, post, msgs, n, n);
    MinExceptBounds(row, post, msgs, minAt, minAt, n);
  }

  lemma ScanGivesOthers(row: CheckRow, post: Soft, msgs: RowMessages,
                        signAll: real, min1: real, min2: real, minAt: nat, e: nat)
    requires Scanned(row, post, msgs, 7, signAll, min1, min2, minAt)
    requires e < 7 && row[e] != PAD
    ensures var mag := if e == minAt then min2 else min1;
            var sign := if Extrinsic(row, post, msgs, e) < 0.0 then -signAll else signAll;
            MIN_SUM_ALPHA * sign * mag == Message(row, post, msgs, e)
  {
    hide SignExcept, MinExcept, Extrinsic, Sgn;
    MagOfOthers(row, post, msgs, signAll, min1, min2, minAt, e);
    SignOfOthers(row, post, msgs, e, 7);
    FlipSign(signAll, SignExcept(row, post, msgs, e, 7), Extrinsic(row, post, msgs, e));
  }

  lemma FlipSign(all: real, others: real, x: real)
    requires all == others * Sgn(x)
    ensures (if x < 0.0 then -all else all) == others
  {
  }

  lemma MagOfOthers(row: CheckRow, post: Soft, msgs: RowMessages,
                    signAll: real, min1: real, min2: real, minAt: nat, e: nat)
    requires Scanned(row, post, msgs, 7, signAll, min1, min2, minAt)
    requires e < 7 && row[e] != PAD
    ensures (if e == minAt then min2 else min1) == MinExcept(row, post, msgs, e, 7)
  {
    MinExceptBounds(row, post, msgs, e, minAt, 7);
  }

  method ScanRow(row: CheckRow, post: Soft, msgs: RowMessages, v2c: array<real>)
    returns (signAll: real, min1: real, min2: real, minAt: nat)
    requires v2c.Length == 7
    modifies v2c
    ensures Scanned(row, post, msgs, 7, signAll, min1, min2, minAt)
    ensures forall k :: 0 <= k < 7 && row[k] != PAD ==> v2c[k] == Extrinsic(row, post, msgs, k)
  {
    signAll, min1, min2, minAt := 1.0, F32_MAX, F32_MAX, 0;
    for e := 0 to 7
      invariant Scanned(row, post, msgs, e, signAll, min1, min2, minAt)
      invariant forall k :: 0 <= k < e && row[k] != PAD ==> v2c[k] == Extrinsic(row, post, msgs, k)
    {
      ScanStep(row, post, msgs, e, signAll, min1, min2, minAt);
      if row[e] == PAD {
        continue;
      }
      var m := post[row[e]] - msgs[e];
      v2c[e] := m;
      if m < 0.0 {
        signAll := -signAll;
      }
      var a := Abs(m);
      if a < min1 {
        min2 := min1;
        min1 := a;
        minAt := e;
      } else if a < min2 {
        min2 := a;
      }
    }
  }

  // The check update of one row, in the source's fast form: one scan for the two
  // smallest magnitudes and the overall sign, one pass to write the messages.
  method UpdateRow(row: CheckRow, post: Soft, msgs: RowMessages) returns (next: RowMessages)
    ensures next == NextRow(row, post, msgs)
  {
    var v2c := new real[7](_ => 0.0);
    var signAll, min1, min2, minAt := ScanRow(row, post, msgs, v2c);
    var extrinsic := v2c[..];
    next := msgs;
    for e := 0 to 7
      invariant forall k :: 0 <= k < e ==> next[k] == Message(row, post, msgs, k)
      invariant forall k :: e <= k < 7 ==> next[k] == msgs[k]
    {
      if row[e] == PAD {
        continue;
      }
      ScanGivesOthers(row, post, msgs, signAll, min1, min2, minAt, e);
      var mag := if e == minAt then min2 else min1;
      var sign := if extrinsic[e] < 0.0 then -signAll else signAll;
      next := next[e := MIN_SUM_ALPHA * sign * mag];
    }
  }

  method UpdateMessages(table: CheckTable, post: Soft, c2v: array<RowMessages>)
    requires c2v.Length == PARITY_BITS
    modifies c2v
    ensures c2v[..] == NextMessages(table, post, old(c2v[..]))
  {
    for r := 0 to PARITY_BITS
      invariant forall k :: 0 <= k < r ==> c2v[k] == NextRow(table[k], post, old(c2v[k]))
      invariant forall k :: r <= k < PARITY_BITS ==> c2v[k] == old(c2v[k])
    {
      c2v[r] := UpdateRow(table[r], post, c2v[r]);
    }
  }

  // ---------------------------------------------------------------- the decoder

  method ChecksSatisfied(table: CheckTable, post: Soft) returns (ok: bool)
    ensures ok == ChecksHold(table, Hard(post))
  {
    for r := 0 to PARITY_BITS
      invariant forall k :: 0 <= k < r ==> !Odd(table[k], Hard(post), 7)
    {
      var parity := false;
      for e := 0 to 7
        invariant parity == Odd(table[r], Hard(post), e)
      {
        if table[r][e] != PAD && post[table[r][e]] < 0.0 {
          parity := !parity;
        }
      }
      if parity {
        return false;
      }
    }
    return true;
  }

  method PackHardDecision(post: Soft) returns (bytes: seq<Octet>)
    ensures |bytes| == 22 && Stores(bytes, Hard(post))
  {
    var out := new Octet[22](_ => ZERO);
    assert ToBits(out[..]) == Hard(post)[..0] + Falses(176);
    for pos := 0 to CODEWORD_BITS
      invariant Stores(out[..], Hard(post)[..pos])
    {
      AppendBit(out, Hard(post)[..pos], post[pos] < 0.0, pos);
      assert Hard(post)[..pos] + [post[pos] < 0.0] == Hard(post)[..pos + 1];
    }
    assert Hard(post)[..CODEWORD_BITS] == Hard(post);
    bytes := out[..];
  }

  method SumPosterior(table: CheckTable, llr: Soft, msgs: Messages, posterior: array<real>)
    requires posterior.Length == CODEWORD_BITS
    modifies posterior
    ensures posterior[..] == Posterior(table, llr, msgs)
  {
    for v := 0 to CODEWORD_BITS
      invariant forall k :: 0 <= k < v ==> posterior[k] == llr[k]
    {
      posterior[v] := llr[v];
    }
    for r := 0 to PARITY_BITS
      invariant forall v :: 0 <= v < CODEWORD_BITS ==> posterior[v] == llr[v] + Incoming(table, msgs, v, r, 0)
    {
      for e := 0 to 7
        invariant forall v :: 0 <= v < CODEWORD_BITS ==> posterior[v] == llr[v] + Incoming(table, msgs, v, r, e)
      {
        var v := table[r][e];
        if v != PAD {
          posterior[v] := posterior[v] + msgs[r][e];
        }
      }
    }
  }

  function Numbers(llr: seq<Llr>): Soft
    requires |llr| == CODEWORD_BITS
  {
    seq(CODEWORD_BITS, i requires 0 <= i < CODEWORD_BITS => if llr[i].Finite? then llr[i].v else 0.0)
  }

  method AllFinite(llr: seq<Llr>) returns (ok: bool)
    ensures ok <==> forall k :: 0 <= k < |llr| ==> llr[k].Finite?
  {
    for i := 0 to |llr|
      invariant forall k :: 0 <= k < i ==> llr[k].Finite?
    {
      if llr[i].NotFinite? {
        return false;
      }
    }
    return true;
  }

  // The rounds themselves: messages start silent, and the first round whose hard
  // decision satisfies every check ends them.
  method Iterate(table: CheckTable, channel: Soft) returns (result: Result<seq<Octet>, DecodeError>)
    ensures match DecodeFrom(table, channel, 0)
            case Some(word) => result.Ok? && |result.value| == 22 && Stores(result.value, word)
            case None => result == Err(LdpcNotConverged)
  {
    hide NextMessages, Posterior, Hard, ChecksHold, Stores;
    var c2v := new RowMessages[PARITY_BITS](_ => QUIET);
    var posterior := new real[CODEWORD_BITS](_ => 0.0);
    assert c2v[..] == Silent();
    for iter := 0 to LDPC_MAX_ITERS
      invariant c2v[..] == MessagesAt(table, channel, iter)
      invariant DecodeFrom(table, channel, 0) == DecodeFrom(table, channel, iter)
    {
      SumPosterior(table, channel, c2v[..], posterior);
      var post := posterior[..];
      var done := ChecksSatisfied(table, post);
      if done {
        var bytes := PackHardDecision(post);
        return Ok(bytes);
      }
      UpdateMessages(table, post, c2v);
    }
    return Err(LdpcNotConverged);
  }

  // A poisoned input is refused; otherwise the decoder is the textbook iteration.
  method LdpcDecode(table: CheckTable, llr: seq<Llr>) returns (result: Result<seq<Octet>, DecodeError>)
    requires |llr| == CODEWORD_BITS
    ensures result == Err(LlrNotFinite) <==> exists i :: 0 <= i < CODEWORD_BITS && llr[i].NotFinite?
    ensures result != Err(LlrNotFinite) ==>
              match DecodeFrom(table, Numbers(llr), 0)
              case Some(word) => result.Ok? && |result.value| == 22 && Stores(result.value, word)
              case None => result == Err(LdpcNotConverged)
  {
    hide DecodeFrom, Stores, Numbers;
    var ok := AllFinite(llr);
    if !ok {
      return Err(LlrNotFinite);
    }
    result := Iterate(table, Numbers(llr));
  }

  // ---------------------------------------------------------------- soundness

  lemma {:induction false} SilentSaysNothing(table: CheckTable, v: nat, r: nat, e: nat)
    requires (r < PARITY_BITS && e <= 7) || (r == PARITY_BITS && e == 0)
    ensures Incoming(table, Silent(), v, r, e) == 0.0
    decreases r, e
  {
    if e > 0 {
      SilentSaysNothing(table, v, r, e - 1);
    } else if r > 0 {
      SilentSaysNothing(table, v, r - 1, 7);
    }
  }

  // Round 0 decides on the channel values themselves.
  lemma FirstRoundIsChannel(table: CheckTable, llr: Soft)
    ensures Round(table, llr, 0) == llr
  {
    forall v | 0 <= v < CODEWORD_BITS
      ensures Round(table, llr, 0)[v] == llr[v]
    {
      SilentSaysNothing(table, v, PARITY_BITS, 0);
    }
  }

  // A channel word that already satisfies every check converges at once, on
  // itself: the decoder never moves a valid word.
  lemma ValidWordUnchanged(table: CheckTable, llr: Soft)
    requires ChecksHold(table, Hard(llr))
    ensures DecodeFrom(table, llr, 0) == Some(Hard(llr))
  {
    FirstRoundIsChannel(table, llr);
  }

  // The earliest converging round is `n`, and `word` is its hard decision.
  ghost predicate EarliestFrom(table: CheckTable, llr: Soft, k: nat, n: nat, word: Word) {
    && k <= n < 40 && ConvergesAt(table, llr, n) && word == RoundWord(table, llr, n)
    && forall j: nat :: k <= j < n ==> !ConvergesAt(table, llr, j)
  }

  // Whatever is decoded satisfies every check, and comes from the earliest of the
  // 40 rounds that does; failure means that none of them does.
  lemma {:induction false} DecodedWordIsSound(table: CheckTable, llr: Soft, k: nat)
    requires k <= LDPC_MAX_ITERS
    ensures DecodeFrom(table, llr, k).Some? ==>
              && ChecksHold(table, DecodeFrom(table, llr, k).value)
              && exists n: nat :: EarliestFrom(table, llr, k, n, DecodeFrom(table, llr, k).value)
    ensures DecodeFrom(table, llr, k).None? ==>
              forall j: nat :: k <= j < 40 ==> !ConvergesAt(table, llr, j)
    decreases LDPC_MAX_ITERS - k
  {
    hide ConvergesAt, RoundWord, ChecksHold;
    if k < LDPC_MAX_ITERS {
      ConvergedHolds(table, llr, k);
      var found := DecodeFrom(table, llr, k);
      if ConvergesAt(table, llr, k) {
        assert EarliestFrom(table, llr, k, k, found.value);
      } else {
        DecodedWordIsSound(table, llr, k + 1);
        if found.Some? {
          var n: nat :| EarliestFrom(table, llr, k + 1, n, found.value);
          EarlierStart(table, llr, k, n, found.value);
        }
      }
    }
  }

  lemma EarlierStart(table: CheckTable, llr: Soft, k: nat, n: nat, word: Word)
    requires EarliestFrom(table, llr, k + 1, n, word) && !ConvergesAt(table, llr, k)
    ensures EarliestFrom(table, llr, k, n, word)
  {
    hide ConvergesAt, RoundWord;
  }

  lemma ConvergedHolds(table: CheckTable, llr: Soft, k: nat)
    ensures ConvergesAt(table, llr, k) <==> ChecksHold(table, RoundWord(table, llr, k))
  {
    hide ChecksHold, RoundWord;
  }
}
