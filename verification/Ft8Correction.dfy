/**
 * What the min-sum decoder is for: wrong channel decisions that stand alone in
 * their checks and are weak beside their neighbours are put right in one round.
 */
module Ft8Correction {
  import opened Prelude
  import opened Ft8Ldpc
  import opened Ft8MinSum

  // `x`, counted towards the value `bit`: a negative number says one.
  function Toward(bit: bool, x: real): real {
    if bit then -x else x
  }

  function Size(x: real): real {
    if x < 0.0 then -x else x
  }

  // The channel decides against the word at this bit.
  predicate WrongAt(llr: Soft, word: Word, u: nat)
    requires u < CODEWORD_BITS
  {
    Toward(word[u], llr[u]) < 0.0
  }

  // Slot `e` of a row holds a wrong bit.
  predicate WrongSlot(row: CheckRow, llr: Soft, word: Word, e: nat)
    requires e < 7
  {
    row[e] != PAD && WrongAt(llr, word, row[e])
  }

  // How far the wrong bits of the first `r` rows pull at bit `u`: 0.8 of the
  // wrong bit's magnitude for every row that holds both.
  function Pull(table: CheckTable, llr: Soft, word: Word, u: nat, r: nat, e: nat): real
    requires (r < PARITY_BITS && e <= 7) || (r == PARITY_BITS && e == 0)
    decreases r, e
  {
    if e > 0 then
      Pull(table, llr, word, u, r, e - 1)
      + (if table[r][e - 1] == u then 0.8 * WrongSize(table[r], llr, word, 7) else 0.0)
    else if r > 0 then Pull(table, llr, word, u, r - 1, 7)
    else 0.0
  }

  // The magnitude of the wrong bit among the first `n` slots, if there is one.
  function WrongSize(row: CheckRow, llr: Soft, word: Word, n: nat): real
    requires n <= 7
  {
    if n == 0 then 0.0
    else if WrongSlot(row, llr, word, n - 1) then Size(llr[row[n - 1]])
    else WrongSize(row, llr, word, n - 1)
  }

  // No row holds two wrong bits, and a wrong one is weaker than 0.8 times every
  // other bit of its rows.
  ghost predicate AloneAndWeak(row: CheckRow, llr: Soft, word: Word) {
    forall e, f :: 0 <= e < 7 && 0 <= f < 7 && e != f && WrongSlot(row, llr, word, e) && row[f] != PAD ==>
      Size(llr[row[e]]) < 0.8 * Size(llr[row[f]]) && !WrongSlot(row, llr, word, f)
  }

  ghost predicate Correctable(table: CheckTable, llr: Soft, word: Word) {
    && ChecksHold(table, word)
    && (forall u :: 0 <= u < CODEWORD_BITS ==> llr[u] != 0.0)
    && (forall r :: 0 <= r < PARITY_BITS ==> AloneAndWeak(table[r], llr, word))
    && (forall u :: 0 <= u < CODEWORD_BITS && WrongAt(llr, word, u) ==>
          && Size(llr[u]) < 0.8 * 340282346638528859811704183484516925440.0
          && exists r: nat, e: nat :: Holds(table, r, e, u))
    && (forall u :: 0 <= u < CODEWORD_BITS && !WrongAt(llr, word, u) ==>
          Size(llr[u]) > Pull(table, llr, word, u, PARITY_BITS, 0))
  }

  predicate Holds(table: CheckTable, r: nat, e: nat, u: nat) {
    r < PARITY_BITS && e < 7 && table[r][e] == u
  }

  // ---------------------------------------------------------------- one row

  // How many of the first `n` slots are wrong.
  function Wrongs(row: CheckRow, llr: Soft, word: Word, n: nat): nat
    requires n <= 7
  {
    if n == 0 then 0 else Wrongs(row, llr, word, n - 1) + (if WrongSlot(row, llr, word, n - 1) then 1 else 0)
  }

  // The overall sign tells the parity of the word and of the errors in it.
  lemma {:induction false} SignIsParity(row: CheckRow, llr: Soft, word: Word, n: nat)
    requires n <= 7 && forall u :: 0 <= u < CODEWORD_BITS ==> llr[u] != 0.0
    ensures SignExcept(row, llr, QUIET, NO_SKIP, n)
         == if Odd(row, word, n) == (Wrongs(row, llr, word, n) % 2 == 1) then 1.0 else -1.0
  {
    if n > 0 {
      SignIsParity(row, llr, word, n - 1);
    }
  }

  lemma {:induction false} NoWrongs(row: CheckRow, llr: Soft, word: Word, n: nat)
    requires n <= 7 && forall e :: 0 <= e < n ==> !WrongSlot(row, llr, word, e)
    ensures Wrongs(row, llr, word, n) == 0 && WrongSize(row, llr, word, n) == 0.0
  {
    if n > 0 {
      NoWrongs(row, llr, word, n - 1);
    }
  }

  lemma {:induction false} OneWrong(row: CheckRow, llr: Soft, word: Word, w: nat, n: nat)
    requires n <= 7 && w < 7 && WrongSlot(row, llr, word, w)
    requires forall e :: 0 <= e < n && e != w ==> !WrongSlot(row, llr, word, e)
    ensures Wrongs(row, llr, word, n) == if w < n then 1 else 0
    ensures WrongSize(row, llr, word, n) == if w < n then Size(llr[row[w]]) else 0.0
  {
    if n > 0 {
      OneWrong(row, llr, word, w, n - 1);
    }
  }

  // Over silence the extrinsic values are the channel's.
  lemma {:induction false} MinAbove(row: CheckRow, llr: Soft, skip: nat, bound: real, n: nat)
    requires n <= 7 && bound < F32_MAX
    requires forall f :: 0 <= f < n && f != skip && row[f] != PAD ==> bound < Size(llr[row[f]])
    ensures bound < MinExcept(row, llr, QUIET, skip, n)
  {
    if n > 0 {
      MinAbove(row, llr, skip, bound, n - 1);
    }
  }

  ghost predicate Nonzero(llr: Soft) {
    forall u :: 0 <= u < CODEWORD_BITS ==> llr[u] != 0.0
  }

  lemma MessageSign(row: CheckRow, llr: Soft, word: Word, e: nat)
    requires Nonzero(llr) && !Odd(row, word, 7) && e < 7 && row[e] != PAD
    ensures var even := Wrongs(row, llr, word, 7) % 2 == 0;
            var m := 0.8 * MinExcept(row, llr, QUIET, e, 7);
            Toward(word[row[e]], Message(row, llr, QUIET, e))
            == if even != WrongSlot(row, llr, word, e) then m else -m
  {
    SignIsParity(row, llr, word, 7);
    SignOfOthers(row, llr, QUIET, e, 7);
    hide SignExcept, MinExcept, Odd, Wrongs;
    UnitSign(SignExcept(row, llr, QUIET, e, 7), Extrinsic(row, llr, QUIET, e));
    assert Extrinsic(row, llr, QUIET, e) == llr[row[e]];
    assert MIN_SUM_ALPHA == 0.8;
  }

  lemma UnitSign(others: real, x: real)
    requires others * Sgn(x) == 1.0 || others * Sgn(x) == -1.0
    ensures others == (if (x < 0.0) == (others * Sgn(x) == 1.0) then -1.0 else 1.0)
  {
  }

  // A row speaks for the word to its wrong bit, louder than that bit's channel
  // value, and against it to the others by no more than 0.8 of that value.
  lemma MessageHelps(row: CheckRow, llr: Soft, word: Word, e: nat)
    requires Nonzero(llr) && !Odd(row, word, 7) && AloneAndWeak(row, llr, word)
    requires e < 7 && row[e] != PAD
    requires WrongSlot(row, llr, word, e) ==> Size(llr[row[e]]) < 0.8 * 340282346638528859811704183484516925440.0
    ensures var m := Toward(word[row[e]], Message(row, llr, QUIET, e));
            if WrongSlot(row, llr, word, e) then m > Size(llr[row[e]]) else m >= -0.8 * WrongSize(row, llr, word, 7)
  {
    MessageSign(row, llr, word, e);
    MinAbove(row, llr, e, 0.0, 7);
    if WrongSlot(row, llr, word, e) {
      OneWrong(row, llr, word, e, 7);
      MinAbove(row, llr, e, Size(llr[row[e]]) / 0.8, 7);
    } else if w :| 0 <= w < 7 && WrongSlot(row, llr, word, w) {
      OneWrong(row, llr, word, w, 7);
      MinExceptBounds(row, llr, QUIET, e, w, 7);
    } else {
      NoWrongs(row, llr, word, 7);
    }
  }

  // ---------------------------------------------------------------- one bit

  predicate HeldBefore(table: CheckTable, u: nat, r: nat, e: nat)
    requires (r < PARITY_BITS && e <= 7) || (r == PARITY_BITS && e == 0)
    decreases r, e
  {
    if e > 0 then HeldBefore(table, u, r, e - 1) || table[r][e - 1] == u
    else r > 0 && HeldBefore(table, u, r - 1, 7)
  }

  lemma {:induction false} HeldIsHeldBefore(table: CheckTable, u: nat, r: nat, e: nat, r': nat, e': nat)
    requires (r < PARITY_BITS && e <= 7) || (r == PARITY_BITS && e == 0)
    requires Holds(table, r', e', u) && (r' < r || (r' == r && e' < e))
    ensures HeldBefore(table, u, r, e)
    decreases r, e
  {
    if e > 0 {
      if r' != r || e' != e - 1 {
        HeldIsHeldBefore(table, u, r, e - 1, r', e');
      }
    } else {
      HeldIsHeldBefore(table, u, r - 1, 7, r', e');
    }
  }

  // The messages of the first round.
  function FirstMessages(table: CheckTable, llr: Soft): Messages {
    NextMessages(table, llr, Silent())
  }

  lemma FirstMessageAt(table: CheckTable, llr: Soft, r: nat, e: nat)
    requires r < PARITY_BITS && e < 7
    ensures FirstMessages(table, llr)[r][e] == Message(table[r], llr, QUIET, e)
  {
  }

  ghost predicate HelpsAll(table: CheckTable, llr: Soft, word: Word, msgs: Messages) {
    forall r, e :: 0 <= r < PARITY_BITS && 0 <= e < 7 && table[r][e] != PAD ==>
      var m := Toward(word[table[r][e]], msgs[r][e]);
      if WrongSlot(table[r], llr, word, e) then m > Size(llr[table[r][e]])
      else m >= -0.8 * WrongSize(table[r], llr, word, 7)
  }

  lemma FirstMessagesHelp(table: CheckTable, llr: Soft, word: Word)
    requires Correctable(table, llr, word)
    ensures HelpsAll(table, llr, word, FirstMessages(table, llr))
  {
    forall r, e | 0 <= r < PARITY_BITS && 0 <= e < 7 && table[r][e] != PAD
      ensures var m := Toward(word[table[r][e]], FirstMessages(table, llr)[r][e]);
              if WrongSlot(table[r], llr, word, e) then m > Size(llr[table[r][e]])
              else m >= -0.8 * WrongSize(table[r], llr, word, 7)
    {
      FirstMessageAt(table, llr, r, e);
      assert !Odd(table[r], word, 7) && AloneAndWeak(table[r], llr, word);
      assert WrongSlot(table[r], llr, word, e) ==> WrongAt(llr, word, table[r][e]);
      hide Odd, AloneAndWeak, FirstMessages, Message, WrongSize;
      MessageHelps(table[r], llr, word, e);
    }
  }

  lemma {:induction false} RightBitHears(table: CheckTable, llr: Soft, word: Word, msgs: Messages,
                                         u: nat, r: nat, e: nat)
    requires (r < PARITY_BITS && e <= 7) || (r == PARITY_BITS && e == 0)
    requires u < CODEWORD_BITS && !WrongAt(llr, word, u) && HelpsAll(table, llr, word, msgs)
    ensures Toward(word[u], Incoming(table, msgs, u, r, e)) >= -Pull(table, llr, word, u, r, e)
    decreases r, e
  {
    hide WrongSize;
    if e > 0 {
      RightBitHears(table, llr, word, msgs, u, r, e - 1);
    } else if r > 0 {
      RightBitHears(table, llr, word, msgs, u, r - 1, 7);
    }
  }

  lemma {:induction false} WrongBitHears(table: CheckTable, llr: Soft, word: Word, msgs: Messages,
                                         u: nat, r: nat, e: nat)
    requires (r < PARITY_BITS && e <= 7) || (r == PARITY_BITS && e == 0)
    requires u < CODEWORD_BITS && WrongAt(llr, word, u) && HelpsAll(table, llr, word, msgs)
    ensures var heard := Toward(word[u], Incoming(table, msgs, u, r, e));
            heard >= 0.0 && (HeldBefore(table, u, r, e) ==> heard > Size(llr[u]))
    decreases r, e
  {
    hide WrongSize;
    if e > 0 {
      WrongBitHears(table, llr, word, msgs, u, r, e - 1);
    } else if r > 0 {
      WrongBitHears(table, llr, word, msgs, u, r - 1, 7);
    }
  }

  // ---------------------------------------------------------------- the decoder

  lemma WrongBitTurns(table: CheckTable, llr: Soft, word: Word, msgs: Messages, u: nat)
    requires u < CODEWORD_BITS && WrongAt(llr, word, u) && HelpsAll(table, llr, word, msgs)
    requires exists r: nat, e: nat :: Holds(table, r, e, u)
    ensures Toward(word[u], llr[u] + Incoming(table, msgs, u, PARITY_BITS, 0)) > 0.0
  {
    hide HelpsAll, Incoming, HeldBefore;
    var r: nat, e: nat :| Holds(table, r, e, u);
    HeldIsHeldBefore(table, u, PARITY_BITS, 0, r, e);
    WrongBitHears(table, llr, word, msgs, u, PARITY_BITS, 0);
  }

  lemma RightBitStays(table: CheckTable, llr: Soft, word: Word, msgs: Messages, u: nat)
    requires u < CODEWORD_BITS && !WrongAt(llr, word, u) && HelpsAll(table, llr, word, msgs)
    requires Size(llr[u]) > Pull(table, llr, word, u, PARITY_BITS, 0)
    ensures Toward(word[u], llr[u] + Incoming(table, msgs, u, PARITY_BITS, 0)) > 0.0
  {
    hide HelpsAll, Incoming, Pull;
    RightBitHears(table, llr, word, msgs, u, PARITY_BITS, 0);
  }

  lemma CorrectableAt(table: CheckTable, llr: Soft, word: Word, u: nat)
    requires Correctable(table, llr, word) && u < CODEWORD_BITS
    ensures WrongAt(llr, word, u) ==> exists r: nat, e: nat :: Holds(table, r, e, u)
    ensures !WrongAt(llr, word, u) ==> Size(llr[u]) > Pull(table, llr, word, u, PARITY_BITS, 0)
  {
    hide ChecksHold, AloneAndWeak, WrongAt, Pull;
  }

  lemma BitIsRight(table: CheckTable, llr: Soft, word: Word, u: nat)
    requires Correctable(table, llr, word) && u < CODEWORD_BITS
    ensures Toward(word[u], llr[u] + Incoming(table, FirstMessages(table, llr), u, PARITY_BITS, 0)) > 0.0
  {
    hide *;
    FirstMessagesHelp(table, llr, word);
    CorrectableAt(table, llr, word, u);
    if WrongAt(llr, word, u) {
      WrongBitTurns(table, llr, word, FirstMessages(table, llr), u);
    } else {
      RightBitStays(table, llr, word, FirstMessages(table, llr), u);
    }
  }

  // After one round every bit is the word's.
  lemma OneRoundCorrects(table: CheckTable, llr: Soft, word: Word)
    requires Correctable(table, llr, word)
    ensures RoundWord(table, llr, 1) == word
  {
    FirstRoundIsChannel(table, llr);
    assert MessagesAt(table, llr, 1) == FirstMessages(table, llr);
    hide FirstMessages, Incoming, Correctable;
    forall u | 0 <= u < CODEWORD_BITS
      ensures RoundWord(table, llr, 1)[u] == word[u]
    {
      BitIsRight(table, llr, word, u);
    }
  }

  lemma {:induction false} OddOfHard(row: CheckRow, llr: Soft, word: Word, n: nat)
    requires n <= 7 && Nonzero(llr)
    ensures Odd(row, Hard(llr), n) == (Odd(row, word, n) != (Wrongs(row, llr, word, n) % 2 == 1))
  {
    if n > 0 {
      OddOfHard(row, llr, word, n - 1);
    }
  }

  lemma ErrorIsSeen(row: CheckRow, llr: Soft, word: Word, e: nat)
    requires Nonzero(llr) && !Odd(row, word, 7) && AloneAndWeak(row, llr, word)
    requires e < 7 && WrongSlot(row, llr, word, e)
    ensures Odd(row, Hard(llr), 7)
  {
    OddOfHard(row, llr, word, 7);
    OneWrong(row, llr, word, e, 7);
  }

  lemma ErrorFailsCheck(table: CheckTable, llr: Soft, word: Word, u: nat)
    requires Correctable(table, llr, word) && u < CODEWORD_BITS && WrongAt(llr, word, u)
    ensures !ChecksHold(table, Hard(llr))
  {
    var r: nat, e: nat :| Holds(table, r, e, u);
    assert !Odd(table[r], word, 7) && AloneAndWeak(table[r], llr, word);
    hide Odd, AloneAndWeak, Pull, Hard;
    ErrorIsSeen(table[r], llr, word, e);
  }

  lemma NothingWrong(llr: Soft, word: Word)
    requires Nonzero(llr) && forall u :: 0 <= u < CODEWORD_BITS ==> !WrongAt(llr, word, u)
    ensures Hard(llr) == word
  {
    forall u | 0 <= u < CODEWORD_BITS
      ensures Hard(llr)[u] == word[u]
    {
      assert !WrongAt(llr, word, u);
    }
  }

  lemma DecodeStep(table: CheckTable, llr: Soft, k: nat)
    requires k < 40
    ensures DecodeFrom(table, llr, k)
         == if ChecksHold(table, RoundWord(table, llr, k)) then Some(RoundWord(table, llr, k))
            else DecodeFrom(table, llr, k + 1)
  {
    hide RoundWord, ChecksHold;
  }

  lemma ChannelRound(table: CheckTable, llr: Soft)
    ensures RoundWord(table, llr, 0) == Hard(llr)
  {
    FirstRoundIsChannel(table, llr);
  }

  lemma DecodedByRoundOne(table: CheckTable, llr: Soft, word: Word)
    requires ChecksHold(table, Hard(llr)) ==> Hard(llr) == word
    requires ChecksHold(table, word) && RoundWord(table, llr, 1) == word
    ensures DecodeFrom(table, llr, 0) == Some(word)
  {
    hide *;
    ChannelRound(table, llr);
    DecodeStep(table, llr, 0);
    DecodeStep(table, llr, 1);
  }

  // And so the decoder returns the word, whatever stood alone and weak against it.
  lemma WeakErrorsCorrected(table: CheckTable, llr: Soft, word: Word)
    requires Correctable(table, llr, word)
    ensures DecodeFrom(table, llr, 0) == Some(word)
  {
    OneRoundCorrects(table, llr, word);
    if u :| 0 <= u < CODEWORD_BITS && WrongAt(llr, word, u) {
      ErrorFailsCheck(table, llr, word, u);
    } else {
      NothingWrong(llr, word);
    }
    assert ChecksHold(table, word);
    hide RoundWord, Correctable, Hard, ChecksHold, WrongAt;
    DecodedByRoundOne(table, llr, word);
  }

  // ---------------------------------------------------------------- a single error

  predicate InRow(row: CheckRow, u: nat) {
    exists e :: 0 <= e < 7 && row[e] == u
  }

  ghost predicate Distinct(row: CheckRow) {
    forall e, f :: 0 <= e < f < 7 && row[e] != 255 ==> row[e] != row[f]
  }

  // How many of the first rows hold both bits.
  function Shared(table: CheckTable, u: nat, v: nat, r: nat, e: nat): nat
    requires (r < PARITY_BITS && e <= 7) || (r == PARITY_BITS && e == 0)
    decreases r, e
  {
    if e > 0 then Shared(table, u, v, r, e - 1) + (if table[r][e - 1] == u && InRow(table[r], v) then 1 else 0)
    else if r > 0 then Shared(table, u, v, r - 1, 7)
    else 0
  }

  // The channel decides every bit of the word but `v`.
  ghost predicate OnlyWrong(llr: Soft, word: Word, v: nat) {
    && v < CODEWORD_BITS
    && forall u :: 0 <= u < CODEWORD_BITS ==> llr[u] != 0.0 && ((llr[u] < 0.0) == word[u] <==> u != v)
  }

  lemma OnlyOneSlot(row: CheckRow, llr: Soft, word: Word, v: nat, e: nat)
    requires OnlyWrong(llr, word, v) && e < 7
    ensures WrongSlot(row, llr, word, e) <==> row[e] == v
  {
  }

  lemma RowPull(row: CheckRow, llr: Soft, word: Word, v: nat)
    requires OnlyWrong(llr, word, v) && Distinct(row)
    ensures WrongSize(row, llr, word, 7) == if InRow(row, v) then Size(llr[v]) else 0.0
  {
    forall e | 0 <= e < 7
      ensures WrongSlot(row, llr, word, e) <==> row[e] == v
    {
      OnlyOneSlot(row, llr, word, v, e);
    }
    hide OnlyWrong, WrongSlot;
    if w :| 0 <= w < 7 && row[w] == v {
      OneWrong(row, llr, word, w, 7);
    } else {
      NoWrongs(row, llr, word, 7);
    }
  }

  function Product(x: real, n: nat): real {
    x * n as real
  }

  function Times(x: real, n: nat): real {
    if n == 0 then 0.0 else Times(x, n - 1) + x
  }

  lemma {:induction false} TimesIsProduct(x: real, n: nat)
    ensures Times(x, n) == Product(x, n)
  {
    if n > 0 {
      TimesIsProduct(x, n - 1);
      assert x * n as real == x * (n - 1) as real + x;
    }
  }

  // Slot by slot, what the errors pull with is what the shared rows pull with.
  lemma PullSnoc(table: CheckTable, llr: Soft, word: Word, v: nat, u: nat, r: nat, e: nat)
    requires r < PARITY_BITS && 0 < e <= 7 && v < CODEWORD_BITS
    requires WrongSize(table[r], llr, word, 7) == if InRow(table[r], v) then Size(llr[v]) else 0.0
    requires Pull(table, llr, word, u, r, e - 1) == Times(0.8 * Size(llr[v]), Shared(table, u, v, r, e - 1))
    ensures Pull(table, llr, word, u, r, e) == Times(0.8 * Size(llr[v]), Shared(table, u, v, r, e))
  {
    var at := table[r][e - 1] == u;
    assert Pull(table, llr, word, u, r, e)
        == Pull(table, llr, word, u, r, e - 1) + (if at then 0.8 * WrongSize(table[r], llr, word, 7) else 0.0);
    assert Shared(table, u, v, r, e) == Shared(table, u, v, r, e - 1) + (if at && InRow(table[r], v) then 1 else 0);
    hide WrongSize, InRow, Size, Pull, Shared;
  }

  lemma {:induction false} PullIsShared(table: CheckTable, llr: Soft, word: Word, v: nat, u: nat, r: nat, e: nat)
    requires (r < PARITY_BITS && e <= 7) || (r == PARITY_BITS && e == 0)
    requires OnlyWrong(llr, word, v) && forall r :: 0 <= r < PARITY_BITS ==> Distinct(table[r])
    ensures Pull(table, llr, word, u, r, e) == Times(0.8 * Size(llr[v]), Shared(table, u, v, r, e))
    decreases r, e
  {
    assert v < CODEWORD_BITS;
    hide OnlyWrong, Distinct, WrongSize, InRow, Size, Times;
    if e > 0 {
      PullIsShared(table, llr, word, v, u, r, e - 1);
      RowPull(table[r], llr, word, v);
      hide Pull, Shared;
      PullSnoc(table, llr, word, v, u, r, e);
    } else if r > 0 {
      PullIsShared(table, llr, word, v, u, r - 1, 7);
    } else {
      NoTimes(0.8 * Size(llr[v]));
    }
  }

  lemma NoTimes(x: real)
    ensures Times(x, 0) == 0.0
  {
  }

  // One wrong bit, in rows with no bit repeated: weaker than 0.8 times every bit
  // it shares a check with, each of which outweighs 0.8 of it for every check they
  // share.
  ghost predicate LoneWeakError(table: CheckTable, llr: Soft, word: Word, v: nat) {
    && ChecksHold(table, word) && OnlyWrong(llr, word, v)
    && Size(llr[v]) < 0.8 * 340282346638528859811704183484516925440.0
    && (exists r: nat, e: nat :: Holds(table, r, e, v))
    && (forall r :: 0 <= r < PARITY_BITS ==> Distinct(table[r]) && WeakIn(table[r], llr, v))
    && forall u :: 0 <= u < CODEWORD_BITS && u != v ==>
         Size(llr[u]) > Product(0.8 * Size(llr[v]), Shared(table, u, v, PARITY_BITS, 0))
  }

  ghost predicate WeakIn(row: CheckRow, llr: Soft, v: nat)
    requires v < CODEWORD_BITS
  {
    InRow(row, v) ==> forall e :: 0 <= e < 7 && row[e] != 255 && row[e] != v ==> Size(llr[v]) < 0.8 * Size(llr[row[e]])
  }

  lemma LoneInRow(row: CheckRow, llr: Soft, word: Word, v: nat)
    requires OnlyWrong(llr, word, v) && Distinct(row) && WeakIn(row, llr, v)
    ensures AloneAndWeak(row, llr, word)
  {
    forall e | 0 <= e < 7
      ensures WrongSlot(row, llr, word, e) <==> row[e] == v
    {
      OnlyOneSlot(row, llr, word, v, e);
    }
    hide OnlyWrong, WrongSlot, Size;
  }

  lemma LonePull(table: CheckTable, llr: Soft, word: Word, v: nat, u: nat)
    requires LoneWeakError(table, llr, word, v) && u < CODEWORD_BITS && u != v
    ensures !WrongAt(llr, word, u) && Size(llr[u]) > Pull(table, llr, word, u, PARITY_BITS, 0)
  {
    assert OnlyWrong(llr, word, v) && forall r :: 0 <= r < PARITY_BITS ==> Distinct(table[r]);
    assert Size(llr[u]) > Product(0.8 * Size(llr[v]), Shared(table, u, v, PARITY_BITS, 0));
    hide Pull, Shared, Distinct, WeakIn, Holds, ChecksHold, LoneWeakError, Size, Product, Times, WrongAt;
    PullIsShared(table, llr, word, v, u, PARITY_BITS, 0);
    TimesIsProduct(0.8 * Size(llr[v]), Shared(table, u, v, PARITY_BITS, 0));
    OthersRight(llr, word, v, u);
  }

  lemma OthersRight(llr: Soft, word: Word, v: nat, u: nat)
    requires OnlyWrong(llr, word, v) && u < CODEWORD_BITS && u != v
    ensures !WrongAt(llr, word, u)
  {
  }

  lemma LoneErrorIsCorrectable(table: CheckTable, llr: Soft, word: Word, v: nat)
    requires LoneWeakError(table, llr, word, v)
    ensures Correctable(table, llr, word)
  {
    forall u | 0 <= u < CODEWORD_BITS && u != v
      ensures !WrongAt(llr, word, u) && Size(llr[u]) > Pull(table, llr, word, u, PARITY_BITS, 0)
    {
      LonePull(table, llr, word, v, u);
    }
    forall r | 0 <= r < PARITY_BITS
      ensures AloneAndWeak(table[r], llr, word)
    {
      assert Distinct(table[r]) && WeakIn(table[r], llr, v);
      LoneInRow(table[r], llr, word, v);
    }
    assert WrongAt(llr, word, v);
    hide Pull, Shared, Distinct, WeakIn, AloneAndWeak, Holds, ChecksHold;
  }

  // One round puts it right.
  lemma LoneErrorCorrected(table: CheckTable, llr: Soft, word: Word, v: nat)
    requires LoneWeakError(table, llr, word, v)
    ensures RoundWord(table, llr, 1) == word && DecodeFrom(table, llr, 0) == Some(word)
  {
    hide *;
    LoneErrorIsCorrectable(table, llr, word, v);
    OneRoundCorrects(table, llr, word);
    WeakErrorsCorrected(table, llr, word);
  }

  // ---------------------------------------------------------------- no information

  lemma {:induction false} NothingIsEven(row: CheckRow, word: Word, n: nat)
    requires n <= 7 && forall u :: 0 <= u < CODEWORD_BITS ==> !word[u]
    ensures !Odd(row, word, n)
  {
    if n > 0 {
      NothingIsEven(row, word, n - 1);
    }
  }

  // A value of zero counts as a clear bit: knowing nothing decodes to all zeros.
  lemma NoInformation(table: CheckTable, llr: Soft)
    requires forall u :: 0 <= u < CODEWORD_BITS ==> llr[u] == 0.0
    ensures DecodeFrom(table, llr, 0).Some?
    ensures forall u :: 0 <= u < CODEWORD_BITS ==> !DecodeFrom(table, llr, 0).value[u]
  {
    var word := Hard(llr);
    assert forall u :: 0 <= u < CODEWORD_BITS ==> !word[u];
    hide Hard;
    forall r | 0 <= r < PARITY_BITS
      ensures !Odd(table[r], word, 7)
    {
      NothingIsEven(table[r], word, 7);
    }
    ValidWordUnchanged(table, llr);
  }
}
