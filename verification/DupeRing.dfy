/**
 * The fixed-size duplicate ring against an unbounded ledger. Fingerprints are
 * uninterpreted numbers; the clock is the caller's.
 */
module DupeRing {
  import opened Prelude

  datatype Freshness = Fresh | Duplicate

  // ---------------------------------------------------------------- the abstract ring

  // `log`: the fingerprints in order of insertion, re-arming excluded.
  // `ledger`: when each fingerprint was last reported fresh.
  datatype Ring = Ring(log: seq<nat>, ledger: map<nat, nat>)

  // The last `n` insertions: what a ring of `n` slots still holds.
  function Window(log: seq<nat>, n: nat): seq<nat> {
    if |log| <= n then log else log[|log| - n..]
  }

  function Elapsed(now: nat, then': nat): nat {
    if now >= then' then now - then' else 0
  }

  // The ideal rule, with nothing ever forgotten.
  predicate Recent(ledger: map<nat, nat>, window: nat, fp: nat, now: nat) {
    fp in ledger && Elapsed(now, ledger[fp]) < window
  }

  function Verdict(r: Ring, n: nat, window: nat, fp: nat, now: nat): Freshness {
    if fp in Window(r.log, n) && Recent(r.ledger, window, fp, now) then Duplicate else Fresh
  }

  function After(r: Ring, n: nat, window: nat, fp: nat, now: nat): Ring {
    if Verdict(r, n, window, fp, now) == Duplicate then r
    else Ring(if fp in Window(r.log, n) then r.log else r.log + [fp], r.ledger[fp := now])
  }

  ghost predicate Distinct(s: seq<nat>) {
    forall i, j :: 0 <= i < j < |s| ==> s[i] != s[j]
  }

  ghost predicate RingOk(r: Ring, n: nat) {
    && Distinct(Window(r.log, n))
    && forall i :: 0 <= i < |r.log| ==> r.log[i] in r.ledger
  }

  lemma RingStaysOk(r: Ring, n: nat, window: nat, fp: nat, now: nat)
    requires RingOk(r, n)
    ensures RingOk(After(r, n, window, fp, now), n)
  {
    var t := After(r, n, window, fp, now);
    if t.log != r.log && n > 0 {
      var w, w' := Window(r.log, n), Window(t.log, n);
      assert w' == (if |r.log| < n then w else w[1..]) + [fp];
    }
  }

  // ---------------------------------------------------------------- the slots, as values

  type Slot = Option<(nat, nat)>

  // Where a ring of slots stands: the next slot to overwrite, and the number of
  // insertions made before its current round.
  datatype Cursor = Cursor(at: nat, base: nat)

  // The number of the insertion that slot `j` holds; negative for none yet.
  function Holder(c: Cursor, n: nat, j: nat): int {
    if j < c.at then c.base + j else c.base + j - n
  }

  predicate Stands(c: Cursor, n: nat, inserted: nat) {
    if n == 0 then c == Cursor(0, 0)
    else c.at < n && inserted == c.base + c.at && (c.base == 0 || n <= c.base)
  }

  // A slot holds insertion number `h` of the ring, with its ledger time.
  ghost predicate Holds(slot: Slot, r: Ring, h: int) {
    if h < 0 then slot == None
    else h < |r.log| && r.log[h] in r.ledger && slot == Some((r.log[h], r.ledger[r.log[h]]))
  }

  // The slots are exactly the ring's last insertions.
  ghost predicate Laid(slots: seq<Slot>, c: Cursor, r: Ring) {
    && Stands(c, |slots|, |r.log|)
    && forall j :: 0 <= j < |slots| ==> Holds(slots[j], r, Holder(c, |slots|, j))
  }

  function Advanced(c: Cursor, n: nat): Cursor {
    if n == 0 then c else if c.at + 1 == n then Cursor(0, c.base + n) else Cursor(c.at + 1, c.base)
  }

  // One insertion on, every slot but the overwritten one holds what it held.
  lemma HolderAdvances(c: Cursor, n: nat, inserted: nat, j: nat)
    requires j < n && Stands(c, n, inserted)
    ensures Stands(Advanced(c, n), n, inserted + 1)
    ensures Holder(Advanced(c, n), n, j) == if j == c.at then inserted else Holder(c, n, j)
  {
  }

  lemma HolderInWindow(c: Cursor, n: nat, r: Ring, j: nat)
    requires j < n && Stands(c, n, |r.log|) && Holder(c, n, j) >= 0
    ensures var w := Window(r.log, n); var at := Holder(c, n, j) - (|r.log| - |w|);
            0 <= at < |w| && w[at] == r.log[Holder(c, n, j)]
  {
  }

  lemma WindowInSlot(c: Cursor, n: nat, r: Ring, k: nat) returns (j: nat)
    requires Stands(c, n, |r.log|) && k < |Window(r.log, n)|
    ensures j < n && Holder(c, n, j) == k + (|r.log| - |Window(r.log, n)|)
    ensures Window(r.log, n)[k] == r.log[Holder(c, n, j)]
  {
    var i := k + (|r.log| - |Window(r.log, n)|);
    j := if i >= c.base then i - c.base else i - c.base + n;
  }

  // A fingerprint of the window is in some slot, and only such are.
  lemma SlotOf(slots: seq<Slot>, c: Cursor, r: Ring, fp: nat)
    requires Laid(slots, c, r)
    ensures fp in Window(r.log, |slots|) <==> exists j :: 0 <= j < |slots| && slots[j].Some? && slots[j].value.0 == fp
  {
    var n, w := |slots|, Window(r.log, |slots|);
    if fp in w {
      var k :| 0 <= k < |w| && w[k] == fp;
      var j := WindowInSlot(c, n, r, k);
      hide Window, Holder;
      assert Holds(slots[j], r, Holder(c, n, j));
    }
    if j :| 0 <= j < n && slots[j].Some? && slots[j].value.0 == fp {
      assert Holds(slots[j], r, Holder(c, n, j));
      HolderInWindow(c, n, r, j);
    }
  }

  // No slot but `j` holds what it holds, and none what the window lacks.
  lemma SlotsDiffer(c: Cursor, n: nat, r: Ring, j: nat, k: nat)
    requires j < n && k < n && j != k && Stands(c, n, |r.log|) && Distinct(Window(r.log, n))
    requires Holder(c, n, j) >= 0 && Holder(c, n, k) >= 0
    ensures r.log[Holder(c, n, k)] != r.log[Holder(c, n, j)]
  {
    HolderInWindow(c, n, r, j);
    HolderInWindow(c, n, r, k);
    assert Holder(c, n, j) != Holder(c, n, k);
    hide Window, Holder;
  }

  lemma HoldsAfter(slot: Slot, r: Ring, h: int, t: Ring, fp: nat)
    requires Holds(slot, r, h) && r.log <= t.log && t.ledger.Keys >= r.ledger.Keys
    requires forall f :: f in r.ledger && f != fp ==> t.ledger[f] == r.ledger[f]
    requires h >= 0 ==> r.log[h] != fp
    ensures Holds(slot, t, h)
  {
  }

  lemma InsertLays(slots: seq<Slot>, c: Cursor, r: Ring, fp: nat, now: nat)
    requires Laid(slots, c, r) && slots != [] && fp !in Window(r.log, |slots|)
    ensures c.at < |slots|
    ensures Laid(slots[c.at := Some((fp, now))], Advanced(c, |slots|), Ring(r.log + [fp], r.ledger[fp := now]))
  {
    var n, t := |slots|, Ring(r.log + [fp], r.ledger[fp := now]);
    var after := slots[c.at := Some((fp, now))];
    HolderAdvances(c, n, |r.log|, c.at);
    forall j | 0 <= j < n
      ensures Holds(after[j], t, Holder(Advanced(c, n), n, j))
    {
      HolderAdvances(c, n, |r.log|, j);
      if j != c.at {
        if Holder(c, n, j) >= 0 {
          HolderInWindow(c, n, r, j);
        }
        hide Holder, Advanced, Window;
        HoldsAfter(slots[j], r, Holder(c, n, j), t, fp);
      }
    }
    hide Holder, Holds, Advanced, Window;
  }

  lemma RearmLays(slots: seq<Slot>, c: Cursor, r: Ring, j: nat, fp: nat, now: nat)
    requires Laid(slots, c, r) && Distinct(Window(r.log, |slots|))
    requires j < |slots| && slots[j].Some? && slots[j].value.0 == fp
    ensures Laid(slots[j := Some((fp, now))], c, Ring(r.log, r.ledger[fp := now]))
  {
    var n, t := |slots|, Ring(r.log, r.ledger[fp := now]);
    hide Holder, Window, Distinct;
    assert Holds(slots[j], r, Holder(c, n, j));
    forall k | 0 <= k < n
      ensures Holds(slots[j := Some((fp, now))][k], t, Holder(c, n, k))
    {
      if k != j {
        if Holder(c, n, k) >= 0 {
          SlotsDiffer(c, n, r, j, k);
        }
        HoldsAfter(slots[k], r, Holder(c, n, k), t, fp);
      }
    }
  }

  // ---------------------------------------------------------------- the slots, in place

  lemma NextSlot(cursor: nat, n: nat)
    requires cursor < n
    ensures (cursor + 1) % n == if cursor + 1 == n then 0 else cursor + 1
  {
  }

  /**
   * The source's ring: slots overwritten round-robin from `cursor`. The ghost
   * state records the whole history; `Valid` says that the slots are exactly its
   * last insertions, each with its ledger time.
   */
  class Slots {
    const entries: array<Slot>
    const windowMs: nat
    var cursor: nat
    ghost var ring: Ring
    ghost var base: nat

    constructor (n: nat, windowMs: nat)
      ensures Valid() && fresh(entries) && ring == Ring([], map[])
      ensures entries.Length == n && this.windowMs == windowMs
    {
      entries := new Slot[n](_ => None);
      this.windowMs := windowMs;
      cursor := 0;
      ring := Ring([], map[]);
      base := 0;
    }

    ghost predicate Valid()
      reads this, entries
    {
      RingOk(ring, entries.Length) && Laid(entries[..], Cursor(cursor, base), ring)
    }

    method Rearm(j: nat, fp: nat, now: nat)
      requires Valid() && j < entries.Length && entries[j].Some? && entries[j].value.0 == fp
      requires RingOk(Ring(ring.log, ring.ledger[fp := now]), entries.Length)
      modifies this`ring, entries
      ensures Valid() && ring == Ring(old(ring).log, old(ring).ledger[fp := now])
    {
      RearmLays(entries[..], Cursor(cursor, base), ring, j, fp, now);
      hide RingOk, Laid;
      ghost var slots := entries[..];
      entries[j] := Some((fp, now));
      assert entries[..] == slots[j := Some((fp, now))];
      ring := Ring(ring.log, ring.ledger[fp := now]);
    }

    method Insert(fp: nat, now: nat)
      requires Valid() && fp !in Window(ring.log, entries.Length)
      requires RingOk(Ring(ring.log + [fp], ring.ledger[fp := now]), entries.Length)
      modifies this, entries
      ensures Valid() && ring == Ring(old(ring).log + [fp], old(ring).ledger[fp := now])
    {
      ghost var slots, next := entries[..], Advanced(Cursor(cursor, base), entries.Length);
      if entries.Length == 0 {
        ring := Ring(ring.log + [fp], ring.ledger[fp := now]);
        cursor := 0;
        return;
      }
      InsertLays(slots, Cursor(cursor, base), ring, fp, now);
      NextSlot(cursor, entries.Length);
      hide RingOk, Laid, Window;
      entries[cursor] := Some((fp, now));
      assert entries[..] == slots[cursor := Some((fp, now))];
      ring := Ring(ring.log + [fp], ring.ledger[fp := now]);
      base := next.base;
      cursor := (cursor + 1) % entries.Length;
    }

    // The first slot holding `fp`, or the number of slots.
    method Find(fp: nat) returns (slot: nat)
      ensures slot <= entries.Length
      ensures slot < entries.Length ==> entries[slot].Some? && entries[slot].value.0 == fp
      ensures slot == entries.Length ==>
                forall k :: 0 <= k < entries.Length ==> !(entries[k].Some? && entries[k].value.0 == fp)
    {
      slot := 0;
      while slot < entries.Length
        invariant 0 <= slot <= entries.Length
        invariant forall k :: 0 <= k < slot ==> !(entries[k].Some? && entries[k].value.0 == fp)
      {
        if entries[slot].Some? && entries[slot].value.0 == fp {
          return;
        }
        slot := slot + 1;
      }
    }

    // What a slot holding `fp` says of it.
    lemma SlotTime(slot: nat, fp: nat)
      requires Valid() && slot < entries.Length && entries[slot].Some? && entries[slot].value.0 == fp
      ensures fp in Window(ring.log, entries.Length)
      ensures fp in ring.ledger && ring.ledger[fp] == entries[slot].value.1
    {
      var c := Cursor(cursor, base);
      assert Holds(entries[..][slot], ring, Holder(c, entries.Length, slot));
      HolderInWindow(c, entries.Length, ring, slot);
    }

    lemma NoSlot(fp: nat)
      requires Valid()
      requires forall k :: 0 <= k < entries.Length ==> !(entries[k].Some? && entries[k].value.0 == fp)
      ensures fp !in Window(ring.log, entries.Length)
    {
      SlotOf(entries[..], Cursor(cursor, base), ring, fp);
    }

    method CheckAndInsert(fp: nat, now: nat) returns (verdict: Freshness)
      requires Valid()
      modifies this, entries
      ensures Valid()
      ensures verdict == Verdict(old(ring), entries.Length, windowMs, fp, now)
      ensures ring == After(old(ring), entries.Length, windowMs, fp, now)
    {
      RingStaysOk(ring, entries.Length, windowMs, fp, now);
      var slot := Find(fp);
      if slot == entries.Length {
        NoSlot(fp);
        hide Valid, Window, RingOk;
        Insert(fp, now);
        return Fresh;
      }
      SlotTime(slot, fp);
      hide Window, RingOk, Laid;
      if Elapsed(now, entries[slot].value.1) < windowMs {
        return Duplicate;
      }
      Rearm(slot, fp, now);
      return Fresh;
    }
  }

  // ---------------------------------------------------------------- whole runs

  datatype Hearing = Hearing(fp: nat, now: nat)

  // The ring after a run, and the verdict on each hearing of it.
  function RunRing(n: nat, window: nat, run: seq<Hearing>): Ring {
    if run == [] then Ring([], map[])
    else var h := run[|run| - 1]; After(RunRing(n, window, run[..|run| - 1]), n, window, h.fp, h.now)
  }

  function VerdictAt(n: nat, window: nat, run: seq<Hearing>, k: nat): Freshness
    requires k < |run|
  {
    Verdict(RunRing(n, window, run[..k]), n, window, run[k].fp, run[k].now)
  }

  // The ideal ledger, keyed on its own verdicts.
  function RunIdeal(window: nat, run: seq<Hearing>): map<nat, nat> {
    if run == [] then map[]
    else
      var h, before := run[|run| - 1], RunIdeal(window, run[..|run| - 1]);
      if Recent(before, window, h.fp, h.now) then before else before[h.fp := h.now]
  }

  function IdealAt(window: nat, run: seq<Hearing>, k: nat): Freshness
    requires k < |run|
  {
    if Recent(RunIdeal(window, run[..k]), window, run[k].fp, run[k].now) then Duplicate else Fresh
  }

  lemma {:induction false} RunStaysOk(n: nat, window: nat, run: seq<Hearing>)
    ensures RingOk(RunRing(n, window, run), n)
  {
    if run != [] {
      var h := run[|run| - 1];
      RunStaysOk(n, window, run[..|run| - 1]);
      RingStaysOk(RunRing(n, window, run[..|run| - 1]), n, window, h.fp, h.now);
    }
  }

  // The ledger holds exactly the time of the latest fresh hearing.
  ghost predicate LatestFresh(n: nat, window: nat, run: seq<Hearing>, fp: nat, k: nat) {
    && k < |run| && run[k].fp == fp && VerdictAt(n, window, run, k) == Fresh
    && forall j :: k < j < |run| && run[j].fp == fp ==> VerdictAt(n, window, run, j) == Duplicate
  }

  lemma VerdictOfPrefix(n: nat, window: nat, run: seq<Hearing>, m: nat, j: nat)
    requires j < m <= |run|
    ensures VerdictAt(n, window, run, j) == VerdictAt(n, window, run[..m], j)
  {
    assert run[..m][..j] == run[..j];
  }

  lemma StillLatest(n: nat, window: nat, run: seq<Hearing>, fp: nat, k: nat)
    requires run != [] && LatestFresh(n, window, run[..|run| - 1], fp, k)
    requires run[|run| - 1].fp == fp ==> VerdictAt(n, window, run, |run| - 1) == Duplicate
    ensures LatestFresh(n, window, run, fp, k)
  {
    var m := |run| - 1;
    VerdictOfPrefix(n, window, run, m, k);
    forall j | k < j < |run| && run[j].fp == fp
      ensures VerdictAt(n, window, run, j) == Duplicate
    {
      if j < m {
        VerdictOfPrefix(n, window, run, m, j);
        assert run[..m][j].fp == fp;
      }
    }
  }

  lemma {:induction false} LedgerIsLatestFresh(n: nat, window: nat, run: seq<Hearing>, fp: nat) returns (k: nat)
    requires fp in RunRing(n, window, run).ledger
    ensures LatestFresh(n, window, run, fp, k)
    ensures run[k].now == RunRing(n, window, run).ledger[fp]
  {
    var m := |run| - 1;
    if run[m].fp == fp && VerdictAt(n, window, run, m) == Fresh {
      k := m;
    } else {
      k := LedgerIsLatestFresh(n, window, run[..m], fp);
      StillLatest(n, window, run, fp, k);
    }
  }

  // Every duplicate is justified: less than one window before it, the same
  // fingerprint was reported fresh, and not again since.
  lemma DuplicatesAreJustified(n: nat, window: nat, run: seq<Hearing>, k: nat) returns (j: nat)
    requires k < |run| && VerdictAt(n, window, run, k) == Duplicate
    ensures j < k && LatestFresh(n, window, run[..k], run[k].fp, j)
    ensures Elapsed(run[k].now, run[j].now) < window
  {
    j := LedgerIsLatestFresh(n, window, run[..k], run[k].fp);
  }

  lemma LatestIsUnique(n: nat, window: nat, run: seq<Hearing>, fp: nat, j: nat, k: nat)
    requires LatestFresh(n, window, run, fp, j) && LatestFresh(n, window, run, fp, k)
    ensures j == k
  {
    hide VerdictAt;
  }

  lemma HeldIsRemembered(n: nat, window: nat, run: seq<Hearing>, fp: nat)
    requires fp in Window(RunRing(n, window, run).log, n)
    ensures fp in RunRing(n, window, run).ledger
  {
    RunStaysOk(n, window, run);
    hide RunRing;
  }

  lemma RecentMeans(ledger: map<nat, nat>, window: nat, fp: nat, now: nat)
    requires fp in ledger
    ensures Recent(ledger, window, fp, now) <==> window > 0 && now < ledger[fp] + window
  {
  }

  // The verdict, both ways: a hearing is a duplicate if and only if its
  // fingerprint is still among the last `n` inserted and was last reported fresh
  // less than one window before.
  lemma VerdictIff(n: nat, window: nat, run: seq<Hearing>, k: nat)
    requires k < |run|
    ensures var h, before := run[k], run[..k];
            VerdictAt(n, window, run, k) == Duplicate <==>
              && h.fp in Window(RunRing(n, window, before).log, n)
              && exists j: nat :: LatestFresh(n, window, before, h.fp, j) && window > 0 && h.now < run[j].now + window
  {
    var h, before := run[k], run[..k];
    if h.fp in Window(RunRing(n, window, before).log, n) {
      HeldIsRemembered(n, window, before, h.fp);
      var j := LedgerIsLatestFresh(n, window, before, h.fp);
      RecentMeans(RunRing(n, window, before).ledger, window, h.fp, h.now);
      assert before[j] == run[j];
      hide LatestFresh, RunRing, Recent, Window;
      forall i: nat | LatestFresh(n, window, before, h.fp, i)
        ensures i == j
      {
        LatestIsUnique(n, window, before, h.fp, i, j);
      }
    }
  }

  // The same of the unbounded ledger, which forgets nothing.
  ghost predicate LatestIdeal(window: nat, run: seq<Hearing>, fp: nat, k: nat) {
    && k < |run| && run[k].fp == fp && IdealAt(window, run, k) == Fresh
    && forall j :: k < j < |run| && run[j].fp == fp ==> IdealAt(window, run, j) == Duplicate
  }

  lemma IdealOfPrefix(window: nat, run: seq<Hearing>, m: nat, j: nat)
    requires j < m <= |run|
    ensures IdealAt(window, run, j) == IdealAt(window, run[..m], j)
  {
    assert run[..m][..j] == run[..j];
  }

  lemma LatestIdealIsUnique(window: nat, run: seq<Hearing>, fp: nat, j: nat, k: nat)
    requires LatestIdeal(window, run, fp, j) && LatestIdeal(window, run, fp, k)
    ensures j == k
  {
    hide IdealAt;
  }

  lemma StillLatestIdeal(window: nat, run: seq<Hearing>, fp: nat, k: nat)
    requires run != [] && LatestIdeal(window, run[..|run| - 1], fp, k)
    requires run[|run| - 1].fp == fp ==> IdealAt(window, run, |run| - 1) == Duplicate
    ensures LatestIdeal(window, run, fp, k)
  {
    var m := |run| - 1;
    IdealOfPrefix(window, run, m, k);
    forall j | k < j < |run| && run[j].fp == fp
      ensures IdealAt(window, run, j) == Duplicate
    {
      if j < m {
        IdealOfPrefix(window, run, m, j);
        assert run[..m][j].fp == fp;
      }
    }
  }

  lemma {:induction false} IdealIsLatest(window: nat, run: seq<Hearing>, fp: nat) returns (k: nat)
    requires fp in RunIdeal(window, run)
    ensures LatestIdeal(window, run, fp, k) && run[k].now == RunIdeal(window, run)[fp]
  {
    var m := |run| - 1;
    if run[m].fp == fp && IdealAt(window, run, m) == Fresh {
      k := m;
    } else {
      k := IdealIsLatest(window, run[..m], fp);
      StillLatestIdeal(window, run, fp, k);
    }
  }

  lemma {:induction false} HeardIsInLedger(window: nat, run: seq<Hearing>, k: nat)
    requires k < |run|
    ensures run[k].fp in RunIdeal(window, run)
  {
    var m := |run| - 1;
    if k < m {
      HeardIsInLedger(window, run[..m], k);
      assert run[..m][k] == run[k];
    }
  }

  lemma IdealIff(window: nat, run: seq<Hearing>, k: nat)
    requires k < |run|
    ensures var h, before := run[k], run[..k];
            IdealAt(window, run, k) == Duplicate <==>
              exists j: nat :: LatestIdeal(window, before, h.fp, j) && window > 0 && h.now < run[j].now + window
  {
    var h, before := run[k], run[..k];
    forall j: nat | LatestIdeal(window, before, h.fp, j)
      ensures h.fp in RunIdeal(window, before)
    {
      HeardIsInLedger(window, before, j);
    }
    if h.fp in RunIdeal(window, before) {
      var j := IdealIsLatest(window, before, h.fp);
      RecentMeans(RunIdeal(window, before), window, h.fp, h.now);
      assert before[j] == run[j];
      hide LatestIdeal, RunIdeal, Recent;
      forall i: nat | LatestIdeal(window, before, h.fp, i)
        ensures i == j
      {
        LatestIdealIsUnique(window, before, h.fp, i, j);
      }
    }
  }

  // ---------------------------------------------------------------- agreement with the ideal

  function TimeOf(ledger: map<nat, nat>, fp: nat): Option<nat> {
    if fp in ledger then Some(ledger[fp]) else None
  }

  // If `fp` was ever inserted, fewer than `n` insertions have followed its own.
  ghost predicate StillHeld(n: nat, window: nat, run: seq<Hearing>, fp: nat) {
    fp in RunRing(n, window, run).ledger ==> fp in Window(RunRing(n, window, run).log, n)
  }

  // No hearing of `fp` found it overwritten.
  ghost predicate NeverOverwritten(n: nat, window: nat, run: seq<Hearing>, fp: nat) {
    forall j :: 0 <= j < |run| && run[j].fp == fp ==> StillHeld(n, window, run[..j], fp)
  }

  lemma {:induction false} LedgersAgree(n: nat, window: nat, run: seq<Hearing>, fp: nat)
    requires NeverOverwritten(n, window, run, fp)
    ensures TimeOf(RunRing(n, window, run).ledger, fp) == TimeOf(RunIdeal(window, run), fp)
  {
    if run != [] {
      var m := |run| - 1;
      forall j | 0 <= j < m && run[..m][j].fp == fp
        ensures StillHeld(n, window, run[..m][..j], fp)
      {
        assert run[..m][..j] == run[..j];
      }
      LedgersAgree(n, window, run[..m], fp);
      assert run[m].fp == fp ==> StillHeld(n, window, run[..m], fp);
    }
  }

  // As long as fewer than `n` insertions have followed a fingerprint's own each
  // time it is heard, the ring's verdicts on it, re-arming included, are those of
  // the unbounded ledger; the first hearing that finds it overwritten is the only
  // way to part, and then exactly when the ledger still remembers.
  lemma RingIsIdealUntilOverwritten(n: nat, window: nat, run: seq<Hearing>, k: nat)
    requires k < |run| && NeverOverwritten(n, window, run[..k], run[k].fp)
    ensures VerdictAt(n, window, run, k) == IdealAt(window, run, k)
            <==> StillHeld(n, window, run[..k], run[k].fp) || IdealAt(window, run, k) == Fresh
  {
    LedgersAgree(n, window, run[..k], run[k].fp);
  }

  // They do part: one slot, and a hearing repeated after the slot was taken.
  lemma RingCanPart()
    ensures var run := [Hearing(1, 0), Hearing(2, 1), Hearing(1, 2)];
            VerdictAt(1, 10, run, 2) == Fresh && IdealAt(10, run, 2) == Duplicate
  {
    var run := [Hearing(1, 0), Hearing(2, 1), Hearing(1, 2)];
    var before := run[..2];
    assert before[..1][..0] == [] && before[..1] == [run[0]] && before == [run[0], run[1]];
    assert RunRing(1, 10, []) == Ring([], map[]) && RunIdeal(10, []) == map[];
    assert RunRing(1, 10, before[..1]) == Ring([1], map[1 := 0]) && RunIdeal(10, before[..1]) == map[1 := 0];
    assert RunRing(1, 10, before) == Ring([1, 2], map[1 := 0, 2 := 1]);
    assert RunIdeal(10, before) == map[1 := 0, 2 := 1];
  }

  lemma {:induction false} DistinctWithin(s: seq<nat>, all: set<nat>)
    requires Distinct(s) && forall i :: 0 <= i < |s| ==> s[i] in all
    ensures |s| <= |all|
  {
    if s != [] {
      var last := s[|s| - 1];
      DistinctWithin(s[..|s| - 1], all - {last});
    }
  }

  ghost predicate Agrees(n: nat, window: nat, run: seq<Hearing>, all: set<nat>) {
    var r := RunRing(n, window, run);
    && r.ledger == RunIdeal(window, run)
    && Distinct(r.log) && |r.log| <= |all|
    && (forall i :: 0 <= i < |r.log| ==> r.log[i] in all)
    && (forall fp :: fp in r.ledger ==> fp in r.log)
  }

  lemma {:induction false} SmallTrafficAgrees(n: nat, window: nat, run: seq<Hearing>, all: set<nat>)
    requires |all| <= n && forall k :: 0 <= k < |run| ==> run[k].fp in all
    ensures Agrees(n, window, run, all)
  {
    if run != [] {
      var m := |run| - 1;
      var r, h := RunRing(n, window, run[..m]), run[m];
      SmallTrafficAgrees(n, window, run[..m], all);
      assert Window(r.log, n) == r.log;
      var t := After(r, n, window, h.fp, h.now);
      assert RunRing(n, window, run) == t;
      if t.log != r.log {
        assert Distinct(t.log);
      }
      DistinctWithin(t.log, all);
    }
  }

  // A run over no more fingerprints than there are slots gets, from first to last,
  // exactly the verdicts of the unbounded ledger.
  lemma RingIsIdealOnSmallTraffic(n: nat, window: nat, run: seq<Hearing>, all: set<nat>, k: nat)
    requires |all| <= n && (forall j :: 0 <= j < |run| ==> run[j].fp in all) && k < |run|
    ensures VerdictAt(n, window, run, k) == IdealAt(window, run, k)
  {
    SmallTrafficAgrees(n, window, run[..k], all);
    var r := RunRing(n, window, run[..k]);
    assert Window(r.log, n) == r.log;
  }
}
