/**
The complete log of what happened to one system call, epoch by epoch, and the figures that
the statistics monitor is meant to show for it. Nothing here knows about the monitor's data
structures; `Stats` proves that those structures agree with this log.
 */
module StatLog {
  import opened Words

  const HISTORY_LEN := 20

  /** The process that suffered a delay */
  datatype Who = Who(pid: int, uid: int, comm: string)

  const NOBODY := Who(0, 0, "")

  datatype Event = Blocked(delay: nat, who: Who) | CtxSwitch | Aborted

  /** The events of each completed epoch, oldest first, and those of the running epoch */
  datatype EntryLog = EntryLog(done: seq<seq<Event>>, running: seq<Event>)

  const EMPTY_LOG := EntryLog([], [])

  function Add(log: EntryLog, e: Event): EntryLog { log.(running := log.running + [e]) }

  function Close(log: EntryLog): EntryLog { EntryLog(log.done + [log.running], []) }

  function Flat(epochs: seq<seq<Event>>): seq<Event> {
    if epochs == [] then [] else Flat(epochs[..|epochs| - 1]) + epochs[|epochs| - 1]
  }

  function All(log: EntryLog): seq<Event> { Flat(log.done) + log.running }

  lemma AllOfAdd(log: EntryLog, e: Event)
    ensures All(Add(log, e)) == All(log) + [e]
  {}

  lemma AllOfClose(log: EntryLog)
    ensures All(Close(log)) == All(log)
  {
    assert (log.done + [log.running])[..|log.done|] == log.done;
  }

  // ---------------------------------------------------------------------------------------
  // Sums over events

  function IsBlocked(e: Event): nat { if e.Blocked? then 1 else 0 }

  function DelayOf(e: Event): nat { if e.Blocked? then e.delay else 0 }

  function IsCtx(e: Event): nat { if e.CtxSwitch? then 1 else 0 }

  function IsAborted(e: Event): nat { if e.Aborted? then 1 else 0 }

  function Total(es: seq<Event>, weight: Event -> nat): nat {
    if es == [] then 0 else Total(es[..|es| - 1], weight) + weight(es[|es| - 1])
  }

  lemma TotalOfAppend(es: seq<Event>, e: Event, weight: Event -> nat)
    ensures Total(es + [e], weight) == Total(es, weight) + weight(e)
  {
    assert (es + [e])[..|es|] == es;
  }

  lemma {:induction false} TotalOfConcat(a: seq<Event>, b: seq<Event>, weight: Event -> nat)
    ensures Total(a + b, weight) == Total(a, weight) + Total(b, weight)
  {
    if b == [] {
      assert a + b == a;
    } else {
      assert (a + b)[..|a + b| - 1] == a + b[..|b| - 1];
      TotalOfConcat(a, b[..|b| - 1], weight);
    }
  }

  // ---------------------------------------------------------------------------------------
  // Figures in machine words

  /** The figure that one epoch contributes: an `atomic_t` count widened to `unsigned long` */
  function Figure(epoch: seq<Event>, weight: Event -> nat): nat { ULong(Int32(Total(epoch, weight))) }

  lemma FigureIsCount(epoch: seq<Event>, weight: Event -> nat)
    ensures Figure(epoch, weight) % UINT == Total(epoch, weight) % UINT
    ensures Total(epoch, weight) < UINT / 2 ==> Figure(epoch, weight) == Total(epoch, weight)
  {
    WordOfCount(Total(epoch, weight));
  }

  lemma WordOfCount(n: nat)
    ensures ULong(Int32(n)) % UINT == n % UINT
    ensures n < UINT / 2 ==> ULong(Int32(n)) == n
  {
    var m := n % UINT;
    assert n == UINT * (n / UINT) + m;
    if m < UINT / 2 {
      assert Int32(n) == m && ULong(m) == m;
    } else {
      assert Int32(n) == m - UINT && ULong(m - UINT) == m - UINT + ULONG;
      assert m - UINT + ULONG == m + UINT * (UINT - 1);
    }
  }

  function SumFigures(epochs: seq<seq<Event>>, weight: Event -> nat): nat {
    if epochs == [] then 0
    else SumFigures(epochs[..|epochs| - 1], weight) + Figure(epochs[|epochs| - 1], weight)
  }

  function SumDelays(epochs: seq<seq<Event>>): nat {
    if epochs == [] then 0
    else SumDelays(epochs[..|epochs| - 1]) + ULong(Total(epochs[|epochs| - 1], DelayOf))
  }

  /** No epoch has as many as 2^31 events of this kind. */
  predicate NoEpochOverflows(epochs: seq<seq<Event>>, weight: Event -> nat) {
    forall j :: 0 <= j < |epochs| ==> Total(epochs[j], weight) < UINT / 2
  }

  /** Summing the figures of the epochs gives the number of events, up to multiples of 2^32. */
  lemma {:induction false} FiguresAddUp(epochs: seq<seq<Event>>, weight: Event -> nat)
    ensures SumFigures(epochs, weight) % UINT == Total(Flat(epochs), weight) % UINT
    ensures NoEpochOverflows(epochs, weight) ==> SumFigures(epochs, weight) == Total(Flat(epochs), weight)
  {
    if epochs != [] {
      var front, last := epochs[..|epochs| - 1], epochs[|epochs| - 1];
      FiguresAddUp(front, weight);
      FigureIsCount(last, weight);
      TotalOfConcat(Flat(front), last, weight);
      SumsAgree(SumFigures(front, weight), Total(Flat(front), weight), Figure(last, weight), Total(last, weight));
    }
  }

  lemma SumsAgree(a: nat, b: nat, c: nat, d: nat)
    requires a % UINT == b % UINT && c % UINT == d % UINT
    ensures (a + c) % UINT == (b + d) % UINT
  {
    SameWord(a + c, b + d, a / UINT - b / UINT + c / UINT - d / UINT);
  }

  lemma SameWord(a: nat, b: nat, q: int)
    requires a == b + UINT * q
    ensures a % UINT == b % UINT
  {}

  /** The counts as the `atomic_t` counters hold them, added up */
  function SumSigned(epochs: seq<seq<Event>>, weight: Event -> nat): int {
    if epochs == [] then 0
    else SumSigned(epochs[..|epochs| - 1], weight) + Int32(Total(epochs[|epochs| - 1], weight))
  }

  lemma {:induction false} FiguresAreSigned(epochs: seq<seq<Event>>, weight: Event -> nat)
    ensures ULong(SumFigures(epochs, weight)) == ULong(SumSigned(epochs, weight))
  {
    hide ULong, Int32;
    if epochs != [] {
      var front, c := epochs[..|epochs| - 1], Int32(Total(epochs[|epochs| - 1], weight));
      FiguresAreSigned(front, weight);
      ULongAdd(SumFigures(front, weight), ULong(c));
      ULongAdd(SumSigned(front, weight), ULong(c));
      ULongAdd(c, SumSigned(front, weight));
    }
  }

  /** A counter that wraps can only lose events. */
  lemma SignedLoses(n: nat)
    ensures 0 <= Int32(n) + n && Int32(n) <= n && (Int32(n) == n <==> n < UINT / 2)
  {}

  lemma {:induction false} SignedSumLoses(epochs: seq<seq<Event>>, weight: Event -> nat)
    ensures var n := Total(Flat(epochs), weight);
      0 <= SumSigned(epochs, weight) + n && SumSigned(epochs, weight) <= n
    ensures SumSigned(epochs, weight) == Total(Flat(epochs), weight) <==> NoEpochOverflows(epochs, weight)
  {
    hide Int32;
    if epochs != [] {
      var front, last := epochs[..|epochs| - 1], epochs[|epochs| - 1];
      SignedSumLoses(front, weight);
      SignedLoses(Total(last, weight));
      TotalOfConcat(Flat(front), last, weight);
      assert NoEpochOverflows(epochs, weight) <==>
             NoEpochOverflows(front, weight) && Total(last, weight) < UINT / 2 by {
        assert epochs == front + [last];
      }
    }
  }

  /**
  The running total and the running epoch always agree with the log up to multiples of 2^32;
  with fewer than 2^63 events in the log they are its exact number of events if and only if
  no epoch has 2^31 of them.
   */
  lemma TotalsAreConserved(log: EntryLog, weight: Event -> nat)
    ensures var shown := ULong(SumFigures(log.done, weight)) + Int32(Total(log.running, weight));
      var n := Total(All(log), weight);
      && shown % UINT == n % UINT
      && (n < ULONG / 2 ==> (shown == n <==> NoEpochOverflows(log.done + [log.running], weight)))
  {
    hide Int32, ULong, SumFigures, SumSigned;
    var done, r := Total(Flat(log.done), weight), Total(log.running, weight);
    var signed := SumSigned(log.done, weight);
    TotalOfConcat(Flat(log.done), log.running, weight);
    FiguresAddUp(log.done, weight);
    FiguresAreSigned(log.done, weight);
    SignedSumLoses(log.done, weight);
    SignedLoses(r);
    WordKeepsLowHalf(SumFigures(log.done, weight), done, r);
    if done + r < ULONG / 2 {
      ShownIsExact(signed, done, r);
    }
    assert NoEpochOverflows(log.done + [log.running], weight) <==>
           NoEpochOverflows(log.done, weight) && r < UINT / 2 by {
      assert (log.done + [log.running])[|log.done|] == log.running;
      assert forall j :: 0 <= j < |log.done| ==> (log.done + [log.running])[j] == log.done[j];
    }
  }

  lemma WordKeepsLowHalf(sum: nat, done: nat, r: nat)
    requires sum % UINT == done % UINT
    ensures (ULong(sum) + Int32(r)) % UINT == (done + r) % UINT
  {
    var q := r / UINT;
    SameWord(sum, ULong(sum), UINT * (sum / ULONG));
    if Int32(r) >= 0 {
      SumsAgree(ULong(sum), done, Int32(r), r);
    } else {
      SumsAgree(ULong(sum), done, Int32(r) + UINT, r);
      assert ULong(sum) + Int32(r) + UINT == (ULong(sum) + Int32(r)) + UINT;
    }
  }

  lemma ShownIsExact(signed: int, done: nat, r: nat)
    requires 0 <= signed + done && signed <= done && done + r < ULONG / 2
    ensures ULong(signed) + Int32(r) == done + r <==> signed == done && r < UINT / 2
  {
    SignedLoses(r);
    if signed < 0 {
      assert ULong(signed) == signed + ULONG;
    }
  }

  lemma {:induction false} DelaysAddUp(epochs: seq<seq<Event>>)
    requires Total(Flat(epochs), DelayOf) < ULONG
    ensures SumDelays(epochs) == Total(Flat(epochs), DelayOf)
  {
    if epochs != [] {
      TotalOfConcat(Flat(epochs[..|epochs| - 1]), epochs[|epochs| - 1], DelayOf);
      DelaysAddUp(epochs[..|epochs| - 1]);
    }
  }

  lemma {:induction false} FewEvents(epochs: seq<seq<Event>>, weight: Event -> nat)
    requires NoEpochOverflows(epochs, weight)
    ensures Total(Flat(epochs), weight) <= |epochs| * 0x8000_0000
  {
    if epochs != [] {
      TotalOfConcat(Flat(epochs[..|epochs| - 1]), epochs[|epochs| - 1], weight);
      FewEvents(epochs[..|epochs| - 1], weight);
    }
  }

  /** The sums over a window of twenty epochs are exact unless an epoch or the total delay overflows. */
  lemma WindowIsExact(epochs: seq<seq<Event>>)
    requires |epochs| <= HISTORY_LEN
    requires NoEpochOverflows(epochs, IsBlocked) && Total(Flat(epochs), DelayOf) < ULONG
    ensures ULong(SumFigures(epochs, IsBlocked)) == Total(Flat(epochs), IsBlocked)
    ensures ULong(SumDelays(epochs)) == Total(Flat(epochs), DelayOf)
  {
    hide SumFigures, SumDelays, Total, Flat;
    FewEvents(epochs, IsBlocked);
    FiguresAddUp(epochs, IsBlocked);
    DelaysAddUp(epochs);
  }

  // ---------------------------------------------------------------------------------------
  // Maxima

  /** `d` is the longest delay in `es` and `who` the first process that suffered it. */
  ghost predicate IsPeak(es: seq<Event>, d: nat, who: Who) {
    && (forall k :: 0 <= k < |es| ==> DelayOf(es[k]) <= d)
    && (d == 0 ==> who == NOBODY)
    && (d > 0 ==> exists k :: IsFirstAt(es, k, d, who))
  }

  ghost predicate IsFirstAt(es: seq<Event>, k: int, d: nat, who: Who) {
    && 0 <= k < |es| && es[k] == Blocked(d, who)
    && forall j :: 0 <= j < k ==> DelayOf(es[j]) < d
  }

  lemma PeakOfAppend(es: seq<Event>, e: Event, d: nat, who: Who)
    requires IsPeak(es, d, who)
    ensures DelayOf(e) <= d ==> IsPeak(es + [e], d, who)
    ensures DelayOf(e) > d ==> IsPeak(es + [e], e.delay, e.who)
  {
    if DelayOf(e) > d {
      assert IsFirstAt(es + [e], |es|, e.delay, e.who);
    } else if d > 0 {
      var k :| IsFirstAt(es, k, d, who);
      assert IsFirstAt(es + [e], k, d, who);
    }
  }

  /** `m` is the largest figure of any completed epoch. */
  ghost predicate IsMaxFigure(epochs: seq<seq<Event>>, weight: Event -> nat, m: nat) {
    && (forall j :: 0 <= j < |epochs| ==> Figure(epochs[j], weight) <= m)
    && (m > 0 ==> exists j :: 0 <= j < |epochs| && Figure(epochs[j], weight) == m)
  }

  lemma MaxFigureOfAppend(epochs: seq<seq<Event>>, epoch: seq<Event>, weight: Event -> nat, m: nat)
    requires IsMaxFigure(epochs, weight, m)
    ensures var f := Figure(epoch, weight); IsMaxFigure(epochs + [epoch], weight, if m < f then f else m)
  {
    hide Figure;
    var all := epochs + [epoch];
    if m < Figure(epoch, weight) {
      assert all[|epochs|] == epoch;
    } else if m > 0 {
      var j :| 0 <= j < |epochs| && Figure(epochs[j], weight) == m;
      assert all[j] == epochs[j];
    }
  }

  // ---------------------------------------------------------------------------------------
  // The ring

  /** The index expression of the ring, in 32-bit unsigned arithmetic */
  function RingIndex(head: nat, count: nat, i: nat): nat {
    ((((head - count) % UINT + i) % UINT + HISTORY_LEN) % UINT) % HISTORY_LEN
  }

  /** Although `head - count` may wrap, the index is that of the i-th oldest epoch kept. */
  lemma RingIndexIsEpoch(k: nat, i: nat)
    requires i < Kept(k)
    ensures RingIndex(k % HISTORY_LEN, Kept(k), i) == (k - Kept(k) + i) % HISTORY_LEN
  {
    var head, count := k % HISTORY_LEN, Kept(k);
    var x := head - count + i + HISTORY_LEN;
    assert 0 <= x < 2 * HISTORY_LEN;
    assert (((head - count) % UINT + i) % UINT + HISTORY_LEN) % UINT == x;
    assert k == HISTORY_LEN * (k / HISTORY_LEN) + head;
    SameSlot(k - count + i, x, k / HISTORY_LEN - 1);
  }

  lemma SameSlot(a: nat, b: nat, q: int)
    requires a == b + HISTORY_LEN * q
    ensures a % HISTORY_LEN == b % HISTORY_LEN
  {}

  /** How many of `k` completed epochs the ring keeps */
  function Kept(k: nat): nat { if k < HISTORY_LEN then k else HISTORY_LEN }

  /** Every kept epoch is in its slot: epoch number j in slot j mod 20. */
  predicate Holds(ring: seq<nat>, figures: seq<nat>) {
    && |ring| == HISTORY_LEN
    && forall j :: |figures| - Kept(|figures|) <= j < |figures| ==> ring[j % HISTORY_LEN] == figures[j]
  }

  lemma HoldsLength(ring: seq<nat>, figures: seq<nat>)
    requires Holds(ring, figures)
    ensures |ring| == HISTORY_LEN
  {}

  lemma PushHolds(ring: seq<nat>, figures: seq<nat>, f: nat)
    requires Holds(ring, figures)
    ensures Holds(ring[|figures| % HISTORY_LEN := f], figures + [f])
  {
    var k := |figures|;
    var ring' := ring[k % HISTORY_LEN := f];
    forall j | k + 1 - Kept(k + 1) <= j < k + 1 ensures ring'[j % HISTORY_LEN] == (figures + [f])[j] {
      if j < k {
        OtherSlot(j, k);
      }
    }
  }

  lemma NextSlot(k: nat)
    ensures (k % HISTORY_LEN + 1) % HISTORY_LEN == (k + 1) % HISTORY_LEN
  {}

  lemma OtherSlot(j: nat, k: nat)
    requires j < k < j + HISTORY_LEN
    ensures j % HISTORY_LEN != k % HISTORY_LEN
  {}

  /** Read through the index expression, the ring is the last epochs in order. */
  lemma RingIsLastEpochs(ring: seq<nat>, figures: seq<nat>, i: nat)
    requires Holds(ring, figures) && i < Kept(|figures|)
    ensures var k := |figures|;
      ring[RingIndex(k % HISTORY_LEN, Kept(k), i)] == figures[k - Kept(k)..][i]
  {
    RingIndexIsEpoch(|figures|, i);
  }
}
