/**
The statistics monitor of sysThrot_statmonitor.c: one entry per system call with running
counters, totals, peaks and a ring of the last twenty epochs. Every method is proved against
the complete event log of `StatLog`, which the entry carries as a ghost field.
 */
module Stats {
  import opened StatLog
  import opened Words

  /** struct syscall_stat */
  datatype Stat = Stat(
    currentBlocked: int, currentTime: nat, totalBlocked: nat, totalAborted: nat,
    lastBlocked: nat, lastMean: nat, currentCtx: int, sumCtx: nat, peakCtx: nat,
    peakDelay: nat, peakWho: Who)

  const ZERO_STAT := Stat(0, 0, 0, 0, 0, 0, 0, 0, 0, 0, NOBODY)

  ghost predicate RunningAgrees(st: Stat, running: seq<Event>) {
    && st.currentBlocked == Int32(Total(running, IsBlocked))
    && st.currentTime == ULong(Total(running, DelayOf))
    && st.currentCtx == Int32(Total(running, IsCtx))
  }

  ghost predicate TotalsAgree(st: Stat, log: EntryLog) {
    && st.totalBlocked == ULong(SumFigures(log.done, IsBlocked))
    && st.sumCtx == ULong(SumFigures(log.done, IsCtx))
    && st.totalAborted == ULong(Total(All(log), IsAborted))
  }

  ghost predicate PeaksAgree(st: Stat, log: EntryLog) {
    && IsPeak(All(log), st.peakDelay, st.peakWho)
    && IsMaxFigure(log.done, IsCtx, st.peakCtx)
  }

  /** The division of the source, which gives 0 for an empty population */
  function Mean(sum: nat, n: nat): nat { if n == 0 then 0 else sum / n }

  /** `q` is the mean of `n` values that add up to `sum`, rounded down; the source shows 0 for none. */
  ghost predicate IsMean(q: nat, sum: nat, n: nat) {
    if n == 0 then q == 0 else q * n <= sum < (q + 1) * n
  }

  lemma MeanIsMean(sum: nat, n: nat)
    ensures IsMean(Mean(sum, n), sum, n)
  {
    if n > 0 {
      assert sum == n * (sum / n) + sum % n;
    }
  }

  /** The last twenty completed epochs, or all of them if there are fewer */
  function LastEpochs(log: EntryLog): seq<seq<Event>> { log.done[|log.done| - Kept(|log.done|)..] }

  /** The averages of a row: over the window for calls and delays, over all epochs for context switches */
  ghost predicate Averages(log: EntryLog, epochs: nat, avgEpoch: nat, avgDelay: nat, avgCtx: nat) {
    var last := LastEpochs(log);
    var sum := ULong(SumFigures(last, IsBlocked));
    && IsMean(avgEpoch, sum, |last|)
    && IsMean(avgDelay, ULong(SumDelays(last)), sum)
    && IsMean(avgCtx, ULong(SumFigures(log.done, IsCtx)), epochs)
  }

  /** Without overflow the averages are those of the events themselves. */
  lemma AveragesAreTrue(log: EntryLog, epochs: nat, avgEpoch: nat, avgDelay: nat, avgCtx: nat)
    requires Averages(log, epochs, avgEpoch, avgDelay, avgCtx)
    requires NoEpochOverflows(log.done, IsBlocked) && NoEpochOverflows(log.done, IsCtx)
    requires Total(Flat(LastEpochs(log)), DelayOf) < ULONG && Total(Flat(log.done), IsCtx) < ULONG
    ensures var events := Flat(LastEpochs(log));
      && IsMean(avgEpoch, Total(events, IsBlocked), |LastEpochs(log)|)
      && IsMean(avgDelay, Total(events, DelayOf), Total(events, IsBlocked))
      && IsMean(avgCtx, Total(Flat(log.done), IsCtx), epochs)
  {
    hide ULong, IsMean, SumFigures, SumDelays, Total, Flat;
    WindowIsExact(LastEpochs(log));
    FiguresAddUp(log.done, IsCtx);
  }

  ghost predicate LastAgrees(st: Stat, done: seq<seq<Event>>) {
    if done == [] then st.lastBlocked == 0 && st.lastMean == 0
    else
      var last := done[|done| - 1];
      && st.lastBlocked == Figure(last, IsBlocked)
      && IsMean(st.lastMean, ULong(Total(last, DelayOf)), Figure(last, IsBlocked))
  }

  /** Every field of the entry's record is what the log says. */
  ghost predicate Agrees(st: Stat, log: EntryLog) {
    RunningAgrees(st, log.running) && TotalsAgree(st, log) && PeaksAgree(st, log) && LastAgrees(st, log.done)
  }

  function Figures(epochs: seq<seq<Event>>): seq<nat> {
    seq(|epochs|, j requires 0 <= j < |epochs| => Figure(epochs[j], IsBlocked))
  }

  function Times(epochs: seq<seq<Event>>): seq<nat> {
    seq(|epochs|, j requires 0 <= j < |epochs| => ULong(Total(epochs[j], DelayOf)))
  }

  // ---------------------------------------------------------------------------------------
  // One event, and the end of an epoch

  /** The record after one event of the running epoch */
  function Noted(st: Stat, e: Event): Stat {
    match e
    case Blocked(delay, who) =>
      var st1 := st.(currentBlocked := Int32(st.currentBlocked + 1), currentTime := ULong(st.currentTime + delay));
      if delay > st.peakDelay then st1.(peakDelay := delay, peakWho := who) else st1
    case CtxSwitch => st.(currentCtx := Int32(st.currentCtx + 1))
    case Aborted => st.(totalAborted := ULong(st.totalAborted + 1))
  }

  lemma NotedAgrees(st: Stat, log: EntryLog, e: Event)
    requires Agrees(st, log)
    ensures Agrees(Noted(st, e), Add(log, e))
  {
    hide Int32, ULong, SumFigures, IsMaxFigure, IsPeak, IsMean, Total, Flat;
    AllOfAdd(log, e);
    TotalOfAppend(log.running, e, IsBlocked);
    TotalOfAppend(log.running, e, DelayOf);
    TotalOfAppend(log.running, e, IsCtx);
    TotalOfAppend(All(log), e, IsAborted);
    Int32Inc(Total(log.running, IsBlocked));
    Int32Inc(Total(log.running, IsCtx));
    ULongAdd(Total(log.running, DelayOf), DelayOf(e));
    ULongAdd(Total(All(log), IsAborted), IsAborted(e));
    PeakOfAppend(All(log), e, st.peakDelay, st.peakWho);
  }

  /** The record after the end of an epoch */
  function Closed(st: Stat): Stat {
    var blocked, ctx := ULong(st.currentBlocked), ULong(st.currentCtx);
    st.(currentBlocked := 0, currentTime := 0, currentCtx := 0,
        lastBlocked := blocked,
        lastMean := Mean(st.currentTime, blocked),
        totalBlocked := ULong(st.totalBlocked + blocked),
        sumCtx := ULong(st.sumCtx + ctx),
        peakCtx := if st.peakCtx < ctx then ctx else st.peakCtx)
  }

  lemma SumOfAppend(epochs: seq<seq<Event>>, epoch: seq<Event>, weight: Event -> nat)
    ensures SumFigures(epochs + [epoch], weight) == SumFigures(epochs, weight) + Figure(epoch, weight)
  {
    assert (epochs + [epoch])[..|epochs|] == epochs;
  }

  lemma ClosedAgrees(st: Stat, log: EntryLog)
    requires Agrees(st, log)
    ensures Agrees(Closed(st), Close(log))
  {
    hide SumFigures, IsMaxFigure, IsPeak, Flat, All, ULong, Mean, IsMean;
    MeanIsMean(st.currentTime, ULong(st.currentBlocked));
    AllOfClose(log);
    SumOfAppend(log.done, log.running, IsBlocked);
    SumOfAppend(log.done, log.running, IsCtx);
    ULongAdd(SumFigures(log.done, IsBlocked), Figure(log.running, IsBlocked));
    ULongAdd(SumFigures(log.done, IsCtx), Figure(log.running, IsCtx));
    MaxFigureOfAppend(log.done, log.running, IsCtx, st.peakCtx);
  }

  lemma AgreesOnRunning(st: Stat, log: EntryLog)
    requires Agrees(st, log)
    ensures RunningAgrees(st, log.running)
  {}

  // ---------------------------------------------------------------------------------------
  // Entries

  /** struct syscall_entry */
  class Entry {
    const id: nat
    const history: array<nat>
    const timeHistory: array<nat>
    var stat: Stat
    var head: nat
    var count: nat
    ghost var log: EntryLog

    ghost predicate Valid() reads this, history, timeHistory {
      && history != timeHistory
      && Agrees(stat, log)
      && RingAgrees(log.done)
    }

    constructor (id: nat)
      ensures Valid() && fresh(history) && fresh(timeHistory) && this.id == id && log == EMPTY_LOG
    {
      this.id := id;
      stat := ZERO_STAT;
      history := new nat[HISTORY_LEN](_ => 0);
      timeHistory := new nat[HISTORY_LEN](_ => 0);
      head, count := 0, 0;
      log := EMPTY_LOG;
    }

    method AddBlocked(delay: nat, who: Who)
      requires Valid() && delay < ULONG
      modifies this`stat, this`log
      ensures Valid() && log == Add(old(log), Blocked(delay, who))
    {
      hide Agrees, RingAgrees;
      NotedAgrees(stat, log, Blocked(delay, who));
      var longest := delay > stat.peakDelay;
      stat := stat.(currentBlocked := Int32(stat.currentBlocked + 1), currentTime := ULong(stat.currentTime + delay));
      if longest {
        stat := stat.(peakDelay := delay, peakWho := who);
      }
      log := Add(log, Blocked(delay, who));
    }

    method AddCtxSwitch()
      requires Valid()
      modifies this`stat, this`log
      ensures Valid() && log == Add(old(log), CtxSwitch)
    {
      hide Agrees, RingAgrees;
      NotedAgrees(stat, log, CtxSwitch);
      stat := stat.(currentCtx := Int32(stat.currentCtx + 1));
      log := Add(log, CtxSwitch);
    }

    method AddAborted()
      requires Valid()
      modifies this`stat, this`log
      ensures Valid() && log == Add(old(log), Aborted)
    {
      hide Agrees, RingAgrees;
      NotedAgrees(stat, log, Aborted);
      stat := stat.(totalAborted := ULong(stat.totalAborted + 1));
      log := Add(log, Aborted);
    }

    ghost predicate RingAgrees(done: seq<seq<Event>>) reads this`head, this`count, history, timeHistory {
      && head == |done| % HISTORY_LEN && count == Kept(|done|)
      && Holds(history[..], Figures(done)) && Holds(timeHistory[..], Times(done))
    }

    /** The completed epoch goes into the ring. */
    method Push(blocked: nat, time: nat, ghost done: seq<seq<Event>>, ghost epoch: seq<Event>)
      requires history != timeHistory && RingAgrees(done)
      requires blocked == Figure(epoch, IsBlocked) && time == ULong(Total(epoch, DelayOf))
      modifies this`head, this`count, history, timeHistory
      ensures RingAgrees(done + [epoch])
    {
      hide Figure, ULong, Total, Holds;
      HoldsLength(history[..], Figures(done));
      HoldsLength(timeHistory[..], Times(done));
      NextSlot(|done|);
      PushHolds(history[..], Figures(done), blocked);
      PushHolds(timeHistory[..], Times(done), time);
      assert Figures(done + [epoch]) == Figures(done) + [blocked];
      assert Times(done + [epoch]) == Times(done) + [time];
      history[head] := blocked;
      timeHistory[head] := time;
      head := (head + 1) % HISTORY_LEN;
      if count < HISTORY_LEN {
        count := count + 1;
      }
    }

    /** The body of the loop in update_epoch_stats */
    method CloseEpoch()
      requires Valid()
      modifies this`stat, this`log, this`head, this`count, history, timeHistory
      ensures Valid() && log == Close(old(log))
    {
      hide Agrees, RingAgrees, Int32, ULong, Total, Mean;
      ClosedAgrees(stat, log);
      AgreesOnRunning(stat, log);
      var blocked, time, ctx := ULong(stat.currentBlocked), stat.currentTime, ULong(stat.currentCtx);
      Push(blocked, time, log.done, log.running);
      stat := stat.(currentBlocked := 0, currentTime := 0, lastBlocked := blocked);
      stat := stat.(lastMean := Mean(time, blocked));
      stat := stat.(totalBlocked := ULong(stat.totalBlocked + blocked));
      stat := stat.(currentCtx := 0, sumCtx := ULong(stat.sumCtx + ctx));
      stat := stat.(peakCtx := if stat.peakCtx < ctx then ctx else stat.peakCtx);
      log := Close(log);
    }

    /** history_blocked_at: the i-th oldest epoch of the window */
    function BlockedAt(i: nat): (r: nat)
      requires Valid() && i < count
      reads this, history, timeHistory
      ensures r == Figure(LastEpochs(log)[i], IsBlocked)
    {
      RingIsLastEpochs(history[..], Figures(log.done), i);
      history[RingIndex(head, count, i)]
    }

    function TimeAt(i: nat): (r: nat)
      requires Valid() && i < count
      reads this, history, timeHistory
      ensures r == ULong(Total(LastEpochs(log)[i], DelayOf))
    {
      RingIsLastEpochs(timeHistory[..], Times(log.done), i);
      timeHistory[RingIndex(head, count, i)]
    }

    /** The loop of my_seq_show */
    method WindowSums() returns (sum: nat, time: nat)
      requires Valid()
      ensures sum == ULong(SumFigures(LastEpochs(log), IsBlocked)) && time == ULong(SumDelays(LastEpochs(log)))
    {
      hide ULong, Figure, Total, Agrees, RingAgrees, BlockedAt, TimeAt;
      RowFacts();
      ghost var last := LastEpochs(log);
      sum, time := 0, 0;
      for i := 0 to count
        invariant sum == ULong(SumFigures(last[..i], IsBlocked)) && time == ULong(SumDelays(last[..i]))
      {
        assert last[..i + 1][..i] == last[..i];
        ULongAdd(SumFigures(last[..i], IsBlocked), Figure(last[i], IsBlocked));
        ULongAdd(SumDelays(last[..i]), ULong(Total(last[i], DelayOf)));
        sum := ULong(sum + BlockedAt(i));
        time := ULong(time + TimeAt(i));
      }
      assert last[..count] == last;
    }

    /** The averages that my_seq_show prints; `epochs` is the module's epoch_count. */
    method Row(epochs: nat) returns (avgEpoch: nat, avgDelay: nat, avgCtx: nat)
      requires Valid()
      ensures Averages(log, epochs, avgEpoch, avgDelay, avgCtx)
    {
      hide ULong, Figure, Total, Agrees, RingAgrees, Mean, IsMean;
      RowFacts();
      var sum, time := WindowSums();
      MeanIsMean(sum, count);
      MeanIsMean(time, sum);
      MeanIsMean(stat.sumCtx, epochs);
      avgEpoch := Mean(sum, count);
      avgDelay := Mean(time, sum);
      avgCtx := Mean(stat.sumCtx, epochs);
    }

    twostate lemma StillValid()
      requires old(Valid()) && unchanged(this) && unchanged(history) && unchanged(timeHistory)
      ensures Valid() && log == old(log)
    {}

    lemma RowFacts()
      requires Valid()
      ensures count == |LastEpochs(log)| && stat.sumCtx == ULong(SumFigures(log.done, IsCtx))
    {}
  }

  // ---------------------------------------------------------------------------------------
  // The list of entries

  /** The logs of all system calls after an event for `id`; `ok` says whether kmalloc would succeed. */
  function Recorded(logs: map<nat, EntryLog>, supported: nat, id: nat, e: Event, ok: bool): map<nat, EntryLog> {
    if id >= supported || (id !in logs && !ok) then logs
    else logs[id := Add(if id in logs then logs[id] else EMPTY_LOG, e)]
  }

  function EpochEnded(logs: map<nat, EntryLog>): map<nat, EntryLog> {
    map id | id in logs :: Close(logs[id])
  }

  /** No two entries are for the same system call or share a ring. */
  ghost predicate Separate(entries: seq<Entry>, place: map<nat, nat>, ringOf: map<array<nat>, nat>) {
    && (forall i :: 0 <= i < |entries| ==> OwnId(place, i, entries[i].id) && OwnRings(ringOf, i, entries[i]))
    && (forall id :: id in place ==> place[id] < |entries| && entries[place[id]].id == id)
  }

  ghost predicate OwnId(place: map<nat, nat>, i: nat, id: nat) { id in place && place[id] == i }

  ghost predicate OwnRings(ringOf: map<array<nat>, nat>, i: nat, e: Entry) {
    && e.history in ringOf && ringOf[e.history] == i
    && e.timeHistory in ringOf && ringOf[e.timeHistory] == i
  }

  lemma SeparateAppend(entries: seq<Entry>, place: map<nat, nat>, ringOf: map<array<nat>, nat>, e: Entry)
    requires Separate(entries, place, ringOf)
    requires e.id !in place && e.history !in ringOf && e.timeHistory !in ringOf
    ensures var n := |entries|;
      Separate(entries + [e], place[e.id := n], ringOf[e.history := n][e.timeHistory := n])
  {
    var n := |entries|;
    var all, place', ringOf' := entries + [e], place[e.id := n], ringOf[e.history := n][e.timeHistory := n];
    forall i | 0 <= i < |all| ensures OwnId(place', i, all[i].id) && OwnRings(ringOf', i, all[i]) {
      if i < n {
        assert OwnId(place, i, entries[i].id) && OwnRings(ringOf, i, entries[i]);
      }
    }
  }

  class Monitor {
    const supported: nat                       // SUPPORTED_SYSCALLS, fixed when the module is built
    var entries: seq<Entry>
    var epochs: nat
    ghost var logs: map<nat, EntryLog>
    ghost var place: map<nat, nat>             // the position of the entry for a system call
    ghost var ringOf: map<array<nat>, nat>     // the position of the entry a ring belongs to

    ghost predicate EntryOk(e: Entry) reads this, e, e.history, e.timeHistory {
      e.Valid() && e.id in logs && logs[e.id] == e.log
    }

    ghost predicate Valid() reads this, entries, ringOf.Keys {
      && Separate(entries, place, ringOf) && logs.Keys == place.Keys
      && forall i :: 0 <= i < |entries| ==> OwnRings(ringOf, i, entries[i]) && EntryOk(entries[i])
    }

    constructor (supported: nat)
      ensures Valid() && entries == [] && epochs == 0 && logs == map[] && ringOf == map[] && this.supported == supported
    {
      this.supported := supported;
      entries, epochs, logs, place, ringOf := [], 0, map[], map[], map[];
    }

    /** find_entry_locked */
    method Find(id: nat) returns (e: Entry?)
      requires Valid()
      ensures e == null <==> id !in logs
      ensures e != null ==> e in entries && e.id == id && e.Valid() && e.log == logs[id]
    {
      hide Entry.Valid;
      for i := 0 to |entries|
        invariant forall j :: 0 <= j < i ==> entries[j].id != id
      {
        if entries[i].id == id {
          assert EntryOk(entries[i]);
          return entries[i];
        }
      }
      return null;
    }

    /** find_or_create_entry_locked */
    method FindOrCreate(id: nat, ok: bool) returns (e: Entry?)
      requires Valid()
      modifies this`entries, this`logs, this`place, this`ringOf
      ensures Valid() && fresh(ringOf.Keys - old(ringOf.Keys))
      ensures forall x :: x in entries ==> x in old(entries) || fresh(x)
      ensures e == null <==> id !in old(logs) && !ok
      ensures e != null ==> e in entries && e.id == id && e.Valid() && e.log == logs[id]
      ensures logs == if id in old(logs) || !ok then old(logs) else old(logs)[id := EMPTY_LOG]
    {
      hide Entry.Valid, Separate;
      e := Find(id);
      if e == null && ok {
        ghost var n := |entries|;
        e := new Entry(id);
        SeparateAppend(entries, place, ringOf, e);
        entries := entries + [e];
        place := place[id := n];
        ringOf := ringOf[e.history := n][e.timeHistory := n];
        logs := logs[id := EMPTY_LOG];
      }
    }

    /** An event noted in one entry leaves the others as they are. */
    twostate lemma NoteKeepsValid(e: Entry)
      requires old(Valid()) && e in entries && e.Valid()
      requires entries == old(entries) && place == old(place) && ringOf == old(ringOf)
      requires logs == old(logs)[e.id := e.log]
      requires forall x :: x in entries && x != e ==> unchanged(x)
      requires forall a :: a in ringOf ==> unchanged(a)
      ensures Valid()
    {
      hide Entry.Valid;
      forall i | 0 <= i < |entries| ensures EntryOk(entries[i]) {
        assert old(EntryOk(entries[i])) && OwnRings(ringOf, i, entries[i]);
        if entries[i] != e {
          assert OwnId(place, i, entries[i].id);
          assert entries[i] in entries;
          entries[i].StillValid();
        }
      }
    }

    /** sysThrot_add_blocked, for a call of process `who` */
    method AddBlocked(id: nat, delay: nat, who: Who, ok: bool)
      requires Valid() && delay < ULONG
      modifies this`entries, this`logs, this`place, this`ringOf, entries
      ensures Valid() && fresh(ringOf.Keys - old(ringOf.Keys))
      ensures forall x :: x in entries ==> x in old(entries) || fresh(x)
      ensures logs == Recorded(old(logs), supported, id, Blocked(delay, who), ok)
    {
      hide Entry.Valid, Valid, Add;
      if id < supported {
        var e := FindOrCreate(id, ok);
        if e != null {
          label Found:
          e.AddBlocked(delay, who);
          logs := logs[id := e.log];
          NoteKeepsValid@Found(e);
        }
      }
    }

    /** sysThrot_add_ctx_switch */
    method AddCtxSwitch(id: nat, ok: bool)
      requires Valid()
      modifies this`entries, this`logs, this`place, this`ringOf, entries
      ensures Valid() && fresh(ringOf.Keys - old(ringOf.Keys))
      ensures forall x :: x in entries ==> x in old(entries) || fresh(x)
      ensures logs == Recorded(old(logs), supported, id, CtxSwitch, ok)
    {
      hide Entry.Valid, Valid, Add;
      if id < supported {
        var e := FindOrCreate(id, ok);
        if e != null {
          label Found:
          e.AddCtxSwitch();
          logs := logs[id := e.log];
          NoteKeepsValid@Found(e);
        }
      }
    }

    /** sysThrot_add_aborted */
    method AddAborted(id: nat, ok: bool)
      requires Valid()
      modifies this`entries, this`logs, this`place, this`ringOf, entries
      ensures Valid() && fresh(ringOf.Keys - old(ringOf.Keys))
      ensures forall x :: x in entries ==> x in old(entries) || fresh(x)
      ensures logs == Recorded(old(logs), supported, id, Aborted, ok)
    {
      hide Entry.Valid, Valid, Add;
      if id < supported {
        var e := FindOrCreate(id, ok);
        if e != null {
          label Found:
          e.AddAborted();
          logs := logs[id := e.log];
          NoteKeepsValid@Found(e);
        }
      }
    }

    /** Closing the epoch of one entry leaves the others as they are. */
    twostate lemma CloseKeepsOthers(i: nat)
      requires Separate(entries, place, ringOf) && i < |entries|
      requires unchanged(this) && forall j :: 0 <= j < |entries| ==> old(entries[j].Valid())
      requires forall x :: x in entries && x != entries[i] ==> unchanged(x)
      requires forall a :: a in ringOf && a != entries[i].history && a != entries[i].timeHistory ==> unchanged(a)
      ensures forall j :: 0 <= j < |entries| && j != i ==> entries[j].Valid() && entries[j].log == old(entries[j].log)
    {
      hide Entry.Valid;
      forall j | 0 <= j < |entries| && j != i
        ensures entries[j].Valid() && entries[j].log == old(entries[j].log)
      {
        assert OwnId(place, j, entries[j].id) && OwnId(place, i, entries[i].id);
        assert OwnRings(ringOf, j, entries[j]) && OwnRings(ringOf, i, entries[i]);
        assert entries[j] in entries;
        entries[j].StillValid();
      }
    }

    /** update_epoch_stats */
    method UpdateEpochStats()
      requires Valid()
      modifies this`epochs, this`logs, entries, ringOf.Keys
      ensures Valid() && entries == old(entries) && ringOf == old(ringOf)
      ensures logs == EpochEnded(old(logs)) && epochs == ULong(old(epochs) + 1)
    {
      hide Entry.Valid, Close, ULong, Separate;
      epochs := ULong(epochs + 1);
      for i := 0 to |entries|
        invariant logs == old(logs) && epochs == ULong(old(epochs) + 1)
        invariant forall j :: 0 <= j < |entries| ==> entries[j].Valid()
        invariant forall j :: 0 <= j < i ==> entries[j].log == Close(old(entries[j].log))
        invariant forall j :: i <= j < |entries| ==> entries[j].log == old(entries[j].log)
      {
        label Before:
        entries[i].CloseEpoch();
        CloseKeepsOthers@Before(i);
      }
      logs := EpochEnded(logs);
    }

    /** my_seq_show for the entry of `id`, with the monitor's own epoch counter */
    method Show(id: nat) returns (shown: bool, avgEpoch: nat, avgDelay: nat, avgCtx: nat)
      requires Valid()
      ensures shown <==> id in logs
      ensures shown ==> Averages(logs[id], epochs, avgEpoch, avgDelay, avgCtx)
    {
      hide Entry.Valid, Valid, Averages;
      var e := Find(id);
      if e == null {
        return false, 0, 0, 0;
      }
      shown := true;
      avgEpoch, avgDelay, avgCtx := e.Row(epochs);
    }
  }
}
