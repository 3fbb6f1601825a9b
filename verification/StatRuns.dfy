/**
Whole runs of the statistics monitor: whatever system calls report, in whatever order with the
ends of epochs, the log that an entry agrees with is the complete history of its system call
from the first event for which the entry could be allocated.
 */
module StatRuns {
  import opened StatLog
  import opened Words
  import opened Stats

  /** `ok` says whether kmalloc would succeed at this event. */
  datatype Op = Happens(id: nat, e: Event, ok: bool) | Tick

  function Play(supported: nat, ops: seq<Op>): map<nat, EntryLog> {
    if ops == [] then map[]
    else
      var logs := Play(supported, ops[..|ops| - 1]);
      match ops[|ops| - 1]
      case Happens(id, e, ok) => Recorded(logs, supported, id, e, ok)
      case Tick => EpochEnded(logs)
  }

  predicate Creates(op: Op, id: nat) { op.Happens? && op.id == id && op.ok }

  /** The first event of `id` for which the allocation succeeds, or the length of the run */
  function FirstOk(ops: seq<Op>, id: nat): (k: nat)
    ensures k <= |ops|
    ensures forall j :: 0 <= j < k ==> !Creates(ops[j], id)
    ensures k < |ops| ==> Creates(ops[k], id)
  {
    if ops == [] then 0 else if Creates(ops[0], id) then 0 else 1 + FirstOk(ops[1..], id)
  }

  lemma FirstIsUnique(ops: seq<Op>, id: nat, k: nat)
    requires k < |ops| && Creates(ops[k], id) && forall j :: 0 <= j < k ==> !Creates(ops[j], id)
    ensures FirstOk(ops, id) == k
  {}

  /** The epochs of one system call, if nothing is lost */
  function LogOf(ops: seq<Op>, id: nat): EntryLog {
    if ops == [] then EMPTY_LOG
    else
      var log := LogOf(ops[..|ops| - 1], id);
      match ops[|ops| - 1]
      case Happens(i, e, _) => if i == id then Add(log, e) else log
      case Tick => Close(log)
  }

  function EventsFor(ops: seq<Op>, id: nat): seq<Event> {
    if ops == [] then []
    else
      var op := ops[|ops| - 1];
      EventsFor(ops[..|ops| - 1], id) + if op.Happens? && op.id == id then [op.e] else []
  }

  function Ticks(ops: seq<Op>): nat {
    if ops == [] then 0 else Ticks(ops[..|ops| - 1]) + if ops[|ops| - 1].Tick? then 1 else 0
  }

  lemma {:induction false} LogIsComplete(ops: seq<Op>, id: nat)
    ensures All(LogOf(ops, id)) == EventsFor(ops, id) && |LogOf(ops, id).done| == Ticks(ops)
  {
    if ops != [] {
      var log := LogOf(ops[..|ops| - 1], id);
      LogIsComplete(ops[..|ops| - 1], id);
      match ops[|ops| - 1]
      case Happens(_, e, _) => AllOfAdd(log, e);
      case Tick => AllOfClose(log);
    }
  }

  /** Only events before the first successful allocation are lost, and only for supported calls is anything kept. */
  lemma {:induction false} NothingElseIsLost(supported: nat, ops: seq<Op>, id: nat)
    ensures var k := FirstOk(ops, id);
      && (id in Play(supported, ops) <==> id < supported && k < |ops|)
      && (id in Play(supported, ops) ==> Play(supported, ops)[id] == LogOf(ops[k..], id))
  {
    if ops != [] {
      hide Add, Close;
      var front := ops[..|ops| - 1];
      NothingElseIsLost(supported, front, id);
      var k := FirstOk(front, id);
      if k < |front| {
        FirstIsUnique(ops, id, k);
        assert ops[k..][..|ops[k..]| - 1] == front[k..];
      } else if Creates(ops[|front|], id) {
        FirstIsUnique(ops, id, |front|);
        assert ops[|front|..][..0] == [];
      }
    }
  }

  /** What an entry of a supported system call agrees with, in every run */
  lemma StatisticsAgreeWithRun(supported: nat, ops: seq<Op>, id: nat)
    requires id < supported && FirstOk(ops, id) < |ops|
    ensures id in Play(supported, ops)
    ensures var kept, log := ops[FirstOk(ops, id)..], Play(supported, ops)[id];
      All(log) == EventsFor(kept, id) && |log.done| == Ticks(kept)
  {
    NothingElseIsLost(supported, ops, id);
    LogIsComplete(ops[FirstOk(ops, id)..], id);
  }

  // ---------------------------------------------------------------------------------------
  // The monitor computes it

  /** A delay is an `unsigned long`. */
  predicate Fits(op: Op) { op.Happens? && op.e.Blocked? ==> op.e.delay < ULONG }

  lemma PlayLast(supported: nat, ops: seq<Op>, op: Op)
    ensures Play(supported, ops + [op]) ==
      match op
      case Happens(id, e, ok) => Recorded(Play(supported, ops), supported, id, e, ok)
      case Tick => EpochEnded(Play(supported, ops))
    ensures Ticks(ops + [op]) == Ticks(ops) + if op.Tick? then 1 else 0
  {
    assert (ops + [op])[..|ops|] == ops;
  }

  /** One call into the monitor */
  method Feed(m: Monitor, op: Op)
    requires m.Valid() && Fits(op)
    modifies m, m.entries, m.ringOf.Keys
    ensures m.Valid()
    ensures forall x :: x in m.entries ==> x in old(m.entries) || fresh(x)
    ensures forall a :: a in m.ringOf ==> a in old(m.ringOf) || fresh(a)
    ensures m.logs == match op
                      case Happens(id, e, ok) => Recorded(old(m.logs), m.supported, id, e, ok)
                      case Tick => EpochEnded(old(m.logs))
    ensures m.epochs == if op.Tick? then ULong(old(m.epochs) + 1) else old(m.epochs)
  {
    hide Monitor.Valid;
    match op {
      case Happens(id, e, ok) =>
        match e {
          case Blocked(delay, who) => m.AddBlocked(id, delay, who, ok);
          case CtxSwitch => m.AddCtxSwitch(id, ok);
          case Aborted => m.AddAborted(id, ok);
        }
      case Tick => m.UpdateEpochStats();
    }
  }

  /** A new monitor, fed any sequence of events and ticks, holds exactly what the run says. */
  method PlayAll(supported: nat, ops: seq<Op>) returns (m: Monitor)
    requires forall op :: op in ops ==> Fits(op)
    ensures m.Valid() && m.supported == supported
    ensures m.logs == Play(supported, ops) && m.epochs == ULong(Ticks(ops))
  {
    hide Play, Ticks, Entry.Valid;
    m := new Monitor(supported);
    PlayNothing(supported);
    for i := 0 to |ops|
      invariant m.Valid() && fresh(m) && m.supported == supported
      invariant (forall x :: x in m.entries ==> fresh(x)) && forall a :: a in m.ringOf ==> fresh(a)
      invariant m.logs == Play(supported, ops[..i]) && m.epochs == ULong(Ticks(ops[..i]))
    {
      assert ops[..i + 1] == ops[..i] + [ops[i]];
      PlayLast(supported, ops[..i], ops[i]);
      ULongAdd(Ticks(ops[..i]), 1);
      assert fresh(m.entries) && fresh(m.ringOf.Keys);
      Feed(m, ops[i]);
    }
    assert ops[..|ops|] == ops;
  }

  lemma PlayNothing(supported: nat)
    ensures Play(supported, []) == map[] && Ticks([]) == 0
  {}
}
