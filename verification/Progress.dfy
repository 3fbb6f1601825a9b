/**
Nobody waits for nothing: an element that has left the queue is flagged or done with, and a
thread whose wait is over, because it was granted or because of a signal, returns within its
next steps whatever the other actors do.
 */
module Progress {
  import opened Lists
  import opened QueueModel
  import opened Protocol
  import opened Memory
  import opened ProtocolInvariant
  import opened ProtocolTheorems

  // ---------------------------------------------------------------------------------------
  // Elements that have left the queue

  /** Every element on the junk list is flagged, or its waiter has left. */
  ghost predicate JunkIsServed(q: Queue) { forall e :: e in q.junk ==> Exited(q, e) || Flagged(q, e) }

  ghost predicate FlaggedUpTo(q: Queue, n: nat) {
    n <= |q.waiting| && forall k :: 0 <= k < n ==> Flagged(q, q.waiting[k])
  }

  /** Element `e` keeps its flag and its mark as long as it is allocated. */
  predicate Lasts(q: Queue, q': Queue, e: nat) {
    e in q.heap && e in q'.heap ==>
      (q.heap[e].wakeUp ==> q'.heap[e].wakeUp) && (q.heap[e].exited ==> q'.heap[e].exited)
  }

  lemma ActKeepsFlags(m: Mem, a: Action, e: nat)
    requires Enabled(m, a) && e < m.q.next
    ensures Lasts(m.q, Act(m, a).q, e) && e < Act(m, a).q.next
    ensures e !in m.q.heap ==> e !in Act(m, a).q.heap
  {
  }

  lemma ActServes(m: Mem, a: Action)
    requires Enabled(m, a) && Ownership(m) && JunkIsServed(m.q) && (a.SpliceAll? ==> FlaggedUpTo(m.q, |m.q.waiting|))
    ensures JunkIsServed(Act(m, a).q)
  {
    hide Ownership, JunkIsServed, Act;
    var q, q' := m.q, Act(m, a).q;
    assert SafeLists(q) && SafeLists(q') by { ListsStaySafe(m, a); }
    forall e | e in q'.junk ensures Exited(q', e) || Flagged(q', e) {
      JunkComesFrom(m, a, e);
      ActKeepsFlags(m, a, e);
    }
    assert JunkIsServed(q') by { JunkMeans(q'); }
  }

  lemma ListsStaySafe(m: Mem, a: Action)
    requires Enabled(m, a) && Ownership(m)
    ensures SafeLists(m.q) && SafeLists(Act(m, a).q)
  {
    hide Act;
    ActKeepsOwnership(m, a);
  }

  lemma JunkMeans(q: Queue)
    requires forall e :: e in q.junk ==> Exited(q, e) || Flagged(q, e)
    ensures JunkIsServed(q)
  {}

  /** What is on the junk list afterwards was there before, or has just been served. */
  lemma JunkComesFrom(m: Mem, a: Action, e: nat)
    requires Enabled(m, a) && SafeLists(m.q) && JunkIsServed(m.q)
    requires a.SpliceAll? ==> FlaggedUpTo(m.q, |m.q.waiting|)
    requires e in Act(m, a).q.junk && e in Act(m, a).q.heap
    ensures e < m.q.next && (Exited(m.q, e) || Flagged(m.q, e) || Flagged(Act(m, a).q, e))
  {
    hide NoDup;
  }

  lemma ActKeepsPrefix(m: Mem, a: Action, n: nat)
    requires Enabled(m, a) && Ownership(m) && FlaggedUpTo(m.q, n) && !a.Unlist? && !a.SpliceAll?
    ensures FlaggedUpTo(Act(m, a).q, n)
  {
    hide Ownership, Act;
    ListsStaySafe(m, a);
    WaitingGrows(m, a);
    forall k | 0 <= k < n ensures Flagged(Act(m, a).q, Act(m, a).q.waiting[k]) {
      var e := m.q.waiting[k];
      assert e in m.q.waiting;
      assert Act(m, a).q.waiting[k] == e && e in Act(m, a).q.waiting;
      ActKeepsFlags(m, a, e);
    }
  }

  lemma WaitingGrows(m: Mem, a: Action)
    requires Enabled(m, a) && !a.Unlist? && !a.SpliceAll?
    ensures m.q.waiting <= Act(m, a).q.waiting
  {}

  // ---------------------------------------------------------------------------------------
  // In every run

  ghost predicate Served(s: State) {
    && JunkIsServed(s.g.q)
    && (s.g.control.Waking? ==> FlaggedUpTo(s.g.q, s.g.control.i))
    && s.g.epoch == s.quota.refills + Bit(s.g.tick.Refilling?)
  }

  lemma ServedStep(s: State, l: Label)
    requires Inv(s) && Served(s)
    ensures Served(Step(s, l))
  {
    hide Step, Inv, Ownership, Act, JunkIsServed, FlaggedUpTo;
    var a := ActionOf(s, l);
    assert Ownership(MemOf(s)) && Phase(s.g) by { InvMeansBoth(s); }
    StepProjects(s, l);
    if a.SpliceAll? {
      SplicesFlagged(s, l);
    }
    ActServes(MemOf(s), a);
    WokenStep(s, l);
    EpochStep(s, l);
  }

  lemma InvMeansBoth(s: State)
    requires Inv(s)
    ensures Ownership(MemOf(s)) && Phase(s.g)
  {}

  lemma SplicesFlagged(s: State, l: Label)
    requires Served(s) && Phase(s.g) && ActionOf(s, l).SpliceAll?
    ensures FlaggedUpTo(s.g.q, |s.g.q.waiting|)
  {
    hide StubStep, JunkIsServed;
  }

  lemma WokenStep(s: State, l: Label)
    requires Served(s) && Phase(s.g) && Ownership(MemOf(s))
    ensures Step(s, l).g.control.Waking? ==> FlaggedUpTo(Step(s, l).g.q, Step(s, l).g.control.i)
  {
    hide Ownership, Act, JunkIsServed, StubStep, TimerStep, LogElems, LogCalls, LogGrants, LogQuota;
    var s', a := Step(s, l), ActionOf(s, l);
    StepProjects(s, l);
    if s'.g.control.Waking? && s.g.control.Waking? && !l.Controller? {
      NotTheQueue(s, l);
      TimerKeepsControl(s.g);
      if l.Thread? && l.t < |s.threads| { StubFrame(s.g, s.threads[l.t], l.b); }
      ActKeepsPrefix(MemOf(s), a, s.g.control.i);
    } else if l.Controller? && s.g.control.Waking? {
      assert forall e :: e in s.g.q.waiting ==> e in s.g.q.heap by { OwnedIsAllocated(s); }
      FlagsOneMore(s.g);
    } else if l.Thread? && l.t < |s.threads| {
      StubFrame(s.g, s.threads[l.t], l.b);
    } else {
      TimerKeepsControl(s.g);
    }
  }

  /** While the queue is woken no thread and no callback takes anything off it. */
  lemma NotTheQueue(s: State, l: Label)
    requires Phase(s.g) && s.g.control.Waking? && !l.Controller?
    ensures !ActionOf(s, l).Unlist? && !ActionOf(s, l).SpliceAll?
  {
    hide StubStep;
  }

  lemma FlagsOneMore(g: Shared)
    requires g.control.Waking? && FlaggedUpTo(g.q, g.control.i) && forall e :: e in g.q.waiting ==> e in g.q.heap
    ensures var g' := ControllerStep(g); g'.control.Waking? ==> FlaggedUpTo(g'.q, g'.control.i)
  {}

  lemma EpochStep(s: State, l: Label)
    requires s.g.epoch == s.quota.refills + Bit(s.g.tick.Refilling?)
    ensures var s' := Step(s, l); s'.g.epoch == s'.quota.refills + Bit(s'.g.tick.Refilling?)
  {
    hide StubStep, TimerStep, ControllerStep, UnqueueMore, Exited, LogElems, LogCalls, LogGrants;
    match l
    case Thread(t, b) => if t < |s.threads| { StubFrame(s.g, s.threads[t], b); }
    case Timer => TimerEpoch(s.g);
    case Controller => ControllerEpoch(s.g);
  }

  lemma TimerEpoch(g: Shared)
    ensures var g' := TimerStep(g);
      g'.epoch == g.epoch + Bit(g.tick.Advancing?) && (g'.tick.Refilling? <==> g.tick.Advancing?)
  {
    hide UnqueueBody, UnqueueMore, UnqueueEnd, FreeJunkBody;
  }

  lemma ControllerEpoch(g: Shared)
    ensures ControllerStep(g).epoch == g.epoch && ControllerStep(g).tick == g.tick
  {
    hide FreeJunkBody, SetFlag, Splice;
  }

  lemma OwnedIsAllocated(s: State)
    requires Ownership(MemOf(s))
    ensures forall e :: e in s.g.q.waiting ==> e in s.g.q.heap
  {}

  lemma {:induction false} ServedAlways(max: nat, threads: nat, ls: seq<Label>)
    ensures Inv(Run(Init(max, threads), ls)) && Served(Run(Init(max, threads), ls))
  {
    hide Run, Step, Inv;
    RunLast(Init(max, threads), ls);
    InvAlways(max, threads, ls);
    if ls != [] {
      hide Init, Served;
      var prefix := ls[..|ls| - 1];
      ServedAlways(max, threads, prefix);
      ServedStep(Run(Init(max, threads), prefix), ls[|ls| - 1]);
    }
  }

  /** The epoch counter is the number of refills begun, and a waiter off the queue has its flag. */
  lemma OffTheQueueIsFlagged(max: nat, threads: nat, ls: seq<Label>, t: nat)
    requires t < threads
    ensures var s := Run(Init(max, threads), ls);
      && |s.threads| == threads && s.g.epoch == s.quota.refills + Bit(s.g.tick.Refilling?)
      && (Waits(s.threads[t]) && s.threads[t].e !in s.g.q.waiting ==> Flagged(s.g.q, s.threads[t].e))
  {
    hide Run, Init, Inv;
    ServedAlways(max, threads, ls);
    MaxIsConstant(max, threads, ls);
    MemoryIsSafe(max, threads, ls);
  }

  // ---------------------------------------------------------------------------------------
  // The way out

  /** The outcome of a wait that ended with the monitor on */
  function OutcomeOf(interrupted: bool): Outcome { if interrupted then Aborted else Granted }

  /** Element `e` is marked or freed. */
  predicate Gone(q: Queue, e: nat) { e !in q.heap || q.heap[e].exited }

  /** Thread `t` is `k` steps into its way out of the wait on `e`. */
  ghost predicate OnTheWay(s: State, t: nat, e: nat, interrupted: bool, k: nat) {
    && t < |s.threads| && e < s.g.q.next
    && match k
       case 0 => s.threads[t] == ReadWorking(e) && Flagged(s.g.q, e) && !interrupted
       case 1 => s.threads[t] == ReadFlag(e) && Flagged(s.g.q, e) && !interrupted
       case 2 => s.threads[t] == Retest(e, interrupted)
       case 3 => s.threads[t] == Marking(e, interrupted)
       case 4 => s.threads[t] == Reporting(OutcomeOf(interrupted)) && Done(s, e, interrupted)
       case 5 => s.threads[t] == Leaving(OutcomeOf(interrupted)) && Done(s, e, interrupted)
       case _ => false
  }

  /** The waiter has marked its element and, if it was granted, used its grant. */
  ghost predicate Done(s: State, e: nat, interrupted: bool) {
    Gone(s.g.q, e) && (!interrupted ==> e in s.grants.admitted)
  }

  /** The thread's own steps take it along, whatever `b` says. */
  lemma OwnStep(s: State, t: nat, b: bool, e: nat, interrupted: bool, k: nat)
    requires Inv(s) && s.g.working && OnTheWay(s, t, e, interrupted, k) && k < 5
    ensures OnTheWay(Step(s, Thread(t, b)), t, e, interrupted, k + 1)
  {
    hide Inv, LogElems, LogQuota, LogCalls;
    if Waits(s.threads[t]) {
      WaiterHasElem(s, t);
    }
  }

  lemma WaiterHasElem(s: State, t: nat)
    requires Inv(s) && t < |s.threads| && Waits(s.threads[t])
    ensures s.threads[t].e in s.g.q.heap && !s.g.q.heap[s.threads[t].e].exited
  {
    HolderIsKnown(MemOf(s), t);
  }

  /** Steps of others leave it where it is. */
  lemma OtherStep(s: State, l: Label, t: nat, e: nat, interrupted: bool, k: nat)
    requires Inv(s) && OnTheWay(s, t, e, interrupted, k) && !(l.Thread? && l.t == t)
    ensures OnTheWay(Step(s, l), t, e, interrupted, k)
  {
    hide Inv, NextShared, LogElems, LogQuota, LogCalls, Act, ActionOf;
    var s' := Step(s, l);
    assert Ownership(MemOf(s)) by { InvMeansBoth(s); }
    StepProjects(s, l);
    assert SafeLists(s.g.q) by { InvMeansOwnership(s); }
    ActKeepsFlags(MemOf(s), ActionOf(s, l), e);
    if k <= 1 {
      InvStep(s, l);
      WaiterHasElem(s', t);
    }
  }

  /** How many steps of thread `t` a run contains */
  function StepsOf(ls: seq<Label>, t: nat): nat {
    if ls == [] then 0 else StepsOf(ls[..|ls| - 1], t) + Bit(ls[|ls| - 1].Thread? && ls[|ls| - 1].t == t)
  }

  /** The monitor is on all along the run. */
  ghost predicate StaysOn(s: State, ls: seq<Label>) { forall i :: 0 <= i <= |ls| ==> Run(s, ls[..i]).g.working }

  /** Label `j` of the run is the one with which the call of thread `t` returns. */
  ghost predicate ReturnsAt(s: State, ls: seq<Label>, t: nat, e: nat, interrupted: bool, j: nat)
    requires j < |ls|
  {
    var before, after := Run(s, ls[..j]), Run(s, ls[..j + 1]);
    && ls[j].Thread? && ls[j].t == t && t < |before.threads| && t < |after.threads|
    && before.threads[t] == Leaving(OutcomeOf(interrupted)) && after.threads[t] == Outside
    && after.calls.done == before.calls.done.Add(OutcomeOf(interrupted))
    && Done(after, e, interrupted)
  }

  ghost predicate Returns(s: State, ls: seq<Label>, t: nat, e: nat, interrupted: bool) {
    exists j :: 0 <= j < |ls| && ReturnsAt(s, ls, t, e, interrupted, j)
  }

  lemma ReturnsLater(s: State, ls: seq<Label>, t: nat, e: nat, interrupted: bool)
    requires ls != [] && Returns(s, ls[..|ls| - 1], t, e, interrupted)
    ensures Returns(s, ls, t, e, interrupted)
  {
    hide Run, Done;
    var prefix := ls[..|ls| - 1];
    var j :| 0 <= j < |prefix| && ReturnsAt(s, prefix, t, e, interrupted, j);
    assert prefix[..j] == ls[..j] && prefix[..j + 1] == ls[..j + 1] && prefix[j] == ls[j];
    assert ReturnsAt(s, ls, t, e, interrupted, j);
  }

  lemma LastStep(s: State, t: nat, b: bool, e: nat, interrupted: bool)
    requires OnTheWay(s, t, e, interrupted, 5)
    ensures var s' := Step(s, Thread(t, b));
      && t < |s'.threads| && s'.threads[t] == Outside && Done(s', e, interrupted)
      && s'.calls.done == s.calls.done.Add(OutcomeOf(interrupted))
  {
    hide LogElems, LogQuota;
  }

  lemma {:induction false} WayOut(s: State, ls: seq<Label>, t: nat, e: nat, interrupted: bool, k: nat)
    requires Inv(s) && k <= 5 && OnTheWay(s, t, e, interrupted, k) && StaysOn(s, ls)
    ensures Inv(Run(s, ls))
    ensures if k + StepsOf(ls, t) <= 5 then OnTheWay(Run(s, ls), t, e, interrupted, k + StepsOf(ls, t))
            else Returns(s, ls, t, e, interrupted)
  {
    hide Run, Inv, Step, OnTheWay, Done;
    RunLast(s, ls);
    if ls != [] {
      var prefix, l := ls[..|ls| - 1], ls[|ls| - 1];
      var s1, n := Run(s, prefix), k + StepsOf(prefix, t);
      assert prefix[..|prefix|] == prefix && s1.g.working;
      forall i | 0 <= i <= |prefix| ensures Run(s, prefix[..i]).g.working {
        assert prefix[..i] == ls[..i];
      }
      WayOut(s, prefix, t, e, interrupted, k);
      InvStep(s1, l);
      if n > 5 {
        ReturnsLater(s, ls, t, e, interrupted);
      } else if !(l.Thread? && l.t == t) {
        OtherStep(s1, l, t, e, interrupted, n);
      } else if n < 5 {
        OwnStep(s1, t, l.b, e, interrupted, n);
      } else {
        LastStep(s1, t, l.b, e, interrupted);
        assert ls[..|prefix| + 1] == ls;
        OnWayOut(s1, t, e, interrupted);
        assert ReturnsAt(s, ls, t, e, interrupted, |prefix|);
      }
    } else {
      assert ls[..0] == [];
    }
  }

  lemma OnWayOut(s: State, t: nat, e: nat, interrupted: bool)
    requires OnTheWay(s, t, e, interrupted, 5)
    ensures t < |s.threads| && s.threads[t] == Leaving(OutcomeOf(interrupted))
  {}

  /**
  A granted call returns: from every reachable state in which the flag of a waiter is set, in
  every continuation that keeps the monitor on, the waiter's call has ended as granted, its
  element marked and its grant used, once its thread has taken six steps.
   */
  lemma GrantedCallReturns(max: nat, threads: nat, ls: seq<Label>, more: seq<Label>, t: nat, e: nat)
    requires var s := Run(Init(max, threads), ls);
      && t < |s.threads| && (s.threads[t] == ReadWorking(e) || s.threads[t] == ReadFlag(e))
      && Flagged(s.g.q, e) && StaysOn(s, more) && StepsOf(more, t) >= 6
    ensures Returns(Run(Init(max, threads), ls), more, t, e, false)
  {
    hide Run, Init, Inv, Returns, StaysOn;
    var s := Run(Init(max, threads), ls);
    InvAlways(max, threads, ls);
    assert e < s.g.q.next by { AllocatedIsOld(s, e); }
    WayOut(s, more, t, e, false, if s.threads[t].ReadWorking? then 0 else 1);
  }

  lemma AllocatedIsOld(s: State, e: nat)
    requires Inv(s) && e in s.g.q.heap
    ensures e < s.g.q.next
  {}

  /**
  A signal ends the wait as well: the check of the condition that meets it, with the flag clear,
  is followed by -EAGAIN once the thread has taken four more steps.
   */
  lemma SignalledCallReturns(max: nat, threads: nat, ls: seq<Label>, more: seq<Label>, t: nat, e: nat)
    requires var s := Run(Init(max, threads), ls);
      && t < |s.threads| && s.threads[t] == ReadFlag(e) && !Flagged(s.g.q, e)
      && StaysOn(Step(s, Thread(t, true)), more) && StepsOf(more, t) >= 4
    ensures Returns(Step(Run(Init(max, threads), ls), Thread(t, true)), more, t, e, true)
  {
    hide Run, Init, Inv, Returns, StaysOn;
    var s := Run(Init(max, threads), ls);
    var s1 := Step(s, Thread(t, true));
    InvAlways(max, threads, ls);
    assert e < s.g.q.next by { WaiterHasElem(s, t); AllocatedIsOld(s, e); }
    InvStep(s, Thread(t, true));
    assert OnTheWay(s1, t, e, true, 2);
    WayOut(s1, more, t, e, true, 2);
  }
}
