/**
What the module promises about throttling, for every run of any number of threads with the
timer and the controller.
 */
module ProtocolTheorems {
  import opened Lists
  import opened QueueModel
  import opened Protocol
  import opened Memory
  import opened ProtocolInvariant

  // ---------------------------------------------------------------------------------------
  // Quota

  /**
  In every epoch the admissions by token, the tokens left and the waiters granted at its
  start add up to the maximum. Over the whole run, calls admitted by token or grant never
  exceed the maximum times the number of ticks begun.
  */
  lemma QuotaHolds(max: nat, threads: nat, ls: seq<Label>)
    ensures var s := Run(Init(max, threads), ls);
      && (s.quota.refills > 0 ==>
          s.quota.byTokenInEpoch + Max(s.g.tokens, 0) + s.quota.lastGrants == max)
      && s.quota.byToken + |s.grants.tickets| <= max * s.quota.begun
      && s.calls.done.byToken + s.calls.done.granted <= max * s.quota.begun
  {
    var s := Run(Init(max, threads), ls);
    InvAlways(max, threads, ls);
    MaxIsConstant(max, threads, ls);
    hide Run, Init, Inv;
    InvMeansQuota(s);
  }

  lemma InvMeansQuota(s: State)
    requires Inv(s)
    ensures s.quota.refills > 0 ==>
      s.quota.byTokenInEpoch + Max(s.g.tokens, 0) + s.quota.lastGrants == s.g.max
    ensures s.quota.byToken + |s.grants.tickets| <= s.g.max * s.quota.begun
    ensures s.calls.done.byToken + s.calls.done.granted <= s.quota.byToken + |s.grants.tickets|
  {
    hide Ownership, Phase, NobodyWaits, FlagsFromGrants, Swept, Count;
    AdmittedAreFewerThanGrants(s);
    BudgetGrows(s.g.max, s.quota.refills);
  }

  lemma {:induction false} MaxIsConstant(max: nat, threads: nat, ls: seq<Label>)
    ensures Run(Init(max, threads), ls).g.max == max
    ensures |Run(Init(max, threads), ls).threads| == threads
  {
    hide Run;
    RunLast(Init(max, threads), ls);
    if ls != [] {
      var s := Run(Init(max, threads), ls[..|ls| - 1]);
      MaxIsConstant(max, threads, ls[..|ls| - 1]);
      hide StubStep, TimerStep, ControllerStep;
      var l := ls[|ls| - 1];
      TimerKeepsWorking(s.g);
      ControllerWorking(s.g);
      if l.Thread? && l.t < |s.threads| {
        StubFrame(s.g, s.threads[l.t], l.b);
      }
    }
  }

  lemma SubsetSize(a: set<nat>, b: set<nat>)
    requires a <= b
    ensures |a| <= |b|
  {
    assert b == a + (b - a);
  }

  lemma AdmittedAreFewerThanGrants(s: State)
    requires Inv(s)
    ensures |s.grants.admitted| <= |s.grants.tickets|
  {
    SizeOfNoDup(s.grants.admitted);
    SubsetSize(ToSet(s.grants.admitted), s.grants.granted);
  }

  /**
  A blocked call that returns 0 with the monitor still on was granted by `unqueue`, not by
  the wake-up of turn-off; distinct calls use distinct grants; so blocked calls ever
  recorded number at most the maximum times the ticks.
  */
  lemma BlockedCallsUseDistinctGrants(max: nat, threads: nat, ls: seq<Label>)
    ensures var s := Run(Init(max, threads), ls);
      && (forall t :: 0 <= t < |s.threads| && s.threads[t].Marking? && !s.threads[t].interrupted ==>
          s.threads[t].e in s.grants.granted)
      && NoDup(s.grants.admitted)
      && (forall e :: e in s.grants.admitted ==> e in s.grants.granted)
      && |s.grants.granted| == |s.grants.tickets|
      && s.calls.blockedReports <= |s.grants.admitted| <= max * s.quota.begun
  {
    var s := Run(Init(max, threads), ls);
    InvAlways(max, threads, ls);
    MaxIsConstant(max, threads, ls);
    QuotaHolds(max, threads, ls);
    AdmittedAreFewerThanGrants(s);
    forall t | 0 <= t < |s.threads| && s.threads[t].Marking? && !s.threads[t].interrupted
      ensures s.threads[t].e in s.grants.granted
    {
      assert FromGrant(s.g.q, s.g.working, s.grants.granted, s.threads[t]);
    }
  }

  // ---------------------------------------------------------------------------------------
  // Memory safety

  /**
  In every reachable state no access has ever gone to a freed element, no element is on
  both lists or twice on one, and whatever a thread may still read or mark is allocated,
  listed and its own.
  */
  lemma MemoryIsSafe(max: nat, threads: nat, ls: seq<Label>)
    ensures var s := Run(Init(max, threads), ls);
      && !s.g.q.fault
      && NoDup(s.g.q.waiting + s.g.q.junk)
      && (forall t :: 0 <= t < |s.threads| && Waits(s.threads[t]) ==>
          s.threads[t].e in s.g.q.heap && Listed(s.g.q, s.threads[t].e) && !Exited(s.g.q, s.threads[t].e))
      && (forall t, u :: 0 <= t < u < |s.threads| && HasElem(s.threads[t]) && HasElem(s.threads[u]) ==>
          s.threads[t].e != s.threads[u].e)
  {
    var s := Run(Init(max, threads), ls);
    InvAlways(max, threads, ls);
    MaxIsConstant(max, threads, ls);
    hide Run, Init, Inv;
    InvMeansOwnership(s);
    NoDupConcat(s.g.q.waiting, s.g.q.junk);
    forall t | 0 <= t < |s.threads| && HasElem(s.threads[t]) ensures HeldBy(MemOf(s), t, s.threads[t].e) {
      HolderIsKnown(MemOf(s), t);
    }
  }

  lemma InvMeansOwnership(s: State)
    requires Inv(s)
    ensures Ownership(MemOf(s)) && SafeLists(s.g.q)
  {
  }

  /** Once freed, an element is gone for good: it is not freed or handed out again. */
  lemma {:induction false} FreedForever(s: State, ls: seq<Label>, e: nat)
    requires e < s.g.q.next && e !in s.g.q.heap
    ensures e !in Run(s, ls).g.q.heap && e < Run(s, ls).g.q.next
  {
    hide Run;
    RunLast(s, ls);
    if ls != [] {
      var s1, l := Run(s, ls[..|ls| - 1]), ls[|ls| - 1];
      FreedForever(s, ls[..|ls| - 1], e);
      hide StubStep, TimerStep, ControllerStep;
      TimerMonotone(s1.g);
      ControllerMonotone(s1.g);
      if l.Thread? && l.t < |s1.threads| {
        StubMonotone(s1.g, s1.threads[l.t], l.b);
      }
    }
  }

  /** `current_in_queue` is the length of the queue whenever the queue lock is free. */
  lemma InQueueIsLength(max: nat, threads: nat, ls: seq<Label>)
    requires !QueueLocked(Run(Init(max, threads), ls).g)
    ensures var q := Run(Init(max, threads), ls).g.q; q.inQueue == |q.waiting|
  {
    InvAlways(max, threads, ls);
  }

  // ---------------------------------------------------------------------------------------
  // Order and bounded waiting

  /**
  The queue is always a contiguous run of tickets ending at the newest, grants follow the
  tickets strictly, and nobody is granted while an earlier waiter is still queued.
  */
  lemma StrictFifo(max: nat, threads: nat, ls: seq<Label>)
    ensures var s := Run(Init(max, threads), ls);
      var enqueued, waiting, tickets := s.elems.enqueued, s.g.q.waiting, s.grants.tickets;
      && |waiting| <= |enqueued| && waiting == enqueued[|enqueued| - |waiting|..]
      && (forall i, j :: 0 <= i < j < |tickets| ==> tickets[i] < tickets[j])
      && (forall i, earlier :: 0 <= i < |tickets| && 0 <= earlier <= tickets[i] ==>
          tickets[i] < |enqueued| && enqueued[earlier] !in waiting)
  {
    var s := Run(Init(max, threads), ls);
    InvAlways(max, threads, ls);
    hide Run, Init;
    var enqueued, waiting, tickets := s.elems.enqueued, s.g.q.waiting, s.grants.tickets;
    assert Fifo(MemOf(s)) && InOrder(s);
    forall i, earlier | 0 <= i < |tickets| && 0 <= earlier <= tickets[i]
      ensures tickets[i] < |enqueued| && enqueued[earlier] !in waiting
    {
      assert tickets[i] < |enqueued| - |waiting|;
      assert forall k :: 0 <= k < |waiting| ==> waiting[k] == enqueued[|enqueued| - |waiting| + k];
    }
  }

  /** How many elements have ever left the queue */
  function Removed(s: State): int { |s.elems.enqueued| - |s.g.q.waiting| }

  /** Grants that the passes begun so far have had time to make */
  function Offered(s: State): int {
    Budget(s.g.max, s.quota.begun) - if s.g.tick.Unqueueing? then s.g.tick.missing else 0
  }

  /** Passes of `unqueue` that are complete */
  function Passes(s: State): int { s.quota.begun - Bit(s.g.tick.Unqueueing?) }

  /** As long as ticket `ticket` is not reached, every offered grant removes a waiter. */
  lemma PassProgress(s: State, l: Label, ticket: int)
    requires Inv(s)
    ensures Removed(Step(s, l)) >= Removed(s)
    ensures Removed(Step(s, l)) <= ticket < |s.elems.enqueued| ==>
      Offered(Step(s, l)) - Removed(Step(s, l)) <= Offered(s) - Removed(s)
  {
    hide StubStep, LogCalls, LogGrants, Ownership, Conserved, NobodyWaits, InOrder, FlagsFromGrants, Admissions, Swept, Budget;
    match l
    case Thread(t, b) =>
      if t < |s.threads| { StubFrame(s.g, s.threads[t], b); }
    case Timer => TimerPassProgress(s, ticket);
    case Controller =>
  }

  lemma TimerPassProgress(s: State, ticket: int)
    requires Inv(s)
    ensures Removed(Step(s, Timer)) >= Removed(s)
    ensures Removed(Step(s, Timer)) <= ticket < |s.elems.enqueued| ==>
      Offered(Step(s, Timer)) - Removed(Step(s, Timer)) <= Offered(s) - Removed(s)
  {
    hide StubStep, ControllerStep, LogCalls, LogGrants, Ownership, Conserved, NobodyWaits, InOrder, FlagsFromGrants;
    hide Admissions, Swept, Budget, UnqueueBody, FreeJunkBody, Exited;
    BudgetGrows(s.g.max, s.quota.begun);
    TimerWaiting(s.g);
    if s.g.tick.Unqueueing? && UnqueueMore(s.g.q, s.g.tick.missing) {
      UnqueueBodyCounts(s.g.q, s.g.tick.missing);
    }
  }

  lemma {:induction false} RunProgress(s: State, ls: seq<Label>, ticket: int)
    requires Inv(s) && ticket < |s.elems.enqueued|
    ensures Inv(Run(s, ls)) && |s.elems.enqueued| <= |Run(s, ls).elems.enqueued|
    ensures s.elems.enqueued <= Run(s, ls).elems.enqueued && Run(s, ls).g.max == s.g.max
    ensures Removed(s) <= Removed(Run(s, ls))
    ensures Removed(Run(s, ls)) <= ticket ==>
      Offered(Run(s, ls)) - Removed(Run(s, ls)) <= Offered(s) - Removed(s)
  {
    hide Run;
    RunLast(s, ls);
    if ls != [] {
      var s1, l := Run(s, ls[..|ls| - 1]), ls[|ls| - 1];
      RunProgress(s, ls[..|ls| - 1], ticket);
      InvStep(s1, l);
      PassProgress(s1, l, ticket);
      hide StubStep, TimerStep, ControllerStep, Inv, Offered, Removed, LogCalls;
      StepKeepsLog(s1, l);
    }
  }

  lemma StepKeepsLog(s: State, l: Label)
    ensures s.elems.enqueued <= Step(s, l).elems.enqueued && Step(s, l).g.max == s.g.max
  {
    hide StubStep, TimerStep, ControllerStep, LogCalls;
    TimerKeepsWorking(s.g);
    ControllerWorking(s.g);
    if l.Thread? && l.t < |s.threads| {
      StubFrame(s.g, s.threads[l.t], l.b);
    }
  }

  /** `e` is in `w`, at index `bound` or before. */
  ghost predicate AtMostAt(w: seq<nat>, e: nat, bound: int) {
    exists i :: 0 <= i < |w| && i <= bound && w[i] == e
  }

  /**
  Bounded waiting. From any reachable state `s`, let the waiter at index `p` of the queue
  still be queued after any further run, in which `k` passes of `unqueue` began and ended:
  then its index has dropped by at least `k` times the maximum, whatever arrived or aborted
  meanwhile. So with a positive maximum it is out after p / max + 1 passes.
  */
  lemma BoundedWaiting(max: nat, threads: nat, ls: seq<Label>, ls': seq<Label>, p: nat)
    requires p < |Run(Init(max, threads), ls).g.q.waiting|
    ensures var s := Run(Init(max, threads), ls);
      var s' := Run(s, ls');
      var k := Passes(s') - s.quota.begun;
      && (s.g.q.waiting[p] in s'.g.q.waiting ==> AtMostAt(s'.g.q.waiting, s.g.q.waiting[p], p - max * k))
      && (max > 0 && k >= p / max + 1 ==> s.g.q.waiting[p] !in s'.g.q.waiting)
  {
    var s := Run(Init(max, threads), ls);
    InvAlways(max, threads, ls);
    MaxIsConstant(max, threads, ls);
    hide Run, Init, Inv;
    BoundedWaitingFrom(s, ls', p);
  }

  lemma BoundedWaitingFrom(s: State, ls: seq<Label>, p: nat)
    requires Inv(s) && p < |s.g.q.waiting|
    ensures var s' := Run(s, ls);
      var k := Passes(s') - s.quota.begun;
      && (s.g.q.waiting[p] in s'.g.q.waiting ==> AtMostAt(s'.g.q.waiting, s.g.q.waiting[p], p - s.g.max * k))
      && (s.g.max > 0 && k >= p / s.g.max + 1 ==> s.g.q.waiting[p] !in s'.g.q.waiting)
  {
    hide Run, Inv, Quota, Offered;
    var s' := Run(s, ls);
    InvMeansFifo(s);
    RunProgress(s, ls, Removed(s) + p);
    InvMeansFifo(s');
    var k := Passes(s') - s.quota.begun;
    if s.g.q.waiting[p] in s'.g.q.waiting {
      var i := IndexFromTicket(MemOf(s), MemOf(s'), p);
      OfferedInPasses(s, s');
      assert i <= p - s.g.max * k;
    }
    if s.g.max > 0 && k >= p / s.g.max + 1 {
      DivisionBound(p, s.g.max, k);
    }
  }

  lemma DivisionBound(p: nat, max: nat, k: int)
    requires max > 0 && k >= p / max + 1
    ensures max * k > p
  {
    assert max * k >= max * (p / max + 1);
  }

  lemma InvMeansFifo(s: State)
    requires Inv(s)
    ensures Fifo(MemOf(s)) && Quota(s.g, s.quota)
  {
  }

  /** An element keeps its ticket, so its index moves with the number of removals. */
  lemma IndexFromTicket(m: Mem, m': Mem, p: nat) returns (i: nat)
    requires Fifo(m) && Fifo(m') && m.enqueued <= m'.enqueued
    requires p < |m.q.waiting| && m.q.waiting[p] in m'.q.waiting
    ensures i < |m'.q.waiting| && m'.q.waiting[i] == m.q.waiting[p]
    ensures |m'.enqueued| - |m'.q.waiting| + i == |m.enqueued| - |m.q.waiting| + p
  {
    i :| 0 <= i < |m'.q.waiting| && m'.q.waiting[i] == m.q.waiting[p];
    var ticket := |m.enqueued| - |m.q.waiting| + p;
    assert m'.enqueued[|m'.enqueued| - |m'.q.waiting| + i] == m.enqueued[ticket] == m'.enqueued[ticket];
  }

  lemma OfferedInPasses(s: State, s': State)
    requires Quota(s.g, s.quota) && Quota(s'.g, s'.quota) && s'.g.max == s.g.max
    ensures Offered(s') - Offered(s) >= s.g.max * (Passes(s') - s.quota.begun)
  {
    var max := s.g.max;
    BudgetDifference(max, s.quota.begun, s'.quota.begun);
    if s'.g.tick.Unqueueing? {
      BudgetDifference(max, s.quota.begun, s'.quota.begun - 1);
      BudgetGrows(max, s'.quota.begun - 1);
    }
  }

  lemma BudgetDifference(max: nat, a: nat, b: nat)
    ensures Budget(max, b) - Budget(max, a) == max * (b - a)
  {
  }
}
