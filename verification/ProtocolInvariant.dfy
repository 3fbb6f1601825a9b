/**
The inductive invariants of the protocol, one predicate per concern, and their
preservation by every step of every actor.
 */
module ProtocolInvariant {
  import opened Lists
  import opened QueueModel
  import opened Protocol
  import opened Memory

  // ---------------------------------------------------------------------------------------
  // Element life cycle

  function MemOf(s: State): Mem {
    Mem(s.g.q, s.elems.enqueued, s.elems.owner, s.elems.leftOff, s.threads)
  }

  /** The memory action that a step performs */
  function ActionOf(s: State, l: Label): Action {
    match l
    case Thread(t, b) => if t < |s.threads| then ThreadAction(s.g, t, s.threads[t], b) else Stay
    case Timer =>
      (match s.g.tick
       case Unqueueing(missing) =>
         if UnqueueMore(s.g.q, missing) then Unlist(missing)
         else Look(s.g.q.inQueue - (s.g.max - missing))
       case Reclaiming(i) => if i < |s.g.q.junk| then FreeAt(i) else Stay
       case _ => Stay)
    case Controller =>
      match s.g.control
      case Waking(i) => if i < |s.g.q.waiting| then FlagAt(i) else SpliceAll
      case Destroying(i) => if i < |s.g.q.junk| then FreeAt(i) else Stay
      case _ => Stay
  }

  function ThreadAction(g: Shared, t: nat, pc: Pc, b: bool): Action {
    var pc' := StubStep(g, pc, b).1;
    match pc
    case NoToken => if b then AllocBy(t) else Move(t, pc')
    case Allocated(_) => if !QueueLocked(g) && g.working then EnqueueBy(t) else Move(t, pc')
    case Discarding(_) => DiscardBy(t, pc')
    case ReadFlag(_) => Read(t, pc')
    case Retest(_, _) => if g.working then Move(t, pc') else AbandonBy(t, pc')
    case Marking(_, _) => MarkBy(t, pc')
    case _ => Move(t, pc')
  }

  /** Protocol steps project onto memory actions. */
  lemma StepProjects(s: State, l: Label)
    ensures Enabled(MemOf(s), ActionOf(s, l))
    ensures MemOf(Step(s, l)) == Act(MemOf(s), ActionOf(s, l))
  {
    hide LogGrants, LogQuota, LogCalls, StubStep, TimerStep, ControllerStep;
    match l
    case Thread(t, b) => if t < |s.threads| { ThreadProjects(s, t, b); }
    case Timer => TimerProjects(s);
    case Controller => ControllerProjects(s);
  }

  lemma TimerProjects(s: State)
    ensures Enabled(MemOf(s), ActionOf(s, Timer))
    ensures Act(MemOf(s), ActionOf(s, Timer)) == MemOf(s).(q := TimerStep(s.g).q)
  {
    hide StubStep, UnqueueBody, FreeJunkBody, UnqueueMore, Use;
  }

  lemma ControllerProjects(s: State)
    ensures Enabled(MemOf(s), ActionOf(s, Controller))
    ensures Act(MemOf(s), ActionOf(s, Controller)) == MemOf(s).(q := ControllerStep(s.g).q)
  {
    hide StubStep, FreeJunkBody, SetFlag, Splice;
  }

  lemma ThreadProjects(s: State, t: nat, b: bool)
    requires t < |s.threads|
    ensures var a := ThreadAction(s.g, t, s.threads[t], b);
      && Enabled(MemOf(s), a)
      && Act(MemOf(s), a) ==
           var e := LogElems(s, Thread(t, b));
           var (g, pc) := StubStep(s.g, s.threads[t], b);
           Mem(g.q, e.enqueued, e.owner, e.leftOff, s.threads[t := pc])
  {
  }

  // ---------------------------------------------------------------------------------------
  // Counting threads

  function Bit(b: bool): nat { if b then 1 else 0 }

  function Count(ts: seq<Pc>, p: Pc -> bool): nat {
    if ts == [] then 0 else Bit(p(ts[0])) + Count(ts[1..], p)
  }

  lemma {:induction false} CountUpdate(ts: seq<Pc>, t: nat, pc: Pc, p: Pc -> bool)
    requires t < |ts|
    ensures Count(ts[t := pc], p) == Count(ts, p) - Bit(p(ts[t])) + Bit(p(pc))
  {
    if t == 0 {
      assert ts[t := pc][1..] == ts[1..];
    } else {
      assert ts[t := pc][1..] == ts[1..][t - 1 := pc];
      CountUpdate(ts[1..], t - 1, pc, p);
    }
  }

  lemma {:induction false} CountZero(ts: seq<Pc>, p: Pc -> bool)
    ensures Count(ts, p) == 0 <==> forall t :: 0 <= t < |ts| ==> !p(ts[t])
  {
    if ts != [] {
      CountZero(ts[1..], p);
      assert forall t :: 0 < t < |ts| ==> ts[t] == ts[1..][t - 1];
    }
  }

  /** Between its increment and its decrement of threads_in_module */
  predicate Inside(pc: Pc) { !pc.Outside? && !pc.Tested? }

  predicate TokenLeaving(pc: Pc) { pc == Leaving(ByToken) }
  predicate GrantLeaving(pc: Pc) { pc == Leaving(Granted) }
  predicate AbortLeaving(pc: Pc) { pc == Leaving(Aborted) }
  predicate GrantReporting(pc: Pc) { pc == Reporting(Granted) }

  predicate Reportable(o: Outcome) { o == Granted || o == Aborted }

  /** Counters, outcomes and reports agree with the threads that are under way. */
  ghost predicate Conserved(s: State) {
    && s.g.inModule == Count(s.threads, Inside)
    && s.calls.entered == s.calls.done.Total() + Count(s.threads, Inside)
    && s.quota.byToken == s.calls.done.byToken + Count(s.threads, TokenLeaving)
    && s.calls.blockedReports == s.calls.done.granted + Count(s.threads, GrantLeaving)
    && s.calls.abortReports == s.calls.done.aborted + Count(s.threads, AbortLeaving)
    && |s.grants.admitted| == s.calls.blockedReports + Count(s.threads, GrantReporting)
    && (forall t :: 0 <= t < |s.threads| && s.threads[t].Reporting? ==> Reportable(s.threads[t].o))
  }

  /** What one step of `stub` does to the counters, and where the thread goes, cancel out. */
  lemma StubBalance(g: Shared, pc: Pc, b: bool, calls: CallLog)
    requires pc.Reporting? ==> Reportable(pc.o)
    ensures var (g', pc') := StubStep(g, pc, b);
      var calls' := LogCalls(calls, pc);
      var (done, done') := (calls.done, calls'.done);
      && g'.inModule - g.inModule == Bit(Inside(pc')) - Bit(Inside(pc))
      && calls'.entered - calls.entered == done'.Total() - done.Total() + Bit(Inside(pc')) - Bit(Inside(pc))
      && Bit(pc.Registered? && g.tokens - 1 >= 0) ==
           done'.byToken - done.byToken + Bit(TokenLeaving(pc')) - Bit(TokenLeaving(pc))
      && calls'.abortReports - calls.abortReports ==
           done'.aborted - done.aborted + Bit(AbortLeaving(pc')) - Bit(AbortLeaving(pc))
      && (pc'.Reporting? ==> Reportable(pc'.o))
      && calls'.blockedReports - calls.blockedReports ==
           done'.granted - done.granted + Bit(GrantLeaving(pc')) - Bit(GrantLeaving(pc))
      && Bit(pc.Marking? && !pc.interrupted) ==
           calls'.blockedReports - calls.blockedReports + Bit(GrantReporting(pc')) - Bit(GrantReporting(pc))
  {
    hide StubStep, LogCalls, Inside, TokenLeaving, GrantLeaving, AbortLeaving, GrantReporting;
    StubCounts(g, pc, b, calls);
    StubReports(g, pc, b, calls);
  }

  lemma StubCounts(g: Shared, pc: Pc, b: bool, calls: CallLog)
    requires pc.Reporting? ==> Reportable(pc.o)
    ensures var (g', pc') := StubStep(g, pc, b);
      var (done, done') := (calls.done, LogCalls(calls, pc).done);
      && g'.inModule - g.inModule == Bit(Inside(pc')) - Bit(Inside(pc))
      && LogCalls(calls, pc).entered - calls.entered
           == done'.Total() - done.Total() + Bit(Inside(pc')) - Bit(Inside(pc))
      && Bit(pc.Registered? && g.tokens - 1 >= 0) ==
           done'.byToken - done.byToken + Bit(TokenLeaving(pc')) - Bit(TokenLeaving(pc))
  {
    hide Alloc, Enqueue, Free, Use, SetExited, Flagged, QueueLocked;
  }

  lemma StubReports(g: Shared, pc: Pc, b: bool, calls: CallLog)
    requires pc.Reporting? ==> Reportable(pc.o)
    ensures var pc' := StubStep(g, pc, b).1;
      var calls' := LogCalls(calls, pc);
      var (done, done') := (calls.done, calls'.done);
      && calls'.abortReports - calls.abortReports ==
           done'.aborted - done.aborted + Bit(AbortLeaving(pc')) - Bit(AbortLeaving(pc))
      && (pc'.Reporting? ==> Reportable(pc'.o))
      && calls'.blockedReports - calls.blockedReports ==
           done'.granted - done.granted + Bit(GrantLeaving(pc')) - Bit(GrantLeaving(pc))
      && Bit(pc.Marking? && !pc.interrupted) ==
           calls'.blockedReports - calls.blockedReports + Bit(GrantReporting(pc')) - Bit(GrantReporting(pc))
  {
    hide Alloc, Enqueue, Free, Use, UseCache, SetExited, Flagged, QueueLocked;
  }

  lemma ConservedThread(s: State, t: nat, b: bool)
    requires Conserved(s) && t < |s.threads|
    ensures Conserved(Step(s, Thread(t, b)))
  {
    hide Count, StubStep, LogCalls, LogElems, Inside, TokenLeaving, GrantLeaving, AbortLeaving, GrantReporting;
    StubBalance(s.g, s.threads[t], b, s.calls);
    var pc := StubStep(s.g, s.threads[t], b).1;
    CountUpdate(s.threads, t, pc, Inside);
    CountUpdate(s.threads, t, pc, TokenLeaving);
    CountUpdate(s.threads, t, pc, GrantLeaving);
    CountUpdate(s.threads, t, pc, AbortLeaving);
    CountUpdate(s.threads, t, pc, GrantReporting);
  }

  lemma OthersFrame(g: Shared)
    ensures TimerStep(g).inModule == g.inModule && ControllerStep(g).inModule == g.inModule
  {
    hide UnqueueBody, UnqueueMore, UnqueueEnd, FreeJunkBody, SetFlag, Splice;
  }

  lemma ConservedStep(s: State, l: Label)
    requires Conserved(s)
    ensures Conserved(Step(s, l))
  {
    hide Count, StubStep, TimerStep, ControllerStep, LogElems;
    if l.Thread? && l.t < |s.threads| {
      ConservedThread(s, l.t, l.b);
    }
    OthersFrame(s.g);
  }

  // ---------------------------------------------------------------------------------------
  // Quota

  /** Waiters granted by a tick that has not yet refilled the tokens */
  function InFlight(g: Shared): int {
    match g.tick
    case Unqueueing(missing) => g.max - missing
    case Accounting(granted) => granted
    case Advancing(granted) => granted
    case Refilling(granted) => granted
    case _ => 0
  }

  function Budget(max: nat, ticks: nat): int { max * ticks }

  lemma BudgetGrows(max: nat, ticks: nat)
    ensures Budget(max, ticks + 1) == Budget(max, ticks) + max
  {
  }

  predicate BeforeRefill(t: Tick) { t.Unqueueing? || t.Accounting? || t.Advancing? || t.Refilling? }

  /** Tokens, admissions and grants of every epoch add up to the configured maximum. */
  ghost predicate Quota(g: Shared, u: QuotaLog) {
    && 0 <= InFlight(g) <= g.max
    && u.grants == u.settled + InFlight(g)
    && u.begun == u.refills + Bit(BeforeRefill(g.tick))
    && u.byToken + Max(g.tokens, 0) + u.settled <= Budget(g.max, u.refills)
    && (if u.refills == 0 then u.byTokenInEpoch == 0 && g.tokens <= 0
        else u.byTokenInEpoch + Max(g.tokens, 0) + u.lastGrants == g.max)
    && g.q.inQueue == |g.q.waiting| + (if g.tick.Unqueueing? then InFlight(g) else 0)
  }

  /** What a step of `stub` can touch besides the thread itself */
  lemma StubFrame(g: Shared, pc: Pc, b: bool)
    ensures var g' := StubStep(g, pc, b).0;
      && g' == g.(tokens := g'.tokens, inModule := g'.inModule, q := g'.q, cacheFault := g'.cacheFault)
      && g'.tokens == g.tokens - Bit(pc.Registered?)
      && g'.q.inQueue - |g'.q.waiting| == g.q.inQueue - |g.q.waiting|
      && g'.q.junk == g.q.junk
      && g'.q.waiting ==
           if pc.Allocated? && !QueueLocked(g) && g.working then g.q.waiting + [pc.e] else g.q.waiting
  {
  }

  lemma QuotaThread(s: State, t: nat, b: bool)
    requires Quota(s.g, s.quota) && t < |s.threads|
    ensures Quota(Step(s, Thread(t, b)).g, Step(s, Thread(t, b)).quota)
  {
    hide StubStep, LogElems, LogCalls, LogGrants, Budget;
    StubFrame(s.g, s.threads[t], b);
  }

  lemma QuotaUnqueueing(s: State)
    requires Quota(s.g, s.quota) && s.g.tick.Unqueueing?
    ensures Quota(Step(s, Timer).g, Step(s, Timer).quota)
  {
    hide StubStep, LogElems, LogCalls, LogGrants, Budget, Exited, UnqueueBody;
    if UnqueueMore(s.g.q, s.g.tick.missing) {
      UnqueueBodyCounts(s.g.q, s.g.tick.missing);
    }
  }

  lemma UnqueueBodyCounts(q: Queue, missing: int)
    requires UnqueueMore(q, missing)
    ensures var (q', missing') := UnqueueBody(q, missing);
      var granted := Bit(!Exited(q, q.waiting[0]));
      && missing' == missing - granted && (missing >= 0 ==> missing' >= 0)
      && q'.waiting == q.waiting[1..]
      && q'.inQueue == q.inQueue - (1 - granted)
  {
  }

  lemma JunkKeepsQueue(g: Shared)
    ensures g.tick.Reclaiming? && g.tick.i < |g.q.junk| ==>
      var q' := FreeJunkBody(g.q, g.tick.i).0;
      q'.waiting == g.q.waiting && q'.inQueue == g.q.inQueue
  {
  }

  lemma QuotaTimer(s: State)
    requires Quota(s.g, s.quota)
    ensures Quota(Step(s, Timer).g, Step(s, Timer).quota)
  {
    hide StubStep, LogElems, LogCalls, LogGrants, Budget, UnqueueBody, UnqueueMore, UnqueueEnd, ControllerStep;
    hide FreeJunkBody;
    JunkKeepsQueue(s.g);
    BudgetGrows(s.g.max, s.quota.refills);
    if s.g.tick.Unqueueing? {
      QuotaUnqueueing(s);
    }
  }

  lemma QuotaController(s: State)
    requires Quota(s.g, s.quota) && Phase(s.g)
    ensures Quota(Step(s, Controller).g, Step(s, Controller).quota)
  {
    hide StubStep, LogElems, LogCalls, LogGrants, Budget;
  }

  // ---------------------------------------------------------------------------------------
  // Phases of turning on and off

  /** No thread is left that was inside when the drain read zero. */
  predicate Drained(c: Control) { c.Destroying? || c.Destroyed? || c.Off? || c.Arming? || c.Starting? }

  ghost predicate Phase(g: Shared) {
    && (g.working <==> g.control.On?)
    && (g.cacheLive <==> !g.control.Off?)
    && (g.control.Waking? || g.control.Draining? || (Drained(g.control) && !g.control.Starting?) ==>
        g.tick.Idle? && !g.pending)
    && (g.control.Draining? || Drained(g.control) ==> g.q.waiting == [])
    && (g.control.Waking? ==> g.control.i <= |g.q.waiting|)
  }

  lemma PhaseStep(s: State, l: Label)
    requires Phase(s.g)
    ensures Phase(Step(s, l).g)
  {
    hide StubStep, LogElems, LogCalls, LogGrants, LogQuota;
    if l.Thread? && l.t < |s.threads| {
      StubFrame(s.g, s.threads[l.t], l.b);
    }
  }

  /** Once drained, nobody waits on an element until the monitor is on again. */
  ghost predicate NobodyWaits(s: State) {
    Drained(s.g.control) ==> forall t :: 0 <= t < |s.threads| ==> !Waits(s.threads[t])
  }

  lemma StubWaits(g: Shared, pc: Pc, b: bool)
    requires !g.working && !Waits(pc)
    ensures !Waits(StubStep(g, pc, b).1)
  {
  }

  lemma NobodyWaitsStep(s: State, l: Label)
    requires NobodyWaits(s) && Phase(s.g) && Conserved(s)
    ensures NobodyWaits(Step(s, l))
  {
    hide StubStep, LogElems, LogCalls, LogGrants, LogQuota, Count;
    CountZero(s.threads, Inside);
    if l.Thread? && l.t < |s.threads| {
      StubFrame(s.g, s.threads[l.t], l.b);
      if Drained(s.g.control) {
        StubWaits(s.g, s.threads[l.t], l.b);
      }
    }
  }

  // ---------------------------------------------------------------------------------------
  // Grants

  /** Grants follow the enqueue order, no element is granted twice, none is still waiting. */
  ghost predicate Ordered(tickets: seq<int>, granted: set<nat>, enqueued: seq<nat>, waiting: seq<nat>) {
    && (forall i, j :: 0 <= i < j < |tickets| ==> tickets[i] < tickets[j])
    && (forall i :: 0 <= i < |tickets| ==>
        0 <= tickets[i] < |enqueued| - |waiting| && enqueued[tickets[i]] in granted)
    && |granted| == |tickets|
    && (forall e :: e in granted ==> e in enqueued && e !in waiting)
  }

  ghost predicate InOrder(s: State) {
    && Ordered(s.grants.tickets, s.grants.granted, s.elems.enqueued, s.g.q.waiting)
    && |s.grants.tickets| == s.quota.grants
  }

  lemma RemovalKeepsOrder(
      tickets: seq<int>, granted: set<nat>, enqueued: seq<nat>, waiting: seq<nat>, waiting': seq<nat>)
    requires Ordered(tickets, granted, enqueued, waiting)
    requires |waiting'| <= |waiting| && forall e :: e in waiting' ==> e in waiting
    ensures Ordered(tickets, granted, enqueued, waiting')
  {
  }

  lemma EnqueueKeepsOrder(
      tickets: seq<int>, granted: set<nat>, enqueued: seq<nat>, waiting: seq<nat>, e: nat)
    requires Ordered(tickets, granted, enqueued, waiting) && e !in enqueued
    ensures Ordered(tickets, granted, enqueued + [e], waiting + [e])
  {
  }

  lemma GrantKeepsOrder(tickets: seq<int>, granted: set<nat>, enqueued: seq<nat>, waiting: seq<nat>)
    requires Ordered(tickets, granted, enqueued, waiting)
    requires waiting != [] && NoDup(waiting)
    requires |waiting| <= |enqueued| && waiting == enqueued[|enqueued| - |waiting|..]
    ensures Ordered(
      tickets + [|enqueued| - |waiting|], granted + {waiting[0]}, enqueued, waiting[1..])
  {
    var e := waiting[0];
    assert e in waiting && e == enqueued[|enqueued| - |waiting|];
    assert forall x :: x in waiting[1..] ==> x in waiting && x != e;
  }

  lemma InOrderThread(s: State, t: nat, b: bool)
    requires InOrder(s) && Ownership(MemOf(s)) && t < |s.threads|
    ensures InOrder(Step(s, Thread(t, b)))
  {
    hide StubStep, LogCalls, HeldOnce, Accounted, Ordered;
    StubFrame(s.g, s.threads[t], b);
    if s.threads[t].Allocated? {
      HolderIsKnown(MemOf(s), t);
      EnqueueKeepsOrder(
        s.grants.tickets, s.grants.granted, s.elems.enqueued, s.g.q.waiting, s.threads[t].e);
    }
  }

  /** The waiting list after a timer step */
  lemma TimerWaiting(g: Shared)
    ensures TimerStep(g).q.waiting ==
      if g.tick.Unqueueing? && UnqueueMore(g.q, g.tick.missing) then g.q.waiting[1..] else g.q.waiting
  {
    hide UnqueueBody, UnqueueMore, FreeJunkBody;
    if g.tick.Unqueueing? && UnqueueMore(g.q, g.tick.missing) {
      UnqueueBodyCounts(g.q, g.tick.missing);
    }
    JunkKeepsQueue(g);
  }

  lemma InOrderTimer(s: State)
    requires InOrder(s) && Ownership(MemOf(s))
    ensures InOrder(Step(s, Timer))
  {
    hide StubStep, TimerStep, LogCalls, HeldOnce, Accounted, Exited, Ordered;
    TimerWaiting(s.g);
    if Grants(s.g, Timer) {
      GrantKeepsOrder(s.grants.tickets, s.grants.granted, s.elems.enqueued, s.g.q.waiting);
    } else {
      RemovalKeepsOrder(s.grants.tickets, s.grants.granted, s.elems.enqueued,
                        s.g.q.waiting, TimerStep(s.g).q.waiting);
    }
  }

  lemma ControllerWaiting(g: Shared)
    ensures ControllerStep(g).q.waiting == g.q.waiting || ControllerStep(g).q.waiting == []
  {
    hide Exited;
  }

  lemma InOrderStep(s: State, l: Label)
    requires InOrder(s) && Ownership(MemOf(s))
    ensures InOrder(Step(s, l))
  {
    hide StubStep, TimerStep, ControllerStep, LogCalls, Ownership, Ordered;
    match l
    case Thread(t, b) => if t < |s.threads| { InOrderThread(s, t, b); }
    case Timer => InOrderTimer(s);
    case Controller =>
      ControllerWaiting(s.g);
      RemovalKeepsOrder(s.grants.tickets, s.grants.granted, s.elems.enqueued,
                        s.g.q.waiting, ControllerStep(s.g).q.waiting);
  }

  /** While the monitor is on, a flag, a result 0 and an admission each come from a grant. */
  predicate FromGrant(q: Queue, working: bool, granted: set<nat>, pc: Pc) {
    && (Private(pc) ==> !Flagged(q, pc.e))
    && (Waits(pc) && working && Flagged(q, pc.e) ==> pc.e in granted)
    && (pc.Retest? && !pc.interrupted && working ==> pc.e in granted)
    && (pc.Marking? && !pc.interrupted ==> pc.e in granted)
  }

  ghost predicate FlagsFromGrants(s: State) {
    forall t :: 0 <= t < |s.threads| ==> FromGrant(s.g.q, s.g.working, s.grants.granted, s.threads[t])
  }

  ghost predicate AdmittedOnce(q: Queue, granted: set<nat>, admitted: seq<nat>) {
    && NoDup(admitted)
    && (forall e :: e in admitted ==> e in granted && e < q.next && (e in q.heap ==> Exited(q, e)))
  }

  /** Steps of the protocol never unmark or revive an element, and flag only waiting ones. */
  ghost predicate Monotone(q: Queue, q': Queue) {
    && q.next <= q'.next
    && (forall e :: e in q'.heap && e < q.next ==> e in q.heap && (Exited(q, e) ==> Exited(q', e)))
    && (forall e :: Flagged(q', e) ==> Flagged(q, e) || e in q.waiting)
  }

  /** The queue functions that a thread calls flag nothing at all. */
  ghost predicate FlagsNothing(q: Queue, q': Queue) {
    Monotone(q, q') && forall e :: Flagged(q', e) ==> Flagged(q, e)
  }

  lemma ThreadOpsMonotone(q: Queue, e: nat)
    ensures FlagsNothing(q, Alloc(q)) && FlagsNothing(q, Enqueue(q, e)) && FlagsNothing(q, Free(q, e))
    ensures FlagsNothing(q, SetExited(q, e)) && FlagsNothing(q, Use(q, e)) && FlagsNothing(q, q)
  {
  }

  lemma StubMonotone(g: Shared, pc: Pc, b: bool)
    ensures FlagsNothing(g.q, StubStep(g, pc, b).0.q)
  {
    hide FlagsNothing, Alloc, Enqueue, Free, SetExited, Use;
    ThreadOpsMonotone(g.q, if HasElem(pc) then pc.e else 0);
  }

  lemma UnqueueBodyMonotone(q: Queue, missing: int)
    requires UnqueueMore(q, missing)
    ensures Monotone(q, UnqueueBody(q, missing).0)
    ensures forall e :: Flagged(UnqueueBody(q, missing).0, e) ==>
      Flagged(q, e) || (e == q.waiting[0] && !Exited(q, e))
  {
    assert q.waiting[0] in q.waiting;
  }

  lemma FreeJunkBodyMonotone(q: Queue, i: nat)
    requires i < |q.junk|
    ensures Monotone(q, FreeJunkBody(q, i).0)
    ensures forall e :: Flagged(FreeJunkBody(q, i).0, e) ==> Flagged(q, e)
  {
  }

  lemma SetFlagMonotone(q: Queue, i: nat)
    requires i < |q.waiting|
    ensures Monotone(q, SetFlag(q, q.waiting[i]))
  {
    assert q.waiting[i] in q.waiting;
  }

  /** A timer step flags at most the head of the queue, and only when it grants it. */
  lemma TimerMonotone(g: Shared)
    ensures Monotone(g.q, TimerStep(g).q)
    ensures forall e :: Flagged(TimerStep(g).q, e) ==>
      Flagged(g.q, e) || (Grants(g, Timer) && e == g.q.waiting[0])
  {
    hide UnqueueBody, UnqueueMore, FreeJunkBody;
    if g.tick.Unqueueing? && UnqueueMore(g.q, g.tick.missing) {
      UnqueueBodyMonotone(g.q, g.tick.missing);
    } else if g.tick.Reclaiming? && g.tick.i < |g.q.junk| {
      FreeJunkBodyMonotone(g.q, g.tick.i);
    } else {
      assert TimerStep(g).q.heap == g.q.heap && TimerStep(g).q.next == g.q.next;
    }
  }

  /** A controller step flags nothing while the monitor is on. */
  lemma ControllerMonotone(g: Shared)
    ensures Monotone(g.q, ControllerStep(g).q)
    ensures !g.control.Waking? ==> forall e :: Flagged(ControllerStep(g).q, e) ==> Flagged(g.q, e)
  {
    hide FreeJunkBody, SetFlag;
    if g.control.Waking? && g.control.i < |g.q.waiting| {
      SetFlagMonotone(g.q, g.control.i);
    } else if g.control.Destroying? && g.control.i < |g.q.junk| {
      FreeJunkBodyMonotone(g.q, g.control.i);
    } else {
      assert ControllerStep(g).q.heap == g.q.heap && ControllerStep(g).q.next == g.q.next;
    }
  }

  lemma AdmittedStaysOnce(q: Queue, q': Queue, granted: set<nat>, granted': set<nat>, admitted: seq<nat>)
    requires AdmittedOnce(q, granted, admitted) && Monotone(q, q') && granted <= granted'
    ensures AdmittedOnce(q', granted', admitted)
  {
  }

  lemma StubFromGrant(g: Shared, pc: Pc, b: bool, granted: set<nat>)
    requires FromGrant(g.q, g.working, granted, pc)
    ensures var (g', pc') := StubStep(g, pc, b); FromGrant(g'.q, g.working, granted, pc')
  {
  }

  /** New flags and new grants leave a thread's claim to a grant intact. */
  lemma FlagsKeepFromGrant(
      q: Queue, q': Queue, working: bool, working': bool, granted: set<nat>, granted': set<nat>, pc: Pc)
    requires FromGrant(q, working, granted, pc) && granted <= granted'
    requires forall e :: Flagged(q', e) ==> Flagged(q, e) || (e in q.waiting && (e in granted' || !working'))
    requires Private(pc) ==> pc.e !in q.waiting
    requires working' ==> working || !Waits(pc)
    ensures FromGrant(q', working', granted', pc)
  {
  }

  lemma FlagsThread(s: State, t: nat, b: bool)
    requires FlagsFromGrants(s) && t < |s.threads|
    ensures FlagsFromGrants(Step(s, Thread(t, b)))
  {
    hide StubStep, LogElems, LogCalls, LogQuota, FromGrant, Flagged;
    var (g', pc') := StubStep(s.g, s.threads[t], b);
    StubFrame(s.g, s.threads[t], b);
    StubMonotone(s.g, s.threads[t], b);
    StubFromGrant(s.g, s.threads[t], b, s.grants.granted);
    var s' := Step(s, Thread(t, b));
    forall u | 0 <= u < |s'.threads|
      ensures FromGrant(s'.g.q, s'.g.working, s'.grants.granted, s'.threads[u])
    {
      if u != t {
        OtherFromGrant(s.g.q, g'.q, s.g.working, s.grants.granted, s.threads[u]);
      }
    }
  }

  lemma OtherFromGrant(q: Queue, q': Queue, working: bool, granted: set<nat>, pc: Pc)
    requires FromGrant(q, working, granted, pc) && FlagsNothing(q, q')
    ensures FromGrant(q', working, granted, pc)
  {
  }

  lemma PrivateNotWaiting(m: Mem)
    requires Ownership(m)
    ensures forall t :: 0 <= t < |m.threads| && Private(m.threads[t]) ==> m.threads[t].e !in m.q.waiting
  {
    forall t | 0 <= t < |m.threads| && Private(m.threads[t]) ensures m.threads[t].e !in m.q.waiting {
      HolderIsKnown(m, t);
    }
  }

  lemma FlagsTimer(s: State)
    requires FlagsFromGrants(s) && Ownership(MemOf(s))
    ensures FlagsFromGrants(Step(s, Timer))
  {
    hide TimerStep, LogElems, LogCalls, LogQuota, FromGrant, Flagged, Ownership, UnqueueMore, Exited;
    var s' := Step(s, Timer);
    TimerMonotone(s.g);
    TimerKeepsWorking(s.g);
    PrivateNotWaiting(MemOf(s));
    forall u | 0 <= u < |s'.threads|
      ensures FromGrant(s'.g.q, s'.g.working, s'.grants.granted, s'.threads[u])
    {
      FlagsKeepFromGrant(s.g.q, s'.g.q, s.g.working, s'.g.working,
                         s.grants.granted, s'.grants.granted, s.threads[u]);
    }
  }

  lemma TimerKeepsWorking(g: Shared)
    ensures TimerStep(g).working == g.working && TimerStep(g).max == g.max
  {
    hide UnqueueBody, UnqueueMore, UnqueueEnd, FreeJunkBody;
  }

  lemma ControllerWorking(g: Shared)
    ensures ControllerStep(g).working ==> g.working || g.control.Starting?
    ensures g.control.Waking? ==> ControllerStep(g).working == g.working
    ensures ControllerStep(g).max == g.max
  {
    hide FreeJunkBody, SetFlag, Splice;
  }

  lemma FlagsController(s: State)
    requires FlagsFromGrants(s) && Ownership(MemOf(s)) && Phase(s.g) && NobodyWaits(s)
    ensures FlagsFromGrants(Step(s, Controller))
  {
    hide ControllerStep, LogElems, LogCalls, LogQuota, FromGrant, Flagged, Ownership;
    var s' := Step(s, Controller);
    ControllerMonotone(s.g);
    ControllerWorking(s.g);
    PrivateNotWaiting(MemOf(s));
    forall u | 0 <= u < |s'.threads|
      ensures FromGrant(s'.g.q, s'.g.working, s'.grants.granted, s'.threads[u])
    {
      FlagsKeepFromGrant(s.g.q, s'.g.q, s.g.working, s'.g.working,
                         s.grants.granted, s'.grants.granted, s.threads[u]);
    }
  }

  ghost predicate Admissions(s: State) {
    AdmittedOnce(s.g.q, s.grants.granted, s.grants.admitted)
  }

  lemma MarkAdmitsOnce(s: State, t: nat, b: bool)
    requires Admissions(s) && FlagsFromGrants(s) && Ownership(MemOf(s))
    requires t < |s.threads| && s.threads[t].Marking?
    ensures Admissions(Step(s, Thread(t, b)))
  {
    hide LogElems, LogCalls, LogQuota, SafeLists, Fifo, HeldOnce, Accounted;
    var e := s.threads[t].e;
    HolderIsKnown(MemOf(s), t);
    HeapBelowNext(MemOf(s));
    assert FromGrant(s.g.q, s.g.working, s.grants.granted, s.threads[t]);
    NoDupConcat(s.grants.admitted, [e]);
  }

  lemma HeapBelowNext(m: Mem)
    requires Ownership(m)
    ensures forall e :: e in m.q.heap ==> e < m.q.next
  {
  }

  lemma AdmissionsStep(s: State, l: Label)
    requires Admissions(s) && FlagsFromGrants(s) && Ownership(MemOf(s))
    ensures Admissions(Step(s, l))
  {
    hide StubStep, TimerStep, ControllerStep, LogElems, LogCalls, LogQuota, Ownership, FlagsFromGrants, AdmittedOnce;
    hide UnqueueMore, Exited;
    TimerMonotone(s.g);
    ControllerMonotone(s.g);
    if l.Thread? && l.t < |s.threads| {
      if s.threads[l.t].Marking? {
        MarkAdmitsOnce(s, l.t, l.b);
      } else {
        StubMonotone(s.g, s.threads[l.t], l.b);
        AdmittedStaysOnce(s.g.q, Step(s, l).g.q, s.grants.granted, s.grants.granted, s.grants.admitted);
      }
    } else if !l.Thread? {
      AdmittedStaysOnce(s.g.q, Step(s, l).g.q, s.grants.granted, Step(s, l).grants.granted, s.grants.admitted);
    }
  }

  // ---------------------------------------------------------------------------------------
  // What destroy_queue sweeps

  ghost predicate Swept(g: Shared) {
    && (g.control.Destroying? ==>
        g.control.i <= |g.q.junk| && forall k :: 0 <= k < g.control.i ==> !Exited(g.q, g.q.junk[k]))
    && (g.control.Destroyed? ==> forall k :: 0 <= k < |g.q.junk| ==> !Exited(g.q, g.q.junk[k]))
  }

  lemma StubMarksWaitersOnly(g: Shared, pc: Pc, b: bool)
    requires !Waits(pc)
    ensures forall e :: Exited(StubStep(g, pc, b).0.q, e) ==> Exited(g.q, e)
  {
  }

  lemma SweptStep(s: State, l: Label)
    requires Swept(s.g) && Phase(s.g) && NobodyWaits(s)
    ensures Swept(Step(s, l).g)
  {
    hide StubStep, LogElems, LogCalls, LogQuota, LogGrants, Exited;
    match l
    case Thread(t, b) =>
      if t < |s.threads| {
        StubFrame(s.g, s.threads[t], b);
        if Drained(s.g.control) {
          StubMarksWaitersOnly(s.g, s.threads[t], b);
        }
      }
    case Timer => TimerKeepsControl(s.g);
    case Controller => SweptController(s.g);
  }

  lemma TimerKeepsControl(g: Shared)
    ensures TimerStep(g).control == g.control
    ensures g.tick.Idle? && !g.pending ==> TimerStep(g) == g
  {
    hide UnqueueBody, UnqueueMore, UnqueueEnd, FreeJunkBody;
  }

  lemma SweptController(g: Shared)
    requires Swept(g)
    ensures Swept(ControllerStep(g))
  {
    hide SetFlag, Splice;
    if g.control.Destroying? && g.control.i < |g.q.junk| {
      FreeJunkBodyMonotone(g.q, g.control.i);
      assert forall k :: 0 <= k < g.control.i ==> FreeJunkBody(g.q, g.control.i).0.junk[k] == g.q.junk[k];
    }
  }

  // ---------------------------------------------------------------------------------------
  // Everything together

  ghost predicate Inv(s: State) {
    && Ownership(MemOf(s))
    && Conserved(s)
    && Quota(s.g, s.quota)
    && Phase(s.g)
    && NobodyWaits(s)
    && InOrder(s)
    && FlagsFromGrants(s)
    && Admissions(s)
    && Swept(s.g)
  }

  lemma QuotaStep(s: State, l: Label)
    requires Quota(s.g, s.quota) && Phase(s.g)
    ensures Quota(Step(s, l).g, Step(s, l).quota)
  {
    hide StubStep, TimerStep, ControllerStep, LogElems, LogCalls, LogGrants, Quota, Phase;
    match l
    case Thread(t, b) => if t < |s.threads| { QuotaThread(s, t, b); }
    case Timer => QuotaTimer(s);
    case Controller => QuotaController(s);
  }

  lemma FlagsStep(s: State, l: Label)
    requires FlagsFromGrants(s) && Ownership(MemOf(s)) && Phase(s.g) && NobodyWaits(s)
    ensures FlagsFromGrants(Step(s, l))
  {
    hide StubStep, TimerStep, ControllerStep, LogElems, LogCalls, LogQuota, Ownership, Phase, NobodyWaits, FromGrant;
    match l
    case Thread(t, b) => if t < |s.threads| { FlagsThread(s, t, b); }
    case Timer => FlagsTimer(s);
    case Controller => FlagsController(s);
  }

  lemma InvStep(s: State, l: Label)
    requires Inv(s)
    ensures Inv(Step(s, l))
  {
    hide Step, Ownership, Conserved, Quota, Phase, NobodyWaits, InOrder, FlagsFromGrants, Admissions, Swept, Act;
    StepProjects(s, l);
    ActKeepsOwnership(MemOf(s), ActionOf(s, l));
    ConservedStep(s, l);
    QuotaStep(s, l);
    PhaseStep(s, l);
    NobodyWaitsStep(s, l);
    InOrderStep(s, l);
    FlagsStep(s, l);
    AdmissionsStep(s, l);
    SweptStep(s, l);
  }

  lemma NobodyCounted(threads: nat, p: Pc -> bool)
    requires !p(Outside)
    ensures Count(seq(threads, _ => Outside), p) == 0
  {
    CountZero(seq(threads, _ => Outside), p);
  }

  /** The invariant holds in every state of every run. */
  lemma {:induction false} InvAlways(max: nat, threads: nat, ls: seq<Label>)
    ensures Inv(Run(Init(max, threads), ls))
  {
    hide Step, Run, Count;
    RunLast(Init(max, threads), ls);
    if ls == [] {
      NobodyCounted(threads, Inside);
      NobodyCounted(threads, TokenLeaving);
      NobodyCounted(threads, GrantLeaving);
      NobodyCounted(threads, AbortLeaving);
      NobodyCounted(threads, GrantReporting);
    } else {
      hide Inv, Init;
      InvAlways(max, threads, ls[..|ls| - 1]);
      InvStep(Run(Init(max, threads), ls[..|ls| - 1]), ls[|ls| - 1]);
    }
  }
}
