/**
Conservation of calls, and what turning the monitor off achieves: the drain terminates,
exactly the elements of waiters that left by the off path are never reclaimed, and exactly
when a late thread can use the destroyed cache.
 */
module TurnOff {
  import opened Lists
  import opened QueueModel
  import opened Protocol
  import opened Memory
  import opened ProtocolInvariant
  import opened ProtocolTheorems

  // ---------------------------------------------------------------------------------------
  // Conservation

  /**
  `threads_in_module` counts the threads between their increment and decrement, every
  counted call that ended did so in exactly one of five ways, and in every state each report,
  each token and each grant used belongs to a call that ended or to a thread on its way out.
  */
  lemma CallsAreConserved(max: nat, threads: nat, ls: seq<Label>)
    ensures var s := Run(Init(max, threads), ls);
      var calls := s.calls;
      && s.g.inModule == Count(s.threads, Inside)
      && calls.entered == calls.done.Total() + s.g.inModule
      && s.quota.byToken == calls.done.byToken + Count(s.threads, TokenLeaving)
      && calls.abortReports == calls.done.aborted + Count(s.threads, AbortLeaving)
      && calls.blockedReports == calls.done.granted + Count(s.threads, GrantLeaving)
      && |s.grants.admitted| == calls.blockedReports + Count(s.threads, GrantReporting)
  {
    InvAlways(max, threads, ls);
  }

  /** With nobody inside, each -EAGAIN made one abort report and each granted call one blocked report. */
  lemma CallsAreSettled(max: nat, threads: nat, ls: seq<Label>)
    requires Run(Init(max, threads), ls).g.inModule == 0
    ensures var s := Run(Init(max, threads), ls);
      && s.quota.byToken == s.calls.done.byToken
      && s.calls.abortReports == s.calls.done.aborted
      && |s.grants.admitted| == s.calls.blockedReports == s.calls.done.granted
  {
    var s := Run(Init(max, threads), ls);
    InvAlways(max, threads, ls);
    hide Run, Init;
    CountZero(s.threads, Inside);
    CountZero(s.threads, TokenLeaving);
    CountZero(s.threads, GrantLeaving);
    CountZero(s.threads, AbortLeaving);
    CountZero(s.threads, GrantReporting);
  }

  // ---------------------------------------------------------------------------------------
  // The drain

  /** An upper bound on the steps a thread still takes once the monitor is off */
  function Rank(pc: Pc): nat {
    match pc
    case Outside => 0
    case Leaving(_) => 1
    case Reporting(_) => 2
    case Marking(_, _) => 3
    case Retest(_, _) => 4
    case ReadWorking(_) => 5
    case ReadFlag(_) => 6
    case Discarding(_) => 2
    case Allocated(_) => 3
    case NoToken => 4
    case Registered => 5
    case Entered => 6
    case Tested => 7
  }

  function TotalRank(ts: seq<Pc>): nat {
    if ts == [] then 0 else Rank(ts[0]) + TotalRank(ts[1..])
  }

  lemma {:induction false} RankUpdate(ts: seq<Pc>, t: nat, pc: Pc)
    requires t < |ts|
    ensures TotalRank(ts[t := pc]) == TotalRank(ts) - Rank(ts[t]) + Rank(pc)
  {
    if t == 0 {
      assert ts[t := pc][1..] == ts[1..];
    } else {
      assert ts[t := pc][1..] == ts[1..][t - 1 := pc];
      RankUpdate(ts[1..], t - 1, pc);
    }
  }

  /** With the monitor off a thread stands still, outside or at the queue lock, or counts down. */
  lemma StubRankDrops(g: Shared, pc: Pc, b: bool)
    requires !g.working
    ensures pc.Outside? || (pc.Allocated? && QueueLocked(g)) ==> StubStep(g, pc, b) == (g, pc)
    ensures !pc.Outside? && !(pc.Allocated? && QueueLocked(g)) ==> Rank(StubStep(g, pc, b).1) < Rank(pc)
  {
  }

  /** From the clearing of `working` to the end of the drain loop */
  predicate Ending(c: Control) { c.Stopping? || c.Waking? || c.Draining? }

  function ListSize(q: Queue): nat { |q.waiting| + |q.junk| }

  /** An upper bound on the steps of one whole callback */
  function PassRank(q: Queue): nat { |q.waiting| + ListSize(q) + 7 }

  /** An upper bound on the steps of the callback that is running */
  function TickRank(g: Shared): nat {
    match g.tick
    case Idle => 0
    case Unqueueing(_) => |g.q.waiting| + ListSize(g.q) + 6
    case Accounting(_) => ListSize(g.q) + 5
    case Advancing(_) => ListSize(g.q) + 4
    case Refilling(_) => ListSize(g.q) + 3
    case Rearming => ListSize(g.q) + 2
    case Reclaiming(i) => 1 + if i < |g.q.junk| then |g.q.junk| - i else 0
  }

  /** The timer may be armed once more, but with `working` clear it does not arm itself. */
  function TimerRank(g: Shared): nat { TickRank(g) + if g.pending then PassRank(g.q) else 0 }

  function ControlRank(g: Shared): nat {
    match g.control
    case Stopping => |g.q.waiting| + 2
    case Waking(i) => 1 + if i < |g.q.waiting| then |g.q.waiting| - i else 0
    case _ => 0
  }

  function TurnOffRank(s: State): nat { TotalRank(s.threads) + TimerRank(s.g) + ControlRank(s.g) }

  lemma TimerRankDrops(g: Shared)
    requires !g.working && Ending(g.control) && (g.control.Stopping? || (g.tick.Idle? && !g.pending))
    ensures var g' := TimerStep(g);
      && g'.control == g.control && !g'.working
      && if g.tick.Idle? && !g.pending then g' == g
         else TimerRank(g') < TimerRank(g) && ControlRank(g') <= ControlRank(g)
  {
    hide Exited, UnqueueBody, UnqueueMore, FreeJunkBody;
    UnqueueShrinks(g.q, if g.tick.Unqueueing? then g.tick.missing else 0);
    if g.tick.Reclaiming? && g.tick.i < |g.q.junk| {
      ReclaimShrinks(g.q, g.tick.i);
    }
  }

  lemma UnqueueShrinks(q: Queue, missing: int)
    ensures UnqueueMore(q, missing) ==>
      var q' := UnqueueBody(q, missing).0; |q'.waiting| == |q.waiting| - 1 && ListSize(q') == ListSize(q)
  {
  }

  lemma ReclaimShrinks(q: Queue, i: nat)
    requires i < |q.junk|
    ensures var (q', i') := FreeJunkBody(q, i);
      q'.waiting == q.waiting && |q'.junk| <= |q.junk| && |q'.junk| - i' == |q.junk| - i - 1
  {
  }

  lemma ControlRankDrops(g: Shared)
    requires !g.working && Ending(g.control) && (g.control.Stopping? || (g.tick.Idle? && !g.pending))
    ensures var g' := ControllerStep(g);
      || g' == g
      || (Ending(g'.control) && TimerRank(g') <= TimerRank(g) && ControlRank(g') < ControlRank(g))
      || (g.control.Draining? && g.inModule <= 0 && g'.control == Destroying(0))
  {
    hide Exited, FreeJunkBody;
  }

  /** A thread changes no list and nothing of the timer and the controller once `working` is clear. */
  lemma StubKeepsRanks(g: Shared, pc: Pc, b: bool)
    requires !g.working
    ensures var g' := StubStep(g, pc, b).0;
      TimerRank(g') == TimerRank(g) && ControlRank(g') == ControlRank(g) && g'.control == g.control
  {
    hide StubStep;
    StubFrame(g, pc, b);
  }

  /** Every step of turn-off leaves the state alone, or counts down, or ends the drain with a zero counter. */
  lemma TurnOffStep(s: State, l: Label)
    requires Phase(s.g) && Ending(s.g.control)
    ensures var s' := Step(s, l);
      || s' == s
      || (Ending(s'.g.control) && TurnOffRank(s') < TurnOffRank(s))
      || (s.g.control.Draining? && s.g.inModule <= 0 && s'.g.control == Destroying(0))
  {
    hide StubStep, TimerStep, ControllerStep, TimerRank, ControlRank, TotalRank, Rank;
    match l
    case Thread(t, b) =>
      if t < |s.threads| {
        var pc := s.threads[t];
        StubRankDrops(s.g, pc, b);
        StubKeepsRanks(s.g, pc, b);
        RankUpdate(s.threads, t, StubStep(s.g, pc, b).1);
        assert s.threads[t := pc] == s.threads;
      }
    case Timer => TimerRankDrops(s.g);
    case Controller => ControlRankDrops(s.g);
  }

  /** How many labels of the run change the state */
  ghost function Effective(s: State, ls: seq<Label>): nat {
    if ls == [] then 0
    else Effective(s, ls[..|ls| - 1]) + Bit(Run(s, ls) != Run(s, ls[..|ls| - 1]))
  }

  /** The controller is in turn-off, up to its drain loop, all along the run. */
  ghost predicate StaysEnding(s: State, ls: seq<Label>) {
    forall i :: 0 <= i <= |ls| ==> Ending(Run(s, ls[..i]).g.control)
  }

  /**
  The whole of turn-off, from the clearing of `working`, is bounded: whatever threads, timer
  and controller do, polls included, the steps that change anything number at most the rank.
  */
  lemma {:induction false} TurnOffIsBounded(s: State, ls: seq<Label>)
    requires Inv(s) && StaysEnding(s, ls)
    ensures Inv(Run(s, ls)) && TurnOffRank(Run(s, ls)) + Effective(s, ls) <= TurnOffRank(s)
  {
    hide Run, Inv, Step, TurnOffRank;
    RunLast(s, ls);
    assert ls[..|ls|] == ls;
    assert Ending(Run(s, ls[..|ls|]).g.control);
    if ls != [] {
      var prefix, l := ls[..|ls| - 1], ls[|ls| - 1];
      forall i | 0 <= i <= |prefix| ensures Ending(Run(s, prefix[..i]).g.control) {
        assert prefix[..i] == ls[..i];
      }
      TurnOffIsBounded(s, prefix);
      assert prefix[..|prefix|] == prefix;
      InvMeansPhase(Run(s, prefix));
      TurnOffStep(Run(s, prefix), l);
      InvStep(Run(s, prefix), l);
    }
  }

  lemma InvMeansPhase(s: State)
    requires Inv(s)
    ensures Phase(s.g)
  {
  }

  /** Until the drain can end, somebody can make a step that counts. */
  lemma TurnOffCanGoOn(s: State) returns (l: Label)
    requires Inv(s) && Ending(s.g.control) && !(s.g.control.Draining? && s.g.inModule == 0)
    ensures Ending(Step(s, l).g.control) && TurnOffRank(Step(s, l)) < TurnOffRank(s)
  {
    hide Ownership, Quota, NobodyWaits, InOrder, FlagsFromGrants, Admissions, Swept, StubStep, TimerStep, TurnOffRank;
    if s.g.control.Draining? {
      CountZero(s.threads, Inside);
      var t :| 0 <= t < |s.threads| && Inside(s.threads[t]);
      l := Thread(t, true);
      StubRankDrops(s.g, s.threads[t], true);
      assert Step(s, l) != s;
    } else if s.g.control.Waking? || s.g.tick.Idle? {
      l := Controller;
      assert Step(s, l) != s;
    } else {
      l := Timer;
      TimerMoves(s.g);
      assert Step(s, l) != s;
    }
    TurnOffStep(s, l);
  }

  lemma TimerMoves(g: Shared)
    requires !g.tick.Idle? && !g.working && g.control.Stopping?
    ensures TimerStep(g) != g
  {
    hide TimerStep, TimerRank;
    TimerRankDrops(g);
  }

  /** The controller leaves the drain exactly when the counter is zero, and then everybody is out or not yet counted. */
  lemma DrainEnds(s: State)
    requires Inv(s) && s.g.control.Draining?
    ensures s.g.inModule > 0 ==> Step(s, Controller) == s
    ensures s.g.inModule == 0 ==> Step(s, Controller).g.control == Destroying(0)
    ensures s.g.inModule == 0 <==> forall t :: 0 <= t < |s.threads| ==> !Inside(s.threads[t])
    ensures TotalRank(s.threads) == 0 ==> s.g.inModule == 0
  {
    hide Ownership, Quota, NobodyWaits, InOrder, FlagsFromGrants, Admissions, Swept, StubStep, TimerStep;
    CountZero(s.threads, Inside);
    RankZero(s.threads);
  }

  lemma {:induction false} RankZero(ts: seq<Pc>)
    ensures TotalRank(ts) == 0 ==> forall t :: 0 <= t < |ts| ==> ts[t].Outside?
  {
    if ts != [] {
      RankZero(ts[1..]);
      assert forall t :: 0 < t < |ts| ==> ts[t] == ts[1..][t - 1];
    }
  }

  /** From the end of wake_up_queue until the monitor is on again, the queue is empty and nobody waits. */
  lemma QueueStaysEmptyWhileOff(max: nat, threads: nat, ls: seq<Label>)
    ensures var s := Run(Init(max, threads), ls);
      && (s.g.control.Draining? || Drained(s.g.control) ==> s.g.q.waiting == [])
      && (Drained(s.g.control) ==> forall t :: 0 <= t < |s.threads| ==> !Waits(s.threads[t]))
  {
    InvAlways(max, threads, ls);
  }

  // ---------------------------------------------------------------------------------------
  // The residue

  /**
  When destroy_queue has run free_junk, the elements that were ever enqueued and are not
  reclaimed are exactly those whose waiters left through the monitor-off path, in this or
  any earlier on/off cycle; they are exactly the junk list.
  */
  lemma ResidueIsExact(max: nat, threads: nat, ls: seq<Label>)
    requires Run(Init(max, threads), ls).g.control.Destroyed?
    ensures var s := Run(Init(max, threads), ls);
      && (forall e :: e in s.g.q.heap && e in s.elems.enqueued <==> e in s.elems.leftOff)
      && ToSet(s.g.q.junk) == s.elems.leftOff
  {
    var s := Run(Init(max, threads), ls);
    InvAlways(max, threads, ls);
    hide Run, Init;
    ResidueOf(s);
  }

  lemma ResidueOf(s: State)
    requires Inv(s) && s.g.control.Destroyed?
    ensures forall e :: e in s.g.q.heap && e in s.elems.enqueued <==> e in s.elems.leftOff
    ensures ToSet(s.g.q.junk) == s.elems.leftOff
  {
    hide Conserved, Quota, InOrder, FlagsFromGrants, Admissions;
    var m := MemOf(s);
    forall e | e in s.g.q.junk ensures e in s.elems.leftOff {
      var k :| 0 <= k < |s.g.q.junk| && s.g.q.junk[k] == e;
      assert !Exited(s.g.q, e);
      if HasOwner(m, e) {
        HolderIsKnown(m, m.owner[e]);
      }
    }
  }

  lemma LeftOffGrows(s: State, l: Label)
    ensures s.elems.leftOff <= Step(s, l).elems.leftOff
  {
    hide NextShared, NextThreads, LogGrants, LogQuota, LogCalls;
  }

  lemma LeftOffIsLive(s: State)
    requires Inv(s)
    ensures forall e :: e in s.elems.leftOff ==> e in s.g.q.heap
  {
    assert Accounted(MemOf(s));
  }

  /** An element left behind is never marked or freed later, in any further run. */
  lemma {:induction false} ResidueIsForever(s: State, ls: seq<Label>, e: nat)
    requires Inv(s) && e in s.elems.leftOff
    ensures Inv(Run(s, ls)) && e in Run(s, ls).elems.leftOff && e in Run(s, ls).g.q.heap
  {
    hide Run, Inv, Step;
    RunLast(s, ls);
    if ls != [] {
      var s1, l := Run(s, ls[..|ls| - 1]), ls[|ls| - 1];
      ResidueIsForever(s, ls[..|ls| - 1], e);
      InvStep(s1, l);
      LeftOffGrows(s1, l);
    }
    LeftOffIsLive(Run(s, ls));
  }

  // ---------------------------------------------------------------------------------------
  // The destroyed cache

  /** Past the first test and still to take a token */
  predicate Late(pc: Pc) { pc.Tested? || pc.Entered? || pc.Registered? }

  /** About to use queue_cache, whatever else happens */
  predicate UsesCache(pc: Pc) { pc.NoToken? || pc.Allocated? || pc.Discarding? }

  /** A thread is on its way to the cache, or more threads may ask for a token than there are tokens. */
  ghost predicate CacheAtRisk(s: State) {
    || (exists t :: 0 <= t < |s.threads| && UsesCache(s.threads[t]))
    || Count(s.threads, Late) > Max(s.g.tokens, 0)
  }

  ghost predicate CacheGone(s: State) { Phase(s.g) && s.g.control.Off? }

  lemma StubWhileOff(g: Shared, pc: Pc, b: bool)
    requires !g.working && !QueueLocked(g) && !g.cacheLive
    ensures var (g', pc') := StubStep(g, pc, b);
      && (g'.cacheFault <==> g.cacheFault || pc.NoToken? || pc.Discarding?)
      && (Late(pc') ==> Late(pc))
      && (pc.Registered? ==> !Late(pc'))
      && (UsesCache(pc') <==> pc.Allocated? || (pc.NoToken? && b) || (pc.Registered? && g.tokens - 1 < 0))
  {
  }

  /** Without risk, no thread touches the destroyed cache before the monitor is turned on again. */
  lemma {:induction false} NoRiskNoFault(s: State, ls: seq<Label>)
    requires CacheGone(s) && !CacheAtRisk(s) && !s.g.cacheFault
    requires forall l :: l in ls ==> !l.Controller?
    ensures CacheGone(Run(s, ls)) && !CacheAtRisk(Run(s, ls)) && !Run(s, ls).g.cacheFault
  {
    hide Run;
    RunLast(s, ls);
    if ls != [] {
      var s1, l := Run(s, ls[..|ls| - 1]), ls[|ls| - 1];
      NoRiskNoFault(s, ls[..|ls| - 1]);
      assert l in ls;
      NoRiskStep(s1, l);
    }
  }

  lemma NoRiskStep(s: State, l: Label)
    requires CacheGone(s) && !CacheAtRisk(s) && !s.g.cacheFault && !l.Controller?
    ensures CacheGone(Step(s, l)) && !CacheAtRisk(Step(s, l)) && !Step(s, l).g.cacheFault
  {
    hide StubStep, TimerStep, LogElems, LogCalls, LogQuota, LogGrants, Count, Late, UsesCache;
    PhaseStep(s, l);
    TimerKeepsControl(s.g);
    if l.Thread? && l.t < |s.threads| {
      var pc, pc' := s.threads[l.t], StubStep(s.g, s.threads[l.t], l.b).1;
      StubFrame(s.g, pc, l.b);
      CountUpdate(s.threads, l.t, pc', Late);
      SafeStub(s, l.t, l.b);
    }
  }

  lemma SafeStub(s: State, t: nat, b: bool)
    requires CacheGone(s) && !CacheAtRisk(s) && t < |s.threads|
    ensures var (g', pc') := StubStep(s.g, s.threads[t], b);
      && g'.cacheFault == s.g.cacheFault
      && !UsesCache(pc')
      && Count(s.threads, Late) - Bit(Late(s.threads[t])) + Bit(Late(pc')) <= Max(g'.tokens, 0)
  {
    hide StubStep, Count;
    StubWhileOff(s.g, s.threads[t], b);
    StubFrame(s.g, s.threads[t], b);
    CountZero(s.threads, Late);
  }

  lemma {:induction false} RunPrepend(s: State, l: Label, ls: seq<Label>)
    ensures Run(s, [l] + ls) == Run(Step(s, l), ls)
  {
    hide Run, Step;
    var all := [l] + ls;
    RunLast(s, all);
    RunLast(Step(s, l), ls);
    if ls == [] {
      assert all[..0] == [] && all[0] == l;
      RunLast(s, []);
    } else {
      assert all[..|all| - 1] == [l] + ls[..|ls| - 1];
      RunPrepend(s, l, ls[..|ls| - 1]);
    }
  }

  /** With risk, some continuation makes a thread use the destroyed cache. */
  lemma {:induction false} RiskIsReal(s: State) returns (ls: seq<Label>)
    requires CacheGone(s) && CacheAtRisk(s) && !s.g.cacheFault
    ensures forall l :: l in ls ==> !l.Controller?
    ensures Run(s, ls).g.cacheFault
    decreases TotalRank(s.threads)
  {
    var t := RiskyThread(s);
    var l := Thread(t, true);
    var s' := Step(s, l);
    RiskStep(s, t);
    var rest := [];
    if !s'.g.cacheFault {
      rest := RiskIsReal(s');
    }
    RunPrepend(s, l, rest);
    ls := [l] + rest;
  }

  lemma RiskyThread(s: State) returns (t: nat)
    requires CacheAtRisk(s)
    ensures t < |s.threads|
    ensures UsesCache(s.threads[t]) || (Late(s.threads[t]) && Count(s.threads, Late) > Max(s.g.tokens, 0))
  {
    if exists t :: 0 <= t < |s.threads| && UsesCache(s.threads[t]) {
      t :| 0 <= t < |s.threads| && UsesCache(s.threads[t]);
    } else {
      CountZero(s.threads, Late);
      t :| 0 <= t < |s.threads| && Late(s.threads[t]);
    }
  }

  lemma RiskStep(s: State, t: nat)
    requires CacheGone(s) && t < |s.threads|
    requires UsesCache(s.threads[t]) || (Late(s.threads[t]) && Count(s.threads, Late) > Max(s.g.tokens, 0))
    ensures var s' := Step(s, Thread(t, true));
      && CacheGone(s') && (s'.g.cacheFault || CacheAtRisk(s'))
      && TotalRank(s'.threads) < TotalRank(s.threads)
  {
    hide StubStep, LogElems, LogCalls, LogQuota, LogGrants, Count, TotalRank;
    var pc, pc' := s.threads[t], StubStep(s.g, s.threads[t], true).1;
    var s' := Step(s, Thread(t, true));
    PhaseStep(s, Thread(t, true));
    StubFrame(s.g, pc, true);
    StubRankDrops(s.g, pc, true);
    RankUpdate(s.threads, t, pc');
    CountUpdate(s.threads, t, pc', Late);
    StubWhileOff(s.g, pc, true);
    if Late(pc) {
      LateMoves(s.g, pc);
    }
    assert s'.threads[t] == pc';
  }

  lemma LateMoves(g: Shared, pc: Pc)
    requires Late(pc)
    ensures Late(StubStep(g, pc, true).1) <==> !pc.Registered?
  {
  }

  ghost predicate NoControl(ls: seq<Label>) { forall l :: l in ls ==> !l.Controller? }

  /**
  In a reachable state with the monitor off and the cache destroyed, some continuation before
  the next turn-on uses the destroyed cache if and only if the cache is at risk.
  */
  lemma CacheFaultIff(s: State)
    requires Inv(s) && s.g.control.Off? && !s.g.cacheFault
    ensures (exists ls :: NoControl(ls) && Run(s, ls).g.cacheFault) <==> CacheAtRisk(s)
  {
    if CacheAtRisk(s) {
      var ls := RiskIsReal(s);
      assert NoControl(ls) && Run(s, ls).g.cacheFault;
    } else {
      forall ls | NoControl(ls) ensures !Run(s, ls).g.cacheFault {
        NoRiskNoFault(s, ls);
      }
    }
  }

  // ---------------------------------------------------------------------------------------
  // The timer and the controller run the queue's own functions

  /** The same label `n` times */
  function Times(l: Label, n: nat): seq<Label> { seq(n, _ => l) }

  /** `n` steps of the timer, or of the controller */
  function SoloSteps(g: Shared, l: Label, n: nat): Shared
    requires !l.Thread?
    decreases n
  {
    if n == 0 then g else SoloSteps(if l.Timer? then TimerStep(g) else ControllerStep(g), l, n - 1)
  }

  lemma {:induction false} SoloRun(s: State, l: Label, n: nat)
    requires !l.Thread?
    ensures Run(s, Times(l, n)).g == SoloSteps(s.g, l, n) && Run(s, Times(l, n)).threads == s.threads
    decreases n
  {
    hide TimerStep, ControllerStep, Run;
    if n > 0 {
      SoloRun(Step(s, l), l, n - 1);
      RunPrepend(s, l, Times(l, n - 1));
      assert Times(l, n) == [l] + Times(l, n - 1);
    } else {
      RunLast(s, Times(l, 0));
    }
  }

  lemma {:induction false} UnqueueSteps(g: Shared, missing: int) returns (n: nat)
    requires g.tick == Unqueueing(missing)
    ensures var (q', missing') := UnqueueLoop(g.q, missing);
      SoloSteps(g, Timer, n) == g.(q := UnqueueEnd(q', g.max, missing'), tick := Accounting(g.max - missing'))
    decreases |g.q.waiting|
  {
    hide UnqueueEnd;
    if UnqueueMore(g.q, missing) {
      var (q1, missing1) := UnqueueBody(g.q, missing);
      var g1 := g.(q := q1, tick := Unqueueing(missing1));
      assert TimerStep(g) == g1;
      var n1 := UnqueueSteps(g1, missing1);
      n := n1 + 1;
    } else {
      n := 1;
      assert SoloSteps(TimerStep(g), Timer, 0) == TimerStep(g);
    }
  }

  lemma {:induction false} FreeJunkSteps(g: Shared, l: Label, i: nat) returns (n: nat)
    requires (l.Timer? && g.tick == Reclaiming(i)) || (l.Controller? && g.control == Destroying(i))
    ensures var g' := SoloSteps(g, l, n);
      g' == if l.Timer? then g.(q := FreeJunkFrom(g.q, i), tick := Idle)
            else g.(q := FreeJunkFrom(g.q, i), control := Destroyed)
    decreases |g.q.junk| - i
  {
    hide Exited;
    var g1 := if l.Timer? then TimerStep(g) else ControllerStep(g);
    if i < |g.q.junk| {
      ReclaimShrinks(g.q, i);
      var n1 := FreeJunkSteps(g1, l, FreeJunkBody(g.q, i).1);
      n := n1 + 1;
    } else {
      n := 1;
      assert SoloSteps(g1, l, 0) == g1;
    }
  }

  lemma {:induction false} WakeSteps(g: Shared, i: nat) returns (n: nat)
    requires g.control == Waking(i)
    ensures SoloSteps(g, Controller, n) == g.(q := Splice(WakeFrom(g.q, i)), control := Draining)
    decreases |g.q.waiting| - i
  {
    var g1 := ControllerStep(g);
    if i < |g.q.waiting| {
      assert g1 == g.(q := SetFlag(g.q, g.q.waiting[i]), control := Waking(i + 1));
      var n1 := WakeSteps(g1, i + 1);
      n := n1 + 1;
    } else {
      n := 1;
      assert SoloSteps(g1, Controller, 0) == g1;
    }
  }

  /** A pass of the timer that nothing interrupts is exactly the function `unqueue` of the queue. */
  lemma PassIsUnqueue(s: State) returns (n: nat)
    requires s.g.tick == Unqueueing(s.g.max)
    ensures var (q', granted) := Unqueue(s.g.q, s.g.max);
      Run(s, Times(Timer, n)).g == s.g.(q := q', tick := Accounting(granted))
  {
    hide UnqueueLoop, UnqueueEnd, SoloSteps, Run;
    n := UnqueueSteps(s.g, s.g.max);
    SoloRun(s, Timer, n);
  }

  /** The same for `free_junk`, at the end of a callback and in destroy_queue. */
  lemma ReclaimIsFreeJunk(s: State, l: Label) returns (n: nat)
    requires (l.Timer? && s.g.tick == Reclaiming(0)) || (l.Controller? && s.g.control == Destroying(0))
    ensures var q' := FreeJunkFrom(s.g.q, 0);
      Run(s, Times(l, n)).g == if l.Timer? then s.g.(q := q', tick := Idle) else s.g.(q := q', control := Destroyed)
  {
    hide FreeJunkFrom, SoloSteps, Run;
    n := FreeJunkSteps(s.g, l, 0);
    SoloRun(s, l, n);
  }

  /** The same for `wake_up_queue`. */
  lemma WakingIsWakeUpQueue(s: State) returns (n: nat)
    requires s.g.control == Waking(0)
    ensures Run(s, Times(Controller, n)).g == s.g.(q := Splice(WakeFrom(s.g.q, 0)), control := Draining)
  {
    hide WakeFrom, Splice, SoloSteps, Run;
    n := WakeSteps(s.g, 0);
    SoloRun(s, Controller, n);
  }
}
