/**
Runs that reach states a reader might think impossible: a token taken past a queued waiter, an
element that turn-off leaves behind, and a thread that is late for the queue's cache.
 */
module Witnesses {
  import opened Lists
  import opened QueueModel
  import opened Protocol
  import opened Memory
  import opened ProtocolInvariant
  import opened ProtocolTheorems
  import opened TurnOff
  import opened Progress
  import opened Ticking

  // ---------------------------------------------------------------------------------------
  // Reaching a state, up to the logs

  ghost predicate Leads(max: nat, n: nat, ls: seq<Label>, g: Shared, ts: seq<Pc>) {
    Run(Init(max, n), ls).g == g && Run(Init(max, n), ls).threads == ts
  }

  ghost predicate Reaches(max: nat, n: nat, g: Shared, ts: seq<Pc>) {
    exists ls :: Leads(max, n, ls, g, ts)
  }

  lemma Goes(max: nat, n: nat, g: Shared, ts: seq<Pc>, l: Label, g': Shared, ts': seq<Pc>)
    requires Reaches(max, n, g, ts)
    requires forall s: State :: s.g == g && s.threads == ts ==> Step(s, l).g == g' && Step(s, l).threads == ts'
    ensures Reaches(max, n, g', ts')
  {
    hide Run, Step, Init;
    var ls :| Leads(max, n, ls, g, ts);
    RunLast(Init(max, n), ls + [l]);
    assert (ls + [l])[..|ls|] == ls;
    assert Leads(max, n, ls + [l], g', ts');
  }

  lemma ByThread(max: nat, n: nat, g: Shared, ts: seq<Pc>, t: nat, b: bool, g': Shared, pc': Pc)
    requires Reaches(max, n, g, ts) && t < |ts| && StubStep(g, ts[t], b) == (g', pc')
    ensures Reaches(max, n, g', ts[t := pc'])
  {
    hide StubStep, Reaches;
    Goes(max, n, g, ts, Thread(t, b), g', ts[t := pc']);
  }

  lemma ByTimer(max: nat, n: nat, g: Shared, ts: seq<Pc>)
    requires Reaches(max, n, g, ts)
    ensures Reaches(max, n, TimerStep(g), ts)
  {
    hide TimerStep, Reaches;
    Goes(max, n, g, ts, Timer, TimerStep(g), ts);
  }

  lemma ByController(max: nat, n: nat, g: Shared, ts: seq<Pc>)
    requires Reaches(max, n, g, ts)
    ensures Reaches(max, n, ControllerStep(g), ts)
  {
    hide ControllerStep, Reaches;
    Goes(max, n, g, ts, Controller, ControllerStep(g), ts);
  }

  lemma ByControllers(max: nat, n: nat, g: Shared, ts: seq<Pc>, steps: nat)
    requires Reaches(max, n, g, ts)
    ensures Reaches(max, n, SoloSteps(g, Controller, steps), ts)
    decreases steps
  {
    hide ControllerStep, Reaches;
    if steps > 0 {
      ByController(max, n, g, ts);
      ByControllers(max, n, ControllerStep(g), ts, steps - 1);
    }
  }

  function Idlers(n: nat): seq<Pc> { seq(n, _ => Outside) }

  /** The monitor has just been turned on. */
  function TurnedOn(max: nat): Shared {
    Shared(max, true, 0, 0, 0, EMPTY_QUEUE, true, false, true, Idle, On)
  }

  lemma ReachOn(max: nat, n: nat)
    ensures Reaches(max, n, TurnedOn(max), Idlers(n))
  {
    hide Run, Reaches;
    RunLast(Init(max, n), []);
    var g := Init(max, n).g;
    assert Leads(max, n, [], g, Idlers(n));
    ReachesBy(max, n, [], g, Idlers(n));
    ByController(max, n, g, Idlers(n));
    var g1 := ControllerStep(g);
    ByController(max, n, g1, Idlers(n));
    ByController(max, n, ControllerStep(g1), Idlers(n));
  }

  lemma ReachesBy(max: nat, n: nat, ls: seq<Label>, g: Shared, ts: seq<Pc>)
    requires Leads(max, n, ls, g, ts)
    ensures Reaches(max, n, g, ts)
  {}

  // ---------------------------------------------------------------------------------------
  // Threads

  /** Thread `t` tests `working`, is counted and found registered. */
  lemma Registers(max: nat, n: nat, g: Shared, ts: seq<Pc>, t: nat)
    requires Reaches(max, n, g, ts) && t < |ts| && ts[t] == Outside && g.working
    ensures Reaches(max, n, g.(inModule := g.inModule + 1), ts[t := Registered])
  {
    hide Reaches;
    var g1 := g.(inModule := g.inModule + 1);
    ByThread(max, n, g, ts, t, true, g, Tested);
    ByThread(max, n, g, ts[t := Tested], t, true, g1, Entered);
    assert ts[t := Tested][t := Entered] == ts[t := Entered];
    ByThread(max, n, g1, ts[t := Entered], t, true, g1, Registered);
    assert ts[t := Entered][t := Registered] == ts[t := Registered];
  }

  /** A registered thread finds no token and allocates an element. */
  lemma FindsNoToken(max: nat, n: nat, g: Shared, ts: seq<Pc>, t: nat)
    requires Reaches(max, n, g, ts) && t < |ts| && ts[t] == Registered && g.tokens <= 0 && g.cacheLive
    ensures Reaches(max, n, g.(tokens := g.tokens - 1, q := Alloc(g.q)), ts[t := Allocated(g.q.next)])
  {
    hide Reaches;
    var g1 := g.(tokens := g.tokens - 1);
    ByThread(max, n, g, ts, t, true, g1, NoToken);
    ByThread(max, n, g1, ts[t := NoToken], t, true, UseCache(g1).(q := Alloc(g.q)), Allocated(g.q.next));
    assert ts[t := NoToken][t := Allocated(g.q.next)] == ts[t := Allocated(g.q.next)];
  }

  lemma Enqueues(max: nat, n: nat, g: Shared, ts: seq<Pc>, t: nat, e: nat)
    requires Reaches(max, n, g, ts) && t < |ts| && ts[t] == Allocated(e) && g.working && !QueueLocked(g)
    ensures Reaches(max, n, g.(q := Enqueue(g.q, e)), ts[t := ReadWorking(e)])
  {
    hide Reaches;
    ByThread(max, n, g, ts, t, true, g.(q := Enqueue(g.q, e)), ReadWorking(e));
  }

  // ---------------------------------------------------------------------------------------
  // A token taken past a waiter

  /** One thread has found no token and is about to queue; the tick's pass ends with an empty queue. */
  function PassOver(): Shared {
    TurnedOn(1).(inModule := 1, tokens := -1, q := Alloc(EMPTY_QUEUE), pending := false, tick := Accounting(0))
  }

  lemma ReachPassOver()
    ensures Reaches(1, 2, PassOver(), [Allocated(0), Outside])
  {
    hide Reaches;
    ReachOn(1, 2);
    var g := TurnedOn(1);
    Registers(1, 2, g, Idlers(2), 0);
    var g1 := g.(inModule := 1);
    FindsNoToken(1, 2, g1, Idlers(2)[0 := Registered], 0);
    var ts := [Allocated(0), Outside];
    assert Idlers(2)[0 := Registered][0 := Allocated(0)] == ts;
    var g2 := g1.(tokens := -1, q := Alloc(EMPTY_QUEUE));
    ByTimer(1, 2, g2, ts);
    ByTimer(1, 2, TimerStep(g2), ts);
    assert TimerStep(TimerStep(g2)) == PassOver();
  }

  /** The waiter queues, and the refill that follows leaves a token. */
  function Refilled(): Shared {
    PassOver().(q := Enqueue(Alloc(EMPTY_QUEUE), 0), tokens := 1, epoch := 1, tick := Rearming)
  }

  lemma ReachRefilled()
    ensures Reaches(1, 2, Refilled(), [ReadWorking(0), Outside])
  {
    hide Reaches;
    ReachPassOver();
    var ts := [Allocated(0), Outside];
    Enqueues(1, 2, PassOver(), ts, 0, 0);
    var g, ts' := PassOver().(q := Enqueue(Alloc(EMPTY_QUEUE), 0)), [ReadWorking(0), Outside];
    assert ts[0 := ReadWorking(0)] == ts';
    ByTimer(1, 2, g, ts');
    ByTimer(1, 2, TimerStep(g), ts');
    ByTimer(1, 2, TimerStep(TimerStep(g)), ts');
    assert TimerStep(TimerStep(TimerStep(g))) == Refilled();
  }

  /**
  A later call can pass by a waiter: a thread that queues between the end of a pass and the
  refill waits on while the next call takes the token.
  */
  lemma LaterCallOvertakes() returns (ls: seq<Label>)
    ensures var s := Run(Init(1, 2), ls);
      s.g.q.waiting == [0] && s.threads == [ReadWorking(0), Leaving(ByToken)]
  {
    hide Run, Reaches, Init, Refilled;
    ReachRefilled();
    var g, ts := Refilled(), [ReadWorking(0), Outside];
    assert g.working && g.tokens == 1 && g.q.waiting == [0] by { RefilledFacts(); }
    Registers(1, 2, g, ts, 1);
    var g1, ts1 := g.(inModule := g.inModule + 1), ts[1 := Registered];
    var g2, ts2 := g1.(tokens := 0), [ReadWorking(0), Leaving(ByToken)];
    ByThread(1, 2, g1, ts1, 1, true, g2, Leaving(ByToken));
    assert ts1[1 := Leaving(ByToken)] == ts2;
    ls := TheRun(1, 2, g2, ts2);
  }

  lemma RefilledFacts()
    ensures Refilled().working && Refilled().tokens == 1 && Refilled().q.waiting == [0]
  {}

  lemma TheRun(max: nat, n: nat, g: Shared, ts: seq<Pc>) returns (ls: seq<Label>)
    requires Reaches(max, n, g, ts)
    ensures Run(Init(max, n), ls).g == g && Run(Init(max, n), ls).threads == ts
  {
    hide Run, Init;
    ls :| Leads(max, n, ls, g, ts);
  }

  // ---------------------------------------------------------------------------------------
  // An element left behind

  function OneElem(flag: bool): map<nat, Elem> { map[0 := Elem(flag, false)] }

  /** One thread waits, and the monitor is being turned off. */
  lemma ReachWaking()
    ensures Reaches(0, 1, TurnedOn(0).(
      control := Draining, working := false, pending := false, inModule := 1, tokens := -1,
      q := Queue([], [0], OneElem(true), 0, 1, false)), [ReadWorking(0)])
  {
    hide Reaches;
    ReachOn(0, 1);
    var g := TurnedOn(0);
    Registers(0, 1, g, Idlers(1), 0);
    var g1 := g.(inModule := 1);
    FindsNoToken(0, 1, g1, Idlers(1)[0 := Registered], 0);
    var g2 := g1.(tokens := -1, q := Alloc(EMPTY_QUEUE));
    assert Idlers(1)[0 := Registered][0 := Allocated(0)] == [Allocated(0)];
    Enqueues(0, 1, g2, [Allocated(0)], 0, 0);
    assert [Allocated(0)][0 := ReadWorking(0)] == [ReadWorking(0)];
    var g3 := g2.(q := Queue([0], [], OneElem(false), 1, 1, false));
    assert g3 == g2.(q := Enqueue(g2.q, 0));
    ByControllers(0, 1, g3, [ReadWorking(0)], 4);
    WakesOne(g3);
  }

  lemma WakesOne(g: Shared)
    requires g.control.On? && g.tick.Idle? && g.q == Queue([0], [], OneElem(false), 1, 1, false)
    ensures SoloSteps(g, Controller, 4) == g.(
      control := Draining, working := false, pending := false, q := Queue([], [0], OneElem(true), 0, 1, false))
  {
    var g1 := ControllerStep(g);
    var g2 := ControllerStep(g1);
    assert g2 == g.(control := Waking(0), working := false, pending := false);
    var g3 := ControllerStep(g2);
    assert g3.q.heap == OneElem(true);
    assert g3 == g2.(control := Waking(1), q := Queue([0], [], OneElem(true), 1, 1, false));
    var g4 := ControllerStep(g3);
    assert SoloSteps(g4, Controller, 0) == g4;
    assert SoloSteps(g2, Controller, 2) == SoloSteps(g3, Controller, 1) == g4;
  }

  /** Turn-off can leave an element behind for good: its waiter left by the monitor-off path. */
  lemma TurnOffLeavesResidue() returns (ls: seq<Label>)
    ensures var s := Run(Init(0, 1), ls);
      s.g.control.Destroyed? && s.g.inModule == 0 && s.g.q.junk == [0] && 0 in s.g.q.heap && s.elems.leftOff == {0}
  {
    hide Run, Init, Reaches;
    ReachWaking();
    var q := Queue([], [0], OneElem(true), 0, 1, false);
    var g := TurnedOn(0).(
      control := Draining, working := false, pending := false, inModule := 1, tokens := -1, q := q);
    ByThread(0, 1, g, [ReadWorking(0)], 0, true, g, Retest(0, false));
    assert [ReadWorking(0)][0 := Retest(0, false)] == [Retest(0, false)];
    ByThread(0, 1, g, [Retest(0, false)], 0, true, g, Leaving(MonitorOff));
    assert [Retest(0, false)][0 := Leaving(MonitorOff)] == [Leaving(MonitorOff)];
    var g1 := g.(inModule := 0);
    ByThread(0, 1, g, [Leaving(MonitorOff)], 0, true, g1, Outside);
    assert [Leaving(MonitorOff)][0 := Outside] == [Outside];
    ByControllers(0, 1, g1, [Outside], 3);
    SweepsNothing(g1);
    ls := TheRun(0, 1, g1.(control := Destroyed), [Outside]);
    ResidueIsExact(0, 1, ls);
    assert ToSet([0]) == {0};
  }

  lemma SweepsNothing(g: Shared)
    requires g.control.Draining? && g.inModule == 0 && g.q == Queue([], [0], OneElem(true), 0, 1, false)
    ensures SoloSteps(g, Controller, 3) == g.(control := Destroyed)
  {
    var g1 := ControllerStep(g);
    var g2 := ControllerStep(g1);
    assert g2 == g.(control := Destroying(1));
    var g3 := ControllerStep(g2);
    assert SoloSteps(g3, Controller, 0) == g3;
    assert SoloSteps(g1, Controller, 2) == SoloSteps(g2, Controller, 1) == g3;
  }

  // ---------------------------------------------------------------------------------------
  // A thread that is late for the cache

  /** One thread that tested `working` just before a turn-off puts the destroyed cache at risk. */
  lemma LateThreadPutsCacheAtRisk() returns (ls: seq<Label>)
    ensures var s := Run(Init(0, 1), ls); s.g.control.Off? && !s.g.cacheFault && CacheAtRisk(s)
  {
    hide Run, Init, Reaches;
    ReachOn(0, 1);
    var g := TurnedOn(0);
    ByThread(0, 1, g, Idlers(1), 0, true, g, Tested);
    assert Idlers(1)[0 := Tested] == [Tested];
    ByControllers(0, 1, g, [Tested], 6);
    hide ControllerStep, SoloSteps;
    TurnsOff(g);
    ls := TheRun(0, 1, g.(control := Off, working := false, pending := false, cacheLive := false), [Tested]);
    var s := Run(Init(0, 1), ls);
    CountZero(s.threads, Late);
    assert Late(s.threads[0]);
  }

  /** Six controller steps turn a monitor off in which nothing waits and nobody is counted. */
  lemma TurnsOff(g: Shared)
    requires g.control.On? && g.tick.Idle? && g.q == EMPTY_QUEUE && g.inModule == 0
    ensures SoloSteps(g, Controller, 6) ==
      g.(control := Off, working := false, pending := false, cacheLive := false)
  {
    var g2 := ControllerStep(ControllerStep(g));
    assert g2 == g.(control := Waking(0), working := false, pending := false);
    var g4 := ControllerStep(ControllerStep(g2));
    assert g4 == g2.(control := Destroying(0));
    var g5 := ControllerStep(g4);
    var g6 := ControllerStep(g5);
    assert SoloSteps(g6, Controller, 0) == g6;
    assert SoloSteps(g4, Controller, 2) == SoloSteps(g5, Controller, 1) == g6;
    assert SoloSteps(g2, Controller, 4) == SoloSteps(ControllerStep(g2), Controller, 3) == SoloSteps(g4, Controller, 2);
  }

  // ---------------------------------------------------------------------------------------
  // A timer that does not tick

  lemma ByTimers(max: nat, n: nat, g: Shared, ts: seq<Pc>, steps: nat)
    requires Reaches(max, n, g, ts)
    ensures Reaches(max, n, SoloSteps(g, Timer, steps), ts)
    decreases steps
  {
    hide TimerStep, Reaches;
    if steps > 0 {
      ByTimer(max, n, g, ts);
      ByTimers(max, n, TimerStep(g), ts, steps - 1);
    }
  }

  /** The whole first callback, with `working` still clear */
  lemma FirstCallback(g: Shared)
    requires g.tick.Idle? && g.pending && !g.working && g.q == EMPTY_QUEUE && g.max == 1
    ensures SoloSteps(g, Timer, 7) == g.(pending := false, tokens := 1, epoch := g.epoch + 1)
  {
    var g2 := TimerStep(TimerStep(g));
    assert g2 == g.(pending := false, tick := Accounting(0));
    var g5 := TimerStep(TimerStep(TimerStep(g2)));
    assert g5 == g2.(tick := Rearming, epoch := g.epoch + 1, tokens := 1);
    var g7 := TimerStep(TimerStep(g5));
    assert SoloSteps(g7, Timer, 0) == g7;
    assert SoloSteps(g5, Timer, 2) == SoloSteps(TimerStep(g5), Timer, 1) == g7;
    assert SoloSteps(g2, Timer, 5) == SoloSteps(TimerStep(g2), Timer, 4)
        == SoloSteps(TimerStep(TimerStep(g2)), Timer, 3) == SoloSteps(g5, Timer, 2);
    assert SoloSteps(g, Timer, 7) == SoloSteps(TimerStep(g), Timer, 6) == SoloSteps(g2, Timer, 5);
  }

  /**
  Turn-on arms the timer before it sets `working`. If the first callback runs in between, it does
  not arm the next, and the monitor is on with no tick to come.
  */
  lemma TimerCanStall() returns (ls: seq<Label>)
    ensures var s := Run(Init(1, 1), ls);
      && s.g.working && s.g.control.On? && !Coming(s.g)
      && forall more :: StaysOn(s, more) ==> Passes(Run(s, more)) == Passes(s)
  {
    hide Run, Reaches, Init, Coming, Passes, StaysOn, Inv;
    var g := Shared(1, false, 0, 0, 0, EMPTY_QUEUE, true, false, true, Idle, Starting);
    ReachStarting(1, 1);
    ByTimers(1, 1, g, Idlers(1), 7);
    FirstCallback(g);
    var g1 := g.(pending := false, tokens := 1, epoch := 1);
    ByController(1, 1, g1, Idlers(1));
    var g2 := g1.(control := On, working := true);
    assert ControllerStep(g1) == g2;
    assert !Coming(g2) by { NoTick(g2); }
    ls := TheRun(1, 1, g2, Idlers(1));
    InvAlways(1, 1, ls);
    var s := Run(Init(1, 1), ls);
    forall more | StaysOn(s, more) ensures Passes(Run(s, more)) == Passes(s) {
      ComingForever(s, more);
    }
  }

  lemma NoTick(g: Shared)
    requires !g.pending && g.tick.Idle?
    ensures !Coming(g)
  {}

  lemma ReachStarting(max: nat, n: nat)
    ensures Reaches(max, n, Shared(max, false, 0, 0, 0, EMPTY_QUEUE, true, false, true, Idle, Starting), Idlers(n))
  {
    hide Run, Reaches;
    RunLast(Init(max, n), []);
    var g := Init(max, n).g;
    assert Leads(max, n, [], g, Idlers(n));
    ReachesBy(max, n, [], g, Idlers(n));
    ByController(max, n, g, Idlers(n));
    ByController(max, n, ControllerStep(g), Idlers(n));
  }
}
