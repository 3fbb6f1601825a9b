/**
The epoch timer keeps ticking: as long as the monitor is on another pass comes, exactly if one
was coming when turn-on ended. So the passes that bounded waiting counts do happen, and a
waiter is served.
 */
module Ticking {
  import opened Lists
  import opened QueueModel
  import opened Protocol
  import opened Memory
  import opened ProtocolInvariant
  import opened ProtocolTheorems
  import opened TurnOff
  import opened Progress

  // ---------------------------------------------------------------------------------------
  // A callback is armed, or running and will arm the next

  /** The callback that runs has not yet passed its test of `working`. */
  predicate BeforeRearm(t: Tick) {
    t.Unqueueing? || t.Accounting? || t.Advancing? || t.Refilling? || t.Rearming?
  }

  predicate Coming(g: Shared) { g.pending || BeforeRearm(g.tick) }

  /** Between two states with the monitor on, nobody changes whether another callback comes. */
  lemma ComingStep(s: State, l: Label)
    requires Phase(s.g) && s.g.working && Step(s, l).g.working
    ensures Coming(Step(s, l).g) <==> Coming(s.g)
  {
    hide StubStep, UnqueueBody, UnqueueMore, UnqueueEnd, FreeJunkBody, LogElems, LogCalls, LogGrants, LogQuota;
    if l.Thread? && l.t < |s.threads| {
      StubFrame(s.g, s.threads[l.t], l.b);
    }
  }

  lemma StalledStep(s: State, l: Label)
    requires Phase(s.g) && s.g.working && Step(s, l).g.working && !Coming(s.g)
    ensures Step(s, l).quota.begun == s.quota.begun && Passes(Step(s, l)) == Passes(s)
  {
    hide StubStep, NextThreads, LogElems, LogCalls, LogGrants;
    ComingStep(s, l);
  }

  /** In every continuation with the monitor on: a timer that ticks goes on, and one that does not never will. */
  lemma {:induction false} ComingForever(s: State, ls: seq<Label>)
    requires Inv(s) && StaysOn(s, ls)
    ensures Inv(Run(s, ls)) && (Coming(Run(s, ls).g) <==> Coming(s.g))
    ensures !Coming(s.g) ==> Run(s, ls).quota.begun == s.quota.begun && Passes(Run(s, ls)) == Passes(s)
  {
    hide Run, Inv, Step, Coming, Passes;
    RunLast(s, ls);
    assert ls[..|ls|] == ls && Run(s, ls).g.working;
    if ls != [] {
      var prefix, l := ls[..|ls| - 1], ls[|ls| - 1];
      StaysOnBefore(s, ls);
      ComingForever(s, prefix);
      var s1 := Run(s, prefix);
      assert prefix[..|prefix|] == prefix && s1.g.working;
      InvMeansBoth(s1);
      ComingStep(s1, l);
      if !Coming(s1.g) {
        StalledStep(s1, l);
      }
      InvStep(s1, l);
    }
  }

  lemma StaysOnBefore(s: State, ls: seq<Label>)
    requires StaysOn(s, ls) && ls != []
    ensures StaysOn(s, ls[..|ls| - 1])
  {
    hide Run;
    var prefix := ls[..|ls| - 1];
    forall i | 0 <= i <= |prefix| ensures Run(s, prefix[..i]).g.working {
      assert prefix[..i] == ls[..i];
    }
  }

  /** Turn-on ends with a ticking timer if and only if the first callback has not passed its test of `working`. */
  lemma TurnOnTicksIff(s: State)
    requires s.g.control.Starting?
    ensures var s' := Step(s, Controller);
      s'.g.working && s'.g.control.On? && (Coming(s'.g) <==> s.g.pending || BeforeRearm(s.g.tick))
  {
    hide LogElems, LogCalls, LogGrants, LogQuota;
  }

  // ---------------------------------------------------------------------------------------
  // Passes come

  /** Timer steps until the end of the pass that runs or comes */
  function Distance(g: Shared): nat {
    var pass, sweep := |g.q.waiting| + 2, |g.q.junk| + 2;
    match g.tick
    case Unqueueing(_) => |g.q.waiting| + 1
    case Idle => pass
    case Reclaiming(i) => pass + 1 + if i < |g.q.junk| then |g.q.junk| - i else 0
    case Rearming => pass + sweep
    case Refilling(_) => pass + sweep + 1
    case Advancing(_) => pass + sweep + 2
    case Accounting(_) => pass + sweep + 3
  }

  lemma TimerGoesOn(s: State)
    requires s.g.working && Coming(s.g)
    ensures var s' := Step(s, Timer);
      && s'.g.working && Coming(s'.g)
      && (Passes(s') == Passes(s) + 1 || (Passes(s') == Passes(s) && Distance(s'.g) < Distance(s.g)))
  {
    hide StubStep, ControllerStep, LogElems, LogCalls, LogGrants, UnqueueBody, FreeJunkBody, Exited;
    if s.g.tick.Unqueueing? {
      UnqueueShrinks(s.g.q, s.g.tick.missing);
    }
    if s.g.tick.Reclaiming? && s.g.tick.i < |s.g.q.junk| {
      ReclaimShrinks(s.g.q, s.g.tick.i);
    }
  }

  lemma {:induction false} RunConcat(s: State, a: seq<Label>, b: seq<Label>)
    ensures Run(s, a + b) == Run(Run(s, a), b)
  {
    hide Run, Step;
    RunLast(Run(s, a), b);
    if b == [] {
      assert a + b == a;
    } else {
      assert (a + b)[..|a + b| - 1] == a + b[..|b| - 1];
      RunLast(s, a + b);
      RunConcat(s, a, b[..|b| - 1]);
    }
  }

  lemma {:induction false} OnePass(s: State) returns (n: nat)
    requires s.g.working && Coming(s.g)
    ensures var s' := Run(s, Times(Timer, n)); s'.g.working && Coming(s'.g) && Passes(s') == Passes(s) + 1
    decreases Distance(s.g)
  {
    hide Run, Step, Coming, Passes, Distance;
    var s1 := Step(s, Timer);
    TimerGoesOn(s);
    if Passes(s1) == Passes(s) + 1 {
      n := 1;
      RunPrepend(s, Timer, []);
      RunLast(s1, []);
      assert Times(Timer, 1) == [Timer] + [];
    } else {
      var n1 := OnePass(s1);
      n := n1 + 1;
      RunPrepend(s, Timer, Times(Timer, n1));
      assert Times(Timer, n) == [Timer] + Times(Timer, n1);
    }
  }

  /** From a state with the monitor on and a callback coming, the timer alone completes any number of passes. */
  lemma {:induction false} PassesCome(s: State, k: nat) returns (n: nat)
    requires s.g.working && Coming(s.g)
    ensures var s' := Run(s, Times(Timer, n)); s'.g.working && Coming(s'.g) && Passes(s') == Passes(s) + k
  {
    hide Run, Coming, Passes;
    if k == 0 {
      n := 0;
      RunLast(s, Times(Timer, 0));
    } else {
      var n1 := PassesCome(s, k - 1);
      var n2 := OnePass(Run(s, Times(Timer, n1)));
      n := n1 + n2;
      RunConcat(s, Times(Timer, n1), Times(Timer, n2));
      assert Times(Timer, n) == Times(Timer, n1) + Times(Timer, n2);
    }
  }

  lemma {:induction false} TimerKeepsOn(s: State, n: nat)
    requires s.g.working
    ensures StaysOn(s, Times(Timer, n))
  {
    hide Run, Step;
    var ls := Times(Timer, n);
    RunLast(s, ls);
    if n == 0 {
      assert forall i :: 0 <= i <= |ls| ==> ls[..i] == [];
    } else {
      var prefix := Times(Timer, n - 1);
      assert ls[..n - 1] == prefix;
      TimerKeepsOn(s, n - 1);
      assert prefix[..n - 1] == prefix && Run(s, prefix).g.working;
      assert Step(Run(s, prefix), Timer).g.working by { TimerKeepsWorking(Run(s, prefix).g); StepOfTimer(Run(s, prefix)); }
      forall i | 0 <= i <= n ensures Run(s, ls[..i]).g.working {
        if i < n {
          assert ls[..i] == prefix[..i];
        } else {
          assert ls[..n] == ls;
        }
      }
    }
  }

  lemma StepOfTimer(s: State)
    ensures Step(s, Timer).g == TimerStep(s.g)
  {
    hide TimerStep, LogElems, LogCalls, LogGrants, LogQuota;
  }

  /** With the monitor on, another pass can end if and only if a callback is coming. */
  lemma PassCanComeIff(s: State)
    requires Inv(s) && s.g.working
    ensures Coming(s.g) <==> exists more :: StaysOn(s, more) && Passes(Run(s, more)) > Passes(s)
  {
    hide Run, Inv, Coming, Passes, StaysOn;
    if Coming(s.g) {
      var n := PassesCome(s, 1);
      TimerKeepsOn(s, n);
    } else {
      forall more | StaysOn(s, more) ensures Passes(Run(s, more)) == Passes(s) {
        ComingForever(s, more);
      }
    }
  }

  // ---------------------------------------------------------------------------------------
  // A waiter is served

  lemma {:induction false} ThreadKeepsOn(s: State, t: nat, n: nat)
    requires s.g.working
    ensures StaysOn(s, Times(Thread(t, false), n)) && StepsOf(Times(Thread(t, false), n), t) == n
  {
    hide Run, Step;
    var ls := Times(Thread(t, false), n);
    RunLast(s, ls);
    if n == 0 {
      assert forall i :: 0 <= i <= |ls| ==> ls[..i] == [];
    } else {
      var prefix := Times(Thread(t, false), n - 1);
      assert ls[..n - 1] == prefix;
      ThreadKeepsOn(s, t, n - 1);
      assert prefix[..n - 1] == prefix && Run(s, prefix).g.working;
      ThreadKeepsWorking(Run(s, prefix), t, false);
      forall i | 0 <= i <= n ensures Run(s, ls[..i]).g.working {
        if i < n {
          assert ls[..i] == prefix[..i];
        } else {
          assert ls[..n] == ls;
        }
      }
    }
  }

  lemma ThreadKeepsWorking(s: State, t: nat, b: bool)
    ensures Step(s, Thread(t, b)).g.working == s.g.working
  {
    hide StubStep, LogElems, LogCalls, LogGrants, LogQuota;
    if t < |s.threads| {
      StubFrame(s.g, s.threads[t], b);
    }
  }

  /**
  With a positive maximum no waiter is forgotten: from every reachable state with the monitor on
  and a callback coming, enough ticks grant it and six steps of its own let its call return.
   */
  lemma WaiterIsServed(max: nat, threads: nat, ls: seq<Label>, t: nat, e: nat) returns (n: nat)
    requires max > 0
    requires var s := Run(Init(max, threads), ls);
      && s.g.working && Coming(s.g)
      && t < |s.threads| && (s.threads[t] == ReadWorking(e) || s.threads[t] == ReadFlag(e))
    ensures var s' := Run(Run(Init(max, threads), ls), Times(Timer, n));
      Flagged(s'.g.q, e) && Returns(s', Times(Thread(t, false), 6), t, e, false)
  {
    hide Run, Init, Inv, Coming, Returns, StaysOn, Flagged;
    var init := Init(max, threads);
    var s := Run(init, ls);
    MaxIsConstant(max, threads, ls);
    n := TicksEnough(max, threads, ls, e);
    var all := ls + Times(Timer, n);
    RunConcat(init, ls, Times(Timer, n));
    SoloRun(s, Timer, n);
    MaxIsConstant(max, threads, all);
    OffTheQueueIsFlagged(max, threads, all, t);
    var s' := Run(init, all);
    ThreadKeepsOn(s', t, 6);
    GrantedCallReturns(max, threads, all, Times(Thread(t, false), 6), t, e);
  }

  /** Ticks that take element `e` off the queue */
  lemma TicksEnough(max: nat, threads: nat, ls: seq<Label>, e: nat) returns (n: nat)
    requires max > 0 && Run(Init(max, threads), ls).g.working && Coming(Run(Init(max, threads), ls).g)
    ensures var s' := Run(Run(Init(max, threads), ls), Times(Timer, n)); s'.g.working && e !in s'.g.q.waiting
  {
    hide Run, Init, Coming;
    var s := Run(Init(max, threads), ls);
    if e in s.g.q.waiting {
      var p :| 0 <= p < |s.g.q.waiting| && s.g.q.waiting[p] == e;
      n := PassesCome(s, p / max + 2);
      BoundedWaiting(max, threads, ls, Times(Timer, n), p);
    } else {
      n := 0;
      RunLast(s, Times(Timer, 0));
    }
  }
}
