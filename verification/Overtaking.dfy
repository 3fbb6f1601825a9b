/**
Who can be overtaken: grants follow the tickets, but a call that finds a token left does not
queue. The exact truth is that a token can only be left while every waiter came after the pass
of `unqueue` that preceded the refill.
 */
module Overtaking {
  import opened Lists
  import opened QueueModel
  import opened Protocol
  import opened Memory
  import opened ProtocolInvariant
  import opened ProtocolTheorems

  /** The tick has ended its pass and not yet refilled the tokens. */
  predicate BetweenPassAndRefill(t: Tick) { t.Accounting? || t.Advancing? || t.Refilling? }

  ghost predicate Marked(s: State) {
    && s.marks.refill <= s.marks.passEnd <= |s.elems.enqueued|
    && (BetweenPassAndRefill(s.g.tick) && s.g.tick.granted < s.g.max ==> s.marks.passEnd <= Removed(s))
    && (s.g.tokens > 0 ==> s.marks.refill <= Removed(s))
  }

  lemma MarkedStep(s: State, l: Label)
    requires Marked(s) && Inv(s)
    ensures Marked(Step(s, l))
  {
    hide StubStep, ControllerStep, LogCalls, LogGrants, LogQuota, Inv;
    assert s.elems.enqueued <= Step(s, l).elems.enqueued by { StepKeepsLog(s, l); }
    PassProgress(s, l, -1);
    match l
    case Thread(t, b) => if t < |s.threads| { StubFrame(s.g, s.threads[t], b); }
    case Timer => TimerMarks(s);
    case Controller => ControllerKeepsTick(s.g);
  }

  lemma ControllerKeepsTick(g: Shared)
    ensures ControllerStep(g).tick == g.tick && ControllerStep(g).tokens == g.tokens && ControllerStep(g).max == g.max
  {
    hide FreeJunkBody, SetFlag, Splice;
  }

  lemma TimerMarks(s: State)
    requires Marked(s) && Removed(Step(s, Timer)) >= Removed(s)
    ensures Marked(Step(s, Timer))
  {
    hide StubStep, ControllerStep, LogCalls, LogGrants, LogQuota, UnqueueBody, FreeJunkBody, Exited;
  }

  lemma {:induction false} MarkedAlways(max: nat, threads: nat, ls: seq<Label>)
    ensures Marked(Run(Init(max, threads), ls))
  {
    hide Run, Step, Inv;
    RunLast(Init(max, threads), ls);
    if ls != [] {
      hide Init, Marked;
      var prefix := ls[..|ls| - 1];
      MarkedAlways(max, threads, prefix);
      InvAlways(max, threads, prefix);
      MarkedStep(Run(Init(max, threads), prefix), ls[|ls| - 1]);
    }
  }

  /**
  In every run: while a token is left, every queued ticket was issued after the pass of the last
  refill had ended. So no call passes by a waiter that was queued when that pass ended.
  */
  lemma TokensPassOnlyLateWaiters(max: nat, threads: nat, ls: seq<Label>, k: nat)
    requires k < |Run(Init(max, threads), ls).g.q.waiting|
    ensures var s := Run(Init(max, threads), ls);
      && 0 <= Removed(s) && Removed(s) + k < |s.elems.enqueued|
      && s.elems.enqueued[Removed(s) + k] == s.g.q.waiting[k]
      && (s.g.tokens > 0 ==> Removed(s) + k >= s.marks.refill)
      && (Removed(s) + k < s.marks.refill ==> s.g.tokens <= 0)
  {
    hide Run, Init;
    MarkedAlways(max, threads, ls);
    StrictFifo(max, threads, ls);
  }
}
