/**
Why a call ends as it does. What a thread sees on its way through `stub` is written down at
the moment it sees it, and its outcome is proved to be the one that these observations call for.
 */
module Verdicts {
  import opened QueueModel
  import opened Protocol

  /** What a thread has seen: each answer as it was when the thread asked */
  datatype Seen = Seen(
    registered: bool,          // check_if_registered
    token: bool,               // a token was left
    memory: bool,              // the element was allocated
    onWhenQueueing: bool,      // `working`, under the queue lock
    signalled: bool,           // the wait was given up for a signal, with the flag clear
    onAfterWait: bool)         // `working`, after the wait

  const NOTHING := Seen(false, false, false, false, false, false)

  /** The outcome that a thread with these observations deserves */
  function Verdict(o: Seen): Outcome {
    if !o.registered then Unregistered
    else if o.token then ByToken
    else if !o.memory then Aborted
    else if !o.onWhenQueueing || !o.onAfterWait then MonitorOff
    else if o.signalled then Aborted
    else Granted
  }

  /** What a thread at `pc` sees in its next step */
  function Look(o: Seen, g: Shared, pc: Pc, b: bool): Seen {
    match pc
    case Entered => o.(registered := b)
    case Registered => o.(token := g.tokens > 0)
    case NoToken => o.(memory := b)
    case Allocated(_) => if QueueLocked(g) then o else o.(onWhenQueueing := g.working)
    case ReadWorking(_) => if g.working then o else o.(signalled := false)
    case ReadFlag(e) => o.(signalled := b && !Flagged(g.q, e))
    case Retest(_, _) => o.(onAfterWait := g.working)
    case _ => o
  }

  /** The thread was counted, is registered, found no token and has an element. */
  predicate Waiter(o: Seen) { o.registered && !o.token && o.memory }

  /** Where a thread is agrees with what it has seen. */
  predicate Agrees(pc: Pc, o: Seen) {
    match pc
    case Outside => true
    case Tested => true
    case Entered => true
    case Registered => o.registered
    case NoToken => o.registered && !o.token
    case Allocated(_) => Waiter(o)
    case Discarding(_) => Waiter(o) && !o.onWhenQueueing
    case ReadWorking(_) => Waiter(o) && o.onWhenQueueing
    case ReadFlag(_) => Waiter(o) && o.onWhenQueueing
    case Retest(_, interrupted) => Waiter(o) && o.onWhenQueueing && interrupted == o.signalled
    case Marking(_, interrupted) => Waiter(o) && o.onWhenQueueing && o.onAfterWait && interrupted == o.signalled
    case Reporting(outcome) => outcome == Verdict(o)
    case Leaving(outcome) => outcome == Verdict(o)
  }

  lemma StubAgrees(g: Shared, pc: Pc, b: bool, o: Seen)
    requires Agrees(pc, o)
    ensures Agrees(StubStep(g, pc, b).1, Look(o, g, pc, b))
  {
    hide Alloc, Enqueue, Free, Use, SetExited;
  }

  /** What thread `t` has seen at the end of a run, about the call it is in */
  ghost function Watch(s: State, ls: seq<Label>, t: nat): Seen {
    if ls == [] then NOTHING
    else
      var prefix, l := ls[..|ls| - 1], ls[|ls| - 1];
      var o, s1 := Watch(s, prefix, t), Run(s, prefix);
      if l.Thread? && l.t == t && t < |s1.threads| then Look(o, s1.g, s1.threads[t], l.b) else o
  }

  /**
  In every run, a thread on its way out has the outcome that it deserves by what it has seen, a
  thread that asks for a token is registered, and a thread that queues found no token.
   */
  lemma {:induction false} OutcomesHaveCauses(max: nat, threads: nat, ls: seq<Label>, t: nat)
    requires t < threads
    ensures var s := Run(Init(max, threads), ls); |s.threads| == threads
    ensures var s, o := Run(Init(max, threads), ls), Watch(Init(max, threads), ls, t);
      && Agrees(s.threads[t], o)
      && (s.threads[t].Leaving? ==> s.threads[t].o == Verdict(o))
  {
    hide Run, Agrees, StubStep;
    var init := Init(max, threads);
    RunLast(init, ls);
    if ls == [] {
      assert Agrees(Outside, NOTHING) by { StartsOutside(); }
    } else {
      var prefix, l := ls[..|ls| - 1], ls[|ls| - 1];
      OutcomesHaveCauses(max, threads, prefix, t);
      var s1 := Run(init, prefix);
      if l.Thread? && l.t == t {
        StubAgrees(s1.g, s1.threads[t], l.b, Watch(init, prefix, t));
      }
    }
    LeavingAgrees(Run(init, ls).threads[t], Watch(init, ls, t));
  }

  lemma StartsOutside()
    ensures Agrees(Outside, NOTHING)
  {}

  lemma LeavingAgrees(pc: Pc, o: Seen)
    requires Agrees(pc, o)
    ensures pc.Leaving? ==> pc.o == Verdict(o)
  {}

  /** A call that is not registered takes no token and no element: it goes straight out. */
  lemma UnregisteredPassesBy(g: Shared)
    ensures StubStep(g, Entered, false) == (g, Leaving(Unregistered))
    ensures StubStep(g, Leaving(Unregistered), false) == (g.(inModule := g.inModule - 1), Outside)
  {}
}
