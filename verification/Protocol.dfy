/**
The throttling protocol of sysThrot.c as a transition system: any number of threads run
`stub` while the epoch timer runs `timer_callback` and one controller runs
`sysThrot_turn_on` and `sysThrot_turn_off`. `Step` is total: a step that is not enabled leaves
the state alone, so every sequence of labels is a run and every run of the module is such a
sequence.

An access to shared memory is a step of its own, except inside the critical sections of
queue_lock and junk_lock, where two kinds of accesses are merged:
- one iteration of `unqueue` reads the exited mark, sets the flag and moves the node. Others
  do not see the lists while the lock is held; the only concurrent access to the element is
  its waiter's, which may set the mark between the read and the move. `QueueModel.MarkCommutes`
  shows that the result is then the same as with the mark set after the iteration;
- `add_to_queue` reads `working` and appends the node. Only turn-off can write `working` in
  between, it does not look at the lists before it takes the lock, and `ClearCommutes` shows that
  the result is the same as with the append before that write.
 */
module Protocol {
  import opened Lists
  import opened QueueModel

  datatype Outcome = Unregistered | ByToken | MonitorOff | Granted | Aborted

  /** Where a thread is inside `stub`; `e` is the queue element it allocated. */
  datatype Pc =
    | Outside                            // not in stub, or about to test working (line 271)
    | Tested                             // tested, not yet counted (line 274)
    | Entered                            // counted, before the membership check (line 275)
    | Registered                         // before the token decrement (line 281)
    | NoToken                            // before the allocation in add_to_queue
    | Allocated(e: nat)                  // before the locked part of add_to_queue
    | Discarding(e: nat)                 // monitor was off: before kmem_cache_free
    | ReadWorking(e: nat)                // wait condition, first operand (line 296)
    | ReadFlag(e: nat)                   // wait condition, second operand
    | Retest(e: nat, interrupted: bool)  // before re-reading working (line 297)
    | Marking(e: nat, interrupted: bool) // before set_exited_flag (line 298)
    | Reporting(o: Outcome)              // before sysThrot_add_blocked or sysThrot_add_aborted
    | Leaving(o: Outcome)                // before the final atomic_dec

  /** Where the timer is inside `timer_callback`. */
  datatype Tick =
    | Idle
    | Unqueueing(missing: int)
    | Accounting(granted: int)           // before update_epoch_stats
    | Advancing(granted: int)            // before the increment of epoch
    | Refilling(granted: int)            // before the store to current_epoch_tokens
    | Rearming                           // before the test of working and mod_timer
    | Reclaiming(i: nat)                 // inside free_junk

  /** Where the controller is inside `sysThrot_turn_on` or `sysThrot_turn_off`. */
  datatype Control =
    | Off | Arming | Starting            // init_queue done; timer armed
    | On | Stopping                      // working cleared; waiting in timer_shutdown_sync
    | Waking(i: nat)                     // inside the loop of wake_up_queue
    | Draining                           // waiting for threads_in_module to read zero
    | Destroying(i: nat)                 // inside free_junk, called by destroy_queue
    | Destroyed                          // before kmem_cache_destroy

  /** The memory the actors share, and where the timer and the controller are. */
  datatype Shared = Shared(
    max: nat,                  // max_syscalls_for_epoch
    working: bool,
    tokens: int,               // current_epoch_tokens
    inModule: int,             // threads_in_module
    epoch: nat,
    q: Queue,
    cacheLive: bool,           // queue_cache exists
    cacheFault: bool,          // queue_cache was used while it did not exist
    pending: bool,             // the timer is armed
    tick: Tick,
    control: Control)

  /** `queue_lock` is held by a loop of the timer or of the controller. */
  predicate QueueLocked(g: Shared) { g.tick.Unqueueing? || g.control.Waking? }

  function UseCache(g: Shared): Shared { g.(cacheFault := g.cacheFault || !g.cacheLive) }

  /** One step of `stub` for a thread at `pc`; `b` resolves membership, allocation or a signal. */
  function StubStep(g: Shared, pc: Pc, b: bool): (Shared, Pc) {
    match pc
    case Outside => (g, if g.working then Tested else Outside)
    case Tested => (g.(inModule := g.inModule + 1), Entered)
    case Entered => (g, if b then Registered else Leaving(Unregistered))
    case Registered =>
      (g.(tokens := g.tokens - 1), if g.tokens - 1 >= 0 then Leaving(ByToken) else NoToken)
    case NoToken =>
      if b then (UseCache(g).(q := Alloc(g.q)), Allocated(g.q.next))
      else (UseCache(g), Reporting(Aborted))
    case Allocated(e) =>
      if QueueLocked(g) then (g, pc)
      else if !g.working then (g, Discarding(e))
      else (g.(q := Enqueue(g.q, e)), ReadWorking(e))
    case Discarding(e) => (UseCache(g).(q := Free(g.q, e)), Leaving(MonitorOff))
    case ReadWorking(e) => (g, if g.working then ReadFlag(e) else Retest(e, false))
    case ReadFlag(e) =>
      (g.(q := Use(g.q, e)),
       if Flagged(g.q, e) then Retest(e, false) else if b then Retest(e, true) else ReadWorking(e))
    case Retest(e, interrupted) =>
      (g, if g.working then Marking(e, interrupted) else Leaving(MonitorOff))
    case Marking(e, interrupted) =>
      (g.(q := SetExited(g.q, e)), Reporting(if interrupted then Aborted else Granted))
    case Reporting(o) => (g, Leaving(o))
    case Leaving(_) => (g.(inModule := g.inModule - 1), Outside)
  }

  /** One step of `timer_callback` */
  function TimerStep(g: Shared): Shared {
    match g.tick
    case Idle => if g.pending then g.(pending := false, tick := Unqueueing(g.max)) else g
    case Unqueueing(missing) =>
      if UnqueueMore(g.q, missing) then
        var (q', missing') := UnqueueBody(g.q, missing);
        g.(q := q', tick := Unqueueing(missing'))
      else g.(q := UnqueueEnd(g.q, g.max, missing), tick := Accounting(g.max - missing))
    case Accounting(granted) => g.(tick := Advancing(granted))
    case Advancing(granted) => g.(tick := Refilling(granted), epoch := g.epoch + 1)
    case Refilling(granted) => g.(tick := Rearming, tokens := g.max - granted)
    case Rearming => g.(tick := Reclaiming(0), pending := g.pending || g.working)
    case Reclaiming(i) =>
      if i < |g.q.junk| then
        var (q', i') := FreeJunkBody(g.q, i);
        g.(q := q', tick := Reclaiming(i'))
      else g.(tick := Idle)
  }

  /** One step of `sysThrot_turn_on` or `sysThrot_turn_off` */
  function ControllerStep(g: Shared): Shared {
    match g.control
    case Off => g.(control := Arming, cacheLive := true)
    case Arming => g.(control := Starting, pending := true)
    case Starting => g.(control := On, working := true)
    case On => g.(control := Stopping, working := false)
    case Stopping => if g.tick.Idle? then g.(control := Waking(0), pending := false) else g
    case Waking(i) =>
      if i < |g.q.waiting| then g.(q := SetFlag(g.q, g.q.waiting[i]), control := Waking(i + 1))
      else g.(q := Splice(g.q), control := Draining)
    case Draining => if g.inModule > 0 then g else g.(control := Destroying(0))
    case Destroying(i) =>
      if i < |g.q.junk| then
        var (q', i') := FreeJunkBody(g.q, i);
        g.(q := q', control := Destroying(i'))
      else g.(control := Destroyed)
    case Destroyed => g.(control := Off, cacheLive := false)
  }

  /** Clearing `working` between the two accesses of `add_to_queue` is the same as clearing it after them. */
  lemma ClearCommutes(g: Shared, e: nat, b: bool)
    requires g.working && g.control.On? && !QueueLocked(g)
    ensures var cleared := ControllerStep(g);
      && !cleared.working && StubStep(g, Allocated(e), b).1 == ReadWorking(e)
      && cleared.(q := Enqueue(cleared.q, e)) == ControllerStep(StubStep(g, Allocated(e), b).0)
  {
  }

  // ---------------------------------------------------------------------------------------
  // What has happened so far. The module does not store it and no step depends on it.

  datatype ElemLog = ElemLog(
    enqueued: seq<nat>,        // every element ever enqueued; the position is its ticket
    owner: map<nat, nat>,      // the thread that allocated an element
    leftOff: set<nat>)         // elements whose waiters left through line 300

  datatype GrantLog = GrantLog(
    tickets: seq<int>,         // tickets granted by `unqueue`, in the order of the grants
    granted: set<nat>,         // the elements behind those tickets
    admitted: seq<nat>)        // elements whose waiters passed line 298 with result 0

  datatype QuotaLog = QuotaLog(
    begun: nat,                // calls of `unqueue`
    refills: nat,              // stores to current_epoch_tokens
    grants: nat,               // waiters granted
    settled: int,              // waiters granted by ticks that reached their refill
    lastGrants: int,           // waiters granted by the tick of the last refill
    byToken: nat,              // admissions by token
    byTokenInEpoch: nat)       // the same, since the last refill

  datatype Tally = Tally(unregistered: nat, byToken: nat, monitorOff: nat, granted: nat, aborted: nat) {
    function Total(): nat { unregistered + byToken + monitorOff + granted + aborted }

    function Add(o: Outcome): Tally {
      match o
      case Unregistered => this.(unregistered := unregistered + 1)
      case ByToken => this.(byToken := byToken + 1)
      case MonitorOff => this.(monitorOff := monitorOff + 1)
      case Granted => this.(granted := granted + 1)
      case Aborted => this.(aborted := aborted + 1)
    }
  }

  datatype CallLog = CallLog(
    entered: nat,              // increments of threads_in_module
    done: Tally,               // completed calls by outcome
    blockedReports: nat,       // calls of sysThrot_add_blocked
    abortReports: nat)         // calls of sysThrot_add_aborted

  datatype MarkLog = MarkLog(
    passEnd: nat,              // tickets issued when the last pass of `unqueue` ended
    refill: nat)               // the same, for the pass of the last refill

  datatype State = State(
    g: Shared, threads: seq<Pc>, elems: ElemLog, grants: GrantLog, quota: QuotaLog, calls: CallLog, marks: MarkLog)

  datatype Label = Thread(t: nat, b: bool) | Timer | Controller

  function PcOf(s: State, l: Label): Pc { if l.Thread? && l.t < |s.threads| then s.threads[l.t] else Outside }

  function LogElems(s: State, l: Label): ElemLog {
    match PcOf(s, l)
    case NoToken => if l.b then s.elems.(owner := s.elems.owner[s.g.q.next := l.t]) else s.elems
    case Allocated(e) =>
      if !QueueLocked(s.g) && s.g.working then s.elems.(enqueued := s.elems.enqueued + [e]) else s.elems
    case Retest(e, _) =>
      if s.g.working then s.elems else s.elems.(leftOff := s.elems.leftOff + {e})
    case _ => s.elems
  }

  /** The iteration of `unqueue` about to happen grants the head of the queue. */
  predicate Grants(g: Shared, l: Label) {
    && l.Timer? && g.tick.Unqueueing?
    && UnqueueMore(g.q, g.tick.missing) && !Exited(g.q, g.q.waiting[0])
  }

  function LogGrants(s: State, l: Label): GrantLog {
    if Grants(s.g, l) then
      s.grants.(tickets := s.grants.tickets + [|s.elems.enqueued| - |s.g.q.waiting|],
                granted := s.grants.granted + {s.g.q.waiting[0]})
    else
      match PcOf(s, l)
      case Marking(e, interrupted) =>
        if interrupted then s.grants else s.grants.(admitted := s.grants.admitted + [e])
      case _ => s.grants
  }

  function LogQuota(s: State, l: Label): QuotaLog {
    if Grants(s.g, l) then s.quota.(grants := s.quota.grants + 1)
    else if l.Timer? && s.g.tick.Idle? && s.g.pending then s.quota.(begun := s.quota.begun + 1)
    else if l.Timer? && s.g.tick.Refilling? then
      var granted := s.g.tick.granted;
      s.quota.(refills := s.quota.refills + 1, settled := s.quota.settled + granted,
               lastGrants := granted, byTokenInEpoch := 0)
    else if PcOf(s, l).Registered? && s.g.tokens - 1 >= 0 then
      s.quota.(byToken := s.quota.byToken + 1, byTokenInEpoch := s.quota.byTokenInEpoch + 1)
    else s.quota
  }

  function LogCalls(calls: CallLog, pc: Pc): CallLog {
    match pc
    case Tested => calls.(entered := calls.entered + 1)
    case Reporting(o) =>
      if o == Aborted then calls.(abortReports := calls.abortReports + 1)
      else calls.(blockedReports := calls.blockedReports + 1)
    case Leaving(o) => calls.(done := calls.done.Add(o))
    case _ => calls
  }

  function LogMarks(s: State, l: Label): MarkLog {
    if !l.Timer? then s.marks
    else if s.g.tick.Unqueueing? && !UnqueueMore(s.g.q, s.g.tick.missing)
    then s.marks.(passEnd := |s.elems.enqueued|)
    else if s.g.tick.Refilling? then s.marks.(refill := s.marks.passEnd)
    else s.marks
  }

  // ---------------------------------------------------------------------------------------
  // Runs

  function NextShared(s: State, l: Label): Shared {
    match l
    case Thread(t, b) => if t < |s.threads| then StubStep(s.g, s.threads[t], b).0 else s.g
    case Timer => TimerStep(s.g)
    case Controller => ControllerStep(s.g)
  }

  function NextThreads(s: State, l: Label): seq<Pc> {
    if l.Thread? && l.t < |s.threads|
    then s.threads[l.t := StubStep(s.g, s.threads[l.t], l.b).1]
    else s.threads
  }

  function Step(s: State, l: Label): State {
    State(NextShared(s, l), NextThreads(s, l),
          LogElems(s, l), LogGrants(s, l), LogQuota(s, l), LogCalls(s.calls, PcOf(s, l)), LogMarks(s, l))
  }

  /** The state after `sysThrot_init` has stored its constants and before it turns the monitor on */
  function Init(max: nat, threads: nat): State {
    State(
      Shared(max, false, 0, 0, 0, EMPTY_QUEUE, false, false, false, Idle, Off),
      seq(threads, _ => Outside),
      ElemLog([], map[], {}), GrantLog([], {}, []), QuotaLog(0, 0, 0, 0, 0, 0, 0),
      CallLog(0, Tally(0, 0, 0, 0, 0), 0, 0), MarkLog(0, 0))
  }

  /** `trace` lists the states of the run `ls` from `s`, first and last included. */
  ghost predicate Trace(s: State, ls: seq<Label>, trace: seq<State>) {
    && |trace| == |ls| + 1 && trace[0] == s
    && forall i {:trigger ls[i]} :: 0 <= i < |ls| ==> trace[i + 1] == Step(trace[i], ls[i])
  }

  lemma {:induction false} TraceExists(s: State, ls: seq<Label>)
    ensures exists trace :: Trace(s, ls, trace)
  {
    hide Step;
    if ls == [] {
      assert Trace(s, ls, [s]);
    } else {
      var front := ls[..|ls| - 1];
      TraceExists(s, front);
      var trace :| Trace(s, front, trace);
      var all := trace + [Step(trace[|front|], ls[|front|])];
      forall i | 0 <= i < |ls| ensures all[i + 1] == Step(all[i], ls[i]) {
        if i < |front| {
          assert front[i] == ls[i];
        }
      }
      assert Trace(s, ls, all);
    }
  }

  ghost function TraceOf(s: State, ls: seq<Label>): (trace: seq<State>)
    ensures Trace(s, ls, trace)
  {
    TraceExists(s, ls);
    var trace :| Trace(s, ls, trace);
    trace
  }

  /** The state after the run `ls` from `s` */
  ghost function Run(s: State, ls: seq<Label>): State { TraceOf(s, ls)[|ls|] }

  lemma {:induction false} TraceIsUnique(s: State, ls: seq<Label>, a: seq<State>, b: seq<State>, i: nat)
    requires Trace(s, ls, a) && Trace(s, ls, b) && i <= |ls|
    ensures a[i] == b[i]
  {
    hide Step;
    if i > 0 {
      TraceIsUnique(s, ls, a, b, i - 1);
      assert ls[i - 1] == ls[i - 1];
    }
  }

  /** A run ends with the last step. */
  lemma RunLast(s: State, ls: seq<Label>)
    ensures Run(s, ls) == if ls == [] then s else Step(Run(s, ls[..|ls| - 1]), ls[|ls| - 1])
  {
    hide Step;
    var trace := TraceOf(s, ls);
    if ls != [] {
      var front := ls[..|ls| - 1];
      assert Trace(s, front, trace[..|ls|]) by {
        forall i | 0 <= i < |front| ensures trace[..|ls|][i + 1] == Step(trace[..|ls|][i], front[i]) {
          assert ls[i] == front[i];
        }
      }
      TraceIsUnique(s, front, TraceOf(s, front), trace[..|ls|], |front|);
    }
  }
}
