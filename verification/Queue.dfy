/**
The wait queue of sysThrot_queue.c.

`QueueModel` gives every critical section of the file as a function on a value,
one loop iteration at a time: these are the atomic steps of the protocol in
Protocol.dfy. `WaitQueue` is the queue itself, a class whose methods run the loops
and are proved to compute the iterated steps.
 */
module QueueModel {
  import opened Lists

  /** The fields of `struct _queue_elem` that are not list links. */
  datatype Elem = Elem(wakeUp: bool, exited: bool)

  /**
  `waiting` is `global_queue`, `junk` is `junk_list`, `heap` holds exactly the elements
  that are allocated and not yet freed and `inQueue` is `current_in_queue`. Allocation
  hands out the number `next`, so a use of a freed element is never hidden by reuse of
  its address; every such use raises `fault`.
  */
  datatype Queue = Queue(
    waiting: seq<nat>, junk: seq<nat>, heap: map<nat, Elem>,
    inQueue: int, next: nat, fault: bool)

  const EMPTY_QUEUE := Queue([], [], map[], 0, 0, false)

  predicate Exited(q: Queue, e: nat) { e in q.heap && q.heap[e].exited }

  predicate Flagged(q: Queue, e: nat) { e in q.heap && q.heap[e].wakeUp }

  function Use(q: Queue, e: nat): Queue { q.(fault := q.fault || e !in q.heap) }

  function SetFlag(q: Queue, e: nat): Queue {
    Use(q, e).(heap := if e in q.heap then q.heap[e := q.heap[e].(wakeUp := true)] else q.heap)
  }

  /** `set_exited_flag` */
  function SetExited(q: Queue, e: nat): Queue {
    Use(q, e).(heap := if e in q.heap then q.heap[e := q.heap[e].(exited := true)] else q.heap)
  }

  /** `kmem_cache_alloc` and the two initialising stores of `add_to_queue` */
  function Alloc(q: Queue): Queue {
    q.(heap := q.heap[q.next := Elem(false, false)], next := q.next + 1)
  }

  /** `kmem_cache_free` */
  function Free(q: Queue, e: nat): Queue { Use(q, e).(heap := q.heap - {e}) }

  /** The locked part of `add_to_queue`, monitor on */
  function Enqueue(q: Queue, e: nat): Queue {
    q.(waiting := q.waiting + [e], inQueue := q.inQueue + 1)
  }

  function HeadToJunk(q: Queue): Queue
    requires q.waiting != []
  {
    q.(waiting := q.waiting[1..], junk := q.junk + [q.waiting[0]])
  }

  /** Does the loop of `unqueue` go on? */
  predicate UnqueueMore(q: Queue, missing: int) {
    q.waiting != [] && (Exited(q, q.waiting[0]) || missing > 0)
  }

  /** One iteration of the loop of `unqueue` */
  function UnqueueBody(q: Queue, missing: int): (Queue, int)
    requires UnqueueMore(q, missing)
  {
    var e := q.waiting[0];
    if Exited(q, e)
    then (HeadToJunk(Use(q, e)).(inQueue := q.inQueue - 1), missing)
    else (HeadToJunk(SetFlag(q, e)), missing - 1)
  }

  /**
  The mark of another waiter's exit, or of the head's own, may fall anywhere after the loop has
  read the head's mark: before the flag is set, before the node moves, or after the iteration.
  */
  lemma MarkCommutes(q: Queue, missing: int, e: nat)
    requires UnqueueMore(q, missing) && !Exited(q, q.waiting[0]) && q.waiting[0] in q.heap && e in q.heap
    ensures var head, after := q.waiting[0], SetExited(UnqueueBody(q, missing).0, e);
      && HeadToJunk(SetFlag(SetExited(q, e), head)) == after
      && HeadToJunk(SetExited(SetFlag(q, head), e)) == after
  {
    var head := q.waiting[0];
    assert SetFlag(SetExited(q, e), head).heap == SetExited(SetFlag(q, head), e).heap;
  }

  /** The whole loop of `unqueue` */
  function UnqueueLoop(q: Queue, missing: int): (Queue, int)
    decreases |q.waiting|
  {
    if UnqueueMore(q, missing) then
      var (q', missing') := UnqueueBody(q, missing);
      UnqueueLoop(q', missing')
    else (q, missing)
  }

  /** The adjustment after the loop of `unqueue`, which last looked at the head that stays */
  function UnqueueEnd(q: Queue, n: int, missing: int): Queue {
    (if q.waiting == [] then q else Use(q, q.waiting[0])).(inQueue := q.inQueue - (n - missing))
  }

  /** `unqueue(n)` without interference: the new queue and the number of grants */
  function Unqueue(q: Queue, n: int): (Queue, int) {
    var (q', missing) := UnqueueLoop(q, n);
    (UnqueueEnd(q', n, missing), n - missing)
  }

  /** One iteration of the loop of `free_junk`: the element at `i` is freed or passed over */
  function FreeJunkBody(q: Queue, i: nat): (Queue, nat)
    requires i < |q.junk|
  {
    var e := q.junk[i];
    if Exited(q, e)
    then (Free(q.(junk := q.junk[..i] + q.junk[i + 1..]), e), i)
    else (Use(q, e), i + 1)
  }

  function FreeJunkFrom(q: Queue, i: nat): Queue
    decreases |q.junk| - i
  {
    if i < |q.junk| then
      var (q', i') := FreeJunkBody(q, i);
      FreeJunkFrom(q', i')
    else q
  }

  /** The flag loop of `wake_up_queue` */
  function WakeFrom(q: Queue, i: nat): Queue
    decreases |q.waiting| - i
  {
    if i < |q.waiting| then WakeFrom(SetFlag(q, q.waiting[i]), i + 1) else q
  }

  /** `list_splice_tail_init` and the counter reset of `wake_up_queue` */
  function Splice(q: Queue): Queue {
    q.(waiting := [], junk := q.junk + q.waiting, inQueue := 0)
  }

  function Live(q: Queue, es: seq<nat>): nat {
    if es == [] then 0 else Live(q, es[1..]) + (if Exited(q, es[0]) then 0 else 1)
  }

  /** No element is listed twice, every listed element is allocated, no access faulted. */
  ghost predicate SafeLists(q: Queue) {
    && NoDup(q.waiting)
    && NoDup(q.junk)
    && (forall e :: e in q.waiting ==> e in q.heap && e !in q.junk)
    && (forall e :: e in q.junk ==> e in q.heap)
    && (forall e :: e in q.heap ==> e < q.next)
    && !q.fault
  }

  /** What holds whenever the queue lock is free. */
  ghost predicate WellFormed(q: Queue) {
    SafeLists(q) && q.inQueue == |q.waiting|
  }

  lemma {:induction false} LiveDependsOnExited(q: Queue, q': Queue, es: seq<nat>)
    requires forall e :: e in es ==> Exited(q, e) == Exited(q', e)
    ensures Live(q, es) == Live(q', es)
  {
    if es != [] {
      assert es[0] in es;
      LiveDependsOnExited(q, q', es[1..]);
    }
  }

  /** The element `e` once the non-exited members of `es` have been granted */
  function GrantedIn(q: Queue, es: seq<nat>, e: nat): Elem
    requires e in q.heap
  {
    if e in es && !q.heap[e].exited then q.heap[e].(wakeUp := true) else q.heap[e]
  }

  /**
  What `unqueue`'s loop leaves behind, for any number `missing` still to be granted:
  a prefix of length `k` has moved to the junk list in order, exactly its non-exited
  elements got the flag, they number min(missing, live waiters), and the loop stopped
  only because the queue is empty or an unexited head found no grant left.
  */
  ghost predicate UnqueuedPrefix(q: Queue, missing: int, q': Queue, missing': int, k: nat) {
    && Moved(q, q', k)
    && HeapGranted(q, q', k)
    && Counted(q, missing, q', missing', k)
  }

  ghost predicate Moved(q: Queue, q': Queue, k: nat) {
    && k <= |q.waiting|
    && q'.waiting == q.waiting[k..]
    && q'.junk == q.junk + q.waiting[..k]
    && q'.next == q.next
    && q'.fault == q.fault
  }

  ghost predicate HeapGranted(q: Queue, q': Queue, k: nat)
    requires k <= |q.waiting|
  {
    && q'.heap.Keys == q.heap.Keys
    && forall e :: e in q.heap ==> q'.heap[e] == GrantedIn(q, q.waiting[..k], e)
  }

  ghost predicate Counted(q: Queue, missing: int, q': Queue, missing': int, k: nat)
    requires k <= |q.waiting|
  {
    && missing - missing' == Live(q, q.waiting[..k])
    && missing - missing' == Min(Max(missing, 0), Live(q, q.waiting))
    && q'.inQueue == q.inQueue - (k - (missing - missing'))
    && (k == |q.waiting| || (missing' <= 0 && !Exited(q, q.waiting[k])))
  }

  function Min(a: int, b: int): int { if a < b then a else b }
  function Max(a: int, b: int): int { if a < b then b else a }

  lemma {:induction false} UnqueueLoopGrants(q: Queue, missing: int) returns (k: nat)
    requires NoDup(q.waiting)
    requires forall e :: e in q.waiting ==> e in q.heap
    ensures UnqueuedPrefix(q, missing, UnqueueLoop(q, missing).0, UnqueueLoop(q, missing).1, k)
    decreases |q.waiting|
  {
    if UnqueueMore(q, missing) {
      var (q1, missing1) := UnqueueBody(q, missing);
      var (q', missing') := UnqueueLoop(q1, missing1);
      assert q.waiting[0] in q.waiting;
      var k1 := UnqueueLoopGrants(q1, missing1);
      k := k1 + 1;
      MoveStep(q, missing, q', k1);
      GrantStep(q, missing, q', k1);
      CountStep(q, missing, q', missing', k1);
    } else {
      k := 0;
    }
  }

  lemma MoveStep(q: Queue, missing: int, q': Queue, k1: nat)
    requires UnqueueMore(q, missing) && q.waiting[0] in q.heap
    requires Moved(UnqueueBody(q, missing).0, q', k1)
    ensures Moved(q, q', k1 + 1)
  {
    var e, rest := q.waiting[0], q.waiting[1..];
    assert q.waiting[..k1 + 1] == [e] + rest[..k1];
    assert (q.junk + [e]) + rest[..k1] == q.junk + ([e] + rest[..k1]);
  }

  lemma GrantStep(q: Queue, missing: int, q': Queue, k1: nat)
    requires UnqueueMore(q, missing) && NoDup(q.waiting) && q.waiting[0] in q.heap
    requires k1 < |q.waiting|
    requires HeapGranted(UnqueueBody(q, missing).0, q', k1)
    ensures HeapGranted(q, q', k1 + 1)
  {
    var q1 := UnqueueBody(q, missing).0;
    var e := q.waiting[0];
    assert q.waiting[..k1 + 1] == [e] + q1.waiting[..k1];
    forall x | x in q.heap ensures q'.heap[x] == GrantedIn(q, q.waiting[..k1 + 1], x) {
      assert x in q1.heap;
    }
  }

  lemma CountStep(q: Queue, missing: int, q': Queue, missing': int, k1: nat)
    requires UnqueueMore(q, missing) && q.waiting[0] in q.heap
    requires k1 < |q.waiting|
    requires var (q1, missing1) := UnqueueBody(q, missing); Counted(q1, missing1, q', missing', k1)
    ensures Counted(q, missing, q', missing', k1 + 1)
  {
    var q1 := UnqueueBody(q, missing).0;
    assert q.waiting[..k1 + 1][1..] == q1.waiting[..k1];
    LiveDependsOnExited(q, q1, q1.waiting[..k1]);
    LiveDependsOnExited(q, q1, q1.waiting);
  }

  /** The members of `es` that `free_junk` passes over, in order */
  function Kept(q: Queue, es: seq<nat>): seq<nat> {
    if es == [] then [] else (if Exited(q, es[0]) then [] else [es[0]]) + Kept(q, es[1..])
  }

  ghost function Dead(q: Queue, es: seq<nat>): set<nat> { set e | e in es && Exited(q, e) }

  lemma {:induction false} KeptDependsOnExited(q: Queue, q': Queue, es: seq<nat>)
    requires forall e :: e in es ==> Exited(q, e) == Exited(q', e)
    ensures Kept(q, es) == Kept(q', es) && Dead(q, es) == Dead(q', es)
  {
    if es != [] {
      assert es[0] in es;
      KeptDependsOnExited(q, q', es[1..]);
    }
  }

  lemma {:induction false} KeptMembers(q: Queue, es: seq<nat>)
    requires NoDup(es)
    ensures forall e :: e in Kept(q, es) <==> e in es && !Exited(q, e)
    ensures NoDup(Kept(q, es))
  {
    if es != [] {
      KeptMembers(q, es[1..]);
      assert es == [es[0]] + es[1..];
    }
  }

  /** `q'` is `q` without the exited junk from index `i` on, the list otherwise in order. */
  ghost predicate FreedFrom(q: Queue, i: nat, q': Queue)
    requires i <= |q.junk|
  {
    && q'.junk == q.junk[..i] + Kept(q, q.junk[i..])
    && q'.heap == q.heap - Dead(q, q.junk[i..])
    && q' == q.(junk := q'.junk, heap := q'.heap)
  }

  /** `free_junk` frees exactly the exited junk and keeps the rest of the list in order. */
  lemma {:induction false} FreeJunkExact(q: Queue, i: nat)
    requires i <= |q.junk| && NoDup(q.junk)
    requires forall e :: e in q.junk ==> e in q.heap
    ensures FreedFrom(q, i, FreeJunkFrom(q, i))
    decreases |q.junk| - i
  {
    hide FreedFrom, NoDup;
    if i < |q.junk| {
      var (q1, i1) := FreeJunkBody(q, i);
      assert q.junk[i] in q.junk;
      FreeJunkKeepsLists(q, i);
      FreeJunkExact(q1, i1);
      if Exited(q, q.junk[i]) {
        FreeStep(q, i, FreeJunkFrom(q1, i1));
      } else {
        KeepStep(q, i, FreeJunkFrom(q1, i1));
      }
    } else {
      FreedNothing(q);
    }
  }

  lemma FreeJunkKeepsLists(q: Queue, i: nat)
    requires i < |q.junk| && NoDup(q.junk) && forall e :: e in q.junk ==> e in q.heap
    ensures var q1 := FreeJunkBody(q, i).0; NoDup(q1.junk) && forall e :: e in q1.junk ==> e in q1.heap
  {
  }

  lemma FreedNothing(q: Queue)
    ensures FreedFrom(q, |q.junk|, q)
  {
    assert q.junk[..|q.junk|] == q.junk;
  }

  lemma FreeStep(q: Queue, i: nat, q': Queue)
    requires i < |q.junk| && NoDup(q.junk) && Exited(q, q.junk[i])
    requires FreedFrom(FreeJunkBody(q, i).0, i, q')
    ensures FreedFrom(q, i, q')
  {
    var q1 := FreeJunkBody(q, i).0;
    var e, rest := q.junk[i], q.junk[i + 1..];
    assert q1.junk[..i] == q.junk[..i] && q1.junk[i..] == rest;
    assert q.junk[i..][0] == e && q.junk[i..][1..] == rest;
    KeptDependsOnExited(q, q1, rest);
    assert Dead(q, q.junk[i..]) == {e} + Dead(q, rest);
  }

  lemma KeepStep(q: Queue, i: nat, q': Queue)
    requires i < |q.junk| && q.junk[i] in q.heap && !Exited(q, q.junk[i])
    requires FreedFrom(FreeJunkBody(q, i).0, i + 1, q')
    ensures FreedFrom(q, i, q')
  {
    var e, rest := q.junk[i], q.junk[i + 1..];
    assert FreeJunkBody(q, i).0 == q;
    assert q.junk[i..][0] == e && q.junk[i..][1..] == rest;
    assert q.junk[..i + 1] + Kept(q, rest) == q.junk[..i] + ([e] + Kept(q, rest));
    assert Dead(q, q.junk[i..]) == Dead(q, rest);
  }

  /** The flag loop of `wake_up_queue` flags exactly the waiting elements. */
  lemma {:induction false} WakeExact(q: Queue, i: nat)
    requires i <= |q.waiting|
    requires forall e :: e in q.waiting ==> e in q.heap
    ensures WakeFrom(q, i) == q.(heap := WakeFrom(q, i).heap)
    ensures WakeFrom(q, i).heap.Keys == q.heap.Keys
    ensures forall e :: e in q.heap ==>
      WakeFrom(q, i).heap[e] == if e in q.waiting[i..] then q.heap[e].(wakeUp := true) else q.heap[e]
    decreases |q.waiting| - i
  {
    if i < |q.waiting| {
      assert q.waiting[i] in q.waiting;
      assert q.waiting[i..] == [q.waiting[i]] + q.waiting[i + 1..];
      WakeExact(SetFlag(q, q.waiting[i]), i + 1);
    }
  }
}
