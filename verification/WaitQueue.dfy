/**
The queue of sysThrot_queue.c as an object. Each method runs the loop of the C function
and is proved to compute the corresponding function of `QueueModel`; what those functions
mean is proved there and repeated in the contracts.
 */
module WaitQueues {
  import opened Lists
  import opened QueueModel

  datatype Added = NoMemory | MonitorOff | Waiting(e: nat)

  class WaitQueue {
    var waiting: seq<nat>
    var junk: seq<nat>
    var heap: map<nat, Elem>
    var inQueue: int
    var next: nat

    ghost function View(): (q: Queue)
      reads this
    {
      Queue(waiting, junk, heap, inQueue, next, false)
    }

    ghost predicate Valid()
      reads this
    {
      WellFormed(View())
    }

    constructor ()
      ensures Valid() && View() == EMPTY_QUEUE
    {
      waiting, junk, heap, inQueue, next := [], [], map[], 0, 0;
    }

    /** `add_to_queue`; `ok` is the allocator's answer and `working` is read under the lock. */
    method AddToQueue(ok: bool, working: bool) returns (r: Added)
      requires Valid()
      modifies this
      ensures Valid()
      ensures (r.NoMemory? <==> !ok) && (r.MonitorOff? <==> ok && !working)
      ensures r.NoMemory? ==> View() == old(View())
      ensures r.MonitorOff? ==> View() == Free(Alloc(old(View())), old(next))
      ensures r.Waiting? ==> r.e == old(next) && View() == Enqueue(Alloc(old(View())), r.e)
    {
      if !ok {
        return NoMemory;
      }
      var e := next;
      heap, next := heap[e := Elem(false, false)], next + 1;
      if !working {
        heap := heap - {e};
        return MonitorOff;
      }
      NoDupConcat(waiting, [e]);
      inQueue := inQueue + 1;
      waiting := waiting + [e];
      return Waiting(e);
    }

    /** `unqueue` */
    method UnqueueUpTo(n: int) returns (granted: int, ghost k: nat)
      requires Valid()
      modifies this
      ensures Valid()
      ensures (View(), granted) == Unqueue(old(View()), n)
      ensures UnqueuedPrefix(old(View()), n, UnqueueLoop(old(View()), n).0, UnqueueLoop(old(View()), n).1, k)
    {
      hide UnqueuedPrefix, UnqueueLoop, NoDup;
      ghost var q0 := View();
      var missing := n;
      k := UnqueueLoopGrants(q0, n);
      while waiting != []
        invariant UnqueueLoop(View(), missing) == UnqueueLoop(q0, n)
        invariant forall e :: e in waiting ==> e in heap
        decreases |waiting|
      {
        ghost var q := View();
        UnqueueUnfold(q, missing);
        var e := waiting[0];
        assert e in waiting;
        if heap[e].exited {
          junk := junk + [e];
          waiting := waiting[1..];
          inQueue := inQueue - 1;
          assert View() == UnqueueBody(q, missing).0;
          continue;
        }
        if missing <= 0 {
          break;
        }
        heap := heap[e := heap[e].(wakeUp := true)];
        junk := junk + [e];
        waiting := waiting[1..];
        assert View() == UnqueueBody(q, missing).0;
        missing := missing - 1;
      }
      UnqueueUnfold(View(), missing);
      inQueue := inQueue - (n - missing);
      granted := n - missing;
      UnqueueKeepsWellFormed(q0, n);
    }

    /** `free_junk` */
    method FreeJunk()
      requires Valid()
      modifies this
      ensures Valid()
      ensures View() == FreeJunkFrom(old(View()), 0)
      ensures FreedFrom(old(View()), 0, View())
    {
      hide FreedFrom, FreeJunkFrom, WellFormed;
      ghost var q0 := View();
      assert NoDup(junk) && forall e :: e in junk ==> e in heap by { JunkIsSafe(q0); }
      FreeJunkExact(q0, 0);
      var i := 0;
      while i < |junk|
        invariant i <= |junk|
        invariant FreeJunkFrom(View(), i) == FreeJunkFrom(q0, 0)
        invariant NoDup(junk) && forall e :: e in junk ==> e in heap
        decreases |junk| - i
      {
        ghost var q := View();
        FreeJunkUnfold(q, i);
        var e := junk[i];
        assert e in junk;
        if heap[e].exited {
          junk := junk[..i] + junk[i + 1..];
          heap := heap - {e};
          assert (View(), i) == FreeJunkBody(q, i);
        } else {
          assert (View(), i + 1) == FreeJunkBody(q, i);
          i := i + 1;
        }
      }
      FreeJunkUnfold(View(), i);
      FreeKeepsWellFormed(q0, View());
    }

    /** `set_exited_flag` */
    method MarkExited(e: nat)
      requires Valid() && e in heap
      modifies this
      ensures Valid() && View() == SetExited(old(View()), e)
    {
      heap := heap[e := heap[e].(exited := true)];
    }

    /** `wake_up_queue` */
    method WakeUpQueue() returns (count: nat)
      requires Valid()
      modifies this
      ensures Valid()
      ensures View() == Splice(WakeFrom(old(View()), 0))
      ensures waiting == [] && junk == old(junk + waiting) && count == |old(waiting)|
      ensures forall e :: e in old(waiting) ==> Flagged(View(), e)
    {
      ghost var q0 := View();
      WakeExact(q0, 0);
      count := 0;
      while count < |waiting|
        invariant count <= |waiting| && waiting == q0.waiting && junk == q0.junk
        invariant WakeFrom(View(), count) == WakeFrom(q0, 0)
        invariant forall e :: e in waiting ==> e in heap
      {
        ghost var q := View();
        var e := waiting[count];
        assert e in waiting;
        heap := heap[e := heap[e].(wakeUp := true)];
        assert View() == SetFlag(q, e);
        count := count + 1;
      }
      NoDupConcat(junk, waiting);
      junk := junk + waiting;
      waiting := [];
      inQueue := 0;
      assert q0.waiting[0..] == q0.waiting;
    }
  }

  /** After `unqueue` the list is well formed again: `current_in_queue` is its length. */
  lemma UnqueueKeepsWellFormed(q: Queue, n: int)
    requires WellFormed(q)
    ensures WellFormed(Unqueue(q, n).0)
  {
    var k := UnqueueLoopGrants(q, n);
    var q' := Unqueue(q, n).0;
    NoDupConcat(q.junk, q.waiting[..k]);
    forall e | e in q'.junk ensures e in q'.heap {
      assert e in q.junk || e in q.waiting;
    }
  }

  lemma UnqueueUnfold(q: Queue, missing: int)
    ensures UnqueueLoop(q, missing) ==
      if UnqueueMore(q, missing) then UnqueueLoop(UnqueueBody(q, missing).0, UnqueueBody(q, missing).1)
      else (q, missing)
  {}

  lemma JunkIsSafe(q: Queue)
    requires WellFormed(q)
    ensures NoDup(q.junk) && forall e :: e in q.junk ==> e in q.heap
  {}

  lemma FreeJunkUnfold(q: Queue, i: nat)
    ensures FreeJunkFrom(q, i) ==
      if i < |q.junk| then FreeJunkFrom(FreeJunkBody(q, i).0, FreeJunkBody(q, i).1) else q
  {}

  /** Freeing the exited junk leaves both lists well formed. */
  lemma FreeKeepsWellFormed(q: Queue, q': Queue)
    requires WellFormed(q) && FreedFrom(q, 0, q')
    ensures WellFormed(q')
  {
    KeptMembers(q, q.junk);
    assert q.junk[0..] == q.junk;
  }
}
