/**
The life cycle of queue elements, cut out of the protocol: who allocated an element, which
list it is on, who may still touch it and who frees it. Protocol steps project onto the
actions below (ProtocolInvariant.dfy), so `ActKeepsOwnership` is the memory safety of the
queue in every run.
 */
module Memory {
  import opened Lists
  import opened QueueModel
  import opened Protocol

  datatype Mem = Mem(
    q: Queue,
    enqueued: seq<nat>,
    owner: map<nat, nat>,
    leftOff: set<nat>,
    threads: seq<Pc>)

  /** `pc` is where thread `t` goes. */
  datatype Action =
    | Stay
    | Move(t: nat, pc: Pc)     // no access to an element
    | Read(t: nat, pc: Pc)     // a waiter reads its flag
    | AllocBy(t: nat)
    | EnqueueBy(t: nat)
    | DiscardBy(t: nat, pc: Pc)
    | AbandonBy(t: nat, pc: Pc)
    | MarkBy(t: nat, pc: Pc)
    | Unlist(missing: int)     // one iteration of unqueue
    | Look(count: int)         // unqueue stops at the head and stores current_in_queue
    | FlagAt(i: nat)
    | SpliceAll
    | FreeAt(i: nat)           // one iteration of free_junk

  /** The thread allocated `pc.e` and has not enqueued it. */
  predicate Private(pc: Pc) { pc.Allocated? || pc.Discarding? }

  /** The thread enqueued `pc.e` and may still read its flag or write its exited mark. */
  predicate Waits(pc: Pc) { pc.ReadWorking? || pc.ReadFlag? || pc.Retest? || pc.Marking? }

  predicate HasElem(pc: Pc) { Private(pc) || Waits(pc) }

  predicate SameHold(pc: Pc, pc': Pc) {
    && Private(pc) == Private(pc')
    && Waits(pc) == Waits(pc')
    && (HasElem(pc) ==> pc.e == pc'.e)
  }

  predicate Enabled(m: Mem, a: Action) {
    match a
    case Stay => true
    case Move(t, pc) => t < |m.threads| && SameHold(m.threads[t], pc)
    case Read(t, pc) => t < |m.threads| && SameHold(m.threads[t], pc) && Waits(pc)
    case AllocBy(t) => t < |m.threads| && !HasElem(m.threads[t])
    case EnqueueBy(t) => t < |m.threads| && m.threads[t].Allocated?
    case DiscardBy(t, pc) => t < |m.threads| && Private(m.threads[t]) && !HasElem(pc)
    case AbandonBy(t, pc) => t < |m.threads| && Waits(m.threads[t]) && !HasElem(pc)
    case MarkBy(t, pc) => t < |m.threads| && Waits(m.threads[t]) && !HasElem(pc)
    case Unlist(missing) => UnqueueMore(m.q, missing)
    case Look(_) => true
    case FlagAt(i) => i < |m.q.waiting|
    case SpliceAll => true
    case FreeAt(i) => i < |m.q.junk|
  }

  function Act(m: Mem, a: Action): Mem
    requires Enabled(m, a)
  {
    match a
    case Stay => m
    case Move(t, pc) => m.(threads := m.threads[t := pc])
    case Read(t, pc) => m.(q := Use(m.q, pc.e), threads := m.threads[t := pc])
    case AllocBy(t) =>
      m.(q := Alloc(m.q), owner := m.owner[m.q.next := t],
         threads := m.threads[t := Allocated(m.q.next)])
    case EnqueueBy(t) =>
      var e := m.threads[t].e;
      m.(q := Enqueue(m.q, e), enqueued := m.enqueued + [e], threads := m.threads[t := ReadWorking(e)])
    case DiscardBy(t, pc) => m.(q := Free(m.q, m.threads[t].e), threads := m.threads[t := pc])
    case AbandonBy(t, pc) => m.(leftOff := m.leftOff + {m.threads[t].e}, threads := m.threads[t := pc])
    case MarkBy(t, pc) => m.(q := SetExited(m.q, m.threads[t].e), threads := m.threads[t := pc])
    case Unlist(missing) => m.(q := UnqueueBody(m.q, missing).0)
    case Look(count) =>
      m.(q := (if m.q.waiting == [] then m.q else Use(m.q, m.q.waiting[0])).(inQueue := count))
    case FlagAt(i) => m.(q := SetFlag(m.q, m.q.waiting[i]))
    case SpliceAll => m.(q := Splice(m.q))
    case FreeAt(i) => m.(q := FreeJunkBody(m.q, i).0)
  }

  predicate Listed(q: Queue, e: nat) { e in q.waiting || e in q.junk }

  /** The waiting list is what is left of the enqueue log after a prefix has been removed. */
  ghost predicate Fifo(m: Mem) {
    && |m.q.waiting| <= |m.enqueued|
    && m.q.waiting == m.enqueued[|m.enqueued| - |m.q.waiting|..]
    && NoDup(m.enqueued)
    && (forall e :: e in m.enqueued ==> e < m.q.next)
    && (forall e :: e in m.q.junk ==> e in m.enqueued)
  }

  predicate HeldBy(m: Mem, t: nat, e: nat)
    requires t < |m.threads|
  {
    && e in m.q.heap && !m.q.heap[e].exited && e !in m.leftOff
    && e in m.owner && m.owner[e] == t
    && (if Private(m.threads[t]) then e !in m.enqueued else Listed(m.q, e))
  }

  /** A held element is allocated, unexited and held by the one thread that allocated it. */
  ghost predicate HeldOnce(m: Mem) {
    forall t :: 0 <= t < |m.threads| && HasElem(m.threads[t]) ==> HeldBy(m, t, m.threads[t].e)
  }

  predicate HasOwner(m: Mem, e: nat) {
    && e in m.owner && m.owner[e] < |m.threads|
    && HasElem(m.threads[m.owner[e]]) && m.threads[m.owner[e]].e == e
  }

  /** Every allocated element is exited, abandoned by the off path, or held. */
  ghost predicate Accounted(m: Mem) {
    && (forall e :: e in m.q.heap ==> m.q.heap[e].exited || e in m.leftOff || HasOwner(m, e))
    && (forall e :: e in m.q.heap && (m.q.heap[e].exited || e in m.enqueued) ==> Listed(m.q, e))
    && (forall e :: e in m.leftOff ==> Listed(m.q, e) && e in m.q.heap && !m.q.heap[e].exited)
  }

  ghost predicate Ownership(m: Mem) {
    SafeLists(m.q) && Fifo(m) && HeldOnce(m) && Accounted(m)
  }

  lemma MoveKeeps(m: Mem, t: nat, pc: Pc)
    requires Ownership(m) && Enabled(m, Move(t, pc))
    ensures Ownership(Act(m, Move(t, pc)))
  {
  }

  lemma ReadKeeps(m: Mem, t: nat, pc: Pc)
    requires Ownership(m) && Enabled(m, Read(t, pc))
    ensures Ownership(Act(m, Read(t, pc)))
  {
    assert HeldBy(m, t, pc.e);
    MoveKeeps(m, t, pc);
  }

  lemma AllocKeeps(m: Mem, t: nat)
    requires Ownership(m) && Enabled(m, AllocBy(t))
    ensures Ownership(Act(m, AllocBy(t)))
  {
  }

  lemma EnqueueKeeps(m: Mem, t: nat)
    requires Ownership(m) && Enabled(m, EnqueueBy(t))
    ensures Ownership(Act(m, EnqueueBy(t)))
  {
    var e := m.threads[t].e;
    HolderIsKnown(m, t);
    var m' := Act(m, EnqueueBy(t));
    assert SafeLists(m'.q) && Fifo(m') by {
      NoDupConcat(m.q.waiting, [e]);
      NoDupConcat(m.enqueued, [e]);
    }
    EnqueuedKeeps(m, m', t, e);
  }

  lemma EnqueuedKeeps(m: Mem, m': Mem, t: nat, e: nat)
    requires Ownership(m) && t < |m.threads| && m.threads[t] == Allocated(e) && HeldBy(m, t, e)
    requires SafeLists(m'.q) && Fifo(m') && m'.owner == m.owner && m'.leftOff == m.leftOff
    requires m'.q.waiting == m.q.waiting + [e] && m'.q.junk == m.q.junk && m'.q.heap == m.q.heap
    requires m'.enqueued == m.enqueued + [e] && m'.threads == m.threads[t := ReadWorking(e)]
    ensures Ownership(m')
  {
  }

  /** Thread `t` lets go of its element `e` and goes to `pc`. */
  ghost predicate LetsGo(m: Mem, m': Mem, t: nat, e: nat, pc: Pc) {
    && t < |m.threads| && HeldBy(m, t, e)
    && HasElem(m.threads[t]) && m.threads[t].e == e
    && !HasElem(pc) && m'.threads == m.threads[t := pc]
    && m'.enqueued == m.enqueued && m'.owner == m.owner
  }

  lemma DiscardKeeps(m: Mem, m': Mem, t: nat, e: nat, pc: Pc)
    requires Ownership(m) && LetsGo(m, m', t, e, pc) && Private(m.threads[t])
    requires m'.q == m.q.(heap := m.q.heap - {e}) && m'.leftOff == m.leftOff
    ensures Ownership(m')
  {
  }

  lemma AbandonKeeps(m: Mem, m': Mem, t: nat, e: nat, pc: Pc)
    requires Ownership(m) && LetsGo(m, m', t, e, pc) && Waits(m.threads[t])
    requires m'.q == m.q && m'.leftOff == m.leftOff + {e}
    ensures Ownership(m')
  {
    hide SafeLists, NoDup;
  }

  lemma MarkKeeps(m: Mem, m': Mem, t: nat, e: nat, pc: Pc)
    requires Ownership(m) && LetsGo(m, m', t, e, pc) && Waits(m.threads[t])
    requires m'.q == m.q.(heap := m.q.heap[e := m.q.heap[e].(exited := true)])
    requires m'.leftOff == m.leftOff
    ensures Ownership(m')
  {
    hide NoDup;
  }

  lemma HolderIsKnown(m: Mem, t: nat)
    requires Ownership(m) && t < |m.threads| && HasElem(m.threads[t])
    ensures HeldBy(m, t, m.threads[t].e)
  {
  }

  lemma UnlistKeeps(m: Mem, missing: int)
    requires Ownership(m) && Enabled(m, Unlist(missing))
    ensures Ownership(Act(m, Unlist(missing)))
  {
    hide HeldOnce, Accounted;
    var m' := Act(m, Unlist(missing));
    HeadToJunkKeepsLists(m.q);
    assert forall e :: e in m'.q.junk ==> Listed(m.q, e);
    ReshuffleKeeps(m, m');
  }

  /** Lists may be rearranged and flags set as long as nothing is lost, freed or marked. */
  lemma ReshuffleKeeps(m: Mem, m': Mem)
    requires Ownership(m) && SafeLists(m'.q) && Fifo(m') && m' == m.(q := m'.q)
    requires m'.q.heap.Keys == m.q.heap.Keys
    requires forall e :: e in m.q.heap ==> m'.q.heap[e].exited == m.q.heap[e].exited
    requires forall e :: Listed(m'.q, e) <==> Listed(m.q, e)
    ensures Ownership(m')
  {
  }

  lemma HeadToJunkKeepsLists(q: Queue)
    requires SafeLists(q) && q.waiting != []
    ensures q.waiting[0] in q.heap
    ensures SafeLists(HeadToJunk(q))
    ensures forall e :: Listed(HeadToJunk(q), e) <==> Listed(q, e)
  {
    var e := q.waiting[0];
    assert e in q.waiting && q.waiting == [e] + q.waiting[1..];
    NoDupConcat(q.junk, [e]);
  }

  lemma LookKeeps(m: Mem, count: int)
    requires Ownership(m)
    ensures Ownership(Act(m, Look(count)))
  {
    hide HeldOnce, Accounted;
    assert m.q.waiting != [] ==> m.q.waiting[0] in m.q.waiting;
    ReshuffleKeeps(m, Act(m, Look(count)));
  }

  lemma FlagKeeps(m: Mem, i: nat)
    requires Ownership(m) && Enabled(m, FlagAt(i))
    ensures Ownership(Act(m, FlagAt(i)))
  {
    hide HeldOnce, Accounted;
    assert m.q.waiting[i] in m.q.waiting;
    FlagKeepsLists(m.q, m.q.waiting[i]);
    ReshuffleKeeps(m, Act(m, FlagAt(i)));
  }

  lemma FlagKeepsLists(q: Queue, e: nat)
    requires SafeLists(q) && e in q.heap
    ensures SafeLists(SetFlag(q, e))
    ensures SetFlag(q, e) == q.(heap := SetFlag(q, e).heap) && SetFlag(q, e).heap.Keys == q.heap.Keys
    ensures forall x :: x in q.heap ==> SetFlag(q, e).heap[x].exited == q.heap[x].exited
  {
  }

  lemma SpliceKeeps(m: Mem)
    requires Ownership(m)
    ensures Ownership(Act(m, SpliceAll))
  {
    hide HeldOnce, Accounted;
    NoDupConcat(m.q.junk, m.q.waiting);
    ReshuffleKeeps(m, Act(m, SpliceAll));
  }

  lemma FreeKeeps(m: Mem, i: nat)
    requires Ownership(m) && Enabled(m, FreeAt(i))
    ensures Ownership(Act(m, FreeAt(i)))
  {
    hide HeldOnce, Accounted;
    assert m.q.junk[i] in m.q.junk;
    if Exited(m.q, m.q.junk[i]) {
      FreeKeepsLists(m.q, i);
      FreedKeeps(m, Act(m, FreeAt(i)), m.q.junk[i]);
    } else {
      assert Act(m, FreeAt(i)) == m;
    }
  }

  lemma FreedKeeps(m: Mem, m': Mem, e: nat)
    requires Ownership(m) && Exited(m.q, e) && m' == m.(q := m'.q)
    requires SafeLists(m'.q) && Fifo(m')
    requires m'.q.heap == m.q.heap - {e}
    requires forall x :: Listed(m'.q, x) <==> Listed(m.q, x) && x != e
    ensures Ownership(m')
  {
  }

  lemma FreeKeepsLists(q: Queue, i: nat)
    requires SafeLists(q) && i < |q.junk| && Exited(q, q.junk[i])
    ensures SafeLists(FreeJunkBody(q, i).0)
    ensures forall e :: Listed(FreeJunkBody(q, i).0, e) <==> Listed(q, e) && e != q.junk[i]
  {
    assert q.junk == q.junk[..i] + [q.junk[i]] + q.junk[i + 1..];
  }

  /** Every action keeps every element's life cycle in order. */
  lemma ActKeepsOwnership(m: Mem, a: Action)
    requires Ownership(m) && Enabled(m, a)
    ensures Ownership(Act(m, a))
  {
    hide Ownership;
    match a
    case Stay =>
    case Move(t, pc) => MoveKeeps(m, t, pc);
    case Read(t, pc) => ReadKeeps(m, t, pc);
    case AllocBy(t) => AllocKeeps(m, t);
    case EnqueueBy(t) => EnqueueKeeps(m, t);
    case DiscardBy(t, pc) =>
      HolderIsKnown(m, t);
      DiscardKeeps(m, Act(m, a), t, m.threads[t].e, pc);
    case AbandonBy(t, pc) =>
      HolderIsKnown(m, t);
      AbandonKeeps(m, Act(m, a), t, m.threads[t].e, pc);
    case MarkBy(t, pc) =>
      HolderIsKnown(m, t);
      MarkKeeps(m, Act(m, a), t, m.threads[t].e, pc);
    case Unlist(missing) => UnlistKeeps(m, missing);
    case Look(count) => LookKeeps(m, count);
    case FlagAt(i) => FlagKeeps(m, i);
    case SpliceAll => SpliceKeeps(m);
    case FreeAt(i) => FreeKeeps(m, i);
  }
}
