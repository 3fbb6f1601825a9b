/**
The concurrent store of sysThrot_store.c: any number of readers look values up under
rcu_read_lock while any number of writers clone the published map, change the clone, publish
it, drop the write lock, wait for a grace period and free the map they replaced, all in one
heap. A grace period ends when every read-side section that was open when it began has been
closed. Cloning, changing the clone and freeing a map are one step each: they write only memory
that no other thread can reach, which `RcuSafety` proves, and read only memory nobody writes.
 */
module RcuStore {
  import opened CuckooTable
  import opened StoreModel
  import opened RcuHeap

  datatype ReaderPc<V> =
    | Outside
    | Locked(v: V)                             // after rcu_read_lock
    | Loaded(v: V, p: nat, was: bool)          // after rcu_dereference; `was` records the truth
    | Missed(v: V, p: nat, was: bool)          // the first probe of `contains` failed
    | Answered(was: bool, found: bool)         // before rcu_read_unlock

  datatype Reader<V> = Reader(pc: ReaderPc<V>, section: nat)

  datatype WriterPc<V> =
    | Idle
    | Checking(op: Op<V>)                      // holds write_lock, before `contains`
    | Copying(op: Op<V>, prev: nat)            // before clone_map
    | Cloned(op: Op<V>, prev: nat, copy: nat)  // before `insert` or `remove`
    | Ready(op: Op<V>, prev: nat, copy: nat)   // before rcu_assign_pointer
    | Published(prev: nat)                     // before mutex_unlock
    | Unlocked(prev: nat)                      // before synchronize_rcu
    | Waiting(prev: nat, open: set<(nat, nat)>) // readers and sections it waits for
    | Reclaiming(prev: nat)                    // before destroy_map

  datatype Rcu<V> = Rcu(
    published: nat,
    h: Heap<V>,
    lock: bool,                                // write_lock
    readers: seq<Reader<V>>,
    writers: seq<WriterPc<V>>,
    fault: bool,                               // freed memory was used or freed again
    log: seq<(Op<V>, Code)>,                   // finished updates, at the moment they took effect
    retiredBy: map<nat, nat>)                  // which writer replaced a map

  datatype Label<V> =
    | Enter(r: nat, v: V)                      // rcu_read_lock for a lookup of v
    | Read(r: nat)                             // the next step of reader r
    | Begin(w: nat, op: Op<V>)                 // mutex_lock
    | Write(w: nat)                            // the next step of writer w
    | Clone(w: nat, c: Table<Ref>, items: map<nat, V>, nextItem: nat) // clone_map succeeds
    | Fail(w: nat)                             // clone_map or the allocation of an item fails

  // ---------------------------------------------------------------------------------------
  // Accesses

  /** The structure of map `k` and the item in `slot` of it are dereferenced. */
  predicate Reads<V>(h: Heap<V>, k: nat, slot: Slot<Ref>) {
    k in h.maps && (slot.Used? ==> slot.entry.ptr in h.items)
  }

  /** The slot of the first table, and of the second, that `contains` looks at */
  function Slot1<V>(h: Heap<V>, keyOf: V -> bv32, k: nat, v: V): Slot<Ref> {
    if k in h.maps && Shaped(h.maps[k]) then h.maps[k].t0[RefHash1(Ref(keyOf(v), 0))] else Free
  }

  function Slot2<V>(h: Heap<V>, keyOf: V -> bv32, k: nat, v: V): Slot<Ref> {
    if k in h.maps && Shaped(h.maps[k]) then h.maps[k].t1[RefHash2(Ref(keyOf(v), 0))] else Free
  }

  /** `contains` */
  predicate Finds<V(==)>(h: Heap<V>, keyOf: V -> bv32, k: nat, v: V) {
    Matches(Slot1(h, keyOf, k, v), h.items, v) || Matches(Slot2(h, keyOf, k, v), h.items, v)
  }

  predicate ReadsBoth<V>(h: Heap<V>, keyOf: V -> bv32, k: nat, v: V) {
    Reads(h, k, Slot1(h, keyOf, k, v)) && Reads(h, k, Slot2(h, keyOf, k, v))
  }

  function Check<V>(s: Rcu<V>, ok: bool): Rcu<V> { s.(fault := s.fault || !ok) }

  ghost predicate Registers<V>(h: Heap<V>, k: nat, v: V) { k in h.maps && v in SetOf(h, k) }

  // ---------------------------------------------------------------------------------------
  // Readers

  function SetReader<V>(s: Rcu<V>, r: nat, pc: ReaderPc<V>): Rcu<V>
    requires r < |s.readers|
  {
    s.(readers := s.readers[r := s.readers[r].(pc := pc)])
  }

  /** One step of `find_user_in_store` or `find_program_in_store` */
  ghost function ReaderStep<V>(s: Rcu<V>, keyOf: V -> bv32, r: nat): Rcu<V>
    requires r < |s.readers|
  {
    match s.readers[r].pc
    case Outside => s
    case Locked(v) => SetReader(s, r, Loaded(v, s.published, Registers(s.h, s.published, v)))
    case Loaded(v, p, was) =>
      var slot := Slot1(s.h, keyOf, p, v);
      SetReader(Check(s, Reads(s.h, p, slot)), r,
                if Matches(slot, s.h.items, v) then Answered(was, true) else Missed(v, p, was))
    case Missed(v, p, was) =>
      var slot := Slot2(s.h, keyOf, p, v);
      SetReader(Check(s, Reads(s.h, p, slot)), r, Answered(was, Matches(slot, s.h.items, v)))
    case Answered(_, _) =>
      s.(readers := s.readers[r := Reader(Outside, s.readers[r].section + 1)])
  }

  /** The sections that are open now */
  ghost function OpenSections<V>(readers: seq<Reader<V>>): set<(nat, nat)> {
    set r | 0 <= r < |readers| && !readers[r].pc.Outside? :: (r, readers[r].section)
  }

  // ---------------------------------------------------------------------------------------
  // Writers

  function SetWriter<V>(s: Rcu<V>, w: nat, pc: WriterPc<V>): Rcu<V>
    requires w < |s.writers|
  {
    s.(writers := s.writers[w := pc])
  }

  /** The update ends with an error code and the lock is dropped. */
  function GiveUp<V>(s: Rcu<V>, w: nat, op: Op<V>, code: Code): Rcu<V>
    requires w < |s.writers|
  {
    SetWriter(s, w, Idle).(lock := false, log := s.log + [(op, code)])
  }

  /** `destroy_map` */
  ghost function Destroy<V>(s: Rcu<V>, k: nat): Rcu<V> { Check(s, CanDrop(s.h, k)).(h := Drop(s.h, k)) }

  /** `contains` on the published map, and the branch on its result */
  ghost function CheckStep<V>(s: Rcu<V>, keyOf: V -> bv32, w: nat, op: Op<V>): Rcu<V>
    requires w < |s.writers|
  {
    var found := Finds(s.h, keyOf, s.published, op.v);
    var s' := Check(s, ReadsBoth(s.h, keyOf, s.published, op.v));
    if op.Add? == found then GiveUp(s', w, op, if found then EExist else EInval)
    else SetWriter(s', w, Copying(op, s.published))
  }

  /** The item is allocated and `insert` or `remove` changes the clone; an error destroys the clone. */
  ghost function ChangeStep<V>(s: Rcu<V>, keyOf: V -> bv32, w: nat, op: Op<V>, prev: nat, copy: nat): Rcu<V>
    requires w < |s.writers|
  {
    if !(copy in s.h.maps && Shaped(s.h.maps[copy])) then Check(s, false)
    else
      var r := Change(s.h, keyOf, copy, op);
      var s' := Check(s, ReadsBoth(s.h, keyOf, copy, op.v)).(h := Altered(s.h, copy, r, NextItem(s.h, op)));
      if r.code == Ok then SetWriter(s', w, Ready(op, prev, copy))
      else GiveUp(Destroy(s', copy), w, op, if op.Add? then ENoSpc else EInval)
  }

  /** One step of a writer whose choice is not open */
  ghost function WriterStep<V>(s: Rcu<V>, keyOf: V -> bv32, w: nat): Rcu<V>
    requires w < |s.writers|
  {
    match s.writers[w]
    case Idle => s
    case Checking(op) => CheckStep(s, keyOf, w, op)
    case Copying(_, _) => s
    case Cloned(op, prev, copy) => ChangeStep(s, keyOf, w, op, prev, copy)
    case Ready(op, prev, copy) =>
      SetWriter(s, w, Published(prev)).(
        published := copy, log := s.log + [(op, Ok)], retiredBy := s.retiredBy[prev := w])
    case Published(prev) => SetWriter(s, w, Unlocked(prev)).(lock := false)
    case Unlocked(prev) => SetWriter(s, w, Waiting(prev, OpenSections(s.readers)))
    case Waiting(prev, open) =>
      if open * OpenSections(s.readers) == {} then SetWriter(s, w, Reclaiming(prev)) else s
    case Reclaiming(prev) => SetWriter(Destroy(s, prev), w, Idle)
  }

  /** clone_map reads every slot and item of the map it copies. */
  ghost function CloneStep<V>(s: Rcu<V>, w: nat, c: Table<Ref>, items: map<nat, V>, nextItem: nat): Rcu<V>
    requires w < |s.writers| && s.writers[w].Copying?
  {
    var op, prev := s.writers[w].op, s.writers[w].prev;
    if !(prev in s.h.maps && Ptrs(s.h.maps[prev]) <= s.h.items.Keys) then Check(s, false)
    else if FreshClone(s.h.maps[prev], s.h.items, s.h.nextItem, c, items, nextItem)
    then SetWriter(s, w, Cloned(op, prev, s.h.nextMap)).(h := WithClone(s.h, c, items, nextItem))
    else s
  }

  ghost function FailStep<V>(s: Rcu<V>, w: nat): Rcu<V>
    requires w < |s.writers|
  {
    var pc := s.writers[w];
    if pc.Copying? then GiveUp(s, w, pc.op, ENoMem)
    else if pc.Cloned? && pc.op.Add? then GiveUp(Destroy(s, pc.copy), w, pc.op, ENoMem)
    else s
  }

  // ---------------------------------------------------------------------------------------
  // Runs

  ghost function Step<V>(s: Rcu<V>, keyOf: V -> bv32, l: Label<V>): Rcu<V> {
    match l
    case Enter(r, v) =>
      if r < |s.readers| && s.readers[r].pc.Outside? then SetReader(s, r, Locked(v)) else s
    case Read(r) => if r < |s.readers| then ReaderStep(s, keyOf, r) else s
    case Begin(w, op) =>
      if w < |s.writers| && s.writers[w].Idle? && !s.lock
      then SetWriter(s, w, Checking(op)).(lock := true) else s
    case Write(w) => if w < |s.writers| then WriterStep(s, keyOf, w) else s
    case Clone(w, c, items, nextItem) =>
      if w < |s.writers| && s.writers[w].Copying? then CloneStep(s, w, c, items, nextItem) else s
    case Fail(w) => if w < |s.writers| then FailStep(s, w) else s
  }

  ghost function Run<V>(s: Rcu<V>, keyOf: V -> bv32, ls: seq<Label<V>>): Rcu<V> {
    if ls == [] then s else Step(Run(s, keyOf, ls[..|ls| - 1]), keyOf, ls[|ls| - 1])
  }

  /** A store with one map and its items, and nobody at work */
  function Init<V>(m: Table<Ref>, items: map<nat, V>, nextItem: nat, readers: nat, writers: nat): Rcu<V> {
    Rcu(0, Heap(map[0 := m], items, 1, nextItem), false,
        seq(readers, _ => Reader(Outside, 0)), seq(writers, _ => Idle), false, [], map[])
  }
}
