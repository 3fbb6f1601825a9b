/**
The operations of `Stores.Store` and the transition system of `RcuStore` are the same code: an
update that the store performs is a run of one writer, from any reachable state in which no
read-side section is open; and a clone that the system may adopt always exists.
 */
module RcuRefinement {
  import opened CuckooTable
  import opened StoreModel
  import Stores
  import opened Room
  import opened RcuHeap
  import opened RcuStore
  import opened RcuSafety

  // ---------------------------------------------------------------------------------------
  // One update of the store is a run

  /** What matters of a state for the update of writer `w` */
  ghost predicate Shows<V>(s: Rcu<V>, base: Rcu<V>, w: nat, pc: WriterPc<V>, h: Heap<V>) {
    && w < |s.writers| && s.writers[w] == pc && s.h == h && (s.lock <==> HasLock(pc))
    && s.published == base.published && s.log == base.log && s.readers == base.readers
  }

  /** The labels are all steps of writer `w`. */
  predicate ByWriter<V>(ls: seq<Label<V>>, w: nat) {
    forall i :: 0 <= i < |ls| ==> !ls[i].Enter? && !ls[i].Read? && ls[i].w == w
  }

  lemma RunAppend<V>(s: Rcu<V>, keyOf: V -> bv32, ls: seq<Label<V>>, l: Label<V>)
    ensures Run(s, keyOf, ls + [l]) == Step(Run(s, keyOf, ls), keyOf, l)
  {
    hide Step;
    assert (ls + [l])[..|ls|] == ls;
  }

  /** mutex_lock and `contains`, up to the decision */
  lemma Decides<V>(s: Rcu<V>, keyOf: V -> bv32, start: set<V>, w: nat, op: Op<V>)
    requires Inv(s, keyOf, start) && w < |s.writers| && s.writers[w].Idle? && !s.lock
    ensures Shaped(s.h.maps[s.published])
    ensures var s2 := Step(Step(s, keyOf, Begin(w, op)), keyOf, Write(w));
      var found := Probe(s.h.maps[s.published], s.h.items, keyOf(op.v), op.v);
      if op.Add? == found
      then Shows(s2, s.(log := s.log + [(op, if found then EExist else EInval)]), w, Idle, s.h)
      else Shows(s2, s, w, Copying(op, s.published), s.h)
  {
    hide Sound, SetOf, Linear, NoLeak, Readers, Matches, ReadsBoth, CuckooHash.Hash1, CuckooHash.Hash2;
    MapIsShaped(s.h, keyOf, s.published);
  }

  lemma Adopts<V>(
      s: Rcu<V>, base: Rcu<V>, keyOf: V -> bv32, w: nat, op: Op<V>, c: Table<Ref>, items: map<nat, V>, next: nat)
    requires Shows(s, base, w, Copying(op, base.published), base.h) && Sound(base.h, keyOf)
    requires base.published in base.h.maps
    requires FreshClone(base.h.maps[base.published], base.h.items, base.h.nextItem, c, items, next)
    ensures Shows(Step(s, keyOf, Clone(w, c, items, next)), base, w,
                  Cloned(op, base.published, base.h.nextMap), WithClone(base.h, c, items, next))
  {
    hide FreshClone, Sound, Ptrs;
    OthersAreLive(base.h, keyOf, base.published);
  }

  /** From the clone to the end, when the change succeeds and no reader is in the way */
  lemma Finishes<V>(s: Rcu<V>, base: Rcu<V>, keyOf: V -> bv32, w: nat, op: Op<V>, h: Heap<V>, copy: nat)
      returns (ls: seq<Label<V>>)
    requires Shows(s, base, w, Ready(op, base.published, copy), h) && OpenSections(base.readers) == {}
    ensures ByWriter(ls, w)
    ensures var s' := Run(s, keyOf, ls);
      Shows(s', base.(published := copy, log := base.log + [(op, Ok)]), w, Idle, Drop(h, base.published))
  {
    hide Step;
    var l := Write(w);
    ls := [l, l, l, l, l];
    FiveSteps(s, keyOf, l);
    var s1 := Step(s, keyOf, l);
    var done := base.(published := copy, log := base.log + [(op, Ok)]);
    assert Shows(s1, done, w, Published(base.published), h) by { Publishes(s, base, keyOf, w, op, h, copy); }
    var s2 := Step(s1, keyOf, l);
    Retiring(s1, done, keyOf, w, base.published, h);
    var s3 := Step(s2, keyOf, l);
    Retiring(s2, done, keyOf, w, base.published, h);
    var s4 := Step(s3, keyOf, l);
    Retiring(s3, done, keyOf, w, base.published, h);
    Retiring(s4, done, keyOf, w, base.published, h);
  }

  lemma Publishes<V>(s: Rcu<V>, base: Rcu<V>, keyOf: V -> bv32, w: nat, op: Op<V>, h: Heap<V>, copy: nat)
    requires Shows(s, base, w, Ready(op, base.published, copy), h)
    ensures Shows(Step(s, keyOf, Write(w)), base.(published := copy, log := base.log + [(op, Ok)]), w,
                  Published(base.published), h)
  {}

  /** mutex_unlock, synchronize_rcu with no section open, destroy_map */
  lemma Retiring<V>(s: Rcu<V>, base: Rcu<V>, keyOf: V -> bv32, w: nat, prev: nat, h: Heap<V>)
    requires w < |s.writers| && Shows(s, base, w, s.writers[w], h) && OpenSections(base.readers) == {}
    requires s.writers[w] in {Published(prev), Unlocked(prev), Waiting(prev, {}), Reclaiming(prev)}
    ensures var s' := Step(s, keyOf, Write(w));
      match s.writers[w]
      case Published(_) => Shows(s', base, w, Unlocked(prev), h)
      case Unlocked(_) => Shows(s', base, w, Waiting(prev, {}), h)
      case Waiting(_, _) => Shows(s', base, w, Reclaiming(prev), h)
      case _ => Shows(s', base, w, Idle, Drop(h, prev))
  {
    hide Drop, CanDrop;
    var none: set<(nat, nat)> := {};
    assert none * OpenSections(s.readers) == {};
  }

  lemma FiveSteps<V>(s: Rcu<V>, keyOf: V -> bv32, l: Label<V>)
    ensures Run(s, keyOf, [l, l, l, l, l]) ==
      Step(Step(Step(Step(Step(s, keyOf, l), keyOf, l), keyOf, l), keyOf, l), keyOf, l)
  {
    hide Step;
    RunAppend(s, keyOf, [], l);
    RunAppend(s, keyOf, [l], l);
    RunAppend(s, keyOf, [l, l], l);
    RunAppend(s, keyOf, [l, l, l], l);
    RunAppend(s, keyOf, [l, l, l, l], l);
    assert [] + [l] == [l] && [l] + [l] == [l, l] && [l, l] + [l] == [l, l, l] && [l, l, l] + [l] == [l, l, l, l];
    assert [l, l, l, l] + [l] == [l, l, l, l, l];
  }

  lemma RunConcat<V>(s: Rcu<V>, keyOf: V -> bv32, a: seq<Label<V>>, b: seq<Label<V>>)
    ensures Run(s, keyOf, a + b) == Run(Run(s, keyOf, a), keyOf, b)
  {
    hide Step;
    if b == [] {
      assert a + b == a;
    } else {
      assert (a + b)[..|a + b| - 1] == a + b[..|b| - 1];
      RunConcat(s, keyOf, a, b[..|b| - 1]);
    }
  }

  /** The course of an update as labels, up to the change of the clone */
  function Labels<V>(w: nat, op: Op<V>, course: Course<V>): seq<Label<V>> {
    match course
    case Refused => [Begin(w, op), Write(w)]
    case NoClone => [Begin(w, op), Write(w), Fail(w)]
    case NoItem(c, items, next) => [Begin(w, op), Write(w), Clone(w, c, items, next), Fail(w)]
    case Tried(c, items, next) => [Begin(w, op), Write(w), Clone(w, c, items, next), Write(w)]
  }

  /** The update of the published map in state `s` takes this course. */
  ghost predicate Happens<V>(
      s: Rcu<V>, keyOf: V -> bv32, op: Op<V>, course: Course<V>, code: Code, m': Table<Ref>, live': map<nat, V>)
  {
    && s.published in s.h.maps && Shaped(s.h.maps[s.published])
    && Updates(s.h.maps[s.published], s.h.items, s.h.nextItem, keyOf, op, course, code, m', live')
  }

  /** The update is over: map, items and log are as they should be. */
  ghost predicate Ends<V>(
      s: Rcu<V>, s': Rcu<V>, w: nat, op: Op<V>, code: Code, m': Table<Ref>, live': map<nat, V>)
  {
    && w < |s'.writers| && s'.writers[w].Idle? && !s'.lock && s'.readers == s.readers
    && s'.published in s'.h.maps && s'.h.maps[s'.published] == m' && s'.h.items == live'
    && s'.log == s.log + [(op, code)]
  }

  /** The clone has been changed with success. */
  ghost predicate IsReady<V>(
      s: Rcu<V>, s': Rcu<V>, w: nat, op: Op<V>, m': Table<Ref>, live': map<nat, V>)
  {
    && s.published in s.h.maps && s.h.nextMap !in s.h.maps
    && Shows(s', s, w, Ready(op, s.published, s.h.nextMap), s'.h)
    && s'.h.maps == s.h.maps[s.h.nextMap := m'] && live' == s'.h.items - Ptrs(s.h.maps[s.published])
  }

  /** Two labels lead to the decision. */
  lemma RunsToDecision<V>(
      s: Rcu<V>, keyOf: V -> bv32, start: set<V>, w: nat, op: Op<V>,
      course: Course<V>, code: Code, m': Table<Ref>, live': map<nat, V>)
    requires Inv(s, keyOf, start) && w < |s.writers| && s.writers[w].Idle? && !s.lock
    requires Happens(s, keyOf, op, course, code, m', live')
    ensures var s2 := Run(s, keyOf, [Begin(w, op), Write(w)]);
      if course.Refused? then Ends(s, s2, w, op, code, m', live')
      else Shows(s2, s, w, Copying(op, s.published), s.h)
  {
    hide Step, Run, Inv, Probe, FreshClone, Ptrs, ChangeClone, Shaped;
    TwoSteps(s, keyOf, Begin(w, op), Write(w));
    Decides(s, keyOf, start, w, op);
  }

  /** The other labels lead to an error, or to a changed clone. */
  lemma RunsToChange<V>(
      s: Rcu<V>, s2: Rcu<V>, keyOf: V -> bv32, w: nat, op: Op<V>,
      course: Course<V>, code: Code, m': Table<Ref>, live': map<nat, V>)
    requires Sound(s.h, keyOf) && s.h.nextMap !in s.h.maps && !course.Refused?
    requires Shows(s2, s, w, Copying(op, s.published), s.h) && Happens(s, keyOf, op, course, code, m', live')
    ensures var s' := Run(s2, keyOf, Labels(w, op, course)[2..]);
      if code == Ok then IsReady(s, s', w, op, m', live') else Ends(s, s', w, op, code, m', live')
  {
    hide Step, Run, Sound, Probe, FreshClone, Ptrs, ChangeClone, Shaped;
    match course
    case NoClone =>
      OneStep(s2, keyOf, Fail(w));
      assert Labels(w, op, course)[2..] == [Fail(w)];
      GivesUp(s2, s, keyOf, w, op);
    case NoItem(c, items, next) =>
      var l := Clone(w, c, items, next);
      TwoSteps(s2, keyOf, l, Fail(w));
      assert Labels(w, op, course)[2..] == [l, Fail(w)];
      Adopts(s2, s, keyOf, w, op, c, items, next);
      GivesBack(Step(s2, keyOf, l), s, keyOf, w, op, c, items, next);
    case Tried(c, items, next) =>
      var l := Clone(w, c, items, next);
      TwoSteps(s2, keyOf, l, Write(w));
      assert Labels(w, op, course)[2..] == [l, Write(w)];
      Adopts(s2, s, keyOf, w, op, c, items, next);
      ClonesAreShaped(s.h.maps[s.published], s.h.items, s.h.nextItem, c, items, next);
      Changes(Step(s2, keyOf, l), s, keyOf, w, op, c, items, next);
  }

  lemma OneStep<V>(s: Rcu<V>, keyOf: V -> bv32, l: Label<V>)
    ensures Run(s, keyOf, [l]) == Step(s, keyOf, l)
  {
    hide Step;
    RunAppend(s, keyOf, [], l);
    assert [] + [l] == [l];
  }

  lemma TwoSteps<V>(s: Rcu<V>, keyOf: V -> bv32, a: Label<V>, b: Label<V>)
    ensures Run(s, keyOf, [a, b]) == Step(Step(s, keyOf, a), keyOf, b)
  {
    hide Step;
    OneStep(s, keyOf, a);
    RunAppend(s, keyOf, [a], b);
    assert [a] + [b] == [a, b];
  }

  lemma HeapFacts<V>(s: Rcu<V>, keyOf: V -> bv32, start: set<V>)
    requires Inv(s, keyOf, start)
    ensures s.h.nextMap !in s.h.maps && Sound(s.h, keyOf) && s.published in s.h.maps
  {
    hide Linear, NoLeak, Readers, Writers;
    HeapIsSame(s.h, keyOf);
  }

  lemma ClonesAreShaped<V>(
      m: Table<Ref>, live: map<nat, V>, next: nat, m': Table<Ref>, live': map<nat, V>, next': nat)
    requires FreshClone(m, live, next, m', live', next')
    ensures Shaped(m')
  {}

  lemma GivesUp<V>(s: Rcu<V>, base: Rcu<V>, keyOf: V -> bv32, w: nat, op: Op<V>)
    requires Shows(s, base, w, Copying(op, base.published), base.h)
    ensures Shows(Step(s, keyOf, Fail(w)), base.(log := base.log + [(op, ENoMem)]), w, Idle, base.h)
  {}

  lemma GivesBack<V>(
      s: Rcu<V>, base: Rcu<V>, keyOf: V -> bv32, w: nat, op: Op<V>, c: Table<Ref>, items: map<nat, V>, next: nat)
    requires op.Add? && base.published in base.h.maps && base.h.nextMap !in base.h.maps
    requires Shows(s, base, w, Cloned(op, base.published, base.h.nextMap), WithClone(base.h, c, items, next))
    ensures Ends(base, Step(s, keyOf, Fail(w)), w, op, ENoMem, base.h.maps[base.published], items - Ptrs(c))
  {
    hide Ptrs, CanDrop;
  }

  /** What the change of the clone in `s` leads to */
  ghost predicate IsChanged<V>(base: Rcu<V>, s': Rcu<V>, w: nat, op: Op<V>, r: Changed<V>) {
    && base.published in base.h.maps
    && if r.code == Ok
       then IsReady(base, s', w, op, r.table, r.live - Ptrs(base.h.maps[base.published]))
       else Ends(base, s', w, op, if op.Add? then ENoSpc else EInval, base.h.maps[base.published],
                 r.live - Ptrs(r.table))
  }

  lemma Changes<V>(
      s: Rcu<V>, base: Rcu<V>, keyOf: V -> bv32, w: nat, op: Op<V>, c: Table<Ref>, items: map<nat, V>, next: nat)
    requires base.published in base.h.maps && base.h.nextMap !in base.h.maps && Shaped(c)
    requires Shows(s, base, w, Cloned(op, base.published, base.h.nextMap), WithClone(base.h, c, items, next))
    ensures IsChanged(base, Step(s, keyOf, Write(w)), w, op, ChangeClone(c, items, next, keyOf, op))
  {
    hide Ptrs, CanDrop, ChangeClone, ReadsBoth;
  }

  /**
  An update of the store, whatever its course and code, is a run of one writer: from every
  state of the concurrent store in which the writer and the lock are free and no section is
  open, to a state with the same map, the same items and the code in the log.
   */
  lemma UpdateIsRun<V>(
      s: Rcu<V>, keyOf: V -> bv32, start: set<V>, w: nat, op: Op<V>,
      course: Course<V>, code: Code, m': Table<Ref>, live': map<nat, V>)
      returns (ls: seq<Label<V>>)
    requires Inv(s, keyOf, start) && w < |s.writers| && s.writers[w].Idle? && !s.lock
    requires OpenSections(s.readers) == {} && Happens(s, keyOf, op, course, code, m', live')
    ensures ByWriter(ls, w) && Ends(s, Run(s, keyOf, ls), w, op, code, m', live')
  {
    hide Run, Step, Inv, Happens, Ends, Sound, Ptrs;
    HeapFacts(s, keyOf, start);
    RunsToDecision(s, keyOf, start, w, op, course, code, m', live');
    ls := Labels(w, op, course);
    var first, second := [Begin(w, op), Write(w)], ls[2..];
    if course.Refused? {
      assert ls == first;
    } else {
      assert ls == first + second;
      RunConcat(s, keyOf, first, second);
      RunsToChange(s, Run(s, keyOf, first), keyOf, w, op, course, code, m', live');
      if code == Ok {
        var s' := Run(s, keyOf, ls);
        var rest := Finishes(s', s, keyOf, w, op, s'.h, s.h.nextMap);
        RunConcat(s, keyOf, ls, rest);
        FinishedIsEnd(s, s', Run(s', keyOf, rest), w, op, m', live');
        ls := ls + rest;
      }
    }
  }

  lemma FinishedIsEnd<V>(s: Rcu<V>, s': Rcu<V>, s'': Rcu<V>, w: nat, op: Op<V>, m': Table<Ref>, live': map<nat, V>)
    requires IsReady(s, s', w, op, m', live')
    requires Shows(s'', s.(published := s.h.nextMap, log := s.log + [(op, Ok)]), w, Idle, Drop(s'.h, s.published))
    ensures Ends(s, s'', w, op, Ok, m', live')
  {
    hide Ptrs;
  }

  /** State `s` is about this store, with no update under way by `w` and no section open. */
  ghost predicate IsAt<V>(store: Stores.Store<V>, s: Rcu<V>, w: nat)
    reads store, store.mem, store.published.t0, store.published.t1
  {
    && w < |s.writers| && s.writers[w].Idle? && !s.lock && OpenSections(s.readers) == {}
    && s.published in s.h.maps && s.h.maps[s.published] == store.published.View()
    && s.h.items == store.mem.live && s.h.nextItem == store.mem.next
  }

  /** The store performs an update; the concurrent store has a run of one writer that does the same. */
  method Perform<V(==)>(store: Stores.Store<V>, op: Op<V>, ghost s: Rcu<V>, ghost start: set<V>, ghost w: nat)
      returns (code: Code, ghost ls: seq<Label<V>>)
    requires store.Valid() && Inv(s, store.keyOf, start) && IsAt(store, s, w)
    modifies store`published, store.mem
    ensures store.Valid() && ByWriter(ls, w)
    ensures Ends(s, Run(s, store.keyOf, ls), w, op, code, store.published.View(), store.mem.live)
  {
    hide Inv, Run, Ends, Owns, Updates;
    ghost var course;
    assert Shaped(store.published.View());
    match op {
      case Add(v) => code, course := store.Add(v);
      case Delete(v) => code, course := store.Delete(v);
    }
    ls := UpdateIsRun(s, store.keyOf, start, w, op, course, code, store.published.View(), store.mem.live);
  }

  // ---------------------------------------------------------------------------------------
  // A clone always exists

  /** The slots of `src` with the pointers `base`, `base + 1`, … */
  function Renumbered(src: seq<Slot<Ref>>, base: nat): (dst: seq<Slot<Ref>>)
    ensures |dst| == |src|
    ensures forall k :: 0 <= k < |src| ==>
      dst[k] == if src[k].Used? then Used(Ref(src[k].entry.key, base + k)) else Free
  {
    seq(|src|, k requires 0 <= k < |src| => if src[k].Used? then Used(Ref(src[k].entry.key, base + k)) else Free)
  }

  lemma {:induction false} RenumberedOnce(src: seq<Slot<Ref>>, base: nat)
    ensures forall r :: r in Entries(Renumbered(src, base)) ==> base <= r.ptr < base + |src|
    ensures OnePtrEach(Entries(Renumbered(src, base)))
  {
    var dst := Renumbered(src, base);
    if src != [] {
      var rest := Renumbered(src[1..], base + 1);
      RenumberedOnce(src[1..], base + 1);
      assert dst[1..] == rest;
    }
  }

  function SlotsAt(slots: seq<Slot<Ref>>): Table<Ref>
    requires |slots| == 2 * TABLE_SIZE
  {
    Table(slots[..TABLE_SIZE], slots[TABLE_SIZE..])
  }

  /** Pointer `p` of the clone stands for a used slot, whose item is allocated. */
  predicate Copies<V>(src: seq<Slot<Ref>>, live: map<nat, V>, next: nat, p: nat) {
    next <= p < next + |src| && src[p - next].Used? && src[p - next].entry.ptr in live
  }

  lemma RenumberedPtr<V>(m: Table<Ref>, live: map<nat, V>, next: nat, c: Table<Ref>, p: nat)
    requires (forall r :: r in Contents(m) ==> r.ptr in live) && Slots(c) == Renumbered(Slots(m), next)
    requires p in Ptrs(c)
    ensures Copies(Slots(m), live, next, p)
  {
    hide Contents, Slots;
    var r :| r in Contents(c) && r.ptr == p;
    ContentHasSlot(c, r);
    var k :| 0 <= k < |Slots(c)| && Slots(c)[k] == Used(r);
    ContentHasSlot(m, Slots(m)[k].entry);
  }

  lemma PtrOfContent(c: Table<Ref>, r: Ref)
    requires r in Contents(c)
    ensures r.ptr in Ptrs(c)
  {}

  lemma RenumberedIsOnce(m: Table<Ref>, next: nat, c: Table<Ref>)
    requires Slots(c) == Renumbered(Slots(m), next)
    ensures OnePtrEach(Contents(c))
  {
    hide Entries, OnePtrEach, Renumbered;
    EntriesOfConcat(c.t0, c.t1);
    RenumberedOnce(Slots(m), next);
  }

  /** An allocator that never fails lets `clone_map` succeed: the clone numbers its items from `next`. */
  lemma CloneExists<V>(m: Table<Ref>, live: map<nat, V>, next: nat, keyOf: V -> bv32)
      returns (c: Table<Ref>, items: map<nat, V>, next': nat)
    requires Owns(m, live, keyOf) && forall p :: p in live ==> p < next
    ensures FreshClone(m, live, next, c, items, next')
  {
    hide Contents, Owns, OnePtrEach, Ptrs;
    OwnsIsPlaced(m, live, keyOf);
    var src := Slots(m);
    c := SlotsAt(Renumbered(src, next));
    next' := next + |src|;
    assert Slots(c) == Renumbered(src, next);
    RenumberedIsOnce(m, next, c);
    OwnedPtrsAreLive(m, live, keyOf);
    forall p | p in Ptrs(c) ensures Copies(src, live, next, p) {
      RenumberedPtr(m, live, next, c, p);
    }
    items := map p | p in live.Keys + Ptrs(c) :: if p in live then live[p] else live[src[p - next].entry.ptr];
    forall k | 0 <= k < |src| ensures CopyOf(src[k], live, Slots(c)[k], items) {
      if src[k].Used? {
        ContentHasSlot(m, src[k].entry);
        ContentHasSlot(c, Slots(c)[k].entry);
        assert next + k in Ptrs(c) by { PtrOfContent(c, Slots(c)[k].entry); }
      }
    }
  }

  /** The code that an update ends with when every request for memory is granted */
  ghost function CodeOf<V>(m: Table<Ref>, live: map<nat, V>, keyOf: V -> bv32, op: Op<V>): Code
    requires Shaped(m)
  {
    var present := op.v in Members(m, live);
    if op.Add? then (if present then EExist else if NoRoom(m, keyOf(op.v)) then ENoSpc else Ok)
    else (if present then Ok else EInval)
  }

  lemma ChangeHasCode<V>(
      m: Table<Ref>, live: map<nat, V>, next: nat, c: Table<Ref>, items: map<nat, V>, next': nat,
      keyOf: V -> bv32, op: Op<V>)
    requires Owns(m, live, keyOf) && FreshClone(m, live, next, c, items, next') && Shaped(m) && Shaped(c)
    requires (forall p :: p in live ==> p < next) && (op.Add? == (op.v !in Members(m, live)))
    ensures ChangeClone(c, items, next', keyOf, op).code == CodeOf(m, live, keyOf, op)
  {
    hide Owns, Members, FreshClone, Insertion, Removal, NoRoom;
    Stores.FreshIsClone(m, live, next, c, items, next', keyOf);
    if op.Add? {
      assert next' !in items by { NextIsFree(m, live, next, c, items, next'); }
      Stores.RoomForClone(m, live, next, c, items, next', keyOf, next', op.v);
    } else {
      Stores.CloneMeans(m, live, c, items, keyOf);
      RemovalMeans(c, items, keyOf, op.v);
    }
  }

  lemma NextIsFree<V>(m: Table<Ref>, live: map<nat, V>, next: nat, c: Table<Ref>, items: map<nat, V>, next': nat)
    requires FreshClone(m, live, next, c, items, next') && forall p :: p in live ==> p < next
    ensures next' !in items
  {}

  /** Every update can run to its end and, with memory to spare, ends in the code that its map and value call for. */
  lemma UpdateCanFinish<V>(s: Rcu<V>, keyOf: V -> bv32, start: set<V>, w: nat, op: Op<V>)
      returns (ls: seq<Label<V>>, code: Code, m': Table<Ref>, live': map<nat, V>)
    requires Inv(s, keyOf, start) && w < |s.writers| && s.writers[w].Idle? && !s.lock
    requires OpenSections(s.readers) == {}
    ensures ByWriter(ls, w) && Ends(s, Run(s, keyOf, ls), w, op, code, m', live')
    ensures s.published in s.h.maps && Shaped(s.h.maps[s.published])
    ensures code == CodeOf(s.h.maps[s.published], s.h.items, keyOf, op)
  {
    hide Inv, Run, Ends, Owns, ChangeClone, FreshClone, Probe, Ptrs, Members, NoRoom;
    HeapFacts(s, keyOf, start);
    var m := s.h.maps[s.published];
    assert Owns(m, s.h.items, keyOf) && forall p :: p in s.h.items ==> p < s.h.nextItem;
    OwnsIsPlaced(m, s.h.items, keyOf);
    LookupIsMembership(m, s.h.items, keyOf, op.v);
    code := CodeOf(m, s.h.items, keyOf, op);
    if op.Add? == Probe(m, s.h.items, keyOf(op.v), op.v) {
      m', live' := m, s.h.items;
      ls := UpdateIsRun(s, keyOf, start, w, op, Refused, code, m', live');
    } else {
      var c, items, next := CloneExists(m, s.h.items, s.h.nextItem, keyOf);
      ClonesAreShaped(m, s.h.items, s.h.nextItem, c, items, next);
      ChangeHasCode(m, s.h.items, s.h.nextItem, c, items, next, keyOf, op);
      var r := ChangeClone(c, items, next, keyOf, op);
      m', live' := if code == Ok then r.table else m, r.live - Ptrs(if code == Ok then m else r.table);
      ls := UpdateIsRun(s, keyOf, start, w, op, Tried(c, items, next), code, m', live');
    }
  }
}
