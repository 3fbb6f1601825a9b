/**
Safety of the concurrent store in every run: no freed map or item is ever used or freed again,
every item belongs to exactly one map, every lookup answers for the set that was published when
it loaded the pointer, and the finished updates form a legal history of a plain set.
 */
module RcuSafety {
  import opened CuckooTable
  import opened StoreModel
  import opened RcuHeap
  import opened RcuStore

  // ---------------------------------------------------------------------------------------
  // Updates as operations on a set

  /** The result codes that `add_*_to_store` and `remove_*_from_store` may give in a set */
  predicate Allowed<V(==)>(registered: set<V>, op: Op<V>, code: Code) {
    match code
    case Ok => op.Add? == (op.v !in registered)
    case EExist => op.Add? && op.v in registered
    case EInval => op.Delete? && op.v !in registered
    case ENoMem => op.Add? == (op.v !in registered)
    case ENoSpc => op.Add? && op.v !in registered
  }

  function Replay<V>(start: set<V>, log: seq<(Op<V>, Code)>): set<V> {
    if log == [] then start
    else
      var before := Replay(start, log[..|log| - 1]);
      var (op, code) := log[|log| - 1];
      if code == Ok then After(before, op) else before
  }

  /** Every code is one that a plain set would allow at that point. */
  predicate Legal<V(==)>(start: set<V>, log: seq<(Op<V>, Code)>) {
    log == [] ||
    (Legal(start, log[..|log| - 1])
     && Allowed(Replay(start, log[..|log| - 1]), log[|log| - 1].0, log[|log| - 1].1))
  }

  // ---------------------------------------------------------------------------------------
  // Invariants

  predicate HasLock<V>(pc: WriterPc<V>) {
    pc.Checking? || pc.Copying? || pc.Cloned? || pc.Ready? || pc.Published?
  }

  predicate Retires<V>(pc: WriterPc<V>) { pc.Published? || pc.Unlocked? || pc.Waiting? || pc.Reclaiming? }

  predicate HasCopy<V>(pc: WriterPc<V>) { pc.Cloned? || pc.Ready? }

  ghost predicate Basic<V>(s: Rcu<V>, keyOf: V -> bv32) {
    && Sound(s.h, keyOf) && !s.fault
    && s.published in s.h.maps && s.published !in s.retiredBy
    && (forall p :: p in s.retiredBy ==> p < s.h.nextMap)
  }

  ghost predicate WriterOk<V>(s: Rcu<V>, w: nat, pc: WriterPc<V>)
    requires s.published in s.h.maps
  {
    && (HasLock(pc) ==> s.lock)
    && (pc.Copying? || HasCopy(pc) ==>
        pc.prev == s.published && (pc.op.Add? == (pc.op.v !in SetOf(s.h, s.published))))
    && (HasCopy(pc) ==>
        && pc.copy in s.h.maps && pc.copy != s.published && pc.copy !in s.retiredBy
        && SetOf(s.h, pc.copy) ==
             if pc.Cloned? then SetOf(s.h, s.published) else After(SetOf(s.h, s.published), pc.op))
    && (Retires(pc) ==>
        pc.prev in s.h.maps && pc.prev != s.published && pc.prev in s.retiredBy && s.retiredBy[pc.prev] == w)
  }

  ghost predicate Writers<V>(s: Rcu<V>)
    requires s.published in s.h.maps
  {
    && (forall w :: 0 <= w < |s.writers| ==> WriterOk(s, w, s.writers[w]))
    && (forall w, u :: 0 <= w < u < |s.writers| ==> !(HasLock(s.writers[w]) && HasLock(s.writers[u])))
  }

  predicate HasPtr<V>(pc: ReaderPc<V>) { pc.Loaded? || pc.Missed? }

  /** Writer `pc`, which replaced map `p`, will not free it while this section of reader `r` is open. */
  predicate Protects<V(==)>(pc: WriterPc<V>, p: nat, r: nat, section: nat) {
    || ((pc.Published? || pc.Unlocked?) && pc.prev == p)
    || (pc.Waiting? && pc.prev == p && (r, section) in pc.open)
  }

  /** What reader `r` relies on: the map it loaded is allocated and stays so. */
  ghost predicate Safe<V>(s: Rcu<V>, p: nat, r: nat, section: nat) {
    && p in s.h.maps
    && (p == s.published
        || (p in s.retiredBy && s.retiredBy[p] < |s.writers| && Protects(s.writers[s.retiredBy[p]], p, r, section)))
  }

  ghost predicate ReaderOk<V>(s: Rcu<V>, keyOf: V -> bv32, r: nat, reader: Reader<V>) {
    var pc := reader.pc;
    && (HasPtr(pc) ==> Safe(s, pc.p, r, reader.section) && pc.was == Registers(s.h, pc.p, pc.v))
    && (pc.Missed? ==> !Matches(Slot1(s.h, keyOf, pc.p, pc.v), s.h.items, pc.v))
    && (pc.Answered? ==> pc.found == pc.was)
  }

  ghost predicate Readers<V>(s: Rcu<V>, keyOf: V -> bv32) {
    forall r :: 0 <= r < |s.readers| ==> ReaderOk(s, keyOf, r, s.readers[r])
  }

  ghost predicate Linear<V>(s: Rcu<V>, start: set<V>) {
    && Legal(start, s.log)
    && s.published in s.h.maps && SetOf(s.h, s.published) == Replay(start, s.log)
  }

  /** Writer `pc` will publish or free map `p`. */
  predicate Minds<V>(pc: WriterPc<V>, p: nat) { (HasCopy(pc) && pc.copy == p) || (Retires(pc) && pc.prev == p) }

  /** Every allocated map is published, about to be published, or waiting to be freed. */
  ghost predicate NoLeak<V>(s: Rcu<V>) {
    forall p :: p in s.h.maps && p != s.published ==> exists w :: 0 <= w < |s.writers| && Minds(s.writers[w], p)
  }

  ghost predicate Inv<V>(s: Rcu<V>, keyOf: V -> bv32, start: set<V>) {
    Basic(s, keyOf) && Writers(s) && Readers(s, keyOf) && Linear(s, start) && NoLeak(s)
  }

  // ---------------------------------------------------------------------------------------
  // Probes

  /** On an allocated map neither probe touches freed memory, and together they decide membership. */
  lemma ProbesDecide<V>(h: Heap<V>, keyOf: V -> bv32, k: nat, v: V)
    requires Sound(h, keyOf) && k in h.maps
    ensures ReadsBoth(h, keyOf, k, v) && (Finds(h, keyOf, k, v) <==> Registers(h, k, v))
  {
    hide Contents, Owns, Members, CuckooHash.Hash1, CuckooHash.Hash2;
    LookupIsMembership(h.maps[k], h.items, keyOf, v);
    OwnedPtrsAreLive(h.maps[k], h.items, keyOf);
    OwnsIsPlaced(h.maps[k], h.items, keyOf);
    SlotIsContent(h.maps[k], RefHash1(Ref(keyOf(v), 0)));
    SlotIsContent(h.maps[k], RefHash2(Ref(keyOf(v), 0)));
  }

  /** A map that stays the same answers the same. */
  lemma ProbesAgree<V>(h: Heap<V>, h': Heap<V>, keyOf: V -> bv32, k: nat, v: V)
    requires Sound(h, keyOf) && Same(h, h', k)
    ensures Matches(Slot1(h', keyOf, k, v), h'.items, v) == Matches(Slot1(h, keyOf, k, v), h.items, v)
    ensures Registers(h', k, v) == Registers(h, k, v)
  {
    hide Contents, Placed, CuckooHash.Hash1, CuckooHash.Hash2;
    SameSet(h, h', keyOf, k);
    SlotIsContent(h.maps[k], RefHash1(Ref(keyOf(v), 0)));
  }

  // ---------------------------------------------------------------------------------------
  // Readers

  /** A step that only moves reader `r`, to a place where it is all right, keeps the invariant. */
  lemma ReaderMoves<V>(s: Rcu<V>, s': Rcu<V>, keyOf: V -> bv32, start: set<V>, r: nat)
    requires Inv(s, keyOf, start) && r < |s.readers|
    requires |s'.readers| == |s.readers| && s' == s.(readers := s.readers[r := s'.readers[r]])
    requires ReaderOk(s, keyOf, r, s'.readers[r])
    ensures Inv(s', keyOf, start)
  {
    hide Sound, SetOf, Legal, Replay, Registers, Slot1;
  }

  lemma ReadKeepsInv<V>(s: Rcu<V>, keyOf: V -> bv32, start: set<V>, r: nat)
    requires Inv(s, keyOf, start) && r < |s.readers|
    ensures Inv(ReaderStep(s, keyOf, r), keyOf, start)
  {
    hide Sound, SetOf, Registers, Legal, Replay, Slot1, Slot2, Matches, Reads;
    var pc := s.readers[r].pc;
    assert ReaderOk(s, keyOf, r, s.readers[r]);
    if HasPtr(pc) {
      ProbesDecide(s.h, keyOf, pc.p, pc.v);
    }
    ReaderMoves(s, ReaderStep(s, keyOf, r), keyOf, start, r);
  }

  // ---------------------------------------------------------------------------------------
  // Writers

  /** No reader that relies on `pc` is let down by `pc'`. */
  ghost predicate StillProtects<V>(s: Rcu<V>, pc: WriterPc<V>, pc': WriterPc<V>) {
    forall r :: 0 <= r < |s.readers| && HasPtr(s.readers[r].pc) ==>
      var p, section := s.readers[r].pc.p, s.readers[r].section;
      Protects(pc, p, r, section) ==> Protects(pc', p, r, section)
  }

  /** Only writer `w` moves, the lock and the log with it, and only map `k` and its items may change. */
  ghost predicate MovesWriter<V>(s: Rcu<V>, s': Rcu<V>, w: nat, k: nat) {
    && w < |s.writers| && |s'.writers| == |s.writers|
    && s' == s.(writers := s.writers[w := s'.writers[w]], lock := s'.lock, log := s'.log, h := s'.h)
    && k != s.published && s.h.nextMap <= s'.h.nextMap
    && (forall j :: j in s.h.maps && j != k ==> Same(s.h, s'.h, j))
    && (forall j :: j in s'.h.maps && j != k ==> j in s.h.maps)
    && (s'.lock != s.lock ==> HasLock(s.writers[w]) || !s.lock)
    && (HasLock(s'.writers[w]) ==> HasLock(s.writers[w]) || !s.lock)
    && (forall j :: Minds(s.writers[w], j) && j != k ==> Minds(s'.writers[w], j))
    && (k in s'.h.maps ==> Minds(s'.writers[w], k))
    && StillProtects(s, s.writers[w], s'.writers[w])
  }

  /** Nobody but `w` knows map `k`. */
  ghost predicate Private<V>(s: Rcu<V>, w: nat, k: nat) {
    && (forall u :: 0 <= u < |s.writers| && u != w ==> !Minds(s.writers[u], k))
    && (forall r :: 0 <= r < |s.readers| && HasPtr(s.readers[r].pc) ==> s.readers[r].pc.p != k)
  }

  lemma WriterMoves<V>(s: Rcu<V>, s': Rcu<V>, keyOf: V -> bv32, start: set<V>, w: nat, k: nat)
    requires Inv(s, keyOf, start) && MovesWriter(s, s', w, k) && Private(s, w, k)
    requires Sound(s'.h, keyOf) && s'.published in s'.h.maps && Linear(s', start) && WriterOk(s', w, s'.writers[w])
    ensures Inv(s', keyOf, start)
  {
    hide Sound, SetOf, Legal, Replay, Linear, Registers, Slot1, Same;
    assert s.published in s'.h.maps;
    forall u | 0 <= u < |s'.writers| ensures WriterOk(s', u, s'.writers[u]) {
      if u != w {
        OtherWriterStays(s, s', keyOf, u, k);
      }
    }
    forall r | 0 <= r < |s'.readers| ensures ReaderOk(s', keyOf, r, s'.readers[r]) {
      ReaderStays(s, s', keyOf, w, r, k);
    }
    NothingLost(s, s', w, k);
  }

  lemma OtherWriterStays<V>(s: Rcu<V>, s': Rcu<V>, keyOf: V -> bv32, u: nat, k: nat)
    requires Sound(s.h, keyOf) && s.published in s.h.maps && s.published != k && u < |s.writers|
    requires WriterOk(s, u, s.writers[u]) && !Minds(s.writers[u], k)
    requires forall j :: j in s.h.maps && j != k ==> Same(s.h, s'.h, j)
    requires s'.published == s.published && s'.retiredBy == s.retiredBy && s'.published in s'.h.maps
    requires HasLock(s.writers[u]) ==> s'.lock
    ensures WriterOk(s', u, s.writers[u])
  {
    hide Sound, SetOf;
    var pc := s.writers[u];
    SameSet(s.h, s'.h, keyOf, s.published);
    if HasCopy(pc) {
      SameSet(s.h, s'.h, keyOf, pc.copy);
    }
    if Retires(pc) {
      assert Same(s.h, s'.h, pc.prev);
    }
  }

  lemma ReaderStays<V>(s: Rcu<V>, s': Rcu<V>, keyOf: V -> bv32, w: nat, r: nat, k: nat)
    requires Sound(s.h, keyOf) && MovesWriter(s, s', w, k) && Private(s, w, k)
    requires r < |s.readers| && ReaderOk(s, keyOf, r, s.readers[r])
    ensures ReaderOk(s', keyOf, r, s'.readers[r])
  {
    hide Sound, SetOf, Registers, Slot1, Matches;
    var pc := s.readers[r].pc;
    if HasPtr(pc) {
      assert Same(s.h, s'.h, pc.p);
      ProbesAgree(s.h, s'.h, keyOf, pc.p, pc.v);
    }
  }

  lemma NothingLost<V>(s: Rcu<V>, s': Rcu<V>, w: nat, k: nat)
    requires NoLeak(s) && MovesWriter(s, s', w, k)
    ensures NoLeak(s')
  {
    hide Minds, Same, StillProtects;
    forall p | p in s'.h.maps && p != s'.published
      ensures exists u :: 0 <= u < |s'.writers| && Minds(s'.writers[u], p)
    {
      if p == k {
        assert Minds(s'.writers[w], p);
      } else {
        var u :| 0 <= u < |s.writers| && Minds(s.writers[u], p);
        assert Minds(s'.writers[u], p);
      }
    }
  }

  lemma HeapIsSame<V>(h: Heap<V>, keyOf: V -> bv32)
    requires Sound(h, keyOf)
    ensures h.nextMap !in h.maps && forall j :: j in h.maps ==> Same(h, h, j)
  {
    hide Ptrs, Owns, Held, Disjoint;
    forall j | j in h.maps ensures Same(h, h, j) {
      OwnedPtrsAreLive(h.maps[j], h.items, keyOf);
    }
  }

  /** A map that is not allocated yet, or that only `w` has, is nobody else's. */
  lemma NobodyElse<V>(s: Rcu<V>, keyOf: V -> bv32, start: set<V>, w: nat, k: nat)
    requires Inv(s, keyOf, start) && w < |s.writers|
    requires k == s.h.nextMap || (HasCopy(s.writers[w]) && s.writers[w].copy == k)
          || (s.writers[w].Reclaiming? && s.writers[w].prev == k)
    ensures Private(s, w, k) && k != s.published
  {
    hide Linear, NoLeak, SetOf, Registers, Slot1, Sound, Same;
    HeapIsSame(s.h, keyOf);
    assert WriterOk(s, w, s.writers[w]);
    forall u | 0 <= u < |s.writers| && u != w ensures !Minds(s.writers[u], k) {
      assert WriterOk(s, u, s.writers[u]);
    }
    forall r | 0 <= r < |s.readers| && HasPtr(s.readers[r].pc) ensures s.readers[r].pc.p != k {
      assert ReaderOk(s, keyOf, r, s.readers[r]);
    }
  }

  /** Writer `w` moves and memory stays as it is. */
  lemma WriterMovesAlone<V>(s: Rcu<V>, s': Rcu<V>, keyOf: V -> bv32, start: set<V>, w: nat)
    requires Inv(s, keyOf, start) && w < |s.writers| && |s'.writers| == |s.writers|
    requires s' == s.(writers := s.writers[w := s'.writers[w]], lock := s'.lock, log := s'.log)
    requires Linear(s', start) && WriterOk(s', w, s'.writers[w])
    requires s'.lock != s.lock ==> HasLock(s.writers[w]) || !s.lock
    requires HasLock(s'.writers[w]) ==> HasLock(s.writers[w]) || !s.lock
    requires !HasCopy(s.writers[w])
    requires Retires(s.writers[w]) ==> Retires(s'.writers[w]) && s'.writers[w].prev == s.writers[w].prev
    requires StillProtects(s, s.writers[w], s'.writers[w])
    ensures Inv(s', keyOf, start)
  {
    hide Sound, Linear, SetOf, Registers, Slot1, Same, NoLeak, Readers;
    HeapIsSame(s.h, keyOf);
    NobodyElse(s, keyOf, start, w, s.h.nextMap);
    WriterMoves(s, s', keyOf, start, w, s.h.nextMap);
  }

  lemma LogGrows<V>(start: set<V>, log: seq<(Op<V>, Code)>, op: Op<V>, code: Code)
    requires Legal(start, log) && Allowed(Replay(start, log), op, code)
    ensures Legal(start, log + [(op, code)])
    ensures Replay(start, log + [(op, code)]) ==
      if code == Ok then After(Replay(start, log), op) else Replay(start, log)
  {
    assert (log + [(op, code)])[..|log|] == log;
  }

  lemma CheckKeepsInv<V>(s: Rcu<V>, keyOf: V -> bv32, start: set<V>, w: nat)
    requires Inv(s, keyOf, start) && w < |s.writers| && s.writers[w].Checking?
    ensures Inv(WriterStep(s, keyOf, w), keyOf, start)
  {
    hide Sound, SetOf, Legal, Replay, Finds, ReadsBoth, NoLeak, Readers;
    var op := s.writers[w].op;
    ProbesDecide(s.h, keyOf, s.published, op.v);
    assert WriterOk(s, w, s.writers[w]);
    if op.Add? == Finds(s.h, keyOf, s.published, op.v) {
      LogGrows(start, s.log, op, if op.Add? then EExist else EInval);
    }
    WriterMovesAlone(s, WriterStep(s, keyOf, w), keyOf, start, w);
  }

  /** Dropping the lock, starting to wait, and the end of a grace period. */
  lemma GraceKeepsInv<V>(s: Rcu<V>, keyOf: V -> bv32, start: set<V>, w: nat)
    requires Inv(s, keyOf, start) && w < |s.writers|
    requires s.writers[w].Published? || s.writers[w].Unlocked? || s.writers[w].Waiting?
    ensures Inv(WriterStep(s, keyOf, w), keyOf, start)
  {
    hide Sound, SetOf, Legal, Replay, NoLeak, Readers;
    var s' := WriterStep(s, keyOf, w);
    assert WriterOk(s, w, s.writers[w]);
    assert StillProtects(s, s.writers[w], s'.writers[w]) by {
      var now := OpenSections(s.readers);
      forall r | 0 <= r < |s.readers| && HasPtr(s.readers[r].pc)
        ensures (r, s.readers[r].section) in now
        ensures s.writers[w].Waiting? && (r, s.readers[r].section) in s.writers[w].open ==> s.writers[w].open * now != {}
      {
        if s.writers[w].Waiting? && (r, s.readers[r].section) in s.writers[w].open {
          assert (r, s.readers[r].section) in s.writers[w].open * now;
        }
      }
    }
    WriterMovesAlone(s, s', keyOf, start, w);
  }

  lemma PublishKeepsInv<V>(s: Rcu<V>, keyOf: V -> bv32, start: set<V>, w: nat)
    requires Inv(s, keyOf, start) && w < |s.writers| && s.writers[w].Ready?
    ensures Inv(WriterStep(s, keyOf, w), keyOf, start)
  {
    hide Sound, SetOf, Legal, Replay, Registers, Slot1, Matches;
    var s' := WriterStep(s, keyOf, w);
    assert WriterOk(s, w, s.writers[w]);
    LogGrows(start, s.log, s.writers[w].op, Ok);
    MapIsShaped(s.h, keyOf, s.published);
    forall u | 0 <= u < |s'.writers| ensures WriterOk(s', u, s'.writers[u]) {
      assert WriterOk(s, u, s.writers[u]);
    }
    forall r | 0 <= r < |s'.readers| ensures ReaderOk(s', keyOf, r, s'.readers[r]) {
      assert ReaderOk(s, keyOf, r, s.readers[r]);
    }
    PublishLosesNothing(s, s', w);
  }

  lemma PublishLosesNothing<V>(s: Rcu<V>, s': Rcu<V>, w: nat)
    requires NoLeak(s) && w < |s.writers| && s.writers[w].Ready? && s.writers[w].prev == s.published
    requires s'.h == s.h && s'.published == s.writers[w].copy
    requires s'.writers == s.writers[w := Published(s.published)]
    ensures NoLeak(s')
  {
    forall p | p in s'.h.maps && p != s'.published
      ensures exists u :: 0 <= u < |s'.writers| && Minds(s'.writers[u], p)
    {
      if p == s.published {
        assert Minds(s'.writers[w], p);
      } else {
        var u :| 0 <= u < |s.writers| && Minds(s.writers[u], p);
        assert Minds(s'.writers[u], p);
      }
    }
  }

  // ---------------------------------------------------------------------------------------
  // Steps that change memory

  lemma CloneKeepsInv<V>(
      s: Rcu<V>, keyOf: V -> bv32, start: set<V>, w: nat, c: Table<Ref>, items: map<nat, V>, nextItem: nat)
    requires Inv(s, keyOf, start) && w < |s.writers| && s.writers[w].Copying?
    ensures Inv(CloneStep(s, w, c, items, nextItem), keyOf, start)
  {
    hide Sound, SetOf, Legal, Replay, NoLeak, Readers, FreshClone, Same, Ptrs;
    var s' := CloneStep(s, w, c, items, nextItem);
    assert WriterOk(s, w, s.writers[w]);
    assert Ptrs(s.h.maps[s.published]) <= s.h.items.Keys by { OthersAreLive(s.h, keyOf, s.published); }
    if s' != s {
      NobodyElse(s, keyOf, start, w, s.h.nextMap);
      CloneKeepsSound(s.h, keyOf, s.published, c, items, nextItem);
      SameSet(s.h, s'.h, keyOf, s.published);
      WriterMoves(s, s', keyOf, start, w, s.h.nextMap);
    }
  }

  /** The writer gives up and its clone is freed. */
  lemma DestroyKeepsInv<V>(s: Rcu<V>, h1: Heap<V>, s': Rcu<V>, keyOf: V -> bv32, start: set<V>, w: nat, code: Code)
    requires Inv(s, keyOf, start) && w < |s.writers| && s.writers[w].Cloned?
    requires Sound(h1, keyOf) && s.writers[w].copy in h1.maps && h1.nextMap == s.h.nextMap
    requires h1.maps.Keys == s.h.maps.Keys
    requires forall j :: j in s.h.maps && j != s.writers[w].copy ==> Same(s.h, h1, j)
    requires s' == GiveUp(Destroy(s.(h := h1), s.writers[w].copy), w, s.writers[w].op, code)
    requires Allowed(SetOf(s.h, s.published), s.writers[w].op, code) && code != Ok
    ensures Inv(s', keyOf, start)
  {
    hide Sound, SetOf, Legal, Replay, NoLeak, Readers, CanDrop;
    var copy := s.writers[w].copy;
    assert WriterOk(s, w, s.writers[w]);
    NobodyElse(s, keyOf, start, w, copy);
    DropKeepsSound(h1, keyOf, copy);
    forall j | j in s.h.maps && j != copy ensures Same(s.h, s'.h, j) {
      assert Same(s.h, h1, j) && Same(h1, Drop(h1, copy), j);
    }
    SameSet(s.h, s'.h, keyOf, s.published);
    LogGrows(start, s.log, s.writers[w].op, code);
    WriterMoves(s, s', keyOf, start, w, copy);
  }

  lemma ChangeKeepsInv<V>(s: Rcu<V>, keyOf: V -> bv32, start: set<V>, w: nat)
    requires Inv(s, keyOf, start) && w < |s.writers| && s.writers[w].Cloned?
    ensures Inv(WriterStep(s, keyOf, w), keyOf, start)
  {
    hide Sound, SetOf, Linear, NoLeak, Readers, Same, Change, Destroy, ReadsBoth, Finds;
    var op, copy := s.writers[w].op, s.writers[w].copy;
    var s' := WriterStep(s, keyOf, w);
    assert WriterOk(s, w, s.writers[w]);
    assert Shaped(s.h.maps[copy]) by { MapIsShaped(s.h, keyOf, copy); }
    ProbesDecide(s.h, keyOf, copy, op.v);
    ChangeKeepsSound(s.h, keyOf, copy, op);
    var r := Change(s.h, keyOf, copy, op);
    var h1 := Altered(s.h, copy, r, NextItem(s.h, op));
    if r.code == Ok {
      ChangeIsReady(s, h1, s', keyOf, start, w);
    } else {
      DestroyKeepsInv(s, h1, s', keyOf, start, w, ENoSpc);
    }
  }

  lemma ChangeIsReady<V>(s: Rcu<V>, h1: Heap<V>, s': Rcu<V>, keyOf: V -> bv32, start: set<V>, w: nat)
    requires Inv(s, keyOf, start) && w < |s.writers| && s.writers[w].Cloned?
    requires Sound(h1, keyOf) && h1.maps.Keys == s.h.maps.Keys && h1.nextMap == s.h.nextMap
    requires forall j :: j in s.h.maps && j != s.writers[w].copy ==> Same(s.h, h1, j)
    requires s' == SetWriter(s, w, Ready(s.writers[w].op, s.writers[w].prev, s.writers[w].copy)).(h := h1)
    requires s.writers[w].copy in h1.maps && s.writers[w].copy in s.h.maps
    requires SetOf(h1, s.writers[w].copy) == After(SetOf(s.h, s.writers[w].copy), s.writers[w].op)
    ensures Inv(s', keyOf, start)
  {
    hide Sound, SetOf, Legal, Replay, NoLeak, Readers, Same;
    assert WriterOk(s, w, s.writers[w]);
    NobodyElse(s, keyOf, start, w, s.writers[w].copy);
    SameSet(s.h, h1, keyOf, s.published);
    WriterMoves(s, s', keyOf, start, w, s.writers[w].copy);
  }

  lemma MapIsShaped<V>(h: Heap<V>, keyOf: V -> bv32, k: nat)
    requires Sound(h, keyOf) && k in h.maps
    ensures Shaped(h.maps[k]) && k < h.nextMap
  {}

  /** Nobody can reach the map that is freed, or its items. */
  lemma ReclaimKeepsInv<V>(s: Rcu<V>, keyOf: V -> bv32, start: set<V>, w: nat)
    requires Inv(s, keyOf, start) && w < |s.writers| && s.writers[w].Reclaiming?
    ensures Inv(WriterStep(s, keyOf, w), keyOf, start)
  {
    hide Sound, SetOf, Legal, Replay, NoLeak, Readers, Same, CanDrop;
    var s' := WriterStep(s, keyOf, w);
    assert WriterOk(s, w, s.writers[w]);
    NobodyElse(s, keyOf, start, w, s.writers[w].prev);
    DropKeepsSound(s.h, keyOf, s.writers[w].prev);
    SameSet(s.h, s'.h, keyOf, s.published);
    WriterMoves(s, s', keyOf, start, w, s.writers[w].prev);
  }

  /** Taking the write lock. */
  lemma BeginKeepsInv<V>(s: Rcu<V>, keyOf: V -> bv32, start: set<V>, w: nat, op: Op<V>)
    requires Inv(s, keyOf, start) && w < |s.writers| && s.writers[w].Idle? && !s.lock
    ensures Inv(Step(s, keyOf, Begin(w, op)), keyOf, start)
  {
    hide Sound, SetOf, Legal, Replay, NoLeak, Readers;
    WriterMovesAlone(s, Step(s, keyOf, Begin(w, op)), keyOf, start, w);
  }

  /** Giving up on a failed allocation. */
  lemma FailKeepsInv<V>(s: Rcu<V>, keyOf: V -> bv32, start: set<V>, w: nat)
    requires Inv(s, keyOf, start) && w < |s.writers|
    ensures Inv(FailStep(s, w), keyOf, start)
  {
    hide Sound, SetOf, Legal, Replay, NoLeak, Readers, Destroy, Same;
    assert WriterOk(s, w, s.writers[w]);
    if s.writers[w].Copying? {
      LogGrows(start, s.log, s.writers[w].op, ENoMem);
      WriterMovesAlone(s, FailStep(s, w), keyOf, start, w);
    } else if s.writers[w].Cloned? && s.writers[w].op.Add? {
      HeapIsSame(s.h, keyOf);
      DestroyKeepsInv(s, s.h, FailStep(s, w), keyOf, start, w, ENoMem);
    }
  }

  // ---------------------------------------------------------------------------------------
  // Every run

  lemma WriteKeepsInv<V>(s: Rcu<V>, keyOf: V -> bv32, start: set<V>, w: nat)
    requires Inv(s, keyOf, start) && w < |s.writers|
    ensures Inv(WriterStep(s, keyOf, w), keyOf, start)
  {
    hide Inv;
    match s.writers[w]
    case Idle =>
    case Copying(_, _) =>
    case Checking(_) => CheckKeepsInv(s, keyOf, start, w);
    case Cloned(_, _, _) => ChangeKeepsInv(s, keyOf, start, w);
    case Ready(_, _, _) => PublishKeepsInv(s, keyOf, start, w);
    case Reclaiming(_) => ReclaimKeepsInv(s, keyOf, start, w);
    case _ => GraceKeepsInv(s, keyOf, start, w);
  }

  lemma InvStep<V>(s: Rcu<V>, keyOf: V -> bv32, start: set<V>, l: Label<V>)
    requires Inv(s, keyOf, start)
    ensures Inv(Step(s, keyOf, l), keyOf, start)
  {
    hide Inv, ReaderStep, WriterStep, CloneStep, FailStep;
    match l
    case Enter(r, v) =>
      if r < |s.readers| && s.readers[r].pc.Outside? {
        ReaderMoves(s, Step(s, keyOf, l), keyOf, start, r);
      }
    case Read(r) => if r < |s.readers| { ReadKeepsInv(s, keyOf, start, r); }
    case Begin(w, op) =>
      if w < |s.writers| && s.writers[w].Idle? && !s.lock { BeginKeepsInv(s, keyOf, start, w, op); }
    case Write(w) => if w < |s.writers| { WriteKeepsInv(s, keyOf, start, w); }
    case Clone(w, c, items, nextItem) =>
      if w < |s.writers| && s.writers[w].Copying? { CloneKeepsInv(s, keyOf, start, w, c, items, nextItem); }
    case Fail(w) => if w < |s.writers| { FailKeepsInv(s, keyOf, start, w); }
  }

  /** A map with items of its own, and no other items, to start from */
  ghost predicate Starts<V>(m: Table<Ref>, items: map<nat, V>, nextItem: nat, keyOf: V -> bv32) {
    Owns(m, items, keyOf) && items.Keys == Ptrs(m) && forall p :: p in items ==> p < nextItem
  }

  lemma StartIsSound<V>(m: Table<Ref>, items: map<nat, V>, nextItem: nat, keyOf: V -> bv32)
    requires Starts(m, items, nextItem, keyOf)
    ensures Sound(Heap(map[0 := m], items, 1, nextItem), keyOf)
  {
    hide Owns, Ptrs;
    var h := Heap(map[0 := m], items, 1, nextItem);
    forall p | p in items ensures Held(h, p) {
      assert 0 in h.maps && p in Ptrs(h.maps[0]);
    }
  }

  lemma InvInit<V>(m: Table<Ref>, items: map<nat, V>, nextItem: nat, keyOf: V -> bv32, readers: nat, writers: nat)
    requires Starts(m, items, nextItem, keyOf)
    ensures Inv(Init(m, items, nextItem, readers, writers), keyOf, Members(m, items))
  {
    hide Starts, Sound, Members;
    StartIsSound(m, items, nextItem, keyOf);
  }

  lemma {:induction false} InvAlways<V>(
      m: Table<Ref>, items: map<nat, V>, nextItem: nat, keyOf: V -> bv32,
      readers: nat, writers: nat, ls: seq<Label<V>>)
    requires Starts(m, items, nextItem, keyOf)
    ensures Inv(Run(Init(m, items, nextItem, readers, writers), keyOf, ls), keyOf, Members(m, items))
  {
    hide Inv, Step, Init, Starts;
    if ls == [] {
      InvInit(m, items, nextItem, keyOf, readers, writers);
    } else {
      InvAlways(m, items, nextItem, keyOf, readers, writers, ls[..|ls| - 1]);
      InvStep(Run(Init(m, items, nextItem, readers, writers), keyOf, ls[..|ls| - 1]), keyOf, Members(m, items), ls[|ls| - 1]);
    }
  }

  // ---------------------------------------------------------------------------------------
  // The write lock is held by a writer at work

  ghost predicate LockHeld<V>(s: Rcu<V>) {
    s.lock ==> exists w :: 0 <= w < |s.writers| && HasLock(s.writers[w])
  }

  /** Writer `w` is at work under the lock afterwards, or it has dropped the lock, or neither changes. */
  ghost predicate KeepsLock<V>(s: Rcu<V>, s': Rcu<V>, w: nat) {
    && |s'.writers| == |s.writers|
    && (w < |s.writers| ==> s'.writers == s.writers[w := s'.writers[w]])
    && (w >= |s.writers| ==> s'.writers == s.writers)
    && (s'.lock ==>
        || (w < |s.writers| && HasLock(s'.writers[w]))
        || (s.lock && (w < |s.writers| ==> HasLock(s'.writers[w]) == HasLock(s.writers[w]))))
  }

  lemma LockPassesOn<V>(s: Rcu<V>, s': Rcu<V>, w: nat)
    requires LockHeld(s) && KeepsLock(s, s', w)
    ensures LockHeld(s')
  {
    if s'.lock {
      if w < |s.writers| && HasLock(s'.writers[w]) {
      } else {
        var u :| 0 <= u < |s.writers| && HasLock(s.writers[u]);
        assert HasLock(s'.writers[u]);
      }
    }
  }

  lemma WriteKeepsLock<V>(s: Rcu<V>, keyOf: V -> bv32, w: nat)
    requires w < |s.writers|
    ensures KeepsLock(s, WriterStep(s, keyOf, w), w)
  {
    hide Finds, ReadsBoth, Change, Drop, CanDrop, OpenSections;
  }

  lemma LockStep<V>(s: Rcu<V>, keyOf: V -> bv32, l: Label<V>)
    requires LockHeld(s)
    ensures LockHeld(Step(s, keyOf, l))
  {
    hide ReaderStep, WriterStep, FreshClone, Drop, CanDrop, LockHeld;
    var s' := Step(s, keyOf, l);
    match l
    case Enter(r, v) => LockPassesOn(s, s', |s.writers|);
    case Read(r) =>
      if r < |s.readers| { ReadKeepsWriters(s, keyOf, r); }
      LockPassesOn(s, s', |s.writers|);
    case Write(w) =>
      if w < |s.writers| { WriteKeepsLock(s, keyOf, w); }
      LockPassesOn(s, s', w);
    case _ => LockPassesOn(s, s', l.w);
  }

  lemma ReadKeepsWriters<V>(s: Rcu<V>, keyOf: V -> bv32, r: nat)
    requires r < |s.readers|
    ensures var s' := ReaderStep(s, keyOf, r);
      s' == s.(readers := s'.readers, fault := s'.fault) && |s'.readers| == |s.readers|
  {
    hide Slot1, Slot2, Matches, Reads, Registers;
  }

  lemma {:induction false} LockAlways<V>(s: Rcu<V>, keyOf: V -> bv32, ls: seq<Label<V>>)
    requires LockHeld(s)
    ensures LockHeld(Run(s, keyOf, ls))
  {
    hide Step, LockHeld;
    if ls != [] {
      LockAlways(s, keyOf, ls[..|ls| - 1]);
      LockStep(Run(s, keyOf, ls[..|ls| - 1]), keyOf, ls[|ls| - 1]);
    }
  }

  /**
  In every run the write lock is taken exactly while a writer is between its mutex_lock and its
  mutex_unlock; so with nobody there, every update that is asked for begins.
   */
  lemma LockIsFreeForTheNext<V>(
      m: Table<Ref>, items: map<nat, V>, nextItem: nat, keyOf: V -> bv32,
      readers: nat, writers: nat, ls: seq<Label<V>>, w: nat, op: Op<V>)
    requires Starts(m, items, nextItem, keyOf)
    ensures var s := Run(Init(m, items, nextItem, readers, writers), keyOf, ls);
      && (s.lock <==> exists u :: 0 <= u < |s.writers| && HasLock(s.writers[u]))
      && (w < |s.writers| && s.writers[w].Idle? && !s.lock ==>
          Step(s, keyOf, Begin(w, op)).writers[w] == Checking(op))
  {
    hide Run, Starts, Linear, NoLeak, Readers, Sound, SetOf;
    var s := Run(Init(m, items, nextItem, readers, writers), keyOf, ls);
    InvAlways(m, items, nextItem, keyOf, readers, writers, ls);
    LockAlways(Init(m, items, nextItem, readers, writers), keyOf, ls);
    if u :| 0 <= u < |s.writers| && HasLock(s.writers[u]) {
      assert WriterOk(s, u, s.writers[u]);
    }
  }

  // ---------------------------------------------------------------------------------------
  // What every run promises

  /** No run uses or frees freed memory; a reader's map is allocated, and every item in it. */
  lemma RcuIsSafe<V>(
      m: Table<Ref>, items: map<nat, V>, nextItem: nat, keyOf: V -> bv32,
      readers: nat, writers: nat, ls: seq<Label<V>>)
    requires Starts(m, items, nextItem, keyOf)
    ensures var s := Run(Init(m, items, nextItem, readers, writers), keyOf, ls);
      && !s.fault && s.published in s.h.maps
      && (forall r :: 0 <= r < |s.readers| && HasPtr(s.readers[r].pc) ==>
          var p := s.readers[r].pc.p; p in s.h.maps && Ptrs(s.h.maps[p]) <= s.h.items.Keys)
  {
    hide Run, Init, Starts, Sound, Linear, NoLeak;
    var s := Run(Init(m, items, nextItem, readers, writers), keyOf, ls);
    InvAlways(m, items, nextItem, keyOf, readers, writers, ls);
    forall r | 0 <= r < |s.readers| && HasPtr(s.readers[r].pc)
      ensures s.readers[r].pc.p in s.h.maps && Ptrs(s.h.maps[s.readers[r].pc.p]) <= s.h.items.Keys
    {
      assert ReaderOk(s, keyOf, r, s.readers[r]);
      OthersAreLive(s.h, keyOf, s.readers[r].pc.p);
    }
  }

  /** Published, half-made and retired maps share no item, and together they hold every item. */
  lemma ItemsHaveOneOwner<V>(
      m: Table<Ref>, items: map<nat, V>, nextItem: nat, keyOf: V -> bv32,
      readers: nat, writers: nat, ls: seq<Label<V>>)
    requires Starts(m, items, nextItem, keyOf)
    ensures var h := Run(Init(m, items, nextItem, readers, writers), keyOf, ls).h;
      && (forall j, k :: j in h.maps && k in h.maps && j != k ==> Disjoint(h, j, k))
      && (forall p :: p in h.items <==> Held(h, p))
  {
    hide Run, Init, Starts, Ptrs, Owns;
    var h := Run(Init(m, items, nextItem, readers, writers), keyOf, ls).h;
    InvAlways(m, items, nextItem, keyOf, readers, writers, ls);
    forall p | Held(h, p) ensures p in h.items {
      var k :| k in h.maps && p in Ptrs(h.maps[k]);
      OthersAreLive(h, keyOf, k);
    }
  }

  /** With no update in progress only the published map and its items are allocated. */
  lemma NothingLeaks<V>(
      m: Table<Ref>, items: map<nat, V>, nextItem: nat, keyOf: V -> bv32,
      readers: nat, writers: nat, ls: seq<Label<V>>)
    requires Starts(m, items, nextItem, keyOf)
    ensures var s := Run(Init(m, items, nextItem, readers, writers), keyOf, ls);
      (forall w :: 0 <= w < |s.writers| ==> s.writers[w].Idle?) ==>
        s.h.maps.Keys == {s.published} && s.h.items.Keys == Ptrs(s.h.maps[s.published])
  {
    hide Run, Init, Starts, Ptrs, Owns, Linear;
    var s := Run(Init(m, items, nextItem, readers, writers), keyOf, ls);
    InvAlways(m, items, nextItem, keyOf, readers, writers, ls);
    ItemsHaveOneOwner(m, items, nextItem, keyOf, readers, writers, ls);
    assert forall p :: p in Ptrs(s.h.maps[s.published]) ==> Held(s.h, p);
  }

  /** Every lookup answers whether the value was registered when the lookup loaded the pointer. */
  lemma LookupsAnswerForLoadedSet<V>(
      m: Table<Ref>, items: map<nat, V>, nextItem: nat, keyOf: V -> bv32,
      readers: nat, writers: nat, ls: seq<Label<V>>, r: nat)
    requires Starts(m, items, nextItem, keyOf)
    ensures var s := Run(Init(m, items, nextItem, readers, writers), keyOf, ls);
      r < |s.readers| ==>
        && (s.readers[r].pc.Answered? ==> s.readers[r].pc.found == s.readers[r].pc.was)
        && (s.readers[r].pc.Locked? ==>
            var pc' := Step(s, keyOf, Read(r)).readers[r].pc;
            pc'.Loaded? && pc'.was == (s.readers[r].pc.v in Replay(Members(m, items), s.log)))
  {
    hide Run, Init, Starts, Sound, Members, Legal, Replay;
    var s := Run(Init(m, items, nextItem, readers, writers), keyOf, ls);
    InvAlways(m, items, nextItem, keyOf, readers, writers, ls);
    if r < |s.readers| {
      assert ReaderOk(s, keyOf, r, s.readers[r]);
    }
  }

  /** The finished updates, in the order they took effect, are a legal history of a set. */
  lemma UpdatesAreLinearizable<V>(
      m: Table<Ref>, items: map<nat, V>, nextItem: nat, keyOf: V -> bv32,
      readers: nat, writers: nat, ls: seq<Label<V>>)
    requires Starts(m, items, nextItem, keyOf)
    ensures var s := Run(Init(m, items, nextItem, readers, writers), keyOf, ls);
      && Legal(Members(m, items), s.log) && s.published in s.h.maps
      && SetOf(s.h, s.published) == Replay(Members(m, items), s.log)
  {
    hide Run, Init, Starts, Sound, Members, Legal, Replay;
    InvAlways(m, items, nextItem, keyOf, readers, writers, ls);
  }
}
