/**
What a map of sysThrot_store.c means: the set of registered users or programs that its
heap-allocated items hold, who owns those items, and what lookup, insertion and removal do
to that set. `V` is `int` for users and a C string for programs; `keyOf` is
`getKeyFromUserId` or `getKeyFromProgramName`.
 */
module StoreModel {
  import CuckooHash
  import opened CuckooTable
  import opened Lists

  /** A slot's contents: the stored key and the pointer to the item */
  datatype Ref = Ref(key: bv32, ptr: nat)

  function RefHash1(r: Ref): (h: nat)
    ensures h < TABLE_SIZE
  {
    CuckooHash.Hash1(r.key)
  }

  function RefHash2(r: Ref): (h: nat)
    ensures h < TABLE_SIZE
  {
    CuckooHash.Hash2(r.key)
  }

  const HASHES: Hashes<Ref> := Hashes(RefHash1, RefHash2)

  lemma HashesAreBounded()
    ensures Bounded(HASHES)
  {
    hide CuckooHash.Hash1, CuckooHash.Hash2;
  }

  /** The item that a slot points to is `v`: what `compare` sees. */
  predicate Matches<V(==)>(s: Slot<Ref>, live: map<nat, V>, v: V) {
    s.Used? && s.entry.ptr in live && live[s.entry.ptr] == v
  }

  /** `contains` */
  predicate Probe<V(==)>(m: Table<Ref>, live: map<nat, V>, key: bv32, v: V)
    requires Shaped(m)
  {
    || Matches(m.t0[RefHash1(Ref(key, 0))], live, v)
    || Matches(m.t1[RefHash2(Ref(key, 0))], live, v)
  }

  ghost function Ptrs(m: Table<Ref>): set<nat> { set r | r in Contents(m) :: r.ptr }

  /** The registered values */
  ghost function Members<V>(m: Table<Ref>, live: map<nat, V>): set<V> {
    set r | r in Contents(m) && r.ptr in live :: live[r.ptr]
  }

  /** Every entry points to an allocated item whose key it carries. */
  ghost predicate Resolved<V>(es: multiset<Ref>, live: map<nat, V>, keyOf: V -> bv32) {
    forall r :: r in es ==> r.ptr in live && r.key == keyOf(live[r.ptr])
  }

  ghost predicate SameValue<V>(live: map<nat, V>, r: Ref, r': Ref) {
    r.ptr in live && r'.ptr in live && live[r.ptr] == live[r'.ptr]
  }

  /** No entry twice, no value twice; so no item is shared between slots either. */
  ghost predicate Distinct<V>(es: multiset<Ref>, live: map<nat, V>) {
    && (forall r :: es[r] <= 1)
    && (forall r, r' :: r in es && r' in es && SameValue(live, r, r') ==> r == r')
  }

  ghost predicate Owns<V>(m: Table<Ref>, live: map<nat, V>, keyOf: V -> bv32) {
    && Shaped(m) && Placed(m, HASHES)
    && Resolved(Contents(m), live, keyOf)
    && Distinct(Contents(m), live)
  }

  /** Lookup is exact: two probes decide membership. */
  lemma LookupIsMembership<V>(m: Table<Ref>, live: map<nat, V>, keyOf: V -> bv32, v: V)
    requires Owns(m, live, keyOf)
    ensures Probe(m, live, keyOf(v), v) <==> v in Members(m, live)
  {
    hide Contents, CuckooHash.Hash1, CuckooHash.Hash2;
    HashesAreBounded();
    var s0, s1 := m.t0[RefHash1(Ref(keyOf(v), 0))], m.t1[RefHash2(Ref(keyOf(v), 0))];
    if Matches(s0, live, v) { SlotIsContent(m, RefHash1(Ref(keyOf(v), 0))); }
    if Matches(s1, live, v) { SlotIsContent(m, RefHash2(Ref(keyOf(v), 0))); }
    if v in Members(m, live) {
      var r :| r in Contents(m) && r.ptr in live && live[r.ptr] == v;
      TwoProbesSuffice(m, HASHES, r);
    }
  }

  lemma SlotIsContent(m: Table<Ref>, i: nat)
    requires Shaped(m) && i < TABLE_SIZE
    ensures m.t0[i].Used? ==> m.t0[i].entry in Contents(m)
    ensures m.t1[i].Used? ==> m.t1[i].entry in Contents(m)
  {
    hide Entries;
    if m.t0[i].Used? { EntryHasSlot(m.t0, m.t0[i].entry); }
    if m.t1[i].Used? { EntryHasSlot(m.t1, m.t1[i].entry); }
  }

  /** Inserting an absent value, seen from the set and from the heap. */
  lemma InsertRefinesSet<V>(m: Table<Ref>, live: map<nat, V>, keyOf: V -> bv32, p: nat)
    requires Bounded(HASHES) && Owns(m, live, keyOf)
    requires p in live && live[p] !in Members(m, live)
    ensures var r := Ref(keyOf(live[p]), p);
      var (m', d) := InsertLoop(m, HASHES, r, MAX_KICKS);
      && (d.None? ==>
          && Owns(m', live, keyOf) && Members(m', live) == Members(m, live) + {live[p]}
          && Ptrs(m') == Ptrs(m) + {p})
      && (d.Some? ==>
          && Owns(m', live - {d.e.ptr}, keyOf) && d.e.ptr !in Ptrs(m')
          && d.e.ptr in live && Ptrs(m') + {d.e.ptr} == Ptrs(m) + {p})
  {
    hide Contents, InsertLoop;
    var r := Ref(keyOf(live[p]), p);
    var (m', d) := InsertLoop(m, HASHES, r, MAX_KICKS);
    InsertConserves(m, HASHES, r, MAX_KICKS);
    var all := Contents(m) + multiset{r};
    PutIn(Contents(m), r, live, keyOf);
    if d.None? {
      assert Contents(m') == all;
    } else {
      hide Resolved, Distinct;
      assert Contents(m') + multiset{d.e} == all;
      TakenOut(all, Contents(m'), d.e, live, keyOf);
    }
  }

  /** Putting an entry for a new value into a resolved bag. */
  lemma PutIn<V>(es: multiset<Ref>, r: Ref, live: map<nat, V>, keyOf: V -> bv32)
    requires Resolved(es, live, keyOf) && Distinct(es, live)
    requires r.ptr in live && r.key == keyOf(live[r.ptr])
    requires forall x :: x in es ==> live[x.ptr] != live[r.ptr]
    ensures Resolved(es + multiset{r}, live, keyOf) && Distinct(es + multiset{r}, live)
    ensures r !in es
  {
  }

  /** Taking one entry out of a resolved bag and freeing its item leaves the rest resolved. */
  lemma TakenOut<V>(all: multiset<Ref>, rest: multiset<Ref>, e: Ref, live: map<nat, V>, keyOf: V -> bv32)
    requires Resolved(all, live, keyOf) && Distinct(all, live) && rest + multiset{e} == all
    ensures e in all && forall r :: r in rest <==> r in all && r != e
    ensures forall r :: r in rest ==> r.ptr != e.ptr
    ensures Resolved(rest, live - {e.ptr}, keyOf) && Distinct(rest, live - {e.ptr})
  {
    assert all[e] == rest[e] + 1;
    forall r ensures r in rest <==> r in all && r != e {
      assert r != e ==> all[r] == rest[r];
    }
  }

  /** Clearing the slot of `e` and freeing its item removes exactly its value. */
  lemma RemovalRefinesSet<V>(m: Table<Ref>, m': Table<Ref>, e: Ref, live: map<nat, V>, keyOf: V -> bv32)
    requires Owns(m, live, keyOf)
    requires Shaped(m') && Placed(m', HASHES) && Contents(m') + multiset{e} == Contents(m)
    ensures e.ptr in live && Owns(m', live - {e.ptr}, keyOf)
    ensures Members(m', live - {e.ptr}) == Members(m, live) - {live[e.ptr]}
    ensures Ptrs(m') == Ptrs(m) - {e.ptr}
  {
    hide Contents;
    TakenOut(Contents(m), Contents(m'), e, live, keyOf);
  }

  // ---------------------------------------------------------------------------------------
  // Slots, one by one

  /** Both tables as one list of slots */
  function Slots(m: Table<Ref>): seq<Slot<Ref>> { m.t0 + m.t1 }

  lemma {:induction false} EntriesOfConcat(a: seq<Slot<Ref>>, b: seq<Slot<Ref>>)
    ensures Entries(a + b) == Entries(a) + Entries(b)
  {
    if a == [] {
      assert a + b == b;
    } else {
      assert (a + b)[1..] == a[1..] + b && (a + b)[0] == a[0];
      EntriesOfConcat(a[1..], b);
      assert One(a[0]) + (Entries(a[1..]) + Entries(b)) == (One(a[0]) + Entries(a[1..])) + Entries(b);
    }
  }

  /** An entry is in the map exactly when some slot holds it. */
  lemma ContentHasSlot(m: Table<Ref>, e: Ref)
    ensures e in Contents(m) <==> exists i :: 0 <= i < |Slots(m)| && Slots(m)[i] == Used(e)
  {
    EntriesOfConcat(m.t0, m.t1);
    EntryHasSlot(Slots(m), e);
  }

  lemma TwoSlots(slots: seq<Slot<Ref>>, i: nat, j: nat, e: Ref)
    requires i < |slots| && j < |slots| && i != j && slots[i] == slots[j] == Used(e)
    ensures Entries(slots)[e] >= 2
  {
    hide Entries;
    var without := slots[i := Free];
    EntriesUpdate(slots, i, Free);
    assert without[j] == Used(e);
    EntryHasSlot(without, e);
    assert (Entries(without) + multiset{e})[e] >= 2;
  }

  ghost predicate OnePtrEach(es: multiset<Ref>) {
    && (forall r :: es[r] <= 1)
    && (forall r, r' :: r in es && r' in es && r.ptr == r'.ptr ==> r == r')
  }

  predicate SamePtr(s: Slot<Ref>, s': Slot<Ref>) { s.Used? && s'.Used? && s.entry.ptr == s'.entry.ptr }

  /** Items are not shared between slots. */
  lemma SlotsShareNothing(m: Table<Ref>, i: nat, j: nat)
    requires OnePtrEach(Contents(m)) && i < |Slots(m)| && j < |Slots(m)| && i != j
    ensures !SamePtr(Slots(m)[i], Slots(m)[j])
  {
    hide Entries;
    if SamePtr(Slots(m)[i], Slots(m)[j]) {
      var e := Slots(m)[i].entry;
      EntriesOfConcat(m.t0, m.t1);
      EntryHasSlot(Slots(m), e);
      EntryHasSlot(Slots(m), Slots(m)[j].entry);
      TwoSlots(Slots(m), i, j, e);
    }
  }

  lemma OwnedPtrsAreOneEach<V>(m: Table<Ref>, live: map<nat, V>, keyOf: V -> bv32)
    requires Owns(m, live, keyOf)
    ensures OnePtrEach(Contents(m))
  {
    hide Contents;
    forall r, r' | r in Contents(m) && r' in Contents(m) && r.ptr == r'.ptr ensures r == r' {
      assert SameValue(live, r, r');
    }
  }

  // ---------------------------------------------------------------------------------------
  // Clones

  /** Slot `s'` holds a copy of what slot `s` holds. */
  predicate CopyOf<V(==)>(s: Slot<Ref>, live: map<nat, V>, s': Slot<Ref>, live': map<nat, V>) {
    && s.Used? == s'.Used?
    && (s.Used? ==>
        && s.entry.key == s'.entry.key
        && s.entry.ptr in live && s'.entry.ptr in live'
        && live[s.entry.ptr] == live'[s'.entry.ptr])
  }

  ghost predicate Copied<V>(m: Table<Ref>, live: map<nat, V>, m': Table<Ref>, live': map<nat, V>) {
    && Shaped(m) && Shaped(m')
    && forall i :: 0 <= i < |Slots(m)| ==> CopyOf(Slots(m)[i], live, Slots(m')[i], live')
  }

  /** A slot-by-slot copy with new items is a map of the same set. */
  lemma CloneIsEqual<V>(
      m: Table<Ref>, live: map<nat, V>, m': Table<Ref>, live': map<nat, V>, keyOf: V -> bv32)
    requires Owns(m, live, keyOf) && Copied(m, live, m', live')
    requires forall r :: Contents(m')[r] <= 1
    ensures Owns(m', live', keyOf) && Members(m', live') == Members(m, live)
  {
    hide Contents, Copied, Placed, Slots;
    CloneIsPlaced(m, live, m', live');
    CloneResolves(m, live, m', live', keyOf);
    forall r, x | r in Contents(m') && x in Contents(m') && SameValue(live', r, x) ensures r == x {
      CloneValuesDiffer(m, live, m', live', keyOf, r, x);
    }
  }

  lemma CloneIsPlaced<V>(m: Table<Ref>, live: map<nat, V>, m': Table<Ref>, live': map<nat, V>)
    requires Copied(m, live, m', live') && Placed(m, HASHES)
    ensures Shaped(m') && Placed(m', HASHES)
  {
    hide CuckooHash.Hash1, CuckooHash.Hash2;
    forall i | 0 <= i < TABLE_SIZE
      ensures m'.t0[i].Used? ==> RefHash1(m'.t0[i].entry) == i
      ensures m'.t1[i].Used? ==> RefHash2(m'.t1[i].entry) == i
    {
      assert CopyOf(Slots(m)[i], live, Slots(m')[i], live');
      assert CopyOf(Slots(m)[TABLE_SIZE + i], live, Slots(m')[TABLE_SIZE + i], live');
    }
  }

  lemma CloneResolves<V>(
      m: Table<Ref>, live: map<nat, V>, m': Table<Ref>, live': map<nat, V>, keyOf: V -> bv32)
    requires Copied(m, live, m', live') && Resolved(Contents(m), live, keyOf)
    ensures Resolved(Contents(m'), live', keyOf) && Members(m', live') == Members(m, live)
  {
    hide Contents, Slots;
    SlotsLength(m, m');
    forall r | r in Contents(m')
      ensures r.ptr in live' && r.key == keyOf(live'[r.ptr]) && live'[r.ptr] in Members(m, live)
    {
      ContentHasSlot(m', r);
      var i :| 0 <= i < |Slots(m')| && Slots(m')[i] == Used(r);
      assert CopyOf(Slots(m)[i], live, Slots(m')[i], live');
      ContentHasSlot(m, Slots(m)[i].entry);
    }
    forall r | r in Contents(m) ensures live[r.ptr] in Members(m', live') {
      ContentHasSlot(m, r);
      var i :| 0 <= i < |Slots(m)| && Slots(m)[i] == Used(r);
      assert CopyOf(Slots(m)[i], live, Slots(m')[i], live');
      ContentHasSlot(m', Slots(m')[i].entry);
    }
  }

  lemma SlotsLength(m: Table<Ref>, m': Table<Ref>)
    requires Shaped(m) && Shaped(m')
    ensures |Slots(m)| == |Slots(m')|
  {
  }

  lemma CloneValuesDiffer<V>(
      m: Table<Ref>, live: map<nat, V>, m': Table<Ref>, live': map<nat, V>, keyOf: V -> bv32, r: Ref, x: Ref)
    requires Owns(m, live, keyOf) && Copied(m, live, m', live')
    requires r in Contents(m') && x in Contents(m') && SameValue(live', r, x)
    ensures r == x
  {
    hide Contents, Slots, Placed;
    SlotsLength(m, m');
    ContentHasSlot(m', r);
    ContentHasSlot(m', x);
    var i :| 0 <= i < |Slots(m')| && Slots(m')[i] == Used(r);
    var j :| 0 <= j < |Slots(m')| && Slots(m')[j] == Used(x);
    var s, u := Slots(m)[i], Slots(m)[j];
    assert CopyOf(s, live, Slots(m')[i], live') && CopyOf(u, live, Slots(m')[j], live');
    ContentHasSlot(m, s.entry);
    ContentHasSlot(m, u.entry);
    assert SameValue(live, s.entry, u.entry);
    if i != j {
      OwnedPtrsAreOneEach(m, live, keyOf);
      SlotsShareNothing(m, i, j);
    }
  }

  // ---------------------------------------------------------------------------------------
  // The loops that copy and free slot by slot

  ghost function PtrsOf(es: multiset<Ref>): set<nat> { set r | r in es :: r.ptr }

  /** Pointers in the slots whose positions are in `ks` */
  ghost function PtrsAt(slots: seq<Slot<Ref>>, ks: set<nat>): set<nat> {
    set k | k in ks && k < |slots| && slots[k].Used? :: slots[k].entry.ptr
  }

  /** The slots visited by the first `i` rounds of a loop over both tables */
  ghost function Visited(i: nat): set<nat> { set k | 0 <= k < 2 * TABLE_SIZE && IsVisited(k, i) }

  predicate IsVisited(k: nat, i: nat) { k < i || TABLE_SIZE <= k < TABLE_SIZE + i }

  lemma PtrNotYetFreed(m: Table<Ref>, done: set<nat>, k: nat)
    requires OnePtrEach(Contents(m)) && k < |Slots(m)| && k !in done && Slots(m)[k].Used?
    ensures Slots(m)[k].entry.ptr !in PtrsAt(Slots(m), done)
    ensures Slots(m)[k].entry.ptr in PtrsOf(Contents(m))
  {
    hide Contents, Slots;
    forall j | j in done && j < |Slots(m)| && Slots(m)[j].Used?
      ensures Slots(m)[j].entry.ptr != Slots(m)[k].entry.ptr
    {
      SlotsShareNothing(m, j, k);
    }
    ContentHasSlot(m, Slots(m)[k].entry);
  }

  lemma AllPtrsVisited(m: Table<Ref>)
    requires Shaped(m)
    ensures PtrsAt(Slots(m), Visited(TABLE_SIZE)) == PtrsOf(Contents(m))
  {
    hide Contents;
    forall r | r in Contents(m) ensures r.ptr in PtrsAt(Slots(m), Visited(TABLE_SIZE)) {
      ContentHasSlot(m, r);
      var k :| 0 <= k < |Slots(m)| && Slots(m)[k] == Used(r);
      assert k in Visited(TABLE_SIZE);
    }
    forall k | k in Visited(TABLE_SIZE) && k < |Slots(m)| && Slots(m)[k].Used?
      ensures Slots(m)[k].entry.ptr in PtrsOf(Contents(m))
    {
      ContentHasSlot(m, Slots(m)[k].entry);
    }
  }

  /** `dst` holds copies of the `done` slots of `src`, in items allocated from `base` on. */
  ghost predicate Cloning<V>(
      src: seq<Slot<Ref>>, live0: map<nat, V>,
      dst: seq<Slot<Ref>>, live: map<nat, V>, base: nat, next: nat, done: set<nat>)
  {
    && |src| == |dst| && base <= next
    && (forall p :: p in live0 ==> p < base && p in live && live[p] == live0[p])
    && (forall r :: r in Entries(dst) ==> base <= r.ptr < next)
    && OnePtrEach(Entries(dst))
    && live.Keys == live0.Keys + PtrsOf(Entries(dst))
    && (forall k :: 0 <= k < |src| ==>
        if k in done then CopyOf(src[k], live0, dst[k], live) else dst[k].Free?)
  }

  lemma CloneSlot<V>(
      src: seq<Slot<Ref>>, live0: map<nat, V>,
      dst: seq<Slot<Ref>>, live: map<nat, V>, base: nat, next: nat, done: set<nat>, k: nat)
    requires Cloning(src, live0, dst, live, base, next, done)
    requires k < |src| && k !in done && src[k].Used? && src[k].entry.ptr in live0 && next !in live
    ensures var p := next;
      var v := live0[src[k].entry.ptr];
      Cloning(src, live0, dst[k := Used(Ref(src[k].entry.key, p))], live[p := v], base, next + 1, done + {k})
  {
    hide Entries, PtrsOf, OnePtrEach;
    var r := Ref(src[k].entry.key, next);
    var dst' := dst[k := Used(r)];
    EntriesUpdate(dst, k, Used(r));
    assert Entries(dst') == Entries(dst) + multiset{r};
    NewPtr(Entries(dst), r, next);
    forall j | 0 <= j < |src| && j in done && j != k
      ensures CopyOf(src[j], live0, dst[j], live[next := live0[src[k].entry.ptr]])
    {
      assert CopyOf(src[j], live0, dst[j], live);
    }
  }

  lemma NewPtr(es: multiset<Ref>, r: Ref, next: nat)
    requires OnePtrEach(es) && r.ptr == next && forall x :: x in es ==> x.ptr < next
    ensures OnePtrEach(es + multiset{r}) && PtrsOf(es + multiset{r}) == PtrsOf(es) + {next}
  {
  }

  // ---------------------------------------------------------------------------------------
  // Other allocations do not matter

  /** A map keeps its meaning in any heap that agrees on its own items. */
  lemma OwnsElsewhere<V>(m: Table<Ref>, live: map<nat, V>, live': map<nat, V>, keyOf: V -> bv32)
    requires Owns(m, live, keyOf)
    requires forall p :: p in Ptrs(m) ==> p in live && p in live' && live'[p] == live[p]
    ensures Owns(m, live', keyOf) && Members(m, live') == Members(m, live)
  {
    hide Contents, Placed;
    forall r | r in Contents(m) ensures r.ptr in live && r.ptr in live' && live'[r.ptr] == live[r.ptr] {
      assert r.ptr in Ptrs(m);
    }
    forall r, x | r in Contents(m) && x in Contents(m) && SameValue(live', r, x) ensures r == x {
      assert SameValue(live, r, x);
    }
  }

  lemma OwnedPtrsAreLive<V>(m: Table<Ref>, live: map<nat, V>, keyOf: V -> bv32)
    requires Owns(m, live, keyOf)
    ensures Ptrs(m) <= live.Keys && forall r :: r in Contents(m) ==> r.ptr in live
  {
    hide Contents, Placed;
  }

  // ---------------------------------------------------------------------------------------
  // Listing

  function ValueIn<V>(s: Slot<Ref>, live: map<nat, V>): seq<V> {
    if s.Used? && s.entry.ptr in live then [live[s.entry.ptr]] else []
  }

  /** What the first `i` rounds of a listing loop write */
  function Listing<V>(m: Table<Ref>, live: map<nat, V>, i: nat): (vs: seq<V>)
    requires Shaped(m) && i <= TABLE_SIZE
    ensures |vs| <= 2 * i
  {
    if i == 0 then []
    else Listing(m, live, i - 1) + ValueIn(m.t0[i - 1], live) + ValueIn(m.t1[i - 1], live)
  }

  /** `vs` holds exactly the values of the slots in `ks`, each once. */
  ghost predicate ListsAll<V>(slots: seq<Slot<Ref>>, live: map<nat, V>, vs: seq<V>, ks: set<nat>) {
    && NoDup(vs)
    && (forall v :: v in vs ==> exists k :: k in ks && k < |slots| && Matches(slots[k], live, v))
    && (forall k :: k in ks && k < |slots| && slots[k].Used? && slots[k].entry.ptr in live ==>
        live[slots[k].entry.ptr] in vs)
  }

  lemma {:induction false} ListingIsExact<V>(m: Table<Ref>, live: map<nat, V>, keyOf: V -> bv32, i: nat)
    requires Shaped(m) && Owns(m, live, keyOf) && i <= TABLE_SIZE
    ensures ListsAll(Slots(m), live, Listing(m, live, i), Visited(i))
  {
    hide Owns, ListsAll;
    if i > 0 {
      var before := Listing(m, live, i - 1);
      ListingIsExact(m, live, keyOf, i - 1);
      var s, u := m.t0[i - 1], m.t1[i - 1];
      assert Slots(m)[i - 1] == s && Slots(m)[TABLE_SIZE + i - 1] == u;
      AddToListing(m, live, keyOf, before, Visited(i - 1), i - 1);
      AddToListing(m, live, keyOf, before + ValueIn(s, live), Visited(i - 1) + {i - 1}, TABLE_SIZE + i - 1);
      assert Visited(i) == Visited(i - 1) + {i - 1} + {TABLE_SIZE + i - 1};
    } else {
      NothingListed(Slots(m), live);
    }
  }

  lemma NothingListed<V>(slots: seq<Slot<Ref>>, live: map<nat, V>)
    ensures Visited(0) == {} && ListsAll(slots, live, [], {})
  {
  }

  lemma AddToListing<V>(
      m: Table<Ref>, live: map<nat, V>, keyOf: V -> bv32, vs: seq<V>, ks: set<nat>, k: nat)
    requires Owns(m, live, keyOf) && ListsAll(Slots(m), live, vs, ks) && k < |Slots(m)| && k !in ks
    ensures ListsAll(Slots(m), live, vs + ValueIn(Slots(m)[k], live), ks + {k})
  {
    hide Owns, Slots;
    var slots := Slots(m);
    var added := ValueIn(slots[k], live);
    if added != [] && added[0] in vs {
      var j :| j in ks && j < |slots| && Matches(slots[j], live, added[0]);
      SlotsDiffer(m, live, keyOf, j, k);
      assert false;
    }
    forall v | v in vs + added
      ensures exists j :: j in ks + {k} && j < |slots| && Matches(slots[j], live, v)
    {
      if v in vs {
        var j :| j in ks && j < |slots| && Matches(slots[j], live, v);
        assert j in ks + {k};
      } else {
        assert k in ks + {k} && Matches(slots[k], live, v);
      }
    }
  }

  /** Two slots never hold the same value. */
  lemma SlotsDiffer<V>(m: Table<Ref>, live: map<nat, V>, keyOf: V -> bv32, j: nat, k: nat)
    requires Owns(m, live, keyOf) && j < |Slots(m)| && k < |Slots(m)| && j != k
    ensures !(Slots(m)[j].Used? && Slots(m)[k].Used? && SameValue(live, Slots(m)[j].entry, Slots(m)[k].entry))
  {
    hide Contents, Placed, Slots;
    if Slots(m)[j].Used? && Slots(m)[k].Used? && SameValue(live, Slots(m)[j].entry, Slots(m)[k].entry) {
      ContentHasSlot(m, Slots(m)[j].entry);
      ContentHasSlot(m, Slots(m)[k].entry);
      OwnedPtrsAreOneEach(m, live, keyOf);
      SlotsShareNothing(m, j, k);
    }
  }

  /** The full listing is the set, without repetition, so it has as many elements. */
  lemma FullListing<V>(m: Table<Ref>, live: map<nat, V>, keyOf: V -> bv32)
    requires Owns(m, live, keyOf)
    ensures NoDup(Listing(m, live, TABLE_SIZE))
    ensures forall v :: v in Listing(m, live, TABLE_SIZE) <==> v in Members(m, live)
    ensures |Listing(m, live, TABLE_SIZE)| == |Members(m, live)|
  {
    hide Contents, Placed, Listing;
    ListingIsExact(m, live, keyOf, TABLE_SIZE);
    var vs := Listing(m, live, TABLE_SIZE);
    forall v | v in vs ensures v in Members(m, live) {
      var k :| k in Visited(TABLE_SIZE) && k < |Slots(m)| && Matches(Slots(m)[k], live, v);
      ContentHasSlot(m, Slots(m)[k].entry);
    }
    forall v | v in Members(m, live) ensures v in vs {
      var r :| r in Contents(m) && r.ptr in live && live[r.ptr] == v;
      ContentHasSlot(m, r);
      var k :| 0 <= k < |Slots(m)| && Slots(m)[k] == Used(r);
      assert k in Visited(TABLE_SIZE);
    }
    SizeOfNoDup(vs);
    assert ToSet(vs) == Members(m, live);
  }

  // ---------------------------------------------------------------------------------------
  // Clone and change, as values

  datatype Code = Ok | EExist | EInval | ENoMem | ENoSpc

  /** An update asked for by the administrator */
  datatype Op<V> = Add(v: V) | Delete(v: V)

  function After<V>(registered: set<V>, op: Op<V>): set<V> {
    match op case Add(v) => registered + {v} case Delete(v) => registered - {v}
  }

  /**
  What a successful `clone_map` leaves: a slot-by-slot copy in items of its own, all of them
  allocated since the counter stood at `next`, and every older item as it was.
   */
  ghost predicate FreshClone<V>(
      m: Table<Ref>, live: map<nat, V>, next: nat, m': Table<Ref>, live': map<nat, V>, next': nat)
  {
    && Copied(m, live, m', live') && OnePtrEach(Contents(m')) && next <= next'
    && (forall p :: p in Ptrs(m') ==> next <= p < next')
    && live'.Keys == live.Keys + Ptrs(m')
    && (forall p :: p in live ==> p in live' && live'[p] == live[p])
  }

  /** Item `p` leaves a map and is freed. */
  ghost predicate TakesOut<V>(live: map<nat, V>, ptrs: set<nat>, live': map<nat, V>, ptrs': set<nat>, p: nat) {
    p in ptrs && live' == live - {p} && ptrs' == ptrs - {p}
  }

  /** What `insert` or `remove` returns and leaves behind */
  datatype Changed<V> = Changed(code: Code, table: Table<Ref>, live: map<nat, V>)

  /** `insert` of item `p` */
  ghost function Insertion<V>(m: Table<Ref>, live: map<nat, V>, keyOf: V -> bv32, p: nat): Changed<V>
    requires Shaped(m) && p in live
  {
    HashesAreBounded();
    if Probe(m, live, keyOf(live[p]), live[p]) then Changed(EExist, m, live)
    else
      var (m', d) := InsertLoop(m, HASHES, Ref(keyOf(live[p]), p), MAX_KICKS);
      if d.None? then Changed(Ok, m', live) else Changed(ENoSpc, m', live - {d.e.ptr})
  }

  /** `remove` */
  ghost function Removal<V>(m: Table<Ref>, live: map<nat, V>, keyOf: V -> bv32, v: V): Changed<V>
    requires Shaped(m)
  {
    var h1, h2 := RefHash1(Ref(keyOf(v), 0)), RefHash2(Ref(keyOf(v), 0));
    if Matches(m.t0[h1], live, v)
    then Changed(Ok, m.(t0 := m.t0[h1 := Free]), live - {m.t0[h1].entry.ptr})
    else if Matches(m.t1[h2], live, v)
    then Changed(Ok, m.(t1 := m.t1[h2 := Free]), live - {m.t1[h2].entry.ptr})
    else Changed(EInval, m, live)
  }

  lemma FreshCloneIsEqual<V>(
      m: Table<Ref>, live: map<nat, V>, next: nat, m': Table<Ref>, live': map<nat, V>, next': nat, keyOf: V -> bv32)
    requires Owns(m, live, keyOf) && FreshClone(m, live, next, m', live', next')
    ensures Owns(m', live', keyOf) && Members(m', live') == Members(m, live)
  {
    hide Contents, Copied, Placed, Ptrs;
    CloneIsEqual(m, live, m', live', keyOf);
  }

  /** Inserting a value that is absent: the two ways it can end. */
  lemma InsertionMeans<V>(m: Table<Ref>, live: map<nat, V>, keyOf: V -> bv32, p: nat)
    requires Owns(m, live, keyOf) && p in live && live[p] !in Members(m, live)
    ensures var r := Insertion(m, live, keyOf, p);
      && Owns(r.table, r.live, keyOf) && (r.code == Ok || r.code == ENoSpc)
      && (r.code == Ok ==>
          r.live == live && Members(r.table, live) == Members(m, live) + {live[p]} && Ptrs(r.table) == Ptrs(m) + {p})
      && (r.code == ENoSpc ==> exists lost :: TakesOut(live, Ptrs(m) + {p}, r.live, Ptrs(r.table), lost))
  {
    hide Contents, Placed, InsertLoop, Probe, Resolved, Distinct;
    HashesAreBounded();
    LookupIsMembership(m, live, keyOf, live[p]);
    InsertRefinesSet(m, live, keyOf, p);
    var d := InsertLoop(m, HASHES, Ref(keyOf(live[p]), p), MAX_KICKS).1;
    if d.Some? {
      var r := Insertion(m, live, keyOf, p);
      assert TakesOut(live, Ptrs(m) + {p}, r.live, Ptrs(r.table), d.e.ptr);
    }
  }

  /** Removing a value that is present always succeeds. */
  lemma RemovalMeans<V>(m: Table<Ref>, live: map<nat, V>, keyOf: V -> bv32, v: V)
    requires Owns(m, live, keyOf)
    ensures var r := Removal(m, live, keyOf, v);
      && Owns(r.table, r.live, keyOf) && (r.code == Ok <==> v in Members(m, live))
      && (r.code == Ok ==>
          && Members(r.table, r.live) == Members(m, live) - {v}
          && exists p :: TakesOut(live, Ptrs(m), r.live, Ptrs(r.table), p))
      && (r.code != Ok ==> r == Changed(EInval, m, live))
  {
    hide Contents, Placed, Resolved, Distinct, CuckooHash.Hash1, CuckooHash.Hash2;
    LookupIsMembership(m, live, keyOf, v);
    var h1, h2 := RefHash1(Ref(keyOf(v), 0)), RefHash2(Ref(keyOf(v), 0));
    var r := Removal(m, live, keyOf, v);
    if Matches(m.t0[h1], live, v) {
      OwnsIsPlaced(m, live, keyOf);
      ClearRemoves(m, HASHES, h1);
      RemovalRefinesSet(m, r.table, m.t0[h1].entry, live, keyOf);
      SlotIsContent(m, h1);
      assert TakesOut(live, Ptrs(m), r.live, Ptrs(r.table), m.t0[h1].entry.ptr);
    } else if Matches(m.t1[h2], live, v) {
      OwnsIsPlaced(m, live, keyOf);
      ClearRemoves(m, HASHES, h2);
      RemovalRefinesSet(m, r.table, m.t1[h2].entry, live, keyOf);
      SlotIsContent(m, h2);
      assert TakesOut(live, Ptrs(m), r.live, Ptrs(r.table), m.t1[h2].entry.ptr);
    }
  }

  lemma OwnsIsPlaced<V>(m: Table<Ref>, live: map<nat, V>, keyOf: V -> bv32)
    requires Owns(m, live, keyOf)
    ensures Shaped(m) && Placed(m, HASHES)
  {
  }

  // ---------------------------------------------------------------------------------------
  // One whole update

  /** How far an update got: the test failed, or an allocation did, or the clone was changed. */
  datatype Course<V> =
    | Refused
    | NoClone
    | NoItem(c: Table<Ref>, items: map<nat, V>, next: nat)
    | Tried(c: Table<Ref>, items: map<nat, V>, next: nat)

  /** `insert` of a new item for `op.v`, or `remove` of `op.v`, on the clone */
  ghost function ChangeClone<V>(c: Table<Ref>, items: map<nat, V>, next: nat, keyOf: V -> bv32, op: Op<V>): Changed<V>
    requires Shaped(c)
  {
    if op.Add? then Insertion(c, items[next := op.v], keyOf, next) else Removal(c, items, keyOf, op.v)
  }

  /** The update `op` of map `m` takes this course, returns `code`, and leaves map `m'` and items `live'`. */
  ghost predicate Updates<V>(
      m: Table<Ref>, live: map<nat, V>, next: nat, keyOf: V -> bv32, op: Op<V>,
      course: Course<V>, code: Code, m': Table<Ref>, live': map<nat, V>)
    requires Shaped(m)
  {
    var found := Probe(m, live, keyOf(op.v), op.v);
    && (course.Refused? <==> op.Add? == found)
    && (course.NoItem? || course.Tried? ==> FreshClone(m, live, next, course.c, course.items, course.next))
    && (code != Ok ==> m' == m)
    && match course
       case Refused => code == (if found then EExist else EInval) && live' == live
       case NoClone => code == ENoMem && live' == live
       case NoItem(c, items, _) => op.Add? && code == ENoMem && live' == items - Ptrs(c)
       case Tried(c, items, next') =>
         var r := ChangeClone(c, items, next', keyOf, op);
         if r.code == Ok then code == Ok && m' == r.table && live' == r.live - Ptrs(m)
         else code == (if op.Add? then ENoSpc else EInval) && live' == r.live - Ptrs(r.table)
  }
}
