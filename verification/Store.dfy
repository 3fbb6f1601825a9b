/**
The store of sysThrot_store.c as objects: the allocator that hands out items, the map with
its two slot arrays, and the copy-on-write operations. `Store<V>` stands for the user store
and for the program store, whose C functions differ only in the type of their items.
 */
module Stores {
  import CuckooHash
  import opened CuckooTable
  import opened Lists
  import opened StoreModel
  import opened Room

  /** `CuckooHash`, one array of slots per table */
  class Map {
    const t0: array<Slot<Ref>>
    const t1: array<Slot<Ref>>

    ghost predicate Valid() {
      t0.Length == TABLE_SIZE && t1.Length == TABLE_SIZE && t0 != t1
    }

    ghost function View(): (m: Table<Ref>)
      reads t0, t1
      ensures Valid() ==> Shaped(m)
    {
      Table(t0[..], t1[..])
    }

    constructor ()
      ensures Valid() && fresh(t0) && fresh(t1) && AllFree(View())
    {
      t0 := new Slot<Ref>[TABLE_SIZE](_ => Free);
      t1 := new Slot<Ref>[TABLE_SIZE](_ => Free);
    }
  }

  ghost predicate AllFree(m: Table<Ref>) {
    Shaped(m) && forall i :: 0 <= i < TABLE_SIZE ==> m.t0[i].Free? && m.t1[i].Free?
  }

  /** The `n` requests from number `first` on are all granted. */
  ghost predicate Granted(answers: nat -> bool, first: nat, n: nat) {
    forall i :: first <= i < first + n ==> answers(i)
  }

  lemma GrantedOneMore(answers: nat -> bool, first: nat, n: nat)
    ensures Granted(answers, first, n + 1) <==> Granted(answers, first, n) && answers(first + n)
    ensures Granted(answers, first, 0)
  {}

  lemma GrantedConcat(answers: nat -> bool, first: nat, m: nat, n: nat)
    requires Granted(answers, first, m) && Granted(answers, first + m, n)
    ensures Granted(answers, first, m + n)
  {}

  lemma RefusedAt(answers: nat -> bool, first: nat, k: nat, n: nat)
    requires k < n && !answers(first + k)
    ensures !Granted(answers, first, n)
  {}

  /**
  kmalloc and kfree for the items and maps of one store; 0 is NULL. Any request may be refused:
  `answers` says which are granted and `asked` counts them.
   */
  class Kmem<V> {
    const answers: nat -> bool
    var asked: nat
    var live: map<nat, V>
    var next: nat
    var maps: set<Map>

    ghost predicate Valid()
      reads this
    {
      next > 0 && forall p :: p in live ==> 0 < p < next
    }

    constructor (answers: nat -> bool)
      ensures Valid() && live == map[] && maps == {} && asked == 0 && this.answers == answers
    {
      this.answers := answers;
      asked, live, next, maps := 0, map[], 1, {};
    }

    method Alloc(v: V) returns (p: nat)
      requires Valid()
      modifies this`asked, this`live, this`next
      ensures Valid() && asked == old(asked) + 1 && (p != 0 <==> answers(old(asked)))
      ensures p == 0 ==> live == old(live) && next == old(next)
      ensures p != 0 ==> p == old(next) && p !in old(live) && live == old(live)[p := v] && next == p + 1
    {
      asked := asked + 1;
      if !answers(asked - 1) {
        return 0;
      }
      p := next;
      live := live[p := v];
      next := next + 1;
    }

    method Free(p: nat)
      requires Valid() && p in live
      modifies this`live
      ensures Valid() && live == old(live) - {p}
    {
      live := live - {p};
    }

    /** `create_map`: zeroed memory is a map of free slots */
    method AllocMap() returns (m: Map?)
      requires Valid()
      modifies this`asked, this`maps
      ensures Valid() && asked == old(asked) + 1 && (m != null <==> answers(old(asked)))
      ensures maps == if m == null then old(maps) else old(maps) + {m}
      ensures m != null ==> fresh(m) && fresh(m.t0) && fresh(m.t1) && m.Valid() && AllFree(m.View())
    {
      asked := asked + 1;
      if !answers(asked - 1) {
        return null;
      }
      m := new Map();
      maps := maps + {m};
    }

    method FreeMap(m: Map)
      requires Valid() && m in maps
      modifies this`maps
      ensures Valid() && maps == old(maps) - {m}
    {
      maps := maps - {m};
    }
  }

  /** `contains` */
  method Contains<V(==)>(m: Map, mem: Kmem<V>, key: bv32, v: V) returns (found: bool)
    requires m.Valid()
    requires forall r :: r in Contents(m.View()) ==> r.ptr in mem.live
    ensures found == Probe(m.View(), mem.live, key, v)
  {
    hide Contents, CuckooHash.Hash1, CuckooHash.Hash2;
    var h1 := RefHash1(Ref(key, 0));
    SlotIsContent(m.View(), h1);
    if m.t0[h1].Used? && mem.live[m.t0[h1].entry.ptr] == v {
      return true;
    }
    var h2 := RefHash2(Ref(key, 0));
    SlotIsContent(m.View(), h2);
    return m.t1[h2].Used? && mem.live[m.t1[h2].entry.ptr] == v;
  }

  /** The eviction loop of `insert` */
  method Evict(m: Map, r: Ref) returns (d: Displaced<Ref>)
    requires m.Valid()
    modifies m.t0, m.t1
    ensures Bounded(HASHES)
    ensures (m.View(), d) == InsertLoop(old(m.View()), HASHES, r, MAX_KICKS)
  {
    hide CuckooHash.Hash1, CuckooHash.Hash2;
    HashesAreBounded();
    ghost var start := m.View();
    var current := r;
    for i := 0 to MAX_KICKS
      invariant InsertLoop(m.View(), HASHES, current, MAX_KICKS - i) == InsertLoop(start, HASHES, r, MAX_KICKS)
    {
      ghost var before := m.View();
      var h1 := RefHash1(current);
      var s1 := m.t0[h1];
      m.t0[h1] := Used(current);
      assert m.View() == Put0(before, HASHES, current).0;
      if s1.Free? {
        return None;
      }
      current := s1.entry;

      ghost var between := m.View();
      var h2 := RefHash2(current);
      var s2 := m.t1[h2];
      m.t1[h2] := Used(current);
      assert m.View() == Put1(between, HASHES, current).0;
      if s2.Free? {
        return None;
      }
      current := s2.entry;
    }
    return Some(current);
  }

  /** `insert` of a new item `p`: the set gains its value, or the item in hand at the end is freed. */
  method Insert<V(==)>(m: Map, mem: Kmem<V>, keyOf: V -> bv32, key: bv32, p: nat) returns (code: Code)
    requires m.Valid() && mem.Valid() && Owns(m.View(), mem.live, keyOf)
    requires p in mem.live && p !in Ptrs(m.View()) && key == keyOf(mem.live[p])
    modifies m.t0, m.t1, mem`live
    ensures Changed(code, m.View(), mem.live) == Insertion(old(m.View()), old(mem.live), keyOf, p)
    ensures mem.Valid() && Owns(m.View(), mem.live, keyOf)
    ensures code ==
      if old(mem.live[p] in Members(m.View(), mem.live)) then EExist
      else if NoRoom(old(m.View()), key) then ENoSpc else Ok
    ensures code == EExist ==> m.View() == old(m.View()) && mem.live == old(mem.live)
    ensures code == Ok ==>
      && mem.live == old(mem.live)
      && Members(m.View(), mem.live) == old(Members(m.View(), mem.live)) + {old(mem.live[p])}
      && Ptrs(m.View()) == old(Ptrs(m.View())) + {p}
    ensures code == ENoSpc ==>
      exists lost :: TakesOut(old(mem.live), old(Ptrs(m.View())) + {p}, mem.live, Ptrs(m.View()), lost)
  {
    hide Contents, Placed, InsertLoop, Probe, Resolved, Distinct, Ptrs, NoRoom;
    ghost var m0, live0 := m.View(), mem.live;
    LookupIsMembership(m0, live0, keyOf, live0[p]);
    OwnedPtrsAreLive(m0, live0, keyOf);
    var found := Contains(m, mem, key, mem.live[p]);
    if found {
      return EExist;
    }
    InsertionMeans(m0, live0, keyOf, p);
    InsertionFailsIff(m0, live0, keyOf, p);
    var d := Evict(m, Ref(key, p));
    if d.None? {
      return Ok;
    }
    assert d.e.ptr in live0 by { InsertRefinesSet(m0, live0, keyOf, p); }
    mem.Free(d.e.ptr);
    return ENoSpc;
  }

  /** `remove`, with the item freed */
  method Remove<V(==)>(m: Map, mem: Kmem<V>, keyOf: V -> bv32, key: bv32, v: V) returns (code: Code)
    requires m.Valid() && mem.Valid() && Owns(m.View(), mem.live, keyOf) && key == keyOf(v)
    modifies m.t0, m.t1, mem`live
    ensures Changed(code, m.View(), mem.live) == Removal(old(m.View()), old(mem.live), keyOf, v)
    ensures mem.Valid() && Owns(m.View(), mem.live, keyOf)
    ensures code == Ok <==> old(v in Members(m.View(), mem.live))
    ensures code != Ok ==> code == EInval && m.View() == old(m.View()) && mem.live == old(mem.live)
    ensures code == Ok ==>
      && Members(m.View(), mem.live) == old(Members(m.View(), mem.live)) - {v}
      && exists p :: TakesOut(old(mem.live), old(Ptrs(m.View())), mem.live, Ptrs(m.View()), p)
  {
    hide Contents, Placed, Resolved, Distinct, Ptrs, Members, CuckooHash.Hash1, CuckooHash.Hash2;
    ghost var m0, live0 := m.View(), mem.live;
    RemovalMeans(m0, live0, keyOf, v);
    OwnedPtrsAreLive(m0, live0, keyOf);
    var h1 := RefHash1(Ref(key, 0));
    SlotIsContent(m0, h1);
    if m.t0[h1].Used? && mem.live[m.t0[h1].entry.ptr] == v {
      var p := m.t0[h1].entry.ptr;
      m.t0[h1] := Free;
      assert m.View() == m0.(t0 := m0.t0[h1 := Free]);
      mem.Free(p);
      return Ok;
    }
    var h2 := RefHash2(Ref(key, 0));
    SlotIsContent(m0, h2);
    if m.t1[h2].Used? && mem.live[m.t1[h2].entry.ptr] == v {
      var p := m.t1[h2].entry.ptr;
      m.t1[h2] := Free;
      assert m.View() == m0.(t1 := m0.t1[h2 := Free]);
      mem.Free(p);
      return Ok;
    }
    return EInval;
  }

  /** `destroy_map`: every item of the map is freed, each once, then the map, and nothing else. */
  method Destroy<V>(m: Map, mem: Kmem<V>)
    requires m.Valid() && mem.Valid() && m in mem.maps
    requires OnePtrEach(Contents(m.View())) && Ptrs(m.View()) <= mem.live.Keys
    modifies mem`live, mem`maps
    ensures mem.Valid() && mem.live == old(mem.live) - Ptrs(m.View()) && mem.maps == old(mem.maps) - {m}
  {
    hide Contents, Visited, OnePtrEach;
    ghost var v, live0 := m.View(), mem.live;
    ghost var done: set<nat> := {};
    VisitedStart();
    for i := 0 to TABLE_SIZE
      invariant mem.Valid() && mem.maps == old(mem.maps)
      invariant done == Visited(i) && mem.live == live0 - PtrsAt(Slots(v), done)
    {
      VisitedStep(i);
      assert Slots(v)[i] == m.t0[i] && Slots(v)[TABLE_SIZE + i] == m.t1[i];
      if m.t0[i].Used? {
        PtrNotYetFreed(v, done, i);
        mem.Free(m.t0[i].entry.ptr);
      }
      VisitSlot(Slots(v), done, i);
      done := done + {i};
      if m.t1[i].Used? {
        PtrNotYetFreed(v, done, TABLE_SIZE + i);
        mem.Free(m.t1[i].entry.ptr);
      }
      VisitSlot(Slots(v), done, TABLE_SIZE + i);
      done := done + {TABLE_SIZE + i};
    }
    AllPtrsVisited(v);
    mem.FreeMap(m);
  }

  lemma VisitedStart()
    ensures Visited(0) == {}
  {
  }

  lemma VisitedStep(i: nat)
    requires i < TABLE_SIZE
    ensures i !in Visited(i) && TABLE_SIZE + i !in Visited(i) + {i}
    ensures Visited(i + 1) == Visited(i) + {i} + {TABLE_SIZE + i}
  {
  }

  lemma VisitSlot(slots: seq<Slot<Ref>>, done: set<nat>, k: nat)
    requires k < |slots|
    ensures PtrsAt(slots, done + {k}) ==
      PtrsAt(slots, done) + if slots[k].Used? then {slots[k].entry.ptr} else {}
  {
  }

  /** `clone_map`; when an allocation fails, everything copied so far is freed. */
  method Clone<V>(src: Map, mem: Kmem<V>, ghost keyOf: V -> bv32) returns (dst: Map?)
    requires src.Valid() && mem.Valid() && Owns(src.View(), mem.live, keyOf)
    modifies mem
    ensures mem.Valid() && src.View() == old(src.View())
    ensures dst != null <==> Granted(mem.answers, old(mem.asked), 1 + |old(Members(src.View(), mem.live))|)
    ensures dst == null ==> mem.live == old(mem.live) && mem.maps == old(mem.maps)
    ensures dst != null ==> mem.asked == old(mem.asked) + 1 + |old(Members(src.View(), mem.live))|
    ensures dst != null ==>
      && fresh(dst) && fresh(dst.t0) && fresh(dst.t1) && dst.Valid() && mem.maps == old(mem.maps) + {dst}
      && FreshClone(old(src.View()), old(mem.live), old(mem.next), dst.View(), mem.live, mem.next)
  {
    hide Contents, Owns, Visited, Cloning, FreshClone, Slots, Listing, Members, Granted, RowSize;
    ghost var v, live0, base := src.View(), mem.live, mem.next;
    ghost var first := mem.asked;
    FullListing(v, live0, keyOf);
    ghost var n := 1 + |Listing(v, live0, TABLE_SIZE)|;
    GrantedOneMore(mem.answers, first, 0);
    var d := mem.AllocMap();
    if d == null {
      RefusedAt(mem.answers, first, 0, n);
      return null;
    }
    VisitedStart();
    ListingStart(v, live0);
    ghost var done: set<nat> := {};
    NothingCloned(v, live0, d.View(), base);
    OwnedPtrsAreLive(v, live0, keyOf);
    for i := 0 to TABLE_SIZE
      invariant mem.Valid() && done == Visited(i) && mem.maps == old(mem.maps) + {d}
      invariant Cloning(Slots(v), live0, Slots(d.View()), mem.live, base, mem.next, done)
      invariant mem.asked == first + 1 + |Listing(v, live0, i)| && Granted(mem.answers, first, mem.asked - first)
    {
      VisitedStep(i);
      RowIsListed(v, live0, i);
      ghost var before := mem.asked;
      var copied, done' := CopyRow(src, d, mem, i, v, live0, base, done);
      if !copied {
        RefusedAt(mem.answers, first, mem.asked - 1 - first, n);
        Undo(d, mem, v, live0, base, done');
        return null;
      }
      GrantedConcat(mem.answers, first, before - first, mem.asked - before);
      done := done + {i} + {TABLE_SIZE + i};
    }
    CloningDone(v, live0, d.View(), mem.live, base, mem.next);
    return d;
  }

  lemma NothingCloned<V>(v: Table<Ref>, live0: map<nat, V>, d: Table<Ref>, base: nat)
    requires Shaped(v) && AllFree(d) && forall p :: p in live0 ==> p < base
    ensures Cloning(Slots(v), live0, Slots(d), live0, base, base, {})
  {
    hide Entries;
    forall r ensures r !in Entries(Slots(d)) {
      EntryHasSlot(Slots(d), r);
    }
    assert PtrsOf(Entries(Slots(d))) == {};
  }

  function RowSize(v: Table<Ref>, i: nat): nat
    requires Shaped(v) && i < TABLE_SIZE
  {
    (if v.t0[i].Used? then 1 else 0) + if v.t1[i].Used? then 1 else 0
  }

  lemma RowIsListed<V>(v: Table<Ref>, live: map<nat, V>, i: nat)
    requires Shaped(v) && i < TABLE_SIZE && forall r :: r in Contents(v) ==> r.ptr in live
    ensures |Listing(v, live, i + 1)| == |Listing(v, live, i)| + RowSize(v, i)
    ensures |Listing(v, live, i + 1)| <= |Listing(v, live, TABLE_SIZE)|
  {
    hide Contents, Listing;
    SlotIsContent(v, i);
    ListingStep(v, live, i);
    ListingGrows(v, live, i + 1, TABLE_SIZE);
  }

  /** One turn of the loop of `clone_map`; `done'` is what it has copied when it fails. */
  method CopyRow<V>(
      src: Map, d: Map, mem: Kmem<V>, i: nat,
      ghost v: Table<Ref>, ghost live0: map<nat, V>, ghost base: nat, ghost done: set<nat>)
      returns (copied: bool, ghost done': set<nat>)
    requires src.Valid() && d.Valid() && mem.Valid() && i < TABLE_SIZE
    requires {src.t0, src.t1} !! {d.t0, d.t1} && src.View() == v
    requires forall r :: r in Contents(v) ==> r.ptr in live0
    requires Cloning(Slots(v), live0, Slots(d.View()), mem.live, base, mem.next, done)
    requires i !in done && TABLE_SIZE + i !in done + {i}
    modifies d.t0, d.t1, mem`asked, mem`live, mem`next
    ensures mem.Valid()
    ensures Cloning(Slots(v), live0, Slots(d.View()), mem.live, base, mem.next, done')
    ensures copied ==> done' == done + {i} + {TABLE_SIZE + i}
    ensures copied ==> mem.asked == old(mem.asked) + RowSize(v, i) && Granted(mem.answers, old(mem.asked), RowSize(v, i))
    ensures !copied ==> old(mem.asked) < mem.asked <= old(mem.asked) + RowSize(v, i) && !mem.answers(mem.asked - 1)
  {
    hide Contents, Cloning, Slots;
    done' := done;
    copied := CopySlot(src, d, mem, false, i, v, live0, base, done);
    if !copied {
      return;
    }
    done' := done + {i};
    copied := CopySlot(src, d, mem, true, i, v, live0, base, done');
    if copied {
      done' := done' + {TABLE_SIZE + i};
    }
  }

  /** One `if` of the loop of `clone_map` */
  method CopySlot<V>(
      src: Map, d: Map, mem: Kmem<V>, second: bool, i: nat,
      ghost v: Table<Ref>, ghost live0: map<nat, V>, ghost base: nat, ghost done: set<nat>)
      returns (copied: bool)
    requires src.Valid() && d.Valid() && mem.Valid() && i < TABLE_SIZE
    requires {src.t0, src.t1} !! {d.t0, d.t1} && src.View() == v
    requires forall r :: r in Contents(v) ==> r.ptr in live0
    requires Cloning(Slots(v), live0, Slots(d.View()), mem.live, base, mem.next, done)
    requires (if second then TABLE_SIZE + i else i) !in done
    modifies d.t0, d.t1, mem`asked, mem`live, mem`next
    ensures mem.Valid()
    ensures var used := (if second then v.t1[i] else v.t0[i]).Used?;
      mem.asked == old(mem.asked) + (if used then 1 else 0) && (copied <==> used ==> mem.answers(old(mem.asked)))
    ensures copied ==>
      Cloning(Slots(v), live0, Slots(d.View()), mem.live, base, mem.next, done + {if second then TABLE_SIZE + i else i})
    ensures !copied ==> Cloning(Slots(v), live0, Slots(d.View()), mem.live, base, mem.next, done)
  {
    hide Contents, Entries, OnePtrEach, PtrsOf;
    ghost var k := if second then TABLE_SIZE + i else i;
    ghost var before := Slots(d.View());
    var s := if second then src.t1[i] else src.t0[i];
    assert s == Slots(v)[k];
    if s.Free? {
      return true;
    }
    SlotIsContent(v, i);
    assert s.entry.ptr in live0;
    CloneSlot(Slots(v), live0, before, mem.live, base, mem.next, done, k);
    var p := mem.Alloc(mem.live[s.entry.ptr]);
    if p == 0 {
      return false;
    }
    if second {
      d.t1[i] := Used(Ref(s.entry.key, p));
    } else {
      d.t0[i] := Used(Ref(s.entry.key, p));
    }
    assert Slots(d.View()) == before[k := Used(Ref(s.entry.key, p))];
    return true;
  }

  /** The `fail` exit of `clone_map` */
  method Undo<V>(
      d: Map, mem: Kmem<V>,
      ghost v: Table<Ref>, ghost live0: map<nat, V>, ghost base: nat, ghost done: set<nat>)
    requires d.Valid() && mem.Valid() && d in mem.maps && Shaped(v)
    requires Cloning(Slots(v), live0, Slots(d.View()), mem.live, base, mem.next, done)
    modifies mem`live, mem`maps
    ensures mem.Valid() && mem.live == live0 && mem.maps == old(mem.maps) - {d}
  {
    EntriesOfConcat(d.t0[..], d.t1[..]);
    assert Contents(d.View()) == Entries(Slots(d.View()));
    assert Ptrs(d.View()) == PtrsOf(Entries(Slots(d.View())));
    Destroy(d, mem);
  }

  lemma CloningDone<V>(
      v: Table<Ref>, live0: map<nat, V>, d: Table<Ref>, live: map<nat, V>, base: nat, next: nat)
    requires Shaped(v) && Shaped(d)
    requires Cloning(Slots(v), live0, Slots(d), live, base, next, Visited(TABLE_SIZE))
    ensures FreshClone(v, live0, base, d, live, next)
  {
    hide Entries;
    EntriesOfConcat(d.t0, d.t1);
    assert Contents(d) == Entries(Slots(d));
    forall k | 0 <= k < |Slots(v)| ensures CopyOf(Slots(v)[k], live0, Slots(d)[k], live) {
      assert k in Visited(TABLE_SIZE);
    }
    assert Ptrs(d) == PtrsOf(Entries(Slots(d)));
  }

  /** The map is an exact copy, in items of its own, of a map that stays as it was. */
  ghost predicate IsClone<V>(m: Table<Ref>, live0: map<nat, V>, m': Table<Ref>, live: map<nat, V>, keyOf: V -> bv32) {
    && Owns(m', live, keyOf) && Members(m', live) == Members(m, live0)
    && Ptrs(m') !! live0.Keys && live.Keys == live0.Keys + Ptrs(m')
    && (forall p :: p in live0 ==> p in live && live[p] == live0[p])
  }

  lemma FreshIsClone<V>(
      m: Table<Ref>, live: map<nat, V>, next: nat, m': Table<Ref>, live': map<nat, V>, next': nat, keyOf: V -> bv32)
    requires Owns(m, live, keyOf) && FreshClone(m, live, next, m', live', next')
    requires forall p :: p in live ==> p < next
    ensures IsClone(m, live, m', live', keyOf)
  {
    hide Contents, Copied, Placed, Ptrs, Members, Owns;
    FreshCloneIsEqual(m, live, next, m', live', next', keyOf);
  }

  /** One of the two maps of `struct _sysThrot_Store`, with no reader in the way */
  class Store<V(==)> {
    const keyOf: V -> bv32
    const mem: Kmem<V>
    var published: Map

    ghost predicate Valid()
      reads this, mem, published.t0, published.t1
    {
      && mem.Valid() && published.Valid() && published in mem.maps
      && Owns(published.View(), mem.live, keyOf)
    }

    /** The registered values */
    ghost function Registered(): set<V>
      reads this, mem, published.t0, published.t1
    {
      Members(published.View(), mem.live)
    }

    /** The items that belong to the published map */
    ghost function Items(): set<nat>
      reads this, published.t0, published.t1
    {
      Ptrs(published.View())
    }

    /** A store that publishes a new map */
    constructor (keyOf: V -> bv32, mem: Kmem<V>, empty: Map)
      requires mem.Valid() && empty.Valid() && empty in mem.maps && AllFree(empty.View())
      ensures Valid() && Registered() == {} && Items() == {}
      ensures this.keyOf == keyOf && this.mem == mem && published == empty
    {
      this.keyOf := keyOf;
      this.mem := mem;
      published := empty;
      new;
      EmptyMap(published.View(), mem.live, keyOf);
    }

    /** `find_user_in_store`, `find_program_in_store` */
    method Find(v: V) returns (found: bool)
      requires Valid()
      ensures found <==> v in Registered()
    {
      LookupIsMembership(published.View(), mem.live, keyOf, v);
      OwnedPtrsAreLive(published.View(), mem.live, keyOf);
      found := Contains(published, mem, keyOf(v), v);
    }

    /** `add_user_to_store`, `add_program_to_store` */
    method Add(v: V) returns (code: Code, ghost course: Course<V>)
      requires Valid()
      modifies this`published, mem
      ensures Valid()
      ensures Updates(old(published.View()), old(mem.live), old(mem.next), keyOf, StoreModel.Add(v), course,
                      code, published.View(), mem.live)
      ensures code ==
        if v in old(Registered()) then EExist
        else if !Granted(mem.answers, old(mem.asked), |old(Registered())| + 2) then ENoMem
        else if NoRoom(old(published.View()), keyOf(v)) then ENoSpc
        else Ok
      ensures code == Ok ==>
        && Registered() == old(Registered()) + {v}
        && fresh(published) && Items() !! old(mem.live.Keys)
        && mem.live.Keys == old(mem.live.Keys) - old(Items()) + Items()
        && mem.maps == old(mem.maps) - {old(published)} + {published}
        && (forall p :: p in old(mem.live) && p !in old(Items()) ==> mem.live[p] == old(mem.live)[p])
      ensures code != Ok ==>
        && published == old(published) && published.View() == old(published.View())
        && mem.live == old(mem.live) && mem.maps == old(mem.maps)
    {
      hide Contents, Owns, Ptrs, Members, OnePtrEach, TakesOut, IsClone, FreshClone, Insertion, Removal, Probe, NoRoom, Granted;
      ghost var v0, live0 := published.View(), mem.live;
      LookupIsMembership(v0, live0, keyOf, v);
      OwnedPtrsAreLive(v0, live0, keyOf);
      var found := Contains(published, mem, keyOf(v), v);
      if found {
        return EExist, Refused;
      }
      var clone := Clone(published, mem, keyOf);
      GrantedOneMore(mem.answers, old(mem.asked), |old(Registered())| + 1);
      if clone == null {
        return ENoMem, NoClone;
      }
      code, course := TryInsert(clone, v, v0, live0, old(mem.next));
      if code == Ok {
        var replaced := published;
        published := clone;
        OwnedPtrsAreOneEach(v0, live0, keyOf);
        Destroy(replaced, mem);
      }
    }

    /** The part of an addition that works on the clone: allocation of the item, `insert`, and giving up */
    method TryInsert(clone: Map, v: V, ghost v0: Table<Ref>, ghost live0: map<nat, V>, ghost next0: nat)
        returns (code: Code, ghost course: Course<V>)
      requires clone.Valid() && mem.Valid() && clone in mem.maps && Owns(v0, live0, keyOf)
      requires FreshClone(v0, live0, next0, clone.View(), mem.live, mem.next)
      requires v !in Members(v0, live0) && forall p :: p in live0 ==> p < next0
      modifies clone.t0, clone.t1, mem
      ensures mem.Valid() && course == (if code == ENoMem then NoItem(old(clone.View()), old(mem.live), old(mem.next))
                                        else Tried(old(clone.View()), old(mem.live), old(mem.next)))
      ensures code == if !mem.answers(old(mem.asked)) then ENoMem else if NoRoom(v0, keyOf(v)) then ENoSpc else Ok
      ensures code != Ok ==> mem.live == live0 && mem.maps == old(mem.maps) - {clone}
      ensures code == ENoMem ==> live0 == old(mem.live) - Ptrs(old(clone.View()))
      ensures code != ENoMem ==>
        var r := Insertion(old(clone.View()), old(mem.live)[old(mem.next) := v], keyOf, old(mem.next));
        && r.code == code
        && (code == ENoSpc ==> live0 == r.live - Ptrs(r.table))
        && (code == Ok ==> clone.View() == r.table && mem.live == r.live && mem.maps == old(mem.maps))
      ensures code == Ok ==>
        && Ptrs(v0) <= mem.live.Keys && Ptrs(clone.View()) !! live0.Keys
        && var live3 := mem.live - Ptrs(v0);
           && Owns(clone.View(), live3, keyOf) && Members(clone.View(), live3) == Members(v0, live0) + {v}
           && live3.Keys == live0.Keys - Ptrs(v0) + Ptrs(clone.View())
           && forall q :: q in live0 && q !in Ptrs(v0) ==> q in live3 && live3[q] == live0[q]
    {
      hide Contents, Owns, Ptrs, Members, OnePtrEach, TakesOut, IsClone, FreshClone, Insertion, Removal, Probe, NoRoom;
      ghost var v1, live1, next1 := clone.View(), mem.live, mem.next;
      FreshIsClone(v0, live0, next0, v1, live1, next1, keyOf);
      var p := mem.Alloc(v);
      if p == 0 {
        CloneCanBeUndone(v0, live0, v1, live1, keyOf);
        Destroy(clone, mem);
        return ENoMem, NoItem(v1, live1, next1);
      }
      course := Tried(v1, live1, next1);
      NewItem(v0, live0, v1, live1, keyOf, p, v);
      RoomForClone(v0, live0, next0, v1, live1, next1, keyOf, p, v);
      code := Insert(clone, mem, keyOf, keyOf(v), p);
      if code == Ok {
        PublishedInsert(v0, live0, v1, live1, keyOf, p, v, clone.View());
      } else {
        ghost var lost :| TakesOut(live1[p := v], Ptrs(v1) + {p}, mem.live, Ptrs(clone.View()), lost);
        AbortedInsert(v0, live0, v1, live1, keyOf, p, v, lost, clone.View(), mem.live);
        Destroy(clone, mem);
      }
    }

    /** `remove_user_from_store`, `remove_program_from_store` */
    method Delete(v: V) returns (code: Code, ghost course: Course<V>)
      requires Valid()
      modifies this`published, mem
      ensures Valid()
      ensures Updates(old(published.View()), old(mem.live), old(mem.next), keyOf, StoreModel.Delete(v), course,
                      code, published.View(), mem.live)
      ensures code ==
        if v !in old(Registered()) then EInval
        else if !Granted(mem.answers, old(mem.asked), |old(Registered())| + 1) then ENoMem
        else Ok
      ensures code == Ok ==>
        && Registered() == old(Registered()) - {v}
        && fresh(published) && Items() !! old(mem.live.Keys)
        && mem.live.Keys == old(mem.live.Keys) - old(Items()) + Items()
        && mem.maps == old(mem.maps) - {old(published)} + {published}
        && (forall p :: p in old(mem.live) && p !in old(Items()) ==> mem.live[p] == old(mem.live)[p])
      ensures code != Ok ==>
        && published == old(published) && published.View() == old(published.View())
        && mem.live == old(mem.live) && mem.maps == old(mem.maps)
    {
      hide Contents, Owns, Ptrs, Members, OnePtrEach, TakesOut, IsClone, FreshClone, Insertion, Removal, Probe, NoRoom;
      ghost var v0, live0 := published.View(), mem.live;
      LookupIsMembership(v0, live0, keyOf, v);
      OwnedPtrsAreLive(v0, live0, keyOf);
      var found := Contains(published, mem, keyOf(v), v);
      if !found {
        return EInval, Refused;
      }
      var clone := Clone(published, mem, keyOf);
      if clone == null {
        return ENoMem, NoClone;
      }
      ghost var v1, live1, next1 := clone.View(), mem.live, mem.next;
      course := Tried(v1, live1, next1);
      FreshIsClone(v0, live0, old(mem.next), v1, live1, mem.next, keyOf);
      CloneMeans(v0, live0, v1, live1, keyOf);
      var removed := Remove(clone, mem, keyOf, keyOf(v), v);
      assert removed == Ok;
      var replaced := published;
      published := clone;
      OwnedPtrsAreOneEach(v0, live0, keyOf);
      PublishedRemoval(v0, live0, v1, live1, keyOf, clone.View(), mem.live);
      Destroy(replaced, mem);
      return Ok, course;
    }

    /** `get_all_users_from_store`: the caller provides MAX_STORE_USERS slots */
    method ListAll(out: array<V>) returns (count: nat)
      requires Valid() && out.Length == MAX_STORE_USERS
      modifies out
      ensures Valid() && Registered() == old(Registered())
      ensures count == |Registered()| <= out.Length
      ensures NoDup(out[..count]) && forall v :: v in out[..count] <==> v in Registered()
      ensures out[count..] == old(out[count..])
    {
      hide Contents, Placed, Owns;
      ghost var m, live := published.View(), mem.live;
      OwnedPtrsAreLive(m, live, keyOf);
      count := 0;
      for i := 0 to TABLE_SIZE
        invariant published.View() == m && mem.live == live
        invariant count <= 2 * i && out[..count] == Listing(m, live, i)
        invariant forall k :: count <= k < out.Length ==> out[k] == old(out[k])
      {
        SlotIsContent(m, i);
        count := WriteValue(out, count, mem, published.t0[i], x => x);
        count := WriteValue(out, count, mem, published.t1[i], x => x);
      }
      FullListing(m, live, keyOf);
    }
  }

  /** `init_sysThrot_store`: both maps, or nothing is left allocated; `ok` answers the request for the store itself. */
  method Init<U(==), P(==)>(
      ok: bool, userMem: Kmem<U>, programMem: Kmem<P>, userKey: U -> bv32, programKey: P -> bv32)
      returns (code: Code, users: Store?<U>, programs: Store?<P>)
    requires userMem.Valid() && programMem.Valid() && {userMem} !! {programMem as object}
    modifies userMem`asked, userMem`live, userMem`maps, programMem`asked, programMem`live, programMem`maps
    ensures userMem.live == old(userMem.live) && programMem.live == old(programMem.live)
    ensures code ==
      if ok && userMem.answers(old(userMem.asked)) && programMem.answers(old(programMem.asked)) then Ok else ENoMem
    ensures code == ENoMem ==>
      users == null && programs == null && userMem.maps == old(userMem.maps) && programMem.maps == old(programMem.maps)
    ensures code == Ok ==>
      && users != null && programs != null && users.mem == userMem && programs.mem == programMem
      && users.Valid() && programs.Valid() && users.Registered() == {} && programs.Registered() == {}
      && userMem.maps == old(userMem.maps) + {users.published}
      && programMem.maps == old(programMem.maps) + {programs.published}
  {
    if !ok {
      return ENoMem, null, null;
    }
    var userMap := userMem.AllocMap();
    var programMap := programMem.AllocMap();
    if userMap == null || programMap == null {
      if userMap != null {
        DestroyEmpty(userMap, userMem);
      }
      if programMap != null {
        DestroyEmpty(programMap, programMem);
      }
      return ENoMem, null, null;
    }
    users := new Store(userKey, userMem, userMap);
    programs := new Store(programKey, programMem, programMap);
    return Ok, users, programs;
  }

  /** `destroy_map` of a map that holds nothing */
  method DestroyEmpty<V>(m: Map, mem: Kmem<V>)
    requires m.Valid() && mem.Valid() && m in mem.maps && AllFree(m.View())
    modifies mem`live, mem`maps
    ensures mem.Valid() && mem.live == old(mem.live) && mem.maps == old(mem.maps) - {m}
  {
    hide Contents;
    EmptyContents(m.View());
    Destroy(m, mem);
  }

  lemma EmptyContents(m: Table<Ref>)
    requires AllFree(m)
    ensures OnePtrEach(Contents(m)) && Ptrs(m) == {}
  {
    hide Contents;
    forall r ensures r !in Contents(m) {
      ContentHasSlot(m, r);
    }
  }

  /** One `if` of a listing loop; `copy` is how the value is written. */
  method WriteValue<V>(out: array<V>, n: nat, mem: Kmem<V>, s: Slot<Ref>, copy: V -> V) returns (count: nat)
    requires n < out.Length && (s.Used? ==> s.entry.ptr in mem.live)
    requires s.Used? ==> copy(mem.live[s.entry.ptr]) == mem.live[s.entry.ptr]
    modifies out
    ensures count == n + |ValueIn(s, mem.live)| && count <= out.Length
    ensures out[..count] == old(out[..n]) + ValueIn(s, mem.live)
    ensures forall k :: count <= k < out.Length ==> out[k] == old(out[k])
  {
    count := n;
    if s.Used? {
      out[count] := copy(mem.live[s.entry.ptr]);
      count := count + 1;
    }
  }

  /** A program name, without its terminating NUL */
  type Name = seq<bv8>

  const TASK_COMM_LEN := 16
  const MAX_STORE_PROGRAMS := 64

  /** `strscpy` into a buffer of TASK_COMM_LEN bytes */
  function Strscpy(name: Name): (r: Name)
    ensures r <= name && |r| < TASK_COMM_LEN && (r == name || |r| == TASK_COMM_LEN - 1)
  {
    if |name| < TASK_COMM_LEN then name else name[..TASK_COMM_LEN - 1]
  }

  function UpTo<V>(vs: seq<V>, n: nat): seq<V> { if |vs| <= n then vs else vs[..n] }

  lemma {:induction false} ListingGrows<V>(m: Table<Ref>, live: map<nat, V>, i: nat, j: nat)
    requires Shaped(m) && i <= j <= TABLE_SIZE
    ensures Listing(m, live, i) <= Listing(m, live, j)
    decreases j
  {
    if i < j {
      ListingGrows(m, live, i, j - 1);
    }
  }

  /**
  `get_all_programs_from_store`: as many names as fit, each once, none of them truncated
  because registered names are shorter than TASK_COMM_LEN (sysThrot_ioctl.c:135-143).
  */
  method ListPrograms(store: Store<Name>, out: array<Name>) returns (count: nat)
    requires store.Valid() && out.Length == MAX_STORE_PROGRAMS
    requires forall name :: name in store.Registered() ==> |name| < TASK_COMM_LEN
    modifies out
    ensures var n := |store.Registered()|; count == if n < MAX_STORE_PROGRAMS then n else MAX_STORE_PROGRAMS
    ensures NoDup(out[..count]) && forall name :: name in out[..count] ==> name in store.Registered()
  {
    hide Contents, Placed, Owns, Listing;
    ghost var m, live := store.published.View(), store.mem.live;
    OwnedPtrsAreLive(m, live, store.keyOf);
    FullListing(m, live, store.keyOf);
    count := 0;
    var i := 0;
    ListingStart(m, live);
    while i < TABLE_SIZE && count < MAX_STORE_PROGRAMS
      invariant i <= TABLE_SIZE && count <= MAX_STORE_PROGRAMS
      invariant store.published.View() == m && store.mem.live == live
      invariant out[..count] == UpTo(Listing(m, live, i), MAX_STORE_PROGRAMS)
    {
      SlotIsContent(m, i);
      NamesAreShort(m, live, i);
      ListingStep(m, live, i);
      ghost var before := Listing(m, live, i);
      count := WriteValue(out, count, store.mem, store.published.t0[i], Strscpy);
      if count < MAX_STORE_PROGRAMS {
        count := WriteValue(out, count, store.mem, store.published.t1[i], Strscpy);
      }
      i := i + 1;
    }
    ListingGrows(m, live, i, TABLE_SIZE);
    assert out[..count] <= Listing(m, live, TABLE_SIZE);
  }

  lemma ListingStart<V>(m: Table<Ref>, live: map<nat, V>)
    requires Shaped(m)
    ensures Listing(m, live, 0) == []
  {
  }

  lemma ListingStep<V>(m: Table<Ref>, live: map<nat, V>, i: nat)
    requires Shaped(m) && i < TABLE_SIZE
    ensures Listing(m, live, i + 1) == Listing(m, live, i) + ValueIn(m.t0[i], live) + ValueIn(m.t1[i], live)
  {
  }

  lemma NamesAreShort(m: Table<Ref>, live: map<nat, Name>, i: nat)
    requires Shaped(m) && i < TABLE_SIZE
    requires forall r :: r in Contents(m) ==> r.ptr in live
    requires forall name :: name in Members(m, live) ==> |name| < TASK_COMM_LEN
    ensures m.t0[i].Used? ==> m.t0[i].entry.ptr in live && |live[m.t0[i].entry.ptr]| < TASK_COMM_LEN
    ensures m.t1[i].Used? ==> m.t1[i].entry.ptr in live && |live[m.t1[i].entry.ptr]| < TASK_COMM_LEN
  {
    hide Contents;
    SlotIsContent(m, i);
  }

  const MAX_STORE_USERS := 256

  lemma EmptyMap<V>(m: Table<Ref>, live: map<nat, V>, keyOf: V -> bv32)
    requires AllFree(m)
    ensures Owns(m, live, keyOf) && Members(m, live) == {} && Ptrs(m) == {}
  {
    hide Contents;
    forall r ensures r !in Contents(m) {
      ContentHasSlot(m, r);
    }
  }

  lemma CloneMeans<V>(
      v0: Table<Ref>, live0: map<nat, V>, v1: Table<Ref>, live1: map<nat, V>, keyOf: V -> bv32)
    requires IsClone(v0, live0, v1, live1, keyOf)
    ensures Owns(v1, live1, keyOf) && Members(v1, live1) == Members(v0, live0)
  {
  }

  lemma PublishedRemoval<V>(
      v0: Table<Ref>, live0: map<nat, V>, v1: Table<Ref>, live1: map<nat, V>, keyOf: V -> bv32,
      v2: Table<Ref>, live2: map<nat, V>)
    requires Owns(v0, live0, keyOf) && IsClone(v0, live0, v1, live1, keyOf) && Owns(v2, live2, keyOf)
    requires exists p :: TakesOut(live1, Ptrs(v1), live2, Ptrs(v2), p)
    ensures Ptrs(v0) <= live2.Keys && Ptrs(v2) !! live0.Keys
    ensures var live3 := live2 - Ptrs(v0);
      && Owns(v2, live3, keyOf) && Members(v2, live3) == Members(v2, live2)
      && live3.Keys == live0.Keys - Ptrs(v0) + Ptrs(v2)
      && forall q :: q in live0 && q !in Ptrs(v0) ==> q in live3 && live3[q] == live0[q]
  {
    hide Contents, Placed, Ptrs, Members;
    OwnedPtrsAreLive(v0, live0, keyOf);
    OwnedPtrsAreLive(v2, live2, keyOf);
    OwnsElsewhere(v2, live2, live2 - Ptrs(v0), keyOf);
  }

  lemma CloneCanBeUndone<V>(
      v0: Table<Ref>, live0: map<nat, V>, v1: Table<Ref>, live1: map<nat, V>, keyOf: V -> bv32)
    requires IsClone(v0, live0, v1, live1, keyOf)
    ensures OnePtrEach(Contents(v1)) && Ptrs(v1) <= live1.Keys && live1 - Ptrs(v1) == live0
  {
    hide Contents, Placed;
    OwnedPtrsAreOneEach(v1, live1, keyOf);
  }

  lemma NewItem<V>(
      v0: Table<Ref>, live0: map<nat, V>, v1: Table<Ref>, live1: map<nat, V>, keyOf: V -> bv32, p: nat, v: V)
    requires IsClone(v0, live0, v1, live1, keyOf) && p !in live1
    ensures Owns(v1, live1[p := v], keyOf) && p !in Ptrs(v1)
    ensures Members(v1, live1[p := v]) == Members(v0, live0)
  {
    hide Contents, Placed;
    OwnedPtrsAreLive(v1, live1, keyOf);
    OwnsElsewhere(v1, live1, live1[p := v], keyOf);
  }

  /** Whether the clone takes the new item can be told from the published map. */
  lemma RoomForClone<V>(
      v0: Table<Ref>, live0: map<nat, V>, next: nat, v1: Table<Ref>, live1: map<nat, V>, next1: nat,
      keyOf: V -> bv32, p: nat, v: V)
    requires Owns(v0, live0, keyOf) && FreshClone(v0, live0, next, v1, live1, next1)
    requires IsClone(v0, live0, v1, live1, keyOf) && p !in live1 && v !in Members(v0, live0)
    ensures Insertion(v1, live1[p := v], keyOf, p).code == if NoRoom(v0, keyOf(v)) then ENoSpc else Ok
  {
    hide Contents, Owns, Ptrs, Members, OnePtrEach, Copied, Insertion, Probe;
    NewItem(v0, live0, v1, live1, keyOf, p, v);
    LookupIsMembership(v1, live1[p := v], keyOf, v);
    OwnsIsPlaced(v0, live0, keyOf);
    OwnsIsPlaced(v1, live1[p := v], keyOf);
    InsertionFailsIff(v1, live1[p := v], keyOf, p);
    CloneHasSameRoom(v0, live0, v1, live1, keyOf(v));
  }

  lemma AbortedInsert<V>(
      v0: Table<Ref>, live0: map<nat, V>, v1: Table<Ref>, live1: map<nat, V>, keyOf: V -> bv32, p: nat, v: V,
      lost: nat, v2: Table<Ref>, live2: map<nat, V>)
    requires IsClone(v0, live0, v1, live1, keyOf) && p !in live1
    requires TakesOut(live1[p := v], Ptrs(v1) + {p}, live2, Ptrs(v2), lost)
    requires Owns(v2, live2, keyOf)
    ensures OnePtrEach(Contents(v2)) && Ptrs(v2) <= live2.Keys && live2 - Ptrs(v2) == live0
  {
    hide Contents, Placed, Ptrs;
    OwnedPtrsAreOneEach(v2, live2, keyOf);
    OwnedPtrsAreLive(v2, live2, keyOf);
  }

  lemma PublishedInsert<V>(
      v0: Table<Ref>, live0: map<nat, V>, v1: Table<Ref>, live1: map<nat, V>, keyOf: V -> bv32, p: nat, v: V,
      v2: Table<Ref>)
    requires Owns(v0, live0, keyOf) && IsClone(v0, live0, v1, live1, keyOf) && p !in live1
    requires Owns(v2, live1[p := v], keyOf) && Ptrs(v2) == Ptrs(v1) + {p}
    ensures Ptrs(v0) <= live1[p := v].Keys && Ptrs(v2) !! live0.Keys
    ensures var live3 := live1[p := v] - Ptrs(v0);
      && Owns(v2, live3, keyOf) && Members(v2, live3) == Members(v2, live1[p := v])
      && live3.Keys == live0.Keys - Ptrs(v0) + Ptrs(v2)
      && forall q :: q in live0 && q !in Ptrs(v0) ==> q in live3 && live3[q] == live0[q]
  {
    hide Contents, Placed, Ptrs, Members;
    OwnedPtrsAreLive(v0, live0, keyOf);
    OwnedPtrsAreLive(v2, live1[p := v], keyOf);
    OwnsElsewhere(v2, live1[p := v], live1[p := v] - Ptrs(v0), keyOf);
  }
}
