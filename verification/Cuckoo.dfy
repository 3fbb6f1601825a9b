/**
The cuckoo hash of sysThrot_store.c: two tables of 128 slots and an eviction loop of at most
64 kicks. `CuckooTable` is generic in what a slot holds and in the two hash functions, as the
C code is through `void *` and keys that travel with their items; `CuckooHash` has the hash
functions of the module.
 */
module CuckooHash {
  const MASK: bv32 := 0x7F

  function Mix(key: bv32, factor: bv32): bv32 {
    var x := ((key >> 16) ^ key) * factor;
    var y := ((x >> 16) ^ x) * factor;
    (y >> 16) ^ y
  }

  function Hash1(key: bv32): (h: nat)
    ensures h < 128
  {
    (Mix(key, 0x45d9f3b) & MASK) as bv7 as nat
  }

  function Hash2(key: bv32): (h: nat)
    ensures h < 128
  {
    (Mix(key, 0x3335b369) & MASK) as bv7 as nat
  }
}

module CuckooTable {
  const TABLE_SIZE := 128
  const MAX_KICKS := 64

  datatype Hashes<!E> = Hashes(h1: E -> nat, h2: E -> nat)

  ghost predicate Bounded<E(!new)>(h: Hashes<E>) {
    forall e: E :: h.h1(e) < TABLE_SIZE && h.h2(e) < TABLE_SIZE
  }

  datatype Slot<E> = Free | Used(entry: E)

  datatype Table<E> = Table(t0: seq<Slot<E>>, t1: seq<Slot<E>>)

  predicate Shaped<E>(m: Table<E>) { |m.t0| == TABLE_SIZE && |m.t1| == TABLE_SIZE }

  // ---------------------------------------------------------------------------------------
  // Contents

  ghost function One<E>(s: Slot<E>): multiset<E> {
    if s.Used? then multiset{s.entry} else multiset{}
  }

  ghost function Entries<E>(slots: seq<Slot<E>>): multiset<E> {
    if slots == [] then multiset{} else One(slots[0]) + Entries(slots[1..])
  }

  ghost function Contents<E>(m: Table<E>): multiset<E> { Entries(m.t0) + Entries(m.t1) }

  lemma AddLeft<E>(a: multiset<E>, r: multiset<E>, r': multiset<E>, x: multiset<E>, y: multiset<E>)
    requires r' + x == r + y
    ensures (a + r') + x == (a + r) + y
    ensures (r' + a) + x == (r + a) + y
  {
    assert (a + r') + x == a + (r' + x) && (a + r) + y == a + (r + y);
    assert (r' + a) + x == a + (r' + x) && (r + a) + y == a + (r + y);
  }

  lemma SwapEnds<E>(a: multiset<E>, r: multiset<E>, b: multiset<E>)
    ensures (a + r) + b == (b + r) + a
  {
  }

  lemma {:induction false} EntriesUpdate<E>(slots: seq<Slot<E>>, i: nat, s: Slot<E>)
    requires i < |slots|
    ensures Entries(slots[i := s]) + One(slots[i]) == Entries(slots) + One(s)
  {
    hide One;
    var rest := slots[1..];
    if i == 0 {
      assert slots[i := s][1..] == rest;
      SwapEnds(One(s), Entries(rest), One(slots[0]));
    } else {
      assert slots[i := s][1..] == rest[i - 1 := s] && slots[i := s][0] == slots[0];
      EntriesUpdate(rest, i - 1, s);
      AddLeft(One(slots[0]), Entries(rest), Entries(rest[i - 1 := s]), One(rest[i - 1]), One(s));
    }
  }

  lemma {:induction false} EntryHasSlot<E>(slots: seq<Slot<E>>, e: E)
    ensures e in Entries(slots) <==> exists i :: 0 <= i < |slots| && slots[i] == Used(e)
  {
    if slots != [] {
      EntryHasSlot(slots[1..], e);
      if e in Entries(slots[1..]) {
        var j :| 0 <= j < |slots[1..]| && slots[1..][j] == Used(e);
        assert slots[j + 1] == Used(e);
      }
      if i :| 0 <= i < |slots| && slots[i] == Used(e) && slots[0] != Used(e) {
        assert slots[1..][i - 1] == Used(e);
      }
    }
  }

  // ---------------------------------------------------------------------------------------
  // Placement and lookup

  /** Every entry sits in the slot that it hashes to. */
  ghost predicate Placed<E>(m: Table<E>, h: Hashes<E>)
    requires Shaped(m)
  {
    && (forall i :: 0 <= i < TABLE_SIZE && m.t0[i].Used? ==> h.h1(m.t0[i].entry) == i)
    && (forall i :: 0 <= i < TABLE_SIZE && m.t1[i].Used? ==> h.h2(m.t1[i].entry) == i)
  }

  /** So an entry is in the table exactly when one of its two slots holds it. */
  lemma TwoProbesSuffice<E(!new)>(m: Table<E>, h: Hashes<E>, e: E)
    requires Bounded(h) && Shaped(m) && Placed(m, h)
    ensures e in Contents(m) <==> m.t0[h.h1(e)] == Used(e) || m.t1[h.h2(e)] == Used(e)
  {
    EntryHasSlot(m.t0, e);
    EntryHasSlot(m.t1, e);
  }

  // ---------------------------------------------------------------------------------------
  // Insertion

  datatype Displaced<E> = None | Some(e: E)

  ghost function Hand<E>(d: Displaced<E>): multiset<E> {
    if d.Some? then multiset{d.e} else multiset{}
  }

  function Evicted<E>(s: Slot<E>): Displaced<E> { if s.Used? then Some(s.entry) else None }

  /** Put `e` into its slot of the first table; what was there is now in hand. */
  function Put0<E(!new)>(m: Table<E>, h: Hashes<E>, e: E): (Table<E>, Displaced<E>)
    requires Bounded(h) && Shaped(m)
  {
    (m.(t0 := m.t0[h.h1(e) := Used(e)]), Evicted(m.t0[h.h1(e)]))
  }

  function Put1<E(!new)>(m: Table<E>, h: Hashes<E>, e: E): (Table<E>, Displaced<E>)
    requires Bounded(h) && Shaped(m)
  {
    (m.(t1 := m.t1[h.h2(e) := Used(e)]), Evicted(m.t1[h.h2(e)]))
  }

  /** The loop of `insert` with `kicks` iterations left; what is in hand at the end did not fit. */
  function InsertLoop<E(!new)>(m: Table<E>, h: Hashes<E>, e: E, kicks: nat): (Table<E>, Displaced<E>)
    requires Bounded(h) && Shaped(m)
    decreases kicks
  {
    if kicks == 0 then (m, Some(e))
    else
      var (m1, d1) := Put0(m, h, e);
      if d1.None? then (m1, None)
      else
        var (m2, d2) := Put1(m1, h, d1.e);
        if d2.None? then (m2, None)
        else InsertLoop(m2, h, d2.e, kicks - 1)
  }

  /** `m'` with `d` in hand holds exactly what `m` holds and `e`, everything in its own slot. */
  ghost predicate Conserves<E>(m: Table<E>, h: Hashes<E>, e: E, m': Table<E>, d: Displaced<E>) {
    Shaped(m') && Placed(m', h) && Contents(m') + Hand(d) == Contents(m) + multiset{e}
  }

  /** One kick loses nothing, copies nothing and puts nothing into a wrong slot. */
  lemma KickConserves<E(!new)>(m: Table<E>, h: Hashes<E>, e: E)
    requires Bounded(h) && Shaped(m) && Placed(m, h)
    ensures Conserves(m, h, e, Put0(m, h, e).0, Put0(m, h, e).1)
    ensures Conserves(m, h, e, Put1(m, h, e).0, Put1(m, h, e).1)
  {
    hide Entries;
    var t0, t1 := m.t0[h.h1(e) := Used(e)], m.t1[h.h2(e) := Used(e)];
    EntriesUpdate(m.t0, h.h1(e), Used(e));
    EntriesUpdate(m.t1, h.h2(e), Used(e));
    AddLeft(Entries(m.t1), Entries(m.t0), Entries(t0), One(m.t0[h.h1(e)]), One(Used(e)));
    AddLeft(Entries(m.t0), Entries(m.t1), Entries(t1), One(m.t1[h.h2(e)]), One(Used(e)));
  }

  /**
  Eviction refines insertion into a bag: whatever the kick limit, the tables and the item
  left in hand together hold exactly the old entries and the new one, each in a slot of its
  own hash. So success means exactly one more entry.
  */
  lemma {:induction false} InsertConserves<E(!new)>(m: Table<E>, h: Hashes<E>, e: E, kicks: nat)
    requires Bounded(h) && Shaped(m) && Placed(m, h)
    ensures Conserves(m, h, e, InsertLoop(m, h, e, kicks).0, InsertLoop(m, h, e, kicks).1)
    decreases kicks
  {
    hide Put0, Put1, Contents;
    if kicks > 0 {
      KickConserves(m, h, e);
      var (m1, d1) := Put0(m, h, e);
      if d1.Some? {
        KickConserves(m1, h, d1.e);
        var (m2, d2) := Put1(m1, h, d1.e);
        if d2.Some? {
          InsertConserves(m2, h, d2.e, kicks - 1);
          var (m', d) := InsertLoop(m2, h, d2.e, kicks - 1);
          assert Contents(m') + Hand(d) == Contents(m2) + Hand(d2) == Contents(m1) + Hand(d1);
        }
      }
    }
  }

  // ---------------------------------------------------------------------------------------
  // Removal

  /** Clearing a slot removes exactly its entry. */
  lemma ClearRemoves<E>(m: Table<E>, h: Hashes<E>, i: nat)
    requires Shaped(m) && Placed(m, h) && i < TABLE_SIZE
    ensures var m' := m.(t0 := m.t0[i := Free]);
      Shaped(m') && Placed(m', h) && Contents(m') + One(m.t0[i]) == Contents(m)
    ensures var m' := m.(t1 := m.t1[i := Free]);
      Shaped(m') && Placed(m', h) && Contents(m') + One(m.t1[i]) == Contents(m)
  {
    hide Entries;
    EntriesUpdate(m.t0, i, Free);
    EntriesUpdate(m.t1, i, Free);
    AddLeft(Entries(m.t1), Entries(m.t0), Entries(m.t0[i := Free]), One(m.t0[i]), multiset{});
    AddLeft(Entries(m.t0), Entries(m.t1), Entries(m.t1[i := Free]), One(m.t1[i]), multiset{});
  }
}
