/**
When a value does not fit: the path of evictions depends on the keys in the slots only, so
whether `insert` will fail can be told from the published map before anything is copied.
 */
module Room {
  import CuckooHash
  import opened CuckooTable
  import opened CuckooPath
  import opened StoreModel

  function KeyIn(s: Slot<Ref>): Slot<bv32> { if s.Used? then Used(s.entry.key) else Free }

  function Keys(slots: seq<Slot<Ref>>): (ks: seq<Slot<bv32>>)
    ensures |ks| == |slots| && forall i :: 0 <= i < |slots| ==> ks[i] == KeyIn(slots[i])
  {
    seq(|slots|, i requires 0 <= i < |slots| => KeyIn(slots[i]))
  }

  /** A map without its items */
  function KeysOf(m: Table<Ref>): Table<bv32> { Table(Keys(m.t0), Keys(m.t1)) }

  const KEY_HASHES: Hashes<bv32> := Hashes(CuckooHash.Hash1, CuckooHash.Hash2)

  lemma KeyHashesAreBounded()
    ensures Bounded(KEY_HASHES)
  {
    hide CuckooHash.Hash1, CuckooHash.Hash2;
  }

  /** All the 128 slots that `insert` would try for this key are used. */
  ghost predicate NoRoom(m: Table<Ref>, key: bv32)
    requires Shaped(m)
  {
    KeyHashesAreBounded();
    GoesOn(KeysOf(m), KEY_HASHES, key, 128)
  }

  function KeyInHand(d: Displaced<Ref>): Displaced<bv32> { if d.Some? then Some(d.e.key) else None }

  lemma KeysUpdate(slots: seq<Slot<Ref>>, i: nat, r: Ref)
    requires i < |slots|
    ensures Keys(slots[i := Used(r)]) == Keys(slots)[i := Used(r.key)]
  {}

  /** The eviction loop does not look at items. */
  lemma {:induction false} LoopOnKeys(m: Table<Ref>, r: Ref, kicks: nat)
    requires Shaped(m) && Bounded(HASHES) && Bounded(KEY_HASHES)
    ensures InsertLoop(KeysOf(m), KEY_HASHES, r.key, kicks) ==
      (KeysOf(InsertLoop(m, HASHES, r, kicks).0), KeyInHand(InsertLoop(m, HASHES, r, kicks).1))
    decreases kicks
  {
    hide CuckooHash.Hash1, CuckooHash.Hash2;
    if kicks > 0 {
      var (m1, d1) := Put0(m, HASHES, r);
      KeysUpdate(m.t0, RefHash1(r), r);
      assert Put0(KeysOf(m), KEY_HASHES, r.key) == (KeysOf(m1), KeyInHand(d1));
      if d1.Some? {
        var (m2, d2) := Put1(m1, HASHES, d1.e);
        KeysUpdate(m1.t1, RefHash2(d1.e), d1.e);
        assert Put1(KeysOf(m1), KEY_HASHES, d1.e.key) == (KeysOf(m2), KeyInHand(d2));
        if d2.Some? {
          LoopOnKeys(m2, d2.e, kicks - 1);
        }
      }
    }
  }

  /** `insert` of an absent value ends in -ENOSPC if and only if there is no room for its key. */
  lemma InsertionFailsIff<V>(m: Table<Ref>, live: map<nat, V>, keyOf: V -> bv32, p: nat)
    requires Shaped(m) && p in live && !Probe(m, live, keyOf(live[p]), live[p])
    ensures Insertion(m, live, keyOf, p).code == if NoRoom(m, keyOf(live[p])) then ENoSpc else Ok
  {
    hide InsertLoop, Probe, CuckooHash.Hash1, CuckooHash.Hash2;
    HashesAreBounded();
    KeyHashesAreBounded();
    var r := Ref(keyOf(live[p]), p);
    LoopOnKeys(m, r, MAX_KICKS);
    FailsIff(KeysOf(m), KEY_HASHES, r.key, MAX_KICKS);
  }

  lemma CloneHasSameRoom<V>(m: Table<Ref>, live: map<nat, V>, m': Table<Ref>, live': map<nat, V>, key: bv32)
    requires Copied(m, live, m', live')
    ensures NoRoom(m', key) <==> NoRoom(m, key)
  {
    forall i | 0 <= i < TABLE_SIZE ensures KeyIn(m'.t0[i]) == KeyIn(m.t0[i]) && KeyIn(m'.t1[i]) == KeyIn(m.t1[i]) {
      assert CopyOf(Slots(m)[i], live, Slots(m')[i], live');
      assert CopyOf(Slots(m)[TABLE_SIZE + i], live, Slots(m')[TABLE_SIZE + i], live');
    }
    assert KeysOf(m') == KeysOf(m);
  }

  /** A store with at most one member has room for every key. */
  lemma OneMemberLeavesRoom<V>(m: Table<Ref>, live: map<nat, V>, keyOf: V -> bv32, key: bv32)
    requires Owns(m, live, keyOf) && |Members(m, live)| <= 1
    ensures !NoRoom(m, key)
  {
    hide Contents, Placed, CuckooHash.Hash1, CuckooHash.Hash2, Resolved, Distinct, Members;
    KeyHashesAreBounded();
    if NoRoom(m, key) {
      var hands :| IsPath(KeysOf(m), KEY_HASHES, key, hands) && |hands| == 129;
      PathBegins(KeysOf(m), KEY_HASHES, key, hands);
      var i, j := CuckooHash.Hash1(key), CuckooHash.Hash2(hands[1]);
      assert m.t0[i].Used? && m.t1[j].Used?;
      TwoEntriesTwoMembers(m, live, keyOf, i, j);
    }
  }

  lemma TwoEntriesTwoMembers<V>(m: Table<Ref>, live: map<nat, V>, keyOf: V -> bv32, i: nat, j: nat)
    requires Owns(m, live, keyOf) && i < TABLE_SIZE && j < TABLE_SIZE && m.t0[i].Used? && m.t1[j].Used?
    ensures |Members(m, live)| >= 2
  {
    hide Contents, Placed, Slots;
    SlotIsContent(m, i);
    SlotIsContent(m, j);
    var a, b := m.t0[i].entry, m.t1[j].entry;
    assert Slots(m)[i] == m.t0[i] && Slots(m)[TABLE_SIZE + j] == m.t1[j] by { SlotsAreTables(m, i, j); }
    SlotsDiffer(m, live, keyOf, i, TABLE_SIZE + j);
    TwoInSet(Members(m, live), live[a.ptr], live[b.ptr]);
  }

  lemma SlotsAreTables(m: Table<Ref>, i: nat, j: nat)
    requires Shaped(m) && i < TABLE_SIZE && j < TABLE_SIZE
    ensures |Slots(m)| == 2 * TABLE_SIZE && Slots(m)[i] == m.t0[i] && Slots(m)[TABLE_SIZE + j] == m.t1[j]
  {}

  lemma TwoInSet<T>(s: set<T>, a: T, b: T)
    requires a in s && b in s && a != b
    ensures |s| >= 2
  {
    assert |{a, b}| == 2;
    assert s == {a, b} + (s - {a, b});
  }

  // ---------------------------------------------------------------------------------------
  // The hash functions

  /** Users 1010 and 1022 share their slot of the first table and not that of the second. */
  lemma UsersCollide()
    ensures CuckooHash.Hash1(1010) == 29 && CuckooHash.Hash1(1022) == 29 && CuckooHash.Hash2(1010) == 86
    ensures CuckooHash.Hash2(1022) == 53
  {}
}
