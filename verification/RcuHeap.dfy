/**
The memory of the concurrent store: map structures and items are separate allocations in one
heap that all readers and writers share. Addresses are handed out once, so that a use of freed
memory is never hidden by reuse.
 */
module RcuHeap {
  import opened CuckooTable
  import opened StoreModel

  datatype Heap<V> = Heap(maps: map<nat, Table<Ref>>, items: map<nat, V>, nextMap: nat, nextItem: nat)

  /** The set that map `k` stands for */
  ghost function SetOf<V>(h: Heap<V>, k: nat): set<V>
    requires k in h.maps
  {
    Members(h.maps[k], h.items)
  }

  ghost function PtrsOfMap<V>(h: Heap<V>, k: nat): set<nat> { if k in h.maps then Ptrs(h.maps[k]) else {} }

  /** Some map holds item `p`. */
  ghost predicate Held<V>(h: Heap<V>, p: nat) { exists k :: k in h.maps && p in Ptrs(h.maps[k]) }

  ghost predicate Disjoint<V>(h: Heap<V>, j: nat, k: nat)
    requires j in h.maps && k in h.maps
  {
    Ptrs(h.maps[j]) !! Ptrs(h.maps[k])
  }

  /** Every map owns its items alone, and every item belongs to a map. */
  ghost predicate Sound<V>(h: Heap<V>, keyOf: V -> bv32) {
    && (forall k :: k in h.maps ==> k < h.nextMap && Owns(h.maps[k], h.items, keyOf))
    && (forall j, k :: j in h.maps && k in h.maps && j != k ==> Disjoint(h, j, k))
    && (forall p :: p in h.items ==> p < h.nextItem && Held(h, p))
  }

  /** Map `k` and its items are the same in both heaps. */
  ghost predicate Same<V>(h: Heap<V>, h': Heap<V>, k: nat) {
    && k in h.maps && k in h'.maps && h'.maps[k] == h.maps[k]
    && forall p :: p in Ptrs(h.maps[k]) ==> p in h.items && p in h'.items && h'.items[p] == h.items[p]
  }

  lemma SameSet<V>(h: Heap<V>, h': Heap<V>, keyOf: V -> bv32, k: nat)
    requires Sound(h, keyOf) && Same(h, h', k)
    ensures Owns(h'.maps[k], h'.items, keyOf) && SetOf(h', k) == SetOf(h, k)
  {
    hide Owns, Ptrs, Members;
    OwnsElsewhere(h.maps[k], h.items, h'.items, keyOf);
  }

  /** Map `k` is new or changes, together with its items; nothing else does. */
  ghost predicate Writes<V>(h: Heap<V>, h': Heap<V>, k: nat) {
    && h'.maps.Keys == h.maps.Keys + {k} && h.nextMap <= h'.nextMap && k < h'.nextMap && h.nextItem <= h'.nextItem
    && (forall j :: j in h.maps && j != k ==> h'.maps[j] == h.maps[j])
    && h'.items.Keys == h.items.Keys - PtrsOfMap(h, k) + PtrsOfMap(h', k)
    && (forall p :: p in h.items && p !in PtrsOfMap(h, k) ==> p !in PtrsOfMap(h', k) && h'.items[p] == h.items[p])
    && (forall p :: p in PtrsOfMap(h', k) ==> p < h'.nextItem)
  }

  lemma WriteKeepsSound<V>(h: Heap<V>, h': Heap<V>, keyOf: V -> bv32, k: nat)
    requires Sound(h, keyOf) && Writes(h, h', k) && Owns(h'.maps[k], h'.items, keyOf)
    ensures Sound(h', keyOf) && forall j :: j in h.maps && j != k ==> Same(h, h', j)
  {
    hide Owns, Ptrs, Members;
    forall j | j in h.maps && j != k ensures Same(h, h', j) && Owns(h'.maps[j], h'.items, keyOf) {
      OthersAreLive(h, keyOf, j);
      assert k in h.maps ==> Disjoint(h, j, k);
      SameSet(h, h', keyOf, j);
    }
    forall i, j | i in h'.maps && j in h'.maps && i != j ensures Disjoint(h', i, j) {
      if i != k {
        OthersAreLive(h, keyOf, i);
      }
      if j != k {
        OthersAreLive(h, keyOf, j);
      }
      assert i != k && j != k ==> Disjoint(h, i, j);
      assert i != k && k in h.maps ==> Disjoint(h, i, k);
      assert j != k && k in h.maps ==> Disjoint(h, j, k);
    }
    forall p | p in h'.items ensures p < h'.nextItem && Held(h', p) {
      if p in PtrsOfMap(h', k) {
        assert k in h'.maps && p in Ptrs(h'.maps[k]);
      } else {
        var j :| j in h.maps && p in Ptrs(h.maps[j]);
        assert j in h'.maps && p in Ptrs(h'.maps[j]);
      }
    }
  }

  lemma OthersAreLive<V>(h: Heap<V>, keyOf: V -> bv32, j: nat)
    requires Sound(h, keyOf) && j in h.maps
    ensures Ptrs(h.maps[j]) <= h.items.Keys
  {
    hide Ptrs, Owns;
    OwnedPtrsAreLive(h.maps[j], h.items, keyOf);
  }

  // ---------------------------------------------------------------------------------------
  // Freeing a map

  /** `destroy_map` */
  ghost function Drop<V>(h: Heap<V>, k: nat): Heap<V> {
    h.(maps := h.maps - {k}, items := h.items - PtrsOfMap(h, k))
  }

  /** Every kfree of `destroy_map` is given an allocated address, once. */
  ghost predicate CanDrop<V>(h: Heap<V>, k: nat) {
    k in h.maps && OnePtrEach(Contents(h.maps[k])) && Ptrs(h.maps[k]) <= h.items.Keys
  }

  lemma DropKeepsSound<V>(h: Heap<V>, keyOf: V -> bv32, k: nat)
    requires Sound(h, keyOf) && k in h.maps
    ensures CanDrop(h, k) && Sound(Drop(h, k), keyOf)
    ensures forall j :: j in h.maps && j != k ==> Same(h, Drop(h, k), j)
  {
    hide Owns, Ptrs, Members, Contents, OnePtrEach;
    var h' := Drop(h, k);
    OthersAreLive(h, keyOf, k);
    OwnedPtrsAreOneEach(h.maps[k], h.items, keyOf);
    forall j | j in h.maps && j != k ensures Same(h, h', j) && Owns(h'.maps[j], h'.items, keyOf) {
      OthersAreLive(h, keyOf, j);
      assert Disjoint(h, j, k);
      SameSet(h, h', keyOf, j);
    }
    forall i, j | i in h'.maps && j in h'.maps && i != j ensures Disjoint(h', i, j) {
      assert Disjoint(h, i, j);
    }
    forall p | p in h'.items ensures Held(h', p) {
      var j :| j in h.maps && p in Ptrs(h.maps[j]);
      assert j in h'.maps && p in Ptrs(h'.maps[j]);
    }
  }

  // ---------------------------------------------------------------------------------------
  // Cloning a map and changing the clone

  /** The heap with a new map `c`, whose items are the new ones in `items'` */
  function WithClone<V>(h: Heap<V>, c: Table<Ref>, items': map<nat, V>, nextItem': nat): Heap<V> {
    Heap(h.maps[h.nextMap := c], items', h.nextMap + 1, nextItem')
  }

  lemma CloneKeepsSound<V>(
      h: Heap<V>, keyOf: V -> bv32, k: nat, c: Table<Ref>, items': map<nat, V>, nextItem': nat)
    requires Sound(h, keyOf) && k in h.maps
    requires FreshClone(h.maps[k], h.items, h.nextItem, c, items', nextItem')
    ensures var h' := WithClone(h, c, items', nextItem');
      && Sound(h', keyOf) && (forall j :: j in h.maps ==> Same(h, h', j))
      && h.nextMap !in h.maps && SetOf(h', h.nextMap) == SetOf(h, k)
  {
    hide Owns, Ptrs, Members, Contents, OnePtrEach, Copied;
    FreshCloneIsEqual(h.maps[k], h.items, h.nextItem, c, items', nextItem', keyOf);
    WriteKeepsSound(h, WithClone(h, c, items', nextItem'), keyOf, h.nextMap);
  }

  /** The heap after a change to map `k` */
  function Altered<V>(h: Heap<V>, k: nat, r: Changed<V>, nextItem': nat): Heap<V> {
    h.(maps := h.maps[k := r.table], items := r.live, nextItem := nextItem')
  }

  /** `insert` of a new item, or `remove`, on map `k` */
  ghost function Change<V>(h: Heap<V>, keyOf: V -> bv32, k: nat, op: Op<V>): Changed<V>
    requires k in h.maps && Shaped(h.maps[k])
  {
    ChangeClone(h.maps[k], h.items, h.nextItem, keyOf, op)
  }

  /** kmalloc hands out an address when there is something to insert. */
  function NextItem<V>(h: Heap<V>, op: Op<V>): nat { h.nextItem + if op.Add? then 1 else 0 }

  lemma ChangeKeepsSound<V>(h: Heap<V>, keyOf: V -> bv32, k: nat, op: Op<V>)
    requires Sound(h, keyOf) && k in h.maps && Shaped(h.maps[k]) && (op.Add? == (op.v !in SetOf(h, k)))
    ensures var r := Change(h, keyOf, k, op);
      var h' := Altered(h, k, r, NextItem(h, op));
      && (r.code == Ok || (op.Add? && r.code == ENoSpc)) && Sound(h', keyOf)
      && (forall j :: j in h.maps && j != k ==> Same(h, h', j))
      && (r.code == Ok ==> SetOf(h', k) == After(SetOf(h, k), op))
  {
    hide Owns, Ptrs, Members, Contents, Insertion, Removal;
    OthersAreLive(h, keyOf, k);
    if op.Add? {
      var live := h.items[h.nextItem := op.v];
      OwnsElsewhere(h.maps[k], h.items, live, keyOf);
      InsertionMeans(h.maps[k], live, keyOf, h.nextItem);
    } else {
      RemovalMeans(h.maps[k], h.items, keyOf, op.v);
    }
    WriteKeepsSound(h, Altered(h, k, Change(h, keyOf, k, op), NextItem(h, op)), keyOf, k);
  }
}
