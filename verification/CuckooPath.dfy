/**
What the eviction loop of `insert` does, said without the loop. The items that are in hand one
after the other form a path: the first is the new item, each goes to a slot of its own hash, in
the first table and in the second by turns, and the next is what that slot held then. `insert`
fails if and only if the first 128 slots of the path are all used.
 */
module CuckooPath {
  import opened CuckooTable

  /** Where the item that is in hand after `i` moves goes: which table and which slot */
  function SideOf(i: nat): nat { i % 2 }

  function PosOf<E>(h: Hashes<E>, e: E, i: nat): nat { if i % 2 == 0 then h.h1(e) else h.h2(e) }

  function SlotAt<E>(m: Table<E>, side: nat, pos: nat): Slot<E>
    requires Shaped(m) && pos < TABLE_SIZE
  {
    if side == 0 then m.t0[pos] else m.t1[pos]
  }

  /** Hand number `i` was put into this slot. */
  predicate WentTo<E>(h: Hashes<E>, hands: seq<E>, i: nat, side: nat, pos: nat)
    requires i < |hands|
  {
    SideOf(i) == side && PosOf(h, hands[i], i) == pos
  }

  /** What a slot of the table `m` holds after the first `n` hands: the last one put there, or what it held. */
  function Held<E(!new)>(m: Table<E>, h: Hashes<E>, hands: seq<E>, n: nat, side: nat, pos: nat): Slot<E>
    requires Shaped(m) && n <= |hands| && pos < TABLE_SIZE
  {
    if n == 0 then SlotAt(m, side, pos)
    else if WentTo(h, hands, n - 1, side, pos) then Used(hands[n - 1])
    else Held(m, h, hands, n - 1, side, pos)
  }

  /** What hand number `i` meets */
  function Meets<E(!new)>(m: Table<E>, h: Hashes<E>, hands: seq<E>, i: nat): Slot<E>
    requires Bounded(h) && Shaped(m) && i < |hands|
  {
    Held(m, h, hands, i, SideOf(i), PosOf(h, hands[i], i))
  }

  /** Every hand but the first is what the one before it met. */
  ghost predicate IsPath<E(!new)>(m: Table<E>, h: Hashes<E>, e: E, hands: seq<E>)
    requires Bounded(h) && Shaped(m)
  {
    && hands != [] && hands[0] == e
    && forall i :: 1 <= i < |hands| ==> Meets(m, h, hands, i - 1) == Used(hands[i])
  }

  /** `m'` is `m` with the first `n` hands put into their slots. */
  ghost predicate PutAll<E(!new)>(m: Table<E>, h: Hashes<E>, hands: seq<E>, n: nat, m': Table<E>)
    requires Shaped(m) && n <= |hands|
  {
    && Shaped(m')
    && forall side, pos :: 0 <= side < 2 && 0 <= pos < TABLE_SIZE ==>
      SlotAt(m', side, pos) == Held(m, h, hands, n, side, pos)
  }

  // ---------------------------------------------------------------------------------------
  // The loop follows the path

  /** The first two moves as a table of their own: the rest of the path goes on from there. */
  lemma {:induction false} HeldLater<E(!new)>(
      m: Table<E>, h: Hashes<E>, hands: seq<E>, m2: Table<E>, n: nat, side: nat, pos: nat)
    requires Shaped(m) && 2 <= |hands| && n <= |hands| - 2 && side < 2 && pos < TABLE_SIZE
    requires PutAll(m, h, hands, 2, m2)
    ensures Held(m2, h, hands[2..], n, side, pos) == Held(m, h, hands, n + 2, side, pos)
    decreases n
  {
    if n > 0 {
      HeldLater(m, h, hands, m2, n - 1, side, pos);
      assert hands[2..][n - 1] == hands[n + 1];
    }
  }

  lemma TwoPuts<E(!new)>(m: Table<E>, h: Hashes<E>, e: E, d: E, rest: seq<E>)
    requires Bounded(h) && Shaped(m)
    ensures PutAll(m, h, [e, d] + rest, 2, Put1(Put0(m, h, e).0, h, d).0)
  {
    var hands := [e, d] + rest;
    var m2 := Put1(Put0(m, h, e).0, h, d).0;
    forall side, pos | 0 <= side < 2 && 0 <= pos < TABLE_SIZE
      ensures SlotAt(m2, side, pos) == Held(m, h, hands, 2, side, pos)
    {
      assert Held(m, h, hands, 1, side, pos)
        == if WentTo(h, hands, 0, side, pos) then Used(e) else SlotAt(m, side, pos);
    }
  }

  /** A path from the table after two moves is the rest of a path. */
  lemma PathGoesOn<E(!new)>(m: Table<E>, h: Hashes<E>, e: E, d: E, rest: seq<E>)
    requires Bounded(h) && Shaped(m) && rest != []
    requires m.t0[h.h1(e)] == Used(d)
    requires var m1 := Put0(m, h, e).0; Put1(m1, h, d).1 == Some(rest[0]) && IsPath(Put1(m1, h, d).0, h, rest[0], rest)
    ensures IsPath(m, h, e, [e, d] + rest)
    ensures Meets(m, h, [e, d] + rest, |rest| + 1) == Meets(Put1(Put0(m, h, e).0, h, d).0, h, rest, |rest| - 1)
  {
    var hands := [e, d] + rest;
    var m2 := Put1(Put0(m, h, e).0, h, d).0;
    TwoPuts(m, h, e, d, rest);
    assert hands[2..] == rest;
    forall i | 0 <= i < |rest| ensures Meets(m, h, hands, i + 2) == Meets(m2, h, rest, i) {
      HeldLater(m, h, hands, m2, i, SideOf(i), PosOf(h, rest[i], i));
    }
    forall i | 1 <= i < |hands| ensures Meets(m, h, hands, i - 1) == Used(hands[i]) {
      if i == 2 {
        assert Held(m, h, hands, 1, 1, h.h2(d)) == SlotAt(m, 1, h.h2(d));
      } else if i > 2 {
        assert Meets(m2, h, rest, i - 3) == Used(rest[i - 2]);
        assert Meets(m, h, hands, (i - 3) + 2) == Meets(m2, h, rest, i - 3);
      }
    }
  }

  lemma PutsGoOn<E(!new)>(m: Table<E>, h: Hashes<E>, e: E, d: E, rest: seq<E>, n: nat, m': Table<E>)
    requires Bounded(h) && Shaped(m) && n <= |rest|
    requires PutAll(Put1(Put0(m, h, e).0, h, d).0, h, rest, n, m')
    ensures PutAll(m, h, [e, d] + rest, n + 2, m')
  {
    var hands := [e, d] + rest;
    var m2 := Put1(Put0(m, h, e).0, h, d).0;
    TwoPuts(m, h, e, d, rest);
    assert hands[2..] == rest;
    forall side, pos | 0 <= side < 2 && 0 <= pos < TABLE_SIZE
      ensures SlotAt(m', side, pos) == Held(m, h, hands, n + 2, side, pos)
    {
      HeldLater(m, h, hands, m2, n, side, pos);
    }
  }

  /** The path that a loop of `kicks` turns goes, and how it ends */
  ghost predicate Follows<E(!new)>(
      m: Table<E>, h: Hashes<E>, e: E, kicks: nat, m': Table<E>, d: Displaced<E>, hands: seq<E>)
    requires Bounded(h) && Shaped(m)
  {
    && IsPath(m, h, e, hands)
    && if d.Some?
       then |hands| == 2 * kicks + 1 && d.e == hands[2 * kicks] && PutAll(m, h, hands, 2 * kicks, m')
       else |hands| <= 2 * kicks && Meets(m, h, hands, |hands| - 1).Free? && PutAll(m, h, hands, |hands|, m')
  }

  lemma {:induction false} LoopFollowsPath<E(!new)>(m: Table<E>, h: Hashes<E>, e: E, kicks: nat) returns (hands: seq<E>)
    requires Bounded(h) && Shaped(m)
    ensures var (m', d) := InsertLoop(m, h, e, kicks); Follows(m, h, e, kicks, m', d, hands)
    decreases kicks
  {
    hide Follows;
    if kicks == 0 {
      hands := [e];
      StopsAtOnce(m, h, e);
    } else if m.t0[h.h1(e)].Free? {
      hands := [e];
      StopsAtFirst(m, h, e, kicks);
    } else {
      var d := m.t0[h.h1(e)].entry;
      var (m2, d2) := Put1(Put0(m, h, e).0, h, d);
      if d2.None? {
        hands := [e, d];
        StopsAtSecond(m, h, e, kicks, d);
      } else {
        var rest := LoopFollowsPath(m2, h, d2.e, kicks - 1);
        hands := [e, d] + rest;
        var (m', d') := InsertLoop(m2, h, d2.e, kicks - 1);
        FollowsOn(m, h, e, kicks, d, d2.e, m', d', rest);
      }
    }
  }

  lemma StopsAtOnce<E(!new)>(m: Table<E>, h: Hashes<E>, e: E)
    requires Bounded(h) && Shaped(m)
    ensures Follows(m, h, e, 0, m, Some(e), [e])
  {}

  lemma StopsAtFirst<E(!new)>(m: Table<E>, h: Hashes<E>, e: E, kicks: nat)
    requires Bounded(h) && Shaped(m) && kicks > 0 && m.t0[h.h1(e)].Free?
    ensures Follows(m, h, e, kicks, Put0(m, h, e).0, None, [e])
  {
    OnePut(m, h, e);
  }

  lemma StopsAtSecond<E(!new)>(m: Table<E>, h: Hashes<E>, e: E, kicks: nat, d: E)
    requires Bounded(h) && Shaped(m) && kicks > 0 && m.t0[h.h1(e)] == Used(d) && m.t1[h.h2(d)].Free?
    ensures Follows(m, h, e, kicks, Put1(Put0(m, h, e).0, h, d).0, None, [e, d])
  {
    var hands := [e, d];
    TwoPuts(m, h, e, d, []);
    assert [e, d] + [] == hands;
    assert Held(m, h, hands, 1, 1, h.h2(d)) == SlotAt(m, 1, h.h2(d));
  }

  lemma FollowsOn<E(!new)>(
      m: Table<E>, h: Hashes<E>, e: E, kicks: nat, d: E, d2: E, m': Table<E>, d': Displaced<E>, rest: seq<E>)
    requires Bounded(h) && Shaped(m) && kicks > 0 && m.t0[h.h1(e)] == Used(d)
    requires var (m2, next) := Put1(Put0(m, h, e).0, h, d);
      next == Some(d2) && Follows(m2, h, d2, kicks - 1, m', d', rest)
    ensures Follows(m, h, e, kicks, m', d', [e, d] + rest)
  {
    hide PutAll, Meets;
    PathGoesOn(m, h, e, d, rest);
    PutsGoOn(m, h, e, d, rest, if d'.Some? then 2 * (kicks - 1) else |rest|, m');
  }

  lemma OnePut<E(!new)>(m: Table<E>, h: Hashes<E>, e: E)
    requires Bounded(h) && Shaped(m)
    ensures PutAll(m, h, [e], 1, Put0(m, h, e).0)
  {
    var m1 := Put0(m, h, e).0;
    forall side, pos | 0 <= side < 2 && 0 <= pos < TABLE_SIZE
      ensures SlotAt(m1, side, pos) == Held(m, h, [e], 1, side, pos)
    {
      assert Held(m, h, [e], 0, side, pos) == SlotAt(m, side, pos);
    }
  }

  // ---------------------------------------------------------------------------------------
  // There is one path

  lemma {:induction false} HeldSame<E(!new)>(
      m: Table<E>, h: Hashes<E>, a: seq<E>, b: seq<E>, n: nat, side: nat, pos: nat)
    requires Shaped(m) && n <= |a| && n <= |b| && pos < TABLE_SIZE && forall i :: 0 <= i < n ==> a[i] == b[i]
    ensures Held(m, h, a, n, side, pos) == Held(m, h, b, n, side, pos)
    decreases n
  {
    if n > 0 {
      HeldSame(m, h, a, b, n - 1, side, pos);
    }
  }

  lemma {:induction false} PathsAgree<E(!new)>(m: Table<E>, h: Hashes<E>, e: E, a: seq<E>, b: seq<E>, n: nat)
    requires Bounded(h) && Shaped(m) && IsPath(m, h, e, a) && IsPath(m, h, e, b) && n <= |a| && n <= |b|
    ensures forall i :: 0 <= i < n ==> a[i] == b[i]
    decreases n
  {
    hide Held;
    if n > 1 {
      PathsAgree(m, h, e, a, b, n - 1);
      HeldSame(m, h, a, b, n - 2, SideOf(n - 2), PosOf(h, a[n - 2], n - 2));
      assert Meets(m, h, a, (n - 1) - 1) == Used(a[n - 1]) && Meets(m, h, b, (n - 1) - 1) == Used(b[n - 1]);
    }
  }

  /** The path from `e` is longer than `n` moves: its first `n` slots are all used. */
  ghost predicate GoesOn<E(!new)>(m: Table<E>, h: Hashes<E>, e: E, n: nat)
    requires Bounded(h) && Shaped(m)
  {
    exists hands :: IsPath(m, h, e, hands) && |hands| == n + 1
  }

  /** The loop fails if and only if the first `2 * kicks` slots of the path are all used. */
  lemma FailsIff<E(!new)>(m: Table<E>, h: Hashes<E>, e: E, kicks: nat)
    requires Bounded(h) && Shaped(m)
    ensures InsertLoop(m, h, e, kicks).1.Some? <==> GoesOn(m, h, e, 2 * kicks)
  {
    hide IsPath, InsertLoop, PutAll, Meets;
    var hands := LoopFollowsPath(m, h, e, kicks);
    if InsertLoop(m, h, e, kicks).1.None? && GoesOn(m, h, e, 2 * kicks) {
      var full :| IsPath(m, h, e, full) && |full| == 2 * kicks + 1;
      EndIsEnd(m, h, e, hands, full);
    }
  }

  /** A path that has met a free slot does not go on. */
  lemma EndIsEnd<E(!new)>(m: Table<E>, h: Hashes<E>, e: E, hands: seq<E>, full: seq<E>)
    requires Bounded(h) && Shaped(m) && IsPath(m, h, e, hands) && IsPath(m, h, e, full) && |hands| < |full|
    ensures Meets(m, h, hands, |hands| - 1).Used?
  {
    hide Held;
    var n := |hands|;
    PathsAgree(m, h, e, hands, full, n);
    HeldSame(m, h, hands, full, n - 1, SideOf(n - 1), PosOf(h, hands[n - 1], n - 1));
    assert hands[n - 1] == full[n - 1];
    assert Meets(m, h, full, n - 1) == Used(full[n]);
  }

  /** The slots of a path are used in the table itself, before anything is moved. */
  lemma {:induction false} PathSlotsAreUsed<E(!new)>(m: Table<E>, h: Hashes<E>, e: E, hands: seq<E>, i: nat)
    requires Bounded(h) && Shaped(m) && IsPath(m, h, e, hands) && i + 1 < |hands|
    ensures SlotAt(m, SideOf(i), PosOf(h, hands[i], i)).Used?
  {
    assert Meets(m, h, hands, (i + 1) - 1) == Used(hands[i + 1]);
    var j := LastVisit(m, h, hands, i, SideOf(i), PosOf(h, hands[i], i));
    if j < i {
      PathSlotsAreUsed(m, h, e, hands, j);
    }
  }

  /** The last hand before `n` that went to a slot, or `n` if the slot still holds what it held */
  lemma {:induction false} LastVisit<E(!new)>(m: Table<E>, h: Hashes<E>, hands: seq<E>, n: nat, side: nat, pos: nat)
      returns (j: nat)
    requires Shaped(m) && n <= |hands| && pos < TABLE_SIZE
    ensures j <= n && (j < n ==> WentTo(h, hands, j, side, pos))
    ensures j == n ==> Held(m, h, hands, n, side, pos) == SlotAt(m, side, pos)
    decreases n
  {
    if n == 0 {
      j := 0;
    } else if WentTo(h, hands, n - 1, side, pos) {
      j := n - 1;
    } else {
      j := LastVisit(m, h, hands, n - 1, side, pos);
      if j == n - 1 {
        j := n;
      }
    }
  }

  /** The second and the third hand are entries of the two tables. */
  lemma PathBegins<E(!new)>(m: Table<E>, h: Hashes<E>, e: E, hands: seq<E>)
    requires Bounded(h) && Shaped(m) && IsPath(m, h, e, hands) && |hands| >= 3
    ensures m.t0[h.h1(e)] == Used(hands[1]) && m.t1[h.h2(hands[1])] == Used(hands[2])
  {
    assert Meets(m, h, hands, 1 - 1) == Used(hands[1]) && Meets(m, h, hands, 2 - 1) == Used(hands[2]);
    assert Held(m, h, hands, 1, 1, h.h2(hands[1])) == SlotAt(m, 1, h.h2(hands[1]));
  }
}
