/**
Nobody is stuck in the concurrent store: a lookup ends after four steps of its reader whatever
the others do, and a grace period ends when the readers it waits for have taken theirs.
 */
module RcuProgress {
  import opened CuckooTable
  import opened StoreModel
  import opened RcuHeap
  import opened RcuStore
  import opened RcuSafety

  /** How many steps a reader needs at most to leave its section */
  function ReadsLeft<V>(pc: ReaderPc<V>): nat {
    match pc
    case Outside => 0
    case Locked(_) => 4
    case Loaded(_, _, _) => 3
    case Missed(_, _, _) => 2
    case Answered(_, _) => 1
  }

  /** The section has been left, or it is open and closer to its end. */
  ghost predicate Closer<V>(s: Rcu<V>, r: nat, section: nat, left: nat) {
    && r < |s.readers|
    && (s.readers[r].section > section
        || (s.readers[r].section == section && !s.readers[r].pc.Outside? && ReadsLeft(s.readers[r].pc) <= left))
  }

  lemma ReadCounts<V>(s: Rcu<V>, keyOf: V -> bv32, r: nat, section: nat, left: nat)
    requires Closer(s, r, section, left) && left > 0
    ensures Closer(Step(s, keyOf, Read(r)), r, section, left - 1)
  {
    hide Slot1, Slot2, Matches, Reads, Registers;
  }

  lemma OthersDoNotMatter<V>(s: Rcu<V>, keyOf: V -> bv32, l: Label<V>, r: nat, section: nat, left: nat)
    requires Closer(s, r, section, left) && l != Read(r)
    ensures Closer(Step(s, keyOf, l), r, section, left)
  {
    hide WriterStep, Slot1, Slot2, Matches, Reads, Registers, FreshClone, Drop, CanDrop;
    if l.Write? && l.w < |s.writers| {
      WriteKeepsReaders(s, keyOf, l.w);
    }
  }

  lemma WriteKeepsReaders<V>(s: Rcu<V>, keyOf: V -> bv32, w: nat)
    requires w < |s.writers|
    ensures WriterStep(s, keyOf, w).readers == s.readers
  {
    hide Finds, ReadsBoth, Change, Drop, CanDrop, OpenSections;
  }

  /** How many steps of reader `r` a run contains */
  function ReadsOf<V(==)>(ls: seq<Label<V>>, r: nat): nat {
    if ls == [] then 0 else ReadsOf(ls[..|ls| - 1], r) + if ls[|ls| - 1] == Read(r) then 1 else 0
  }

  lemma {:induction false} SectionCloses<V>(s: Rcu<V>, keyOf: V -> bv32, ls: seq<Label<V>>, r: nat)
    requires r < |s.readers| && !s.readers[r].pc.Outside?
    ensures var left := ReadsLeft(s.readers[r].pc);
      Closer(Run(s, keyOf, ls), r, s.readers[r].section, if ReadsOf(ls, r) < left then left - ReadsOf(ls, r) else 0)
  {
    hide Step;
    if ls != [] {
      var prefix, l := ls[..|ls| - 1], ls[|ls| - 1];
      var s1, left := Run(s, keyOf, prefix), ReadsLeft(s.readers[r].pc);
      SectionCloses(s, keyOf, prefix, r);
      var now := if ReadsOf(prefix, r) < left then left - ReadsOf(prefix, r) else 0;
      if l == Read(r) && now > 0 {
        ReadCounts(s1, keyOf, r, s.readers[r].section, now);
      } else if l == Read(r) {
        StaysLeft(s1, keyOf, r, s.readers[r].section);
      } else {
        OthersDoNotMatter(s1, keyOf, l, r, s.readers[r].section, now);
      }
    }
  }

  lemma StaysLeft<V>(s: Rcu<V>, keyOf: V -> bv32, r: nat, section: nat)
    requires Closer(s, r, section, 0)
    ensures Closer(Step(s, keyOf, Read(r)), r, section, 0)
  {
    hide Slot1, Slot2, Matches, Reads, Registers;
  }

  /** A lookup is over after four steps of its reader, whatever the others do meanwhile. */
  lemma LookupEnds<V>(s: Rcu<V>, keyOf: V -> bv32, ls: seq<Label<V>>, r: nat, v: V)
    requires r < |s.readers| && s.readers[r].pc.Outside? && ReadsOf(ls, r) >= 4
    ensures var s1 := Step(s, keyOf, Enter(r, v));
      && s1.readers[r].pc == Locked(v)
      && r < |Run(s1, keyOf, ls).readers| && Run(s1, keyOf, ls).readers[r].section > s.readers[r].section
  {
    hide Run;
    SectionCloses(Step(s, keyOf, Enter(r, v)), keyOf, ls, r);
  }

  /** A section ends only with an answer. */
  lemma OnlyAnswersLeave<V>(s: Rcu<V>, keyOf: V -> bv32, l: Label<V>, r: nat)
    requires r < |s.readers|
    ensures var s' := Step(s, keyOf, l);
      && |s'.readers| == |s.readers|
      && (s'.readers[r].section != s.readers[r].section || (s'.readers[r].pc.Outside? && !s.readers[r].pc.Outside?) ==>
          l == Read(r) && s.readers[r].pc.Answered?)
  {
    hide WriterStep, Slot1, Slot2, Matches, Reads, Registers, FreshClone, Drop, CanDrop;
    if l.Write? && l.w < |s.writers| {
      WriteKeepsReaders(s, keyOf, l.w);
    }
  }

  /**
  A grace period ends: once every reader has taken four steps since it began, the waiting
  writer goes on, no matter how many new sections have been opened.
   */
  lemma GraceEnds<V>(s: Rcu<V>, keyOf: V -> bv32, ls: seq<Label<V>>, w: nat, prev: nat)
    requires w < |s.writers| && s.writers[w] == Unlocked(prev)
    requires forall r :: 0 <= r < |s.readers| ==> ReadsOf(ls, r) >= 4
    ensures var s1 := Step(s, keyOf, Write(w));
      && w < |s1.writers| && s1.writers[w].Waiting? && s1.writers[w].prev == prev
      && s1.writers[w].open * OpenSections(Run(s1, keyOf, ls).readers) == {}
  {
    hide Run;
    var s1 := Step(s, keyOf, Write(w));
    var open, now := s1.writers[w].open, OpenSections(Run(s1, keyOf, ls).readers);
    forall x | x in open && x in now ensures false {
      var r := x.0;
      SectionCloses(s1, keyOf, ls, r);
    }
  }

  /** Then the map it replaced is freed in two steps, and the writer is free. */
  lemma GraceLeadsToFree<V>(s: Rcu<V>, keyOf: V -> bv32, w: nat)
    requires w < |s.writers| && s.writers[w].Waiting? && s.writers[w].open * OpenSections(s.readers) == {}
    ensures var s2 := Step(Step(s, keyOf, Write(w)), keyOf, Write(w));
      && w < |s2.writers| && s2.writers[w].Idle? && s2.h == Drop(s.h, s.writers[w].prev)
  {
    hide Drop, CanDrop;
  }
}
