/** Lists without repetition. */
module Lists {

  ghost predicate NoDup<T>(es: seq<T>) {
    forall i, j :: 0 <= i < j < |es| ==> es[i] != es[j]
  }

  lemma NoDupConcat<T>(a: seq<T>, b: seq<T>)
    requires NoDup(a) && NoDup(b)
    requires forall e :: e in a ==> e !in b
    ensures NoDup(a + b)
  {
    forall i, j | 0 <= i < j < |a + b| ensures (a + b)[i] != (a + b)[j] {
      if i < |a| <= j {
        assert a[i] in a && b[j - |a|] in b;
      }
    }
  }

  ghost function ToSet<T>(es: seq<T>): set<T> { set e | e in es }

  lemma {:induction false} SizeOfNoDup<T>(es: seq<T>)
    requires NoDup(es)
    ensures |ToSet(es)| == |es|
  {
    if es != [] {
      var n := |es| - 1;
      SizeOfNoDup(es[..n]);
      assert es == es[..n] + [es[n]];
      assert ToSet(es) == ToSet(es[..n]) + {es[n]};
    }
  }
}
