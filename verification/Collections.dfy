/** Sizes of sets, and sequences with the same elements. */
module Collections {
  lemma {:induction false} SubsetSize<T>(a: set<T>, b: set<T>)
    requires a <= b
    ensures |a| <= |b| && (|a| == |b| ==> a == b)
  {
    if a != {} {
      var c :| c in a;
      SubsetSize(a - {c}, b - {c});
      assert a == a - {c} + {c} && b == b - {c} + {c};
    }
  }

  lemma SameLength<T>(a: seq<T>, b: seq<T>)
    requires multiset(a) == multiset(b)
    ensures |a| == |b|
  {
    assert |multiset(a)| == |multiset(b)|;
  }

  lemma Cancel<T>(e: T, x: multiset<T>, y: multiset<T>)
    requires multiset{e} + x == multiset{e} + y
    ensures x == y
  {
    forall d ensures x[d] == y[d] {
      assert (multiset{e} + x)[d] == (multiset{e} + y)[d];
    }
  }

  lemma TakenOut<T>(a: seq<T>, k: nat)
    requires k < |a|
    ensures multiset(a) == multiset{a[k]} + multiset(a[..k] + a[k + 1..])
  {
    assert a == a[..k] + ([a[k]] + a[k + 1..]);
  }

  lemma Found<T>(a: seq<T>, b: seq<T>) returns (k: nat)
    requires multiset(a) == multiset(b) && b != []
    ensures k < |a| && a[k] == b[0]
  {
    assert b[0] in multiset(a);
    k :| 0 <= k < |a| && a[k] == b[0];
  }
}
