/** The order `findBuildTool` sorts build-tools directories in: newest version first. */
module VersionOrder {
  /** A version's dotted parts; a part that is no number counts as 0, as does a missing one. */
  type Version = seq<int>

  function Part(v: Version, i: nat): int {
    if i < |v| then v[i] else 0
  }

  function Parts(a: Version, b: Version): nat {
    if |a| > |b| then |a| else |b|
  }

  /** The difference at the first part from `i` on that differs, the second version's less the first's. */
  function CompareFrom(a: Version, b: Version, i: nat): int
    decreases Parts(a, b) - i
  {
    if i >= Parts(a, b) then 0
    else if Part(b, i) != Part(a, i) then Part(b, i) - Part(a, i)
    else CompareFrom(a, b, i + 1)
  }

  /** The comparator: negative when `a` is the newer of the two. */
  method Compare(a: Version, b: Version) returns (d: int)
    ensures d == CompareFrom(a, b, 0)
  {
    var n := if |a| > |b| then |a| else |b|;
    for i := 0 to n
      invariant CompareFrom(a, b, 0) == CompareFrom(a, b, i)
    {
      d := Part(b, i) - Part(a, i);
      if d != 0 { return d; }
    }
    return 0;
  }

  /** `a` is newer: at the first part in which they differ it is the greater. */
  ghost predicate Newer(a: Version, b: Version) {
    exists k: nat :: FirstDifference(a, b, k) && Part(a, k) > Part(b, k)
  }

  predicate FirstDifference(a: Version, b: Version, k: nat) {
    Part(a, k) != Part(b, k) && forall j :: 0 <= j < k ==> Part(a, j) == Part(b, j)
  }

  /** The same version, written with more or fewer trailing zeros. */
  predicate Same(a: Version, b: Version) {
    forall i :: 0 <= i < Parts(a, b) ==> Part(a, i) == Part(b, i)
  }

  lemma {:induction false} CompareDecides(a: Version, b: Version, i: nat)
    requires i <= Parts(a, b) && forall j :: 0 <= j < i ==> Part(a, j) == Part(b, j)
    ensures CompareFrom(a, b, i) < 0 <==> Newer(a, b)
    ensures CompareFrom(a, b, i) > 0 <==> Newer(b, a)
    ensures CompareFrom(a, b, i) == 0 <==> Same(a, b)
    decreases Parts(a, b) - i
  {
    if i < Parts(a, b) {
      if Part(a, i) == Part(b, i) {
        CompareDecides(a, b, i + 1);
      } else {
        assert FirstDifference(a, b, i) && FirstDifference(b, a, i);
        forall k: nat | FirstDifference(a, b, k) || FirstDifference(b, a, k) ensures k == i {
          assert k < i ==> Part(a, k) == Part(b, k);
          assert i < k ==> Part(a, i) == Part(b, i);
        }
      }
    } else {
      forall k: nat ensures Part(a, k) == Part(b, k) {}
    }
  }

  /** At least as new. */
  ghost predicate NoOlder(a: Version, b: Version) {
    Newer(a, b) || Same(a, b)
  }

  lemma SameEverywhere(a: Version, b: Version, i: nat)
    requires Same(a, b)
    ensures Part(a, i) == Part(b, i)
  {
  }

  /** The comparator orders all versions: any two compare, both ways round alike, and the order carries over. */
  lemma TotalPreorder(a: Version, b: Version, c: Version)
    ensures NoOlder(a, b) || NoOlder(b, a)
    ensures NoOlder(a, b) && NoOlder(b, c) ==> NoOlder(a, c)
    ensures NoOlder(a, b) <==> CompareFrom(a, b, 0) <= 0
    ensures CompareFrom(a, b, 0) < 0 <==> CompareFrom(b, a, 0) > 0
  {
    CompareDecides(a, b, 0);
    CompareDecides(b, a, 0);
    CompareDecides(a, c, 0);
    if NoOlder(a, b) && NoOlder(b, c) { NoOlderTransitive(a, b, c); }
  }

  lemma NoOlderTransitive(a: Version, b: Version, c: Version)
    requires NoOlder(a, b) && NoOlder(b, c)
    ensures NoOlder(a, c)
  {
    forall i: nat ensures Same(a, b) ==> Part(a, i) == Part(b, i) { if Same(a, b) { SameEverywhere(a, b, i); } }
    forall i: nat ensures Same(b, c) ==> Part(b, i) == Part(c, i) { if Same(b, c) { SameEverywhere(b, c, i); } }
    if Newer(a, b) {
      var j: nat :| FirstDifference(a, b, j) && Part(a, j) > Part(b, j);
      if Newer(b, c) {
        var k: nat :| FirstDifference(b, c, k) && Part(b, k) > Part(c, k);
        var m := if j < k then j else k;
        assert FirstDifference(a, c, m) && Part(a, m) > Part(c, m);
      } else {
        assert FirstDifference(a, c, j);
      }
    } else if Newer(b, c) {
      var k: nat :| FirstDifference(b, c, k) && Part(b, k) > Part(c, k);
      assert FirstDifference(a, c, k);
    }
  }

  /** Versions written out to the same length compare at the first part in which they differ. */
  lemma {:induction false} EqualLengthsExactly(a: Version, b: Version, i: nat)
    requires i <= |a| == |b| && a[..i] == b[..i]
    ensures CompareFrom(a, b, i) == 0 <==> a == b
    ensures forall k :: 0 <= k < |a| && a[..k] == b[..k] && a[k] != b[k] ==> CompareFrom(a, b, i) == b[k] - a[k]
    decreases |a| - i
  {
    if i < |a| {
      assert forall k :: i < k <= |a| && a[..k] == b[..k] ==> a[i] == a[..k][i] == b[..k][i] == b[i];
      assert forall k :: 0 <= k < i ==> a[k] == a[..i][k] == b[..i][k] == b[k];
      if a[i] == b[i] {
        assert a[..i + 1] == a[..i] + [a[i]] && b[..i + 1] == b[..i] + [b[i]];
        EqualLengthsExactly(a, b, i + 1);
      } else {
        assert a != b;
      }
    } else {
      assert a[..i] == a && b[..i] == b;
    }
  }

  /** A part left out counts as zero. */
  lemma TrailingZero(a: Version, b: Version)
    ensures CompareFrom(a + [0], b, 0) == CompareFrom(a, b, 0)
    ensures CompareFrom(b, a + [0], 0) == CompareFrom(b, a, 0)
  {
    ZeroFrom(a, b, 0);
  }

  lemma {:induction false} ZeroFrom(a: Version, b: Version, i: nat)
    ensures CompareFrom(a + [0], b, i) == CompareFrom(a, b, i)
    ensures CompareFrom(b, a + [0], i) == CompareFrom(b, a, i)
    decreases Parts(a + [0], b) - i
  {
    var a' := a + [0];
    assert Part(a', i) == Part(a, i);
    if i < Parts(a', b) { ZeroFrom(a, b, i + 1); }
  }

  // ---------- Sorting by it ----------

  function Insert(v: Version, vs: seq<Version>): (r: seq<Version>)
    ensures multiset(r) == multiset{v} + multiset(vs)
  {
    if vs == [] || CompareFrom(v, vs[0], 0) <= 0 then [v] + vs
    else assert vs == [vs[0]] + vs[1..]; [vs[0]] + Insert(v, vs[1..])
  }

  /** `versions.sort(…)`: a stable sort, earlier directories first among equals. */
  function Sorted(vs: seq<Version>): (r: seq<Version>)
    ensures multiset(r) == multiset(vs)
  {
    if vs == [] then [] else assert vs == [vs[0]] + vs[1..]; Insert(vs[0], Sorted(vs[1..]))
  }

  ghost predicate NewestFirst(vs: seq<Version>) {
    forall i, j :: 0 <= i < j < |vs| ==> NoOlder(vs[i], vs[j])
  }

  lemma {:induction false} InsertKeepsOrder(v: Version, vs: seq<Version>)
    requires NewestFirst(vs)
    ensures NewestFirst(Insert(v, vs))
  {
    hide NoOlder, CompareFrom;
    if vs != [] {
      TotalPreorder(v, vs[0], v);
      TotalPreorder(vs[0], v, vs[0]);
      if CompareFrom(v, vs[0], 0) <= 0 {
        forall j | 0 <= j < |vs| ensures NoOlder(v, vs[j]) {
          if j > 0 { TotalPreorder(v, vs[0], vs[j]); }
        }
      } else {
        InsertKeepsOrder(v, vs[1..]);
        var r := Insert(v, vs[1..]);
        forall j | 0 <= j < |r| ensures NoOlder(vs[0], r[j]) {
          assert r[j] in multiset(r);
          assert r[j] == v || r[j] in vs[1..];
        }
      }
    }
  }

  /** The directory tried first holds a version at least as new as every other. */
  lemma {:induction false} SortPutsNewestFirst(vs: seq<Version>)
    ensures NewestFirst(Sorted(vs))
    ensures vs != [] ==> Sorted(vs)[0] in vs && forall i :: 0 <= i < |vs| ==> NoOlder(Sorted(vs)[0], vs[i])
  {
    if vs != [] {
      SortPutsNewestFirst(vs[1..]);
      InsertKeepsOrder(vs[0], Sorted(vs[1..]));
      HeadIsNewest(vs, Sorted(vs));
    }
  }

  lemma HeadIsNewest(vs: seq<Version>, r: seq<Version>)
    requires vs != [] && multiset(r) == multiset(vs) && NewestFirst(r)
    ensures r != [] && r[0] in vs && forall i :: 0 <= i < |vs| ==> NoOlder(r[0], vs[i])
  {
    assert vs[0] in multiset(r);
    assert r[0] in multiset(r);
    TotalPreorder(r[0], r[0], r[0]);
    hide NoOlder;
    forall i | 0 <= i < |vs| ensures NoOlder(r[0], vs[i]) {
      assert vs[i] in multiset(r);
      var j :| 0 <= j < |r| && r[j] == vs[i];
    }
  }

  /** The versions that are written differently from `v` at most in trailing zeros. */
  function Alike(vs: seq<Version>, v: Version): seq<Version> {
    if vs == [] then [] else (if Same(vs[0], v) then [vs[0]] else []) + Alike(vs[1..], v)
  }

  lemma {:induction false} InsertAlike(w: Version, vs: seq<Version>, v: Version)
    ensures Alike(Insert(w, vs), v) == (if Same(w, v) then [w] else []) + Alike(vs, v)
  {
    if vs == [] || CompareFrom(w, vs[0], 0) <= 0 {
      hide Same, CompareFrom;
      assert ([w] + vs)[1..] == vs;
    } else {
      InsertAlike(w, vs[1..], v);
      NotBoth(w, vs[0], v);
      hide Same, CompareFrom;
      assert ([vs[0]] + Insert(w, vs[1..]))[1..] == Insert(w, vs[1..]);
    }
  }

  lemma NotBoth(w: Version, x: Version, v: Version)
    requires CompareFrom(w, x, 0) > 0
    ensures !(Same(w, v) && Same(x, v))
  {
    CompareDecides(w, x, 0);
    if Same(w, v) && Same(x, v) {
      forall i: nat ensures Part(w, i) == Part(x, i) {
        SameEverywhere(w, v, i);
        SameEverywhere(x, v, i);
      }
      assert false;
    }
  }

  /** Directories of one version stay in the order they were listed in. */
  lemma {:induction false} SortIsStable(vs: seq<Version>, v: Version)
    ensures Alike(Sorted(vs), v) == Alike(vs, v)
  {
    if vs != [] {
      SortIsStable(vs[1..], v);
      InsertAlike(vs[0], Sorted(vs[1..]), v);
    }
  }
}
