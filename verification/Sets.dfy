/** Sizes of finite sets. */
module Sets {
  import opened Common

  lemma SubsetSize<T>(a: set<T>, b: set<T>)
    requires a <= b
    ensures |a| <= |b|
  {
    assert b == a + (b - a);
  }

  lemma UnionSize<T>(a: set<T>, b: set<T>)
    ensures |a + b| <= |a| + |b|
  {
    assert |a + b| + |a * b| == |a| + |b|;
  }

  /** A one-to-one map takes a set into one that is no smaller. */
  lemma {:induction false} InjectionSize<A, B>(m: map<A, B>, b: set<B>)
    requires forall x :: x in m ==> m[x] in b
    requires forall x, y :: x in m && y in m && m[x] == m[y] ==> x == y
    ensures |m.Keys| <= |b|
    decreases |m.Keys|
  {
    if x :| x in m {
      var rest := m - {x};
      assert rest.Keys == m.Keys - {x};
      InjectionSize(rest, b - {m[x]});
    }
  }

  /** Different elements of b. */
  lemma {:induction false} ListSize<T>(s: seq<T>, b: set<T>)
    requires NoDuplicates(s) && forall i :: 0 <= i < |s| ==> s[i] in b
    ensures |s| <= |b|
    decreases |s|
  {
    if s != [] {
      ListSize(s[1..], b - {s[0]});
    }
  }
}
