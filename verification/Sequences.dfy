/** Facts about sequences without repeated items and about prefixes. */
module Sequences {
  ghost predicate Distinct<T(!new)>(s: seq<T>) {
    forall i, j :: 0 <= i < j < |s| ==> s[i] != s[j]
  }

  ghost function Items<T>(s: seq<T>): (r: set<T>) {
    set x | x in s
  }

  function Last<T>(s: seq<T>): T
    requires s != []
  {
    s[|s| - 1]
  }

  lemma {:induction false} DistinctCard<T(!new)>(s: seq<T>)
    requires Distinct(s)
    ensures |Items(s)| == |s|
  {
    if s != [] {
      var front := s[..|s| - 1];
      DistinctCard(front);
      assert s == front + [Last(s)];
      assert Items(s) == Items(front) + {Last(s)};
      assert Last(s) !in Items(front);
    }
  }

  lemma SubsetCard<T>(a: set<T>, b: set<T>)
    requires a <= b
    ensures |a| <= |b|
    ensures |a| == |b| ==> a == b
  {
    assert b == a + (b - a);
    assert |b| == |a| + |b - a|;
  }

  /** A sequence without repeats drawn from `pool` is no longer than `pool`. */
  lemma DistinctBound<T(!new)>(s: seq<T>, pool: set<T>)
    requires Distinct(s) && Items(s) <= pool
    ensures |s| <= |pool|
  {
    DistinctCard(s);
    SubsetCard(Items(s), pool);
  }
}
