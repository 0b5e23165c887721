/** Permutations and in-place rearrangements of stretches of a sequence, as the sorting code makes them. */
module Permutations {

  ghost predicate Injective<T>(s: seq<T>) {
    forall i, j | 0 <= i < j < |s| :: s[i] != s[j]
  }

  /** s lists each of 0, ..., |s|-1 exactly once. */
  ghost predicate IsPermutation(s: seq<int>) {
    && Injective(s)
    && forall i | 0 <= i < |s| :: 0 <= s[i] < |s|
  }

  ghost function Range(n: nat): (r: set<int>)
    ensures |r| == n
    ensures forall v :: v in r <==> 0 <= v < n
  {
    if n == 0 then {} else Range(n - 1) + {n - 1}
  }

  ghost function Elements<T(!new)>(s: seq<T>): (r: set<T>)
    ensures forall x :: x in r <==> x in s
  {
    set x | x in s
  }

  lemma {:induction false} InjectiveCardinality<T(!new)>(s: seq<T>)
    requires Injective(s)
    ensures |Elements(s)| == |s|
  {
    if s == [] {
      assert Elements(s) == {};
    } else {
      var r := s[..|s| - 1];
      InjectiveCardinality(r);
      assert s == r + [s[|s| - 1]];
      assert s[|s| - 1] !in r;
      assert Elements(s) == Elements(r) + {s[|s| - 1]};
    }
  }

  lemma SubsetCardinality<T>(a: set<T>, b: set<T>)
    requires a <= b
    ensures |a| <= |b|
    ensures |a| == |b| ==> a == b
  {
    assert b == a + (b - a);
  }

  /** An injective list of values from a set no larger than the list covers the set. */
  lemma Pigeonhole<T(!new)>(s: seq<T>, r: set<T>)
    requires Injective(s)
    requires forall x | x in s :: x in r
    ensures |s| <= |r|
    ensures |s| == |r| ==> forall x | x in r :: x in s
  {
    InjectiveCardinality(s);
    SubsetCardinality(Elements(s), r);
  }

  lemma PermutationIsSurjective(s: seq<int>)
    requires IsPermutation(s)
    ensures forall v | 0 <= v < |s| :: v in s
  {
    Pigeonhole(s, Range(|s|));
  }

  /** The entries of s with their multiplicities, order forgotten. */
  ghost function Bag<T>(s: seq<T>): multiset<T> {
    multiset(s)
  }

  /** b is a with the stretch [lo, hi) put in another order. */
  ghost predicate Rearranged<T>(a: seq<T>, b: seq<T>, lo: int, hi: int) {
    && 0 <= lo <= hi <= |a| == |b|
    && (forall k | 0 <= k < lo || hi <= k < |a| :: b[k] == a[k])
    && Bag(a) == Bag(b)
  }

  ghost function Swapped<T>(a: seq<T>, i: int, j: int): (r: seq<T>)
    requires 0 <= i < |a| && 0 <= j < |a|
  {
    a[i := a[j]][j := a[i]]
  }

  lemma SwapRearranges<T>(a: seq<T>, i: int, j: int, lo: int, hi: int)
    requires 0 <= lo <= i < hi <= |a| && lo <= j < hi
    ensures Rearranged(a, Swapped(a, i, j), lo, hi)
  {
  }

  lemma RearrangedReflexive<T>(a: seq<T>, lo: int, hi: int)
    requires 0 <= lo <= hi <= |a|
    ensures Rearranged(a, a, lo, hi)
  {
  }

  lemma SwappedAt<T>(a: seq<T>, i: int, j: int)
    requires 0 <= i < |a| && 0 <= j < |a|
    ensures |Swapped(a, i, j)| == |a| && Swapped(a, i, j)[i] == a[j] && Swapped(a, i, j)[j] == a[i]
    ensures forall x | 0 <= x < |a| && x != i && x != j :: Swapped(a, i, j)[x] == a[x]
  {
  }

  lemma RearrangedTransitive<T>(a: seq<T>, b: seq<T>, c: seq<T>, lo: int, hi: int)
    requires Rearranged(a, b, lo, hi) && Rearranged(b, c, lo, hi)
    ensures Rearranged(a, c, lo, hi)
  {
  }

  lemma RearrangedWider<T>(a: seq<T>, b: seq<T>, lo: int, hi: int, lo': int, hi': int)
    requires Rearranged(a, b, lo, hi)
    requires 0 <= lo' <= lo && hi <= hi' <= |a|
    ensures Rearranged(a, b, lo', hi')
  {
  }

  lemma RearrangedStretch<T>(a: seq<T>, b: seq<T>, lo: int, hi: int)
    requires Rearranged(a, b, lo, hi)
    ensures multiset(a[lo..hi]) == multiset(b[lo..hi])
  {
    assert a[..lo] == b[..lo] && a[hi..] == b[hi..];
    assert a == a[..lo] + a[lo..hi] + a[hi..];
    assert b == b[..lo] + b[lo..hi] + b[hi..];
    assert multiset(a) == multiset(a[..lo]) + multiset(a[lo..hi]) + multiset(a[hi..]);
    assert multiset(b) == multiset(b[..lo]) + multiset(b[lo..hi]) + multiset(b[hi..]);
    assert multiset(a[lo..hi]) == multiset(a) - multiset(a[..lo]) - multiset(a[hi..]);
    assert multiset(b[lo..hi]) == multiset(b) - multiset(b[..lo]) - multiset(b[hi..]);
  }

  /** Each element of the rearranged stretch was somewhere in the stretch before. */
  lemma RearrangedOrigin<T>(a: seq<T>, b: seq<T>, lo: int, hi: int)
    requires Rearranged(a, b, lo, hi)
    ensures forall k | lo <= k < hi :: b[k] in a[lo..hi]
  {
    RearrangedStretch(a, b, lo, hi);
    forall k | lo <= k < hi
      ensures b[k] in a[lo..hi]
    {
      assert b[k] == b[lo..hi][k - lo];
      assert b[k] in multiset(b[lo..hi]);
    }
  }

  /** Each element of the stretch before is somewhere in the rearranged stretch. */
  lemma RearrangedFind<T>(a: seq<T>, b: seq<T>, lo: int, hi: int, v: int) returns (w: int)
    requires Rearranged(a, b, lo, hi) && lo <= v < hi
    ensures lo <= w < hi && b[w] == a[v]
  {
    RearrangedOrigin(b, a, lo, hi);
    assert a[v] in b[lo..hi];
    w :| lo <= w < hi && b[w] == a[v];
  }

  lemma {:induction false} InjectiveMultiplicity<T(!new)>(s: seq<T>)
    ensures Injective(s) <==> forall x :: multiset(s)[x] <= 1
  {
    if s != [] {
      var n := |s| - 1;
      var r := s[..n];
      InjectiveMultiplicity(r);
      assert s == r + [s[n]];
      assert multiset(s) == multiset(r) + multiset{s[n]};
      if s[n] in r {
        var i :| 0 <= i < |r| && r[i] == s[n];
        assert s[i] == s[n] && multiset(r)[s[n]] >= 1;
        assert multiset(s)[s[n]] >= 2;
      } else {
        assert multiset(r)[s[n]] == 0;
        assert Injective(s) <==> Injective(r);
        assert forall x :: multiset(s)[x] == if x == s[n] then 1 else multiset(r)[x];
      }
    }
  }

  lemma RearrangedPermutation(a: seq<int>, b: seq<int>, lo: int, hi: int)
    requires Rearranged(a, b, lo, hi) && IsPermutation(a)
    ensures IsPermutation(b)
  {
    InjectiveMultiplicity(a);
    InjectiveMultiplicity(b);
    forall i | 0 <= i < |b|
      ensures 0 <= b[i] < |b|
    {
      assert b[i] in multiset(b);
    }
  }
}
