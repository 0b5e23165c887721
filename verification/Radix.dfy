/** Bucket placement by counting, as both sorts and the decoder use it. */
module Radix {
  import opened Counting
  import opened Permutations

  ghost predicate Keys(keys: seq<int>, size: int) {
    forall x | 0 <= x < |keys| :: 0 <= keys[x] < size
  }

  /** How many of the indices lo, ..., hi-1 have key c. */
  ghost function CountIn(keys: seq<int>, lo: nat, hi: nat, c: int): int
    requires lo <= hi <= |keys|
  {
    Count(keys, hi, c) - Count(keys, lo, c)
  }

  /** Places from.. of bucket c hold different indices of lo..hi-1, all of key c. */
  ghost predicate Filled(keys: seq<int>, f: seq<int>, c: int, from: int, lo: nat, hi: nat)
    requires |f| == |keys| && lo <= hi <= |keys|
  {
    && (forall x | from <= x < Below(keys, |keys|, c + 1) :: 0 <= x && lo <= f[x] < hi && keys[f[x]] == c)
    && (forall x, y | from <= x < y < Below(keys, |keys|, c + 1) :: 0 <= x && f[x] != f[y])
  }

  /** The indices lo, ..., hi-1 have been placed, each bucket filled downwards from its end. */
  ghost predicate Placed(keys: seq<int>, size: nat, f: seq<int>, ftab: seq<int>, lo: nat, hi: nat)
    requires Keys(keys, size) && |f| == |keys| && |ftab| >= size && lo <= hi <= |keys|
  {
    forall c | 0 <= c < size ::
      ftab[c] == Below(keys, |keys|, c + 1) - CountIn(keys, lo, hi, c) && Filled(keys, f, c, ftab[c], lo, hi)
  }

  lemma PlacedNone(keys: seq<int>, size: nat, f: seq<int>, ftab: seq<int>, at: nat)
    requires Keys(keys, size) && |f| == |keys| && |ftab| >= size && at <= |keys|
    requires forall c | 0 <= c < size :: ftab[c] == Below(keys, |keys|, c + 1)
    ensures Placed(keys, size, f, ftab, at, at)
  {
  }

  lemma BucketsApart(keys: seq<int>, c: int, d: int)
    requires c < d
    ensures Below(keys, |keys|, c + 1) <= Below(keys, |keys|, d)
  {
    BelowMonotone(keys, |keys|, c + 1, d);
  }

  lemma PlacedLow(keys: seq<int>, lo: nat, hi: nat, d: int)
    requires lo <= hi <= |keys|
    ensures CountIn(keys, lo, hi, d) >= 0
    ensures Below(keys, |keys|, d) <= Below(keys, |keys|, d + 1) - CountIn(keys, lo, hi, d)
    ensures hi < |keys| && keys[hi] == d ==>
      Below(keys, |keys|, d) < Below(keys, |keys|, d + 1) - CountIn(keys, lo, hi, d)
    ensures 0 < lo && keys[lo - 1] == d ==>
      Below(keys, |keys|, d) < Below(keys, |keys|, d + 1) - CountIn(keys, lo, hi, d)
  {
    CountMonotone(keys, lo, hi, d);
    CountMonotone(keys, hi, |keys|, d);
    BelowNext(keys, |keys|, d);
    if 0 < lo {
      CountMonotone(keys, 0, lo - 1, d);
    }
  }

  /** Placing the next index above, or the next below. */
  lemma PlaceStep(keys: seq<int>, size: nat, f: seq<int>, ftab: seq<int>, lo: nat, hi: nat, v: nat)
    requires Keys(keys, size) && |f| == |keys| && |ftab| >= size && lo <= hi <= |keys|
    requires Placed(keys, size, f, ftab, lo, hi)
    requires v == hi < |keys| || (0 < lo && v == lo - 1)
    ensures 0 <= ftab[keys[v]] - 1 < |f|
    ensures var k := ftab[keys[v]] - 1;
      Placed(keys, size, f[k := v], ftab[keys[v] := k], if v < lo then v else lo, if v < lo then hi else v + 1)
  {
    var c := keys[v];
    var lo', hi' := if v < lo then v else lo, if v < lo then hi else v + 1;
    PlacedLow(keys, lo, hi, c);
    var k := ftab[c] - 1;
    var f2, ftab2 := f[k := v], ftab[c := k];
    forall d | 0 <= d < size
      ensures ftab2[d] == Below(keys, |keys|, d + 1) - CountIn(keys, lo', hi', d)
      ensures Filled(keys, f2, d, ftab2[d], lo', hi')
    {
      assert Filled(keys, f, d, ftab[d], lo, hi);
      PlacedLow(keys, lo, hi, d);
      if d < c {
        BucketsApart(keys, d, c);
      } else if d > c {
        BucketsApart(keys, c, d);
      }
    }
  }

  /** The outcome: a permutation in which the rows of key c fill exactly the places Below(c), ..., Below(c+1)-1. */
  ghost predicate Bucketed(keys: seq<int>, f: seq<int>) {
    && |f| == |keys|
    && IsPermutation(f)
    && forall x | 0 <= x < |f| :: Below(keys, |keys|, keys[f[x]]) <= x < Below(keys, |keys|, keys[f[x]] + 1)
  }

  lemma PlacedStarts(keys: seq<int>, size: nat, f: seq<int>, ftab: seq<int>)
    requires Keys(keys, size) && |f| == |keys| && |ftab| >= size && Placed(keys, size, f, ftab, 0, |keys|)
    ensures forall c | 0 <= c < size :: ftab[c] == Below(keys, |keys|, c) && Filled(keys, f, c, ftab[c], 0, |keys|)
  {
    hide Filled, Below;
    forall c | 0 <= c < size
      ensures ftab[c] == Below(keys, |keys|, c)
    {
      BelowNext(keys, |keys|, c);
    }
  }

  lemma PlacedAll(keys: seq<int>, size: nat, f: seq<int>, ftab: seq<int>)
    requires Keys(keys, size) && |f| == |keys| && |ftab| >= size && Placed(keys, size, f, ftab, 0, |keys|)
    ensures Bucketed(keys, f)
    ensures forall c | 0 <= c < size :: ftab[c] == Below(keys, |keys|, c)
  {
    hide Filled, Below, Count, Placed;
    PlacedStarts(keys, size, f, ftab);
    forall x | 0 <= x < |f|
      ensures 0 <= f[x] < |f| && Below(keys, |keys|, keys[f[x]]) <= x < Below(keys, |keys|, keys[f[x]] + 1)
    {
      RowPlaced(keys, size, f, ftab, x);
    }
    forall x, y | 0 <= x < y < |f|
      ensures f[x] != f[y]
    {
      RowPlaced(keys, size, f, ftab, x);
      RowPlaced(keys, size, f, ftab, y);
      if keys[f[x]] == keys[f[y]] {
        FilledPair(keys, f, keys[f[x]], ftab[keys[f[x]]], 0, |keys|, x, y);
      }
    }
    assert Injective(f);
  }

  lemma RowPlaced(keys: seq<int>, size: nat, f: seq<int>, ftab: seq<int>, x: nat)
    requires Keys(keys, size) && x < |f| == |keys| && |ftab| >= size
    requires forall c | 0 <= c < size :: ftab[c] == Below(keys, |keys|, c) && Filled(keys, f, c, ftab[c], 0, |keys|)
    ensures 0 <= f[x] < |f| && Below(keys, |keys|, keys[f[x]]) <= x < Below(keys, |keys|, keys[f[x]] + 1)
  {
    hide Filled, Below, Count;
    var c := BucketOf(keys, |keys|, x, size);
    FilledAt(keys, f, c, ftab[c], 0, |keys|, x);
  }

  lemma FilledAt(keys: seq<int>, f: seq<int>, c: int, from: int, lo: nat, hi: nat, x: int)
    requires |f| == |keys| && lo <= hi <= |keys| && Filled(keys, f, c, from, lo, hi)
    requires from <= x < Below(keys, |keys|, c + 1)
    ensures 0 <= x && lo <= f[x] < hi && keys[f[x]] == c
  {
  }

  lemma FilledPair(keys: seq<int>, f: seq<int>, c: int, from: int, lo: nat, hi: nat, x: int, y: int)
    requires |f| == |keys| && lo <= hi <= |keys| && Filled(keys, f, c, from, lo, hi)
    requires from <= x < y < Below(keys, |keys|, c + 1)
    ensures 0 <= x && f[x] != f[y]
  {
  }

  /** Rows stand in the order of their keys. */
  lemma BucketOrder(keys: seq<int>, f: seq<int>, x: nat, y: nat)
    requires Bucketed(keys, f) && x < y < |keys|
    ensures keys[f[x]] <= keys[f[y]]
  {
    if keys[f[y]] < keys[f[x]] {
      BucketsApart(keys, keys[f[y]], keys[f[x]]);
    }
  }
}
