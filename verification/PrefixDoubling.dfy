/** Why one pass of fallbackSort turns an order by H characters into an order by 2H characters. */
module PrefixDoubling {
  import opened Permutations
  import opened Partitioning
  import opened Rotations
  import opened SortStack

  /** f[from..to] (both ends included) is in order by the first h characters. */
  ghost predicate OrderedTo(b: seq<int>, f: seq<int>, h: nat, to: int)
    requires |b| > 0 && to < |f| && forall x | 0 <= x < |f| :: 0 <= f[x]
  {
    forall x, y | 0 <= x < y <= to :: Cmp(b, f[x], f[y], h) <= 0
  }

  /** The header bits of from+1..to mark exactly the rows that differ from the row above in the first h characters. */
  ghost predicate HeadersExact(b: seq<int>, f: seq<int>, bits: seq<bool>, h: nat, from: int, to: int)
    requires |b| > 0 && 0 <= from && to < |f| <= |bits| && forall x | 0 <= x < |f| :: 0 <= f[x]
  {
    forall x | from < x <= to :: bits[x] <==> Cmp(b, f[x - 1], f[x], h) != 0
  }

  /** The 64 alternating bits past the end. */
  ghost predicate Sentinels(bits: seq<bool>, n: nat) {
    && |bits| >= n + 64
    && bits[n] && !bits[n + 1]
  }

  /** Between passes: order and header bits are exact for h characters. */
  ghost predicate Exact(b: seq<int>, f: seq<int>, bits: seq<bool>, h: nat) {
    && |f| == |b| > 0
    && IsPermutation(f)
    && Sentinels(bits, |b|)
    && bits[0]
    && OrderedTo(b, f, h, |b| - 1)
    && HeadersExact(b, f, bits, h, 0, |b| - 1)
  }

  /** The first row of the bucket that holds row x. */
  ghost function Head(bits: seq<bool>, x: nat): (r: nat)
    requires x < |bits|
    ensures r <= x
  {
    if bits[x] || x == 0 then x else Head(bits, x - 1)
  }

  lemma {:induction false} HeadOrder(b: seq<int>, f: seq<int>, bits: seq<bool>, h: nat, x: nat, y: nat)
    requires Exact(b, f, bits, h) && x <= y < |b|
    ensures Head(bits, x) <= Head(bits, y)
    ensures Head(bits, x) == Head(bits, y) <==> Cmp(b, f[x], f[y], h) == 0
    decreases y
  {
    if x == y {
      CmpOpposite(b, f[x], f[x], h);
    } else {
      HeadOrder(b, f, bits, h, x, y - 1);
      assert bits[y] <==> Cmp(b, f[y - 1], f[y], h) != 0;
      CmpTransitive(b, f[x], f[y - 1], f[y], h);
    }
  }

  /** The start of rotation i moved back by h places. */
  function Back(i: nat, h: nat, n: nat): (r: nat)
    requires i < n && h <= n
    ensures r < n
  {
    if i - h < 0 then i - h + n else i - h
  }

  lemma BackForward(b: seq<int>, i: nat, h: nat)
    requires i < |b| && h <= |b|
    ensures Wrap(Back(i, h, |b|) + h, |b|) == i
  {
  }

  lemma BackInjective(i: nat, j: nat, h: nat, n: nat)
    requires i < n && j < n && h <= n && Back(i, h, n) == Back(j, h, n)
    ensures i == j
  {
  }

  /** eclass numbers each rotation by the bucket of its characters h, ..., 2h-1. */
  ghost predicate Classes(b: seq<int>, eclass: seq<int>, h: nat) {
    && |eclass| == |b| > 0
    && (forall i | 0 <= i < |b| :: 0 <= eclass[i])
    && forall i, j | 0 <= i < |b| && 0 <= j < |b| ::
         (eclass[i] < eclass[j] <==> Cmp(b, i + h, j + h, h) < 0) && (eclass[i] == eclass[j] <==> Cmp(b, i + h, j + h, h) == 0)
  }

  /** What the numbering loop leaves for row x. */
  ghost predicate Numbered(f: seq<int>, bits: seq<bool>, eclass: seq<int>, h: nat, x: nat)
    requires x < |f| <= |bits| && 0 <= f[x] < |f| == |eclass| && h <= |f|
  {
    eclass[Back(f[x], h, |f|)] == Head(bits, x)
  }

  lemma NumberingOrder(b: seq<int>, f: seq<int>, bits: seq<bool>, h: nat, x: nat, y: nat, i: nat, j: nat)
    requires Exact(b, f, bits, h) && h <= |b| && x < |b| && y < |b|
    requires i == Back(f[x], h, |b|) && j == Back(f[y], h, |b|)
    ensures Head(bits, x) < Head(bits, y) <==> Cmp(b, i + h, j + h, h) < 0
    ensures Head(bits, x) == Head(bits, y) <==> Cmp(b, i + h, j + h, h) == 0
  {
    BackForward(b, f[x], h);
    BackForward(b, f[y], h);
    CmpWrapped(b, i + h, j + h, h);
    CmpOpposite(b, f[x], j + h, h);
    CmpWrapped(b, j + h, f[x], h);
    CmpOpposite(b, f[y], f[x], h);
    if x <= y {
      HeadOrder(b, f, bits, h, x, y);
    } else {
      HeadOrder(b, f, bits, h, y, x);
    }
    assert x < y ==> Cmp(b, f[x], f[y], h) <= 0;
    assert y < x ==> Cmp(b, f[y], f[x], h) <= 0;
  }

  lemma NumberingClasses(b: seq<int>, f: seq<int>, bits: seq<bool>, eclass: seq<int>, h: nat)
    requires Exact(b, f, bits, h) && h <= |b| == |eclass|
    requires forall x | 0 <= x < |b| :: Numbered(f, bits, eclass, h, x)
    ensures Classes(b, eclass, h)
  {
    forall i | 0 <= i < |b|
      ensures 0 <= eclass[i]
    {
      var x := RowOf(b, f, h, i);
      assert Numbered(f, bits, eclass, h, x);
    }
    forall i, j | 0 <= i < |b| && 0 <= j < |b|
      ensures (eclass[i] < eclass[j] <==> Cmp(b, i + h, j + h, h) < 0) && (eclass[i] == eclass[j] <==> Cmp(b, i + h, j + h, h) == 0)
    {
      var x := RowOf(b, f, h, i);
      var y := RowOf(b, f, h, j);
      assert Numbered(f, bits, eclass, h, x) && Numbered(f, bits, eclass, h, y);
      NumberingOrder(b, f, bits, h, x, y, i, j);
    }
  }

  /** The row whose rotation, moved back h places, starts at i. */
  lemma RowOf(b: seq<int>, f: seq<int>, h: nat, i: nat) returns (x: nat)
    requires |f| == |b| > 0 && IsPermutation(f) && h <= |b| && i < |b|
    ensures x < |f| && Back(f[x], h, |b|) == i
  {
    var v := if i + h < |b| then i + h else i + h - |b|;
    PermutationIsSurjective(f);
    assert v in f;
    x :| 0 <= x < |f| && f[x] == v;
  }

  /** During pass h: rows up to r are done for 2h characters, the rest still exact for h. */
  ghost predicate Passing(b: seq<int>, f: seq<int>, bits: seq<bool>, h: nat, r: int) {
    && |f| == |b| > 0
    && IsPermutation(f)
    && Sentinels(bits, |b|)
    && bits[0]
    && -1 <= r < |b|
    && (r < |b| - 1 ==> bits[r + 1])
    && OrderedTo(b, f, h, |b| - 1)
    && OrderedTo(b, f, 2 * h, r)
    && HeadersExact(b, f, bits, 2 * h, 0, r)
    && (r + 1 < |b| ==> HeadersExact(b, f, bits, h, r + 1, |b| - 1))
    && (0 <= r < |b| - 1 ==> Cmp(b, f[r], f[r + 1], h) != 0)
  }

  lemma PassingStart(b: seq<int>, f: seq<int>, bits: seq<bool>, h: nat)
    requires Exact(b, f, bits, h)
    ensures Passing(b, f, bits, h, -1)
  {
  }

  lemma PassingEnd(b: seq<int>, f: seq<int>, bits: seq<bool>, h: nat)
    requires Passing(b, f, bits, h, |b| - 1)
    ensures Exact(b, f, bits, 2 * h)
  {
  }

  lemma CmpLonger(b: seq<int>, i: nat, j: nat, h: nat)
    requires |b| > 0
    ensures Cmp(b, i, j, 2 * h) == if Cmp(b, i, j, h) != 0 then Cmp(b, i, j, h) else Cmp(b, i + h, j + h, h)
  {
    CmpSplit(b, i, j, h, h);
  }

  /** A row that is a bucket of its own needs nothing done. */
  lemma PassingSingle(b: seq<int>, f: seq<int>, bits: seq<bool>, h: nat, r: int)
    requires Passing(b, f, bits, h, r) && r + 1 < |b| && bits[r + 2]
    ensures Passing(b, f, bits, h, r + 1)
  {
    var k := r + 1;
    if k > 0 {
      CmpOpposite(b, f[k - 1], f[k - 1], h);
    }
    forall x | 0 <= x < k
      ensures Cmp(b, f[x], f[k], 2 * h) <= 0
      ensures x == k - 1 ==> Cmp(b, f[x], f[k], 2 * h) != 0
    {
      CmpTransitive(b, f[x], f[k - 1], f[k], h);
      CmpLonger(b, f[x], f[k], h);
    }
    if k < |b| - 1 {
      assert bits[k + 1] <==> Cmp(b, f[k], f[k + 1], h) != 0;
    }
  }

  /** Rows without header bits belong to the bucket of the row that has one. */
  lemma {:induction false} SameBucket(b: seq<int>, f: seq<int>, bits: seq<bool>, h: nat, l: nat, x: nat)
    requires Passing(b, f, bits, h, l - 1) && l <= x < |b| && forall k | l < k <= x :: !bits[k]
    ensures Cmp(b, f[l], f[x], h) == 0
    decreases x
  {
    if x == l {
      CmpOpposite(b, f[l], f[l], h);
    } else {
      SameBucket(b, f, bits, h, l, x - 1);
      CmpTransitive(b, f[l], f[x - 1], f[x], h);
    }
  }

  /** A bucket l..r of the pass, and what sorting it and marking its new headers makes of f and bits. */
  ghost predicate BucketDone(f: seq<int>, f2: seq<int>, bits: seq<bool>, bits2: seq<bool>, eclass: seq<int>,
                             l: nat, r: nat)
    requires r < |f| == |eclass| && |f| < |bits|
  {
    && l <= r
    && (forall x | l < x <= r :: !bits[x])
    && bits[r + 1]
    && Rearranged(f, f2, l, r + 1)
    && Ranked(f2, eclass) && Ordered(f2, eclass, l, r)
    && |bits2| == |bits|
    && (forall x | 0 <= x < |bits| && !(l < x <= r) :: bits2[x] == bits[x])
    && (forall x | l < x <= r :: bits2[x] <==> eclass[f2[x - 1]] != eclass[f2[x]])
  }

  lemma PassingRows(b: seq<int>, f: seq<int>, bits: seq<bool>, h: nat, r: int)
    requires Passing(b, f, bits, h, r)
    ensures |f| == |b| && forall x | 0 <= x < |f| :: 0 <= f[x] < |b|
  {
  }

  /** Within the bucket: all rows still agree in h characters, and now stand in the order of the next h. */
  lemma InsideBucket(b: seq<int>, f: seq<int>, f2: seq<int>, bits: seq<bool>, bits2: seq<bool>, eclass: seq<int>,
                     h: nat, l: nat, r: nat, x: nat, y: nat)
    requires Passing(b, f, bits, h, l - 1) && r < |b| == |eclass| && Classes(b, eclass, h)
    requires BucketDone(f, f2, bits, bits2, eclass, l, r) && l <= x < y <= r && IsPermutation(f2)
    ensures Cmp(b, f2[x], f2[y], h) == 0
    ensures Cmp(b, f2[x], f2[y], 2 * h) <= 0
    ensures Cmp(b, f2[x], f2[y], 2 * h) == 0 <==> eclass[f2[x]] == eclass[f2[y]]
  {
    PassingRows(b, f, bits, h, l - 1);
    DoneOrder(f, f2, bits, bits2, eclass, l, r, x, y);
    hide Passing, Cmp, Classes, BucketDone, IsPermutation, Rearranged;
    BucketRow(b, f, f2, bits, h, l, r, x);
    BucketRow(b, f, f2, bits, h, l, r, y);
    ClassesAt(b, eclass, h, f2[x], f2[y]);
    NextHalf(b, f[l], f2[x], f2[y], h);
  }

  /** Rotations that agree with o in h characters compare by the next h. */
  lemma NextHalf(b: seq<int>, o: nat, i: nat, j: nat, h: nat)
    requires |b| > 0 && Cmp(b, o, i, h) == 0 && Cmp(b, o, j, h) == 0
    ensures Cmp(b, i, j, h) == 0 && Cmp(b, i, j, 2 * h) == Cmp(b, i + h, j + h, h)
  {
    hide Cmp;
    CmpOpposite(b, o, i, h);
    CmpTransitive(b, i, o, j, h);
    CmpLonger(b, i, j, h);
  }

  lemma DoneOrder(f: seq<int>, f2: seq<int>, bits: seq<bool>, bits2: seq<bool>, eclass: seq<int>, l: nat, r: nat,
                  x: nat, y: nat)
    requires r < |f| == |eclass| && |f| < |bits| && BucketDone(f, f2, bits, bits2, eclass, l, r) && l <= x < y <= r
    ensures Rearranged(f, f2, l, r + 1) && forall k | l < k <= r :: !bits[k]
    ensures |f2| == |f| && 0 <= f2[x] < |f| && 0 <= f2[y] < |f| && eclass[f2[x]] <= eclass[f2[y]]
  {
    assert InOrder(f2, eclass, x, y);
  }

  lemma ClassesAt(b: seq<int>, eclass: seq<int>, h: nat, i: nat, j: nat)
    requires Classes(b, eclass, h) && i < |b| && j < |b|
    ensures |eclass| == |b| && (eclass[i] < eclass[j] <==> Cmp(b, i + h, j + h, h) < 0)
    ensures eclass[i] == eclass[j] <==> Cmp(b, i + h, j + h, h) == 0
  {
    hide Cmp;
  }

  lemma BucketRow(b: seq<int>, f: seq<int>, f2: seq<int>, bits: seq<bool>, h: nat, l: nat, r: nat, x: nat)
    requires Passing(b, f, bits, h, l - 1) && r < |b| && l <= x <= r
    requires Rearranged(f, f2, l, r + 1) && forall k | l < k <= r :: !bits[k]
    ensures 0 <= f2[x] < |b| && Cmp(b, f[l], f2[x], h) == 0
  {
    RearrangedOrigin(f, f2, l, r + 1);
    var v :| l <= v < r + 1 && f[v] == f2[x];
    SameBucket(b, f, bits, h, l, v);
  }

  /** Rows above the bucket are strictly smaller than its rows, rows below strictly larger. */
  lemma OutsideBucket(b: seq<int>, f: seq<int>, f2: seq<int>, bits: seq<bool>, h: nat, l: nat, r: nat, x: nat, y: nat)
    requires Passing(b, f, bits, h, l - 1) && r < |b| && l <= y <= r && x < |b|
    requires Rearranged(f, f2, l, r + 1) && (forall k | l < k <= r :: !bits[k]) && bits[r + 1]
    ensures 0 <= f2[y] < |b|
    ensures x < l ==> Cmp(b, f[x], f2[y], h) < 0
    ensures r < x ==> Cmp(b, f2[y], f[x], h) < 0
  {
    BucketRow(b, f, f2, bits, h, l, r, y);
    if x < l {
      CmpOpposite(b, f[l - 1], f[l - 1], h);
      CmpTransitive(b, f[x], f[l - 1], f[l], h);
      CmpTransitive(b, f[x], f[l], f2[y], h);
    }
    if r < x {
      SameBucket(b, f, bits, h, l, r);
      CmpOpposite(b, f[r + 1], f[r + 1], h);
      CmpTransitive(b, f[r], f[r + 1], f[x], h);
      CmpOpposite(b, f[l], f2[y], h);
      CmpTransitive(b, f2[y], f[l], f[r], h);
      CmpTransitive(b, f2[y], f[r], f[x], h);
    }
  }

  lemma PassingBucket(b: seq<int>, f: seq<int>, f2: seq<int>, bits: seq<bool>, bits2: seq<bool>, eclass: seq<int>,
                      h: nat, l: nat, r: nat)
    requires Passing(b, f, bits, h, l - 1) && r < |b| == |eclass| && Classes(b, eclass, h)
    requires BucketDone(f, f2, bits, bits2, eclass, l, r)
    ensures Passing(b, f2, bits2, h, r)
  {
    hide Bag, Cmp, Classes;
    RearrangedPermutation(f, f2, l, r + 1);
    var n := |b|;
    forall x, y | 0 <= x < y < n
      ensures Cmp(b, f2[x], f2[y], h) <= 0
      ensures y <= r ==> Cmp(b, f2[x], f2[y], 2 * h) <= 0
      ensures x < l <= y <= r ==> Cmp(b, f2[x], f2[y], 2 * h) != 0
    {
      PassingPair(b, f, f2, bits, bits2, eclass, h, l, r, x, y);
    }
    forall x | 0 < x <= r
      ensures bits2[x] <==> Cmp(b, f2[x - 1], f2[x], 2 * h) != 0
    {
      if x > l {
        InsideBucket(b, f, f2, bits, bits2, eclass, h, l, r, x - 1, x);
      } else if x < l {
        assert bits[x] <==> Cmp(b, f[x - 1], f[x], 2 * h) != 0;
      }
    }
    if r + 1 < n {
      OutsideBucket(b, f, f2, bits, h, l, r, r + 1, r);
    }
  }

  lemma PassingPair(b: seq<int>, f: seq<int>, f2: seq<int>, bits: seq<bool>, bits2: seq<bool>, eclass: seq<int>,
                    h: nat, l: nat, r: nat, x: nat, y: nat)
    requires Passing(b, f, bits, h, l - 1) && r < |b| == |eclass| && Classes(b, eclass, h)
    requires BucketDone(f, f2, bits, bits2, eclass, l, r) && IsPermutation(f2) && x < y < |b|
    ensures Cmp(b, f2[x], f2[y], h) <= 0
    ensures y <= r ==> Cmp(b, f2[x], f2[y], 2 * h) <= 0
    ensures x < l <= y <= r ==> Cmp(b, f2[x], f2[y], 2 * h) != 0
  {
    hide Bag, Cmp, Classes, Ordered, Injective;
    if l <= x && y <= r {
      InsideBucket(b, f, f2, bits, bits2, eclass, h, l, r, x, y);
    } else if l <= x <= r {
      OutsideBucket(b, f, f2, bits, h, l, r, y, x);
    } else if l <= y <= r {
      OutsideBucket(b, f, f2, bits, h, l, r, x, y);
      CmpLonger(b, f2[x], f2[y], h);
    }
  }
}
