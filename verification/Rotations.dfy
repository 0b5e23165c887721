/** The cyclic rotations of a block and their order, to any number of characters. */
module Rotations {
  import opened Basics
  import opened Permutations

  /** A position on the circle of n places, however often it has gone round. */
  function Wrap(k: nat, n: nat): (r: nat)
    requires n > 0
    ensures r < n && (k < n ==> r == k)
  {
    if k < n then k else Wrap(k - n, n)
  }

  /** Character k of the block written over and over. */
  function At(b: seq<int>, k: nat): int
    requires |b| > 0
  {
    b[Wrap(k, |b|)]
  }

  /** Compare h characters of the rotations that start at i and at j: negative, zero or positive. */
  function Cmp(b: seq<int>, i: nat, j: nat, h: nat): int
    requires |b| > 0
    decreases h
  {
    if h == 0 then 0
    else if At(b, i) < At(b, j) then -1
    else if At(b, i) > At(b, j) then 1
    else Cmp(b, i + 1, j + 1, h - 1)
  }

  lemma {:induction false} CmpSplit(b: seq<int>, i: nat, j: nat, h: nat, k: nat)
    requires |b| > 0
    ensures Cmp(b, i, j, h + k) == if Cmp(b, i, j, h) != 0 then Cmp(b, i, j, h) else Cmp(b, i + h, j + h, k)
    decreases h
  {
    if h > 0 && At(b, i) == At(b, j) {
      CmpSplit(b, i + 1, j + 1, h - 1, k);
    }
  }

  lemma {:induction false} CmpOpposite(b: seq<int>, i: nat, j: nat, h: nat)
    requires |b| > 0
    ensures Cmp(b, j, i, h) == -Cmp(b, i, j, h)
    decreases h
  {
    if h > 0 && At(b, i) == At(b, j) {
      CmpOpposite(b, i + 1, j + 1, h - 1);
    }
  }

  lemma {:induction false} CmpTransitive(b: seq<int>, i: nat, j: nat, k: nat, h: nat)
    requires |b| > 0
    requires Cmp(b, i, j, h) <= 0 && Cmp(b, j, k, h) <= 0
    ensures Cmp(b, i, k, h) <= 0
    ensures Cmp(b, i, k, h) == 0 <==> Cmp(b, i, j, h) == 0 && Cmp(b, j, k, h) == 0
    decreases h
  {
    if h > 0 && At(b, i) == At(b, j) == At(b, k) {
      CmpTransitive(b, i + 1, j + 1, k + 1, h - 1);
    }
  }

  lemma {:induction false} CmpPeriodic(b: seq<int>, i: nat, j: nat, h: nat)
    requires |b| > 0
    ensures Cmp(b, i + |b|, j, h) == Cmp(b, i, j, h)
    decreases h
  {
    if h > 0 && At(b, i) == At(b, j) {
      CmpPeriodic(b, i + 1, j + 1, h - 1);
    }
  }

  lemma CmpWrapped(b: seq<int>, i: nat, j: nat, h: nat)
    requires |b| > 0
    ensures Cmp(b, Wrap(i, |b|), j, h) == Cmp(b, i, j, h)
    decreases i
  {
    if i >= |b| {
      CmpWrapped(b, i - |b|, j, h);
      CmpPeriodic(b, i - |b|, j, h);
    }
  }

  lemma {:induction false} CmpZeroAt(b: seq<int>, i: nat, j: nat, h: nat, k: nat)
    requires |b| > 0 && k < h && Cmp(b, i, j, h) == 0
    ensures At(b, i + k) == At(b, j + k)
    decreases h
  {
    if k > 0 {
      CmpZeroAt(b, i + 1, j + 1, h - 1, k - 1);
    }
  }

  /** Rotations that agree once round agree for ever. */
  lemma {:induction false} EqualForever(b: seq<int>, i: nat, j: nat, k: nat)
    requires |b| > 0 && Cmp(b, i, j, |b|) == 0
    ensures At(b, i + k) == At(b, j + k)
    decreases k
  {
    if k < |b| {
      CmpZeroAt(b, i, j, |b|, k);
    } else {
      EqualForever(b, i, j, k - |b|);
      assert At(b, i + k) == At(b, i + (k - |b|)) && At(b, j + k) == At(b, j + (k - |b|));
    }
  }

  lemma {:induction false} EqualRotations(b: seq<int>, i: nat, j: nat, k: nat, h: nat)
    requires |b| > 0 && Cmp(b, i, j, |b|) == 0
    ensures Cmp(b, i + k, j + k, h) == 0
    decreases h
  {
    if h > 0 {
      EqualForever(b, i, j, k);
      EqualRotations(b, i, j, k + 1, h - 1);
    }
  }

  /** Comparing beyond once round decides nothing new. */
  lemma CmpDeep(b: seq<int>, i: nat, j: nat, h: nat)
    requires |b| > 0 && h >= |b|
    ensures Cmp(b, i, j, h) == Cmp(b, i, j, |b|)
  {
    CmpSplit(b, i, j, |b|, h - |b|);
    if Cmp(b, i, j, |b|) == 0 {
      EqualRotations(b, i, j, |b|, h - |b|);
    }
  }

  /** Rotation i comes before rotation j, or they read the same. */
  predicate Precedes(b: seq<int>, i: nat, j: nat)
    requires |b| > 0
  {
    Cmp(b, i, j, |b|) <= 0
  }

  /** Deciding at any depth decides the full order. */
  lemma CmpDecides(b: seq<int>, i: nat, j: nat, h: nat)
    requires |b| > 0 && Cmp(b, i, j, h) != 0
    ensures Cmp(b, i, j, |b|) == Cmp(b, i, j, h)
  {
    if h <= |b| {
      CmpSplit(b, i, j, h, |b| - h);
    } else {
      CmpDeep(b, i, j, h);
    }
  }

  // ---------- ranks: the order of rotations as a table of numbers ----------

  ghost function Smaller(b: seq<int>, i: nat): (r: set<int>)
    requires |b| > 0
    ensures forall j :: j in r <==> 0 <= j < |b| && Cmp(b, j, i, |b|) < 0
  {
    set j: int | 0 <= j < |b| && Cmp(b, j, i, |b|) < 0
  }

  /** How many rotations are strictly smaller. */
  ghost function Rank(b: seq<int>, i: nat): nat
    requires |b| > 0
  {
    |Smaller(b, i)|
  }

  lemma RankOrder(b: seq<int>, i: nat, j: nat)
    requires |b| > 0 && i < |b| && j < |b|
    ensures Rank(b, i) <= Rank(b, j) <==> Precedes(b, i, j)
    ensures Rank(b, i) == Rank(b, j) <==> Cmp(b, i, j, |b|) == 0
  {
    CmpOpposite(b, i, j, |b|);
    if Precedes(b, i, j) {
      RankMonotone(b, i, j);
    }
    if Precedes(b, j, i) {
      RankMonotone(b, j, i);
    }
  }

  lemma RankMonotone(b: seq<int>, i: nat, j: nat)
    requires |b| > 0 && i < |b| && j < |b| && Precedes(b, i, j)
    ensures Rank(b, i) <= Rank(b, j)
    ensures Cmp(b, i, j, |b|) < 0 ==> Rank(b, i) < Rank(b, j)
  {
    var n := |b|;
    forall k | k in Smaller(b, i)
      ensures k in Smaller(b, j)
    {
      CmpTransitive(b, k, i, j, n);
    }
    SubsetCardinality(Smaller(b, i), Smaller(b, j));
    if Cmp(b, i, j, n) < 0 {
      CmpOpposite(b, i, i, n);
      assert i in Smaller(b, j) && i !in Smaller(b, i);
    }
  }

  /** The row order p lists every rotation once, smaller ones first, equal ones in any order. */
  ghost predicate SortsRotations(b: seq<int>, p: seq<int>) {
    && |p| == |b| > 0
    && IsPermutation(p)
    && forall x, y | 0 <= x < y < |p| :: Precedes(b, p[x], p[y])
  }
}
