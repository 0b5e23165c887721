/**
 * A block on which the source's own account of quadrant fails: one the front end can store, and on which mainSort gets
 * as far as caching the bucket in question.
 */
module TwinBlock {
  import opened BlockSort
  import opened BucketSides
  import opened Counting
  import opened InducedCopy
  import opened MainCompare
  import opened MainSort
  import opened MtfCoding
  import opened Permutations
  import opened Radix
  import opened Rotations
  import opened RunLength
  import opened SortStack

  /** Twice the same 5000 characters: a 1, then zeros and twos by turns. */
  function TwinChar(i: nat): int {
    if i % 5000 == 0 then 1 else if i % 2 == 1 then 0 else 2
  }

  ghost predicate Twins(b: seq<int>) {
    |b| == 10000 && forall i | 0 <= i < |b| :: b[i] == TwinChar(i)
  }

  lemma TwinSize(b: seq<int>)
    requires Twins(b)
    ensures |b| == 10000
  {
  }

  // ---------- the block is what the front end stores ----------

  /** The first n bytes of it, each a run of its own. */
  function Singles(n: nat): (rs: seq<Run>)
    ensures |rs| == n
  {
    seq(n, i requires 0 <= i < n => Run(TwinChar(i), 1))
  }

  lemma {:induction false} SinglesAre(b: seq<int>, n: nat)
    requires Twins(b) && n <= |b|
    ensures Runs(Singles(n)) && BlockOf(Singles(n)) == b[..n] && DataOf(Singles(n)) == b[..n]
  {
    hide TwinChar, Repeat;
    var rs := Singles(n);
    SinglesApart(n);
    if n > 0 {
      SinglesAre(b, n - 1);
      assert rs[..n - 1] == Singles(n - 1);
      hide Runs, Apart, Singles;
      SingleStored(b[n - 1]);
      assert b[..n] == b[..n - 1] + [b[n - 1]];
    } else {
      assert b[..0] == [];
    }
  }

  lemma SinglesApart(n: nat)
    ensures Runs(Singles(n))
  {
    var rs := Singles(n);
    forall i | 0 <= i < n - 1
      ensures Apart(rs[i], rs[i + 1])
    {
      Neighbours(i);
    }
  }

  lemma SingleStored(ch: int)
    ensures Stored(Run(ch, 1)) == Repeat(ch, 1) == [ch]
  {
  }

  lemma Neighbours(i: nat)
    ensures TwinChar(i) != TwinChar(i + 1)
  {
    assert i % 5000 == 0 ==> i % 2 == 0 && (i + 1) % 5000 == 1;
  }

  /** Compressing these very bytes leads to the block. */
  lemma TwinsStored(b: seq<int>)
    requires Twins(b)
    ensures Runs(Singles(10000)) && BlockOf(Singles(10000)) == b && DataOf(Singles(10000)) == b
  {
    SinglesAre(b, 10000);
    assert b[..10000] == b;
  }

  // ---------- its two equal rotations ----------

  lemma {:induction false} TwinAt(b: seq<int>, i: nat)
    requires Twins(b)
    ensures At(b, i) == TwinChar(i)
  {
    if i >= |b| {
      TwinAt(b, i - |b|);
      assert At(b, i) == At(b, i - |b|);
      SameChar(i - |b|);
    }
  }

  lemma SameMod(i: nat)
    ensures (i + 5000) % 5000 == i % 5000
  {
  }

  lemma SameParity(i: nat)
    ensures (i + 5000) % 2 == i % 2
  {
  }

  lemma SameChar(i: nat)
    ensures TwinChar(i + 5000) == TwinChar(i) && TwinChar(i + 10000) == TwinChar(i)
  {
    SameMod(i);
    SameMod(i + 5000);
    SameParity(i);
    SameParity(i + 5000);
  }

  lemma {:induction false} TwinRotations(b: seq<int>, i: nat, h: nat)
    requires Twins(b)
    ensures Cmp(b, i, i + 5000, h) == 0
    decreases h
  {
    if h > 0 {
      TwinAt(b, i);
      TwinAt(b, i + 5000);
      SameChar(i);
      hide Twins, TwinChar;
      TwinRotations(b, i + 1, h - 1);
    }
  }

  lemma TwinsTie(b: seq<int>)
    requires Twins(b)
    ensures !NoTies(b, 1)
  {
    hide Cmp;
    TwinRotations(b, 0, |b|);
    assert b[0] == 1 && b[5000] == 1 && Cmp(b, 0, 5000, |b|) == 0;
  }

  // ---------- the buckets ----------

  lemma TwinPair(b: seq<int>, i: nat)
    requires Twins(b) && i < |b|
    ensures |b| == 10000 && |Pairs(b)| == |b| && Pairs(b)[i] == TwinChar(i) * 256 + TwinChar(i + 1)
    ensures TwinChar(i) == 1 <==> i == 0 || i == 5000
    ensures TwinChar(i) == 1 ==> TwinChar(i + 1) == 0
    ensures TwinChar(i) == 0 || TwinChar(i) == 1 || TwinChar(i) == 2
    ensures i % 2 == 1 ==> TwinChar(i) == 0
    ensures TwinChar(i) == 0 ==> i % 2 == 1
    ensures 0 <= TwinChar(i + 1) < 256
  {
    TwinAt(b, i);
    TwinAt(b, i + 1);
    assert i % 5000 == 0 ==> i == 0 || i == 5000;
  }

  lemma {:induction false} TwinCount(b: seq<int>, m: nat, j: int)
    requires Twins(b) && m <= |b| && 0 <= j < 256
    ensures Count(Pairs(b), m, 256 + j) == if j > 0 || m == 0 then 0 else if m <= 5000 then 1 else 2
  {
    if m > 0 {
      TwinPair(b, m - 1);
      hide Twins, TwinChar;
      TwinCount(b, m - 1, j);
    }
  }

  /** How many rotations start with 0, with 0 or 1, and with 0, 1 or 2. */
  lemma {:induction false} TwinBelow(b: seq<int>, m: nat)
    requires Twins(b) && m <= |b|
    ensures Below(Pairs(b), m, 256) == m / 2
    ensures Below(Pairs(b), m, 512) == m / 2 + (if m == 0 then 0 else if m <= 5000 then 1 else 2)
    ensures Below(Pairs(b), m, 768) == m
  {
    if m > 0 {
      TwinPair(b, m - 1);
      hide Twins, TwinChar;
      TwinBelow(b, m - 1);
    }
  }

  /** The big bucket of character 1 is just the two equal rotations, in one small bucket. */
  lemma TwinBucket(b: seq<int>, st: seq<int>)
    requires Twins(b) && Starts(b, st)
    ensures OnePair(st, 1, 0) && st[512] - st[256] == 2
  {
    hide Twins, Pairs, Below, Count;
    TwinSize(b);
    TwinBelow(b, 10000);
    forall j | 0 <= j < 256
      ensures RowsOf(st, 1, j) == if j == 0 then 2 else 0
    {
      BelowNext(Pairs(b), |b|, 256 + j);
      TwinCount(b, |b|, j);
    }
    assert RowsOf(st, 1, 0) == 2;
  }

  /** The others are larger or empty. */
  lemma TwinSizes(b: seq<int>, st: seq<int>, c: int)
    requires Twins(b) && Starts(b, st) && 0 <= c < 256
    ensures Sizes(st)[c] == if c == 0 then 5000 else if c == 1 then 2 else if c == 2 then 4998 else 0
  {
    hide Twins, Pairs, Below;
    TwinSize(b);
    TwinBelow(b, 10000);
    BelowNone(Pairs(b), |b|, 0) by {
      PairsNatural(b);
    }
    if c > 2 {
      StartsOrder(b, st, 768, c * 256);
      StartsOrder(b, st, c * 256, c * 256 + 256);
    }
  }

  lemma PairsNatural(b: seq<int>)
    requires Twins(b)
    ensures |Pairs(b)| == |b| && forall x | 0 <= x < |b| :: Pairs(b)[x] >= 0
  {
    forall x | 0 <= x < |b|
      ensures Pairs(b)[x] >= 0
    {
      TwinPair(b, x);
    }
  }

  // ---------- the running order ----------

  /** Before character 1 come only characters that do not occur, and it is not the last. */
  lemma TwinOrder(b: seq<int>, st: seq<int>, order: seq<int>, n: nat)
    requires Twins(b) && Starts(b, st) && IsPermutation(order) && |order| == 256
    requires Ranked(order, Sizes(st)) && Ordered(order, Sizes(st), 0, 255)
    requires n < 256 && order[n] == 1
    ensures PairLast(st, order, n + 1) && n < 255
  {
    hide Twins, Starts, Sizes;
    TwinBucket(b, st);
    assert HasPair(st, order[n]);
    TwinSizes(b, st, 1);
    forall x | 0 <= x < n
      ensures NoPairs(st, order[x])
    {
      assert InOrder(order, Sizes(st), x, n) && order[x] != order[n];
      TwinSizes(b, st, order[x]);
      EmptyBucket(b, st, order[x]);
    }
    PermutationIsSurjective(order);
    assert 0 in order;
    var x :| 0 <= x < 256 && order[x] == 0;
    TwinSizes(b, st, 0);
    assert x < n ==> InOrder(order, Sizes(st), x, n);
  }

  lemma EmptyBucket(b: seq<int>, st: seq<int>, c: int)
    requires Starts(b, st) && 0 <= c < 256 && Sizes(st)[c] == 0
    ensures NoPairs(st, c)
  {
    hide Pairs, Starts;
    StartsSized(b, st);
    forall j | 0 <= j < 256
      ensures RowsOf(st, c, j) <= 1
    {
      StartsOrder(b, st, c * 256, c * 256 + j);
      StartsOrder(b, st, c * 256 + j, c * 256 + j + 1);
      StartsOrder(b, st, c * 256 + j + 1, c * 256 + 256);
    }
  }

  lemma StartsSized(b: seq<int>, st: seq<int>)
    requires Starts(b, st)
    ensures |st| == 65537
  {
  }

  // ---------- the claim fails ----------

  /** However that bucket gets cached, the claim fails of it. */
  lemma TwinsNotStrict(b: seq<int>, st: seq<int>, s: seq<int>, fl: seq<bool>, q: seq<int>)
    requires Twins(b) && Buckets(b, st, s, fl) && (forall k | 256 <= k < 512 :: fl[k]) && Cached(b, st, s, q, 1)
    ensures !StrictlyCached(b, q, 1)
  {
    TwinSize(b);
    hide Twins, Buckets, Caching, NoTies, StrictlyCached, Pairs, QuadrantSound, Starts, OnePair;
    BucketsSized(b, st, s, fl);
    TwinBucket(b, st);
    TwinsTie(b);
    var q0, shifts: nat :| CachedFrom(b, st, s, q0, q, 1, shifts);
    StrictExactlyWithoutTies(b, st, s, fl, q0, q, 1, st[256], 2);
  }

  /** From work factor 4 on, and so by default, the budget outlasts the comparison of two equal rotations. */
  lemma BudgetForTwins(b: seq<int>, workFactor: int)
    requires Twins(b) && workFactor >= 4
    ensures BudgetInit(|b|, workFactor) >= |b| > MostWork(|b|)
  {
    TwinSize(b);
  }

  lemma TwinsFlagged(order: seq<int>, done: seq<bool>, n: nat, fl: seq<bool>)
    requires DoneInOrder(order, done, n + 1) && DoneFlagged(done, fl) && n < 256 && order[n] == 1
    ensures |fl| == 65537 && forall k | 256 <= k < 512 :: fl[k]
  {
    assert done[order[n]];
  }

  /**
   * mainSort on the twins with the budget BZ2_blockSort gives it, as far as the round that caches character 1: the work
   * allowed is not used up, and then quadrant is not what the source says it is.
   */
  method TwinsRun(ptr: array<int>, block: array<int>, quadrant: array<int>, ftab: array<int>, workFactor: int)
    returns (budget: int, ghost b: seq<int>)
    requires ptr != block && ptr != quadrant && ptr != ftab && ftab != block && ftab != quadrant && block != quadrant
    requires ptr.Length == 10000 && block.Length == quadrant.Length == 10034 && ftab.Length == 65537
    requires Twins(block[..10000]) && workFactor >= 4
    modifies ptr, block, quadrant, ftab
    ensures b == old(block[..10000]) && budget >= 0 && !StrictlyCached(b, quadrant[..], 1)
  {
    hide *;
    OvershootValue();
    b := block[..10000];
    TwinBytes(b);
    assert forall i | 0 <= i < 10000 :: block[i] == b[i];
    ghost var fl;
    var runningOrder, bigDone;
    runningOrder, bigDone, fl := StartSort(ptr, block, quadrant, ftab, 10000);
    ghost var st, order := ftab[..], runningOrder[..];
    OrderParts(order, bigDone[..]);
    var n := 0;
    while runningOrder[n] != 1
      invariant n < 256 && 1 in order[n..] && runningOrder[..] == order
      decreases 256 - n
    {
      assert order[n..] == [order[n]] + order[n + 1..];
      n := n + 1;
    }
    SortingParts(b, st, fl, ptr[..], st, block[..], quadrant[..], bigDone[..]);
    BucketParts(b, st, ptr[..], fl);
    TwinOrder(b, st, order, n);
    budget := BudgetInit(10000, workFactor);
    BudgetForTwins(b, workFactor);
    budget, fl := SortBigBuckets(ptr, block, quadrant, ftab, runningOrder, bigDone, 10000, n + 1, budget, b, st, fl);
    SortingParts(b, st, fl, ptr[..], ftab[..], block[..], quadrant[..], bigDone[..]);
    TwinsFlagged(order, bigDone[..], n, fl);
    TwinsNotStrict(b, st, ptr[..], fl, quadrant[..]);
  }

  lemma TwinBytes(b: seq<int>)
    requires Twins(b)
    ensures |b| == 10000 && forall i | 0 <= i < |b| :: 0 <= b[i] < 256
  {
  }

  lemma BucketParts(b: seq<int>, st: seq<int>, s: seq<int>, fl: seq<bool>)
    requires Buckets(b, st, s, fl)
    ensures Starts(b, st)
  {
    hide Starts;
  }

  lemma OrderParts(order: seq<int>, done: seq<bool>)
    requires DoneInOrder(order, done, 0)
    ensures |order| == 256 && IsPermutation(order) && 1 in order[0..]
  {
    PermutationIsSurjective(order);
    assert 1 in order && order[0..] == order;
  }
}
