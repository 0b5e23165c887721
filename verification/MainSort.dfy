/** mainSort: radix sort on two characters, then big buckets one by one with induced copying. */
module MainSort {
  import opened BucketSides
  import opened BurrowsWheeler
  import opened Counting
  import opened InducedCopy
  import opened MainCompare
  import opened MainQuickSort
  import opened Permutations
  import opened Radix
  import opened Rotations
  import opened SortStack

  // ---------- the initial radix sort ----------

  /** The block array holds b, not yet extended. */
  ghost predicate Holds(b: seq<int>, block: seq<int>) {
    && |b| > OVERSHOOT && |block| == |b| + OVERSHOOT && Keys(b, 256)
    && forall i | 0 <= i < |b| :: block[i] == b[i]
  }

  lemma RollingPair(b: seq<int>, i: nat, j: int)
    requires Keys(b, 256) && i < |b| && j / 256 == b[After(i, |b|)]
    ensures j / 256 + b[i] * 256 == Pair(b, i) && 0 <= Pair(b, i) < 65536 && Pair(b, i) / 256 == b[i]
  {
    PairSplit(b, i);
  }

  method CountPairs(block: array<int>, quadrant: array<int>, ftab: array<int>, nblock: nat, ghost b: seq<int>)
    requires nblock == |b| && Holds(b, block[..]) && quadrant.Length == block.Length && ftab.Length == 65537
    requires block != quadrant && block != ftab && quadrant != ftab
    modifies quadrant, ftab
    ensures forall i | 0 <= i < nblock :: quadrant[i] == 0
    ensures forall k | 0 <= k < 65536 :: ftab[k] == Count(Pairs(b), nblock, k)
    ensures ftab[65536] == 0
  {
    hide Pair;
    ghost var keys := Pairs(b);
    for i := 0 to 65537
      invariant forall k | 0 <= k < i :: ftab[k] == 0
    {
      ftab[i] := 0;
    }
    var j := block[0] * 256;
    var i := nblock - 1;
    while i >= 0
      invariant -1 <= i < nblock && Holds(b, block[..]) && ftab[65536] == 0
      invariant j / 256 == b[if i + 1 == nblock then 0 else i + 1]
      invariant forall x | i < x < nblock :: quadrant[x] == 0
      invariant forall k | 0 <= k < 65536 :: ftab[k] == CountIn(keys, i + 1, nblock, k)
    {
      quadrant[i] := 0;
      RollingPair(b, i, j);
      j := j / 256 + block[i] * 256;
      assert j == keys[i];
      ftab[j] := ftab[j] + 1;
      i := i - 1;
    }
  }

  method AccumulatePairs(ftab: array<int>, ghost keys: seq<int>)
    requires Keys(keys, 65536) && ftab.Length == 65537 && ftab[65536] == 0
    requires forall k | 0 <= k < 65536 :: ftab[k] == Count(keys, |keys|, k)
    modifies ftab
    ensures forall k | 0 <= k < 65536 :: ftab[k] == Below(keys, |keys|, k + 1)
    ensures ftab[65536] == |keys|
  {
    BelowNone(keys, |keys|, 0);
    BelowNext(keys, |keys|, 0);
    BelowAll(keys, |keys|, 65536);
    hide Below, Count;
    for i := 1 to 65537
      invariant forall k | 0 <= k < i && k < 65536 :: ftab[k] == Below(keys, |keys|, k + 1)
      invariant forall k | i <= k < 65536 :: ftab[k] == Count(keys, |keys|, k)
      invariant i <= 65536 ==> ftab[65536] == 0
      invariant i == 65537 ==> ftab[65536] == |keys|
    {
      BelowNext(keys, |keys|, i);
      ftab[i] := ftab[i] + ftab[i - 1];
    }
  }

  /** The indices above i are placed; the upper byte of s is the character after index i. */
  ghost predicate Placing(b: seq<int>, f: seq<int>, ft: seq<int>, i: int, s: int) {
    && |b| > 0 && Keys(b, 256) && Keys(Pairs(b), 65536)
    && |f| == |b| && |ft| == 65537 && ft[65536] == |b| && -1 <= i < |b|
    && s / 256 == b[if i + 1 == |b| then 0 else i + 1]
    && Placed(Pairs(b), 65536, f, ft, i + 1, |b|)
  }

  lemma PlacingStart(b: seq<int>, f: seq<int>, ft: seq<int>, s: int)
    requires |b| > 0 && Keys(b, 256) && |f| == |b| && |ft| == 65537 && ft[65536] == |b| && s / 256 == b[0]
    requires forall k | 0 <= k < 65536 :: ft[k] == Below(Pairs(b), |b|, k + 1)
    ensures Placing(b, f, ft, |b| - 1, s)
  {
    hide Below, Pairs;
    PairsKeys(b);
    PlacedNone(Pairs(b), 65536, f, ft, |b|);
  }

  lemma PlacingStep(b: seq<int>, f: seq<int>, ft: seq<int>, i: int, s: int, s': int)
    requires Placing(b, f, ft, i, s) && i >= 0 && s' == s / 256 + b[i] * 256
    ensures 0 <= s' < 65536 && 0 <= ft[s'] - 1 < |f| && |ft| == 65537
    ensures Placing(b, f[ft[s'] - 1 := i], ft[s' := ft[s'] - 1], i - 1, s')
  {
    hide Below, Placed, Pair;
    RollingPair(b, i, s);
    PlaceStep(Pairs(b), 65536, f, ft, i + 1, |b|, i);
  }

  lemma PlacingEnd(b: seq<int>, f: seq<int>, ft: seq<int>, s: int)
    requires Placing(b, f, ft, -1, s)
    ensures |b| > 0 && |ft| == 65537 && Bucketed(Pairs(b), f)
    ensures forall k | 0 <= k < 65537 :: ft[k] == Below(Pairs(b), |b|, k)
  {
    hide Below, Placed, Pair;
    PlacedAll(Pairs(b), 65536, f, ft);
    BelowAll(Pairs(b), |b|, 65536);
  }

  method PlacePairs(ptr: array<int>, block: array<int>, ftab: array<int>, nblock: nat, ghost b: seq<int>)
    requires 0 < nblock == |b| == ptr.Length && Extended(b, block[..]) && Keys(b, 256) && ftab.Length == 65537
    requires block != ptr && block != ftab && ptr != ftab
    requires forall k | 0 <= k < 65536 :: ftab[k] == Below(Pairs(b), nblock, k + 1)
    requires ftab[65536] == nblock
    modifies ptr, ftab
    ensures Bucketed(Pairs(b), ptr[..])
    ensures forall k | 0 <= k < 65537 :: ftab[k] == Below(Pairs(b), nblock, k)
  {
    hide *;
    ghost var ext := block[..];
    ExtendedAt(b, ext, 0);
    var s := block[0] * 256;
    PlacingStart(b, ptr[..], ftab[..], s);
    var i := nblock - 1;
    while i >= 0
      invariant -1 <= i < nblock && block[..] == ext && Placing(b, ptr[..], ftab[..], i, s)
    {
      ghost var f, ft, was := ptr[..], ftab[..], s;
      ExtendedAt(b, ext, i);
      s := s / 256 + block[i] * 256;
      PlacingStep(b, f, ft, i, was, s);
      var j := ftab[s] - 1;
      ftab[s] := j;
      ptr[j] := i;
      assert ptr[..] == f[j := i] && ftab[..] == ft[s := j];
      i := i - 1;
    }
    PlacingEnd(b, ptr[..], ftab[..], s);
    assert forall k | 0 <= k < 65537 :: ftab[k] == ftab[..][k];
  }

  lemma ExtendedAt(b: seq<int>, ext: seq<int>, i: nat)
    requires Extended(b, ext) && i < |b|
    ensures |ext| == |b| + 34 && ext[i] == b[i]
  {
  }

  lemma PairsKeys(b: seq<int>)
    requires |b| > 0 && Keys(b, 256)
    ensures Keys(Pairs(b), 65536)
  {
    forall i | 0 <= i < |b|
      ensures 0 <= Pairs(b)[i] < 65536
    {
      PairSplit(b, i);
    }
  }

  method ExtendBlock(block: array<int>, quadrant: array<int>, nblock: nat, ghost b: seq<int>)
    requires nblock == |b| && Holds(b, block[..]) && quadrant.Length == block.Length && block != quadrant
    requires forall i | 0 <= i < nblock :: quadrant[i] == 0
    modifies block, quadrant
    ensures Extended(b, block[..])
    ensures forall i | 0 <= i < quadrant.Length :: quadrant[i] == 0
  {
    for i := 0 to OVERSHOOT
      invariant Holds(b, block[..])
      invariant forall x | 0 <= x < nblock + i :: quadrant[x] == 0
      invariant forall x | 0 <= x < i :: block[nblock + x] == b[x]
    {
      block[nblock + i] := block[i];
      quadrant[nblock + i] := 0;
    }
    forall i | 0 <= i < block.Length
      ensures block[i] == At(b, i)
    {
      if i >= nblock {
        assert block[nblock + (i - nblock)] == b[i - nblock];
        assert At(b, i) == At(b, i - nblock);
      }
    }
  }

  // ---------- the running order ----------

  /** BIGFREQ: how many rotations start with character c. */
  ghost function Sizes(st: seq<int>): (r: seq<int>)
    requires |st| == 65537
    ensures |r| == 256 && forall c | 0 <= c < 256 :: r[c] == st[c * 256 + 256] - st[c * 256]
  {
    seq(256, c requires 0 <= c < 256 => st[c * 256 + 256] - st[c * 256])
  }

  /** The order so far: all 256 characters, the insertion at p in hand, sorted below i at the last stride. */
  ghost predicate Ordering(st: seq<int>, s: seq<int>, p: int, i: int, h: int) {
    && |st| == 65537 && |s| == 256 && IsPermutation(s) && 0 <= p <= i < 256
    && (h == 1 ==> Sinking(s, Sizes(st), 0, p, i))
  }

  lemma OrderingStart(st: seq<int>, s: seq<int>, i: int, h: int)
    requires |st| == 65537 && |s| == 256 && IsPermutation(s) && 0 <= i < 256
    requires h == 1 ==> Ranked(s, Sizes(st)) && Ordered(s, Sizes(st), 0, i - 1)
    ensures Ordering(st, s, i, i, h)
  {
    if h == 1 {
      SinkingStart(s, Sizes(st), 0, i);
    }
  }

  lemma OrderingAt(st: seq<int>, s: seq<int>, p: int, i: int, h: int, x: int)
    requires Ordering(st, s, p, i, h) && 0 <= x < 256
    ensures |s| == 256 && 0 <= s[x] < 256 && |Sizes(st)| == 256
    ensures Sizes(st)[s[x]] == st[s[x] * 256 + 256] - st[s[x] * 256]
  {
  }

  lemma OrderingStep(st: seq<int>, s: seq<int>, p: int, i: int, h: int)
    requires Ordering(st, s, p, i, h) && 0 < h <= p && 0 <= s[p - h] < 256 && 0 <= s[p] < 256
    requires Sizes(st)[s[p - h]] > Sizes(st)[s[p]]
    ensures Ordering(st, Swapped(s, p - h, p), p - h, i, h)
  {
    SwapRearranges(s, p - h, p, 0, 256);
    RearrangedPermutation(s, Swapped(s, p - h, p), 0, 256);
    if h == 1 {
      hide Sizes, Bag, Injective;
      SinkingStep(s, Sizes(st), 0, p, i);
    }
  }

  lemma OrderingEnd(st: seq<int>, s: seq<int>, p: int, i: int, h: int)
    requires Ordering(st, s, p, i, h)
    requires h == 1 && 0 < p ==> 0 <= s[p] < 256 && 0 <= s[p - 1] < 256 && Sizes(st)[s[p - 1]] <= Sizes(st)[s[p]]
    ensures |s| == 256 && IsPermutation(s) && |st| == 65537
    ensures h == 1 ==> Ranked(s, Sizes(st)) && Ordered(s, Sizes(st), 0, i)
  {
    if h == 1 {
      SinkingEnd(s, Sizes(st), 0, p, i);
    }
  }

  method OrderOne(runningOrder: array<int>, ftab: array<int>, i: int, h: int)
    requires runningOrder.Length == 256 && ftab.Length == 65537 && runningOrder != ftab && 0 < h <= i < 256
    requires IsPermutation(runningOrder[..])
    requires h == 1 ==> Ranked(runningOrder[..], Sizes(ftab[..])) && Ordered(runningOrder[..], Sizes(ftab[..]), 0, i - 1)
    modifies runningOrder
    ensures IsPermutation(runningOrder[..])
    ensures h == 1 ==> Ranked(runningOrder[..], Sizes(ftab[..])) && Ordered(runningOrder[..], Sizes(ftab[..]), 0, i)
  {
    hide *;
    ghost var st, s := ftab[..], runningOrder[..];
    var vv := runningOrder[i];
    var j := i;
    OrderingStart(st, s, i, h);
    OrderingAt(st, s, i, i, h, i);
    while true
      invariant 0 < h <= j <= i && ftab[..] == st && 0 <= vv < 256
      invariant |s| == 256 && s[j] == vv && runningOrder[..] == s[j := runningOrder[j]]
      invariant Ordering(st, s, j, i, h)
      decreases j
    {
      OrderingAt(st, s, j, i, h, j - h);
      OrderingAt(st, s, j, i, h, j);
      var w := runningOrder[j - h];
      assert w == s[j - h];
      if ftab[w * 256 + 256] - ftab[w * 256] <= ftab[vv * 256 + 256] - ftab[vv * 256] {
        break;
      }
      OrderingStep(st, s, j, i, h);
      SwappedAt(s, j - h, j);
      runningOrder[j] := w;
      s := Swapped(s, j - h, j);
      j := j - h;
      if j <= h - 1 {
        break;
      }
    }
    OrderingEnd(st, s, j, i, h);
    runningOrder[j] := vv;
    assert runningOrder[..] == s;
  }

  /** Shell sort of the 256 characters by the sizes of their big buckets. */
  method RunningOrder(ftab: array<int>) returns (runningOrder: array<int>)
    requires ftab.Length == 65537
    ensures fresh(runningOrder) && runningOrder.Length == 256 && IsPermutation(runningOrder[..])
    ensures Ranked(runningOrder[..], Sizes(ftab[..])) && Ordered(runningOrder[..], Sizes(ftab[..]), 0, 255)
  {
    ghost var st := ftab[..];
    runningOrder := new int[256](i => i);
    var h := 1;
    while true
      invariant h == 1 || h == 4 || h == 13 || h == 40 || h == 121
      decreases 121 - h
    {
      h := 3 * h + 1;
      if h > 256 {
        break;
      }
    }
    while true
      invariant h == 364 || h == 121 || h == 40 || h == 13 || h == 4
      invariant IsPermutation(runningOrder[..]) && ftab[..] == st
      decreases h
    {
      h := h / 3;
      var i := h;
      assert h == 1 ==> Ordered(runningOrder[..], Sizes(st), 0, 0);
      hide *;
      while i <= 255
        invariant h <= i <= 256 && ftab[..] == st && IsPermutation(runningOrder[..])
        invariant h == 1 ==> Ranked(runningOrder[..], Sizes(st)) && Ordered(runningOrder[..], Sizes(st), 0, i - 1)
      {
        OrderOne(runningOrder, ftab, i, h);
        i := i + 1;
      }
      if h == 1 {
        break;
      }
    }
  }

  // ---------- the bucket table and its flags ----------

  const SETMASK := 0x20_0000  // bit 21

  function Clear(w: int): int {
    w % SETMASK
  }

  predicate Flagged(w: int) {
    w / SETMASK % 2 == 1
  }

  function SetFlag(w: int): int {
    if Flagged(w) then w else w + SETMASK
  }

  /** The words of ftab: bucket starts below bit 21, flags in it. */
  ghost predicate Words(st: seq<int>, fl: seq<bool>, ft: seq<int>) {
    && |st| == |fl| == |ft| == 65537
    && forall k | 0 <= k < 65537 :: WordOk(st, fl, ft, k)
  }

  ghost predicate WordOk(st: seq<int>, fl: seq<bool>, ft: seq<int>, k: int)
    requires |st| == |fl| == |ft| == 65537 && 0 <= k < 65537
  {
    0 <= st[k] <= 900000 && ft[k] == st[k] + if fl[k] then SETMASK else 0
  }

  lemma WordsAt(st: seq<int>, fl: seq<bool>, ft: seq<int>, k: int)
    requires Words(st, fl, ft) && 0 <= k < 65537
    ensures |st| == |fl| == |ft| == 65537
    ensures Clear(ft[k]) == st[k] && (Flagged(ft[k]) <==> fl[k])
    ensures Words(st, fl[k := true], ft[k := SetFlag(ft[k])])
  {
    assert WordOk(st, fl, ft, k);
    var fl2, ft2 := fl[k := true], ft[k := SetFlag(ft[k])];
    forall l | 0 <= l < 65537
      ensures WordOk(st, fl2, ft2, l)
    {
      assert WordOk(st, fl, ft, l);
    }
  }

  // ---------- rows, small buckets and what is known to be sorted ----------

  /** Rows x and y, if they share a flagged small bucket, are in order. */
  ghost predicate InBucketOrder(b: seq<int>, s: seq<int>, fl: seq<bool>, x: int, y: int)
    requires |b| > 0 && 0 <= x < |s| && 0 <= y < |s| && |fl| == 65537
  {
    && 0 <= s[x] < |b| && 0 <= s[y] < |b|
    && 0 <= Pair(b, s[x]) < 65536
    && (Pair(b, s[x]) == Pair(b, s[y]) && fl[Pair(b, s[x])] ==> Rank(b, s[x]) <= Rank(b, s[y]))
  }

  ghost predicate Starts(b: seq<int>, st: seq<int>) {
    && OVERSHOOT < |b| <= 900000 && Keys(b, 256)
    && |st| == 65537
    && forall k | 0 <= k < 65537 :: st[k] == Below(Pairs(b), |b|, k)
  }

  ghost predicate Buckets(b: seq<int>, st: seq<int>, s: seq<int>, fl: seq<bool>) {
    && Starts(b, st)
    && |fl| == 65537
    && Bucketed(Pairs(b), s)
    && forall x, y | 0 <= x < y < |s| :: InBucketOrder(b, s, fl, x, y)
  }

  lemma StartsOrder(b: seq<int>, st: seq<int>, k: int, l: int)
    requires Starts(b, st) && 0 <= k <= l < 65537
    ensures 0 <= st[k] <= st[l] <= |b|
  {
    hide Pairs;
    BelowMonotone(Pairs(b), |b|, k, l);
  }

  /** The rows of bucket k are those between its bounds. */
  lemma RowOfBucket(b: seq<int>, st: seq<int>, s: seq<int>, x: int)
    requires Starts(b, st) && Bucketed(Pairs(b), s) && 0 <= x < |b|
    ensures |s| == |b| && 0 <= s[x] < |b| && 0 <= Pair(b, s[x]) < 65536
    ensures forall k | 0 <= k < 65536 :: Pair(b, s[x]) == k <==> st[k] <= x < st[k + 1]
  {
    hide Below, Injective;
    PairSplit(b, s[x]);
    var p := Pair(b, s[x]);
    assert st[p] <= x < st[p + 1];
    forall k | 0 <= k < 65536
      ensures p == k <==> st[k] <= x < st[k + 1]
    {
      if k < p {
        StartsOrder(b, st, k + 1, p);
      } else if p < k {
        StartsOrder(b, st, p + 1, k);
      }
    }
  }

  lemma BucketSharesTwo(b: seq<int>, st: seq<int>, s: seq<int>, k: int, x: int, y: int)
    requires Starts(b, st) && Bucketed(Pairs(b), s) && 0 <= k < 65536
    requires 0 <= x < |b| && 0 <= y < |b| && st[k] <= x < st[k + 1] && st[k] <= y < st[k + 1]
    ensures |s| == |b| && 0 <= s[x] < |b| && 0 <= s[y] < |b| && Cmp(b, s[x], s[y], 2) == 0
  {
    hide Below, Pairs, Cmp;
    RowOfBucket(b, st, s, x);
    RowOfBucket(b, st, s, y);
    PairCmp(b, s[x], s[y]);
  }

  /** Sorting one small bucket keeps the rows in their buckets and lets the bucket be flagged. */
  lemma BucketSorted(b: seq<int>, st: seq<int>, s: seq<int>, s2: seq<int>, fl: seq<bool>, k: int)
    requires Buckets(b, st, s, fl) && 0 <= k < 65536
    requires Rearranged(s, s2, st[k], st[k + 1])
    requires Ranked(s2, Ranks(b)) && Ordered(s2, Ranks(b), st[k], st[k + 1] - 1)
    ensures Buckets(b, st, s2, fl[k := true])
  {
    hide Below, Pair, Rank, Bag;
    RearrangedBuckets(b, st, s, s2, k);
    var fl2 := fl[k := true];
    forall x, y | 0 <= x < y < |s2|
      ensures InBucketOrder(b, s2, fl2, x, y)
    {
      RowOfBucket(b, st, s2, x);
      RowOfBucket(b, st, s2, y);
      if st[k] <= x && y < st[k + 1] {
        assert InOrder(s2, Ranks(b), x, y);
      } else {
        assert InBucketOrder(b, s, fl, x, y);
      }
    }
  }

  lemma RearrangedBuckets(b: seq<int>, st: seq<int>, s: seq<int>, s2: seq<int>, k: int)
    requires Starts(b, st) && Bucketed(Pairs(b), s) && 0 <= k < 65536
    requires Rearranged(s, s2, st[k], st[k + 1])
    ensures Bucketed(Pairs(b), s2)
  {
    hide Below, Pair, Bag, Injective;
    RearrangedPermutation(s, s2, st[k], st[k + 1]);
    RearrangedOrigin(s, s2, st[k], st[k + 1]);
    forall x | 0 <= x < |s2|
      ensures Below(Pairs(b), |b|, Pairs(b)[s2[x]]) <= x < Below(Pairs(b), |b|, Pairs(b)[s2[x]] + 1)
    {
      RowOfBucket(b, st, s, x);
      if st[k] <= x < st[k + 1] {
        var v :| st[k] <= v < st[k + 1] && s[v] == s2[x];
        RowOfBucket(b, st, s, v);
      }
    }
  }

  // ---------- step 1 ----------

  lemma SmallBucketReady(b: seq<int>, st: seq<int>, s: seq<int>, fl: seq<bool>, k: int)
    requires Buckets(b, st, s, fl) && 0 <= k < 65536 && st[k] < st[k + 1]
    ensures 0 <= st[k] <= st[k + 1] - 1 < |s| == |b| && Ranked(s, Ranks(b)) && 0 <= s[st[k]]
    ensures forall x | st[k] <= x <= st[k + 1] - 1 :: Cmp(b, s[st[k]], s[x], 2) == 0
  {
    hide Below, Pair, Cmp, Rank, Injective;
    StartsOrder(b, st, k, k + 1);
    forall x | st[k] <= x <= st[k + 1] - 1
      ensures Cmp(b, s[st[k]], s[x], 2) == 0
    {
      BucketSharesTwo(b, st, s, k, st[k], x);
    }
  }

  /** A bucket of at most one row is sorted as it is. */
  lemma TinyBucket(b: seq<int>, st: seq<int>, s: seq<int>, fl: seq<bool>, k: int)
    requires Buckets(b, st, s, fl) && 0 <= k < 65536 && st[k + 1] - 1 <= st[k]
    ensures Buckets(b, st, s, fl[k := true])
  {
    hide Below, Pair, Cmp, Rank, Injective;
    StartsOrder(b, st, k, k + 1);
    RearrangedReflexive(s, st[k], st[k + 1]);
    BucketSorted(b, st, s, s, fl, k);
  }

  lemma FlaggedAgain(b: seq<int>, st: seq<int>, s: seq<int>, fl: seq<bool>, k: int)
    requires Buckets(b, st, s, fl) && 0 <= k < 65536 && fl[k]
    ensures fl[k := true] == fl
  {
  }

  lemma BucketsSized(b: seq<int>, st: seq<int>, s: seq<int>, fl: seq<bool>)
    requires Buckets(b, st, s, fl)
    ensures |s| == |b| && |st| == |fl| == 65537 && Starts(b, st) && 34 < |b| <= 900000 && IsPermutation(s)
  {
  }

  /** Quicksort one small bucket, unless it is flagged, and flag it. */
  method SortSmallBucket(ptr: array<int>, block: array<int>, quadrant: array<int>, ftab: array<int>, nblock: nat,
                         sb: int, budget: int, ghost b: seq<int>, ghost st: seq<int>, ghost fl: seq<bool>)
    returns (budget': int)
    requires ptr != block && ptr != quadrant && ptr != ftab && ftab != block && ftab != quadrant
    requires nblock == |b| == ptr.Length && 0 <= sb < 65536
    requires Extended(b, block[..]) && QuadrantSound(b, quadrant[..])
    requires Buckets(b, st, ptr[..], fl) && Words(st, fl, ftab[..]) && budget >= 0
    modifies ptr, ftab
    ensures budget' <= budget
    ensures st[sb + 1] <= st[sb] + 1 ==> budget' == budget
    ensures st[sb + 1] == st[sb] + 2 ==> budget' >= budget - MostWork(nblock)
    ensures budget' >= 0 ==>
      Buckets(b, st, ptr[..], fl[sb := true]) && Words(st, fl[sb := true], ftab[..])
  {
    hide *;
    budget' := budget;
    ghost var s := ptr[..];
    BucketsSized(b, st, s, fl);
    WordsAt(st, fl, ftab[..], sb);
    WordsAt(st, fl, ftab[..], sb + 1);
    if !Flagged(ftab[sb]) {
      var lo := Clear(ftab[sb]);
      var hi := Clear(ftab[sb + 1]) - 1;
      if hi > lo {
        SmallBucketReady(b, st, s, fl, sb);
        budget' := MainQSort3(ptr, block, quadrant, nblock, lo, hi, 2, budget', b, s[lo]);
        if budget' < 0 {
          return;
        }
        BucketSorted(b, st, s, ptr[..], fl, sb);
      } else {
        TinyBucket(b, st, s, fl, sb);
      }
    } else {
      FlaggedAgain(b, st, s, fl, sb);
    }
    ghost var ft := ftab[..];
    ftab[sb] := SetFlag(ftab[sb]);
    assert ftab[..] == ft[sb := SetFlag(ft[sb])];
  }

  /** Flags after the first j small buckets [ss, 0], ..., except [ss, ss] itself, have been seen to. */
  ghost predicate RowFlags(fl: seq<bool>, fl2: seq<bool>, ss: int, j: int) {
    && |fl| == |fl2| == 65537
    && forall k | 0 <= k < 65537 :: fl2[k] <==> fl[k] || (ss * 256 <= k < ss * 256 + j && k != ss * 256 + ss)
  }

  lemma RowFlagsNext(fl: seq<bool>, fl2: seq<bool>, ss: int, j: int)
    requires RowFlags(fl, fl2, ss, j) && 0 <= ss < 256 && 0 <= j < 256
    ensures RowFlags(fl, if j == ss then fl2 else fl2[ss * 256 + j := true], ss, j + 1)
  {
  }

  lemma RowFlagsNone(fl: seq<bool>, ss: int)
    requires |fl| == 65537
    ensures RowFlags(fl, fl, ss, 0)
  {
  }

  /** Of the small buckets [ss, j] only [ss, jj] has more than one row, and it has two. */
  ghost predicate OnePair(st: seq<int>, ss: int, jj: int) {
    && |st| == 65537 && 0 <= ss < 256 && 0 <= jj < 256
    && st[ss * 256 + jj + 1] == st[ss * 256 + jj] + 2
    && forall j | 0 <= j < 256 && j != jj :: RowsOf(st, ss, j) <= 1
  }

  /** None of them has. */
  ghost predicate NoPairs(st: seq<int>, ss: int) {
    |st| == 65537 && 0 <= ss < 256 && forall j | 0 <= j < 256 :: RowsOf(st, ss, j) <= 1
  }

  ghost function RowsOf(st: seq<int>, ss: int, j: int): int
    requires |st| == 65537 && 0 <= ss < 256 && 0 <= j < 256
  {
    st[ss * 256 + j + 1] - st[ss * 256 + j]
  }

  lemma PairWork(st: seq<int>, ss: int, j: int, before: int, after: int, most: nat)
    requires |st| == 65537 && 0 <= ss < 256 && 0 <= j < 256 && after <= before
    requires st[ss * 256 + j + 1] <= st[ss * 256 + j] + 1 ==> after == before
    requires st[ss * 256 + j + 1] == st[ss * 256 + j] + 2 ==> after >= before - most
    ensures forall jj | OnePair(st, ss, jj) :: after >= before - (if jj == j then most else 0)
    ensures NoPairs(st, ss) ==> after == before
  {
    assert NoPairs(st, ss) ==> RowsOf(st, ss, j) <= 1;
    forall jj | OnePair(st, ss, jj)
      ensures after >= before - (if jj == j then most else 0)
    {
      assert jj != j ==> RowsOf(st, ss, j) <= 1;
    }
  }

  /** Step 1: sort what is not yet sorted of the big bucket ss, all but [ss, ss]. */
  method SortBigBucket(ptr: array<int>, block: array<int>, quadrant: array<int>, ftab: array<int>, nblock: nat,
                       ss: int, budget: int, ghost b: seq<int>, ghost st: seq<int>, ghost fl: seq<bool>)
    returns (budget': int, ghost fl2: seq<bool>)
    requires ptr != block && ptr != quadrant && ptr != ftab && ftab != block && ftab != quadrant
    requires nblock == |b| == ptr.Length && 0 <= ss < 256
    requires Extended(b, block[..]) && QuadrantSound(b, quadrant[..])
    requires Buckets(b, st, ptr[..], fl) && Words(st, fl, ftab[..]) && budget >= 0
    modifies ptr, ftab
    ensures budget' <= budget
    ensures forall jj | OnePair(st, ss, jj) :: budget' >= budget - MostWork(nblock)
    ensures NoPairs(st, ss) ==> budget' == budget
    ensures budget' >= 0 ==>
      RowFlags(fl, fl2, ss, 256) && Buckets(b, st, ptr[..], fl2) && Words(st, fl2, ftab[..])
  {
    hide *;
    BucketsSized(b, st, ptr[..], fl);
    ghost var ext, q := block[..], quadrant[..];
    budget', fl2 := budget, fl;
    RowFlagsNone(fl, ss);
    for j := 0 to 256
      invariant ext == block[..] && q == quadrant[..] && 0 <= budget' <= budget
      invariant NoPairs(st, ss) ==> budget' == budget
      invariant forall jj | OnePair(st, ss, jj) :: budget' >= budget - (if j > jj then MostWork(nblock) else 0)
      invariant RowFlags(fl, fl2, ss, j) && Buckets(b, st, ptr[..], fl2) && Words(st, fl2, ftab[..])
    {
      RowFlagsNext(fl, fl2, ss, j);
      if j != ss {
        BucketsSized(b, st, ptr[..], fl2);
        var sb := ss * 256 + j;
        ghost var before := budget';
        budget' := SortSmallBucket(ptr, block, quadrant, ftab, nblock, sb, budget', b, st, fl2);
        fl2 := fl2[sb := true];
        PairWork(st, ss, j, before, budget', MostWork(nblock));
        if budget' < 0 {
          return;
        }
      }
    }
  }

  // ---------- step 2 ----------

  ghost function LeftScan(b: seq<int>, ss: int, st: seq<int>, done: seq<bool>, s: seq<int>): Scan
    requires |st| == 65537 && 0 <= ss < 256
  {
    Scan(b, ss, st, done, s, s, -1, seq(256, t requires 0 <= t < 256 => st[t * 256 + ss + 1] - 1))
  }

  lemma LeftSetting(b: seq<int>, ss: int, st: seq<int>, done: seq<bool>, s: seq<int>, fl: seq<bool>)
    requires Buckets(b, st, s, fl) && 0 <= ss < 256 && |done| == 256 && !done[ss]
    requires forall k | ss * 256 <= k < ss * 256 + 256 && k != ss * 256 + ss :: fl[k]
    ensures Setting(LeftScan(b, ss, st, done, s))
  {
    hide Below, Pair, Rank, Injective;
    var c := LeftScan(b, ss, st, done, s);
    forall x | 0 <= x < |b|
      ensures RowGiven(c, x)
    {
      RowOfBucket(b, st, s, x);
    }
    forall x, y | 0 <= x < y < |b|
      ensures OthersDiffer(c, x, y) && SortedGiven(c, x, y)
    {
      assert InBucketOrder(b, s, fl, x, y);
    }
    forall t | 0 <= t < 256
      ensures BoundsGiven(c, t)
    {
      StartsOrder(b, st, t * 256, t * 256 + ss);
      StartsOrder(b, st, t * 256 + ss, t * 256 + ss + 1);
      StartsOrder(b, st, t * 256 + ss + 1, t * 256 + 256);
      BelowNext(Pairs(b), |b|, t * 256 + ss);
    }
  }

  /** Flags after step 2: all buckets [t, ss] as well. */
  ghost predicate ColumnFlags(fl: seq<bool>, fl2: seq<bool>, ss: int, j: int) {
    && |fl| == |fl2| == 65537
    && forall k | 0 <= k < 65537 :: fl2[k] <==> fl[k] || (k % 256 == ss && k < j * 256)
  }

  lemma AfterBothPasses(l: Scan, zl: State, r: Scan, zr: State, fl: seq<bool>, fl2: seq<bool>)
    requires BothDone(l, zl, r, zr) && Buckets(l.b, l.st, l.orig, fl) && ColumnFlags(fl, fl2, l.ss, 256)
    requires |l.done| == 256 && forall k | 0 <= k < 65536 && l.done[k / 256] :: fl[k]
    ensures Buckets(l.b, l.st, zr.s, fl2)
  {
    hide Below, Pair, Rank, BothDone, Starts;
    BothSized(l, zl, r, zr);
    BucketsSized(l.b, l.st, l.orig, fl);
    forall x, y | 0 <= x < y < |l.b|
      ensures InBucketOrder(l.b, zr.s, fl2, x, y) && zr.s[x] != zr.s[y]
    {
      PairOutcome(l, zl, r, zr, x, y);
      assert InBucketOrder(l.b, l.orig, fl, x, y);
    }
    forall x | 0 <= x < |l.b|
      ensures 0 <= zr.s[x] < |l.b|
      ensures Below(Pairs(l.b), |l.b|, Pairs(l.b)[zr.s[x]]) <= x < Below(Pairs(l.b), |l.b|, Pairs(l.b)[zr.s[x]] + 1)
    {
      RowOutcome(l, zl, r, zr, x);
      RowOfBucket(l.b, l.st, l.orig, x);
    }
    assert Injective(zr.s);
  }

  /** One step of a pass, in terms of what the arrays hold. */
  lemma ScanStep(c: Scan, z: State) returns (z': State, u: int, t: int)
    requires Scanning(c, z) && MayStep(c, z)
    ensures Scanning(c, z')
    ensures 0 <= z.j < |z.s| == |c.b| && 0 <= z.s[z.j] < |c.b| && |z.front| == |c.done| == 256
    ensures u == (if z.s[z.j] == 0 then |c.b| - 1 else z.s[z.j] - 1) && 0 <= u < |c.b|
    ensures t == c.b[u] && 0 <= t < 256 && z'.j == z.j - c.side
    ensures c.done[t] ==> z'.s == z.s && z'.front == z.front
    ensures !c.done[t] ==> 0 <= z.front[t] < |z.s|
    ensures !c.done[t] ==> z'.s == z.s[z.front[t] := u] && z'.front == z.front[t := z.front[t] - c.side]
  {
    hide Scanning, Pair, Side, Base, End, Bucket;
    var v: nat;
    z', v, u, t := StepKeeps(c, z);
    ScanningSized(c, z);
  }

  /** What a pass over the big bucket works on. */
  ghost predicate Attached(c: Scan, z: State, ptr: seq<int>, ext: seq<int>, front: seq<int>, done: seq<bool>, j: int) {
    && Scanning(c, z) && z.s == ptr && z.front == front && z.j == j && c.done == done && Extended(c.b, ext)
    && |ptr| == |c.b| && |front| == 256 && 0 <= c.ss < 256
  }

  lemma AttachedStep(c: Scan, z: State, ptr: seq<int>, ext: seq<int>, front: seq<int>, done: seq<bool>, j: int)
    returns (z': State, u: int, t: int)
    requires Attached(c, z, ptr, ext, front, done, j)
    requires |front| == 256 && 0 <= c.ss < 256 && if c.side < 0 then j < front[c.ss] else j > front[c.ss]
    ensures 0 <= j < |ptr| && |ptr| <= |ext| && |done| == 256
    ensures u == (if ptr[j] == 0 then |ptr| - 1 else ptr[j] - 1) && 0 <= u < |ptr| && t == ext[u] && 0 <= t < 256
    ensures !done[t] ==> 0 <= front[t] < |ptr|
    ensures Attached(c, z', if done[t] then ptr else ptr[front[t] := u], ext,
                     if done[t] then front else front[t := front[t] - c.side], done, j - c.side)
  {
    hide Scanning;
    ScanningSized(c, z);
    z', u, t := ScanStep(c, z);
    ExtendedAt(c.b, ext, u);
  }

  lemma AttachedDone(c: Scan, z: State, ptr: seq<int>, ext: seq<int>, front: seq<int>, done: seq<bool>, j: int)
    requires Attached(c, z, ptr, ext, front, done, j)
    requires |front| == 256 && 0 <= c.ss < 256 && !(if c.side < 0 then j < front[c.ss] else j > front[c.ss])
    ensures !MayStep(c, z)
  {
    hide Scanning;
  }

  /** The pass from the left: fills copyStart[t] upwards. */
  method ScanFromLeft(ptr: array<int>, block: array<int>, copyStart: array<int>, bigDone: array<bool>, nblock: nat,
                      ss: int, from: int, ghost c: Scan, ghost z0: State)
    returns (ghost z: State)
    requires ptr != block && ptr != copyStart && block != copyStart
    requires nblock == ptr.Length && copyStart.Length == 256 && 0 <= ss == c.ss < 256 && c.side == -1
    requires Attached(c, z0, ptr[..], block[..], copyStart[..], bigDone[..], from)
    modifies ptr, copyStart
    ensures Scanning(c, z) && !MayStep(c, z) && z.s == ptr[..] && z.front == copyStart[..]
  {
    hide *;
    ghost var ext, done := block[..], bigDone[..];
    var j := from;
    z := z0;
    while j < copyStart[ss]
      invariant block[..] == ext && bigDone[..] == done
      invariant Attached(c, z, ptr[..], ext, copyStart[..], done, j)
      decreases nblock - j
    {
      ghost var s, front := ptr[..], copyStart[..];
      ghost var z', u, t := AttachedStep(c, z, s, ext, front, done, j);
      var k := ptr[j] - 1;
      if k < 0 {
        k := k + nblock;
      }
      assert k == u && block[..][k] == t && bigDone[..][t] == bigDone[t];
      var c1 := block[k];
      if !bigDone[c1] {
        ptr[copyStart[c1]] := k;
        copyStart[c1] := copyStart[c1] + 1;
        assert ptr[..] == s[front[t] := u] && copyStart[..] == front[t := front[t] + 1];
      }
      z := z';
      j := j + 1;
    }
    AttachedDone(c, z, ptr[..], ext, copyStart[..], done, j);
    AttachedParts(c, z, ptr[..], ext, copyStart[..], done, j);
  }

  lemma AttachedParts(c: Scan, z: State, ptr: seq<int>, ext: seq<int>, front: seq<int>, done: seq<bool>, j: int)
    requires Attached(c, z, ptr, ext, front, done, j)
    ensures Scanning(c, z) && z.s == ptr && z.front == front && z.j == j && c.done == done
    ensures |ptr| == |c.b| && |front| == 256
  {
    hide Scanning;
  }

  /** The pass from the right: fills copyEnd[t] downwards. */
  method ScanFromRight(ptr: array<int>, block: array<int>, copyEnd: array<int>, bigDone: array<bool>, nblock: nat,
                       ss: int, from: int, ghost c: Scan, ghost z0: State)
    returns (ghost z: State)
    requires ptr != block && ptr != copyEnd && block != copyEnd
    requires nblock == ptr.Length && copyEnd.Length == 256 && 0 <= ss == c.ss < 256 && c.side == 1
    requires Attached(c, z0, ptr[..], block[..], copyEnd[..], bigDone[..], from)
    modifies ptr, copyEnd
    ensures Scanning(c, z) && !MayStep(c, z) && z.s == ptr[..] && z.front == copyEnd[..]
  {
    hide *;
    ghost var ext, done := block[..], bigDone[..];
    var j := from;
    z := z0;
    while j > copyEnd[ss]
      invariant block[..] == ext && bigDone[..] == done
      invariant Attached(c, z, ptr[..], ext, copyEnd[..], done, j)
      decreases j
    {
      ghost var s, front := ptr[..], copyEnd[..];
      ghost var z', u, t := AttachedStep(c, z, s, ext, front, done, j);
      var k := ptr[j] - 1;
      if k < 0 {
        k := k + nblock;
      }
      assert k == u && block[..][k] == t && bigDone[..][t] == bigDone[t];
      var c1 := block[k];
      if !bigDone[c1] {
        ptr[copyEnd[c1]] := k;
        copyEnd[c1] := copyEnd[c1] - 1;
        assert ptr[..] == s[front[t] := u] && copyEnd[..] == front[t := front[t] - 1];
      }
      z := z';
      j := j - 1;
    }
    AttachedDone(c, z, ptr[..], ext, copyEnd[..], done, j);
    AttachedParts(c, z, ptr[..], ext, copyEnd[..], done, j);
  }

  /** Where the buckets [t, ss] begin and end, t = 0, ..., 255. */
  ghost predicate CopyBounds(st: seq<int>, ss: int, starts: seq<int>, ends: seq<int>, j: int) {
    && |st| == 65537 && |starts| == |ends| == 256 && 0 <= ss < 256
    && forall t | 0 <= t < j && t < 256 :: starts[t] == st[t * 256 + ss] && ends[t] == st[t * 256 + ss + 1] - 1
  }

  lemma CopyBoundsNext(st: seq<int>, ss: int, starts: seq<int>, ends: seq<int>, j: int)
    requires CopyBounds(st, ss, starts, ends, j) && 0 <= j < 256
    ensures |st| == 65537 && |starts| == |ends| == 256 && 0 <= ss < 256
    ensures CopyBounds(st, ss, starts[j := st[j * 256 + ss]], ends[j := st[j * 256 + ss + 1] - 1], j + 1)
  {
  }

  lemma CopyBoundsNone(st: seq<int>, ss: int, starts: seq<int>, ends: seq<int>)
    requires |st| == 65537 && |starts| == |ends| == 256 && 0 <= ss < 256
    ensures CopyBounds(st, ss, starts, ends, 0)
  {
  }

  method SetCopyBounds(ftab: array<int>, copyStart: array<int>, copyEnd: array<int>, ss: int,
                       ghost st: seq<int>, ghost fl: seq<bool>)
    requires ftab != copyStart && ftab != copyEnd && copyStart != copyEnd
    requires copyStart.Length == copyEnd.Length == 256 && 0 <= ss < 256 && |st| == 65537
    requires Words(st, fl, ftab[..])
    modifies copyStart, copyEnd
    ensures CopyBounds(st, ss, copyStart[..], copyEnd[..], 256)
  {
    hide *;
    ghost var ft := ftab[..];
    CopyBoundsNone(st, ss, copyStart[..], copyEnd[..]);
    for j := 0 to 256
      invariant ftab[..] == ft && CopyBounds(st, ss, copyStart[..], copyEnd[..], j)
    {
      ghost var starts, ends := copyStart[..], copyEnd[..];
      CopyBoundsNext(st, ss, starts, ends, j);
      WordsAt(st, fl, ft, j * 256 + ss);
      WordsAt(st, fl, ft, j * 256 + ss + 1);
      copyStart[j] := Clear(ftab[j * 256 + ss]);
      copyEnd[j] := Clear(ftab[j * 256 + ss + 1]) - 1;
      assert copyStart[..] == starts[j := st[j * 256 + ss]] && copyEnd[..] == ends[j := st[j * 256 + ss + 1] - 1];
    }
  }

  lemma ColumnFlagsNone(fl: seq<bool>, ss: int)
    requires |fl| == 65537
    ensures ColumnFlags(fl, fl, ss, 0)
  {
  }

  lemma ColumnFlagsNext(fl: seq<bool>, fl2: seq<bool>, ss: int, j: int)
    requires ColumnFlags(fl, fl2, ss, j) && 0 <= ss < 256 && 0 <= j < 256
    ensures |fl2| == 65537 && ColumnFlags(fl, fl2[j * 256 + ss := true], ss, j + 1)
  {
  }

  /** All buckets [t, ss] are marked as sorted. */
  method FlagColumn(ftab: array<int>, ss: int, ghost st: seq<int>, ghost fl: seq<bool>)
    returns (ghost fl2: seq<bool>)
    requires 0 <= ss < 256 && Words(st, fl, ftab[..]) && |fl| == ftab.Length == 65537
    modifies ftab
    ensures Words(st, fl2, ftab[..]) && ColumnFlags(fl, fl2, ss, 256)
  {
    hide *;
    fl2 := fl;
    ColumnFlagsNone(fl, ss);
    for j := 0 to 256
      invariant Words(st, fl2, ftab[..]) && ColumnFlags(fl, fl2, ss, j)
    {
      ghost var ft := ftab[..];
      ColumnFlagsNext(fl, fl2, ss, j);
      WordsAt(st, fl2, ft, j * 256 + ss);
      ftab[j * 256 + ss] := SetFlag(ftab[j * 256 + ss]);
      assert ftab[..] == ft[j * 256 + ss := SetFlag(ft[j * 256 + ss])];
      fl2 := fl2[j * 256 + ss := true];
    }
  }

  /** What has been flagged for the characters that are done: all small buckets in which they come first or second. */
  ghost predicate DoneFlagged(done: seq<bool>, fl: seq<bool>) {
    && |done| == 256 && |fl| == 65537
    && forall k | 0 <= k < 65536 && (done[k / 256] || done[k % 256]) :: fl[k]
  }

  ghost predicate RowFlagged(fl: seq<bool>, ss: int) {
    && |fl| == 65537 && 0 <= ss < 256
    && forall k | ss * 256 <= k < ss * 256 + 256 && k != ss * 256 + ss :: fl[k]
  }

  lemma LeftStart(b: seq<int>, ss: int, st: seq<int>, done: seq<bool>, s: seq<int>, fl: seq<bool>,
                  ext: seq<int>, front: seq<int>, ends: seq<int>)
    returns (l: Scan, z: State)
    requires Buckets(b, st, s, fl) && |done| == 256 && 0 <= ss < 256 && !done[ss] && RowFlagged(fl, ss)
    requires Extended(b, ext) && CopyBounds(st, ss, front, ends, 256)
    ensures |st| == 65537 && |ends| == 256 && l == Scan(b, ss, st, done, s, s, -1, ends)
    ensures Attached(l, z, s, ext, front, done, st[ss * 256])
    ensures Sized(l) && forall t | 0 <= t < 256 :: l.other[t] == End(l, t) - 1
  {
    hide Buckets, Scanning, Setting, Extended, Below, Pair, Injective;
    BucketsSized(b, st, s, fl);
    LeftSetting(b, ss, st, done, s, fl);
    l := LeftScan(b, ss, st, done, s);
    assert ends == l.other;
    z := State(s, front, st[ss * 256], {});
    BeginScan(l, z);
  }

  lemma RightStart(l: Scan, zl: State, ext: seq<int>, starts: seq<int>, ends: seq<int>) returns (r: Scan, z: State)
    requires Scanning(l, zl) && !MayStep(l, zl) && l.side == -1 && l.s0 == l.orig && l.other == ends
    requires Extended(l.b, ext) && CopyBounds(l.st, l.ss, starts, ends, 256)
    ensures r == l.(s0 := zl.s, side := 1, other := zl.front)
    ensures |l.st| == 65537 && 0 <= l.ss < 256
    ensures Attached(r, z, zl.s, ext, ends, l.done, l.st[l.ss * 256 + 256] - 1)
  {
    hide Scanning, Setting, Extended, Below, Pair, Injective;
    ScanningSized(l, zl);
    r := l.(s0 := zl.s, side := 1, other := zl.front);
    LeftGivesRight(l, zl, r);
    z := State(zl.s, ends, l.st[l.ss * 256 + 256] - 1, {});
    BeginScan(r, z);
  }

  lemma PassesDone(l: Scan, zl: State, r: Scan, zr: State, ends: seq<int>, starts: seq<int>)
    requires Scanning(l, zl) && !MayStep(l, zl) && l.side == -1 && l.s0 == l.orig && l.other == ends
    requires CopyBounds(l.st, l.ss, starts, ends, 256)
    requires Scanning(r, zr) && !MayStep(r, zr) && r == l.(s0 := zl.s, side := 1, other := zl.front)
    ensures BothDone(l, zl, r, zr)
  {
    hide Scanning, Setting, Below, Pair, Injective;
    ScanningSized(l, zl);
  }

  lemma ColumnCopied(l: Scan, zl: State, r: Scan, zr: State, fl: seq<bool>, fl2: seq<bool>)
    requires BothDone(l, zl, r, zr) && Buckets(l.b, l.st, l.orig, fl) && ColumnFlags(fl, fl2, l.ss, 256)
    requires DoneFlagged(l.done, fl)
    ensures Buckets(l.b, l.st, zr.s, fl2)
  {
    hide BothDone, Buckets, ColumnFlags;
    AfterBothPasses(l, zl, r, zr, fl, fl2);
  }

  /** Step 2: the sorted order of every small bucket [t, ss] from that of the big bucket ss. */
  method CopyBuckets(ptr: array<int>, block: array<int>, ftab: array<int>, bigDone: array<bool>, nblock: nat, ss: int,
                     ghost b: seq<int>, ghost st: seq<int>, ghost fl: seq<bool>)
    returns (ghost fl2: seq<bool>)
    requires ptr != block && ptr != ftab && ftab != block
    requires nblock == |b| == ptr.Length && 0 <= ss < 256 && bigDone.Length == 256 && !bigDone[ss]
    requires Extended(b, block[..]) && Buckets(b, st, ptr[..], fl) && Words(st, fl, ftab[..])
    requires RowFlagged(fl, ss) && DoneFlagged(bigDone[..], fl)
    modifies ptr, ftab
    ensures Buckets(b, st, ptr[..], fl2) && Words(st, fl2, ftab[..]) && ColumnFlags(fl, fl2, ss, 256)
  {
    hide *;
    var copyStart, copyEnd := new int[256], new int[256];
    ghost var s, ext, done := ptr[..], block[..], bigDone[..];
    BucketsSized(b, st, s, fl);
    SetCopyBounds(ftab, copyStart, copyEnd, ss, st, fl);
    ghost var starts, ends := copyStart[..], copyEnd[..];
    WordsAt(st, fl, ftab[..], ss * 256);
    WordsAt(st, fl, ftab[..], ss * 256 + 256);
    ghost var l, zl0 := LeftStart(b, ss, st, done, s, fl, ext, starts, ends);
    ghost var zl := ScanFromLeft(ptr, block, copyStart, bigDone, nblock, ss, Clear(ftab[ss * 256]), l, zl0);
    assert copyEnd[..] == ends && ptr[..] == zl.s && block[..] == ext && bigDone[..] == done;
    ghost var r, zr0 := RightStart(l, zl, ext, starts, ends);
    ghost var zr := ScanFromRight(ptr, block, copyEnd, bigDone, nblock, ss, Clear(ftab[ss * 256 + 256]) - 1, r, zr0);
    PassesDone(l, zl, r, zr, ends, starts);
    OwnFrontsMeet(l, zl, r, zr);
    assert copyStart[..] == zl.front;
    // AssertH 1007
    assert copyStart[ss] - 1 == copyEnd[ss] || (copyStart[ss] == 0 && copyEnd[ss] == nblock - 1);
    assert ptr[..] == zr.s;
    fl2 := FlagColumn(ftab, ss, st, fl);
    ColumnCopied(l, zl, r, zr, fl, fl2);
  }

  // ---------- step 3 ----------

  /** The cached order is sound, fits 16 bits, and is repeated past the end like the block. */
  ghost predicate QuadrantKept(b: seq<int>, q: seq<int>) {
    && QuadrantSound(b, q)
    && |b| > OVERSHOOT
    && (forall i | 0 <= i < |q| :: 0 <= q[i] < 65536)
    && (forall i | 0 <= i < OVERSHOOT :: q[i + |b|] == q[i])
  }

  /** While the big bucket ss, rows lo.. (size of them), is being cached: rows lo + j.. are done. */
  ghost predicate Caching(b: seq<int>, s: seq<int>, q0: seq<int>, q: seq<int>,
                          ss: int, lo: int, size: int, shifts: nat, j: int) {
    && |b| > OVERSHOOT && |q0| == |q| == |b| + OVERSHOOT && |s| == |b|
    && IsPermutation(s) && 0 <= j <= size && 0 <= lo && lo + size <= |b|
    && (forall i | 0 <= i < |q| :: 0 <= q[i] < 65536)
    && (forall i | 0 <= i < OVERSHOOT :: q[i + |b|] == q[i])
    && (forall i | 0 <= i < |b| && b[i] != ss :: q[i] == q0[i])
    && (forall x | lo <= x < lo + size :: b[s[x]] == ss)
    && (forall x | lo + j <= x < lo + size :: q[s[x]] == Halved(x - lo, shifts))
  }

  /** Big bucket ss has been cached: row x of it carries x, scaled down if there are more than 65534 rows. */
  ghost predicate Cached(b: seq<int>, st: seq<int>, s: seq<int>, q: seq<int>, ss: int) {
    && |st| == 65537 && 0 <= ss < 256
    && exists q0, shifts: nat :: CachedFrom(b, st, s, q0, q, ss, shifts)
  }

  ghost predicate CachedFrom(b: seq<int>, st: seq<int>, s: seq<int>, q0: seq<int>, q: seq<int>, ss: int, shifts: nat)
    requires |st| == 65537 && 0 <= ss < 256
  {
    var size := st[ss * 256 + 256] - st[ss * 256];
    && QuadrantSound(b, q0) && Caching(b, s, q0, q, ss, st[ss * 256], size, shifts, 0)
    && (size <= 65534 ==> shifts == 0)
  }

  lemma CachingStart(b: seq<int>, st: seq<int>, s: seq<int>, fl: seq<bool>, q: seq<int>, ss: int, shifts: nat)
    requires Buckets(b, st, s, fl) && QuadrantKept(b, q) && 0 <= ss < 256
    ensures |st| == 65537
    ensures Caching(b, s, q, q, ss, st[ss * 256], st[ss * 256 + 256] - st[ss * 256], shifts,
                    st[ss * 256 + 256] - st[ss * 256])
  {
    hide Below, Pair, Rank, Injective, QuadrantSound, Halved, InBucketOrder;
    KeptSound(b, q);
    StartsOrder(b, st, ss * 256, ss * 256 + 256);
    forall x | st[ss * 256] <= x < st[ss * 256 + 256]
      ensures b[s[x]] == ss
    {
      RowOfBigBucket(b, st, s, ss, x);
    }
  }

  /** The rows of the big bucket are those whose rotations start with ss. */
  lemma RowOfBigBucket(b: seq<int>, st: seq<int>, s: seq<int>, ss: int, x: int)
    requires Starts(b, st) && Bucketed(Pairs(b), s) && 0 <= x < |b| && 0 <= ss < 256
    ensures |s| == |b| && 0 <= s[x] < |b|
    ensures b[s[x]] == ss <==> st[ss * 256] <= x < st[ss * 256 + 256]
  {
    hide Below, Injective, Pair, Pairs;
    RowOfBucket(b, st, s, x);
    var p := Pair(b, s[x]);
    PairSplit(b, s[x]);
    assert st[p] <= x < st[p + 1];
    if p < ss * 256 {
      StartsOrder(b, st, p + 1, ss * 256);
    } else if p >= ss * 256 + 256 {
      StartsOrder(b, st, ss * 256 + 256, p);
    } else {
      StartsOrder(b, st, ss * 256, p);
      StartsOrder(b, st, p + 1, ss * 256 + 256);
    }
  }

  lemma CachingStep(b: seq<int>, s: seq<int>, q0: seq<int>, q: seq<int>,
                    ss: int, lo: int, size: int, shifts: nat, j: int, v: int)
    requires Caching(b, s, q0, q, ss, lo, size, shifts, j + 1) && 0 <= j
    requires v == Halved(j, shifts) && v < 65536
    ensures 0 <= lo + j < |s| == |b| && |q| == |b| + OVERSHOOT && 0 <= s[lo + j] < |b|
    ensures var a := s[lo + j]; var q' := q[a := v];
      Caching(b, s, q0, if a < OVERSHOOT then q'[a + |b| := v] else q', ss, lo, size, shifts, j)
  {
    hide Halved;
    var x := lo + j;
    assert x < lo + size;
  }

  lemma ShiftBound(n: nat, size: nat, shifts: nat)
    requires n <= size <= 900000 && shifts <= 4
    ensures Halved(n, shifts) <= Halved(size, shifts)
    ensures Halved(size, shifts) > 65534 ==> shifts < 4
  {
    HalvedMonotone(n, size, shifts);
    HalvedMonotone(size, 900000, shifts);
    assert Halved(900000, 4) == 56250;
  }

  /** Later rows of a big bucket whose small buckets are all sorted hold no smaller rotations. */
  lemma BigBucketOrder(b: seq<int>, st: seq<int>, s: seq<int>, fl: seq<bool>, ss: int, x: int, y: int)
    requires Buckets(b, st, s, fl) && 0 <= ss < 256 && forall k | ss * 256 <= k < ss * 256 + 256 :: fl[k]
    requires 0 <= x < y < |b| && st[ss * 256] <= x && y < st[ss * 256 + 256]
    ensures 0 <= s[x] < |b| && 0 <= s[y] < |b| && Rank(b, s[x]) <= Rank(b, s[y])
  {
    hide Below, Injective, Pair, Rank;
    RowOfBigBucket(b, st, s, ss, x);
    RowOfBigBucket(b, st, s, ss, y);
    PairSplit(b, s[x]);
    PairSplit(b, s[y]);
    BucketOrder(Pairs(b), s, x, y);
    if Pair(b, s[x]) == Pair(b, s[y]) {
      assert InBucketOrder(b, s, fl, x, y);
    } else {
      PairRank(b, s[x], s[y]);
    }
  }

  lemma CachedPair(b: seq<int>, st: seq<int>, s: seq<int>, fl: seq<bool>, q0: seq<int>, q: seq<int>,
                   ss: int, lo: int, size: int, shifts: nat, i: nat, j: nat)
    requires Buckets(b, st, s, fl) && 0 <= ss < 256 && forall k | ss * 256 <= k < ss * 256 + 256 :: fl[k]
    requires lo == st[ss * 256] && lo + size == st[ss * 256 + 256] && QuadrantSound(b, q0)
    requires Caching(b, s, q0, q, ss, lo, size, shifts, 0)
    requires i < |b| && j < |b| && b[i] == b[j] && q[i] < q[j]
    ensures Precedes(b, i, j)
  {
    hide Below, Pair, Pairs, Rank, InBucketOrder, Halved, Cmp;
    if b[i] != ss {
      assert QuadrantPair(b, q0, i, j);
    } else {
      PermutationIsSurjective(s);
      assert i in s && j in s;
      var x :| 0 <= x < |b| && s[x] == i;
      var y :| 0 <= y < |b| && s[y] == j;
      RowOfBigBucket(b, st, s, ss, x);
      RowOfBigBucket(b, st, s, ss, y);
      assert q[s[x]] == Halved(x - lo, shifts) && q[s[y]] == Halved(y - lo, shifts);
      if y <= x {
        HalvedMonotone(y - lo, x - lo, shifts);
        assert false;
      }
      BigBucketOrder(b, st, s, fl, ss, x, y);
      RankOrder(b, i, j);
    }
  }

  lemma CachingEnd(b: seq<int>, st: seq<int>, s: seq<int>, fl: seq<bool>, q0: seq<int>, q: seq<int>,
                   ss: int, lo: int, size: int, shifts: nat)
    requires Buckets(b, st, s, fl) && 0 <= ss < 256 && forall k | ss * 256 <= k < ss * 256 + 256 :: fl[k]
    requires lo == st[ss * 256] && lo + size == st[ss * 256 + 256] && QuadrantSound(b, q0)
    requires Caching(b, s, q0, q, ss, lo, size, shifts, 0)
    ensures QuadrantKept(b, q)
  {
    hide Below, Pair, Rank, Buckets, Injective, Halved, Cmp;
    var n := |b|;
    forall i, j | 0 <= i < |q| && 0 <= j < |q|
      ensures QuadrantPair(b, q, i, j)
    {
      var u, v := Wrap(i, n), Wrap(j, n);
      WrapOnce(i, n);
      WrapOnce(j, n);
      assert q[u] == q[i] && q[v] == q[j];
      if b[u] == b[v] && q[u] < q[v] {
        CachedPair(b, st, s, fl, q0, q, ss, lo, size, shifts, u, v);
        CmpByWrap(b, u, v, i, j, n);
      }
    }
  }

  lemma WrapOnce(i: nat, n: nat)
    requires i < 2 * n
    ensures Wrap(i, n) == if i < n then i else i - n
    ensures Wrap(Wrap(i, n), n) == Wrap(i, n)
  {
  }

  /** Step 3: cache the order of the big bucket ss in quadrant, scaled down to 16 bits. */
  method UpdateQuadrants(ptr: array<int>, quadrant: array<int>, ftab: array<int>, nblock: nat, ss: int,
                         ghost b: seq<int>, ghost st: seq<int>, ghost fl: seq<bool>)
    requires ptr != quadrant && ftab != quadrant && nblock == |b| == ptr.Length && 0 <= ss < 256
    requires Buckets(b, st, ptr[..], fl) && Words(st, fl, ftab[..]) && QuadrantKept(b, quadrant[..])
    requires forall k | ss * 256 <= k < ss * 256 + 256 :: fl[k]
    modifies quadrant
    ensures QuadrantKept(b, quadrant[..]) && Cached(b, st, ptr[..], quadrant[..], ss)
  {
    hide *;
    ghost var s, q0 := ptr[..], quadrant[..];
    BucketsSized(b, st, s, fl);
    WordsAt(st, fl, ftab[..], ss * 256);
    WordsAt(st, fl, ftab[..], ss * 256 + 256);
    StartsOrder(b, st, ss * 256, ss * 256 + 256);
    var bbStart := Clear(ftab[ss * 256]);
    var bbSize := Clear(ftab[ss * 256 + 256]) - bbStart;
    assert bbStart == st[ss * 256] && bbSize == st[ss * 256 + 256] - st[ss * 256];
    var shifts := 0;
    while Halved(bbSize, shifts) > 65534
      invariant 0 <= shifts <= 4 && ptr[..] == s && quadrant[..] == q0 && (shifts > 0 ==> bbSize > 65534)
      decreases 4 - shifts
    {
      ShiftBound(bbSize, bbSize, shifts);
      if shifts == 0 {
        Unshifted(bbSize);
      }
      shifts := shifts + 1;
    }
    CachingStart(b, st, s, fl, q0, ss, shifts);
    var j := bbSize - 1;
    while j >= 0
      invariant -1 <= j < bbSize && ptr[..] == s
      invariant Caching(b, s, q0, quadrant[..], ss, bbStart, bbSize, shifts, j + 1)
    {
      ghost var q := quadrant[..];
      ShiftBound(j, bbSize, shifts);
      var qVal := Halved(j, shifts);
      CachingStep(b, s, q0, q, ss, bbStart, bbSize, shifts, j, qVal);
      OvershootValue();
      var a2update := ptr[bbStart + j];
      quadrant[a2update] := qVal;
      if a2update < OVERSHOOT {
        quadrant[a2update + nblock] := qVal;
      }
      assert quadrant[..] == if a2update < OVERSHOOT then q[a2update := qVal][a2update + nblock := qVal]
                             else q[a2update := qVal];
      j := j - 1;
    }
    // AssertH 1002
    assert bbSize > 0 ==> Halved(bbSize - 1, shifts) <= 65535 by {
      if bbSize > 0 {
        ShiftBound(bbSize - 1, bbSize, shifts);
      }
    }
    KeptSound(b, q0);
    CachingEnd(b, st, s, fl, q0, quadrant[..], ss, bbStart, bbSize, shifts);
    CachedBy(b, st, s, q0, quadrant[..], ss, shifts);
  }

  lemma Unshifted(n: nat)
    ensures Halved(n, 0) == n
  {
  }

  lemma CachedBy(b: seq<int>, st: seq<int>, s: seq<int>, q0: seq<int>, q: seq<int>, ss: int, shifts: nat)
    requires |st| == 65537 && 0 <= ss < 256 && QuadrantSound(b, q0)
    requires Caching(b, s, q0, q, ss, st[ss * 256], st[ss * 256 + 256] - st[ss * 256], shifts, 0)
    requires shifts > 0 ==> st[ss * 256 + 256] - st[ss * 256] > 65534
    ensures Cached(b, st, s, q, ss)
  {
    hide Caching, QuadrantSound;
    assert CachedFrom(b, st, s, q0, q, ss, shifts);
  }

  lemma OvershootValue()
    ensures OVERSHOOT == 34
  {
  }

  lemma KeptSound(b: seq<int>, q: seq<int>)
    requires QuadrantKept(b, q)
    ensures QuadrantSound(b, q) && |q| == |b| + OVERSHOOT
  {
    hide QuadrantPair;
  }

  // ---------- the source's own account of quadrant ----------

  /** What the comment in mainSort claims for character ss: a smaller value belongs to a strictly smaller rotation. */
  ghost predicate StrictlyCached(b: seq<int>, q: seq<int>, ss: int) {
    && 0 < |b| <= |q|
    && forall i, j | 0 <= i < |b| && 0 <= j < |b| && b[i] == ss && b[j] == ss && q[i] < q[j] :: Cmp(b, i, j, |b|) < 0
  }

  /** No two rotations that start with ss read the same. */
  ghost predicate NoTies(b: seq<int>, ss: int) {
    forall i, j | 0 <= i < j < |b| && b[i] == ss && b[j] == ss :: Cmp(b, i, j, |b|) != 0
  }

  lemma RowCached(b: seq<int>, st: seq<int>, s: seq<int>, fl: seq<bool>, q0: seq<int>, q: seq<int>,
                  ss: int, lo: int, size: int, shifts: nat, i: nat) returns (x: int)
    requires Buckets(b, st, s, fl) && 0 <= ss < 256 && lo == st[ss * 256] && lo + size == st[ss * 256 + 256]
    requires Caching(b, s, q0, q, ss, lo, size, shifts, 0) && i < |b| && b[i] == ss
    ensures 0 <= lo <= x < lo + size <= |s| && s[x] == i && |q| >= |b| && q[i] == Halved(x - lo, shifts)
  {
    hide Below, Pair, Pairs, Rank, InBucketOrder, Cmp;
    PermutationIsSurjective(s);
    assert i in s;
    x :| 0 <= x < |b| && s[x] == i;
    RowOfBigBucket(b, st, s, ss, x);
    assert q[s[x]] == Halved(x - lo, shifts);
  }

  ghost predicate Tied(b: seq<int>, i: int, j: int) {
    0 <= i < |b| && 0 <= j < |b| && Cmp(b, i, j, |b|) == 0
  }

  /**
   * Rows lo to lo + size of the order are divided into groups of 2^shifts, the last one shorter; no two equal rotations
   * among them are in different groups.
   */
  ghost predicate TiesTogether(b: seq<int>, s: seq<int>, lo: int, size: int, shifts: nat)
    requires 0 <= lo && lo + size <= |s|
  {
    forall x, y | lo <= x < y < lo + size && Tied(b, s[x], s[y]) :: Halved(x - lo, shifts) == Halved(y - lo, shifts)
  }

  lemma RowsIn(b: seq<int>, s: seq<int>, q0: seq<int>, q: seq<int>, ss: int, lo: int, size: int, shifts: nat)
    requires Caching(b, s, q0, q, ss, lo, size, shifts, 0)
    ensures 0 < |b| <= |q| && 0 <= lo && 0 <= size && lo + size <= |s| == |b|
    ensures forall x | lo <= x < lo + size :: 0 <= s[x] < |b| && b[s[x]] == ss && q[s[x]] == Halved(x - lo, shifts)
  {
  }

  /**
   * However far its ranks are scaled down, the claim holds of a cached bucket exactly when the scaling puts every class
   * of equal rotations of the bucket into one group of ranks.
   */
  lemma StrictExactly(b: seq<int>, st: seq<int>, s: seq<int>, fl: seq<bool>, q0: seq<int>, q: seq<int>,
                      ss: int, lo: int, size: int, shifts: nat)
    requires Buckets(b, st, s, fl) && 0 <= ss < 256 && forall k | ss * 256 <= k < ss * 256 + 256 :: fl[k]
    requires lo == st[ss * 256] && lo + size == st[ss * 256 + 256] && QuadrantSound(b, q0)
    requires Caching(b, s, q0, q, ss, lo, size, shifts, 0)
    ensures 0 < |b| <= |q| && 0 <= lo && lo + size <= |s|
    ensures StrictlyCached(b, q, ss) <==> TiesTogether(b, s, lo, size, shifts)
  {
    hide Below, Pair, Pairs, Rank, Cmp, Buckets, Caching, Halved;
    RowsIn(b, s, q0, q, ss, lo, size, shifts);
    if StrictlyCached(b, q, ss) {
      forall x, y | lo <= x < y < lo + size && Tied(b, s[x], s[y])
        ensures Halved(x - lo, shifts) == Halved(y - lo, shifts)
      {
        CmpOpposite(b, s[x], s[y], |b|);
        assert !(q[s[x]] < q[s[y]]) && !(q[s[y]] < q[s[x]]);
      }
    }
    if TiesTogether(b, s, lo, size, shifts) {
      forall i, j | 0 <= i < |b| && 0 <= j < |b| && b[i] == ss && b[j] == ss && q[i] < q[j]
        ensures Cmp(b, i, j, |b|) < 0
      {
        CachedPair(b, st, s, fl, q0, q, ss, lo, size, shifts, i, j);
        var x := RowCached(b, st, s, fl, q0, q, ss, lo, size, shifts, i);
        var y := RowCached(b, st, s, fl, q0, q, ss, lo, size, shifts, j);
        CmpOpposite(b, i, j, |b|);
        assert !Tied(b, s[x], s[y]) || !Tied(b, s[y], s[x]);
      }
    }
  }

  /** So it holds of every bucket without equal rotations. */
  lemma StrictWithoutTies(b: seq<int>, st: seq<int>, s: seq<int>, fl: seq<bool>, q0: seq<int>, q: seq<int>,
                          ss: int, lo: int, size: int, shifts: nat)
    requires Buckets(b, st, s, fl) && 0 <= ss < 256 && forall k | ss * 256 <= k < ss * 256 + 256 :: fl[k]
    requires lo == st[ss * 256] && lo + size == st[ss * 256 + 256] && QuadrantSound(b, q0)
    requires Caching(b, s, q0, q, ss, lo, size, shifts, 0) && NoTies(b, ss)
    ensures StrictlyCached(b, q, ss)
  {
    StrictExactly(b, st, s, fl, q0, q, ss, lo, size, shifts);
    RowsIn(b, s, q0, q, ss, lo, size, shifts);
    RowsDiffer(b, s, q0, q, ss, lo, size, shifts);
    hide Below, Pair, Pairs, Rank, Cmp, Buckets, Caching, Halved, StrictlyCached;
    forall x, y | lo <= x < y < lo + size
      ensures !Tied(b, s[x], s[y])
    {
      CmpOpposite(b, s[x], s[y], |b|);
      assert s[x] < s[y] || s[y] < s[x];
    }
  }

  lemma RowsDiffer(b: seq<int>, s: seq<int>, q0: seq<int>, q: seq<int>, ss: int, lo: int, size: int, shifts: nat)
    requires Caching(b, s, q0, q, ss, lo, size, shifts, 0)
    ensures 0 <= lo && lo + size <= |s| && forall x, y | lo <= x < y < lo + size :: s[x] != s[y]
  {
  }

  lemma RowsApart(b: seq<int>, s: seq<int>, lo: int, size: int, x: int, y: int)
    requires 0 <= lo && lo + size <= |s| && TiesTogether(b, s, lo, size, 0)
    requires lo <= x < lo + size && lo <= y < lo + size && x != y
    requires 0 <= s[x] < |b| && 0 <= s[y] < |b|
    ensures Cmp(b, s[x], s[y], |b|) != 0
  {
    hide Cmp;
    CmpOpposite(b, s[x], s[y], |b|);
    assert Halved(x - lo, 0) != Halved(y - lo, 0);
    assert x < y ==> !Tied(b, s[x], s[y]);
    assert y < x ==> !Tied(b, s[y], s[x]);
  }

  /** Without scaling each row is a group of its own, so it holds of no other bucket. */
  lemma StrictExactlyWithoutTies(b: seq<int>, st: seq<int>, s: seq<int>, fl: seq<bool>, q0: seq<int>, q: seq<int>,
                                 ss: int, lo: int, size: int)
    requires Buckets(b, st, s, fl) && 0 <= ss < 256 && forall k | ss * 256 <= k < ss * 256 + 256 :: fl[k]
    requires lo == st[ss * 256] && lo + size == st[ss * 256 + 256] && QuadrantSound(b, q0)
    requires Caching(b, s, q0, q, ss, lo, size, 0, 0)
    ensures StrictlyCached(b, q, ss) <==> NoTies(b, ss)
  {
    hide Below, Pair, Pairs, Rank, Cmp, Buckets, Caching;
    StrictExactly(b, st, s, fl, q0, q, ss, lo, size, 0);
    if TiesTogether(b, s, lo, size, 0) {
      forall i, j | 0 <= i < j < |b| && b[i] == ss && b[j] == ss
        ensures Cmp(b, i, j, |b|) != 0
      {
        var x := RowCached(b, st, s, fl, q0, q, ss, lo, size, 0, i);
        var y := RowCached(b, st, s, fl, q0, q, ss, lo, size, 0, j);
        RowsApart(b, s, lo, size, x, y);
      }
    }
    if NoTies(b, ss) {
      StrictWithoutTies(b, st, s, fl, q0, q, ss, lo, size, 0);
    }
  }

  // ---------- the main loop ----------

  /** What every round over a big bucket keeps. */
  ghost predicate Sorting(b: seq<int>, st: seq<int>, fl: seq<bool>, s: seq<int>, ft: seq<int>, ext: seq<int>,
                          q: seq<int>, done: seq<bool>) {
    && Buckets(b, st, s, fl) && Words(st, fl, ft) && Extended(b, ext) && QuadrantKept(b, q) && DoneFlagged(done, fl)
  }

  lemma SortingParts(b: seq<int>, st: seq<int>, fl: seq<bool>, s: seq<int>, ft: seq<int>, ext: seq<int>,
                     q: seq<int>, done: seq<bool>)
    requires Sorting(b, st, fl, s, ft, ext, q, done)
    ensures Buckets(b, st, s, fl) && Words(st, fl, ft) && Extended(b, ext) && QuadrantKept(b, q)
    ensures DoneFlagged(done, fl) && |done| == 256 && QuadrantSound(b, q)
    ensures |s| == |b| && |ft| == 65537 && |ext| == |q| == |b| + 34
  {
    hide Buckets, Words, QuadrantPair;
    BucketsSized(b, st, s, fl);
    WordsAt(st, fl, ft, 0);
  }

  lemma RowDone(fl: seq<bool>, fl2: seq<bool>, done: seq<bool>, ss: int)
    requires RowFlags(fl, fl2, ss, 256) && DoneFlagged(done, fl) && 0 <= ss < 256
    ensures RowFlagged(fl2, ss) && DoneFlagged(done, fl2)
  {
  }

  lemma ColumnDone(fl: seq<bool>, fl2: seq<bool>, done: seq<bool>, ss: int)
    requires ColumnFlags(fl, fl2, ss, 256) && RowFlagged(fl, ss) && DoneFlagged(done, fl)
    ensures |fl2| == 65537 && |done| == 256 && DoneFlagged(done[ss := true], fl2)
    ensures forall k | ss * 256 <= k < ss * 256 + 256 :: fl2[k]
  {
  }

  /** One big bucket: sort its rows, copy its order to the column, cache it. */
  method SortOneBigBucket(ptr: array<int>, block: array<int>, quadrant: array<int>, ftab: array<int>,
                          bigDone: array<bool>, nblock: nat, ss: int, last: bool, budget: int,
                          ghost b: seq<int>, ghost st: seq<int>, ghost fl: seq<bool>)
    returns (budget': int, ghost fl2: seq<bool>)
    requires ptr != block && ptr != quadrant && ptr != ftab && ftab != block && ftab != quadrant && block != quadrant
    requires nblock == |b| == ptr.Length && 0 <= ss < 256 && bigDone.Length == 256 && budget >= 0
    requires !bigDone[ss] && Sorting(b, st, fl, ptr[..], ftab[..], block[..], quadrant[..], bigDone[..])
    modifies ptr, ftab, quadrant, bigDone
    ensures budget' <= budget
    ensures forall jj | OnePair(st, ss, jj) :: budget' >= budget - MostWork(nblock)
    ensures NoPairs(st, ss) ==> budget' == budget
    ensures bigDone[..] == old(bigDone[..])[ss := true] || budget' < 0
    ensures budget' >= 0 && !last ==> Cached(b, st, ptr[..], quadrant[..], ss)
    ensures budget' >= 0 ==> Sorting(b, st, fl2, ptr[..], ftab[..], block[..], quadrant[..], bigDone[..])
  {
    hide *;
    ghost var ext, q, done := block[..], quadrant[..], bigDone[..];
    SortingParts(b, st, fl, ptr[..], ftab[..], ext, q, done);
    budget', fl2 := SortBigBucket(ptr, block, quadrant, ftab, nblock, ss, budget, b, st, fl);
    if budget' < 0 {
      return;
    }
    RowDone(fl, fl2, done, ss);
    // AssertH 1006
    assert !bigDone[ss];
    assert block[..] == ext && quadrant[..] == q && bigDone[..] == done;
    ghost var row := fl2;
    fl2 := CopyBuckets(ptr, block, ftab, bigDone, nblock, ss, b, st, row);
    ColumnDone(row, fl2, done, ss);
    bigDone[ss] := true;
    assert bigDone[..] == done[ss := true] && quadrant[..] == q && block[..] == ext;
    if !last {
      UpdateQuadrants(ptr, quadrant, ftab, nblock, ss, b, st, fl2);
    }
    SortingFrom(b, st, fl2, ptr[..], ftab[..], ext, quadrant[..], bigDone[..]);
  }

  lemma SortingFrom(b: seq<int>, st: seq<int>, fl: seq<bool>, s: seq<int>, ft: seq<int>, ext: seq<int>,
                    q: seq<int>, done: seq<bool>)
    requires Buckets(b, st, s, fl) && Words(st, fl, ft) && Extended(b, ext) && QuadrantKept(b, q)
    requires DoneFlagged(done, fl)
    ensures Sorting(b, st, fl, s, ft, ext, q, done)
  {
  }

  /** The big buckets seen to are those of the first i characters in the running order. */
  ghost predicate DoneInOrder(order: seq<int>, done: seq<bool>, i: int) {
    && |order| == 256 && |done| == 256 && IsPermutation(order)
    && forall x | 0 <= x < 256 :: done[order[x]] <==> x < i
  }

  lemma DoneNext(order: seq<int>, done: seq<bool>, i: int)
    requires DoneInOrder(order, done, i) && 0 <= i < 256
    ensures |order| == |done| == 256 && 0 <= order[i] < 256 && !done[order[i]]
    ensures DoneInOrder(order, done[order[i] := true], i + 1)
  {
    var v, done' := order[i], done[order[i] := true];
    forall x | 0 <= x < 256
      ensures done'[order[x]] <==> x < i + 1
    {
      if x != i {
        assert order[x] != v;
      }
    }
  }

  /** When all are done, all buckets are flagged, and the row order sorts the rotations. */
  lemma AllDone(b: seq<int>, st: seq<int>, fl: seq<bool>, s: seq<int>, order: seq<int>, done: seq<bool>)
    requires Buckets(b, st, s, fl) && DoneFlagged(done, fl) && DoneInOrder(order, done, 256)
    ensures SortsRotations(b, s)
  {
    hide Below, Pair, Rank, Cmp;
    AllFlagged(fl, order, done);
    forall x, y | 0 <= x < y < |s|
      ensures Precedes(b, s[x], s[y])
    {
      assert InBucketOrder(b, s, fl, x, y);
      BucketOrder(Pairs(b), s, x, y);
      if Pair(b, s[x]) < Pair(b, s[y]) {
        PairRank(b, s[x], s[y]);
      }
      RankOrder(b, s[x], s[y]);
    }
  }

  lemma AllFlagged(fl: seq<bool>, order: seq<int>, done: seq<bool>)
    requires DoneFlagged(done, fl) && DoneInOrder(order, done, 256)
    ensures forall k | 0 <= k < 65536 :: fl[k]
  {
    PermutationIsSurjective(order);
    forall c | 0 <= c < 256
      ensures done[c]
    {
      assert c in order;
      var x :| 0 <= x < 256 && order[x] == c;
    }
  }

  /**
   * The first n rounds of the main loop: the big buckets one after the other, smallest first. If only the last of them
   * holds a small bucket of more than one row, and that has two, one comparison is all the work there is.
   */
  method SortBigBuckets(ptr: array<int>, block: array<int>, quadrant: array<int>, ftab: array<int>,
                        runningOrder: array<int>, bigDone: array<bool>, nblock: nat, n: nat, budget: int,
                        ghost b: seq<int>, ghost st: seq<int>, ghost fl0: seq<bool>)
    returns (budget': int, ghost fl: seq<bool>)
    requires ptr != block && ptr != quadrant && ptr != ftab && ftab != block && ftab != quadrant && block != quadrant
    requires runningOrder != ptr && runningOrder != ftab && runningOrder != quadrant
    requires nblock == |b| == ptr.Length && bigDone.Length == runningOrder.Length == 256 && budget >= 0 && n <= 256
    requires Sorting(b, st, fl0, ptr[..], ftab[..], block[..], quadrant[..], bigDone[..])
    requires DoneInOrder(runningOrder[..], bigDone[..], 0)
    modifies ptr, ftab, quadrant, bigDone
    ensures budget' <= budget && runningOrder[..] == old(runningOrder[..])
    ensures budget' >= 0 ==> Sorting(b, st, fl, ptr[..], ftab[..], block[..], quadrant[..], bigDone[..])
    ensures budget' >= 0 ==> DoneInOrder(runningOrder[..], bigDone[..], n)
    ensures budget' >= 0 && 0 < n < 256 ==> Cached(b, st, ptr[..], quadrant[..], runningOrder[n - 1])
    ensures PairLast(st, runningOrder[..], n) ==> budget' >= budget - MostWork(nblock)
  {
    hide *;
    fl := fl0;
    ghost var order, ext := runningOrder[..], block[..];
    budget' := budget;
    for i := 0 to n
      invariant 0 <= budget' <= budget
      invariant runningOrder[..] == order && block[..] == ext
      invariant Sorting(b, st, fl, ptr[..], ftab[..], ext, quadrant[..], bigDone[..])
      invariant DoneInOrder(order, bigDone[..], i)
      invariant 0 < i < 256 ==> Cached(b, st, ptr[..], quadrant[..], order[i - 1])
      invariant PairLast(st, order, n) ==> budget' >= budget - (if i < n then 0 else MostWork(nblock))
    {
      ghost var done, before := bigDone[..], budget';
      DoneNext(order, done, i);
      var ss := runningOrder[i];
      assert ss == order[i] && !bigDone[ss];
      budget', fl := SortOneBigBucket(ptr, block, quadrant, ftab, bigDone, nblock, ss, i == 255, budget', b, st, fl);
      PairsLater(st, order, i, n, before, budget', MostWork(nblock));
      if budget' < 0 {
        return;
      }
      assert bigDone[..] == done[order[i] := true];
    }
  }

  /** Of the first n big buckets only the last holds a pair to be sorted, and but one. */
  ghost predicate PairLast(st: seq<int>, order: seq<int>, n: nat) {
    && 0 < n <= |order| && (forall x | 0 <= x < n - 1 :: NoPairs(st, order[x]))
    && HasPair(st, order[n - 1])
  }

  ghost predicate HasPair(st: seq<int>, ss: int) {
    exists jj :: OnePair(st, ss, jj)
  }

  lemma PairsLater(st: seq<int>, order: seq<int>, i: nat, n: nat, before: int, after: int, most: nat)
    requires after <= before && i <= |order|
    requires i < |order| ==> (forall jj | OnePair(st, order[i], jj) :: after >= before - most)
    requires i < |order| && NoPairs(st, order[i]) ==> after == before
    ensures PairLast(st, order, n) && i < n ==> after >= before - (if i + 1 < n then 0 else most)
  {
    hide OnePair, NoPairs;
    if PairLast(st, order, n) && i + 1 == n {
      assert HasPair(st, order[i]);
      var jj :| OnePair(st, order[i], jj);
    }
  }

  lemma SortingStart(b: seq<int>, st: seq<int>, s: seq<int>, ext: seq<int>, q: seq<int>, order: seq<int>)
    returns (fl: seq<bool>)
    requires OVERSHOOT < |b| <= 900000 && Keys(b, 256) && Bucketed(Pairs(b), s) && |st| == 65537
    requires forall k | 0 <= k < 65537 :: st[k] == Below(Pairs(b), |b|, k)
    requires Extended(b, ext) && |q| == |b| + OVERSHOOT && forall i | 0 <= i < |q| :: q[i] == 0
    requires |order| == 256 && IsPermutation(order)
    ensures Sorting(b, st, fl, s, st, ext, q, seq(256, _ => false)) && DoneInOrder(order, seq(256, _ => false), 0)
  {
    hide Below, Pair, Rank, Extended, Bucketed, Cmp;
    fl := seq(65537, _ => false);
    assert Starts(b, st);
    RowOfBucket(b, st, s, 0);
    forall x, y | 0 <= x < y < |s|
      ensures InBucketOrder(b, s, fl, x, y)
    {
      RowOfBucket(b, st, s, x);
      RowOfBucket(b, st, s, y);
    }
    assert Buckets(b, st, s, fl);
    forall k | 0 <= k < 65537
      ensures WordOk(st, fl, st, k)
    {
      StartsOrder(b, st, k, k);
    }
  }

  lemma HoldsBlock(b: seq<int>, block: seq<int>)
    requires |block| == |b| + OVERSHOOT && |b| > OVERSHOOT && Keys(b, 256)
    requires forall i | 0 <= i < |b| :: block[i] == b[i]
    ensures Holds(b, block)
  {
  }

  /** Everything before the main loop: pair counts, buckets, the running order. */
  method StartSort(ptr: array<int>, block: array<int>, quadrant: array<int>, ftab: array<int>, nblock: nat)
    returns (runningOrder: array<int>, bigDone: array<bool>, ghost fl: seq<bool>)
    requires ptr != block && ptr != quadrant && ptr != ftab && ftab != block && ftab != quadrant && block != quadrant
    requires OVERSHOOT < nblock <= 900000 && ptr.Length == nblock && ftab.Length == 65537
    requires block.Length == quadrant.Length == nblock + OVERSHOOT
    requires forall i | 0 <= i < nblock :: 0 <= block[i] < 256
    modifies ptr, block, quadrant, ftab
    ensures fresh(runningOrder) && fresh(bigDone) && runningOrder.Length == bigDone.Length == 256
    ensures Extended(old(block[..nblock]), block[..])
    ensures Sorting(old(block[..nblock]), ftab[..], fl, ptr[..], ftab[..], block[..], quadrant[..], bigDone[..])
    ensures DoneInOrder(runningOrder[..], bigDone[..], 0)
    ensures Ranked(runningOrder[..], Sizes(ftab[..])) && Ordered(runningOrder[..], Sizes(ftab[..]), 0, 255)
  {
    hide *;
    OvershootValue();
    ghost var b := block[..nblock];
    ByteKeys(b);
    HoldsBlock(b, block[..]);
    CountPairs(block, quadrant, ftab, nblock, b);
    ExtendBlock(block, quadrant, nblock, b);
    ghost var ext := block[..];
    PairsKeys(b);
    AccumulatePairs(ftab, Pairs(b));
    PlacePairs(ptr, block, ftab, nblock, b);
    runningOrder := RunningOrder(ftab);
    bigDone := new bool[256](_ => false);
    assert bigDone[..] == seq(256, _ => false);
    fl := SortingStart(b, ftab[..], ptr[..], ext, quadrant[..], runningOrder[..]);
  }

  /**
   * mainSort. The block is left as it was; unless the work budget ran out the row order sorts its rotations.
   */
  method MainSort(ptr: array<int>, block: array<int>, quadrant: array<int>, ftab: array<int>, nblock: nat, budget: int)
    returns (budget': int)
    requires ptr != block && ptr != quadrant && ptr != ftab && ftab != block && ftab != quadrant && block != quadrant
    requires OVERSHOOT < nblock <= 900000 && ptr.Length == nblock && ftab.Length == 65537 && budget >= 0
    requires block.Length == quadrant.Length == nblock + OVERSHOOT
    requires forall i | 0 <= i < nblock :: 0 <= block[i] < 256
    modifies ptr, block, quadrant, ftab
    ensures block[..nblock] == old(block[..nblock])
    ensures budget' <= budget
    ensures budget' >= 0 ==> SortsRotations(block[..nblock], ptr[..])
  {
    hide *;
    OvershootValue();
    ghost var b := block[..nblock];
    ghost var fl;
    var runningOrder, bigDone;
    runningOrder, bigDone, fl := StartSort(ptr, block, quadrant, ftab, nblock);
    ghost var st, ext := ftab[..], block[..];
    budget', fl := SortBigBuckets(ptr, block, quadrant, ftab, runningOrder, bigDone, nblock, 256, budget, b, st, fl);
    assert block[..] == ext;
    ExtendedPrefix(b, ext);
    if budget' >= 0 {
      SortingParts(b, st, fl, ptr[..], ftab[..], ext, quadrant[..], bigDone[..]);
      AllDone(b, st, fl, ptr[..], runningOrder[..], bigDone[..]);
    }
  }

  lemma ByteKeys(b: seq<int>)
    requires forall i | 0 <= i < |b| :: 0 <= b[i] < 256
    ensures Keys(b, 256)
  {
  }

  lemma ExtendedPrefix(b: seq<int>, ext: seq<int>)
    requires Extended(b, ext)
    ensures |ext| == |b| + OVERSHOOT && ext[..|b|] == b
  {
  }
}
