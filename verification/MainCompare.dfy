/** mainGtU and mainSimpleSort: comparing rotations with the help of the cached order in quadrant. */
module MainCompare {
  import opened Permutations
  import opened Rotations
  import opened SortStack

  const OVERSHOOT := 34  // BZ_N_OVERSHOOT: BZ_N_RADIX + BZ_N_QSORT + BZ_N_SHELL + 2

  /** The block with its first bytes repeated past the end. */
  ghost predicate Extended(b: seq<int>, ext: seq<int>) {
    && |b| > 0
    && |ext| == |b| + OVERSHOOT
    && forall i | 0 <= i < |ext| :: ext[i] == At(b, i)
  }

  /**
   * What quadrant values mean: among positions with the same character a smaller value never belongs to a larger
   * rotation. (Equal rotations of a periodic block may carry different values.)
   */
  ghost predicate QuadrantSound(b: seq<int>, q: seq<int>) {
    && |b| > 0
    && |q| == |b| + OVERSHOOT
    && forall i, j | 0 <= i < |q| && 0 <= j < |q| :: QuadrantPair(b, q, i, j)
  }

  ghost predicate QuadrantPair(b: seq<int>, q: seq<int>, i: nat, j: nat)
    requires |b| > 0 && i < |q| && j < |q|
  {
    At(b, i) == At(b, j) && q[i] < q[j] ==> Cmp(b, i, j, |b|) <= 0
  }

  lemma {:induction false} WrapNext(k: nat, n: nat)
    requires n > 0
    ensures Wrap(k + 1, n) == if Wrap(k, n) + 1 == n then 0 else Wrap(k, n) + 1
    decreases k
  {
    if k >= n {
      WrapNext(k - n, n);
    }
  }

  lemma CmpByWrap(b: seq<int>, i: nat, j: nat, i': nat, j': nat, h: nat)
    requires |b| > 0 && Wrap(i, |b|) == Wrap(i', |b|) && Wrap(j, |b|) == Wrap(j', |b|)
    ensures Cmp(b, i, j, h) == Cmp(b, i', j', h)
  {
    hide Cmp;
    CmpWrapped(b, i, j, h);
    CmpWrapped(b, i', j, h);
    CmpOpposite(b, i', j, h);
    CmpWrapped(b, j, i', h);
    CmpWrapped(b, j', i', h);
    CmpOpposite(b, i', j', h);
  }

  /** k characters from i1 and i2 agree, and the comparison has reached positions j1 and j2. */
  ghost predicate Agreed(b: seq<int>, i1: nat, i2: nat, j1: nat, j2: nat, k: nat) {
    && |b| > 0
    && Wrap(j1, |b|) == Wrap(i1 + k, |b|)
    && Wrap(j2, |b|) == Wrap(i2 + k, |b|)
    && Cmp(b, i1, i2, k) == 0
  }

  /** Whatever decides at the position reached decides the whole comparison. */
  lemma AgreedDecides(b: seq<int>, i1: nat, i2: nat, j1: nat, j2: nat, k: nat)
    requires Agreed(b, i1, i2, j1, j2, k)
    ensures Cmp(b, i1, i2, |b|) == Cmp(b, j1, j2, |b|)
  {
    hide Cmp, Wrap;
    CmpSplit(b, i1, i2, k, |b|);
    CmpByWrap(b, i1 + k, i2 + k, j1, j2, |b|);
    CmpDeep(b, i1, i2, k + |b|);
  }

  lemma AgreedStep(b: seq<int>, i1: nat, i2: nat, j1: nat, j2: nat, k: nat)
    requires Agreed(b, i1, i2, j1, j2, k)
    ensures At(b, j1) < At(b, j2) ==> Cmp(b, i1, i2, |b|) < 0
    ensures At(b, j1) > At(b, j2) ==> Cmp(b, i1, i2, |b|) > 0
    ensures At(b, j1) == At(b, j2) ==> Agreed(b, i1, i2, j1 + 1, j2 + 1, k + 1)
  {
    AgreedDecides(b, i1, i2, j1, j2, k);
    WrapNext(j1, |b|);
    WrapNext(j2, |b|);
    WrapNext(i1 + k, |b|);
    WrapNext(i2 + k, |b|);
    CmpSplit(b, i1, i2, k, 1);
    assert Cmp(b, i1 + k + 1, i2 + k + 1, 0) == 0;
  }

  lemma AgreedWrap(b: seq<int>, i1: nat, i2: nat, j1: nat, j2: nat, k: nat)
    requires Agreed(b, i1, i2, j1, j2, k)
    ensures j1 >= |b| ==> Agreed(b, i1, i2, j1 - |b|, j2, k)
    ensures j2 >= |b| ==> Agreed(b, i1, i2, j1, j2 - |b|, k)
  {
  }

  lemma AgreedAll(b: seq<int>, i1: nat, i2: nat, j1: nat, j2: nat, k: nat)
    requires Agreed(b, i1, i2, j1, j2, k) && k >= |b|
    ensures Cmp(b, i1, i2, |b|) == 0
  {
    CmpDeep(b, i1, i2, k);
  }

  /** The most one comparison can take from the budget. */
  function MostWork(nblock: nat): nat {
    nblock / 8 + 2
  }

  /**
   * mainGtU. The first twelve comparisons look at the block alone, the rest also at quadrant; the source writes both
   * stretches out in full. Every index read stays below nblock + 34.
   */
  method MainGtU(i1: nat, i2: nat, block: array<int>, quadrant: array<int>, nblock: nat, budget: int,
                 ghost b: seq<int>)
    returns (gt: bool, budget': int)
    requires nblock == |b| > OVERSHOOT && i1 < nblock + 15 && i2 < nblock + 15
    requires Extended(b, block[..]) && QuadrantSound(b, quadrant[..])
    ensures gt ==> Cmp(b, i1, i2, nblock) >= 0
    ensures !gt ==> Cmp(b, i1, i2, nblock) <= 0
    ensures budget - MostWork(nblock) <= budget' <= budget
  {
    hide Cmp, Wrap, Agreed, At;
    budget' := budget;
    var j1: int, j2: int := i1, i2;
    ghost var k: nat := 0;
    AgreedStart(b, i1, i2);
    for step := 0 to 12
      invariant k == step && j1 == i1 + step && j2 == i2 + step
      invariant Agreed(b, i1, i2, j1, j2, k)
    {
      assert block[..][j1] == At(b, j1) && block[..][j2] == At(b, j2);
      AgreedStep(b, i1, i2, j1, j2, k);
      var c1, c2 := block[j1], block[j2];
      if c1 != c2 {
        return c1 > c2, budget';
      }
      j1, j2, k := j1 + 1, j2 + 1, k + 1;
    }
    var left := nblock + 8;
    while left >= 0
      invariant 0 <= j1 <= nblock + 26 && 0 <= j2 <= nblock + 26
      invariant k + left >= nblock + 20 && -8 <= left && left == nblock + 8 - 8 * (budget - budget') && budget' <= budget
      invariant Agreed(b, i1, i2, j1, j2, k)
      decreases left
    {
      var decided, g;
      decided, g := EightMore(j1, j2, block, quadrant, nblock, i1, i2, k, b);
      if decided {
        return g, budget';
      }
      j1, j2, k := j1 + 8, j2 + 8, k + 8;
      AgreedWrap(b, i1, i2, j1, j2, k);
      if j1 >= nblock {
        j1 := j1 - nblock;
      }
      AgreedWrap(b, i1, i2, j1, j2, k);
      if j2 >= nblock {
        j2 := j2 - nblock;
      }
      left := left - 8;
      budget' := budget' - 1;
    }
    AgreedAll(b, i1, i2, j1, j2, k);
    return false, budget';
  }

  lemma AgreedStart(b: seq<int>, i1: nat, i2: nat)
    requires |b| > 0
    ensures Agreed(b, i1, i2, i1, i2, 0)
  {
  }

  /** Eight comparisons of block and quadrant. */
  method EightMore(i1: nat, i2: nat, block: array<int>, quadrant: array<int>, nblock: nat,
                   ghost o1: nat, ghost o2: nat, ghost k: nat, ghost b: seq<int>)
    returns (decided: bool, gt: bool)
    requires nblock == |b| && i1 <= nblock + 26 && i2 <= nblock + 26
    requires Extended(b, block[..]) && QuadrantSound(b, quadrant[..])
    requires Agreed(b, o1, o2, i1, i2, k)
    ensures decided && gt ==> Cmp(b, o1, o2, nblock) >= 0
    ensures decided && !gt ==> Cmp(b, o1, o2, nblock) <= 0
    ensures !decided ==> Agreed(b, o1, o2, i1 + 8, i2 + 8, k + 8)
  {
    hide Cmp, Wrap, Agreed, At;
    for step := 0 to 8
      invariant Agreed(b, o1, o2, i1 + step, i2 + step, k + step)
    {
      var j1, j2 := i1 + step, i2 + step;
      assert block[..][j1] == At(b, j1) && block[..][j2] == At(b, j2);
      AgreedStep(b, o1, o2, j1, j2, k + step);
      AgreedDecides(b, o1, o2, j1, j2, k + step);
      if block[j1] != block[j2] {
        return true, block[j1] > block[j2];
      }
      CmpOpposite(b, j1, j2, nblock);
      assert QuadrantPair(b, quadrant[..], j1, j2) && QuadrantPair(b, quadrant[..], j2, j1);
      if quadrant[j1] != quadrant[j2] {
        return true, quadrant[j1] > quadrant[j2];
      }
    }
    return false, false;
  }

  // ---------- mainSimpleSort ----------

  /** The rotations' ranks as a key table. */
  ghost function Ranks(b: seq<int>): (r: seq<int>)
    requires |b| > 0
    ensures |r| == |b| && forall i | 0 <= i < |b| :: r[i] == Rank(b, i)
  {
    seq(|b|, i requires 0 <= i < |b| => Rank(b, i))
  }

  /** What stays fixed while the stretch lo..hi, whose rotations share d characters with rotation o, is sorted. */
  datatype Job = Job(b: seq<int>, ext: seq<int>, q: seq<int>, lo: int, hi: int, d: nat, o: nat)

  /** Everything a comparison within the stretch relies on. */
  ghost predicate Comparable(c: Job, s: seq<int>) {
    && |c.b| > OVERSHOOT
    && Extended(c.b, c.ext)
    && QuadrantSound(c.b, c.q)
    && 0 <= c.lo <= c.hi + 1 <= |s|
    && c.d <= 15
    && Ranked(s, Ranks(c.b))
    && forall x | c.lo <= x <= c.hi :: Cmp(c.b, c.o, s[x], c.d) == 0
  }

  /** Comparing past the shared characters compares the rotations. */
  lemma SharedDecides(b: seq<int>, i: nat, j: nat, d: nat)
    requires |b| > 0 && i < |b| && j < |b| && Cmp(b, i, j, d) == 0
    ensures Cmp(b, i + d, j + d, |b|) >= 0 ==> Rank(b, i) >= Rank(b, j)
    ensures Cmp(b, i + d, j + d, |b|) <= 0 ==> Rank(b, i) <= Rank(b, j)
  {
    hide Cmp;
    CmpSplit(b, i, j, d, |b|);
    CmpDeep(b, i, j, d + |b|);
    CmpOpposite(b, i, j, |b|);
    RankOrder(b, i, j);
    RankOrder(b, j, i);
  }

  /** The entry being inserted stands in the hole p; without it lo..i is in order, and what is above it is not smaller. */
  ghost predicate Sinking(s: seq<int>, rank: seq<int>, lo: int, p: int, i: int) {
    && Ranked(s, rank)
    && 0 <= lo <= p <= i < |s|
    && (forall x, y | lo <= x < y <= i && x != p && y != p :: InOrder(s, rank, x, y))
    && (forall y | p < y <= i :: InOrder(s, rank, p, y))
  }

  lemma SinkingStep(s: seq<int>, rank: seq<int>, lo: int, p: int, i: int)
    requires Sinking(s, rank, lo, p, i) && lo < p && rank[s[p - 1]] >= rank[s[p]]
    ensures Sinking(Swapped(s, p - 1, p), rank, lo, p - 1, i)
  {
    var s2 := Swapped(s, p - 1, p);
    SwappedAt(s, p - 1, p);
    forall x, y | lo <= x < y <= i && x != p - 1 && y != p - 1
      ensures InOrder(s2, rank, x, y)
    {
      assert InOrder(s, rank, if x == p then p - 1 else x, if y == p then p - 1 else y);
    }
    var p' := p - 1;
    forall y | p <= y <= i
      ensures InOrder(s2, rank, p', y)
    {
      if y > p {
        assert InOrder(s, rank, p, y);
      }
    }
  }

  lemma SinkingEnd(s: seq<int>, rank: seq<int>, lo: int, p: int, i: int)
    requires Sinking(s, rank, lo, p, i)
    requires lo < p ==> rank[s[p - 1]] <= rank[s[p]]
    ensures Ordered(s, rank, lo, i)
  {
    forall x, y | lo <= x < y <= i
      ensures InOrder(s, rank, x, y)
    {
      if y == p {
        assert x < p - 1 ==> InOrder(s, rank, x, p - 1);
      }
    }
  }

  lemma SinkingStart(s: seq<int>, rank: seq<int>, lo: int, i: int)
    requires Ranked(s, rank) && 0 <= lo <= i < |s| && Ordered(s, rank, lo, i - 1)
    ensures Sinking(s, rank, lo, i, i)
  {
  }

  /** One comparison of two entries of a stretch that shares d characters. */
  method EntryGtU(u: nat, v: nat, d: nat, block: array<int>, quadrant: array<int>, nblock: nat, budget: int,
                  ghost b: seq<int>)
    returns (gt: bool, budget': int)
    requires nblock == |b| > OVERSHOOT && u < nblock && v < nblock && d <= 15
    requires Extended(b, block[..]) && QuadrantSound(b, quadrant[..])
    requires Cmp(b, u, v, d) == 0
    ensures gt ==> Rank(b, u) >= Rank(b, v)
    ensures !gt ==> Rank(b, u) <= Rank(b, v)
    ensures budget - MostWork(nblock) <= budget' <= budget
  {
    hide *;
    gt, budget' := MainGtU(u + d, v + d, block, quadrant, nblock, budget, b);
    SharedDecides(b, u, v, d);
  }

  /** The stretch is in order up to row `to`. */
  ghost predicate OrderedUpTo(c: Job, s: seq<int>, to: int) {
    && |c.b| > 0
    && Ranked(s, Ranks(c.b))
    && 0 <= c.lo && to < |s|
    && Ordered(s, Ranks(c.b), c.lo, to)
  }

  /** The state of one insertion: s is the stretch with the entry of row i standing in the hole j. */
  ghost predicate Inserting(c: Job, s0: seq<int>, s: seq<int>, j: int, i: int, h: int) {
    && Rearranged(s0, s, c.lo, c.hi + 1)
    && Comparable(c, s)
    && c.lo <= j <= i <= c.hi
    && (h == 1 ==> Sinking(s, Ranks(c.b), c.lo, j, i))
  }

  lemma InsertingStart(c: Job, s: seq<int>, i: int, h: int)
    requires Comparable(c, s) && c.lo <= i <= c.hi
    requires h == 1 ==> OrderedUpTo(c, s, i - 1)
    ensures Inserting(c, s, s, i, i, h)
  {
    hide Cmp, Rank, Extended, QuadrantSound;
    if h == 1 {
      SinkingStart(s, Ranks(c.b), c.lo, i);
    }
  }

  /** What the comparison of the entries at x and y of the stretch may rely on. */
  lemma ComparableAt(c: Job, s: seq<int>, x: int, y: int)
    requires Comparable(c, s) && c.lo <= x <= c.hi && c.lo <= y <= c.hi
    ensures 0 <= c.lo && c.hi < |s| && c.d <= 15
    ensures |c.b| > OVERSHOOT && Extended(c.b, c.ext) && QuadrantSound(c.b, c.q)
    ensures 0 <= s[x] < |c.b| && 0 <= s[y] < |c.b| && Cmp(c.b, s[x], s[y], c.d) == 0
  {
    hide Cmp, Rank, Extended, QuadrantSound;
    CmpOpposite(c.b, c.o, s[x], c.d);
    CmpTransitive(c.b, s[x], c.o, s[y], c.d);
  }

  lemma InsertingComparable(c: Job, s0: seq<int>, s: seq<int>, j: int, i: int, h: int)
    requires Inserting(c, s0, s, j, i, h)
    ensures Comparable(c, s)
  {
  }

  lemma InsertingStep(c: Job, s0: seq<int>, s: seq<int>, j: int, i: int, h: int)
    requires Inserting(c, s0, s, j, i, h) && 0 < h && c.lo <= j - h
    requires 0 <= s[j] < |c.b| && 0 <= s[j - h] < |c.b| && Rank(c.b, s[j - h]) >= Rank(c.b, s[j])
    ensures Inserting(c, s0, Swapped(s, j - h, j), j - h, i, h)
  {
    hide Bag, Cmp, Rank, Extended, QuadrantSound;
    SwapRearranges(s, j - h, j, c.lo, c.hi + 1);
    if h == 1 {
      SinkingStep(s, Ranks(c.b), c.lo, j, i);
    }
  }

  lemma InsertingEnd(c: Job, s0: seq<int>, s: seq<int>, j: int, i: int, h: int)
    requires Inserting(c, s0, s, j, i, h)
    requires c.lo < j && h == 1 ==>
      0 <= s[j] < |c.b| && 0 <= s[j - 1] < |c.b| && Rank(c.b, s[j - 1]) <= Rank(c.b, s[j])
    ensures Rearranged(s0, s, c.lo, c.hi + 1) && Comparable(c, s)
    ensures h == 1 ==> OrderedUpTo(c, s, i)
  {
    hide Bag, Cmp, Rank, Extended, QuadrantSound;
    if h == 1 {
      SinkingEnd(s, Ranks(c.b), c.lo, j, i);
    }
  }

  /** The inner loop at stride h: sink ptr[i] to its place among ptr[lo..i]. */
  method SinkEntry(ptr: array<int>, block: array<int>, quadrant: array<int>, nblock: nat,
                   lo: int, d: nat, i: int, h: int, budget: int, ghost c: Job)
    returns (budget': int)
    requires ptr != block && ptr != quadrant
    requires nblock == |c.b| && c.ext == block[..] && c.q == quadrant[..] && c.lo == lo && c.d == d
    requires 0 < h && lo + h <= i <= c.hi && Comparable(c, ptr[..])
    requires h == 1 ==> OrderedUpTo(c, ptr[..], i - 1)
    modifies ptr
    ensures budget' <= budget && (i == lo + h ==> budget' >= budget - MostWork(nblock))
    ensures Rearranged(old(ptr[..]), ptr[..], lo, c.hi + 1) && Comparable(c, ptr[..])
    ensures h == 1 ==> OrderedUpTo(c, ptr[..], i)
  {
    hide *;
    ghost var s0 := ptr[..];
    budget' := budget;
    ComparableAt(c, s0, i, i);
    var v := ptr[i];
    var j := i;
    ghost var s := s0;
    InsertingStart(c, s, i, h);
    while true
      invariant lo + h <= j <= i && budget' <= budget && (i == lo + h ==> budget' == budget)
      invariant c.ext == block[..] && c.q == quadrant[..]
      invariant |s| == |s0| && s[j] == v && ptr[..] == s[j := ptr[j]]
      invariant Inserting(c, s0, s, j, i, h)
      decreases j
    {
      InsertingComparable(c, s0, s, j, i, h);
      ComparableAt(c, s, j - h, j);
      assert ptr[j - h] == s[j - h];
      var gt;
      gt, budget' := EntryGtU(ptr[j - h], v, d, block, quadrant, nblock, budget', c.b);
      if !gt {
        break;
      }
      InsertingStep(c, s0, s, j, i, h);
      SwappedAt(s, j - h, j);
      ptr[j] := ptr[j - h];
      s := Swapped(s, j - h, j);
      j := j - h;
      if j <= lo + h - 1 {
        break;
      }
    }
    InsertingEnd(c, s0, s, j, i, h);
    ptr[j] := v;
    assert ptr[..] == s;
  }

  /** Knuth's increments. */
  const INCREMENTS: seq<int> :=
    [1, 4, 13, 40, 121, 364, 1093, 3280, 9841, 29524, 88573, 265720, 797161, 2391484]

  /** One round of shell sort at stride h; given up when the budget runs out, which is looked at every third entry. */
  method SinkAll(ptr: array<int>, block: array<int>, quadrant: array<int>, nblock: nat,
                 lo: int, hi: int, d: nat, h: int, budget: int, ghost c: Job)
    returns (budget': int, abandoned: bool)
    requires ptr != block && ptr != quadrant
    requires nblock == |c.b| && c.ext == block[..] && c.q == quadrant[..] && c.lo == lo && c.hi == hi && c.d == d
    requires 0 < h && Comparable(c, ptr[..]) && lo <= hi
    modifies ptr
    ensures budget' <= budget
    ensures abandoned ==> budget' < 0
    ensures h == 1 && hi == lo + 1 ==> budget' >= budget - MostWork(nblock) && !abandoned
    ensures Rearranged(old(ptr[..]), ptr[..], lo, hi + 1) && Comparable(c, ptr[..])
    ensures h == 1 && !abandoned ==> OrderedUpTo(c, ptr[..], hi)
  {
    hide *;
    ghost var s0 := ptr[..];
    budget', abandoned := budget, false;
    ComparableAt(c, s0, lo, lo);
    RearrangedReflexive(s0, lo, hi + 1);
    OrderedSingle(c, s0);
    var i, copies := lo + h, 0;
    while i <= hi
      invariant lo + h <= i && (i <= hi + 1 || i == lo + h) && budget' <= budget
      invariant h == 1 && hi == lo + 1 ==>
        if i == lo + 1 then budget' == budget && copies == 0 else budget' >= budget - MostWork(nblock)
      invariant c.ext == block[..] && c.q == quadrant[..]
      invariant Rearranged(s0, ptr[..], lo, hi + 1) && Comparable(c, ptr[..])
      invariant h == 1 ==> i <= hi + 1 && OrderedUpTo(c, ptr[..], i - 1)
    {
      ghost var s := ptr[..];
      budget' := SinkEntry(ptr, block, quadrant, nblock, lo, d, i, h, budget', c);
      RearrangedTransitive(s0, s, ptr[..], lo, hi + 1);
      i := i + 1;
      copies := (copies + 1) % 3;
      if copies == 0 && budget' < 0 {
        abandoned := true;
        return;
      }
    }
  }

  lemma OrderedSingle(c: Job, s: seq<int>)
    requires Comparable(c, s) && c.lo <= c.hi
    ensures OrderedUpTo(c, s, c.lo)
  {
  }

  /** mainSimpleSort: shell sort, ending in plain insertion unless the budget runs out first. */
  method MainSimpleSort(ptr: array<int>, block: array<int>, quadrant: array<int>, nblock: nat,
                        lo: int, hi: int, d: nat, budget: int, ghost c: Job)
    returns (budget': int)
    requires ptr != block && ptr != quadrant && nblock <= 900000 && ptr.Length == nblock
    requires nblock == |c.b| && c.ext == block[..] && c.q == quadrant[..] && c.lo == lo && c.hi == hi && c.d == d
    requires Comparable(c, ptr[..])
    modifies ptr
    ensures budget' <= budget && (hi == lo + 1 ==> budget' >= budget - MostWork(nblock))
    ensures Rearranged(old(ptr[..]), ptr[..], lo, hi + 1) && Comparable(c, ptr[..])
    ensures budget' >= 0 ==> OrderedUpTo(c, ptr[..], hi)
  {
    ghost var s0 := ptr[..];
    budget' := budget;
    var bigN := hi - lo + 1;
    if bigN < 2 {
      return;
    }
    RearrangedReflexive(s0, lo, hi + 1);
    var hp := 0;
    while INCREMENTS[hp] < bigN
      invariant 0 <= hp < 14 && (hp == 0 || INCREMENTS[hp - 1] < bigN)
      decreases 14 - hp
    {
      hp := hp + 1;
    }
    hp := hp - 1;
    assert forall k | 0 <= k < 14 :: INCREMENTS[k] > 0;
    assert INCREMENTS[0] == 1;
    hide *;
    while hp >= 0
      invariant -1 <= hp < 14 && budget' <= budget
      invariant hi == lo + 1 ==> if hp == 0 then budget' == budget else hp == -1 && budget' >= budget - MostWork(nblock)
      invariant c.ext == block[..] && c.q == quadrant[..]
      invariant Rearranged(s0, ptr[..], lo, hi + 1) && Comparable(c, ptr[..])
      invariant hp == -1 ==> OrderedUpTo(c, ptr[..], hi)
    {
      ghost var s := ptr[..];
      var abandoned;
      budget', abandoned := SinkAll(ptr, block, quadrant, nblock, lo, hi, d, INCREMENTS[hp], budget', c);
      RearrangedTransitive(s0, s, ptr[..], lo, hi + 1);
      if abandoned {
        return;
      }
      hp := hp - 1;
    }
  }
}
