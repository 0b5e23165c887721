/** fallbackSort: prefix doubling over bucket-header bits. */
module FallbackSort {
  import opened Basics
  import opened Counting
  import opened FallbackQuickSort
  import opened Partitioning
  import opened Permutations
  import opened PrefixDoubling
  import opened Radix
  import opened Rotations
  import opened SortStack

  // ---------- the initial radix sort ----------

  method CountBytes(eclass8: array<int>, ftab: array<int>)
    requires Bytes(eclass8[..]) && ftab.Length == 257 && ftab != eclass8
    modifies ftab
    ensures forall c | 0 <= c < 256 :: ftab[c] == Count(eclass8[..], eclass8.Length, c)
    ensures ftab[256] == 0
  {
    ghost var b := eclass8[..];
    for i := 0 to 257
      invariant forall c | 0 <= c < i :: ftab[c] == 0
    {
      ftab[i] := 0;
    }
    for i := 0 to eclass8.Length
      invariant eclass8[..] == b && ftab[256] == 0
      invariant forall c | 0 <= c < 256 :: ftab[c] == Count(b, i, c)
    {
      assert eclass8[i] == b[i];
      ftab[eclass8[i]] := ftab[eclass8[i]] + 1;
    }
  }

  method Accumulate(ghost b: seq<int>, ftab: array<int>)
    requires Bytes(b) && ftab.Length == 257 && ftab[256] == 0
    requires forall c | 0 <= c < 256 :: ftab[c] == Count(b, |b|, c)
    modifies ftab
    ensures forall c | 0 <= c < 256 :: ftab[c] == Below(b, |b|, c + 1)
  {
    BelowNone(b, |b|, 0);
    BelowNext(b, |b|, 0);
    for i := 1 to 257
      invariant forall c | 0 <= c < i && c < 256 :: ftab[c] == Below(b, |b|, c + 1)
      invariant forall c | i <= c < 256 :: ftab[c] == Count(b, |b|, c)
    {
      BelowNext(b, |b|, i);
      ftab[i] := ftab[i] + ftab[i - 1];
    }
  }

  method InitialBuckets(fmap: array<int>, eclass8: array<int>) returns (ftab: array<int>, ftabCopy: array<int>)
    requires fmap != eclass8 && fmap.Length == eclass8.Length && Bytes(eclass8[..])
    modifies fmap
    ensures fresh(ftab) && fresh(ftabCopy) && ftab != ftabCopy && ftab.Length == 257 && ftabCopy.Length == 256
    ensures Bucketed(eclass8[..], fmap[..])
    ensures forall c | 0 <= c < 256 :: ftab[c] == Below(eclass8[..], eclass8.Length, c)
    ensures forall c | 0 <= c < 256 :: ftabCopy[c] == Count(eclass8[..], eclass8.Length, c)
  {
    ghost var b := eclass8[..];
    ftab := new int[257];
    ftabCopy := new int[256];
    CountBytes(eclass8, ftab);
    for i := 0 to 256
      invariant eclass8[..] == b && ftab[256] == 0
      invariant forall c | 0 <= c < 256 :: ftab[c] == Count(b, |b|, c)
      invariant forall c | 0 <= c < i :: ftabCopy[c] == Count(b, |b|, c)
    {
      ftabCopy[i] := ftab[i];
    }
    Accumulate(b, ftab);
    PlaceAll(fmap, eclass8, ftab);
  }

  /** Row i goes into its bucket. */
  method PlaceRow(fmap: array<int>, eclass8: array<int>, ftab: array<int>, i: nat)
    requires fmap != eclass8 && fmap != ftab && ftab != eclass8
    requires fmap.Length == eclass8.Length && Bytes(eclass8[..]) && ftab.Length == 257 && i < eclass8.Length
    requires Placed(eclass8[..], 256, fmap[..], ftab[..], 0, i)
    modifies fmap, ftab
    ensures Placed(eclass8[..], 256, fmap[..], ftab[..], 0, i + 1)
  {
    hide *;
    ghost var b, f, ft := eclass8[..], fmap[..], ftab[..];
    BytesAreKeys(b);
    PlaceStep(b, 256, f, ft, 0, i, i);
    var j := eclass8[i];
    assert j == b[i];
    var k := ftab[j] - 1;
    ftab[j] := k;
    fmap[k] := i;
    assert fmap[..] == f[k := i] && ftab[..] == ft[j := k] && eclass8[..] == b;
  }

  lemma BytesAreKeys(b: seq<int>)
    requires Bytes(b)
    ensures Keys(b, 256)
  {
  }

  method PlaceAll(fmap: array<int>, eclass8: array<int>, ftab: array<int>)
    requires fmap != eclass8 && fmap != ftab && ftab != eclass8
    requires fmap.Length == eclass8.Length && Bytes(eclass8[..]) && ftab.Length == 257
    requires forall c | 0 <= c < 256 :: ftab[c] == Below(eclass8[..], eclass8.Length, c + 1)
    modifies fmap, ftab
    ensures Bucketed(eclass8[..], fmap[..])
    ensures forall c | 0 <= c < 256 :: ftab[c] == Below(eclass8[..], eclass8.Length, c)
  {
    hide Placed, Bucketed, Below;
    ghost var b := eclass8[..];
    PlacedNone(b, 256, fmap[..], ftab[..], 0);
    for i := 0 to eclass8.Length
      invariant eclass8[..] == b && Placed(b, 256, fmap[..], ftab[..], 0, i)
    {
      PlaceRow(fmap, eclass8, ftab, i);
    }
    PlacedAll(b, 256, fmap[..], ftab[..]);
  }

  // ---------- header bits ----------

  lemma BucketBoundary(b: seq<int>, f: seq<int>, x: nat)
    requires Bytes(b) && Bucketed(b, f) && 0 < x < |b|
    ensures b[f[x - 1]] <= b[f[x]]
    ensures b[f[x - 1]] < b[f[x]] <==> IsStart(b, x, 256)
  {
    hide Below, Injective;
    var c0, c1 := b[f[x - 1]], b[f[x]];
    if c1 < c0 {
      BucketsApart(b, c1, c0);
    }
    if c0 < c1 {
      BucketsApart(b, c0, c1);
      assert Below(b, |b|, c1) == x;
    }
    if c :| 0 <= c < 256 && Below(b, |b|, c) == x {
      if c0 == c1 {
        if c <= c0 {
          BelowMonotone(b, |b|, c, c0);
        } else {
          BucketsApart(b, c0, c);
        }
      }
    }
  }

  /** Place x is where the bucket of some character below c starts. */
  ghost predicate IsStart(b: seq<int>, x: nat, c: nat) {
    exists d :: 0 <= d < c && Below(b, |b|, d) == x
  }

  lemma IsStartNext(b: seq<int>, c: nat)
    ensures forall x: nat :: IsStart(b, x, c + 1) <==> IsStart(b, x, c) || Below(b, |b|, c) == x
  {
    forall x: nat | IsStart(b, x, c) || Below(b, |b|, c) == x
      ensures IsStart(b, x, c + 1)
    {
      if IsStart(b, x, c) {
        var d :| 0 <= d < c && Below(b, |b|, d) == x;
        assert 0 <= d < c + 1;
      } else {
        assert Below(b, |b|, c) == x;
      }
    }
  }

  lemma CmpFirst(b: seq<int>, i: nat, j: nat)
    requires i < |b| && j < |b|
    ensures Cmp(b, i, j, 1) == 0 <==> b[i] == b[j]
    ensures Cmp(b, i, j, 1) <= 0 <==> b[i] <= b[j]
  {
    assert Cmp(b, i + 1, j + 1, 0) == 0;
  }

  /** Header bits at the bucket starts. */
  ghost predicate Started(b: seq<int>, bits: seq<bool>) {
    && |bits| > |b|
    && (forall x | 0 <= x < |b| :: bits[x] <==> IsStart(b, x, 256))
  }

  lemma InitiallyExact(b: seq<int>, f: seq<int>, bits: seq<bool>)
    requires |b| > 0 && Bytes(b) && Bucketed(b, f) && Started(b, bits) && Sentinels(bits, |b|)
    ensures Exact(b, f, bits, 1)
  {
    hide Below, Injective;
    BelowNone(b, |b|, 0);
    forall x, y | 0 <= x < y < |b|
      ensures Cmp(b, f[x], f[y], 1) <= 0
    {
      BucketOrder(b, f, x, y);
      CmpFirst(b, f[x], f[y]);
    }
    forall x | 0 < x < |b|
      ensures bits[x] <==> Cmp(b, f[x - 1], f[x], 1) != 0
    {
      BucketBoundary(b, f, x);
      CmpFirst(b, f[x - 1], f[x]);
    }
    assert Below(b, |b|, 0) == 0;
    assert IsStart(b, 0, 256);
  }

  method InitialHeaders(bhtab: array<bool>, ftab: array<int>, nblock: nat, ghost b: seq<int>)
    requires nblock + 96 <= bhtab.Length && ftab.Length == 257 && |b| == nblock
    requires forall c | 0 <= c < 256 :: ftab[c] == Below(b, nblock, c)
    modifies bhtab
    ensures Started(b, bhtab[..]) && Sentinels(bhtab[..], nblock)
  {
    hide Below;
    // the words 0 .. nBhtab-1 hold these bits at least
    var nBhtab := 2 + nblock / 32;
    for i := 0 to 32 * nBhtab
      invariant forall x | 0 <= x < i :: !bhtab[x]
    {
      bhtab[i] := false;
    }
    for i := 0 to 256
      invariant forall x | 0 <= x < nblock :: bhtab[x] <==> IsStart(b, x, i)
    {
      IsStartNext(b, i);
      hide IsStart;
      bhtab[ftab[i]] := true;
    }
    for i := 0 to 32
      invariant forall x | 0 <= x < nblock :: bhtab[x] <==> IsStart(b, x, 256)
      invariant i > 0 ==> bhtab[nblock] && !bhtab[nblock + 1]
    {
      bhtab[nblock + 2 * i] := true;
      bhtab[nblock + 2 * i + 1] := false;
    }
  }

  // ---------- one pass ----------

  method NumberClasses(fmap: array<int>, eclass: array<int>, bhtab: array<bool>, H: nat, ghost b: seq<int>)
    requires fmap != eclass && eclass.Length == fmap.Length && H <= |b|
    requires Exact(b, fmap[..], bhtab[..], H)
    modifies eclass
    ensures Classes(b, eclass[..], H)
  {
    ghost var f, bits := fmap[..], bhtab[..];
    var j := 0;
    for i := 0 to fmap.Length
      invariant fmap[..] == f && bhtab[..] == bits && 0 <= j
      invariant i > 0 ==> j == Head(bits, i - 1)
      invariant forall x | 0 <= x < i :: Numbered(f, bits, eclass[..], H, x)
    {
      hide Cmp, OrderedTo, HeadersExact, Injective;
      assert bhtab[i] == bits[i] && fmap[i] == f[i];
      if bhtab[i] {
        j := i;
      }
      var k := fmap[i] - H;
      if k < 0 {
        k := k + fmap.Length;
      }
      forall x | 0 <= x < i
        ensures Back(f[x], H, |f|) != k
      {
        NumberedElsewhere(f, H, x, i);
      }
      ghost var e := eclass[..];
      eclass[k] := j;
      forall x | 0 <= x <= i
        ensures Numbered(f, bits, eclass[..], H, x)
      {
        assert x < i ==> Numbered(f, bits, e, H, x);
      }
    }
    NumberingClasses(b, f, bits, eclass[..], H);
  }

  lemma NumberedElsewhere(f: seq<int>, h: nat, x: nat, i: nat)
    requires IsPermutation(f) && x < i < |f| && h <= |f|
    ensures Back(f[x], h, |f|) != Back(f[i], h, |f|)
  {
    assert f[x] != f[i];
    if Back(f[x], h, |f|) == Back(f[i], h, |f|) {
      BackInjective(f[x], f[i], h, |f|);
    }
  }

  /** The aligned group of 32 bits that holds bit k is all v. */
  predicate WordIs(bhtab: array<bool>, k: nat, v: bool)
    requires k / 32 * 32 + 32 <= bhtab.Length
    reads bhtab
  {
    forall q | k / 32 * 32 <= q < k / 32 * 32 + 32 :: bhtab[q] == v
  }

  /** The scanning idiom: first bit at or after k0 that is not v, a word at a time where it can. */
  method SkipBits(bhtab: array<bool>, k0: nat, v: bool, ghost stop: nat) returns (k: nat)
    requires k0 <= stop && stop / 32 * 32 + 32 <= bhtab.Length && bhtab[stop] != v
    ensures k0 <= k <= stop && bhtab[k] != v && forall q | k0 <= q < k :: bhtab[q] == v
  {
    k := k0;
    while bhtab[k] == v && k % 32 != 0
      invariant k0 <= k <= stop && forall q | k0 <= q < k :: bhtab[q] == v
      decreases stop - k
    {
      k := k + 1;
    }
    if bhtab[k] == v {
      while WordIs(bhtab, k, v)
        invariant k % 32 == 0 && k0 <= k <= stop && forall q | k0 <= q < k :: bhtab[q] == v
        decreases stop - k
      {
        assert stop >= k + 32;
        k := k + 32;
      }
      while bhtab[k] == v
        invariant k0 <= k <= stop && forall q | k0 <= q < k :: bhtab[q] == v
        decreases stop - k
      {
        k := k + 1;
      }
    }
  }

  lemma {:induction false} PassingSingles(b: seq<int>, f: seq<int>, bits: seq<bool>, h: nat, r: int, r2: int)
    requires Passing(b, f, bits, h, r) && r <= r2 < |b| && forall x | r < x <= r2 + 1 :: bits[x]
    ensures Passing(b, f, bits, h, r2)
    decreases r2 - r
  {
    if r < r2 {
      PassingSingle(b, f, bits, h, r);
      PassingSingles(b, f, bits, h, r + 1, r2);
    }
  }

  /** Mark the places of a sorted bucket where the class changes. */
  method MarkHeaders(fmap: array<int>, eclass: array<int>, bhtab: array<bool>, l: nat, r: nat)
    requires l <= r < fmap.Length <= bhtab.Length && fmap != eclass
    requires Ranked(fmap[..], eclass[..]) && (forall i | 0 <= i < eclass.Length :: 0 <= eclass[i])
    requires bhtab[l] && forall x | l < x <= r :: !bhtab[x]
    modifies bhtab
    ensures forall x | 0 <= x < bhtab.Length && !(l < x <= r) :: bhtab[x] == old(bhtab[..])[x]
    ensures forall x | l < x <= r :: bhtab[x] <==> eclass[fmap[x - 1]] != eclass[fmap[x]]
  {
    ghost var bits := bhtab[..];
    var cc := -1;
    for i := l to r + 1
      invariant i > l ==> cc == eclass[fmap[i - 1]]
      invariant i == l ==> cc == -1
      invariant forall x | 0 <= x < bhtab.Length && !(l < x < i) :: bhtab[x] == bits[x]
      invariant forall x | l < x < i :: bhtab[x] <==> eclass[fmap[x - 1]] != eclass[fmap[x]]
    {
      var cc1 := eclass[fmap[i]];
      if cc != cc1 {
        bhtab[i] := true;
        cc := cc1;
      }
    }
  }

  lemma PassingKeyed(b: seq<int>, f: seq<int>, bits: seq<bool>, h: nat, r: int)
    requires Passing(b, f, bits, h, r)
    ensures |f| == |b| && Keyed(f, 0, |b|) && Sentinels(bits, |b|) && -1 <= r < |b|
    ensures (r < |b| - 1 ==> bits[r + 1])
  {
  }

  lemma ClassesLength(b: seq<int>, eclass: seq<int>, h: nat)
    requires Classes(b, eclass, h)
    ensures |eclass| == |b| > 0 && forall i | 0 <= i < |b| :: 0 <= eclass[i]
  {
  }

  /** Row by row, f and f2 start with the same character. */
  ghost predicate SameFirst(b: seq<int>, f: seq<int>, f2: seq<int>) {
    && |f| == |f2| == |b|
    && forall x | 0 <= x < |b| :: 0 <= f[x] < |b| && 0 <= f2[x] < |b| && b[f2[x]] == b[f[x]]
  }

  lemma BucketFirst(b: seq<int>, f: seq<int>, f2: seq<int>, bits: seq<bool>, h: nat, l: nat, r: nat)
    requires h > 0 && Passing(b, f, bits, h, l - 1) && l <= r < |b|
    requires Rearranged(f, f2, l, r + 1) && forall k | l < k <= r :: !bits[k]
    ensures SameFirst(b, f, f2)
  {
    hide Bag, OrderedTo, HeadersExact, Injective;
    forall x | l <= x <= r
      ensures 0 <= f2[x] < |b| && b[f2[x]] == b[f[x]]
    {
      BucketRow(b, f, f2, bits, h, l, r, x);
      SameBucket(b, f, bits, h, l, x);
    }
  }

  lemma SameFirstTransitive(b: seq<int>, f: seq<int>, f2: seq<int>, f3: seq<int>)
    requires SameFirst(b, f, f2) && SameFirst(b, f2, f3)
    ensures SameFirst(b, f, f3)
  {
  }

  lemma SameFirstReflexive(b: seq<int>, f: seq<int>, bits: seq<bool>, h: nat)
    requires Exact(b, f, bits, h)
    ensures SameFirst(b, f, f)
  {
  }

  lemma SameFirstAgain(b: seq<int>, f: seq<int>, bits: seq<bool>, h: nat, r: int)
    requires Passing(b, f, bits, h, r)
    ensures SameFirst(b, f, f)
  {
  }

  /** One bucket of the pass: quicksort it by class and mark the new headers. */
  method RefineBucket(fmap: array<int>, eclass: array<int>, bhtab: array<bool>, l: nat, r: nat,
                      ghost b: seq<int>, ghost H: nat)
    requires fmap != eclass && fmap.Length == eclass.Length == |b| <= 900000
    requires l < r < |b| && Classes(b, eclass[..], H) && Passing(b, fmap[..], bhtab[..], H, l - 1)
    requires bhtab[l] && (forall x | l < x <= r :: !bhtab[x]) && bhtab[r + 1]
    requires H > 0
    modifies fmap, bhtab
    ensures Passing(b, fmap[..], bhtab[..], H, r)
    ensures SameFirst(b, old(fmap[..]), fmap[..])
    ensures forall x | r < x < bhtab.Length :: bhtab[x] == old(bhtab[..])[x]
  {
    hide Passing, Classes, Bag, Cmp;
    ghost var f, bits, ec := fmap[..], bhtab[..], eclass[..];
    PassingKeyed(b, f, bits, H, l - 1);
    ClassesLength(b, ec, H);
    FallbackQSort3(fmap, eclass, l, r);
    MarkHeaders(fmap, eclass, bhtab, l, r);
    assert BucketDone(f, fmap[..], bits, bhtab[..], ec, l, r);
    BucketFirst(b, f, fmap[..], bits, H, l, r);
    PassingBucket(b, f, fmap[..], bits, bhtab[..], ec, H, l, r);
  }

  /** Scan the header bits past r for the next bucket of more than one row. */
  method NextBucket(bhtab: array<bool>, r: int, nblock: nat) returns (l: int, r': int)
    requires -1 <= r < nblock && nblock + 96 <= bhtab.Length
    requires bhtab[nblock] && !bhtab[nblock + 1] && bhtab[r + 1]
    ensures r < l <= nblock
    ensures l < nblock ==> l < r' < nblock && (forall x | l < x <= r' :: !bhtab[x]) && bhtab[r' + 1]
    ensures forall x | r < x <= l :: bhtab[x]
  {
    var k := SkipBits(bhtab, r + 1, true, nblock + 1);
    l := k - 1;
    r' := l;
    if l < nblock {
      k := SkipBits(bhtab, k, false, nblock);
      r' := k - 1;
    }
  }

  /** The next bucket of several rows after row r, if there is one, is sorted by the classes. */
  method RefineNext(fmap: array<int>, eclass: array<int>, bhtab: array<bool>, r: int, nblock: nat,
                    ghost b: seq<int>, ghost H: nat)
    returns (more: bool, r': int, n: nat)
    requires fmap != eclass && fmap.Length == eclass.Length == nblock == |b| <= 900000
    requires nblock + 96 <= bhtab.Length && H > 0 && -1 <= r < nblock
    requires Classes(b, eclass[..], H) && Passing(b, fmap[..], bhtab[..], H, r)
    modifies fmap, bhtab
    ensures r <= r' < nblock && (more ==> r < r') && (!more ==> r' == nblock - 1)
    ensures Passing(b, fmap[..], bhtab[..], H, r') && SameFirst(b, old(fmap[..]), fmap[..])
    ensures n == 0 ==> (forall x | r < x <= r' :: bhtab[x]) && forall x | 0 <= x <= r :: bhtab[x] == old(bhtab[x])
  {
    SameFirstAgain(b, fmap[..], bhtab[..], H, r);
    hide Passing, Classes, SameFirst;
    PassingKeyed(b, fmap[..], bhtab[..], H, r);
    assert bhtab[..][nblock] && !bhtab[..][nblock + 1] && bhtab[..][r + 1];
    var l;
    l, r' := NextBucket(bhtab, r, nblock);
    PassingSingles(b, fmap[..], bhtab[..], H, r, l - 1);
    if l >= nblock {
      return false, nblock - 1, 0;
    }
    RefineBucket(fmap, eclass, bhtab, l, r', b, H);
    return true, r', r' - l + 1;
  }

  /** Sort every bucket that has more than one row. */
  method RefineBuckets(fmap: array<int>, eclass: array<int>, bhtab: array<bool>, nblock: nat,
                       ghost b: seq<int>, ghost H: nat)
    returns (nNotDone: nat)
    requires fmap != eclass && fmap.Length == eclass.Length == nblock == |b| <= 900000
    requires nblock + 96 <= bhtab.Length && H > 0
    requires Classes(b, eclass[..], H) && Exact(b, fmap[..], bhtab[..], H)
    modifies fmap, bhtab
    ensures Exact(b, fmap[..], bhtab[..], 2 * H) && SameFirst(b, old(fmap[..]), fmap[..])
    ensures nNotDone == 0 ==> forall x | 0 <= x < nblock :: bhtab[x]
  {
    PassingStart(b, fmap[..], bhtab[..], H);
    SameFirstReflexive(b, fmap[..], bhtab[..], H);
    hide Passing, Classes, Exact, SameFirst;
    ghost var ec, f0 := eclass[..], fmap[..];
    nNotDone := 0;
    var r, more := -1, true;
    while more
      invariant -1 <= r < nblock && eclass[..] == ec && (!more ==> r == nblock - 1)
      invariant Passing(b, fmap[..], bhtab[..], H, r) && SameFirst(b, f0, fmap[..])
      invariant nNotDone == 0 ==> forall x | 0 <= x <= r :: bhtab[x]
      decreases nblock - r, if more then 1 else 0
    {
      ghost var f := fmap[..];
      var n;
      more, r, n := RefineNext(fmap, eclass, bhtab, r, nblock, b, H);
      nNotDone := nNotDone + n;
      SameFirstTransitive(b, f0, f, fmap[..]);
    }
    PassingEnd(b, fmap[..], bhtab[..], H);
  }

  // ---------- the whole sort ----------

  /** When every row is a bucket of its own the order is final. */
  lemma AllSingle(b: seq<int>, f: seq<int>, bits: seq<bool>, h: nat)
    requires Exact(b, f, bits, h) && forall x | 0 <= x < |b| :: bits[x]
    ensures SortsRotations(b, f)
  {
    forall x, y | 0 <= x < y < |b|
      ensures Precedes(b, f[x], f[y])
    {
      assert bits[y] && Cmp(b, f[y - 1], f[y], h) != 0;
      CmpOpposite(b, f[y - 1], f[y - 1], h);
      CmpTransitive(b, f[x], f[y - 1], f[y], h);
      CmpDecides(b, f[x], f[y], h);
    }
  }

  lemma DeepEnough(b: seq<int>, f: seq<int>, bits: seq<bool>, h: nat)
    requires Exact(b, f, bits, h) && h >= |b|
    ensures SortsRotations(b, f)
  {
    forall x, y | 0 <= x < y < |b|
      ensures Precedes(b, f[x], f[y])
    {
      CmpDeep(b, f[x], f[y], h);
    }
  }

  lemma SameFirstBucketed(b: seq<int>, f: seq<int>, f2: seq<int>)
    requires Bytes(b) && Bucketed(b, f) && SameFirst(b, f, f2) && IsPermutation(f2)
    ensures Bucketed(b, f2)
  {
    hide Below, Injective;
  }

  /** The log(N) loop. */
  method DoublePrefixes(fmap: array<int>, eclass: array<int>, bhtab: array<bool>, nblock: nat, ghost b: seq<int>)
    requires fmap != eclass && fmap.Length == eclass.Length == nblock == |b| <= 900000
    requires nblock + 96 <= bhtab.Length
    requires Exact(b, fmap[..], bhtab[..], 1)
    modifies fmap, eclass, bhtab
    ensures SortsRotations(b, fmap[..]) && SameFirst(b, old(fmap[..]), fmap[..])
  {
    SameFirstReflexive(b, fmap[..], bhtab[..], 1);
    assert nblock > 0;
    hide Exact, SameFirst, Classes, SortsRotations;
    ghost var f0 := fmap[..];
    var H := 1;
    while true
      invariant 1 <= H <= nblock
      invariant Exact(b, fmap[..], bhtab[..], H) && SameFirst(b, f0, fmap[..])
      decreases nblock - H
    {
      ghost var f := fmap[..];
      NumberClasses(fmap, eclass, bhtab, H, b);
      var nNotDone := RefineBuckets(fmap, eclass, bhtab, nblock, b, H);
      SameFirstTransitive(b, f0, f, fmap[..]);
      H := H * 2;
      if H > nblock || nNotDone == 0 {
        if nNotDone == 0 {
          AllSingle(b, fmap[..], bhtab[..], H);
        } else {
          DeepEnough(b, fmap[..], bhtab[..], H);
        }
        break;
      }
    }
  }

  /** Refill the block, whose bytes the class numbers have overwritten, from the row order and the byte counts. */
  method Reconstruct(fmap: array<int>, eclass8: array<int>, ftabCopy: array<int>, ghost b: seq<int>)
    requires fmap != eclass8 && fmap != ftabCopy && ftabCopy != eclass8
    requires fmap.Length == eclass8.Length == |b| && ftabCopy.Length == 256
    requires Bytes(b) && Bucketed(b, fmap[..])
    requires forall c | 0 <= c < 256 :: ftabCopy[c] == Count(b, |b|, c)
    modifies eclass8, ftabCopy
    ensures eclass8[..] == b
  {
    ghost var f := fmap[..];
    BelowNone(b, |b|, 0);
    BelowNext(b, |b|, 0);
    hide Below, Count;
    var j := 0;
    for i := 0 to fmap.Length
      invariant fmap[..] == f && 0 <= j < 256 && Remaining(b, ftabCopy[..], j, i)
      invariant Restored(b, f, eclass8[..], i)
    {
      ghost var c, e := b[f[i]], eclass8[..];
      RestoredStep(b, f, e, i);
      hide Restored, IsPermutation;
      assert j <= c by {
        if c < j {
          BucketsApart(b, c, j);
        }
      }
      while ftabCopy[j] == 0
        invariant 0 <= j <= c && Remaining(b, ftabCopy[..], j, i) && eclass8[..] == e
        decreases c - j
      {
        BelowNext(b, |b|, j + 1);
        BelowNext(b, |b|, c);
        j := j + 1;
      }
      assert j == c by {
        if j < c {
          BucketsApart(b, j, c);
        }
      }
      ftabCopy[j] := ftabCopy[j] - 1;
      assert fmap[i] == f[i];
      eclass8[fmap[i]] := j;
      assert eclass8[..] == e[f[i] := b[f[i]]];
    }
    assert j < 256;
    RestoredAll(b, f, eclass8[..]);
  }

  /** The bytes of the first i rows are back in place. */
  ghost predicate Restored(b: seq<int>, f: seq<int>, e: seq<int>, i: nat)
    requires |f| == |b| == |e| && i <= |b| && IsPermutation(f)
  {
    forall x | 0 <= x < i :: e[f[x]] == b[f[x]]
  }

  lemma RestoredStep(b: seq<int>, f: seq<int>, e: seq<int>, i: nat)
    requires |f| == |b| == |e| && i < |b| && IsPermutation(f) && Restored(b, f, e, i)
    ensures Restored(b, f, e[f[i] := b[f[i]]], i + 1)
  {
    assert forall x | 0 <= x < i :: f[x] != f[i];
  }

  lemma RestoredAll(b: seq<int>, f: seq<int>, e: seq<int>)
    requires |f| == |b| == |e| && IsPermutation(f) && Restored(b, f, e, |b|)
    ensures e == b
  {
    PermutationIsSurjective(f);
    forall v | 0 <= v < |b|
      ensures e[v] == b[v]
    {
      assert v in f;
      var x :| 0 <= x < |f| && f[x] == v;
    }
  }

  /** The counts with the first i rows used up, the scan standing at character j. */
  ghost predicate Remaining(b: seq<int>, counts: seq<int>, j: int, i: int)
    requires |counts| == 256 && 0 <= j < 256
  {
    && Below(b, |b|, j) <= i <= Below(b, |b|, j + 1)
    && counts[j] == Below(b, |b|, j + 1) - i
    && forall c | j < c < 256 :: counts[c] == Count(b, |b|, c)
  }

  /** The class numbers are stored over the block's own memory; the contract says nothing of the bytes afterwards. */
  method Overwrite(eclass8: array<int>)
    modifies eclass8
  {
    forall i | 0 <= i < eclass8.Length {
      eclass8[i] := 0;
    }
  }

  method FallbackSort(fmap: array<int>, eclass: array<int>, eclass8: array<int>, bhtab: array<bool>, nblock: nat)
    requires fmap != eclass && fmap != eclass8 && eclass != eclass8
    requires fmap.Length == eclass.Length == eclass8.Length == nblock && 0 < nblock <= 900000
    requires nblock + 96 <= bhtab.Length
    requires Bytes(eclass8[..])
    modifies fmap, eclass, eclass8, bhtab
    ensures SortsRotations(eclass8[..], fmap[..])
    ensures eclass8[..] == old(eclass8[..])
  {
    hide *;
    ghost var b := eclass8[..];
    var ftab, ftabCopy := InitialBuckets(fmap, eclass8);
    InitialHeaders(bhtab, ftab, nblock, b);
    ghost var f := fmap[..];
    InitiallyExact(b, f, bhtab[..]);
    Overwrite(eclass8);
    DoublePrefixes(fmap, eclass, bhtab, nblock, b);
    SortsPermutation(b, fmap[..]);
    SameFirstBucketed(b, f, fmap[..]);
    Reconstruct(fmap, eclass8, ftabCopy, b);
  }

  lemma SortsPermutation(b: seq<int>, p: seq<int>)
    requires SortsRotations(b, p)
    ensures IsPermutation(p)
  {
  }
}
