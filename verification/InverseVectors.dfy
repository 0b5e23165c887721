/**
 * The two representations in which BZ2_decompress keeps the inverse transformation: the vector itself above the
 * characters in 32-bit words (tt), or in 20-bit cells split over ll16 and ll4, made by reversing pointers.
 */
module InverseVectors {
  import opened Bits
  import opened BurrowsWheeler
  import opened Counting
  import opened Permutations
  import opened Placement

  /** The starts of the buckets of column l, the end of the last one included. */
  ghost predicate BucketStarts(l: seq<int>, cftab: seq<int>) {
    && |cftab| == 257
    && (forall i | 0 <= i < |l| :: 0 <= l[i] < 256)
    && forall c | 0 <= c < 257 :: cftab[c] == Below(l, |l|, c)
  }

  /** cftab while the first i entries have been placed. */
  ghost predicate Advanced(l: seq<int>, cftab: seq<int>, i: nat) {
    && |cftab| == 257 && i <= |l|
    && (forall x | 0 <= x < |l| :: 0 <= l[x] < 256)
    && forall c | 0 <= c < 256 :: cftab[c] == Below(l, |l|, c) + Count(l, i, c)
  }

  lemma AdvancedStart(l: seq<int>, cftab: seq<int>)
    requires BucketStarts(l, cftab)
    ensures Advanced(l, cftab, 0)
  {
  }

  lemma AdvancedStep(l: seq<int>, cftab: seq<int>, i: nat)
    requires Advanced(l, cftab, i) && i < |l|
    ensures |cftab| == 257 && 0 <= l[i] < 256 && cftab[l[i]] == Place(l, i) < |l|
    ensures Advanced(l, cftab[l[i] := cftab[l[i]] + 1], i + 1)
  {
    PlaceInBucket(l, i);
  }

  /**
   * makeMaps and counting give unzftab; this is the loop that turns the counts into starts:
   * cftab[0] = 0, cftab[i] = unzftab[i - 1], then running sums.
   */
  method MakeCftab(cftab: array<int>, unzftab: array<int>, ghost l: seq<int>)
    requires cftab.Length == 257 && unzftab.Length == 256 && cftab != unzftab
    requires forall i | 0 <= i < |l| :: 0 <= l[i] < 256
    requires forall c | 0 <= c < 256 :: unzftab[c] == Count(l, |l|, c)
    modifies cftab
    ensures BucketStarts(l, cftab[..])
    ensures forall i | 0 <= i < 257 :: 0 <= cftab[i] <= |l|
    ensures forall i | 1 <= i < 257 :: cftab[i - 1] <= cftab[i]
  {
    cftab[0] := 0;
    for i := 1 to 257
      invariant cftab[0] == 0 && forall x | 1 <= x < i :: cftab[x] == Count(l, |l|, x - 1)
    {
      cftab[i] := unzftab[i - 1];
    }
    BelowNone(l, |l|, 0);
    hide Below, Count;
    for i := 1 to 257
      invariant forall x | 0 <= x < i :: cftab[x] == Below(l, |l|, x)
      invariant forall x | i <= x < 257 :: cftab[x] == Count(l, |l|, x - 1)
    {
      BelowNext(l, |l|, i - 1);
      cftab[i] := cftab[i] + cftab[i - 1];
    }
    forall i | 1 <= i < 257
      ensures cftab[i - 1] <= cftab[i]
    {
      BelowMonotone(l, |l|, i - 1, i);
    }
  }

  // ---------- the fast vector ----------

  /** Word k while the first i entries have been placed. */
  ghost predicate FastCell(l: seq<int>, t: seq<int>, tt: seq<int>, i: nat, k: nat)
    requires k < |l| == |t| && |l| <= |tt|
  {
    tt[k] == l[k] + if t[k] < i then 256 * t[k] else 0
  }

  ghost predicate Filling(l: seq<int>, t: seq<int>, tt: seq<int>, i: nat) {
    && Vector(l, t) && |t| == |l| <= |tt|
    && (forall x | 0 <= x < |l| :: 0 <= l[x] < 256)
    && forall k | 0 <= k < |l| :: FastCell(l, t, tt, i, k)
  }

  /** Each word: its character, and the place to go to next. */
  ghost predicate FastVector(l: seq<int>, t: seq<int>, tt: seq<int>) {
    && Vector(l, t) && |t| == |l| <= |tt|
    && forall k | 0 <= k < |l| :: 0 <= l[k] < 256 && 0 <= t[k] < |l| && tt[k] == l[k] + 256 * t[k]
  }

  lemma FillingStep(l: seq<int>, t: seq<int>, tt: seq<int>, i: nat)
    requires Filling(l, t, tt, i) && i < |l|
    ensures tt[i] >= 0 && tt[i] % 256 == l[i] && Place(l, i) < |l| && 0 <= tt[Place(l, i)] < 256
    ensures Filling(l, t, tt[Place(l, i) := Or(i * 256, tt[Place(l, i)])], i + 1)
  {
    hide Place, Undoes;
    VectorAt(l, t, i);
    var p, i' := Place(l, i), i + 1;
    assert FastCell(l, t, tt, i, i) && FastCell(l, t, tt, i, p);
    OrByte(i, tt[p]);
    hide Or;
    var tt' := tt[p := Or(i * 256, tt[p])];
    forall k | 0 <= k < |l|
      ensures FastCell(l, t, tt', i', k)
    {
      assert FastCell(l, t, tt, i, k);
      VectorAt(l, t, k);
    }
  }

  lemma FillingEnd(l: seq<int>, t: seq<int>, tt: seq<int>)
    requires Filling(l, t, tt, |l|)
    ensures FastVector(l, t, tt)
  {
    hide Place, Undoes;
    forall k | 0 <= k < |l|
      ensures 0 <= t[k] < |l| && tt[k] == l[k] + 256 * t[k]
    {
      VectorAt(l, t, k);
      assert FastCell(l, t, tt, |l|, k);
    }
  }

  lemma FillingStart(l: seq<int>, t: seq<int>, tt: seq<int>)
    requires Vector(l, t) && |l| <= |tt| && forall x | 0 <= x < |l| :: tt[x] == l[x] && 0 <= l[x] < 256
    ensures Filling(l, t, tt, 0)
  {
    hide Place, Undoes;
    assert |t| == |l| by {
      if |l| > 0 {
        VectorAt(l, t, 0);
      } else {
        EmptyVector(l, t);
      }
    }
    forall k | 0 <= k < |l|
      ensures FastCell(l, t, tt, 0, k)
    {
      VectorAt(l, t, k);
    }
  }

  lemma EmptyVector(l: seq<int>, t: seq<int>)
    requires Vector(l, t)
    ensures |t| == |l|
  {
  }

  /** The fast vector, built over the characters themselves. */
  method BuildFast(tt: array<int>, cftab: array<int>, nblock: nat, ghost l: seq<int>) returns (ghost t: seq<int>)
    requires tt != cftab && nblock == |l| <= tt.Length && BucketStarts(l, cftab[..])
    requires forall i | 0 <= i < nblock :: tt[i] == l[i]
    modifies tt, cftab
    ensures FastVector(l, t, tt[..])
  {
    hide *;
    t := VectorExists(l);
    StartBytes(l, cftab[..]);
    FillingStart(l, t, tt[..]);
    AdvancedStart(l, cftab[..]);
    for i := 0 to nblock
      invariant Filling(l, t, tt[..], i) && Advanced(l, cftab[..], i)
    {
      ghost var w, cf := tt[..], cftab[..];
      FillingStep(l, t, w, i);
      AdvancedStep(l, cf, i);
      var uc := tt[i] % 256;
      tt[cftab[uc]] := Or(i * 256, tt[cftab[uc]]);
      cftab[uc] := cftab[uc] + 1;
      assert tt[..] == w[Place(l, i) := Or(i * 256, w[Place(l, i)])] && cftab[..] == cf[l[i] := cf[l[i]] + 1];
    }
    FillingEnd(l, t, tt[..]);
  }

  lemma StartBytes(l: seq<int>, cftab: seq<int>)
    requires BucketStarts(l, cftab)
    ensures |cftab| == 257 && forall x | 0 <= x < |l| :: 0 <= l[x] < 256
  {
  }

  // ---------- 20-bit cells ----------

  function Nibble(ll4: seq<int>, i: nat): int
    requires i / 2 < |ll4|
  {
    if i % 2 == 0 then ll4[i / 2] % 16 else ll4[i / 2] / 16
  }

  /** GET_LL. */
  function Cell(ll16: seq<int>, ll4: seq<int>, i: nat): int
    requires i < |ll16| && i / 2 < |ll4|
  {
    ll16[i] + 65536 * Nibble(ll4, i)
  }

  class CellArray {
    const ll16: array<int>
    const ll4: array<int>
    const size: nat

    constructor (low: array<int>, high: array<int>, n: nat)
      requires low != high && n <= low.Length && n <= 2 * high.Length
      requires forall i | 0 <= i < high.Length :: 0 <= high[i] < 256
      ensures Valid() && size == n && ll16 == low && ll4 == high
    {
      size, ll16, ll4 := n, low, high;
    }

    ghost predicate Valid()
      reads ll16, ll4
    {
      && ll16 != ll4 && size <= ll16.Length && size <= 2 * ll4.Length
      && forall i | 0 <= i < ll4.Length :: 0 <= ll4[i] < 256
    }

    ghost function Cells(): (r: seq<int>)
      requires Valid()
      reads ll16, ll4
      ensures |r| == size
    {
      seq(size, i requires 0 <= i < size reads ll16, ll4 => Cell(ll16[..], ll4[..], i))
    }

    /** GET_LL: the halves never overlap, so or-ing is adding. */
    method Get(i: nat) returns (r: int)
      requires Valid() && i < size
      ensures r == Cells()[i]
    {
      r := ll16[i] + 65536 * (if i % 2 == 0 then ll4[i / 2] % 16 else ll4[i / 2] / 16);
    }

    /** SET_LL. */
    method Set(i: nat, n: nat)
      requires Valid() && i < size && n < 0x10_0000
      modifies ll16, ll4
      ensures Valid() && Cells() == old(Cells())[i := n]
      ensures forall x | 0 <= x < size && x != i :: ll16[x] == old(ll16[x])
    {
      ghost var was, a, h := Cells(), ll16[..], ll4[..];
      ll16[i] := n % 65536;
      if i % 2 == 0 {
        ll4[i / 2] := ll4[i / 2] / 16 * 16 + n / 65536;
      } else {
        ll4[i / 2] := ll4[i / 2] % 16 + 16 * (n / 65536);
      }
      SetCell(a, h, i, n, size);
      assert Cells() == was[i := n];
    }
  }

  /** Writing one cell changes no other. */
  lemma SetCell(ll16: seq<int>, ll4: seq<int>, i: nat, n: nat, size: nat)
    requires i < size <= |ll16| && size <= 2 * |ll4| && n < 0x10_0000
    requires forall k | 0 <= k < |ll4| :: 0 <= ll4[k] < 256
    ensures var h := if i % 2 == 0 then ll4[i / 2] / 16 * 16 + n / 65536 else ll4[i / 2] % 16 + 16 * (n / 65536);
      && 0 <= h < 256
      && forall k | 0 <= k < size ::
           Cell(ll16[i := n % 65536], ll4[i / 2 := h], k) == if k == i then n else Cell(ll16, ll4, k)
  {
    var h := if i % 2 == 0 then ll4[i / 2] / 16 * 16 + n / 65536 else ll4[i / 2] % 16 + 16 * (n / 65536);
    var a, g := ll16[i := n % 65536], ll4[i / 2 := h];
    forall k | 0 <= k < size
      ensures Cell(a, g, k) == if k == i then n else Cell(ll16, ll4, k)
    {
      if k / 2 == i / 2 && k != i {
        assert k % 2 != i % 2;
      }
    }
  }

  // ---------- the small vector ----------

  /** The forward vector: cell i holds the place of entry i. */
  method FillCells(cells: CellArray, cftabCopy: array<int>, nblock: nat, ghost l: seq<int>)
    requires cells.Valid() && cells.size == nblock == |l| <= 900000 && BucketStarts(l, cftabCopy[..])
    requires cftabCopy != cells.ll16 && cftabCopy != cells.ll4
    requires forall i | 0 <= i < nblock :: cells.ll16[i] == l[i]
    modifies cells.ll16, cells.ll4, cftabCopy
    ensures cells.Valid() && cells.Cells() == Places(l)
  {
    AdvancedStart(l, cftabCopy[..]);
    hide Place, Advanced, BucketStarts, Cell;
    for i := 0 to nblock
      invariant cells.Valid() && Advanced(l, cftabCopy[..], i)
      invariant forall x | 0 <= x < i :: cells.Cells()[x] == Place(l, x)
      invariant forall x | i <= x < nblock :: cells.ll16[x] == l[x]
    {
      ghost var cf := cftabCopy[..];
      AdvancedStep(l, cf, i);
      var uc := cells.ll16[i];
      cells.Set(i, cftabCopy[uc]);
      cftabCopy[uc] := cftabCopy[uc] + 1;
      assert cftabCopy[..] == cf[l[i] := cf[l[i]] + 1];
    }
    assert cells.Cells() == Places(l);
  }

  // ---------- pointer reversal ----------

  /** f applied m times. */
  ghost function Iterate(f: seq<int>, o: nat, m: nat): (r: nat)
    requires o < |f| && forall x | 0 <= x < |f| :: 0 <= f[x] < |f|
    ensures r < |f|
  {
    if m == 0 then o else f[Iterate(f, o, m - 1)]
  }

  /** Not back at o after 1, ..., m steps. */
  ghost predicate NotBack(f: seq<int>, o: nat, m: nat)
    requires o < |f| && forall x | 0 <= x < |f| :: 0 <= f[x] < |f|
  {
    forall k | 1 <= k <= m :: Iterate(f, o, k) != o
  }

  lemma SameImage(f: seq<int>, x: nat, y: nat)
    requires IsPermutation(f) && x < |f| && y < |f| && f[x] == f[y]
    ensures x == y
  {
  }

  /** Two steps that meet have come back to o in between. */
  lemma {:induction false} MeetsOnlyAfterReturn(f: seq<int>, o: nat, j: nat, k: nat)
    requires o < |f| && IsPermutation(f) && j < k && Iterate(f, o, j) == Iterate(f, o, k)
    ensures Iterate(f, o, k - j) == o
    decreases j
  {
    if j > 0 {
      var x, y := Iterate(f, o, j - 1), Iterate(f, o, k - 1);
      SameImage(f, x, y);
      MeetsOnlyAfterReturn(f, o, j - 1, k - 1);
    }
  }

  /** A path that has not come back visits a new place with every step, so it is shorter than the block. */
  lemma PathIsShort(f: seq<int>, o: nat, m: nat)
    requires o < |f| && IsPermutation(f) && NotBack(f, o, m)
    ensures m < |f|
  {
    var path := seq(m + 1, k requires 0 <= k <= m => Iterate(f, o, k));
    forall j, k | 0 <= j < k < |path|
      ensures path[j] != path[k]
    {
      if path[j] == path[k] {
        MeetsOnlyAfterReturn(f, o, j, k);
      }
    }
    assert Injective(path);
    Pigeonhole(path, Range(|f|));
  }

  /** The cells after m reversals: those of steps 1, ..., m point back, the others still forward. */
  ghost predicate Reversing(f: seq<int>, cells: seq<int>, o: nat, m: nat) {
    && o < |f| == |cells| && IsPermutation(f) && NotBack(f, o, m)
    && (forall k | 1 <= k <= m :: PointsBack(f, cells, o, k))
    && (forall x | 0 <= x < |f| :: (forall k | 1 <= k <= m :: x != Iterate(f, o, k)) ==> cells[x] == f[x])
  }

  ghost predicate PointsBack(f: seq<int>, cells: seq<int>, o: nat, k: nat)
    requires o < |f| == |cells| && forall x | 0 <= x < |f| :: 0 <= f[x] < |f|
  {
    k > 0 && cells[Iterate(f, o, k)] == Iterate(f, o, k - 1)
  }

  lemma NextStillForward(f: seq<int>, cells: seq<int>, o: nat, m: nat)
    requires Reversing(f, cells, o, m)
    ensures cells[Iterate(f, o, m + 1)] == Iterate(f, o, m + 2)
  {
    var j := Iterate(f, o, m + 1);
    forall k | 1 <= k <= m
      ensures j != Iterate(f, o, k)
    {
      if j == Iterate(f, o, k) {
        MeetsOnlyAfterReturn(f, o, k, m + 1);
      }
    }
  }

  lemma ReversingStep(f: seq<int>, cells: seq<int>, o: nat, m: nat)
    requires Reversing(f, cells, o, m) && Iterate(f, o, m + 1) != o
    ensures Reversing(f, cells[Iterate(f, o, m + 1) := Iterate(f, o, m)], o, m + 1)
  {
    hide Iterate;
    var j := Iterate(f, o, m + 1);
    var c := cells[j := Iterate(f, o, m)];
    forall k | 1 <= k <= m + 1
      ensures PointsBack(f, c, o, k)
    {
      if k <= m {
        assert PointsBack(f, cells, o, k);
        if j == Iterate(f, o, k) {
          MeetsOnlyAfterReturn(f, o, k, m + 1);
        }
      }
    }
  }

  /** The cycle through o, reversed: its cells hold the inverse of f. */
  ghost predicate Reversed(f: seq<int>, t: seq<int>, cells: seq<int>, o: nat) {
    && Undoes(f, t) && o < |f| == |cells|
    && forall m: nat :: BackAlong(t, cells, o, m)
  }

  ghost predicate BackAlong(t: seq<int>, cells: seq<int>, o: nat, m: nat) {
    && o < |t| == |cells| && (forall x | 0 <= x < |t| :: 0 <= t[x] < |t|)
    && cells[Walk(t, o, m)] == t[Walk(t, o, m)]
  }

  /** Walking back along t from o visits the places the steps of f visit. */
  lemma {:induction false} WalkOnCycle(f: seq<int>, t: seq<int>, o: nat, len: nat, m: nat) returns (k: nat)
    requires Undoes(f, t) && o < |f| && len > 0 && Iterate(f, o, len) == o
    ensures k < len && Walk(t, o, m) == Iterate(f, o, k)
  {
    if m == 0 {
      k := 0;
    } else {
      k := WalkOnCycle(f, t, o, len, m - 1);
      if k > 0 {
        assert Iterate(f, o, k) == f[Iterate(f, o, k - 1)];
        k := k - 1;
      } else {
        assert o == f[Iterate(f, o, len - 1)];
        k := len - 1;
      }
    }
  }

  lemma ReversingEnd(f: seq<int>, t: seq<int>, cells: seq<int>, o: nat, m: nat)
    requires Reversing(f, cells, o, m) && Iterate(f, o, m + 1) == o && Undoes(f, t)
    ensures Reversed(f, t, cells[o := Iterate(f, o, m)], o)
  {
    var c := cells[o := Iterate(f, o, m)];
    forall n: nat
      ensures BackAlong(t, c, o, n)
    {
      var k := WalkOnCycle(f, t, o, m + 1, n);
      if k > 0 {
        assert PointsBack(f, cells, o, k);
        assert Iterate(f, o, k) == f[Iterate(f, o, k - 1)];
      } else {
        assert o == f[Iterate(f, o, m)];
      }
    }
  }

  /** Reverse the pointers on the cycle through origPtr. */
  method ReversePointers(cells: CellArray, origPtr: nat, ghost f: seq<int>, ghost t: seq<int>)
    requires cells.Valid() && cells.size <= 900000 && origPtr < cells.size && cells.Cells() == f
    requires Undoes(f, t)
    modifies cells.ll16, cells.ll4
    ensures cells.Valid() && Reversed(f, t, cells.Cells(), origPtr)
  {
    UndoesPermutes(f, t);
    hide *;
    var i := origPtr;
    PermutationSize(f);
    ghost var m := 0;
    StartReversing(f, origPtr);
    var j := cells.Get(i);
    var back := false;
    while !back
      invariant cells.Valid() && |cells.Cells()| == cells.size == |f|
      invariant origPtr < |f| && forall x | 0 <= x < |f| :: 0 <= f[x] < |f|
      invariant !back ==> i == Iterate(f, origPtr, m) && j == Iterate(f, origPtr, m + 1)
      invariant !back ==> Reversing(f, cells.Cells(), origPtr, m) && m < |f|
      invariant back ==> Reversed(f, t, cells.Cells(), origPtr)
      decreases |f| - m, if back then 0 else 1
    {
      back, i, j := ReverseOne(cells, origPtr, i, j, f, t, m);
      if !back {
        m := m + 1;
        StillShort(f, cells.Cells(), origPtr, m);
      }
    }
  }

  /** One pointer turned round. */
  method ReverseOne(cells: CellArray, origPtr: nat, i: nat, j: nat, ghost f: seq<int>, ghost t: seq<int>, ghost m: nat)
    returns (back: bool, i': nat, j': nat)
    requires cells.Valid() && cells.size == |f| <= 900000 && Undoes(f, t) && IsPermutation(f)
    requires origPtr < |f| && forall x | 0 <= x < |f| :: 0 <= f[x] < |f|
    requires i == Iterate(f, origPtr, m) && j == Iterate(f, origPtr, m + 1)
    requires Reversing(f, cells.Cells(), origPtr, m)
    modifies cells.ll16, cells.ll4
    ensures cells.Valid() && |cells.Cells()| == |f|
    ensures back ==> Reversed(f, t, cells.Cells(), origPtr)
    ensures !back ==> i' == Iterate(f, origPtr, m + 1) && j' == Iterate(f, origPtr, m + 2)
    ensures !back ==> Reversing(f, cells.Cells(), origPtr, m + 1)
  {
    hide *;
    ghost var was := cells.Cells();
    NextStillForward(f, was, origPtr, m);
    j' := cells.Get(j);
    cells.Set(j, i);
    i' := j;
    back := i' == origPtr;
    if back {
      ReversingEnd(f, t, was, origPtr, m);
    } else {
      ReversingStep(f, was, origPtr, m);
    }
  }

  lemma PermutationSize(f: seq<int>)
    requires IsPermutation(f)
    ensures forall x | 0 <= x < |f| :: 0 <= f[x] < |f|
  {
  }

  lemma StillShort(f: seq<int>, cells: seq<int>, o: nat, m: nat)
    requires Reversing(f, cells, o, m)
    ensures m < |f|
  {
    PathIsShort(f, o, m);
  }

  lemma StartReversing(f: seq<int>, o: nat)
    requires o < |f| && IsPermutation(f)
    ensures Reversing(f, f, o, 0) && Iterate(f, o, 0) == o && Iterate(f, o, 1) == f[o]
  {
  }

  // ---------- which character a row starts with ----------

  /** BZ2_indexIntoF: binary search in cftab. */
  method IndexIntoF(indx: int, cftab: array<int>, ghost l: seq<int>) returns (nb: int)
    requires BucketStarts(l, cftab[..]) && 0 <= indx < |l|
    ensures 0 <= nb < 256 && Below(l, |l|, nb) <= indx < Below(l, |l|, nb + 1)
  {
    BelowNone(l, |l|, 0);
    BelowAll(l, |l|, 256);
    hide Below;
    nb := 0;
    var na := 256;
    while true
      invariant 0 <= nb < na <= 256 && Below(l, |l|, nb) <= indx < Below(l, |l|, na) && na - nb > 1
      decreases na - nb
    {
      var mid := (nb + na) / 2;
      if indx >= cftab[mid] {
        nb := mid;
      } else {
        na := mid;
      }
      if na - nb == 1 {
        break;
      }
    }
  }

  /** A row of the sorted order starts with the character its vector entry points at in the last column. */
  lemma RowCharacter(l: seq<int>, t: seq<int>, k: nat, c: int)
    requires Vector(l, t) && k < |l| && Below(l, |l|, c) <= k < Below(l, |l|, c + 1)
    ensures |t| == |l| && 0 <= t[k] < |l| && l[t[k]] == c
  {
    hide Below;
    VectorAt(l, t, k);
    var v := l[t[k]];
    PlaceInBucket(l, t[k]);
    if v < c {
      BelowMonotone(l, |l|, v + 1, c);
    } else if c < v {
      BelowMonotone(l, |l|, c + 1, v);
    }
  }
}
