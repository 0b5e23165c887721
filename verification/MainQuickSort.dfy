/** mainQSort3: three-way string quicksort with an explicit stack. */
module MainQuickSort {
  import opened MainCompare
  import opened Partitioning
  import opened Permutations
  import opened Rotations
  import opened SortStack

  const SMALL_THRESH := 20
  const DEPTH_THRESH := 14  // BZ_N_RADIX + BZ_N_QSORT
  const STACK_SIZE := 100

  /** mmed3: the median of three. */
  function Median(a: int, b: int, c: int): (r: int)
    ensures r == a || r == b || r == c
    ensures (a <= r || b <= r) && (a <= r || c <= r) && (b <= r || c <= r)
    ensures (r <= a || r <= b) && (r <= a || r <= c) && (r <= b || r <= c)
  {
    var a', b' := if a > b then b else a, if a > b then a else b;
    if b' > c then (if a' > c then a' else c) else b'
  }

  /** What stays fixed during one call. */
  datatype Call = Call(b: seq<int>, ext: seq<int>, q: seq<int>, lo: int, hi: int, s0: seq<int>)

  /** The stretch's rotations share its first d characters. */
  ghost predicate Shared(b: seq<int>, s: seq<int>, st: Stretch)
    requires |b| > 0 && 0 <= st.lo && st.hi < |s| && Ranked(s, Ranks(b))
  {
    && 0 <= st.d <= 15
    && forall x | st.lo <= x <= st.hi :: Cmp(b, s[st.lo], s[x], st.d) == 0
  }

  /** The largest part is always pushed first, so sizes halve with every second stack position. */
  ghost predicate Halving(stack: seq<Stretch>, size: nat) {
    && |stack| <= 36
    && forall k | 0 <= k < |stack| :: 0 <= stack[k].Size() <= Halved(size, k / 2) && stack[k].d <= 15
  }

  ghost predicate SharedAll(b: seq<int>, s: seq<int>, stack: seq<Stretch>) {
    && |b| > 0
    && Ranked(s, Ranks(b))
    && forall k | 0 <= k < |stack| :: 0 <= stack[k].lo && stack[k].hi < |s| && Shared(b, s, stack[k])
  }

  /** The invariant of the main loop. */
  ghost predicate Sorting(c: Call, s: seq<int>, stack: seq<Stretch>, owner: seq<int>) {
    && |c.b| > OVERSHOOT
    && |s| == |c.b| <= 900000
    && Extended(c.b, c.ext) && QuadrantSound(c.b, c.q)
    && Rearranged(c.s0, s, c.lo, c.hi + 1)
    && Open(s, Ranks(c.b), c.lo, c.hi, stack, owner)
    && SharedAll(c.b, s, stack)
    && Halving(stack, c.hi - c.lo + 1)
  }

  ghost function JobOf(c: Call, s: seq<int>, top: Stretch): Job
    requires 0 <= top.lo && top.hi < |s| && 0 <= top.d && (top.lo <= top.hi ==> 0 <= s[top.lo])
  {
    Job(c.b, c.ext, c.q, top.lo, top.hi, top.d, if top.lo <= top.hi then s[top.lo] else 0)
  }

  lemma SortingTop(c: Call, s: seq<int>, rest: seq<Stretch>, top: Stretch, owner: seq<int>)
    requires Sorting(c, s, rest + [top], owner)
    ensures 0 <= c.lo <= top.lo <= top.hi + 1 <= c.hi + 1 <= |s| == |c.b| <= 900000 && 0 <= top.d <= 15
    ensures top.lo <= top.hi ==> 0 <= s[top.lo]
    ensures Comparable(JobOf(c, s, top), s)
    ensures Halving(rest + [top], c.hi - c.lo + 1) && c.hi - c.lo + 1 <= 900000
  {
    hide Cmp, Rank, Bag, Halved;
    assert (rest + [top])[|rest|] == top;
    assert Shared(c.b, s, top);
  }

  // ---------- pieces ----------

  /** p lists a, e and z in some order. */
  ghost predicate Arranged(p: seq<Stretch>, a: Stretch, e: Stretch, z: Stretch) {
    || p == [a, e, z] || p == [a, z, e] || p == [e, a, z] || p == [e, z, a] || p == [z, a, e] || p == [z, e, a]
  }

  lemma ArrangedPieces(p: seq<Stretch>, a: Stretch, e: Stretch, z: Stretch, top: Stretch, n: int, m: int)
    requires Arranged(p, a, e, z) && top.lo - 1 <= n < m <= top.hi + 1
    requires a == Stretch(top.lo, n, a.d) && e == Stretch(n + 1, m - 1, e.d) && z == Stretch(m, top.hi, z.d)
    ensures Pieces(top, p)
  {
  }

  lemma ArrangedAt(p: seq<Stretch>, a: Stretch, e: Stretch, z: Stretch, top: Stretch, n: int, m: int, x: int, y: int)
    requires Arranged(p, a, e, z) && top.lo - 1 <= n < m <= top.hi + 1
    requires a == Stretch(top.lo, n, a.d) && e == Stretch(n + 1, m - 1, e.d) && z == Stretch(m, top.hi, z.d)
    requires top.lo <= x < y <= top.hi
    ensures PieceOf(p, x) != -1
    ensures PieceOf(p, x) != PieceOf(p, y) ==> x <= n < y || x < m <= y
  {
  }

  /** Entries of the stretch whose characters d differ are ordered by them. */
  lemma SplitDecides(c: Job, s: seq<int>, x: int, y: int)
    requires Comparable(c, s) && c.lo <= x <= c.hi && c.lo <= y <= c.hi
    requires c.ext[s[x] + c.d] < c.ext[s[y] + c.d]
    ensures InOrder(s, Ranks(c.b), x, y)
  {
    ComparableAt(c, s, x, y);
    var i, j, b := s[x], s[y], c.b;
    assert At(b, i + c.d) < At(b, j + c.d);
    CmpSplit(b, i, j, c.d, 1);
    CmpDecides(b, i, j, c.d + 1);
    RankOrder(b, i, j);
  }

  lemma SplitExtends(c: Job, s: seq<int>, x: int, y: int)
    requires Comparable(c, s) && c.lo <= x <= c.hi && c.lo <= y <= c.hi
    requires c.ext[s[x] + c.d] == c.ext[s[y] + c.d]
    ensures Cmp(c.b, s[x], s[y], c.d + 1) == 0
  {
    ComparableAt(c, s, x, y);
    CmpSplit(c.b, s[x], s[y], c.d, 1);
    assert Cmp(c.b, s[x] + c.d + 1, s[y] + c.d + 1, 0) == 0;
  }

  /** The popped stretch after rearranging is still comparable. */
  lemma ComparableKept(c: Job, s: seq<int>, s2: seq<int>)
    requires Comparable(c, s) && Rearranged(s, s2, c.lo, c.hi + 1)
    ensures Comparable(c, s2)
  {
    hide Bag, Cmp, Rank, Extended, QuadrantSound;
    RearrangedOrigin(s, s2, c.lo, c.hi + 1);
    forall x | 0 <= x < |s2|
      ensures 0 <= s2[x] < |c.b|
      ensures c.lo <= x <= c.hi ==> Cmp(c.b, c.o, s2[x], c.d) == 0
    {
      if c.lo <= x <= c.hi {
        var v :| c.lo <= v < c.hi + 1 && s[v] == s2[x];
      }
    }
  }

  /** A split by character d leaves the stretch in order except inside the three parts. */
  lemma SplitRefines(c: Job, t: Task, s2: seq<int>, n: int, m: int, top: Stretch, p: seq<Stretch>)
    requires Comparable(c, s2) && t.key == c.ext && t.d == c.d && t.lo == c.lo == top.lo && t.hi == c.hi == top.hi
    requires Gathered(t, s2, n, m)
    requires Arranged(p, Stretch(top.lo, n, c.d), Stretch(n + 1, m - 1, c.d + 1), Stretch(m, top.hi, c.d))
    ensures Pieces(top, p) && Ranked(s2, Ranks(c.b)) && Refines(s2, Ranks(c.b), top, p)
  {
    hide Bag, Cmp, Rank, Extended, QuadrantSound, Arranged, Comparable;
    var a, e, z := Stretch(top.lo, n, c.d), Stretch(n + 1, m - 1, c.d + 1), Stretch(m, top.hi, c.d);
    ArrangedPieces(p, a, e, z, top, n, m);
    ComparableRanked(c, s2);
    forall x, y | top.lo <= x < y <= top.hi && (PieceOf(p, x) != PieceOf(p, y) || PieceOf(p, x) == -1)
      ensures InOrder(s2, Ranks(c.b), x, y)
    {
      hide PieceOf;
      ArrangedAt(p, a, e, z, top, n, m, x, y);
      SplitDecides(c, s2, x, y);
    }
  }

  lemma ComparableRanked(c: Job, s: seq<int>)
    requires Comparable(c, s)
    ensures |c.b| > 0 && |s| > c.hi && Ranked(s, Ranks(c.b))
  {
  }

  /** Sharing of the new pieces. */
  lemma PieceShared(c: Job, t: Task, s2: seq<int>, n: int, m: int, st: Stretch)
    requires Comparable(c, s2) && t.key == c.ext && t.d == c.d <= 14 && t.lo == c.lo && t.hi == c.hi
    requires Gathered(t, s2, n, m)
    requires st == Stretch(c.lo, n, c.d) || st == Stretch(n + 1, m - 1, c.d + 1) || st == Stretch(m, c.hi, c.d)
    ensures |c.b| > 0 && 0 <= st.lo && st.hi < |s2| && Ranked(s2, Ranks(c.b)) && Shared(c.b, s2, st)
  {
    hide Bag, Cmp, Rank, Extended, QuadrantSound;
    forall x | st.lo <= x <= st.hi
      ensures Cmp(c.b, s2[st.lo], s2[x], st.d) == 0
    {
      if st.d == c.d {
        ComparableAt(c, s2, st.lo, x);
      } else {
        SplitExtends(c, s2, st.lo, x);
      }
    }
  }

  // ---------- the stack ----------

  lemma RestShared(c: Call, s: seq<int>, s2: seq<int>, rest: seq<Stretch>, top: Stretch, owner: seq<int>, k: nat)
    requires Sorting(c, s, rest + [top], owner) && Rearranged(s, s2, top.lo, top.hi + 1) && Ranked(s2, Ranks(c.b))
    requires k < |rest|
    ensures 0 <= rest[k].lo && rest[k].hi < |s2| && Shared(c.b, s2, rest[k])
  {
    hide Bag, Cmp, Rank, Halving, Extended, QuadrantSound;
    var stack := rest + [top];
    assert stack[k] == rest[k] && stack[|rest|] == top;
    assert Shared(c.b, s, stack[k]);
    forall x | rest[k].lo <= x <= rest[k].hi
      ensures s2[x] == s[x]
    {
      assert stack[k].Has(x) && owner[x] == k;
      assert !stack[|rest|].Has(x);
    }
  }

  lemma SortingStep(c: Call, s: seq<int>, s2: seq<int>, rest: seq<Stretch>, top: Stretch, owner: seq<int>,
                    pieces: seq<Stretch>)
    requires Sorting(c, s, rest + [top], owner)
    requires Rearranged(s, s2, top.lo, top.hi + 1) && Ranked(s2, Ranks(c.b))
    requires Pieces(top, pieces) && 0 <= top.lo && top.hi < |s2| && Refines(s2, Ranks(c.b), top, pieces)
    requires forall k | 0 <= k < |pieces| ::
      0 <= pieces[k].lo && pieces[k].hi < |s2| && Shared(c.b, s2, pieces[k])
    requires Halving(rest + pieces, c.hi - c.lo + 1)
    ensures Sorting(c, s2, rest + pieces, Reowned(owner, top, |rest|, pieces))
  {
    hide Bag, Open, Refines, Halving, Cmp, Rank, Extended, QuadrantSound, Shared;
    SortingTop(c, s, rest, top, owner);
    OpenStep(s, s2, Ranks(c.b), c.lo, c.hi, rest, top, owner, pieces);
    RearrangedWider(s, s2, top.lo, top.hi + 1, c.lo, c.hi + 1);
    RearrangedTransitive(c.s0, s, s2, c.lo, c.hi + 1);
    forall k | 0 <= k < |rest + pieces|
      ensures 0 <= (rest + pieces)[k].lo && (rest + pieces)[k].hi < |s2| && Shared(c.b, s2, (rest + pieces)[k])
    {
      if k < |rest| {
        RestShared(c, s, s2, rest, top, owner, k);
      }
    }
  }

  lemma HalvingPop(rest: seq<Stretch>, top: Stretch, size: nat)
    requires Halving(rest + [top], size)
    ensures Halving(rest, size) && 0 <= top.Size() && top.d <= 15
  {
    assert (rest + [top])[|rest|] == top;
    forall k | 0 <= k < |rest|
      ensures 0 <= rest[k].Size() <= Halved(size, k / 2) && rest[k].d <= 15
    {
      assert rest[k] == (rest + [top])[k];
    }
  }

  lemma PushNone(rest: seq<Stretch>, top: Stretch, size: nat)
    requires Halving(rest + [top], size)
    ensures Halving(rest, size) && Work(rest) < Work(rest + [top]) && rest + [] == rest
  {
    hide Weight;
    HalvingPop(rest, top, size);
    WorkOfPush(rest, top);
  }

  lemma PushDeeper(rest: seq<Stretch>, top: Stretch, size: nat)
    requires Halving(rest + [top], size) && 0 <= top.d <= DEPTH_THRESH && top.Size() > 0
    ensures Halving(rest + [top.(d := top.d + 1)], size)
    ensures Work(rest + [top.(d := top.d + 1)]) < Work(rest + [top]) && |rest| + 1 <= 36
  {
    var deeper := top.(d := top.d + 1);
    hide Halving, Halved, Work, Weight;
    HalvingDeeper(rest, top, size);
    WeightDeeper(top);
    WorkOfPush(rest, top);
    WorkOfPush(rest, deeper);
  }

  lemma WeightDeeper(top: Stretch)
    requires top.Size() > 0 && 0 <= top.d <= 15
    ensures Weight(top.(d := top.d + 1)) < Weight(top)
  {
    assert 3 * top.Size() * (15 - top.d) == 3 * top.Size() * (16 - top.d) - 3 * top.Size();
  }

  lemma HalvingDeeper(rest: seq<Stretch>, top: Stretch, size: nat)
    requires Halving(rest + [top], size) && 0 <= top.d <= DEPTH_THRESH
    ensures Halving(rest + [top.(d := top.d + 1)], size) && |rest| + 1 <= 36
  {
    var deeper := top.(d := top.d + 1);
    forall k | 0 <= k < |rest + [deeper]|
      ensures 0 <= (rest + [deeper])[k].Size() <= Halved(size, k / 2) && (rest + [deeper])[k].d <= 15
    {
      assert (rest + [deeper])[k].Size() == (rest + [top])[k].Size();
    }
  }

  lemma HalvingPush(rest: seq<Stretch>, top: Stretch, p: seq<Stretch>, size: nat)
    requires Halving(rest + [top], size) && size <= 900000 && top.Size() > SMALL_THRESH
    requires |p| == 3 && p[0].Size() >= p[1].Size() >= p[2].Size() >= 0
    requires p[0].Size() + p[1].Size() + p[2].Size() == top.Size()
    requires p[0].d <= 15 && p[1].d <= 15 && p[2].d <= 15
    ensures Halving(rest + p, size) && |rest| + 3 <= 36
  {
    var n := |rest|;
    assert (rest + [top])[n] == top;
    if n >= 34 {
      HalvedDecreases(size, 17, n / 2);
      HalvedMonotone(size, 900000, 17);
      HalvedMaximum();
    }
    HalvingPop(rest, top, size);
    forall k | 0 <= k < |rest + p|
      ensures 0 <= (rest + p)[k].Size() <= Halved(size, k / 2) && (rest + p)[k].d <= 15
    {
      if k < n {
        assert (rest + p)[k] == rest[k];
      } else {
        assert (rest + p)[k] == p[k - n];
        assert k == n + 2 ==> k / 2 == n / 2 + 1;
        assert k == n + 1 ==> k / 2 == n / 2 || k / 2 == n / 2 + 1;
      }
    }
  }

  lemma WeightOfThree(top: Stretch, a: Stretch, e: Stretch, z: Stretch)
    requires a.Size() >= 0 && e.Size() >= 1 && z.Size() >= 0 && a.Size() + e.Size() + z.Size() == top.Size()
    requires 0 <= top.d <= DEPTH_THRESH && a.d == z.d == top.d && e.d == top.d + 1
    ensures Weight(a) + Weight(e) + Weight(z) < Weight(top)
  {
    var w := 16 - top.d;
    assert 3 * top.Size() * w == 3 * a.Size() * w + 3 * e.Size() * w + 3 * z.Size() * w;
    assert 3 * e.Size() * (w - 1) == 3 * e.Size() * w - 3 * e.Size();
  }

  lemma PushThree(rest: seq<Stretch>, top: Stretch, a: Stretch, e: Stretch, z: Stretch, p: seq<Stretch>, size: nat)
    requires Halving(rest + [top], size) && size <= 900000 && top.Size() > SMALL_THRESH && 0 <= top.d <= DEPTH_THRESH
    requires a.Size() >= 0 && e.Size() >= 1 && z.Size() >= 0 && a.Size() + e.Size() + z.Size() == top.Size()
    requires a.d == z.d == top.d && e.d == top.d + 1
    requires Arranged(p, a, e, z) && p[0].Size() >= p[1].Size() >= p[2].Size()
    ensures Halving(rest + p, size) && Work(rest + p) < Work(rest + [top]) && |rest| + 3 <= 36
  {
    hide Halving, Halved, Work, Weight;
    HalvingPush(rest, top, p, size);
    WeightOfThree(top, a, e, z);
    WorkOfPush(rest, top);
    WorkOfPush(rest, p[0]);
    WorkOfPush(rest + [p[0]], p[1]);
    WorkOfPush(rest + [p[0]] + [p[1]], p[2]);
    assert rest + [p[0]] + [p[1]] + [p[2]] == rest + p;
  }

  // ---------- the sort ----------

  /** The three parts of a split, the largest first: two conditional exchanges, then the first again. */
  method OrderBySize(a: Stretch, e: Stretch, z: Stretch) returns (p: seq<Stretch>)
    ensures Arranged(p, a, e, z) && p[0].Size() >= p[1].Size() >= p[2].Size()
  {
    var n0, n1, n2 := a, z, e;
    if n0.Size() < n1.Size() {
      n0, n1 := n1, n0;
    }
    if n1.Size() < n2.Size() {
      n1, n2 := n2, n1;
    }
    if n0.Size() < n1.Size() {
      n0, n1 := n1, n0;
    }
    return [n0, n1, n2];
  }

  /** Split the popped stretch by character d; the result lists what goes back on the stack. */
  method SplitTop(ptr: array<int>, block: array<int>, top: Stretch, ghost c: Job,
                  ghost rest: seq<Stretch>, ghost size: nat)
    returns (pieces: seq<Stretch>)
    requires ptr != block && c.ext == block[..] && c.lo == top.lo && c.hi == top.hi && c.d == top.d
    requires Comparable(c, ptr[..]) && size <= 900000 && Halving(rest + [top], size)
    requires top.Size() > SMALL_THRESH && 0 <= top.d <= DEPTH_THRESH
    modifies ptr
    ensures Rearranged(old(ptr[..]), ptr[..], top.lo, top.hi + 1)
    ensures |c.b| > 0 && 0 <= top.lo && top.hi < ptr.Length && Ranked(ptr[..], Ranks(c.b))
    ensures Pieces(top, pieces) && Refines(ptr[..], Ranks(c.b), top, pieces)
    ensures forall k | 0 <= k < |pieces| ::
      0 <= pieces[k].lo && pieces[k].hi < ptr.Length && Shared(c.b, ptr[..], pieces[k])
    ensures Halving(rest + pieces, size) && Work(rest + pieces) < Work(rest + [top]) && |rest| + |pieces| <= 36
    ensures |pieces| <= 3
  {
    hide Comparable, Rearranged, Halving, Work, Gathered, Refines, Pieces, Arranged, Shared, Keyed, Ranked, Bag;
    var lo, hi, d := top.lo, top.hi, top.d;
    ghost var s := ptr[..];
    ComparableKeyed(c, s);
    var mid := (lo + hi) / 2;
    KeyedAt(s, d, block.Length, lo);
    KeyedAt(s, d, block.Length, hi);
    KeyedAt(s, d, block.Length, mid);
    var med := Median(block[ptr[lo] + d], block[ptr[hi] + d], block[ptr[mid] + d]);
    ghost var at := if med == block[ptr[lo] + d] then lo else if med == block[ptr[hi] + d] then hi else mid;
    ghost var t := Task(s, block[..], d, lo, hi, med);
    var allEqual, n, m := SplitAndGather(ptr, block, d, lo, hi, med);
    SplitFacts(c, t, ptr[..], n, m, at);
    var e := Stretch(n + 1, m - 1, d + 1);
    if allEqual {
      pieces := [e];
      assert e == top.(d := d + 1);
      PieceShared(c, t, ptr[..], n, m, e);
      AllEqualRefines(ptr[..], c.b, top, e);
      PushDeeper(rest, top, size);
    } else {
      var a, z := Stretch(lo, n, d), Stretch(m, hi, d);
      pieces := OrderBySize(a, e, z);
      SplitRefines(c, t, ptr[..], n, m, top, pieces);
      PieceShared(c, t, ptr[..], n, m, a);
      PieceShared(c, t, ptr[..], n, m, e);
      PieceShared(c, t, ptr[..], n, m, z);
      ArrangedMembers(pieces, a, e, z);
      PushThree(rest, top, a, e, z, pieces, size);
    }
  }

  lemma ArrangedMembers(p: seq<Stretch>, a: Stretch, e: Stretch, z: Stretch)
    requires Arranged(p, a, e, z)
    ensures |p| == 3 && forall k | 0 <= k < |p| :: p[k] == a || p[k] == e || p[k] == z
  {
  }

  lemma AllEqualRefines(s: seq<int>, b: seq<int>, top: Stretch, e: Stretch)
    requires |b| > 0 && Ranked(s, Ranks(b)) && 0 <= top.lo <= top.hi + 1 <= |s| && e == top.(d := top.d + 1)
    ensures Pieces(top, [e]) && Refines(s, Ranks(b), top, [e])
  {
  }

  lemma KeyedAt(s: seq<int>, d: int, size: int, i: int)
    requires Keyed(s, d, size) && 0 <= i < |s|
    ensures 0 <= s[i] + d < size
  {
  }

  lemma ComparableKeyed(c: Job, s: seq<int>)
    requires Comparable(c, s) && c.d <= DEPTH_THRESH
    ensures Keyed(s, c.d, |c.ext|) && 0 <= c.lo <= c.hi + 1 <= |s|
  {
    hide Cmp, Rank;
  }

  lemma SplitFacts(c: Job, t: Task, s2: seq<int>, n: int, m: int, at: int)
    requires t.key == c.ext && t.d == c.d && t.lo == c.lo && t.hi == c.hi && Comparable(c, t.start)
    requires Gathered(t, s2, n, m) && t.lo <= at <= t.hi
    requires Keyed(t.start, t.d, |t.key|) && t.med == t.key[t.start[at] + t.d]
    ensures Rearranged(t.start, s2, t.lo, t.hi + 1) && t.lo <= n + 1 < m <= t.hi + 1
    ensures Comparable(c, s2) && |c.b| > 0 && Ranked(s2, Ranks(c.b))
  {
    hide Bag, Cmp, Rank, Extended, QuadrantSound;
    ComparableKept(c, t.start, s2);
    var w := RearrangedFind(t.start, s2, t.lo, t.hi + 1, at);
  }

  lemma SortingStart(c: Call, st: Stretch, o: nat)
    requires |c.b| > OVERSHOOT && |c.s0| == |c.b| <= 900000 && Extended(c.b, c.ext) && QuadrantSound(c.b, c.q)
    requires Ranked(c.s0, Ranks(c.b)) && 0 <= c.lo <= c.hi < |c.s0|
    requires st == Stretch(c.lo, c.hi, st.d) && 0 <= st.d <= 15
    requires forall x | c.lo <= x <= c.hi :: Cmp(c.b, o, c.s0[x], st.d) == 0
    ensures Sorting(c, c.s0, [st], seq(|c.s0|, _ => 0))
  {
    hide Bag, Cmp, Rank, Extended, QuadrantSound, Open;
    OpenStart(c.s0, Ranks(c.b), c.lo, c.hi, st.d);
    forall x | c.lo <= x <= c.hi
      ensures Cmp(c.b, c.s0[c.lo], c.s0[x], st.d) == 0
    {
      CmpOpposite(c.b, o, c.s0[c.lo], st.d);
      CmpTransitive(c.b, c.s0[c.lo], o, c.s0[x], st.d);
    }
  }

  lemma SortingEnd(c: Call, s: seq<int>, owner: seq<int>)
    requires Sorting(c, s, [], owner)
    ensures |c.b| > 0 && Rearranged(c.s0, s, c.lo, c.hi + 1) && Ranked(s, Ranks(c.b))
    ensures 0 <= c.lo && c.hi < |s| && Ordered(s, Ranks(c.b), c.lo, c.hi)
  {
    hide Bag, Cmp, Rank, Extended, QuadrantSound;
    OpenEnd(s, Ranks(c.b), c.lo, c.hi, owner);
  }

  lemma SimpleRefines(c: Job, s: seq<int>, top: Stretch)
    requires c.lo == top.lo && c.hi == top.hi && Comparable(c, s) && OrderedUpTo(c, s, top.hi)
    ensures |c.b| > 0 && 0 <= top.lo && top.hi < |s| && Ranked(s, Ranks(c.b))
    ensures Pieces(top, []) && Refines(s, Ranks(c.b), top, [])
  {
    hide Bag, Cmp, Rank, Extended, QuadrantSound;
  }

  /**
   * mainQSort3: put ptr[loSt..hiSt], whose rotations share dSt characters, in the order of the rotations, unless the
   * work budget runs out. The assertion on sp is the source's own check that the stack does not run over.
   */
  method MainQSort3(ptr: array<int>, block: array<int>, quadrant: array<int>, nblock: nat,
                    loSt: int, hiSt: int, dSt: nat, budget: int, ghost b: seq<int>, ghost o: nat)
    returns (budget': int)
    requires ptr != block && ptr != quadrant && OVERSHOOT < nblock == |b| == ptr.Length <= 900000
    requires Extended(b, block[..]) && QuadrantSound(b, quadrant[..]) && Ranked(ptr[..], Ranks(b))
    requires 0 <= loSt <= hiSt < ptr.Length && dSt <= 15
    requires forall x | loSt <= x <= hiSt :: Cmp(b, o, ptr[..][x], dSt) == 0
    modifies ptr
    ensures budget' <= budget && (hiSt == loSt + 1 ==> budget' >= budget - MostWork(nblock))
    ensures Rearranged(old(ptr[..]), ptr[..], loSt, hiSt + 1)
    ensures budget' >= 0 ==> Ranked(ptr[..], Ranks(b)) && Ordered(ptr[..], Ranks(b), loSt, hiSt)
  {
    hide Comparable, Rearranged, Halving, Work, Gathered, Refines, Pieces, Arranged, Shared, Keyed, Ranked, Bag;
    hide Sorting, Ordered, Extended, QuadrantSound, OrderedUpTo, Cmp, Ranks;
    ghost var c, size := Call(b, block[..], quadrant[..], loSt, hiSt, ptr[..]), hiSt - loSt + 1;
    ghost var owner := seq(ptr.Length, _ => 0);
    budget' := budget;
    var stack := new Stretch[STACK_SIZE](_ => Stretch(0, -1, 0));
    var sp := 1;
    stack[0] := Stretch(loSt, hiSt, dSt);
    SortingStart(c, stack[0], o);
    assert stack[..sp] == [Stretch(loSt, hiSt, dSt)];
    while sp > 0
      invariant hiSt == loSt + 1 ==> if sp > 0 then sp == 1 && stack[0] == Stretch(loSt, hiSt, dSt) && budget' == budget
                                     else budget' >= budget - MostWork(nblock)
      invariant 0 <= sp <= 36 && budget' <= budget && c.ext == block[..] && c.q == quadrant[..]
      invariant Sorting(c, ptr[..], stack[..sp], owner)
      decreases Work(stack[..sp])
    {
      assert sp < STACK_SIZE - 2;
      sp := sp - 1;
      var top := stack[sp];
      ghost var rest, s := stack[..sp], ptr[..];
      assert stack[..sp + 1] == rest + [top];
      SortingTop(c, s, rest, top, owner);
      ghost var job := JobOf(c, s, top);
      if top.hi - top.lo < SMALL_THRESH || top.d > DEPTH_THRESH {
        budget' := MainSimpleSort(ptr, block, quadrant, nblock, top.lo, top.hi, top.d, budget', job);
        if budget' < 0 {
          SortingAbandoned(c, s, ptr[..], rest, top, owner);
          return;
        }
        SimpleRefines(job, ptr[..], top);
        PushNone(rest, top, size);
        SortingStep(c, s, ptr[..], rest, top, owner, []);
        owner := Reowned(owner, top, |rest|, []);
      } else {
        var pieces := SplitTop(ptr, block, top, job, rest, size);
        SortingStep(c, s, ptr[..], rest, top, owner, pieces);
        owner := Reowned(owner, top, |rest|, pieces);
        sp := PushAll(stack, sp, pieces);
      }
    }
    SortingEnd(c, ptr[..], owner);
  }

  lemma SortingAbandoned(c: Call, s: seq<int>, s2: seq<int>, rest: seq<Stretch>, top: Stretch, owner: seq<int>)
    requires Sorting(c, s, rest + [top], owner) && Rearranged(s, s2, top.lo, top.hi + 1)
    ensures Rearranged(c.s0, s2, c.lo, c.hi + 1)
  {
    hide Bag, Cmp, Rank, Halving, Extended, QuadrantSound, Open;
    SortingTop(c, s, rest, top, owner);
    RearrangedWider(s, s2, top.lo, top.hi + 1, c.lo, c.hi + 1);
    RearrangedTransitive(c.s0, s, s2, c.lo, c.hi + 1);
  }

  /** mpush for each piece in turn. */
  method PushAll(stack: array<Stretch>, sp: nat, pieces: seq<Stretch>) returns (sp': nat)
    requires sp + |pieces| <= stack.Length
    modifies stack
    ensures sp' == sp + |pieces|
    ensures stack[..sp'] == old(stack[..sp]) + pieces
  {
    ghost var rest := stack[..sp];
    sp' := sp;
    for k := 0 to |pieces|
      invariant sp' == sp + k && stack[..sp'] == rest + pieces[..k]
    {
      stack[sp'] := pieces[k];
      sp' := sp' + 1;
    }
  }
}
