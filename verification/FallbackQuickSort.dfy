/** fallbackSimpleSort and fallbackQSort3: sorting a bucket by equivalence class. */
module FallbackQuickSort {
  import opened Permutations
  import opened Partitioning
  import opened SortStack

  /** The entries of s[from..to) stand in the order of their keys. */
  ghost predicate SortedBy(s: seq<int>, key: seq<int>, from: int, to: int)
    requires 0 <= from && to <= |s| && Keyed(s, 0, |key|)
  {
    forall x, y | from <= x < y < to :: key[s[x]] <= key[s[y]]
  }

  /**
   * One insertion under way, seen with the entry being inserted standing in the hole p: it exceeds all entries from
   * i up to the hole, and without it i..hi is in order.
   */
  ghost predicate Inserting(s: seq<int>, key: seq<int>, i: int, p: int, hi: int)
    requires Keyed(s, 0, |key|)
  {
    && 0 <= i <= p <= hi < |s|
    && (forall x, y | i <= x < y <= hi && x != p && y != p :: key[s[x]] <= key[s[y]])
    && (forall x | i <= x < p :: key[s[x]] < key[s[p]])
  }

  lemma InsertingStart(s: seq<int>, key: seq<int>, i: int, hi: int)
    requires 0 <= i <= hi < |s| && Keyed(s, 0, |key|) && SortedBy(s, key, i + 1, hi + 1)
    ensures Inserting(s, key, i, i, hi)
  {
  }

  lemma InsertingStep(s: seq<int>, key: seq<int>, i: int, p: int, hi: int)
    requires Keyed(s, 0, |key|) && Inserting(s, key, i, p, hi)
    requires p < hi && key[s[p]] > key[s[p + 1]]
    ensures Keyed(Swapped(s, p, p + 1), 0, |key|)
    ensures Inserting(Swapped(s, p, p + 1), key, i, p + 1, hi)
  {
  }

  lemma InsertingEnd(s: seq<int>, key: seq<int>, i: int, p: int, hi: int)
    requires Keyed(s, 0, |key|) && Inserting(s, key, i, p, hi)
    requires p < hi ==> key[s[p]] <= key[s[p + 1]]
    ensures SortedBy(s, key, i, hi + 1)
  {
    forall x, y | i <= x < y <= hi
      ensures key[s[x]] <= key[s[y]]
    {
      if x == p {
        assert key[s[p]] <= key[s[p + 1]];
      }
    }
  }

  lemma KeyedAt(s: seq<int>, size: int, i: int)
    requires Keyed(s, 0, size) && 0 <= i < |s|
    ensures 0 <= s[i] < size
  {
  }

  lemma SwapStep(s0: seq<int>, s: seq<int>, i: int, j: int, lo: int, hi: int, size: int)
    requires Rearranged(s0, s, lo, hi) && Keyed(s, 0, size)
    requires lo <= i < hi && lo <= j < hi
    ensures Rearranged(s0, Swapped(s, i, j), lo, hi) && Keyed(Swapped(s, i, j), 0, size)
  {
    hide Bag;
    SwapRearranges(s, i, j, lo, hi);
  }

  /** The inner loop at stride h: sink a[i] to its place. */
  method Insert(a: array<int>, key: array<int>, i: int, hi: int, h: int, ghost lo: int)
    requires a != key && 0 <= lo <= i && 0 < h && i + h <= hi < a.Length
    requires Keyed(a[..], 0, key.Length)
    requires h == 1 ==> SortedBy(a[..], key[..], i + 1, hi + 1)
    modifies a
    ensures Rearranged(old(a[..]), a[..], lo, hi + 1)
    ensures Keyed(a[..], 0, key.Length)
    ensures h == 1 ==> SortedBy(a[..], key[..], i, hi + 1)
  {
    hide *;
    ghost var s0, keys := a[..], key[..];
    var tmp := a[i];
    KeyedAt(s0, key.Length, i);
    var ecTmp := key[tmp];
    var j := i + h;
    ghost var s := s0;
    RearrangedReflexive(s0, lo, hi + 1);
    if h == 1 {
      InsertingStart(s, keys, i, hi);
    }
    while true
      invariant keys == key[..] && i + h <= j <= hi + h
      invariant |s| == |s0| && s[j - h] == tmp && a[..] == s[j - h := a[j - h]]
      invariant Rearranged(s0, s, lo, hi + 1) && Keyed(s, 0, key.Length)
      invariant h == 1 ==> Inserting(s, keys, i, j - 1, hi)
      decreases hi - j
    {
      if j > hi {
        break;
      }
      KeyedAt(s, key.Length, j);
      assert a[j] == s[j];
      if ecTmp <= key[a[j]] {
        break;
      }
      if h == 1 {
        InsertingStep(s, keys, i, j - 1, hi);
      }
      SwapStep(s0, s, j - h, j, lo, hi + 1, key.Length);
      SwappedAt(s, j - h, j);
      a[j - h] := a[j];
      s := Swapped(s, j - h, j);
      j := j + h;
    }
    if h == 1 {
      InsertingEnd(s, keys, i, j - 1, hi);
    }
    a[j - h] := tmp;
    assert a[..] == s;
  }

  /** fallbackSimpleSort: one pass at stride 4 on longer stretches, then plain insertion. */
  method FallbackSimpleSort(a: array<int>, key: array<int>, lo: int, hi: int)
    requires a != key && 0 <= lo <= hi + 1 <= a.Length && Keyed(a[..], 0, key.Length)
    modifies a
    ensures Rearranged(old(a[..]), a[..], lo, hi + 1) && Keyed(a[..], 0, key.Length)
    ensures SortedBy(a[..], key[..], lo, hi + 1)
  {
    ghost var s0, keys := a[..], key[..];
    RearrangedReflexive(s0, lo, hi + 1);
    if lo == hi {
      return;
    }
    if hi - lo > 3 {
      hide *;
      var i := hi - 4;
      while i >= lo
        invariant lo - 1 <= i <= hi - 4
        invariant Rearranged(s0, a[..], lo, hi + 1) && Keyed(a[..], 0, key.Length)
      {
        ghost var s1 := a[..];
        Insert(a, key, i, hi, 4, lo);
        RearrangedTransitive(s0, s1, a[..], lo, hi + 1);
        i := i - 1;
      }
    }
    var i := hi - 1;
    while i >= lo
      invariant lo - 1 <= i < hi || i == hi - 1 == lo - 2
      invariant Rearranged(s0, a[..], lo, hi + 1) && Keyed(a[..], 0, key.Length)
      invariant key[..] == keys && (i >= lo - 1 ==> SortedBy(a[..], keys, i + 1, hi + 1))
    {
      ghost var s1 := a[..];
      Insert(a, key, i, hi, 1, lo);
      RearrangedTransitive(s0, s1, a[..], lo, hi + 1);
      i := i - 1;
    }
  }

  const SMALL_THRESH := 10
  const STACK_SIZE := 100

  /** The larger part is always pushed first, so sizes halve with each stack position. */
  ghost predicate Halving(stack: seq<Stretch>, size: nat) {
    && |stack| <= 18
    && forall k | 0 <= k < |stack| :: 0 <= stack[k].Size() <= Halved(size, k) && stack[k].d == 0
  }

  lemma HalvingPop(rest: seq<Stretch>, top: Stretch, size: nat)
    requires Halving(rest + [top], size)
    ensures Halving(rest, size)
  {
    forall k | 0 <= k < |rest|
      ensures 0 <= rest[k].Size() <= Halved(size, k) && rest[k].d == 0
    {
      assert rest[k] == (rest + [top])[k];
    }
  }

  lemma HalvingPush(rest: seq<Stretch>, top: Stretch, a: Stretch, b: Stretch, size: nat)
    requires Halving(rest + [top], size) && size <= 900000 && top.Size() > SMALL_THRESH
    requires a.Size() >= b.Size() >= 0 && a.Size() + b.Size() <= top.Size() && a.d == b.d == 0
    ensures Halving(rest + [a, b], size) && top.d == 0 && |rest| + 2 <= 18
  {
    var n := |rest|;
    assert (rest + [top])[n] == top;
    if n >= 17 {
      HalvedDecreases(size, 17, n);
      HalvedMonotone(size, 900000, 17);
      HalvedMaximum();
    }
    HalvingPop(rest, top, size);
    forall k | 0 <= k < |rest + [a, b]|
      ensures 0 <= (rest + [a, b])[k].Size() <= Halved(size, k) && (rest + [a, b])[k].d == 0
    {
      if k < n {
        assert (rest + [a, b])[k] == rest[k];
      }
    }
  }

  lemma SortedRefines(s2: seq<int>, rank: seq<int>, top: Stretch)
    requires Keyed(s2, 0, |rank|) && 0 <= top.lo <= top.hi + 1 <= |s2|
    requires SortedBy(s2, rank, top.lo, top.hi + 1)
    ensures Ranked(s2, rank) && Refines(s2, rank, top, []) && Pieces(top, [])
  {
  }

  /** What is left of a split stretch: the part below and the part above, in either order. */
  lemma SplitRefines(t: Task, s2: seq<int>, n: int, m: int, top: Stretch, swap: bool)
    requires t.d == 0 && t.lo == top.lo && t.hi == top.hi && Gathered(t, s2, n, m)
    ensures Ranked(s2, t.key) && Rearranged(t.start, s2, t.lo, t.hi + 1) && Keyed(s2, 0, |t.key|)
    ensures var a, b := Stretch(top.lo, n, 0), Stretch(m, top.hi, 0);
      var pieces := if swap then [b, a] else [a, b];
      Pieces(top, pieces) && Refines(s2, t.key, top, pieces)
  {
    hide Bag;
  }

  lemma AllEqualRefines(t: Task, s2: seq<int>, top: Stretch)
    requires t.d == 0 && t.lo == top.lo && t.hi == top.hi && Gathered(t, s2, t.lo - 1, t.hi + 1)
    ensures Ranked(s2, t.key) && Rearranged(t.start, s2, t.lo, t.hi + 1) && Keyed(s2, 0, |t.key|)
    ensures Pieces(top, []) && Refines(s2, t.key, top, [])
  {
    hide Bag;
  }

  /** The entry the median came from is still in the stretch, so the equal part is not empty. */
  lemma SplitShrinks(t: Task, s2: seq<int>, n: int, m: int, v: int)
    requires Gathered(t, s2, n, m) && t.lo <= v <= t.hi
    requires Keyed(t.start, t.d, |t.key|) && t.med == t.key[t.start[v] + t.d]
    ensures t.lo <= n + 1 < m <= t.hi + 1
  {
    var w := RearrangedFind(t.start, s2, t.lo, t.hi + 1, v);
  }

  lemma WeightOfTwo(top: Stretch, a: Stretch, b: Stretch)
    requires a.Size() >= 0 && b.Size() >= 0 && a.Size() + b.Size() < top.Size() && a.d == b.d == top.d == 0
    ensures Weight(a) + Weight(b) < Weight(top)
  {
  }

  lemma PushTwo(rest: seq<Stretch>, top: Stretch, a: Stretch, b: Stretch, size: nat)
    requires Halving(rest + [top], size) && size <= 900000 && top.Size() > SMALL_THRESH
    requires a.Size() >= b.Size() >= 0 && a.Size() + b.Size() < top.Size() && a.d == b.d == 0
    ensures Halving(rest + [a, b], size) && Work(rest + [a, b]) < Work(rest + [top])
    ensures |rest| + 2 <= 18
  {
    hide Halving, Halved, Work, Weight;
    HalvingPush(rest, top, a, b, size);
    WeightOfTwo(top, a, b);
    WorkOfPush(rest, top);
    WorkOfPush(rest, a);
    WorkOfPush(rest + [a], b);
    assert rest + [a] + [b] == rest + [a, b];
  }

  lemma PushNone(rest: seq<Stretch>, top: Stretch, size: nat)
    requires Halving(rest + [top], size)
    ensures Halving(rest, size) && Work(rest) < Work(rest + [top]) && rest + [] == rest
  {
    HalvingPop(rest, top, size);
    WorkOfPush(rest, top);
    assert (rest + [top])[|rest|] == top;
  }

  /** The invariant of the main loop. */
  ghost predicate Sorting(s0: seq<int>, s: seq<int>, rank: seq<int>, lo: int, hi: int,
                          stack: seq<Stretch>, owner: seq<int>) {
    && Rearranged(s0, s, lo, hi + 1)
    && Keyed(s, 0, |rank|)
    && Open(s, rank, lo, hi, stack, owner)
    && Halving(stack, hi - lo + 1)
  }

  lemma SortingStart(s0: seq<int>, rank: seq<int>, lo: int, hi: int)
    requires 0 <= lo <= hi < |s0| && Keyed(s0, 0, |rank|)
    ensures Sorting(s0, s0, rank, lo, hi, [Stretch(lo, hi, 0)], seq(|s0|, _ => 0))
  {
    OpenStart(s0, rank, lo, hi, 0);
  }

  lemma SortingTop(s0: seq<int>, s: seq<int>, rank: seq<int>, lo: int, hi: int,
                   rest: seq<Stretch>, top: Stretch, owner: seq<int>)
    requires Sorting(s0, s, rank, lo, hi, rest + [top], owner)
    ensures 0 <= lo <= top.lo <= top.hi + 1 <= hi + 1 <= |s| == |s0| && Keyed(s, 0, |rank|)
    ensures Halving(rest + [top], hi - lo + 1)
  {
    assert (rest + [top])[|rest|] == top;
  }

  lemma SortingStep(s0: seq<int>, s: seq<int>, s2: seq<int>, rank: seq<int>, lo: int, hi: int,
                    rest: seq<Stretch>, top: Stretch, owner: seq<int>, pieces: seq<Stretch>)
    requires Sorting(s0, s, rank, lo, hi, rest + [top], owner)
    requires Rearranged(s, s2, top.lo, top.hi + 1) && Keyed(s2, 0, |rank|)
    requires Ranked(s2, rank) && Pieces(top, pieces) && Refines(s2, rank, top, pieces)
    requires Halving(rest + pieces, hi - lo + 1)
    ensures Sorting(s0, s2, rank, lo, hi, rest + pieces, Reowned(owner, top, |rest|, pieces))
  {
    hide Bag, Open, Refines;
    SortingTop(s0, s, rank, lo, hi, rest, top, owner);
    OpenStep(s, s2, rank, lo, hi, rest, top, owner, pieces);
    RearrangedWider(s, s2, top.lo, top.hi + 1, lo, hi + 1);
  }

  /** Split the popped stretch and choose the order of the two pushes: the larger part goes first. */
  method SplitTop(fmap: array<int>, eclass: array<int>, top: Stretch, r: nat,
                  ghost rest: seq<Stretch>, ghost size: nat)
    returns (r': nat, push: bool, first: Stretch, second: Stretch, ghost pieces: seq<Stretch>)
    requires fmap != eclass && 0 <= top.lo && top.hi < fmap.Length && Keyed(fmap[..], 0, eclass.Length)
    requires top.Size() > SMALL_THRESH && size <= 900000 && Halving(rest + [top], size)
    modifies fmap
    ensures Rearranged(old(fmap[..]), fmap[..], top.lo, top.hi + 1) && Keyed(fmap[..], 0, eclass.Length)
    ensures pieces == if push then [first, second] else []
    ensures push ==> |rest| + 2 <= 18
    ensures Ranked(fmap[..], eclass[..]) && Pieces(top, pieces) && Refines(fmap[..], eclass[..], top, pieces)
    ensures Halving(rest + pieces, size) && Work(rest + pieces) < Work(rest + [top])
  {
    hide Sorting, Keyed, Ranked, Open, Refines, Pieces, Rearranged, Halving, Work, Gathered, Ordered, SortedBy;
    var lo, hi := top.lo, top.hi;
    r' := (r * 7621 + 1) % 32768;
    var r3 := r' % 3;
    var at := if r3 == 0 then lo else if r3 == 1 then (lo + hi) / 2 else hi;
    KeyedAt(fmap[..], eclass.Length, at);
    var med := eclass[fmap[at]];
    ghost var t := Task(fmap[..], eclass[..], 0, lo, hi, med);
    var allEqual, n, m := SplitAndGather(fmap, eclass, 0, lo, hi, med);
    first, second := Stretch(lo, n, 0), Stretch(m, hi, 0);
    push := !allEqual;
    if allEqual {
      pieces := [];
      AllEqualRefines(t, fmap[..], top);
      PushNone(rest, top, size);
    } else {
      SplitShrinks(t, fmap[..], n, m, at);
      if n - lo > hi - m {
        SplitRefines(t, fmap[..], n, m, top, false);
      } else {
        SplitRefines(t, fmap[..], n, m, top, true);
        first, second := second, first;
      }
      pieces := [first, second];
      PushTwo(rest, top, first, second, size);
    }
  }

  /**
   * fallbackQSort3: order the bucket loSt..hiSt by equivalence class. The assertion on sp is the source's own check
   * that the stack does not run over.
   */
  method FallbackQSort3(fmap: array<int>, eclass: array<int>, loSt: int, hiSt: int)
    requires fmap != eclass && 0 <= loSt <= hiSt < fmap.Length && Keyed(fmap[..], 0, eclass.Length)
    requires hiSt - loSt < 900000
    modifies fmap
    ensures Rearranged(old(fmap[..]), fmap[..], loSt, hiSt + 1)
    ensures Ranked(fmap[..], eclass[..]) && Ordered(fmap[..], eclass[..], loSt, hiSt)
  {
    hide Sorting, Keyed, Ranked, Open, Refines, Pieces, Rearranged, Halving, Work, Gathered, Ordered, SortedBy;
    ghost var s0, rank, size := fmap[..], eclass[..], hiSt - loSt + 1;
    ghost var owner := seq(fmap.Length, _ => 0);
    var stack := new Stretch[STACK_SIZE](_ => Stretch(0, -1, 0));
    var r, sp := 0, 1;
    stack[0] := Stretch(loSt, hiSt, 0);
    SortingStart(s0, rank, loSt, hiSt);
    assert stack[..sp] == [Stretch(loSt, hiSt, 0)];
    while sp > 0
      invariant 0 <= sp <= 18 && rank == eclass[..]
      invariant Sorting(s0, fmap[..], rank, loSt, hiSt, stack[..sp], owner)
      decreases Work(stack[..sp])
    {
      assert sp < STACK_SIZE - 1;
      sp := sp - 1;
      var top := stack[sp];
      ghost var rest, s := stack[..sp], fmap[..];
      assert stack[..sp + 1] == rest + [top];
      SortingTop(s0, s, rank, loSt, hiSt, rest, top, owner);
      if top.hi - top.lo < SMALL_THRESH {
        FallbackSimpleSort(fmap, eclass, top.lo, top.hi);
        SortedRefines(fmap[..], rank, top);
        PushNone(rest, top, size);
        SortingStep(s0, s, fmap[..], rank, loSt, hiSt, rest, top, owner, []);
        owner := Reowned(owner, top, |rest|, []);
      } else {
        var push, first, second;
        ghost var pieces;
        r, push, first, second, pieces := SplitTop(fmap, eclass, top, r, rest, size);
        SortingStep(s0, s, fmap[..], rank, loSt, hiSt, rest, top, owner, pieces);
        owner := Reowned(owner, top, |rest|, pieces);
        if push {
          stack[sp] := first;
          stack[sp + 1] := second;
          sp := sp + 2;
        }
        assert stack[..sp] == rest + pieces;
      }
    }
    SortingEnd(s0, fmap[..], rank, loSt, hiSt, owner);
  }

  lemma SortingEnd(s0: seq<int>, s: seq<int>, rank: seq<int>, lo: int, hi: int, owner: seq<int>)
    requires Sorting(s0, s, rank, lo, hi, [], owner)
    ensures Rearranged(s0, s, lo, hi + 1) && Ranked(s, rank) && Ordered(s, rank, lo, hi)
  {
    OpenEnd(s, rank, lo, hi, owner);
  }
}
