/** The binary heap of huffman.c: entries 1, 2, ..., ordered by weight, below a sentinel in entry 0. */
module Heap {
  import opened Permutations
  import opened SortStack

  /** Entry k is not lighter than the entry above it. */
  ghost predicate Under(s: seq<int>, weight: seq<int>, k: int)
    requires Ranked(s, weight) && 0 <= k < |s|
  {
    weight[s[k / 2]] <= weight[s[k]]
  }

  ghost predicate HeapOrder(s: seq<int>, weight: seq<int>, n: int) {
    && Ranked(s, weight) && 0 <= n < |s|
    && forall k | 2 <= k <= n :: Under(s, weight, k)
  }

  /** What stands in entries 1, ..., n. */
  ghost function HeapBag(s: seq<int>, n: int): multiset<int>
    requires 0 <= n < |s|
  {
    multiset(s[1..n + 1])
  }

  lemma {:induction false} TopIsLightest(s: seq<int>, weight: seq<int>, n: int, k: int)
    requires HeapOrder(s, weight, n) && 1 <= k <= n
    ensures weight[s[1]] <= weight[s[k]]
  {
    if k > 1 {
      assert Under(s, weight, k);
      TopIsLightest(s, weight, n, k / 2);
    }
  }

  /** Everything in the heap weighs at least as much as its top. */
  lemma LightestOfBag(s: seq<int>, weight: seq<int>, n: int, v: int)
    requires HeapOrder(s, weight, n) && v in HeapBag(s, n)
    ensures 1 <= n && 0 <= v < |weight| && weight[s[1]] <= weight[v]
  {
    assert v in s[1..n + 1];
    var k :| 0 <= k < n && s[1..n + 1][k] == v;
    TopIsLightest(s, weight, n, k + 1);
  }

  lemma RearrangedBag(a: seq<int>, b: seq<int>, n: int)
    requires 0 <= n < |a| && Rearranged(a, b, 1, n + 1)
    ensures HeapBag(a, n) == HeapBag(b, n)
  {
    RearrangedStretch(a, b, 1, n + 1);
  }

  /** The top is taken out and the last entry put in its place. */
  lemma BagOfPop(s: seq<int>, n: int)
    requires 1 <= n < |s|
    ensures s[1] in HeapBag(s, n) && HeapBag(s[1 := s[n]], n - 1) == HeapBag(s, n) - multiset{s[1]}
  {
    var t := s[1 := s[n]];
    if n == 1 {
      assert s[1..2] == [s[1]] && t[1..1] == [];
    } else {
      assert s[1..n + 1] == [s[1]] + s[2..n] + [s[n]];
      assert t[1..n] == [s[n]] + s[2..n];
    }
  }

  lemma BagOfPush(s: seq<int>, n: int, v: int)
    requires 0 <= n < |s| - 1
    ensures HeapBag(s[n + 1 := v], n + 1) == HeapBag(s, n) + multiset{v}
  {
    assert s[n + 1 := v][1..n + 2] == s[1..n + 1] + [v];
  }

  // ---------- upwards ----------

  /** Only entry z may be lighter than the entry above it. */
  ghost predicate Rising(s: seq<int>, weight: seq<int>, z: int, n: int) {
    && Ranked(s, weight) && 1 <= z <= n < |s|
    && (forall k | 2 <= k <= n && k != z :: Under(s, weight, k))
    && (forall k | 2 <= k <= n && k / 2 == z && z >= 2 :: weight[s[z / 2]] <= weight[s[k]])
  }

  lemma RisingStep(s: seq<int>, weight: seq<int>, z: int, n: int)
    requires Rising(s, weight, z, n) && z >= 2 && weight[s[z]] < weight[s[z / 2]]
    ensures Rising(Swapped(s, z / 2, z), weight, z / 2, n)
  {
    var t, y := Swapped(s, z / 2, z), z / 2;
    SwappedAt(s, y, z);
    assert y >= 2 ==> Under(s, weight, y);
    forall k | 2 <= k <= n && k != y
      ensures Under(t, weight, k)
    {
      assert k != z ==> Under(s, weight, k);
      assert k / 2 == y || k / 2 == z || t[k / 2] == s[k / 2];
    }
    forall k | 2 <= k <= n && k / 2 == y && y >= 2
      ensures weight[t[y / 2]] <= weight[t[k]]
    {
      assert k != z ==> Under(s, weight, k);
    }
  }

  lemma RisingEnd(s: seq<int>, weight: seq<int>, z: int, n: int)
    requires Rising(s, weight, z, n) && (z >= 2 ==> weight[s[z / 2]] <= weight[s[z]])
    ensures HeapOrder(s, weight, n)
  {
  }

  lemma RisingStart(s: seq<int>, weight: seq<int>, z: int)
    requires HeapOrder(s, weight, z - 1) && 1 <= z < |s|
    ensures Rising(s, weight, z, z)
  {
  }

  lemma RankedAt(s: seq<int>, weight: seq<int>, k: int)
    requires Ranked(s, weight) && 0 <= k < |s|
    ensures 0 <= s[k] < |weight|
  {
  }

  lemma RisingRanked(s: seq<int>, weight: seq<int>, z: int, n: int)
    requires Rising(s, weight, z, n)
    ensures Ranked(s, weight) && 1 <= z <= n < |s|
  {
  }

  /** UPHEAP: the entry in z rises to its place. */
  method UpHeap(heap: array<int>, weight: array<int>, z: int)
    requires heap != weight && 1 <= z < heap.Length && 0 < weight.Length
    requires HeapOrder(heap[..], weight[..], z - 1)
    requires heap[0] == 0 && weight[0] == 0 && weight[heap[z]] >= 0
    modifies heap
    ensures HeapOrder(heap[..], weight[..], z)
    ensures Rearranged(old(heap[..]), heap[..], 1, z + 1)
  {
    ghost var s0, w := heap[..], weight[..];
    hide *;
    var zz := z;
    RisingStart(s0, w, z);
    RisingRanked(s0, w, z, z);
    RankedAt(s0, w, z);
    RankedAt(s0, w, z / 2);
    var tmp := heap[zz];
    ghost var s := s0;
    RearrangedReflexive(s0, 1, z + 1);
    assert heap[..] == s[zz := heap[zz]];
    while weight[tmp] < weight[heap[zz / 2]]
      invariant 1 <= zz <= z && weight[..] == w && |s| == |s0| && heap[0] == 0 == s[0]
      invariant s[zz] == tmp && heap[..] == s[zz := heap[zz]]
      invariant 0 <= tmp < |w| && 0 <= heap[zz / 2] < |w|
      invariant Rising(s, w, zz, z) && Rearranged(s0, s, 1, z + 1)
      decreases zz
    {
      assert zz / 2 != 0;
      assert heap[zz / 2] == s[zz / 2];
      RisingRanked(s, w, zz, z);
      RisingStep(s, w, zz, z);
      SwappedAt(s, zz / 2, zz);
      SwapRearranges(s, zz / 2, zz, 1, z + 1);
      RearrangedTransitive(s0, s, Swapped(s, zz / 2, zz), 1, z + 1);
      heap[zz] := heap[zz / 2];
      s := Swapped(s, zz / 2, zz);
      zz := zz / 2;
      RisingRanked(s, w, zz, z);
      RankedAt(s, w, zz / 2);
    }
    RisingRanked(s, w, zz, z);
    assert heap[..][zz / 2] == heap[zz / 2];
    RisingEnd(s, w, zz, z);
    heap[zz] := tmp;
    assert heap[..] == s;
  }

  // ---------- downwards ----------

  /** Only the entries below z may be lighter than the entry above them. */
  ghost predicate Falling(s: seq<int>, weight: seq<int>, z: int, n: int) {
    && Ranked(s, weight) && 1 <= z && z < |s| && 0 <= n < |s|
    && (forall k | 2 <= k <= n && k / 2 != z :: Under(s, weight, k))
    && (forall k | 2 <= k <= n && k / 2 == z && z >= 2 :: weight[s[z / 2]] <= weight[s[k]])
  }

  lemma FallingStep(s: seq<int>, weight: seq<int>, z: int, y: int, n: int)
    requires Falling(s, weight, z, n) && 2 <= y <= n && y / 2 == z
    requires forall k | 2 <= k <= n && k / 2 == z :: weight[s[y]] <= weight[s[k]]
    requires weight[s[y]] <= weight[s[z]]
    ensures Falling(Swapped(s, z, y), weight, y, n)
  {
    var t := Swapped(s, z, y);
    SwappedAt(s, z, y);
    assert z >= 2 ==> Under(s, weight, z);
    forall k | 2 <= k <= n && k / 2 != y
      ensures Under(t, weight, k)
    {
      assert k / 2 != z ==> Under(s, weight, k);
      assert k / 2 == y || k / 2 == z || t[k / 2] == s[k / 2];
    }
    forall k | 2 <= k <= n && k / 2 == y
      ensures weight[t[y / 2]] <= weight[t[k]]
    {
      assert Under(s, weight, k);
    }
  }

  lemma FallingEnd(s: seq<int>, weight: seq<int>, z: int, n: int)
    requires Falling(s, weight, z, n)
    requires forall k | 2 <= k <= n && k / 2 == z :: weight[s[z]] <= weight[s[k]]
    ensures HeapOrder(s, weight, n)
  {
  }

  lemma FallingStart(s: seq<int>, weight: seq<int>, n: int, v: int)
    requires HeapOrder(s, weight, n) && 1 <= n
    ensures Falling(s[1 := s[n]], weight, 1, n - 1)
  {
    var t := s[1 := s[n]];
    forall k | 2 <= k <= n - 1 && k / 2 != 1
      ensures Under(t, weight, k)
    {
      assert Under(s, weight, k);
    }
  }

  lemma FallingRanked(s: seq<int>, weight: seq<int>, z: int, n: int)
    requires Falling(s, weight, z, n)
    ensures Ranked(s, weight) && 1 <= z < |s| && 0 <= n < |s|
  {
  }

  lemma FallingChildren(s: seq<int>, weight: seq<int>, z: int, y: int, n: int)
    requires Falling(s, weight, z, n) && 2 * z <= n
    requires y == if 2 * z < n && weight[s[2 * z + 1]] < weight[s[2 * z]] then 2 * z + 1 else 2 * z
    ensures 2 <= y <= n && y / 2 == z && forall k | 2 <= k <= n && k / 2 == z :: weight[s[y]] <= weight[s[k]]
  {
    forall k | 2 <= k <= n && k / 2 == z
      ensures weight[s[y]] <= weight[s[k]]
    {
      assert k == 2 * z || k == 2 * z + 1;
    }
  }

  /** DOWNHEAP(1): the entry in 1 falls to its place among entries 1, ..., n. */
  method DownHeap(heap: array<int>, weight: array<int>, nHeap: int)
    requires heap != weight && 1 < heap.Length && Falling(heap[..], weight[..], 1, nHeap)
    modifies heap
    ensures HeapOrder(heap[..], weight[..], nHeap)
    ensures HeapBag(heap[..], nHeap) == HeapBag(old(heap[..]), nHeap)
    ensures heap[0] == old(heap[0])
  {
    ghost var s0, w := heap[..], weight[..];
    hide *;
    var zz := 1;
    FallingRanked(s0, w, 1, nHeap);
    RankedAt(s0, w, 1);
    var tmp := heap[zz];
    ghost var s := s0;
    ghost var top := if nHeap == 0 then 2 else nHeap + 1;
    RearrangedReflexive(s0, 1, top);
    assert heap[..] == s[zz := heap[zz]];
    while true
      invariant 1 <= zz < top && weight[..] == w && |s| == |s0| && heap[0] == s[0] == s0[0]
      invariant s[zz] == tmp && heap[..] == s[zz := heap[zz]]
      invariant 0 <= tmp < |w|
      invariant Falling(s, w, zz, nHeap) && Rearranged(s0, s, 1, top)
      decreases nHeap - zz
    {
      FallingRanked(s, w, zz, nHeap);
      var yy := 2 * zz;
      if yy > nHeap {
        break;
      }
      RankedAt(s, w, yy);
      assert heap[yy] == s[yy];
      if yy < nHeap {
        RankedAt(s, w, yy + 1);
        assert heap[yy + 1] == s[yy + 1];
        if weight[heap[yy + 1]] < weight[heap[yy]] {
          yy := yy + 1;
        }
      }
      FallingChildren(s, w, zz, yy, nHeap);
      assert heap[yy] == s[yy];
      if weight[tmp] < weight[heap[yy]] {
        break;
      }
      FallingStep(s, w, zz, yy, nHeap);
      SwappedAt(s, zz, yy);
      SwapRearranges(s, zz, yy, 1, top);
      RearrangedTransitive(s0, s, Swapped(s, zz, yy), 1, top);
      heap[zz] := heap[yy];
      s := Swapped(s, zz, yy);
      zz := yy;
    }
    FallingEnd(s, w, zz, nHeap);
    heap[zz] := tmp;
    assert heap[..] == s;
    DownBag(s0, s, nHeap, top);
  }

  lemma DownBag(s0: seq<int>, s: seq<int>, n: int, top: int)
    requires 0 <= n < |s0| && 1 < |s0| && top == (if n == 0 then 2 else n + 1) && Rearranged(s0, s, 1, top)
    ensures |s| == |s0| && HeapBag(s, n) == HeapBag(s0, n)
  {
    if n > 0 {
      RearrangedBag(s0, s, n);
    }
  }

  // ---------- taking out and putting in ----------

  /** Take the lightest entry out. */
  method PopTop(heap: array<int>, weight: array<int>, nHeap: int) returns (top: int)
    requires heap != weight && 1 <= nHeap < heap.Length && HeapOrder(heap[..], weight[..], nHeap)
    modifies heap
    ensures top == old(heap[1]) && heap[0] == old(heap[0])
    ensures top in HeapBag(old(heap[..]), nHeap)
    ensures HeapOrder(heap[..], weight[..], nHeap - 1)
    ensures HeapBag(heap[..], nHeap - 1) == HeapBag(old(heap[..]), nHeap) - multiset{top}
  {
    ghost var s, w := heap[..], weight[..];
    hide *;
    FallingStart(s, w, nHeap, 0);
    BagOfPop(s, nHeap);
    top := heap[1];
    heap[1] := heap[nHeap];
    assert heap[..] == s[1 := s[nHeap]];
    DownHeap(heap, weight, nHeap - 1);
  }

  /** Giving a weight to something that is not in the heap, and writing it behind the last entry. */
  lemma PushReady(s: seq<int>, weight: seq<int>, n: int, v: int, w: int)
    requires HeapOrder(s, weight, n) && n + 1 < |s| && 0 <= v < |weight| && v !in HeapBag(s, n) && v != s[0]
    ensures HeapOrder(s[n + 1 := v], weight[v := w], n)
  {
    var t, weight' := s[n + 1 := v], weight[v := w];
    forall k | 1 <= k <= n
      ensures s[k] != v
    {
      assert s[1..n + 1][k - 1] == s[k];
      assert s[k] in s[1..n + 1];
    }
    forall k | 2 <= k <= n
      ensures Under(t, weight', k)
    {
      assert Under(s, weight, k);
    }
  }

  /** Put v in, with weight w. */
  method Push(heap: array<int>, weight: array<int>, nHeap: int, v: int, w: int)
    requires heap != weight && 0 <= nHeap && nHeap + 1 < heap.Length && 0 < v < weight.Length && w >= 0
    requires HeapOrder(heap[..], weight[..], nHeap) && heap[0] == 0 && weight[0] == 0
    requires v !in HeapBag(heap[..], nHeap)
    modifies heap, weight
    ensures weight[..] == old(weight[..])[v := w]
    ensures HeapOrder(heap[..], weight[..], nHeap + 1) && heap[0] == 0
    ensures HeapBag(heap[..], nHeap + 1) == HeapBag(old(heap[..]), nHeap) + multiset{v}
  {
    ghost var s, wt := heap[..], weight[..];
    hide *;
    PushReady(s, wt, nHeap, v, w);
    BagOfPush(s, nHeap, v);
    weight[v] := w;
    heap[nHeap + 1] := v;
    ghost var t := heap[..];
    assert t == s[nHeap + 1 := v] && weight[..] == wt[v := w];
    UpHeap(heap, weight, nHeap + 1);
    RearrangedBag(t, heap[..], nHeap + 1);
    RearrangedFirst(t, heap[..], nHeap + 2);
  }

  lemma RearrangedFirst(a: seq<int>, b: seq<int>, hi: int)
    requires Rearranged(a, b, 1, hi)
    ensures b[0] == a[0]
  {
  }
}
