/** BZ2_hbMakeCodeLengths: length-limited Huffman code lengths. */
module Huffman {
  import opened Bits
  import opened Forest
  import opened Heap
  import opened Optimality
  import opened Permutations
  import opened PrefixCodes
  import opened SortStack

  const MAXALPHA := 258      // BZ_MAX_ALPHA_SIZE
  const HEAPSIZE := 260      // BZ_MAX_ALPHA_SIZE + 2
  const NODES := 516         // BZ_MAX_ALPHA_SIZE * 2
  const MAXTOTAL := 900259   // 900001 occurrences, and one for each symbol that does not occur

  // ---------- packed weights: the weight above bit 8, the depth of the tree below it ----------

  function WeightPart(w: nat): nat {
    w / 256
  }

  function DepthPart(w: nat): nat {
    w % 256
  }

  function Max(a: nat, b: nat): nat {
    if a > b then a else b
  }

  /** ADDWEIGHTS. */
  function AddWeights(a: nat, b: nat): nat {
    Or((WeightPart(a) + WeightPart(b)) * 256, 1 + Max(DepthPart(a), DepthPart(b)))
  }

  lemma AddedWeights(a: nat, b: nat)
    requires DepthPart(a) < 255 && DepthPart(b) < 255
    ensures WeightPart(AddWeights(a, b)) == WeightPart(a) + WeightPart(b)
    ensures DepthPart(AddWeights(a, b)) == 1 + Max(DepthPart(a), DepthPart(b))
  {
    OrByte(WeightPart(a) + WeightPart(b), 1 + Max(DepthPart(a), DepthPart(b)));
  }

  // ---------- the state of the joining loop ----------

  ghost predicate Leaves(leaf: seq<int>, alpha: int, wt: seq<int>) {
    && 3 <= alpha <= MAXALPHA && |leaf| == alpha + 1 && |wt| == NODES && wt[0] == 0
    && (forall k | 1 <= k <= alpha :: leaf[k] >= 1 && wt[k] == leaf[k] * 256)
    && Total(leaf, alpha) <= MAXTOTAL
  }

  /** The root v: its weight, and how its depth is limited by its weight and by the last weight joined, m. */
  ghost predicate RootOk(alpha: int, leaf: seq<int>, wt: seq<int>, parent: seq<int>, n: int, m: int, v: int)
    requires IsForest(parent, n) && 0 <= alpha <= n && alpha < |leaf| && 1 <= v <= n && n < |wt|
  {
    && wt[v] >= 0
    && WeightPart(wt[v]) == WeightOf(parent, n, leaf, alpha, v)
    && WeightPart(wt[v]) >= m
    && WeightPart(wt[v]) >= Fib(DepthPart(wt[v]) + 2)
    && m >= Fib(DepthPart(wt[v]) + 1)
    && KraftOf(parent, n, alpha, v) == Pow2(SCALE)
  }

  ghost predicate LeafOk(wt: seq<int>, parent: seq<int>, n: int, k: int)
    requires IsForest(parent, n) && 1 <= k <= n && n < |wt|
  {
    wt[Root(parent, n, k)] >= 0 && Depth(parent, n, k) <= DepthPart(wt[Root(parent, n, k)])
  }

  ghost predicate Growing(alpha: int, leaf: seq<int>, wt: seq<int>, parent: seq<int>, n: int, m: int) {
    && Leaves(leaf, alpha, wt) && |parent| == NODES
    && alpha <= n < 2 * alpha && IsForest(parent, n) && parent[n] == -1
    && (forall v | 1 <= v <= n && parent[v] == -1 :: RootOk(alpha, leaf, wt, parent, n, m, v))
    && (forall k | 1 <= k <= alpha :: LeafOk(wt, parent, n, k))
  }

  /** No tree is deeper than 28, since its weight would exceed the total. */
  lemma DepthLimit(alpha: int, leaf: seq<int>, wt: seq<int>, parent: seq<int>, n: int, m: int, v: int)
    requires Growing(alpha, leaf, wt, parent, n, m) && 1 <= v <= n && parent[v] == -1
    ensures 0 <= wt[v] < 0x8000_0000 && DepthPart(wt[v]) <= 28 && 0 <= WeightPart(wt[v]) <= MAXTOTAL
  {
    assert RootOk(alpha, leaf, wt, parent, n, m, v);
    WeightAtMostTotal(parent, n, leaf, alpha, v);
    if DepthPart(wt[v]) > 28 {
      FibMonotone(31, DepthPart(wt[v]) + 2);
      FibValues();
    }
  }

  /** Joining the two lightest trees. */
  lemma JoinKeepsOthers(alpha: int, leaf: seq<int>, wt: seq<int>, parent: seq<int>, n: int, m: int,
                        a: int, b: int, wt': seq<int>, v: int)
    requires Growing(alpha, leaf, wt, parent, n, m) && n + 1 < 2 * alpha
    requires 1 <= a <= n && 1 <= b <= n && a != b && parent[a] == -1 && parent[b] == -1
    requires 0 <= wt[a] <= wt[b] && 1 <= v <= n && parent[v] == -1 && v != a && v != b && wt[b] <= wt[v]
    requires |wt'| == |wt| && wt'[v] == wt[v]
    ensures IsForest(Joined(parent, n, a, b), n + 1)
    ensures RootOk(alpha, leaf, wt', Joined(parent, n, a, b), n + 1, WeightPart(wt[b]), v)
  {
    hide Fib, Leaves, WeightOf, KraftOf;
    LeavesSized(alpha, leaf, wt, parent, n, m);
    assert RootOk(alpha, leaf, wt, parent, n, m, v) && RootOk(alpha, leaf, wt, parent, n, m, b);
    LeavesShallow(alpha, leaf, wt, parent, n, m);
    JoinedKraft(parent, n, a, b, alpha, v);
    JoinedWeight(parent, n, a, b, leaf, alpha, v);
  }

  lemma LeavesSized(alpha: int, leaf: seq<int>, wt: seq<int>, parent: seq<int>, n: int, m: int)
    requires Growing(alpha, leaf, wt, parent, n, m)
    ensures 3 <= alpha <= 258 && |leaf| == alpha + 1 && |wt| == |parent| == 516 && wt[0] == 0
    ensures IsForest(parent, n) && Leaves(leaf, alpha, wt) && alpha <= n < 2 * alpha
    ensures forall k | 1 <= k <= alpha :: leaf[k] >= 1
  {
  }

  lemma LeavesShallow(alpha: int, leaf: seq<int>, wt: seq<int>, parent: seq<int>, n: int, m: int)
    requires Growing(alpha, leaf, wt, parent, n, m)
    ensures forall k | 1 <= k <= alpha :: Depth(parent, n, k) <= 28 < SCALE
  {
    forall k | 1 <= k <= alpha
      ensures Depth(parent, n, k) <= 28
    {
      assert LeafOk(wt, parent, n, k);
      DepthLimit(alpha, leaf, wt, parent, n, m, Root(parent, n, k));
    }
  }

  lemma JoinMakesRoot(alpha: int, leaf: seq<int>, wt: seq<int>, parent: seq<int>, n: int, m: int,
                      a: int, b: int, wt': seq<int>)
    requires Growing(alpha, leaf, wt, parent, n, m) && n + 1 < 2 * alpha
    requires 1 <= a <= n && 1 <= b <= n && a != b && parent[a] == -1 && parent[b] == -1
    requires 0 <= wt[a] <= wt[b] && wt' == wt[n + 1 := AddWeights(wt[a], wt[b])]
    ensures IsForest(Joined(parent, n, a, b), n + 1)
    ensures RootOk(alpha, leaf, wt', Joined(parent, n, a, b), n + 1, WeightPart(wt[b]), n + 1)
    ensures DepthPart(wt'[n + 1]) == 1 + Max(DepthPart(wt[a]), DepthPart(wt[b]))
  {
    hide Fib, Leaves, AddWeights, WeightOf, KraftOf;
    LeavesSized(alpha, leaf, wt, parent, n, m);
    assert RootOk(alpha, leaf, wt, parent, n, m, a) && RootOk(alpha, leaf, wt, parent, n, m, b);
    DepthLimit(alpha, leaf, wt, parent, n, m, a);
    DepthLimit(alpha, leaf, wt, parent, n, m, b);
    AddedWeights(wt[a], wt[b]);
    LeavesShallow(alpha, leaf, wt, parent, n, m);
    JoinedKraft(parent, n, a, b, alpha, a);
    JoinedWeight(parent, n, a, b, leaf, alpha, a);
    FibStep(Max(DepthPart(wt[a]), DepthPart(wt[b])));
  }

  lemma FibStep(h: nat)
    ensures Fib(h + 3) == Fib(h + 2) + Fib(h + 1)
  {
  }

  lemma JoinKeepsLeaf(alpha: int, leaf: seq<int>, wt: seq<int>, parent: seq<int>, n: int, m: int,
                      a: int, b: int, wt': seq<int>, k: int)
    requires Growing(alpha, leaf, wt, parent, n, m) && n + 1 < 2 * alpha
    requires 1 <= a <= n && 1 <= b <= n && a != b && parent[a] == -1 && parent[b] == -1 && 1 <= k <= alpha
    requires |wt'| == |wt| && forall v | 0 <= v <= n :: wt'[v] == wt[v]
    requires wt[a] >= 0 && wt[b] >= 0 && wt'[n + 1] >= 0
    requires DepthPart(wt'[n + 1]) == 1 + Max(DepthPart(wt[a]), DepthPart(wt[b]))
    ensures IsForest(Joined(parent, n, a, b), n + 1)
    ensures LeafOk(wt', Joined(parent, n, a, b), n + 1, k)
  {
    hide RootOk;
    assert LeafOk(wt, parent, n, k);
    JoinedIsForest(parent, n, a, b);
    JoinedAt(parent, n, a, b, k);
  }

  lemma JoinGrows(alpha: int, leaf: seq<int>, wt: seq<int>, parent: seq<int>, n: int, m: int, a: int, b: int)
    requires Growing(alpha, leaf, wt, parent, n, m) && n + 1 < 2 * alpha
    requires 1 <= a <= n && 1 <= b <= n && a != b && parent[a] == -1 && parent[b] == -1
    requires 0 <= wt[a] <= wt[b]
    requires forall v | 1 <= v <= n && parent[v] == -1 && v != a && v != b :: wt[b] <= wt[v]
    ensures Growing(alpha, leaf, wt[n + 1 := AddWeights(wt[a], wt[b])], Joined(parent, n, a, b), n + 1,
                    WeightPart(wt[b]))
  {
    hide RootOk, LeafOk, AddWeights;
    var wt', p, n' := wt[n + 1 := AddWeights(wt[a], wt[b])], Joined(parent, n, a, b), n + 1;
    JoinMakesRoot(alpha, leaf, wt, parent, n, m, a, b, wt');
    forall v | 1 <= v <= n + 1 && p[v] == -1
      ensures RootOk(alpha, leaf, wt', p, n + 1, WeightPart(wt[b]), v)
    {
      if v <= n {
        JoinKeepsOthers(alpha, leaf, wt, parent, n, m, a, b, wt', v);
      }
    }
    forall k | 1 <= k <= alpha
      ensures LeafOk(wt', p, n', k)
    {
      JoinKeepsLeaf(alpha, leaf, wt, parent, n, m, a, b, wt', k);
    }
  }

  lemma GrowingStart(alpha: int, leaf: seq<int>, wt: seq<int>, parent: seq<int>)
    requires Leaves(leaf, alpha, wt) && |parent| == NODES && forall k | 1 <= k <= alpha :: parent[k] == -1
    ensures Growing(alpha, leaf, wt, parent, alpha, 1)
  {
    hide WeightOf, KraftOf;
    forall v | 1 <= v <= alpha
      ensures RootOk(alpha, leaf, wt, parent, alpha, 1, v)
    {
      SingletonSums(parent, alpha, leaf, alpha, v);
      assert Fib(2) == 1 && Fib(1) == 1;
    }
  }

  // ---------- the order in which trees are joined ----------

  /** The weights of all nodes, without the depths packed below them. */
  ghost function NodeWeights(wt: seq<int>): (w: seq<int>)
    ensures |w| == |wt|
  {
    seq(|wt|, v requires 0 <= v < |wt| => wt[v] / 256)
  }

  lemma GreedyStart(alpha: int, leaf: seq<int>, wt: seq<int>, parent: seq<int>)
    requires Leaves(leaf, alpha, wt) && |parent| == NODES && forall k | 1 <= k <= alpha :: parent[k] == -1
    ensures Greedy(parent, NodeWeights(wt), alpha, alpha)
  {
    hide Total;
  }

  lemma MadeBefore(parent: seq<int>, w: seq<int>, n: int, a: int, b: int, w': seq<int>, x: int)
    requires WasMade(parent, w, n, x) && n + 1 < |parent| && 1 <= a <= n && 1 <= b <= n
    requires parent[a] == -1 && parent[b] == -1 && |w'| == |w| && n + 1 < |w| && w' == w[n + 1 := w'[n + 1]]
    ensures WasMade(Joined(parent, n, a, b), w', n + 1, x)
  {
    var c, d :| MadeFrom(parent, w, n, x, c, d);
    assert MadeFrom(Joined(parent, n, a, b), w', n + 1, x, c, d);
  }

  /** Joining the two lightest trees goes on as before. */
  lemma JoinGreedy(alpha: int, leaf: seq<int>, wt: seq<int>, parent: seq<int>, n: int, m: int, a: int, b: int)
    requires Growing(alpha, leaf, wt, parent, n, m) && n + 1 < 2 * alpha && Greedy(parent, NodeWeights(wt), alpha, n)
    requires 1 <= a <= n && 1 <= b <= n && a != b && parent[a] == -1 && parent[b] == -1
    requires 0 <= wt[a] <= wt[b]
    requires forall v | 1 <= v <= n && parent[v] == -1 && v != a && v != b :: wt[b] <= wt[v]
    ensures Greedy(Joined(parent, n, a, b), NodeWeights(wt[n + 1 := AddWeights(wt[a], wt[b])]), alpha, n + 1)
  {
    hide RootOk, LeafOk, MadeFrom, AddWeights;
    var wt', p, n' := wt[n + 1 := AddWeights(wt[a], wt[b])], Joined(parent, n, a, b), n + 1;
    var w, w' := NodeWeights(wt), NodeWeights(wt');
    DepthLimit(alpha, leaf, wt, parent, n, m, a);
    DepthLimit(alpha, leaf, wt, parent, n, m, b);
    AddedWeights(wt[a], wt[b]);
    JoinedIsForest(parent, n, a, b);
    assert w' == w[n + 1 := w'[n + 1]];
    JoinedMade(wt, wt', parent, n, a, b);
    forall x | alpha < x <= n'
      ensures WasMade(p, w', n', x)
    {
      if x <= n {
        MadeBefore(parent, w, n, a, b, w', x);
      }
    }
  }

  lemma JoinedMade(wt: seq<int>, wt': seq<int>, parent: seq<int>, n: int, a: int, b: int)
    requires IsForest(parent, n) && n + 1 < |parent| && n + 1 < |wt| == |wt'|
    requires 1 <= a <= n && 1 <= b <= n && a != b && parent[a] == -1 && parent[b] == -1
    requires 0 <= wt[a] <= wt[b] && wt'[n + 1] / 256 == wt[a] / 256 + wt[b] / 256
    requires forall v | 0 <= v <= n :: wt'[v] == wt[v]
    requires forall v | 1 <= v <= n && parent[v] == -1 && v != a && v != b :: wt[b] <= wt[v]
    ensures WasMade(Joined(parent, n, a, b), NodeWeights(wt'), n + 1, n + 1)
  {
    assert MadeFrom(Joined(parent, n, a, b), NodeWeights(wt'), n + 1, n + 1, a, b);
  }

  // ---------- the joining loop ----------

  ghost predicate IsRoot(parent: seq<int>, n: int, v: int) {
    1 <= v <= n < |parent| && parent[v] == -1
  }

  /** The heap holds every root once. */
  ghost predicate HoldsRoots(bag: multiset<int>, parent: seq<int>, n: int) {
    forall v :: bag[v] == if IsRoot(parent, n, v) then 1 else 0
  }

  ghost predicate Joining(alpha: int, leaf: seq<int>, s: seq<int>, nHeap: int, wt: seq<int>, parent: seq<int>,
                          n: int, m: int) {
    && Growing(alpha, leaf, wt, parent, n, m)
    && |s| == HEAPSIZE && s[0] == 0 && 1 <= nHeap && n == 2 * alpha - nHeap
    && HeapOrder(s, wt, nHeap) && HoldsRoots(HeapBag(s, nHeap), parent, n)
  }

  lemma JoiningParts(alpha: int, leaf: seq<int>, s: seq<int>, nHeap: int, wt: seq<int>, parent: seq<int>,
                     n: int, m: int)
    requires Joining(alpha, leaf, s, nHeap, wt, parent, n, m)
    ensures Growing(alpha, leaf, wt, parent, n, m) && HeapOrder(s, wt, nHeap) && HoldsRoots(HeapBag(s, nHeap), parent, n)
    ensures 1 <= nHeap <= alpha <= 258 && n == 2 * alpha - nHeap && |wt| == |parent| == 516 && |s| == 260
    ensures s[0] == 0 && wt[0] == 0
  {
    hide HeapOrder, HoldsRoots, RootOk, LeafOk;
  }

  /** The two trees taken from the heap are different, and no heavier than any other. */
  lemma TwoLightest(alpha: int, leaf: seq<int>, s: seq<int>, nHeap: int, wt: seq<int>, parent: seq<int>,
                    n: int, m: int, s2: seq<int>, a: int, b: int)
    requires Joining(alpha, leaf, s, nHeap, wt, parent, n, m) && 2 <= nHeap
    requires a == s[1] && a in HeapBag(s, nHeap)
    requires |s2| == |s| && HeapOrder(s2, wt, nHeap - 1) && HeapBag(s2, nHeap - 1) == HeapBag(s, nHeap) - multiset{a}
    requires b == s2[1] && b in HeapBag(s2, nHeap - 1)
    ensures 1 <= a <= n && 1 <= b <= n && a != b && parent[a] == -1 && parent[b] == -1
    ensures 0 <= wt[a] <= wt[b]
    ensures forall v | 1 <= v <= n && parent[v] == -1 && v != a && v != b :: wt[b] <= wt[v]
  {
    hide HeapOrder, HeapBag, LeafOk, Fib, KraftOf, WeightOf;
    var bag := HeapBag(s, nHeap);
    assert IsRoot(parent, n, a) && IsRoot(parent, n, b);
    assert bag[a] == 1 && bag[b] == 1;
    LightestOfBag(s, wt, nHeap, b);
    assert RootOk(alpha, leaf, wt, parent, n, m, a);
    forall v | 1 <= v <= n && parent[v] == -1 && v != a && v != b
      ensures wt[b] <= wt[v]
    {
      assert IsRoot(parent, n, v);
      LightestOfBag(s2, wt, nHeap - 1, v);
    }
  }

  lemma JoinedRoots(bag: multiset<int>, parent: seq<int>, n: int, a: int, b: int)
    requires HoldsRoots(bag, parent, n) && 0 <= n && n + 1 < |parent|
    requires IsRoot(parent, n, a) && IsRoot(parent, n, b) && a != b
    ensures n + 1 !in bag
    ensures HoldsRoots(bag - multiset{a} - multiset{b} + multiset{n + 1}, Joined(parent, n, a, b), n + 1)
  {
    assert bag[n + 1] == 0 && bag[a] == 1 && bag[b] == 1;
    var bag', p := bag - multiset{a} - multiset{b} + multiset{n + 1}, Joined(parent, n, a, b);
    forall v
      ensures bag'[v] == if IsRoot(p, n + 1, v) then 1 else 0
    {
      assert bag[v] == if IsRoot(parent, n, v) then 1 else 0;
    }
  }

  /** One round of the joining loop: the two lightest trees become one. */
  method JoinLightest(heap: array<int>, weight: array<int>, parent: array<int>, nHeap: int, nNodes: int,
                      ghost alpha: int, ghost leaf: seq<int>, ghost m: int)
    returns (ghost m': int)
    requires heap != weight && heap != parent && weight != parent
    requires Joining(alpha, leaf, heap[..], nHeap, weight[..], parent[..], nNodes, m) && 2 <= nHeap
    requires Greedy(parent[..], NodeWeights(weight[..]), alpha, nNodes)
    modifies heap, weight, parent
    ensures Joining(alpha, leaf, heap[..], nHeap - 1, weight[..], parent[..], nNodes + 1, m')
    ensures Greedy(parent[..], NodeWeights(weight[..]), alpha, nNodes + 1)
  {
    hide *;
    ghost var s, wt, pa := heap[..], weight[..], parent[..];
    JoiningParts(alpha, leaf, s, nHeap, wt, pa, nNodes, m);
    var n1 := PopTop(heap, weight, nHeap);
    ghost var s2 := heap[..];
    var n2 := PopTop(heap, weight, nHeap - 1);
    TwoLightest(alpha, leaf, s, nHeap, wt, pa, nNodes, m, s2, n1, n2);
    RootsOfBag(HeapBag(s, nHeap), pa, nNodes, n1);
    RootsOfBag(HeapBag(s, nHeap), pa, nNodes, n2);
    JoinedRoots(HeapBag(s, nHeap), pa, nNodes, n1, n2);
    JoinGrows(alpha, leaf, wt, pa, nNodes, m, n1, n2);
    JoinGreedy(alpha, leaf, wt, pa, nNodes, m, n1, n2);
    m' := WeightPart(wt[n2]);
    parent[n1] := nNodes + 1;
    parent[n2] := nNodes + 1;
    parent[nNodes + 1] := -1;
    JoinedIs(pa, nNodes, n1, n2);
    assert parent[..] == Joined(pa, nNodes, n1, n2);
    Push(heap, weight, nHeap - 2, nNodes + 1, AddWeights(weight[n1], weight[n2]));
    JoiningFrom(alpha, leaf, heap[..], nHeap - 1, weight[..], parent[..], nNodes + 1, m');
  }

  lemma JoinedIs(parent: seq<int>, n: int, a: int, b: int)
    requires 0 <= n && n + 1 < |parent| && 0 <= a < |parent| && 0 <= b < |parent|
    ensures Joined(parent, n, a, b) == parent[a := n + 1][b := n + 1][n + 1 := -1]
  {
  }

  lemma RootsOfBag(bag: multiset<int>, parent: seq<int>, n: int, v: int)
    requires HoldsRoots(bag, parent, n) && 1 <= v <= n < |parent| && parent[v] == -1
    ensures v in bag && IsRoot(parent, n, v)
  {
    assert bag[v] == 1;
  }

  lemma JoiningFrom(alpha: int, leaf: seq<int>, s: seq<int>, nHeap: int, wt: seq<int>, parent: seq<int>,
                    n: int, m: int)
    requires Growing(alpha, leaf, wt, parent, n, m) && |s| == 260 && s[0] == 0 && 1 <= nHeap && n == 2 * alpha - nHeap
    requires HeapOrder(s, wt, nHeap) && HoldsRoots(HeapBag(s, nHeap), parent, n)
    ensures Joining(alpha, leaf, s, nHeap, wt, parent, n, m)
  {
  }

  ghost function Upto(n: nat): (r: multiset<int>)
    ensures forall v :: r[v] == if 1 <= v < n then 1 else 0
  {
    if n <= 1 then multiset{} else Upto(n - 1) + multiset{n - 1}
  }

  /** The leaves 1, ..., i - 1 are in the heap. */
  ghost predicate Filling(s: seq<int>, wt: seq<int>, parent: seq<int>, i: int) {
    && |s| == HEAPSIZE && |wt| == |parent| == NODES && s[0] == 0 && wt[0] == 0 && 1 <= i <= MAXALPHA + 1
    && HeapOrder(s, wt, i - 1) && HeapBag(s, i - 1) == Upto(i)
    && forall k | 1 <= k < i :: parent[k] == -1
  }

  lemma FillingStep(s: seq<int>, wt: seq<int>, parent: seq<int>, i: int)
    requires Filling(s, wt, parent, i) && i <= MAXALPHA
    ensures |s| == 260 && |wt| == |parent| == 516 && 1 <= i <= 258 && wt[0] == 0 && s[0] == 0
    ensures HeapOrder(s[i := i], wt, i - 1) && s[i := i][0] == 0
    ensures HeapBag(s[i := i], i) == Upto(i + 1)
  {
    hide HeapBag, Under, Upto;
    BagOfPush(s, i - 1, i);
    PushReady(s, wt, i - 1, i, wt[i]);
    assert wt[i := wt[i]] == wt;
    UptoNext(i);
  }

  lemma UptoNext(i: nat)
    requires 1 <= i
    ensures Upto(i + 1) == Upto(i) + multiset{i}
  {
  }

  lemma FillingNext(t: seq<int>, s: seq<int>, wt: seq<int>, parent: seq<int>, i: int)
    requires |t| == 260 && |wt| == |parent| == 516 && 1 <= i <= 258 && t[0] == 0 && wt[0] == 0
    requires HeapBag(t, i) == Upto(i + 1) && Rearranged(t, s, 1, i + 1) && HeapOrder(s, wt, i)
    requires forall k | 1 <= k <= i :: parent[k] == -1
    ensures Filling(s, wt, parent, i + 1)
  {
    hide HeapBag, Under, Upto;
    RearrangedBag(t, s, i);
  }

  lemma FillingStart(s: seq<int>, wt: seq<int>, parent: seq<int>)
    requires |s| == HEAPSIZE && |wt| == |parent| == NODES && s[0] == 0 && wt[0] == 0 && Ranked(s, wt)
    ensures Filling(s, wt, parent, 1)
  {
    assert s[1..1] == [];
    assert HeapBag(s, 0) == multiset{};
  }

  lemma FillingEnd(alpha: int, leaf: seq<int>, s: seq<int>, wt: seq<int>, parent: seq<int>)
    requires Leaves(leaf, alpha, wt) && Filling(s, wt, parent, alpha + 1)
    ensures Joining(alpha, leaf, s, alpha, wt, parent, alpha, 1)
  {
    hide HeapBag, Upto, RootOk, LeafOk;
    GrowingStart(alpha, leaf, wt, parent);
    FilledRoots(HeapBag(s, alpha), parent, alpha);
  }

  lemma FilledRoots(bag: multiset<int>, parent: seq<int>, n: int)
    requires 1 <= n < |parent| && bag == Upto(n + 1) && forall k | 1 <= k <= n :: parent[k] == -1
    ensures HoldsRoots(bag, parent, n)
  {
  }

  lemma FillingParts(s: seq<int>, wt: seq<int>, parent: seq<int>, i: int)
    requires Filling(s, wt, parent, i)
    ensures s[0] == 0 && forall k | 1 <= k < i :: parent[k] == -1
  {
  }

  lemma LeavesBounds(leaf: seq<int>, alpha: int, wt: seq<int>)
    requires Leaves(leaf, alpha, wt)
    ensures 3 <= alpha <= 258 && |leaf| == alpha + 1 && |wt| == 516 && wt[0] == 0
    ensures forall k | 1 <= k <= alpha :: leaf[k] >= 1 && wt[k] == leaf[k] * 256
  {
  }

  /** The heap at the start: all leaves. */
  method FillHeap(heap: array<int>, weight: array<int>, parent: array<int>, alpha: int, ghost leaf: seq<int>)
    requires heap != weight && heap != parent && weight != parent
    requires heap.Length == 260 && parent.Length == 516 && Leaves(leaf, alpha, weight[..])
    requires heap[0] == 0 && Ranked(heap[..], weight[..])
    modifies heap, parent
    ensures Joining(alpha, leaf, heap[..], alpha, weight[..], parent[..], alpha, 1)
    ensures Greedy(parent[..], NodeWeights(weight[..]), alpha, alpha)
  {
    hide *;
    ghost var wt := weight[..];
    LeavesBounds(leaf, alpha, wt);
    HuffmanSizes();
    FillingStart(heap[..], wt, parent[..]);
    for i := 1 to alpha + 1
      invariant weight[..] == wt && Filling(heap[..], wt, parent[..], i)
    {
      ghost var s, pa := heap[..], parent[..];
      FillingParts(s, wt, pa, i);
      FillingStep(s, wt, pa, i);
      parent[i] := -1;
      heap[i] := i;
      assert heap[..] == s[i := i] && wt[i] == weight[i] >= 0 by {
        LeavesBounds(leaf, alpha, wt);
      }
      assert forall k | 1 <= k <= i :: parent[k] == -1;
      UpHeap(heap, weight, i);
      FillingNext(s[i := i], heap[..], wt, parent[..], i);
    }
    FillingParts(heap[..], wt, parent[..], alpha + 1);
    FillingEnd(alpha, leaf, heap[..], wt, parent[..]);
    GreedyStart(alpha, leaf, wt, parent[..]);
  }

  lemma HuffmanSizes()
    ensures HEAPSIZE == 260 && NODES == 516 && MAXALPHA == 258
  {
  }

  /** Build the tree: fill the heap, then join the two lightest trees until one is left. */
  method BuildTree(heap: array<int>, weight: array<int>, parent: array<int>, alpha: int, ghost leaf: seq<int>)
    returns (nNodes: int, ghost m: int)
    requires heap != weight && heap != parent && weight != parent
    requires heap.Length == 260 && parent.Length == 516 && Leaves(leaf, alpha, weight[..])
    requires heap[0] == 0 && Ranked(heap[..], weight[..])
    modifies heap, weight, parent
    ensures Joining(alpha, leaf, heap[..], 1, weight[..], parent[..], nNodes, m)
    ensures Greedy(parent[..], NodeWeights(weight[..]), alpha, nNodes)
  {
    hide *;
    FillHeap(heap, weight, parent, alpha, leaf);
    nNodes, m := alpha, 1;
    var nHeap := alpha;
    JoiningParts(alpha, leaf, heap[..], nHeap, weight[..], parent[..], nNodes, m);
    HuffmanSizes();
    assert nHeap < HEAPSIZE;  // AssertH 2001
    while nHeap > 1
      invariant 1 <= nHeap
      invariant Joining(alpha, leaf, heap[..], nHeap, weight[..], parent[..], nNodes, m)
      invariant Greedy(parent[..], NodeWeights(weight[..]), alpha, nNodes)
    {
      m := JoinLightest(heap, weight, parent, nHeap, nNodes, alpha, leaf, m);
      nNodes := nNodes + 1;
      nHeap := nHeap - 1;
    }
    JoiningParts(alpha, leaf, heap[..], nHeap, weight[..], parent[..], nNodes, m);
    assert nNodes < NODES;    // AssertH 2002
  }

  /** When one tree is left, every leaf is below its root. */
  lemma OneTree(alpha: int, leaf: seq<int>, s: seq<int>, wt: seq<int>, parent: seq<int>, n: int, m: int)
    requires Joining(alpha, leaf, s, 1, wt, parent, n, m)
    ensures 3 <= alpha < n == 2 * alpha - 1 < |parent| && IsForest(parent, n) && alpha < |leaf|
    ensures forall k | 1 <= k <= alpha :: Root(parent, n, k) == n && 1 <= Depth(parent, n, k) <= 28
    ensures KraftOf(parent, n, alpha, n) == Pow2(SCALE)
    ensures forall k | 1 <= k <= alpha && Depth(parent, n, k) >= 13 :: 610 <= Total(leaf, alpha)
  {
    hide HeapBag, HeapOrder, Fib, KraftOf, WeightOf, Total;
    JoiningParts(alpha, leaf, s, 1, wt, parent, n, m);
    LeavesSized(alpha, leaf, wt, parent, n, m);
    LeavesShallow(alpha, leaf, wt, parent, n, m);
    assert RootOk(alpha, leaf, wt, parent, n, m, n);
    forall k | 1 <= k <= alpha
      ensures Root(parent, n, k) == n && 1 <= Depth(parent, n, k)
      ensures Depth(parent, n, k) >= 13 ==> 610 <= Total(leaf, alpha)
    {
      OnlyRoot(s, parent, n, Root(parent, n, k));
      OnlyRoot(s, parent, n, n);
      assert LeafOk(wt, parent, n, k);
      WeightAtMostTotal(parent, n, leaf, alpha, n);
      if Depth(parent, n, k) >= 13 {
        FibMonotone(15, DepthPart(wt[n]) + 2);
        FibValues();
      }
    }
  }

  lemma OnlyRoot(s: seq<int>, parent: seq<int>, n: int, v: int)
    requires |s| > 1 && HoldsRoots(HeapBag(s, 1), parent, n) && 1 <= v <= n < |parent| && parent[v] == -1
    ensures v == s[1]
  {
    RootsOfBag(HeapBag(s, 1), parent, n, v);
    assert s[1..2] == [s[1]];
  }

  // ---------- reading the lengths off the tree ----------

  /** How deep leaf i lies, by following the parents. */
  method DepthOfLeaf(parent: array<int>, i: int, ghost n: int) returns (j: nat)
    requires IsForest(parent[..], n) && 1 <= i <= n
    ensures j == Depth(parent[..], n, i)
  {
    j := 0;
    var k := i;
    while parent[k] >= 0
      invariant 1 <= k <= n && j + Depth(parent[..], n, k) == Depth(parent[..], n, i)
      decreases n - k
    {
      k := parent[k];
      j := j + 1;
    }
  }

  ghost predicate Exceeds(lens: seq<int>, m: nat, limit: int) {
    exists x :: 0 <= x < m && x < |lens| && lens[x] > limit
  }

  lemma ExceedsNext(was: seq<int>, lens: seq<int>, m: nat, limit: int)
    requires m < |was| == |lens| && lens == was[m := lens[m]]
    ensures Exceeds(lens, m + 1, limit) <==> Exceeds(was, m, limit) || lens[m] > limit
  {
    if Exceeds(was, m, limit) {
      var x :| 0 <= x < m && was[x] > limit;
      assert lens[x] > limit;
    }
  }

  method ReadLengths(len: array<int>, parent: array<int>, alphaSize: nat, maxLen: int, ghost n: int)
    returns (tooLong: bool)
    requires len != parent && alphaSize <= len.Length && IsForest(parent[..], n) && alphaSize <= n
    modifies len
    ensures forall i | 0 <= i < alphaSize :: len[i] == Depth(parent[..], n, i + 1)
    ensures tooLong <==> Exceeds(len[..], alphaSize, maxLen)
    ensures forall i | alphaSize <= i < len.Length :: len[i] == old(len[i])
  {
    hide IsForest, Depth;
    tooLong := false;
    ghost var pa := parent[..];
    for i := 1 to alphaSize + 1
      invariant parent[..] == pa
      invariant forall x | 1 <= x < i :: len[x - 1] == Depth(pa, n, x)
      invariant tooLong <==> Exceeds(len[..], i - 1, maxLen)
      invariant forall x | alphaSize <= x < len.Length :: len[x] == old(len[x])
    {
      var j := DepthOfLeaf(parent, i, n);
      ghost var was := len[..];
      len[i - 1] := j;
      ExceedsNext(was, len[..], i - 1, maxLen);
      if j > maxLen {
        tooLong := true;
      }
    }
    forall i | 0 <= i < alphaSize
      ensures len[i] == Depth(pa, n, i + 1)
    {
      assert len[(i + 1) - 1] == Depth(pa, n, i + 1);
    }
  }

  lemma {:induction false} LengthsKraft(parent: seq<int>, n: int, lens: seq<int>, m: nat)
    requires IsForest(parent, n) && m <= n && m <= |lens|
    requires forall k | 1 <= k <= m :: Root(parent, n, k) == n
    requires forall i | 0 <= i < m :: lens[i] == Depth(parent, n, i + 1) && 0 <= lens[i] <= LONGEST
    ensures KraftOf(parent, n, m, n) == 1048576 * KraftSum(lens, m)
  {
    hide Pow2;
    if m > 0 {
      LengthsKraft(parent, n, lens, m - 1);
      ScaledUnit(lens[m - 1]);
    }
  }

  lemma ScaledUnit(d: nat)
    requires d <= LONGEST
    ensures Pow2(SCALE - d) == 1048576 * Pow2(LONGEST - d)
  {
    Pow2Add(20, 20 - d);
    Pow2Values();
  }

  lemma CompleteOutcome(parent: seq<int>, n: int, all: seq<int>, lens: seq<int>, limit: int)
    requires IsForest(parent, n) && |lens| <= n && limit <= LONGEST && |lens| <= |all| && lens == all[..|lens|]
    requires forall k | 1 <= k <= |lens| :: Root(parent, n, k) == n && 1 <= Depth(parent, n, k)
    requires forall i | 0 <= i < |lens| :: all[i] == Depth(parent, n, i + 1)
    requires !Exceeds(all, |lens|, limit)
    requires KraftOf(parent, n, |lens|, n) == Pow2(SCALE)
    ensures CompleteLengths(lens, limit)
  {
    hide Pow2, IsForest, Root, Depth, KraftOf, KraftSum;
    forall i | 0 <= i < |lens|
      ensures lens[i] == Depth(parent, n, i + 1) && 1 <= lens[i] <= limit
    {
      assert lens[i] == all[i];
    }
    LengthsKraft(parent, n, lens, |lens|);
    ScaledUnit(0);
  }

  // ---------- rescaling ----------

  ghost predicate Halves(leaf: seq<int>, leaf': seq<int>, m: int) {
    && 0 <= m < |leaf| == |leaf'|
    && forall k | 1 <= k <= m :: leaf[k] >= 1 && leaf'[k] == 1 + leaf[k] / 2
  }

  /** Rescaling never adds weight, and takes some away unless every weight is already 1 or 2. */
  lemma {:induction false} RescaledTotal(leaf: seq<int>, leaf': seq<int>, m: int)
    requires Halves(leaf, leaf', m)
    ensures Total(leaf', m) <= Total(leaf, m)
    ensures Total(leaf', m) == Total(leaf, m) ==>
      Total(leaf, m) <= 2 * m && forall k | 1 <= k <= m :: leaf[k] <= 2
  {
    if m > 0 {
      RescaledTotal(leaf, leaf', m - 1);
    }
  }

  method Rescale(weight: array<int>, alphaSize: nat, ghost leaf: seq<int>) returns (ghost leaf': seq<int>)
    requires Leaves(leaf, alphaSize, weight[..])
    modifies weight
    ensures Leaves(leaf', alphaSize, weight[..]) && Halves(leaf, leaf', alphaSize)
  {
    hide Total;
    leaf' := leaf;
    ghost var wt := weight[..];
    for i := 1 to alphaSize + 1
      invariant |leaf'| == |leaf| && weight[0] == 0
      invariant forall k | 1 <= k < i :: leaf[k] >= 1 && leaf'[k] == 1 + leaf[k] / 2 && weight[k] == leaf'[k] * 256
      invariant forall k | i <= k <= alphaSize :: leaf[k] >= 1 && leaf'[k] == leaf[k] && weight[k] == leaf[k] * 256
    {
      var j := weight[i] / 256;
      j := 1 + j / 2;
      weight[i] := j * 256;
      leaf' := leaf'[i := j];
    }
    RescaledTotal(leaf, leaf', alphaSize);
  }

  // ---------- the whole ----------

  ghost function SumOf(freq: seq<int>, m: nat): (r: int)
    requires m <= |freq|
  {
    if m == 0 then 0 else SumOf(freq, m - 1) + freq[m - 1]
  }

  lemma {:induction false} InitialTotal(freq: seq<int>, leaf: seq<int>, m: nat)
    requires m <= |freq| && m < |leaf|
    requires forall i | 0 <= i < m :: freq[i] >= 0 && leaf[i + 1] == if freq[i] == 0 then 1 else freq[i]
    ensures Total(leaf, m) <= SumOf(freq, m) + m
  {
    if m > 0 {
      InitialTotal(freq, leaf, m - 1);
    }
  }

  /** The weight of a symbol after so many rescalings: its frequency, or 1 if it does not occur, halved and rounded up. */
  ghost function Scaled(f: int, rounds: nat): int {
    if rounds == 0 then (if f == 0 then 1 else f) else 1 + Scaled(f, rounds - 1) / 2
  }

  ghost function Weights(freq: seq<int>, rounds: nat): (w: seq<int>)
    ensures |w| == |freq|
  {
    seq(|freq|, i requires 0 <= i < |freq| => Scaled(freq[i], rounds))
  }

  ghost predicate LeavesOf(leaf: seq<int>, freq: seq<int>, rounds: nat) {
    |leaf| == |freq| + 1 && forall k | 1 <= k <= |freq| :: leaf[k] == Scaled(freq[k - 1], rounds)
  }

  lemma HalvedLeaves(leaf: seq<int>, leaf': seq<int>, freq: seq<int>, rounds: nat)
    requires LeavesOf(leaf, freq, rounds) && Halves(leaf, leaf', |freq|)
    ensures LeavesOf(leaf', freq, rounds + 1)
  {
  }

  /** Lengths tried one after the other, each the cheapest for the weights of its round; all but the last are too long. */
  ghost predicate Tried(freq: seq<int>, tries: seq<seq<int>>, limit: int) {
    && tries != []
    && (forall r | 0 <= r < |tries| :: Cheapest(Weights(freq, r), tries[r]))
    && forall r | 0 <= r < |tries| - 1 :: Exceeds(tries[r], |tries[r]|, limit)
  }

  /** The depths of the leaves are the cheapest lengths for the weights of this round. */
  lemma CheapestRead(alpha: int, leaf: seq<int>, wt: seq<int>, parent: seq<int>, n: int, freq: seq<int>, rounds: nat,
                     lens: seq<int>)
    requires Leaves(leaf, alpha, wt) && Greedy(parent, NodeWeights(wt), alpha, n) && LeavesOf(leaf, freq, rounds)
    requires |freq| == |lens| == alpha && IsForest(parent, n) && alpha <= n
    requires forall i | 0 <= i < alpha :: lens[i] == Depth(parent, n, i + 1)
    ensures Cheapest(Weights(freq, rounds), lens)
  {
    hide Total, Greedy, Cheapest, Scaled, Depth;
    var w := NodeWeights(wt);
    GreedyParts(parent, w, alpha, n);
    assert w[1..alpha + 1] == Weights(freq, rounds);
    GreedyCheapest(parent, w, alpha, n, lens);
  }

  method InitialWeights(freq: array<int>, alphaSize: nat) returns (weight: array<int>, ghost leaf: seq<int>)
    requires 3 <= alphaSize <= MAXALPHA && alphaSize <= freq.Length
    requires forall i | 0 <= i < alphaSize :: freq[i] >= 0
    requires SumOf(freq[..], alphaSize) <= 900001
    ensures fresh(weight) && Leaves(leaf, alphaSize, weight[..]) && LeavesOf(leaf, freq[..alphaSize], 0)
  {
    hide Total, SumOf;
    weight := new int[NODES](_ => 0);
    leaf := seq(alphaSize + 1, k requires 0 <= k <= alphaSize reads freq =>
      if k == 0 then 0 else if freq[k - 1] == 0 then 1 else freq[k - 1]);
    for i := 0 to alphaSize
      invariant weight[0] == 0 && freq[..] == old(freq[..])
      invariant forall k | 1 <= k <= i :: weight[k] == leaf[k] * 256
    {
      weight[i + 1] := (if freq[i] == 0 then 1 else freq[i]) * 256;
    }
    InitialTotal(freq[..], leaf, alphaSize);
  }

  /**
   * BZ2_hbMakeCodeLengths. Terminates for any limit of at least 12 (the compressor passes 17), with lengths from 1 to
   * the limit that make a complete prefix code, the cheapest for the frequencies as rescaled so far; they are rescaled
   * only as long as the cheapest lengths found are over the limit. tries are the lengths of all rounds.
   */
  method MakeCodeLengths(len: array<int>, freq: array<int>, alphaSize: nat, maxLen: int)
    returns (ghost tries: seq<seq<int>>)
    requires len != freq && alphaSize <= len.Length && alphaSize <= freq.Length
    requires 3 <= alphaSize <= MAXALPHA && 12 <= maxLen <= LONGEST
    requires forall i | 0 <= i < alphaSize :: freq[i] >= 0
    requires SumOf(freq[..], alphaSize) <= 900001
    modifies len
    ensures CompleteLengths(len[..alphaSize], maxLen)
    ensures Tried(freq[..alphaSize], tries, maxLen) && tries[|tries| - 1] == len[..alphaSize]
    ensures forall i | alphaSize <= i < len.Length :: len[i] == old(len[i])
  {
    hide *;
    HuffmanSizes();
    var weight;
    ghost var leaf, fr := [], freq[..alphaSize];
    weight, leaf := InitialWeights(freq, alphaSize);
    var heap, parent := new int[HEAPSIZE](_ => 0), new int[NODES];
    LeavesBounds(leaf, alphaSize, weight[..]);
    ZerosRanked(heap[..], weight[..]);
    tries := [];
    NoneTried(fr, maxLen);
    while true
      invariant heap[0] == 0 && Ranked(heap[..], weight[..])
      invariant Leaves(leaf, alphaSize, weight[..]) && |leaf| == alphaSize + 1 && LeavesOf(leaf, fr, |tries|)
      invariant AllTooLong(fr, tries, maxLen)
      invariant forall i | alphaSize <= i < len.Length :: len[i] == old(len[i])
      decreases WeightTotal(leaf, alphaSize)
    {
      var nNodes;
      ghost var m;
      nNodes, m := BuildTree(heap, weight, parent, alphaSize, leaf);
      ghost var pa := parent[..];
      OneTree(alphaSize, leaf, heap[..], weight[..], pa, nNodes, m);
      JoiningParts(alphaSize, leaf, heap[..], 1, weight[..], pa, nNodes, m);
      LeavesSized(alphaSize, leaf, weight[..], pa, nNodes, m);
      var tooLong := ReadLengths(len, parent, alphaSize, maxLen, nNodes);
      ghost var lens := len[..alphaSize];
      CheapestRead(alphaSize, leaf, weight[..], pa, nNodes, fr, |tries|, lens);
      if !tooLong {
        CompleteOutcome(pa, nNodes, len[..], lens, maxLen);
        LastTry(fr, tries, lens, maxLen);
        tries := tries + [lens];
        break;
      }
      TooLongWeight(pa, nNodes, len[..], leaf, alphaSize, maxLen);
      OneMoreTry(fr, tries, len[..], alphaSize, maxLen);
      ghost var before, wt := leaf, weight[..];
      leaf := Rescale(weight, alphaSize, leaf);
      HalvedLeaves(before, leaf, fr, |tries|);
      tries := tries + [lens];
      LeavesBounds(leaf, alphaSize, weight[..]);
      Lighter(before, leaf, alphaSize);
      HeapKeepsRange(heap[..], wt, weight[..]);
    }
  }

  ghost predicate AllTooLong(freq: seq<int>, tries: seq<seq<int>>, limit: int) {
    forall r | 0 <= r < |tries| :: Cheapest(Weights(freq, r), tries[r]) && Exceeds(tries[r], |tries[r]|, limit)
  }

  lemma NoneTried(freq: seq<int>, limit: int)
    ensures AllTooLong(freq, [], limit)
  {
  }

  lemma OneMoreTry(freq: seq<int>, tries: seq<seq<int>>, all: seq<int>, m: nat, limit: int)
    requires AllTooLong(freq, tries, limit) && m <= |all| && Exceeds(all, m, limit)
    requires Cheapest(Weights(freq, |tries|), all[..m])
    ensures AllTooLong(freq, tries + [all[..m]], limit)
  {
    hide Cheapest, Weights;
    var x :| 0 <= x < m && all[x] > limit;
    assert all[..m][x] > limit;
  }

  lemma LastTry(freq: seq<int>, tries: seq<seq<int>>, lens: seq<int>, limit: int)
    requires AllTooLong(freq, tries, limit) && Cheapest(Weights(freq, |tries|), lens)
    ensures Tried(freq, tries + [lens], limit) && (tries + [lens])[|tries|] == lens
  {
    hide Cheapest, Weights, Exceeds;
  }

  lemma {:induction false} KraftIsShare(lens: seq<int>, m: nat)
    requires m <= |lens|
    ensures KraftSum(lens, m) == ShareSum(lens[..m], LONGEST)
  {
    if m > 0 {
      KraftIsShare(lens, m - 1);
      assert lens[..m][..m - 1] == lens[..m - 1];
    }
  }

  /** A symbol with the greater weight in the last round never has the longer code. */
  lemma HeavierNotLonger(freq: seq<int>, tries: seq<seq<int>>, limit: int, lens: seq<int>, i: nat, j: nat)
    requires Tried(freq, tries, limit) && tries[|tries| - 1] == lens && CompleteLengths(lens, limit)
    requires i < |freq| == |lens| && j < |freq|
    requires Scaled(freq[i], |tries| - 1) > Scaled(freq[j], |tries| - 1)
    ensures lens[i] <= lens[j]
  {
    hide Cheapest, Scaled, ShareSum, KraftSum;
    KraftIsShare(lens, |lens|);
    assert lens[..|lens|] == lens;
    HeavierShorter(Weights(freq, |tries| - 1), lens, LONGEST, i, j);
  }

  lemma ZerosRanked(heap: seq<int>, weight: seq<int>)
    requires |weight| > 0 && forall k | 0 <= k < |heap| :: heap[k] == 0
    ensures Ranked(heap, weight)
  {
  }

  lemma HeapKeepsRange(heap: seq<int>, weight: seq<int>, weight': seq<int>)
    requires HeapOrder(heap, weight, 1) && |weight'| == |weight|
    ensures Ranked(heap, weight')
  {
  }

  ghost function WeightTotal(leaf: seq<int>, m: nat): (r: nat)
    requires m < |leaf|
  {
    if Total(leaf, m) >= 0 then Total(leaf, m) else 0
  }

  /** A length over the limit means the weights are not yet as small as they get. */
  lemma TooLongWeight(parent: seq<int>, n: int, lens: seq<int>, leaf: seq<int>, alpha: nat, maxLen: int)
    requires IsForest(parent, n) && alpha <= n && alpha <= |lens| && alpha < |leaf|
    requires forall i | 0 <= i < alpha :: lens[i] == Depth(parent, n, i + 1)
    requires forall k | 1 <= k <= alpha && Depth(parent, n, k) >= 13 :: 610 <= Total(leaf, alpha)
    requires Exceeds(lens, alpha, maxLen) && 12 <= maxLen
    ensures 610 <= Total(leaf, alpha)
  {
    hide Total;
    var x :| 0 <= x < alpha && lens[x] > maxLen;
    assert Depth(parent, n, x + 1) >= 13;
  }

  lemma Lighter(leaf: seq<int>, leaf': seq<int>, m: nat)
    requires Halves(leaf, leaf', m) && m <= 258 && 610 <= Total(leaf, m)
    ensures WeightTotal(leaf', m) < WeightTotal(leaf, m)
  {
    RescaledTotal(leaf, leaf', m);
    hide Total;
  }
}
