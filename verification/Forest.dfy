/**
 * The forest BZ2_hbMakeCodeLengths builds in its parent array: nodes 1, ..., n, of which 1, ..., alpha are leaves and
 * every other one is the parent of the two trees joined when it was made.
 */
module Forest {
  import opened Bits

  ghost predicate IsForest(parent: seq<int>, n: int) {
    && 0 <= n < |parent|
    && forall k | 1 <= k <= n :: parent[k] == -1 || k < parent[k] <= n
  }

  /** The root of the tree that holds node k. */
  ghost function Root(parent: seq<int>, n: int, k: int): (r: int)
    requires IsForest(parent, n) && 1 <= k <= n
    ensures k <= r <= n && parent[r] == -1
    decreases n - k
  {
    if parent[k] < 0 then k else Root(parent, n, parent[k])
  }

  /** How far below its root node k lies. */
  ghost function Depth(parent: seq<int>, n: int, k: int): (r: nat)
    requires IsForest(parent, n) && 1 <= k <= n
    decreases n - k
  {
    if parent[k] < 0 then 0 else 1 + Depth(parent, n, parent[k])
  }

  /** Node n + 1 becomes the parent of the roots a and b. */
  ghost function Joined(parent: seq<int>, n: int, a: int, b: int): (r: seq<int>)
    requires 0 <= n && n + 1 < |parent| && 0 <= a < |parent| && 0 <= b < |parent|
    ensures |r| == |parent|
  {
    parent[a := n + 1][b := n + 1][n + 1 := -1]
  }

  lemma JoinedIsForest(parent: seq<int>, n: int, a: int, b: int)
    requires IsForest(parent, n) && n + 1 < |parent| && 1 <= a <= n && 1 <= b <= n
    ensures IsForest(Joined(parent, n, a, b), n + 1)
  {
  }

  lemma {:induction false} JoinedAt(parent: seq<int>, n: int, a: int, b: int, k: int)
    requires IsForest(parent, n) && n + 1 < |parent| && 1 <= a <= n && 1 <= b <= n
    requires parent[a] == -1 && parent[b] == -1 && 1 <= k <= n
    ensures IsForest(Joined(parent, n, a, b), n + 1)
    ensures Root(Joined(parent, n, a, b), n + 1, k) ==
            if Root(parent, n, k) == a || Root(parent, n, k) == b then n + 1 else Root(parent, n, k)
    ensures Depth(Joined(parent, n, a, b), n + 1, k) ==
            if Root(parent, n, k) == a || Root(parent, n, k) == b then Depth(parent, n, k) + 1 else Depth(parent, n, k)
    decreases n - k
  {
    var p := Joined(parent, n, a, b);
    JoinedIsForest(parent, n, a, b);
    assert Root(p, n + 1, n + 1) == n + 1 && Depth(p, n + 1, n + 1) == 0;
    if parent[k] >= 0 {
      JoinedAt(parent, n, a, b, parent[k]);
    }
  }

  // ---------- sums over the leaves of one tree ----------

  const SCALE := 40

  /** Kraft's sum over the leaves 1, ..., m of the tree with root r, in units of 2^-SCALE. */
  ghost function KraftOf(parent: seq<int>, n: int, m: int, r: int): (s: nat)
    requires IsForest(parent, n) && 0 <= m <= n
  {
    if m == 0 then 0
    else KraftOf(parent, n, m - 1, r) +
         (if Root(parent, n, m) == r && Depth(parent, n, m) <= SCALE then Pow2(SCALE - Depth(parent, n, m)) else 0)
  }

  /** The weight of the leaves 1, ..., m of the tree with root r. */
  ghost function WeightOf(parent: seq<int>, n: int, leaf: seq<int>, m: int, r: int): (s: int)
    requires IsForest(parent, n) && 0 <= m <= n && m < |leaf|
  {
    if m == 0 then 0 else WeightOf(parent, n, leaf, m - 1, r) + (if Root(parent, n, m) == r then leaf[m] else 0)
  }

  ghost function Total(leaf: seq<int>, m: int): (s: int)
    requires 0 <= m < |leaf|
  {
    if m == 0 then 0 else Total(leaf, m - 1) + leaf[m]
  }

  lemma {:induction false} WeightAtMostTotal(parent: seq<int>, n: int, leaf: seq<int>, m: int, r: int)
    requires IsForest(parent, n) && 0 <= m <= n && m < |leaf| && forall k | 1 <= k <= m :: leaf[k] >= 0
    ensures 0 <= WeightOf(parent, n, leaf, m, r) <= Total(leaf, m)
  {
    if m > 0 {
      WeightAtMostTotal(parent, n, leaf, m - 1, r);
    }
  }

  lemma {:induction false} JoinedWeight(parent: seq<int>, n: int, a: int, b: int, leaf: seq<int>, m: int, r: int)
    requires IsForest(parent, n) && n + 1 < |parent| && 1 <= a <= n && 1 <= b <= n && a != b
    requires parent[a] == -1 && parent[b] == -1 && 0 <= m <= n && m < |leaf|
    ensures IsForest(Joined(parent, n, a, b), n + 1)
    ensures WeightOf(Joined(parent, n, a, b), n + 1, leaf, m, n + 1)
            == WeightOf(parent, n, leaf, m, a) + WeightOf(parent, n, leaf, m, b)
    ensures r != a && r != b && r != n + 1 ==>
      WeightOf(Joined(parent, n, a, b), n + 1, leaf, m, r) == WeightOf(parent, n, leaf, m, r)
  {
    JoinedIsForest(parent, n, a, b);
    if m > 0 {
      JoinedWeight(parent, n, a, b, leaf, m - 1, r);
      JoinedAt(parent, n, a, b, m);
    }
  }

  lemma HalvedAt(k: nat)
    requires k > 0
    ensures Pow2(k) == 2 * Pow2(k - 1)
  {
  }

  /** Joining two trees halves every leaf's share, so the shares of the new tree again add up to one. */
  lemma {:induction false} JoinedKraft(parent: seq<int>, n: int, a: int, b: int, m: int, r: int)
    requires IsForest(parent, n) && n + 1 < |parent| && 1 <= a <= n && 1 <= b <= n && a != b
    requires parent[a] == -1 && parent[b] == -1 && 0 <= m <= n
    requires forall k | 1 <= k <= m :: Depth(parent, n, k) < SCALE
    ensures IsForest(Joined(parent, n, a, b), n + 1)
    ensures 2 * KraftOf(Joined(parent, n, a, b), n + 1, m, n + 1)
            == KraftOf(parent, n, m, a) + KraftOf(parent, n, m, b)
    ensures r != a && r != b && r != n + 1 ==>
      KraftOf(Joined(parent, n, a, b), n + 1, m, r) == KraftOf(parent, n, m, r)
  {
    JoinedIsForest(parent, n, a, b);
    if m > 0 {
      HalvedAt(SCALE - Depth(parent, n, m));
      JoinedAt(parent, n, a, b, m);
      hide Depth, Root, Pow2, Joined;
      JoinedKraft(parent, n, a, b, m - 1, r);
    }
  }

  // ---------- single nodes ----------

  lemma {:induction false} SingletonSums(parent: seq<int>, n: int, leaf: seq<int>, m: int, r: int)
    requires IsForest(parent, n) && 0 <= m <= n && m < |leaf| && 1 <= r && forall k | 1 <= k <= n :: parent[k] == -1
    ensures WeightOf(parent, n, leaf, m, r) == if r <= m then leaf[r] else 0
    ensures KraftOf(parent, n, m, r) == if r <= m then Pow2(SCALE) else 0
  {
    if m > 0 {
      SingletonSums(parent, n, leaf, m - 1, r);
    }
  }

  // ---------- the Fibonacci bound ----------

  ghost function Fib(k: nat): (r: nat)
    ensures k > 0 ==> r > 0
  {
    if k < 2 then k else Fib(k - 1) + Fib(k - 2)
  }

  lemma {:induction false} FibMonotone(j: nat, k: nat)
    requires j <= k
    ensures Fib(j) <= Fib(k)
  {
    if j < k {
      FibMonotone(j, k - 1);
      assert k >= 2 ==> Fib(k) == Fib(k - 1) + Fib(k - 2);
    }
  }

  /** Enough weights to tell how deep a tree can be: 15 for all weights small, 31 for any block. */
  lemma FibValues()
    ensures Fib(15) == 610 && Fib(31) == 1346269
  {
    assert Fib(5) == 5 && Fib(6) == 8;
    assert Fib(10) == 55 && Fib(11) == 89;
    assert Fib(14) == 377 && Fib(15) == 610;
    assert Fib(18) == 2584 && Fib(19) == 4181;
    assert Fib(22) == 17711 && Fib(23) == 28657;
    assert Fib(26) == 121393 && Fib(27) == 196418;
    assert Fib(30) == 832040 && Fib(31) == 1346269;
  }
}
