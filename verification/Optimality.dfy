/**
 * Joining the two lightest trees again and again gives the cheapest prefix code: no lengths that satisfy Kraft's inequality
 * cost less.
 */
module Optimality {
  import opened Bits
  import opened Forest

  // ---------- codes for some of the nodes ----------

  /** What a code of length x takes of all codes, in units of 2^-scale; a negative length stands for no code. */
  ghost function Share(x: int, scale: nat): nat {
    if 0 <= x <= scale then Pow2(scale - x) else 0
  }

  ghost function ShareSum(l: seq<int>, scale: nat): nat {
    if l == [] then 0 else ShareSum(l[..|l| - 1], scale) + Share(l[|l| - 1], scale)
  }

  ghost function Term(w: int, x: int): int {
    if x >= 0 then w * x else 0
  }

  /** The weighted sum of the lengths. */
  ghost function Cost(w: seq<int>, l: seq<int>): int
    requires |w| == |l|
  {
    if l == [] then 0 else Cost(w[..|l| - 1], l[..|l| - 1]) + Term(w[|l| - 1], l[|l| - 1])
  }

  lemma {:induction false} ShareChanged(l: seq<int>, scale: nat, i: nat, x: int)
    requires i < |l|
    ensures ShareSum(l[i := x], scale) == ShareSum(l, scale) - Share(l[i], scale) + Share(x, scale)
    decreases |l|
  {
    hide Share;
    var n := |l| - 1;
    if i < n {
      ShareChanged(l[..n], scale, i, x);
      assert l[i := x][..n] == l[..n][i := x];
    } else {
      assert l[i := x][..n] == l[..n];
    }
  }

  lemma {:induction false} CostChanged(w: seq<int>, l: seq<int>, i: nat, x: int)
    requires |w| == |l| && i < |l|
    ensures Cost(w, l[i := x]) == Cost(w, l) - Term(w[i], l[i]) + Term(w[i], x)
    decreases |l|
  {
    hide Term;
    var n := |l| - 1;
    if i < n {
      CostChanged(w[..n], l[..n], i, x);
      assert l[i := x][..n] == l[..n][i := x];
    } else {
      assert l[i := x][..n] == l[..n];
    }
  }

  lemma ShareNext(l: seq<int>, scale: nat, x: int)
    ensures ShareSum(l + [x], scale) == ShareSum(l, scale) + Share(x, scale)
  {
    hide Share;
    assert (l + [x])[..|l|] == l;
  }

  lemma CostNext(w: seq<int>, l: seq<int>, v: int, x: int)
    requires |w| == |l|
    ensures Cost(w + [v], l + [x]) == Cost(w, l) + Term(v, x)
  {
    hide Term;
    assert (l + [x])[..|l|] == l && (w + [v])[..|l|] == w;
  }

  lemma {:induction false} CostAtLeastZero(w: seq<int>, l: seq<int>)
    requires |w| == |l| && forall i | 0 <= i < |l| && l[i] >= 0 :: w[i] >= 0
    ensures Cost(w, l) >= 0
    decreases |l|
  {
    if l != [] {
      CostAtLeastZero(w[..|l| - 1], l[..|l| - 1]);
    }
  }

  /** Lengths of a prefix code for the nodes that have one. */
  ghost predicate Coding(w: seq<int>, l: seq<int>, scale: nat) {
    && |w| == |l|
    && (forall i | 0 <= i < |l| :: -1 <= l[i] <= scale && (l[i] >= 0 ==> w[i] >= 0))
    && ShareSum(l, scale) <= Pow2(scale)
  }

  /** The same nodes have codes. */
  ghost predicate SameNodes(l: seq<int>, l': seq<int>) {
    |l| == |l'| && forall i | 0 <= i < |l| :: l[i] >= 0 <==> l'[i] >= 0
  }

  /** a and b are the two lightest. */
  ghost predicate LightestTwo(w: seq<int>, l: seq<int>, a: nat, b: nat) {
    && |w| == |l| && a < |l| && b < |l| && a != b && l[a] >= 0 && l[b] >= 0 && w[a] <= w[b]
    && forall v | 0 <= v < |l| && l[v] >= 0 && v != a && v != b :: w[b] <= w[v]
  }

  // ---------- the two longest codes ----------

  /** A longest code among those of the nodes other than one. */
  lemma {:induction false} Longest(l: seq<int>, m: nat, except: int) returns (x: nat)
    requires m <= |l| && exists i :: 0 <= i < m && i != except && l[i] >= 0
    ensures x < m && x != except && l[x] >= 0
    ensures forall i | 0 <= i < m && i != except :: l[i] <= l[x]
    decreases m
  {
    var i :| 0 <= i < m && i != except && l[i] >= 0;
    if j :| 0 <= j < m - 1 && j != except && l[j] >= 0 {
      x := Longest(l, m - 1, except);
      if m - 1 != except && l[m - 1] > l[x] {
        x := m - 1;
      }
    } else {
      x := m - 1;
      assert i == m - 1;
    }
  }

  /** Shares of codes no longer than d are multiples of the share of a code of length d. */
  lemma {:induction false} Multiples(l: seq<int>, scale: nat, d: nat) returns (k: nat)
    requires d <= scale && forall i | 0 <= i < |l| :: l[i] <= d
    ensures ShareSum(l, scale) == k * Pow2(scale - d)
    decreases |l|
  {
    if l == [] {
      k := 0;
    } else {
      var j := Multiples(l[..|l| - 1], scale, d);
      var x := l[|l| - 1];
      if x >= 0 {
        Pow2Add(d - x, scale - d);
        k := j + Pow2(d - x);
        Distributes(j, Pow2(d - x), Pow2(scale - d));
      } else {
        k := j;
      }
    }
  }

  lemma Distributes(a: int, b: int, u: int)
    ensures (a + b) * u == a * u + b * u
  {
  }

  lemma Sign(x: int, u: nat)
    ensures x >= 0 ==> x * u >= 0
    ensures x <= 0 ==> x * u <= 0
  {
  }

  /** If k shares leave room, they leave room for one more. */
  lemma RoomForOne(k: nat, u: nat, p: nat)
    requires k * u < p * u
    ensures (k + 1) * u <= p * u
  {
    Distributes(p - k, k, u);
    Sign(p - k, u);
    Distributes(p - k - 1, k + 1, u);
    Sign(p - k - 1, u);
  }

  lemma WithoutCode(l: seq<int>, scale: nat, x: nat)
    requires x < |l| && 0 <= l[x] <= scale
    ensures ShareSum(l[x := -1], scale) < ShareSum(l, scale)
  {
    ShareChanged(l, scale, x, -1);
  }

  /** The longest code can be made as short as the second longest. */
  lemma Evened(w: seq<int>, l: seq<int>, scale: nat, x: nat, y: nat)
    requires Coding(w, l, scale) && x < |l| && y < |l| && x != y && 0 <= l[y] <= l[x]
    requires forall i | 0 <= i < |l| && i != x :: l[i] <= l[y]
    ensures Coding(w, l[x := l[y]], scale) && Cost(w, l[x := l[y]]) <= Cost(w, l)
  {
    var d := l[y];
    ShareChanged(l, scale, x, d);
    CostChanged(w, l, x, d);
    Less(w[x], d, l[x]);
    if d < l[x] {
      var rest := l[x := -1];
      WithoutCode(l, scale, x);
      ShareChanged(l, scale, x, -1);
      var k := Multiples(rest, scale, d);
      Pow2Add(d, scale - d);
      RoomForOne(k, Pow2(scale - d), Pow2(d));
      Distributes(k, 1, Pow2(scale - d));
    }
  }

  lemma Less(w: int, d: int, e: int)
    requires w >= 0 && d <= e
    ensures w * d <= w * e
  {
    Sign(e - d, w);
    Distributes(e - d, d, w);
  }

  // ---------- the two lightest get the longest codes ----------

  /** A light node and a heavy one exchange their codes; the light one has the longer one then. */
  lemma Exchanged(w: seq<int>, l: seq<int>, scale: nat, a: nat, x: nat) returns (l': seq<int>)
    requires Coding(w, l, scale) && a < |l| && x < |l| && a != x && 0 <= l[a] <= l[x] && w[a] <= w[x]
    ensures l' == l[a := l[x]][x := l[a]]
    ensures Coding(w, l', scale) && Cost(w, l') <= Cost(w, l)
  {
    var l1 := l[a := l[x]];
    l' := l1[x := l[a]];
    ShareChanged(l, scale, a, l[x]);
    ShareChanged(l1, scale, x, l[a]);
    CostChanged(w, l, a, l[x]);
    CostChanged(w, l1, x, l[a]);
    Crosswise(w[a], w[x], l[a], l[x]);
  }

  lemma Crosswise(v: int, w: int, d: int, e: int)
    requires v <= w && d <= e
    ensures v * e + w * d <= v * d + w * e
  {
    Sign(w - v, e - d);
    assert (w - v) * (e - d) == w * e - w * d - v * e + v * d;
  }

  /** Both of the two lightest get a longest code. */
  lemma LightLongest(w: seq<int>, l: seq<int>, scale: nat, a: nat, b: nat, x: nat, y: nat) returns (l': seq<int>)
    requires Coding(w, l, scale) && LightestTwo(w, l, a, b) && x < |l| && y < |l| && x != y && l[x] == l[y] >= 0
    requires forall i | 0 <= i < |l| :: l[i] <= l[x]
    ensures Coding(w, l', scale) && SameNodes(l, l') && Cost(w, l') <= Cost(w, l)
    ensures l'[a] == l'[b] == l[x]
  {
    hide Coding, Cost;
    CodingSizes(w, l, scale);
    var l1, z := l, if x == a then y else x;
    if l[a] < l[x] {
      l1 := Exchanged(w, l, scale, a, x);
      z := y;
    }
    CodingSizes(w, l1, scale);
    l' := l1;
    if l1[b] < l[x] {
      l' := Exchanged(w, l1, scale, b, z);
      CodingSizes(w, l', scale);
    }
  }

  lemma CodingSizes(w: seq<int>, l: seq<int>, scale: nat)
    requires Coding(w, l, scale)
    ensures |w| == |l| && forall i | 0 <= i < |l| :: -1 <= l[i] <= scale
  {
  }

  // ---------- joining ----------

  lemma MergedShare(l: seq<int>, scale: nat, a: nat, b: nat)
    requires a < |l| && b < |l| && a != b && 0 < l[a] == l[b] <= scale
    ensures ShareSum(l[a := -1][b := -1] + [l[a] - 1], scale) == ShareSum(l, scale)
  {
    hide ShareSum;
    var d, l1 := l[a], l[a := -1];
    ShareChanged(l, scale, a, -1);
    ShareChanged(l1, scale, b, -1);
    ShareNext(l1[b := -1], scale, d - 1);
    assert Pow2(scale - (d - 1)) == 2 * Pow2(scale - d);
  }

  lemma OneShorter(v: int, w: int, d: int)
    ensures (v + w) * (d - 1) == v * d + w * d - v - w
  {
  }

  lemma MergedCost(w: seq<int>, l: seq<int>, a: nat, b: nat)
    requires |w| == |l| && a < |l| && b < |l| && a != b && l[a] == l[b] > 0
    ensures Cost(w + [w[a] + w[b]], l[a := -1][b := -1] + [l[a] - 1]) + w[a] + w[b] == Cost(w, l)
  {
    hide Cost;
    var d, l1 := l[a], l[a := -1];
    CostChanged(w, l, a, -1);
    CostChanged(w, l1, b, -1);
    CostNext(w, l1[b := -1], w[a] + w[b], d - 1);
    OneShorter(w[a], w[b], d);
  }

  /** The code after the two lightest have been joined: one shorter than theirs, for their parent. */
  lemma Merged(w: seq<int>, l: seq<int>, scale: nat, a: nat, b: nat) returns (l': seq<int>)
    requires Coding(w, l, scale) && a < |l| && b < |l| && a != b && l[a] == l[b] > 0
    ensures l' == l[a := -1][b := -1] + [l[a] - 1]
    ensures Coding(w + [w[a] + w[b]], l', scale)
    ensures Cost(w + [w[a] + w[b]], l') + w[a] + w[b] == Cost(w, l)
  {
    hide Cost, ShareSum, Pow2;
    l' := l[a := -1][b := -1] + [l[a] - 1];
    MergedShare(l, scale, a, b);
    MergedCost(w, l, a, b);
  }

  /** Two codes of length 0 are too many. */
  lemma NotBothEmpty(w: seq<int>, l: seq<int>, scale: nat, a: nat, b: nat)
    requires Coding(w, l, scale) && a < |l| && b < |l| && a != b && l[a] == l[b] >= 0
    ensures l[a] > 0
  {
    ShareChanged(l, scale, a, -1);
    ShareChanged(l[a := -1], scale, b, -1);
  }

  /** From any code for the nodes there is one for them with the two lightest joined, cheaper by their weights at least. */
  lemma JoinCode(w: seq<int>, l: seq<int>, scale: nat, a: nat, b: nat) returns (l': seq<int>)
    requires Coding(w, l, scale) && LightestTwo(w, l, a, b)
    ensures |l'| == |l| + 1 && l'[a] == l'[b] == -1 && l'[|l|] >= 0
    ensures forall i | 0 <= i < |l| && i != a && i != b :: l[i] >= 0 <==> l'[i] >= 0
    ensures Coding(w + [w[a] + w[b]], l', scale)
    ensures Cost(w + [w[a] + w[b]], l') + w[a] + w[b] <= Cost(w, l)
  {
    hide Coding, Cost;
    CodingSizes(w, l, scale);
    var x := Longest(l, |l|, -1);
    assert exists i :: 0 <= i < |l| && i != x && l[i] >= 0 by {
      assert a != x || b != x;
    }
    var y := Longest(l, |l|, x);
    Evened(w, l, scale, x, y);
    var l1 := l[x := l[y]];
    var l2 := LightLongest(w, l1, scale, a, b, x, y);
    NotBothEmpty(w, l2, scale, a, b);
    l' := Merged(w, l2, scale, a, b);
  }

  // ---------- the whole tree ----------

  /** Node v is the root of a tree when the nodes up to t have been made. */
  ghost predicate RootAt(parent: seq<int>, t: int, v: int)
    requires 0 <= v < |parent|
  {
    1 <= v <= t && (parent[v] == -1 || parent[v] > t)
  }

  /** Node x was made by joining a and b, no heavier than any other root of that time. */
  ghost predicate MadeFrom(parent: seq<int>, w: seq<int>, n: int, x: int, a: int, b: int) {
    && 1 <= a < x <= n < |parent| && n < |w| && 1 <= b < x && a != b && parent[a] == parent[b] == x
    && w[x] == w[a] + w[b] && w[a] <= w[b]
    && (forall v | 1 <= v <= n && parent[v] == x :: v == a || v == b)
    && forall v | 1 <= v < x && RootAt(parent, x - 1, v) && v != a && v != b :: w[b] <= w[v]
  }

  ghost predicate WasMade(parent: seq<int>, w: seq<int>, n: int, x: int) {
    exists a, b :: MadeFrom(parent, w, n, x, a, b)
  }

  /** Every node above the leaves was. */
  ghost predicate Greedy(parent: seq<int>, w: seq<int>, alpha: int, n: int) {
    && IsForest(parent, n) && 1 <= alpha <= n < |w|
    && (forall v | 1 <= v <= n :: w[v] >= 0 && (parent[v] == -1 || parent[v] > alpha))
    && forall x | alpha < x <= n :: WasMade(parent, w, n, x)
  }

  /** The weights of the nodes above x. */
  ghost function Above(w: seq<int>, x: int, n: int): int
    requires 0 <= x <= n < |w|
    decreases n - x
  {
    if x == n then 0 else w[x + 1] + Above(w, x + 1, n)
  }

  /** Codes for just the roots when the nodes up to t have been made. */
  ghost predicate ForRoots(parent: seq<int>, t: int, l: seq<int>) {
    && |l| == t + 1 <= |parent| && forall v | 0 <= v <= t :: l[v] >= 0 <==> RootAt(parent, t, v)
  }

  /** Whatever the codes for the roots, they cost at least the weights of the nodes still to be made. */
  lemma {:induction false} LowerBound(parent: seq<int>, w: seq<int>, alpha: int, n: int, t: int, l: seq<int>, scale: nat)
    requires Greedy(parent, w, alpha, n) && alpha <= t <= n
    requires ForRoots(parent, t, l) && Coding(w[..t + 1], l, scale)
    ensures Cost(w[..t + 1], l) >= Above(w, t, n)
    decreases n - t
  {
    hide Cost, Coding, MadeFrom;
    if t == n {
      RootsWeigh(parent, w, alpha, n, t, l);
      CostAtLeastZero(w[..t + 1], l);
    } else {
      assert WasMade(parent, w, n, t + 1);
      var a, b :| MadeFrom(parent, w, n, t + 1, a, b);
      LightestRoots(parent, w, n, t, a, b, l);
      var l' := JoinCode(w[..t + 1], l, scale, a, b);
      NextRoots(parent, w, n, t, a, b, l, l');
      LowerBound(parent, w, alpha, n, t + 1, l', scale);
    }
  }

  lemma RootsWeigh(parent: seq<int>, w: seq<int>, alpha: int, n: int, t: int, l: seq<int>)
    requires Greedy(parent, w, alpha, n) && alpha <= t <= n && ForRoots(parent, t, l)
    ensures forall i | 0 <= i < |l| && l[i] >= 0 :: w[..t + 1][i] >= 0
  {
  }

  lemma LightestRoots(parent: seq<int>, w: seq<int>, n: int, t: int, a: int, b: int, l: seq<int>)
    requires MadeFrom(parent, w, n, t + 1, a, b) && 0 <= t < n && ForRoots(parent, t, l)
    ensures 0 <= a < |l| && 0 <= b < |l| && LightestTwo(w[..t + 1], l, a, b)
  {
  }

  lemma NextRoots(parent: seq<int>, w: seq<int>, n: int, t: int, a: int, b: int, l: seq<int>, l': seq<int>)
    requires MadeFrom(parent, w, n, t + 1, a, b) && 0 <= t < n && ForRoots(parent, t, l) && IsForest(parent, n)
    requires |l'| == |l| + 1 && l'[a] == l'[b] == -1 && l'[|l|] >= 0
    requires forall i | 0 <= i < |l| && i != a && i != b :: l[i] >= 0 <==> l'[i] >= 0
    ensures ForRoots(parent, t + 1, l') && w[..t + 1] + [w[a] + w[b]] == w[..t + 2]
    ensures w[..t + 1][a] + w[..t + 1][b] == w[t + 1]
  {
    forall v | 0 <= v <= t + 1
      ensures l'[v] >= 0 <==> RootAt(parent, t + 1, v)
    {
      if 1 <= v <= t && v != a && v != b {
        assert parent[v] != t + 1;
        assert l[v] >= 0 <==> RootAt(parent, t, v);
      }
    }
  }

  // ---------- what the tree itself costs ----------

  /** How deep the roots of that time lie in the whole tree. */
  ghost function DepthsAt(parent: seq<int>, n: int, t: int): (l: seq<int>)
    requires IsForest(parent, n) && 0 <= t <= n
    ensures ForRoots(parent, t, l)
    ensures forall v | 1 <= v <= t && RootAt(parent, t, v) :: l[v] == Depth(parent, n, v)
  {
    seq(t + 1, v requires 0 <= v <= t => if v >= 1 && RootAt(parent, t, v) then Depth(parent, n, v) else -1)
  }

  lemma {:induction false} TreeCost(parent: seq<int>, w: seq<int>, alpha: int, n: int, t: int)
    requires Greedy(parent, w, alpha, n) && alpha <= t <= n
    ensures Cost(w[..t + 1], DepthsAt(parent, n, t)) == Above(w, t, n)
    decreases n - t
  {
    hide Cost, MadeFrom;
    var l := DepthsAt(parent, n, t);
    if t == n {
      AllZero(w[..t + 1], l);
    } else {
      assert WasMade(parent, w, n, t + 1);
      var a, b :| MadeFrom(parent, w, n, t + 1, a, b);
      DepthsNext(parent, w, n, t, a, b);
      MergedCost(w[..t + 1], l, a, b);
      TreeCost(parent, w, alpha, n, t + 1);
    }
  }

  lemma {:induction false} AllZero(w: seq<int>, l: seq<int>)
    requires |w| == |l| && forall i | 0 <= i < |l| :: l[i] <= 0
    ensures Cost(w, l) == 0
    decreases |l|
  {
    if l != [] {
      AllZero(w[..|l| - 1], l[..|l| - 1]);
    }
  }

  lemma DepthsNext(parent: seq<int>, w: seq<int>, n: int, t: int, a: int, b: int)
    requires MadeFrom(parent, w, n, t + 1, a, b) && 0 <= t < n && IsForest(parent, n)
    ensures var l := DepthsAt(parent, n, t);
      && 1 <= a < |l| && 1 <= b < |l| && a != b && l[a] == l[b] > 0
      && DepthsAt(parent, n, t + 1) == l[a := -1][b := -1] + [l[a] - 1]
      && w[..t + 1] + [w[..t + 1][a] + w[..t + 1][b]] == w[..t + 2] && w[..t + 1][a] + w[..t + 1][b] == w[t + 1]
  {
    var l := DepthsAt(parent, n, t);
    var l' := l[a := -1][b := -1] + [l[a] - 1];
    NextRoots(parent, w, n, t, a, b, l, l');
    DepthOfChild(parent, n, a);
    DepthOfChild(parent, n, b);
    SameDepths(parent, n, t, a, b, l, l');
  }

  lemma DepthOfChild(parent: seq<int>, n: int, k: int)
    requires IsForest(parent, n) && 1 <= k <= n && parent[k] >= 0
    ensures Depth(parent, n, k) == 1 + Depth(parent, n, parent[k])
  {
  }

  lemma SameDepths(parent: seq<int>, n: int, t: int, a: int, b: int, l: seq<int>, l': seq<int>)
    requires IsForest(parent, n) && 0 <= t < n && l == DepthsAt(parent, n, t) && 1 <= a <= t && 1 <= b <= t
    requires ForRoots(parent, t + 1, l') && l' == l[a := -1][b := -1] + [Depth(parent, n, t + 1)]
    ensures DepthsAt(parent, n, t + 1) == l'
  {
    var d := DepthsAt(parent, n, t + 1);
    forall v | 0 <= v <= t + 1
      ensures d[v] == l'[v]
    {
      if v <= t && l'[v] >= 0 {
        assert l[v] >= 0;
      }
    }
  }

  // ---------- the cheapest code ----------

  /** Lengths, up to scale, that satisfy Kraft's inequality. */
  ghost predicate PrefixLengths(lens: seq<int>, n: nat, scale: nat) {
    |lens| == n && (forall i | 0 <= i < n :: 0 <= lens[i] <= scale) && ShareSum(lens, scale) <= Pow2(scale)
  }

  /** No prefix code costs less, however long its codes. */
  ghost predicate Cheapest(weights: seq<int>, lens: seq<int>) {
    && |weights| == |lens|
    && forall other, scale: nat | PrefixLengths(other, |weights|, scale) :: Cost(weights, lens) <= Cost(weights, other)
  }

  lemma {:induction false} ShiftedCost(z: int, w: seq<int>, l: seq<int>, scale: nat)
    requires |w| == |l|
    ensures Cost([z] + w, [-1] + l) == Cost(w, l) && ShareSum([-1] + l, scale) == ShareSum(l, scale)
    decreases |l|
  {
    if l == [] {
      assert [z] + w == [z] && [-1] + l == [-1];
      assert [z][..0] == [] && [-1][..0] == [];
    } else {
      hide Term, Share;
      var n := |l| - 1;
      ShiftedCost(z, w[..n], l[..n], scale);
      assert ([z] + w)[..n + 1] == [z] + w[..n] && ([-1] + l)[..n + 1] == [-1] + l[..n];
    }
  }

  /** Depths in a tree made like that are the cheapest lengths for the weights of its leaves. */
  lemma GreedyCheapest(parent: seq<int>, w: seq<int>, alpha: int, n: int, lens: seq<int>)
    requires Greedy(parent, w, alpha, n) && |lens| == alpha
    requires forall i | 0 <= i < alpha :: lens[i] == Depth(parent, n, i + 1)
    ensures Cheapest(w[1..alpha + 1], lens)
  {
    hide Cost, ShareSum, Greedy;
    GreedyParts(parent, w, alpha, n);
    var weights, z := w[1..alpha + 1], w[0];
    assert [z] + weights == w[..alpha + 1];
    forall other, scale: nat | PrefixLengths(other, alpha, scale)
      ensures Cost(weights, lens) <= Cost(weights, other)
    {
      ShiftedCost(z, weights, other, scale);
      LeafCodes(parent, w, alpha, n, other, scale);
      LowerBound(parent, w, alpha, n, alpha, [-1] + other, scale);
      assert DepthsAt(parent, n, alpha) == [-1] + lens;
      ShiftedCost(z, weights, lens, scale);
      TreeCost(parent, w, alpha, n, alpha);
    }
  }

  lemma GreedyParts(parent: seq<int>, w: seq<int>, alpha: int, n: int)
    requires Greedy(parent, w, alpha, n)
    ensures IsForest(parent, n) && 1 <= alpha <= n < |w|
    ensures forall v | 1 <= v <= alpha :: parent[v] == -1 || parent[v] > alpha
  {
  }

  lemma LeafCodes(parent: seq<int>, w: seq<int>, alpha: int, n: int, other: seq<int>, scale: nat)
    requires Greedy(parent, w, alpha, n) && PrefixLengths(other, alpha, scale)
    ensures ForRoots(parent, alpha, [-1] + other) && Coding(w[..alpha + 1], [-1] + other, scale)
  {
    var weights, z := w[1..alpha + 1], w[0];
    ShiftedCost(z, weights, other, scale);
    hide ShareSum, WasMade;
  }

  /** In a cheapest code a heavier symbol never has a longer code. */
  lemma HeavierShorter(weights: seq<int>, lens: seq<int>, scale: nat, i: nat, j: nat)
    requires Cheapest(weights, lens) && PrefixLengths(lens, |weights|, scale)
    requires i < |lens| && j < |lens| && weights[i] > weights[j]
    ensures lens[i] <= lens[j]
  {
    var l1 := lens[i := lens[j]];
    var l2 := l1[j := lens[i]];
    ShareChanged(lens, scale, i, lens[j]);
    ShareChanged(l1, scale, j, lens[i]);
    CostChanged(weights, lens, i, lens[j]);
    CostChanged(weights, l1, j, lens[i]);
    hide Cost, ShareSum;
    assert PrefixLengths(l2, |weights|, scale);
    Dearer(weights[i], weights[j], lens[i], lens[j]);
  }

  lemma Dearer(v: int, w: int, d: int, e: int)
    requires v > w && v * d + w * e <= v * e + w * d
    ensures d <= e
  {
    assert (v - w) * (d - e) == v * d - v * e - w * d + w * e;
    if d > e {
      Sign(d - e - 1, v - w);
      Distributes(d - e - 1, 1, v - w);
    }
  }
}
