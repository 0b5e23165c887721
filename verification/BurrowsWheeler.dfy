/** The transform of a block and its inverse, for any order of equal rotations. */
module BurrowsWheeler {
  import opened Permutations
  import opened Rotations

  /** The index before i, going round. */
  function Before(i: nat, n: nat): (r: nat)
    requires i < n
    ensures r < n
  {
    if i == 0 then n - 1 else i - 1
  }

  lemma BeforeWraps(b: seq<int>, i: nat)
    requires i < |b|
    ensures Wrap(Before(i, |b|) + 1, |b|) == i
  {
  }

  /** What the encoder sends: the character before each row's rotation, row by row. */
  function LastColumn(b: seq<int>, p: seq<int>): (r: seq<int>)
    requires |p| == |b| && forall x | 0 <= x < |p| :: 0 <= p[x] < |b|
    ensures |r| == |p|
  {
    seq(|p|, x requires 0 <= x < |p| => b[Before(p[x], |b|)])
  }

  /** t lists the places of column l by character, places with the same character in their own order. */
  ghost predicate StableOrder(l: seq<int>, t: seq<int>) {
    && |t| == |l|
    && IsPermutation(t)
    && forall x, y | 0 <= x < y < |t| :: l[t[x]] < l[t[y]] || (l[t[x]] == l[t[y]] && t[x] < t[y])
  }

  /** Two orders of the rotations agree up to exchanging equal ones. */
  lemma OrdersAgree(b: seq<int>, p: seq<int>, r: seq<int>, k: nat)
    requires SortsRotations(b, p) && SortsRotations(b, r) && k < |p|
    ensures Cmp(b, p[k], r[k], |b|) == 0
  {
    if Cmp(b, p[k], r[k], |b|) < 0 {
      NotBehind(b, p, r, k);
    }
    CmpOpposite(b, p[k], r[k], |b|);
    if Cmp(b, r[k], p[k], |b|) < 0 {
      NotBehind(b, r, p, k);
    }
  }

  /** k+1 rotations cannot all fit among the k rows above row k. */
  lemma NotBehind(b: seq<int>, p: seq<int>, r: seq<int>, k: nat)
    requires SortsRotations(b, p) && SortsRotations(b, r) && k < |p|
    ensures Cmp(b, p[k], r[k], |b|) >= 0
  {
    hide Cmp;
    if Cmp(b, p[k], r[k], |b|) < 0 {
      PermutationIsSurjective(r);
      forall x | x in p[..k + 1]
        ensures x in Elements(r[..k])
      {
        var i :| 0 <= i <= k && p[i] == x;
        CmpOpposite(b, p[k], p[k], |b|);
        assert Precedes(b, p[i], p[k]);
        CmpTransitive(b, p[i], p[k], r[k], |b|);
        assert 0 <= x < |r| && x in r;
        var j :| 0 <= j < |r| && r[j] == x;
        StrictlyAbove(b, r, j, k);
        assert r[..k][j] == x;
      }
      Pigeonhole(p[..k + 1], Elements(r[..k]));
      ElementsBound(r[..k]);
      assert false;
    }
  }

  lemma StrictlyAbove(b: seq<int>, r: seq<int>, j: nat, k: nat)
    requires SortsRotations(b, r) && j < |r| && k < |r| && Cmp(b, r[j], r[k], |b|) < 0
    ensures j < k
  {
    hide Cmp;
    CmpOpposite(b, r[j], r[k], |b|);
    CmpOpposite(b, r[k], r[k], |b|);
  }

  lemma {:induction false} ElementsBound(s: seq<int>)
    ensures |Elements(s)| <= |s|
  {
    if s == [] {
      assert Elements(s) == {};
    } else {
      var r := s[..|s| - 1];
      ElementsBound(r);
      assert s == r + [s[|s| - 1]];
      assert Elements(s) == Elements(r) + {s[|s| - 1]};
    }
  }

  /** The rotations one step back, listed along t, are again in sorted order. */
  function SteppedBack(p: seq<int>, t: seq<int>): (r: seq<int>)
    requires |t| == |p| && forall x | 0 <= x < |p| :: 0 <= p[x] < |p| && 0 <= t[x] < |p|
    ensures |r| == |p|
  {
    seq(|p|, k requires 0 <= k < |p| => Before(p[t[k]], |p|))
  }

  lemma SteppedBackDiffers(p: seq<int>, t: seq<int>, x: nat, y: nat)
    requires IsPermutation(p) && IsPermutation(t) && |t| == |p| && x < y < |p|
    ensures Before(p[t[x]], |p|) != Before(p[t[y]], |p|)
  {
    var u, v := t[x], t[y];
    assert u != v;
    assert p[u] != p[v];
  }

  lemma SteppedBackPermutes(p: seq<int>, t: seq<int>)
    requires IsPermutation(p) && IsPermutation(t) && |t| == |p|
    ensures IsPermutation(SteppedBack(p, t))
  {
    var r := SteppedBack(p, t);
    hide Injective;
    forall x, y | 0 <= x < y < |r|
      ensures r[x] != r[y]
    {
      SteppedBackDiffers(p, t, x, y);
    }
    DistinctInjective(r);
  }

  lemma DistinctInjective(r: seq<int>)
    requires forall x, y | 0 <= x < y < |r| :: r[x] != r[y]
    ensures Injective(r)
  {
  }

  lemma SteppedBackSorts(b: seq<int>, p: seq<int>, t: seq<int>)
    requires SortsRotations(b, p) && StableOrder(LastColumn(b, p), t)
    ensures SortsRotations(b, SteppedBack(p, t))
  {
    var n, r, l := |b|, SteppedBack(p, t), LastColumn(b, p);
    SteppedBackPermutes(p, t);
    forall x, y | 0 <= x < y < n
      ensures Precedes(b, r[x], r[y])
    {
      assert r[x] == Before(p[t[x]], n) && r[y] == Before(p[t[y]], n);
      assert b[r[x]] == l[t[x]] && b[r[y]] == l[t[y]];
      if l[t[x]] == l[t[y]] {
        hide Cmp;
        assert Precedes(b, p[t[x]], p[t[y]]);
        BackByOne(b, p[t[x]], p[t[y]]);
      } else {
        assert l[t[x]] < l[t[y]];
        FirstDecides(b, r[x], r[y]);
      }
    }
  }

  lemma FirstDecides(b: seq<int>, i: nat, j: nat)
    requires i < |b| && j < |b| && b[i] < b[j]
    ensures Precedes(b, i, j)
  {
  }

  /** Putting the same character in front keeps the order. */
  lemma BackByOne(b: seq<int>, i: nat, j: nat)
    requires i < |b| && j < |b| && Precedes(b, i, j)
    requires b[Before(i, |b|)] == b[Before(j, |b|)]
    ensures Precedes(b, Before(i, |b|), Before(j, |b|))
  {
    var n, i', j' := |b|, Before(i, |b|), Before(j, |b|);
    CmpWrapped(b, i' + 1, j' + 1, n);
    CmpOpposite(b, i, j' + 1, n);
    CmpWrapped(b, j' + 1, i, n);
    CmpOpposite(b, i, j, n);
    assert Cmp(b, i', j', n + 1) == Cmp(b, i' + 1, j' + 1, n);
    CmpDeep(b, i', j', n + 1);
  }

  /** Row t[k] holds the rotation one character on from row k. */
  lemma StepsForward(b: seq<int>, p: seq<int>, t: seq<int>, k: nat)
    requires SortsRotations(b, p) && StableOrder(LastColumn(b, p), t) && k < |b|
    ensures Cmp(b, p[k] + 1, p[t[k]], |b|) == 0
  {
    hide *;
    var r := SteppedBackRow(b, p, t, k);
    OrdersAgree(b, p, r, k);
    ForwardByOne(b, p[k], p[t[k]]);
  }

  lemma SteppedBackRow(b: seq<int>, p: seq<int>, t: seq<int>, k: nat) returns (r: seq<int>)
    requires SortsRotations(b, p) && StableOrder(LastColumn(b, p), t) && k < |b|
    ensures |p| == |t| == |r| == |b| && 0 <= t[k] < |b| && 0 <= p[k] < |b| && 0 <= p[t[k]] < |b|
    ensures SortsRotations(b, r) && r[k] == Before(p[t[k]], |b|)
  {
    SteppedBackSorts(b, p, t);
    r := SteppedBack(p, t);
  }

  lemma ForwardByOne(b: seq<int>, i: nat, j: nat)
    requires i < |b| && j < |b| && Cmp(b, i, Before(j, |b|), |b|) == 0
    ensures Cmp(b, i + 1, j, |b|) == 0
  {
    hide Cmp, At;
    var n, j' := |b|, Before(j, |b|);
    EqualRotations(b, i, j', 1, n);
    BeforeWraps(b, j);
    CmpOpposite(b, i + 1, j' + 1, n);
    CmpWrapped(b, j' + 1, i + 1, n);
    CmpOpposite(b, j, i + 1, n);
  }

  /** The row reached from row k after m steps along t. */
  function Walk(t: seq<int>, k: nat, m: nat): (r: nat)
    requires k < |t| && forall x | 0 <= x < |t| :: 0 <= t[x] < |t|
    ensures r < |t|
  {
    if m == 0 then k else t[Walk(t, k, m - 1)]
  }

  lemma {:induction false} WalkFollowsBlock(b: seq<int>, p: seq<int>, t: seq<int>, o: nat, m: nat)
    requires SortsRotations(b, p) && StableOrder(LastColumn(b, p), t)
    requires o < |b| && Cmp(b, 0, p[o], |b|) == 0
    ensures Cmp(b, m, p[Walk(t, o, m)], |b|) == 0
  {
    CmpOpposite(b, 0, p[o], |b|);
    if m > 0 {
      hide Cmp, StableOrder;
      var k, n := Walk(t, o, m - 1), |b|;
      WalkFollowsBlock(b, p, t, o, m - 1);
      EqualRotations(b, m - 1, p[k], 1, n);
      StepsForward(b, p, t, k);
      CmpTransitive(b, m, p[k] + 1, p[t[k]], n);
    }
  }

  /**
   * The inverse transform: from any row whose rotation reads as the block itself, the walk along t meets the
   * characters of the block in order in the last column.
   */
  lemma InverseTransform(b: seq<int>, p: seq<int>, t: seq<int>, o: nat, m: nat)
    requires SortsRotations(b, p) && StableOrder(LastColumn(b, p), t)
    requires o < |b| && Cmp(b, 0, p[o], |b|) == 0 && m < |b|
    ensures LastColumn(b, p)[Walk(t, o, m + 1)] == b[m]
  {
    var k, n := Walk(t, o, m + 1), |b|;
    WalkFollowsBlock(b, p, t, o, m + 1);
    // row k reads as rotation m+1, so the character before it is character m
    EqualForever(b, m + 1, p[k], n - 1);
    assert At(b, m + n) == At(b, m);
    if p[k] == 0 {
      assert At(b, p[k] + (n - 1)) == b[n - 1];
    } else {
      assert At(b, p[k] - 1 + n) == At(b, p[k] - 1);
    }
  }
}
