/**
 * The order facts behind induced copying: rotations that start with a given character ss fall into those whose run of
 * ss ends in something smaller and those whose run ends in something larger.
 */
module BucketSides {
  import opened BurrowsWheeler
  import opened Counting
  import opened MainCompare
  import opened Permutations
  import opened Radix
  import opened Rotations
  import opened SortStack

  /** The first two characters of rotation i as one number. */
  ghost function Pair(b: seq<int>, i: nat): int
    requires |b| > 0
  {
    At(b, i) * 256 + At(b, i + 1)
  }

  ghost function Pairs(b: seq<int>): (r: seq<int>)
    requires |b| > 0
    ensures |r| == |b| && forall i | 0 <= i < |b| :: r[i] == Pair(b, i)
  {
    seq(|b|, i requires 0 <= i < |b| => Pair(b, i))
  }

  /** The index after i, going round. */
  function After(i: nat, n: nat): (r: nat)
    requires i < n
    ensures r < n && Before(r, n) == i
  {
    if i + 1 == n then 0 else i + 1
  }

  /** How the run of ss at position i ends within fuel + 1 characters: -1 in a smaller character, 1 in a larger one. */
  ghost function Side(b: seq<int>, i: nat, ss: int, fuel: nat): (r: int)
    requires |b| > 0
    ensures -1 <= r <= 1
    decreases fuel
  {
    if At(b, i) < ss then -1
    else if At(b, i) > ss then 1
    else if fuel == 0 then 0
    else Side(b, i + 1, ss, fuel - 1)
  }

  lemma {:induction false} SideOrder(b: seq<int>, i: nat, j: nat, ss: int, fuel: nat)
    requires |b| > 0 && Side(b, i, ss, fuel) < Side(b, j, ss, fuel)
    ensures Cmp(b, i, j, fuel + 1) < 0
    decreases fuel
  {
    if At(b, i) == At(b, j) == ss {
      SideOrder(b, i + 1, j + 1, ss, fuel - 1);
    }
  }

  lemma {:induction false} SideMore(b: seq<int>, i: nat, ss: int, fuel: nat)
    requires |b| > 0 && Side(b, i, ss, fuel) != 0
    ensures Side(b, i, ss, fuel + 1) == Side(b, i, ss, fuel)
    decreases fuel
  {
    if At(b, i) == ss {
      SideMore(b, i + 1, ss, fuel - 1);
    }
  }

  lemma {:induction false} SidePeriodic(b: seq<int>, i: nat, ss: int, fuel: nat)
    requires |b| > 0
    ensures Side(b, i + |b|, ss, fuel) == Side(b, i, ss, fuel)
    decreases fuel
  {
    if At(b, i) == ss && fuel > 0 {
      SidePeriodic(b, i + 1, ss, fuel - 1);
    }
  }

  lemma {:induction false} SideZero(b: seq<int>, i: nat, ss: int, fuel: nat, k: nat)
    requires |b| > 0 && Side(b, i, ss, fuel) == 0 && k <= fuel
    ensures At(b, i + k) == ss
    decreases fuel
  {
    if k > 0 {
      SideZero(b, i + 1, ss, fuel - 1, k - 1);
    }
  }

  /** A run that goes all the way round. */
  ghost predicate Uniform(b: seq<int>, ss: int) {
    forall i | 0 <= i < |b| :: b[i] == ss
  }

  lemma SideUniform(b: seq<int>, i: nat, ss: int)
    requires i < |b| && Side(b, i, ss, |b|) == 0
    ensures Uniform(b, ss)
  {
    forall v | 0 <= v < |b|
      ensures b[v] == ss
    {
      if v >= i {
        SideZero(b, i, ss, |b|, v - i);
      } else {
        SideZero(b, i, ss, |b|, v + |b| - i);
        assert At(b, v + |b|) == At(b, v);
      }
    }
  }

  lemma {:induction false} UniformSide(b: seq<int>, i: nat, ss: int, fuel: nat)
    requires |b| > 0 && Uniform(b, ss)
    ensures Side(b, i, ss, fuel) == 0
    decreases fuel
  {
    if fuel > 0 {
      UniformSide(b, i + 1, ss, fuel - 1);
    }
  }

  /** Putting another ss in front does not change the side. */
  lemma SideAfter(b: seq<int>, v: nat, ss: int)
    requires v < |b| && b[v] == ss
    ensures Side(b, v, ss, |b|) == Side(b, After(v, |b|), ss, |b|)
  {
    var n := |b|;
    if v + 1 == n {
      SidePeriodic(b, 0, ss, n);
    }
    assert Side(b, v, ss, n + 1) == Side(b, v + 1, ss, n);
    if Side(b, v, ss, n) != 0 {
      SideMore(b, v, ss, n);
    } else {
      SideUniform(b, v, ss);
      UniformSide(b, v, ss, n + 1);
    }
  }

  /** Same first character, smaller side of what follows: strictly smaller rotation. */
  lemma SideRank(b: seq<int>, u: nat, w: nat, ss: int)
    requires u < |b| && w < |b| && Side(b, u, ss, |b|) < Side(b, w, ss, |b|)
    ensures Rank(b, u) < Rank(b, w)
  {
    hide Rank;
    SideOrder(b, u, w, ss, |b|);
    CmpDecides(b, u, w, |b| + 1);
    RankOrder(b, u, w);
    CmpOpposite(b, u, w, |b|);
    RankOrder(b, w, u);
  }

  /** Rotations that differ in their first two characters are ordered by them. */
  lemma PairRank(b: seq<int>, u: nat, w: nat)
    requires u < |b| && w < |b| && Keys(b, 256) && Pair(b, u) < Pair(b, w)
    ensures Rank(b, u) < Rank(b, w)
  {
    hide Rank;
    PairCmp(b, u, w);
    CmpDecides(b, u, w, 2);
    RankOrder(b, u, w);
    CmpOpposite(b, u, w, |b|);
    RankOrder(b, w, u);
  }

  lemma PairCmp(b: seq<int>, u: nat, w: nat)
    requires |b| > 0 && Keys(b, 256)
    ensures Pair(b, u) < Pair(b, w) ==> Cmp(b, u, w, 2) < 0
    ensures Pair(b, u) == Pair(b, w) ==> Cmp(b, u, w, 2) == 0
  {
    assert 0 <= At(b, u) < 256 && 0 <= At(b, u + 1) < 256 && 0 <= At(b, w) < 256 && 0 <= At(b, w + 1) < 256;
    assert Cmp(b, u + 1, w + 1, 1) == if At(b, u + 1) < At(b, w + 1) then -1 else if At(b, u + 1) > At(b, w + 1) then 1 else Cmp(b, u + 2, w + 2, 0);
  }

  /** The same character in front of ordered rotations. */
  lemma BeforeRank(b: seq<int>, u: nat, w: nat)
    requires u < |b| && w < |b| && b[u] == b[w]
    requires Rank(b, After(u, |b|)) <= Rank(b, After(w, |b|))
    ensures Rank(b, u) <= Rank(b, w)
  {
    hide Rank, Cmp;
    RankOrder(b, After(u, |b|), After(w, |b|));
    BackByOne(b, After(u, |b|), After(w, |b|));
    RankOrder(b, u, w);
  }

  lemma PairSplit(b: seq<int>, v: nat)
    requires v < |b| && Keys(b, 256)
    ensures 0 <= Pair(b, v) < 65536
    ensures Pair(b, v) == b[v] * 256 + b[After(v, |b|)]
    ensures Pair(b, v) / 256 == b[v] && Pair(b, v) % 256 == b[After(v, |b|)]
  {
    assert At(b, v + 1) == b[After(v, |b|)];
  }

  lemma UniformRanks(b: seq<int>, u: nat, w: nat, ss: int)
    requires u < |b| && w < |b| && Uniform(b, ss)
    ensures Rank(b, u) == Rank(b, w)
  {
    UniformCmp(b, u, w, ss, |b|);
    RankOrder(b, u, w);
  }

  lemma {:induction false} UniformCmp(b: seq<int>, u: nat, w: nat, ss: int, h: nat)
    requires |b| > 0 && Uniform(b, ss)
    ensures Cmp(b, u, w, h) == 0
    decreases h
  {
    if h > 0 {
      UniformCmp(b, u + 1, w + 1, ss, h - 1);
    }
  }

  // ---------- counting a bucket ----------

  ghost function Members(keys: seq<int>, n: nat, c: int): (r: set<int>)
    requires n <= |keys|
    ensures forall i :: i in r <==> 0 <= i < n && keys[i] == c
  {
    set i | 0 <= i < n && keys[i] == c
  }

  lemma {:induction false} MembersCount(keys: seq<int>, n: nat, c: int)
    requires n <= |keys|
    ensures |Members(keys, n, c)| == Count(keys, n, c)
  {
    if n == 0 {
      assert Members(keys, n, c) == {};
    } else {
      MembersCount(keys, n - 1, c);
      if keys[n - 1] == c {
        assert Members(keys, n, c) == Members(keys, n - 1, c) + {n - 1};
      } else {
        assert Members(keys, n, c) == Members(keys, n - 1, c);
      }
    }
  }
}
