/** Stable placement by counting: where entry i of a list goes when the list is ordered by value, ties by position. */
module Placement {
  import opened BurrowsWheeler
  import opened Counting
  import opened Permutations

  ghost function Place(l: seq<int>, i: nat): nat
    requires i < |l|
  {
    Below(l, |l|, l[i]) + Count(l, i, l[i])
  }

  lemma PlaceInBucket(l: seq<int>, i: nat)
    requires i < |l|
    ensures Below(l, |l|, l[i]) <= Place(l, i) < Below(l, |l|, l[i] + 1) <= |l|
  {
    CountMonotone(l, i, |l|, l[i]);
    BelowNext(l, |l|, l[i]);
  }

  lemma PlaceOrder(l: seq<int>, i: nat, j: nat)
    requires i < |l| && j < |l| && (l[i] < l[j] || (l[i] == l[j] && i < j))
    ensures Place(l, i) < Place(l, j)
  {
    PlaceInBucket(l, i);
    PlaceInBucket(l, j);
    if l[i] < l[j] {
      BelowMonotone(l, |l|, l[i] + 1, l[j]);
    } else {
      CountMonotone(l, i, j, l[i]);
    }
  }

  ghost function Places(l: seq<int>): (r: seq<int>)
    ensures |r| == |l| && forall i | 0 <= i < |l| :: r[i] == Place(l, i)
  {
    seq(|l|, i requires 0 <= i < |l| => Place(l, i))
  }

  lemma PlacesPermute(l: seq<int>)
    ensures IsPermutation(Places(l))
  {
    hide Place;
    forall i, j | 0 <= i < j < |l|
      ensures Places(l)[i] != Places(l)[j]
    {
      if l[i] <= l[j] {
        PlaceOrder(l, i, j);
      } else {
        PlaceOrder(l, j, i);
      }
    }
    forall i | 0 <= i < |l|
      ensures 0 <= Places(l)[i] < |l|
    {
      PlaceInBucket(l, i);
    }
    assert Injective(Places(l));
  }

  /** t undoes f. */
  ghost predicate Undoes(f: seq<int>, t: seq<int>) {
    && |t| == |f|
    && (forall i | 0 <= i < |f| :: 0 <= f[i] < |f| && t[f[i]] == i)
    && (forall k | 0 <= k < |t| :: 0 <= t[k] < |f| && f[t[k]] == k)
  }

  ghost function PositionOf(f: seq<int>, v: int): (r: int)
    requires v in f
    ensures 0 <= r < |f| && f[r] == v
  {
    var i :| 0 <= i < |f| && f[i] == v;
    i
  }

  lemma UndoneBy(f: seq<int>) returns (t: seq<int>)
    requires IsPermutation(f)
    ensures Undoes(f, t)
  {
    PermutationIsSurjective(f);
    t := seq(|f|, k requires 0 <= k < |f| => PositionOf(f, k));
    forall i | 0 <= i < |f|
      ensures t[f[i]] == i
    {
      var j := t[f[i]];
      assert f[j] == f[i];
      assert j < i || i < j || i == j;
    }
  }

  lemma UndoesPermutes(f: seq<int>, t: seq<int>)
    requires Undoes(f, t)
    ensures IsPermutation(t) && IsPermutation(f)
  {
    forall x, y | 0 <= x < y < |t|
      ensures t[x] != t[y] && f[x] != f[y]
    {
      assert f[t[x]] == x && f[t[y]] == y && t[f[x]] == x && t[f[y]] == y;
    }
    assert Injective(t) && Injective(f);
  }

  /** The transformation vector of column l: t lists the positions of l in the order of their places. */
  ghost predicate Vector(l: seq<int>, t: seq<int>) {
    Undoes(Places(l), t)
  }

  lemma VectorExists(l: seq<int>) returns (t: seq<int>)
    ensures Vector(l, t) && IsPermutation(t) && |t| == |l|
  {
    PlacesPermute(l);
    t := UndoneBy(Places(l));
    UndoesPermutes(Places(l), t);
  }

  /** There is only one. */
  lemma VectorUnique(l: seq<int>, t: seq<int>, t': seq<int>)
    requires Vector(l, t) && Vector(l, t')
    ensures t == t'
  {
    hide Place;
    forall k | 0 <= k < |l|
      ensures t[k] == t'[k]
    {
      assert Places(l)[t[k]] == k;
      assert t'[Places(l)[t[k]]] == t[k];
    }
  }

  lemma VectorAt(l: seq<int>, t: seq<int>, i: int)
    requires Vector(l, t) && 0 <= i < |l|
    ensures |t| == |l| && Place(l, i) < |l| && t[Place(l, i)] == i
    ensures 0 <= t[i] < |l| && Place(l, t[i]) == i
  {
    assert Places(l)[i] == Place(l, i);
    assert Places(l)[t[i]] == i;
  }

  /** It is the stable order the inverse transform asks for. */
  lemma VectorIsStable(l: seq<int>, t: seq<int>)
    requires Vector(l, t)
    ensures StableOrder(l, t)
  {
    UndoesPermutes(Places(l), t);
    hide Place, Injective;
    forall x, y | 0 <= x < y < |t|
      ensures l[t[x]] < l[t[y]] || (l[t[x]] == l[t[y]] && t[x] < t[y])
    {
      VectorAt(l, t, x);
      VectorAt(l, t, y);
      var i, j := t[x], t[y];
      if !(l[i] < l[j] || (l[i] == l[j] && i < j)) {
        if i != j {
          PlaceOrder(l, j, i);
        }
      }
    }
  }
}
