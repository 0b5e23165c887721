/**
 * Step 2 of mainSort: one pass over the big bucket ss writes the rotations one step back, for every first character t
 * that is not done, into the small buckets [t, ss]. The pass from the left (side -1) fills them upwards with the
 * rotations whose run of ss ends in a smaller character, the pass from the right (side 1) downwards with the others.
 */
module InducedCopy {
  import opened BucketSides
  import opened BurrowsWheeler
  import opened Counting
  import opened Permutations
  import opened Radix
  import opened Rotations

  /**
   * What stays fixed during one pass: st holds the bucket starts, orig the row order before either pass and s0 before
   * this one, other the fronts of the opposite pass.
   */
  datatype Scan = Scan(b: seq<int>, ss: int, st: seq<int>, done: seq<bool>, orig: seq<int>, s0: seq<int>,
                       side: int, other: seq<int>)

  /** Rows, fronts (copyStart or copyEnd), the row to be read next, and the rotations read so far. */
  datatype State = State(s: seq<int>, front: seq<int>, j: int, ghost seen: set<int>)

  ghost predicate Sized(c: Scan) {
    && |c.b| > 0
    && 0 <= c.ss < 256 && |c.st| == 65537 && |c.done| == |c.other| == 256
    && |c.orig| == |c.s0| == |c.b|
    && (c.side == -1 || c.side == 1)
    && IsPermutation(c.orig)
  }

  ghost function Base(c: Scan, t: int): int
    requires Sized(c) && 0 <= t < 256
  {
    c.st[t * 256 + c.ss]
  }

  ghost function End(c: Scan, t: int): int
    requires Sized(c) && 0 <= t < 256
  {
    c.st[t * 256 + c.ss + 1]
  }

  /** The small bucket row x belongs to. */
  ghost function Bucket(c: Scan, x: int): int
    requires Sized(c) && 0 <= x < |c.b|
  {
    Pair(c.b, c.orig[x])
  }

  ghost predicate Target(c: Scan, k: int)
    requires Sized(c) && 0 <= k < 65536
  {
    k % 256 == c.ss && !c.done[k / 256]
  }

  /** Row x of bucket [t, ss] has been written by this pass. */
  ghost predicate IsPlaced(c: Scan, front: seq<int>, t: int, x: int)
    requires Sized(c) && |front| == 256 && 0 <= t < 256
  {
    if c.side < 0 then Base(c, t) <= x < front[t] else front[t] < x < End(c, t)
  }

  /** Row x of bucket [t, ss] was written by the opposite pass. */
  ghost predicate IsOther(c: Scan, t: int, x: int)
    requires Sized(c) && 0 <= t < 256
  {
    if c.side < 0 then c.other[t] < x < End(c, t) else Base(c, t) <= x < c.other[t]
  }

  /** Rows the pass has read or can read. */
  ghost predicate InRegion(c: Scan, front: seq<int>, x: int)
    requires Sized(c) && |front| == 256
  {
    if c.side < 0 then c.st[c.ss * 256] <= x < front[c.ss] else front[c.ss] < x < c.st[c.ss * 256 + 256]
  }

  ghost predicate IsScanned(c: Scan, j: int, x: int)
    requires Sized(c)
  {
    if c.side < 0 then c.st[c.ss * 256] <= x < j else j < x < c.st[c.ss * 256 + 256]
  }

  /** Row x is read, and written, earlier than row y. */
  ghost predicate Earlier(c: Scan, x: int, y: int) {
    if c.side < 0 then x < y else y < x
  }

  ghost predicate Ord(c: Scan, u: nat, w: nat)
    requires |c.b| > 0
  {
    if c.side < 0 then Rank(c.b, u) <= Rank(c.b, w) else Rank(c.b, w) <= Rank(c.b, u)
  }

  // ---------- what is given ----------

  ghost predicate RowGiven(c: Scan, x: int)
    requires Sized(c) && 0 <= x < |c.b|
  {
    && 0 <= c.s0[x] < |c.b|
    && 0 <= Bucket(c, x) < 65536
    && c.st[Bucket(c, x)] <= x < c.st[Bucket(c, x) + 1]
    && (if Target(c, Bucket(c, x)) then
          IsOther(c, Bucket(c, x) / 256, x) ==> OtherGiven(c, x)
        else c.s0[x] == c.orig[x])
  }

  ghost predicate OtherGiven(c: Scan, x: int)
    requires Sized(c) && 0 <= x < |c.b| && 0 <= c.s0[x] < |c.b|
  {
    && Pair(c.b, c.s0[x]) == Bucket(c, x)
    && Side(c.b, After(c.s0[x], |c.b|), c.ss, |c.b|) == -c.side
  }

  ghost predicate OthersDiffer(c: Scan, x: int, y: int)
    requires Sized(c) && 0 <= x < |c.b| && 0 <= y < |c.b|
  {
    (&& Bucket(c, x) == Bucket(c, y) && 0 <= Bucket(c, x) < 65536 && Target(c, Bucket(c, x))
     && IsOther(c, Bucket(c, x) / 256, x) && IsOther(c, Bucket(c, x) / 256, y)) ==> c.s0[x] != c.s0[y]
  }

  /** Rows of the small buckets [ss, j], j != ss, are in order. */
  ghost predicate SortedGiven(c: Scan, x: int, y: int)
    requires Sized(c) && 0 <= x < |c.b| && 0 <= y < |c.b|
    requires 0 <= c.orig[x] < |c.b| && 0 <= c.orig[y] < |c.b|
  {
    Bucket(c, x) == Bucket(c, y) && Bucket(c, x) / 256 == c.ss && Bucket(c, x) % 256 != c.ss ==>
      Rank(c.b, c.orig[x]) <= Rank(c.b, c.orig[y])
  }

  ghost predicate BoundsGiven(c: Scan, t: int)
    requires Sized(c) && 0 <= t < 256
  {
    && 0 <= c.st[t * 256] <= Base(c, t) <= End(c, t) <= c.st[t * 256 + 256] <= |c.b|
    && (if c.side < 0 then Base(c, t) - 1 <= c.other[t] < End(c, t) else Base(c, t) <= c.other[t] <= End(c, t))
    && End(c, t) - Base(c, t) == Count(Pairs(c.b), |c.b|, t * 256 + c.ss)
  }

  ghost predicate Setting(c: Scan) {
    && Sized(c)
    && Keys(c.b, 256)
    && !c.done[c.ss]
    && (forall k | 0 <= k < 65537 :: c.st[k] == Below(Pairs(c.b), |c.b|, k))
    && (forall x | 0 <= x < |c.b| :: RowGiven(c, x))
    && (forall x, y | 0 <= x < y < |c.b| :: OthersDiffer(c, x, y))
    && (forall x, y | 0 <= x < y < |c.b| :: SortedGiven(c, x, y))
    && (forall t | 0 <= t < 256 :: BoundsGiven(c, t))
  }

  // ---------- the state of a pass ----------

  ghost predicate RowOk(c: Scan, z: State, x: int)
    requires Sized(c) && |z.s| == |c.b| && |z.front| == 256 && 0 <= x < |c.b|
  {
    && 0 <= Bucket(c, x) < 65536
    && 0 <= z.s[x] < |c.b|
    && (if Target(c, Bucket(c, x)) && IsPlaced(c, z.front, Bucket(c, x) / 256, x) then
          Pair(c.b, z.s[x]) == Bucket(c, x) && After(z.s[x], |c.b|) in z.seen
        else z.s[x] == c.s0[x])
  }

  ghost predicate FrontOk(c: Scan, z: State, t: int)
    requires Sized(c) && |z.front| == 256 && 0 <= t < 256
  {
    && (if c.side < 0 then Base(c, t) <= z.front[t] <= c.other[t] + 1 else c.other[t] - 1 <= z.front[t] < End(c, t))
    && (c.done[t] ==> z.front[t] == if c.side < 0 then Base(c, t) else End(c, t) - 1)
  }

  ghost predicate PlaceOk(c: Scan, z: State) {
    && Sized(c) && |z.front| == 256
    && if c.side < 0 then c.st[c.ss * 256] <= z.j <= z.front[c.ss] else z.front[c.ss] <= z.j < c.st[c.ss * 256 + 256]
  }

  ghost predicate SeenOk(c: Scan, z: State, v: int)
    requires Sized(c) && |z.s| == |c.b|
  {
    && 0 <= v < |c.b| && c.b[v] == c.ss && Side(c.b, v, c.ss, |c.b|) == c.side
    && exists q :: 0 <= q < |c.b| && IsScanned(c, z.j, q) && z.s[q] == v
  }

  ghost predicate RegionOk(c: Scan, z: State, x: int)
    requires Sized(c) && |z.s| == |c.b| && |z.front| == 256 && 0 <= x < |c.b|
  {
    InRegion(c, z.front, x) ==>
      && 0 <= z.s[x] < |c.b|
      && c.b[z.s[x]] == c.ss
      && Side(c.b, z.s[x], c.ss, |c.b|) == c.side
      && (IsScanned(c, z.j, x) ==> z.s[x] in z.seen)
  }

  ghost predicate RegionPair(c: Scan, z: State, x: int, y: int)
    requires Sized(c) && |z.s| == |c.b| && |z.front| == 256
    requires 0 <= x < |c.b| && 0 <= y < |c.b|
  {
    InRegion(c, z.front, x) && InRegion(c, z.front, y) && Earlier(c, x, y) ==>
      0 <= z.s[x] && 0 <= z.s[y] && z.s[x] != z.s[y] && Ord(c, z.s[x], z.s[y])
  }

  ghost predicate PlacedPair(c: Scan, z: State, x: int, y: int)
    requires Sized(c) && |z.s| == |c.b| && |z.front| == 256
    requires 0 <= x < |c.b| && 0 <= y < |c.b|
  {
    (&& 0 <= Bucket(c, x) < 65536 && Bucket(c, x) == Bucket(c, y) && Target(c, Bucket(c, x)) && Earlier(c, x, y)
     && IsPlaced(c, z.front, Bucket(c, x) / 256, x) && IsPlaced(c, z.front, Bucket(c, x) / 256, y)) ==>
      0 <= z.s[x] && 0 <= z.s[y] && z.s[x] != z.s[y] && Ord(c, z.s[x], z.s[y])
  }

  /** The rotation one step back from v has been placed, unless its bucket is done. */
  ghost predicate Copied(c: Scan, z: State, v: int)
    requires Sized(c) && |z.s| == |c.b| && |z.front| == 256 && 0 <= v < |c.b| && Keys(c.b, 256)
  {
    var u := Before(v, |c.b|);
    !c.done[c.b[u]] ==> exists x :: 0 <= x < |c.b| && IsPlaced(c, z.front, c.b[u], x) && z.s[x] == u
  }

  ghost predicate RowsOk(c: Scan, z: State) {
    && Setting(c) && |z.s| == |c.b| && |z.front| == 256
    && (forall x | 0 <= x < |c.b| :: RowOk(c, z, x))
    && (forall t | 0 <= t < 256 :: FrontOk(c, z, t))
    && PlaceOk(c, z)
  }

  ghost predicate Scanning(c: Scan, z: State) {
    && RowsOk(c, z)
    && (forall v | v in z.seen :: SeenOk(c, z, v))
    && (forall x | 0 <= x < |c.b| :: RegionOk(c, z, x))
    && (forall x, y | 0 <= x < |c.b| && 0 <= y < |c.b| :: RegionPair(c, z, x, y))
    && (forall x, y | 0 <= x < |c.b| && 0 <= y < |c.b| :: PlacedPair(c, z, x, y))
    && (forall v | v in z.seen :: Copied(c, z, v))
  }

  // ---------- geometry ----------

  lemma StartsMonotone(c: Scan, k: int, l: int)
    requires Setting(c) && 0 <= k <= l < 65537
    ensures c.st[k] <= c.st[l]
  {
    BelowMonotone(Pairs(c.b), |c.b|, k, l);
  }

  /** A row within the bounds of a bucket belongs to that bucket. */
  lemma BucketAt(c: Scan, k: int, x: int)
    requires Setting(c) && 0 <= x < |c.b| && 0 <= k < 65536 && c.st[k] <= x < c.st[k + 1]
    ensures Bucket(c, x) == k
  {
    hide Below, Pairs;
    assert RowGiven(c, x);
    if Bucket(c, x) < k {
      StartsMonotone(c, Bucket(c, x) + 1, k);
    } else if Bucket(c, x) > k {
      StartsMonotone(c, k + 1, Bucket(c, x));
    }
  }

  lemma BigBucketAt(c: Scan, t: int, x: int)
    requires Setting(c) && 0 <= x < |c.b| && 0 <= t < 256 && c.st[t * 256] <= x < c.st[t * 256 + 256]
    ensures 0 <= Bucket(c, x) < 65536 && Bucket(c, x) / 256 == t && c.st[Bucket(c, x)] <= x < c.st[Bucket(c, x) + 1]
  {
    hide Below, Pairs;
    assert RowGiven(c, x);
    if Bucket(c, x) < t * 256 {
      StartsMonotone(c, Bucket(c, x) + 1, t * 256);
    } else if Bucket(c, x) >= t * 256 + 256 {
      StartsMonotone(c, t * 256 + 256, Bucket(c, x));
    }
  }

  ghost predicate MayStep(c: Scan, z: State) {
    && Sized(c) && |z.front| == 256
    && if c.side < 0 then z.j < z.front[c.ss] else z.j > z.front[c.ss]
  }

  lemma RegionInside(c: Scan, z: State, x: int)
    requires RowsOk(c, z) && InRegion(c, z.front, x)
    ensures 0 <= x < |c.b| && c.st[c.ss * 256] <= x < c.st[c.ss * 256 + 256]
  {
    hide Below, Pairs, RowGiven, OthersDiffer, SortedGiven, RowOk;
    assert BoundsGiven(c, c.ss) && FrontOk(c, z, c.ss);
  }

  lemma PlacedInside(c: Scan, z: State, t: int, x: int)
    requires RowsOk(c, z) && 0 <= t < 256 && IsPlaced(c, z.front, t, x)
    ensures 0 <= x < |c.b| && Base(c, t) <= x < End(c, t) && Bucket(c, x) == t * 256 + c.ss
  {
    hide Below, Pairs, RowGiven, OthersDiffer, SortedGiven, RowOk;
    assert BoundsGiven(c, t) && FrontOk(c, z, t);
    BucketAt(c, t * 256 + c.ss, x);
  }

  /** What the next row gives: the rotation read, and the one to be written. */
  lemma NextRow(c: Scan, z: State) returns (v: nat, u: nat)
    requires Scanning(c, z) && MayStep(c, z)
    ensures 0 <= z.j < |c.b| && InRegion(c, z.front, z.j) && !IsScanned(c, z.j, z.j)
    ensures v == z.s[z.j] < |c.b| && c.b[v] == c.ss && Side(c.b, v, c.ss, |c.b|) == c.side
    ensures v !in z.seen
    ensures u == Before(v, |c.b|) && After(u, |c.b|) == v && 0 <= c.b[u] < 256
    ensures Pair(c.b, u) == c.b[u] * 256 + c.ss
  {
    hide Below, Pairs, RowGiven, OthersDiffer, SortedGiven, RowOk, Pair, Side, PlacedPair, Copied, BoundsGiven, FrontOk;
    RegionInside(c, z, z.j);
    assert RegionOk(c, z, z.j);
    v := z.s[z.j];
    forall w | w in z.seen
      ensures w != v
    {
      assert SeenOk(c, z, w);
      var q :| 0 <= q < |c.b| && IsScanned(c, z.j, q) && z.s[q] == w;
      assert RegionPair(c, z, q, z.j);
    }
    u := Before(v, |c.b|);
    PairSplit(c.b, u);
  }

  // ---------- room in the bucket ----------

  /** Row x of bucket [t, ss] holds a member, written by this pass or the other. */
  ghost predicate IsFilled(c: Scan, z: State, t: int, x: int)
    requires Sized(c) && |z.front| == 256 && 0 <= t < 256
  {
    IsPlaced(c, z.front, t, x) || IsOther(c, t, x)
  }

  lemma FilledRow(c: Scan, z: State, t: int, x: int)
    requires Scanning(c, z) && 0 <= t < 256 && !c.done[t] && Base(c, t) <= x < End(c, t) && 0 <= x < |c.b|
    requires IsFilled(c, z, t, x)
    ensures 0 <= z.s[x] < |c.b| && Pair(c.b, z.s[x]) == t * 256 + c.ss
    ensures IsPlaced(c, z.front, t, x) ==> After(z.s[x], |c.b|) in z.seen
    ensures Side(c.b, After(z.s[x], |c.b|), c.ss, |c.b|) == if IsPlaced(c, z.front, t, x) then c.side else -c.side
  {
    hide Below, Pairs, Pair, Side, OthersDiffer, SortedGiven, RegionPair, PlacedPair, Copied, RegionOk;
    BucketAt(c, t * 256 + c.ss, x);
    assert RowOk(c, z, x) && RowGiven(c, x);
    if IsPlaced(c, z.front, t, x) {
      assert SeenOk(c, z, After(z.s[x], |c.b|));
    }
  }

  lemma FilledDiffer(c: Scan, z: State, t: int, x: int, y: int)
    requires Scanning(c, z) && 0 <= t < 256 && !c.done[t]
    requires Base(c, t) <= x < y < End(c, t) && 0 <= x && y < |c.b|
    requires IsFilled(c, z, t, x) && IsFilled(c, z, t, y)
    ensures z.s[x] != z.s[y]
  {
    hide Below, Pairs, Pair, Side, SortedGiven, RegionPair, Copied, RegionOk, SeenOk;
    FilledRow(c, z, t, x);
    FilledRow(c, z, t, y);
    BucketAt(c, t * 256 + c.ss, x);
    BucketAt(c, t * 256 + c.ss, y);
    assert RowOk(c, z, x) && RowOk(c, z, y);
    if IsPlaced(c, z.front, t, x) && IsPlaced(c, z.front, t, y) {
      assert PlacedPair(c, z, x, y) && PlacedPair(c, z, y, x);
    } else if !IsPlaced(c, z.front, t, x) && !IsPlaced(c, z.front, t, y) {
      assert OthersDiffer(c, x, y);
    }
  }

  /** A stretch of filled rows holds as many members as it has rows. */
  lemma FilledStretch(c: Scan, z: State, t: int, lo: int, hi: int)
    requires Scanning(c, z) && 0 <= t < 256 && !c.done[t]
    requires 0 <= Base(c, t) <= lo <= hi <= End(c, t) <= |c.b|
    requires forall x | lo <= x < hi :: IsFilled(c, z, t, x)
    ensures Injective(z.s[lo..hi])
    ensures forall v | v in z.s[lo..hi] :: v in Members(Pairs(c.b), |c.b|, t * 256 + c.ss)
  {
    hide Below, Pair, Side, Setting, Scanning, Count;
    ScanningSized(c, z);
    var w := z.s[lo..hi];
    forall i, j | 0 <= i < j < |w|
      ensures w[i] != w[j]
    {
      assert IsFilled(c, z, t, lo + i) && IsFilled(c, z, t, lo + j);
      FilledDiffer(c, z, t, lo + i, lo + j);
    }
    forall v | v in w
      ensures v in Members(Pairs(c.b), |c.b|, t * 256 + c.ss)
    {
      var i :| 0 <= i < |w| && w[i] == v;
      assert IsFilled(c, z, t, lo + i);
      FilledRow(c, z, t, lo + i);
    }
  }

  lemma ScanningSized(c: Scan, z: State)
    requires Scanning(c, z)
    ensures Sized(c) && |z.s| == |c.b| && |z.front| == 256 && Setting(c) && Keys(c.b, 256)
  {
  }

  /** When every row of the bucket is filled, every member has been written. */
  lemma FullBucket(c: Scan, z: State, t: int, u: nat)
    requires Scanning(c, z) && 0 <= t < 256 && !c.done[t]
    requires forall x | Base(c, t) <= x < End(c, t) :: IsFilled(c, z, t, x)
    requires u < |c.b| && Pair(c.b, u) == t * 256 + c.ss
    ensures exists x :: 0 <= x < |c.b| && Base(c, t) <= x < End(c, t) && z.s[x] == u
  {
    hide Below, Side, Scanning, Count, RowOk, RowGiven;
    ScanningSized(c, z);
    assert BoundsGiven(c, t);
    var lo, hi, k := Base(c, t), End(c, t), t * 256 + c.ss;
    FilledStretch(c, z, t, lo, hi);
    MembersCount(Pairs(c.b), |c.b|, k);
    Pigeonhole(z.s[lo..hi], Members(Pairs(c.b), |c.b|, k));
    assert u in z.s[lo..hi];
    var i :| 0 <= i < hi - lo && z.s[lo..hi][i] == u;
    assert z.s[lo + i] == u;
  }

  /** There is room for the rotation about to be written. */
  lemma Room(c: Scan, z: State, v: nat, u: nat)
    requires Scanning(c, z) && v < |c.b| && v !in z.seen && Side(c.b, v, c.ss, |c.b|) == c.side
    requires u < |c.b| && After(u, |c.b|) == v && Pair(c.b, u) == c.b[u] * 256 + c.ss && 0 <= c.b[u] < 256
    requires !c.done[c.b[u]]
    ensures if c.side < 0 then z.front[c.b[u]] <= c.other[c.b[u]] else z.front[c.b[u]] >= c.other[c.b[u]]
  {
    hide Below, Side, Count, Pair, Pairs, RowOk, RowGiven, Scanning;
    ScanningSized(c, z);
    var t := c.b[u];
    FrontAt(c, z, t);
    if (if c.side < 0 then z.front[t] == c.other[t] + 1 else z.front[t] == c.other[t] - 1) {
      FullBucket(c, z, t, u);
      var x :| 0 <= x < |c.b| && Base(c, t) <= x < End(c, t) && z.s[x] == u;
      assert IsFilled(c, z, t, x);
      FilledRow(c, z, t, x);
      assert false;
    }
  }

  lemma FrontAt(c: Scan, z: State, t: int)
    requires Scanning(c, z) && 0 <= t < 256
    ensures FrontOk(c, z, t) && BoundsGiven(c, t)
  {
  }

  // ---------- one step ----------

  /** The state after row j, which holds v, has been dealt with. */
  ghost function Step(c: Scan, z: State, v: nat): State
    requires Sized(c) && |z.front| == 256 && |z.s| == |c.b| && v < |c.b|
  {
    var u := Before(v, |c.b|);
    var t := c.b[u];
    if 0 <= t < 256 && !c.done[t] && 0 <= z.front[t] < |z.s| then
      State(z.s[z.front[t] := u], z.front[t := z.front[t] - c.side], z.j - c.side, z.seen + {v})
    else
      State(z.s, z.front, z.j - c.side, z.seen + {v})
  }

  /** The facts every part of the step proof starts from. */
  ghost predicate Stepping(c: Scan, z: State, z': State, v: nat, u: nat, t: int) {
    && Scanning(c, z) && MayStep(c, z)
    && 0 <= z.j < |c.b| && InRegion(c, z.front, z.j)
    && v == z.s[z.j] < |c.b| && c.b[v] == c.ss && Side(c.b, v, c.ss, |c.b|) == c.side && v !in z.seen
    && u == Before(v, |c.b|) && After(u, |c.b|) == v && t == c.b[u] && 0 <= t < 256
    && Pair(c.b, u) == t * 256 + c.ss
    && z' == Step(c, z, v)
    && (!c.done[t] ==> 0 <= z.front[t] < |c.b| && Base(c, t) <= z.front[t] < End(c, t))
    && (!c.done[t] ==> if c.side < 0 then z.front[t] <= c.other[t] else z.front[t] >= c.other[t])
    && (!c.done[t] ==> Bucket(c, z.front[t]) == t * 256 + c.ss)
    && (!c.done[t] ==> z'.s == z.s[z.front[t] := u] && z'.front == z.front[t := z.front[t] - c.side])
    && (c.done[t] ==> z'.s == z.s && z'.front == z.front)
    && z'.j == z.j - c.side && z'.seen == z.seen + {v}
  }

  lemma StepFacts(c: Scan, z: State) returns (z': State, v: nat, u: nat, t: int)
    requires Scanning(c, z) && MayStep(c, z)
    ensures Stepping(c, z, z', v, u, t)
  {
    hide Below, Side, Count, Pair, Pairs, RowOk, RowGiven, Scanning, Setting;
    ScanningSized(c, z);
    v, u := NextRow(c, z);
    t := c.b[u];
    FrontAt(c, z, t);
    if !c.done[t] {
      Room(c, z, v, u);
      BucketAt(c, t * 256 + c.ss, z.front[t]);
    }
    z' := Step(c, z, v);
  }

  /** The row written is not yet part of the region read. */
  lemma WrittenRow(c: Scan, z: State, z': State, v: nat, u: nat, t: int, x: int)
    requires Stepping(c, z, z', v, u, t) && !c.done[t] && InRegion(c, z.front, x)
    ensures x != z.front[t] && 0 <= x < |c.b|
  {
    hide Below, Side, Count, Pair, Pairs, RowOk, RowGiven, RegionPair, PlacedPair, Copied, SeenOk, RegionOk;
    RegionInside(c, z, x);
    BigBucketAt(c, c.ss, x);
  }

  lemma StepRow(c: Scan, z: State, z': State, v: nat, u: nat, t: int, x: int)
    requires Stepping(c, z, z', v, u, t) && 0 <= x < |c.b|
    ensures RowOk(c, z', x)
  {
    hide Below, Side, Count, Pair, Pairs, RegionPair, PlacedPair, Copied, SeenOk, RegionOk;
    assert RowOk(c, z, x) && RowGiven(c, x);
  }

  lemma StepFront(c: Scan, z: State, z': State, v: nat, u: nat, t: int, r: int)
    requires Stepping(c, z, z', v, u, t) && 0 <= r < 256
    ensures FrontOk(c, z', r)
  {
    hide Below, Side, Count, Pair, Pairs, RegionPair, PlacedPair, Copied, SeenOk, RegionOk, RowOk, RowGiven;
    assert FrontOk(c, z, r) && BoundsGiven(c, r);
  }

  lemma StepRows(c: Scan, z: State, z': State, v: nat, u: nat, t: int)
    requires Stepping(c, z, z', v, u, t)
    ensures RowsOk(c, z')
  {
    hide Below, Side, Count, Pair, Pairs, RegionPair, PlacedPair, Copied, SeenOk, RegionOk, RowOk, RowGiven, FrontOk;
    forall x | 0 <= x < |c.b|
      ensures RowOk(c, z', x)
    {
      StepRow(c, z, z', v, u, t, x);
    }
    forall r | 0 <= r < 256
      ensures FrontOk(c, z', r)
    {
      StepFront(c, z, z', v, u, t, r);
    }
  }

  lemma StepSeen(c: Scan, z: State, z': State, v: nat, u: nat, t: int, w: int)
    requires Stepping(c, z, z', v, u, t) && w in z'.seen
    ensures 0 <= w < |c.b| && SeenOk(c, z', w) && Copied(c, z', w)
  {
    hide Below, Side, Count, Pair, Pairs, RegionPair, PlacedPair, RegionOk, RowOk, RowGiven;
    var q := z.j;
    if w != v {
      assert SeenOk(c, z, w) && Copied(c, z, w);
      q :| 0 <= q < |c.b| && IsScanned(c, z.j, q) && z.s[q] == w;
    }
    if !c.done[t] {
      WrittenRow(c, z, z', v, u, t, q);
    }
    assert 0 <= q < |c.b| && IsScanned(c, z'.j, q) && z'.s[q] == w;
    var u' := Before(w, |c.b|);
    if !c.done[c.b[u']] {
      var x := if w == v then z.front[t] else 0;
      if w != v {
        x :| 0 <= x < |c.b| && IsPlaced(c, z.front, c.b[u'], x) && z.s[x] == u';
        if !c.done[t] && x == z.front[t] {
          PlacedInside(c, z, c.b[u'], x);
        }
      }
      assert 0 <= x < |c.b| && IsPlaced(c, z'.front, c.b[u'], x) && z'.s[x] == u';
    }
  }

  lemma StepRegion(c: Scan, z: State, z': State, v: nat, u: nat, t: int, x: int)
    requires Stepping(c, z, z', v, u, t) && 0 <= x < |c.b|
    ensures RegionOk(c, z', x)
  {
    hide Below, Count, Pair, Pairs, RegionPair, PlacedPair, SeenOk, Copied, RowOk, RowGiven;
    assert RegionOk(c, z, x);
    if InRegion(c, z'.front, x) {
      if InRegion(c, z.front, x) {
        if !c.done[t] {
          WrittenRow(c, z, z', v, u, t, x);
        }
      } else {
        SideAfter(c.b, u, c.ss);
      }
    }
  }

  /** An entry of bucket [t, ss] placed before is smaller (from the left; larger from the right) than the new one. */
  lemma PlacedBeforeNew(c: Scan, z: State, z': State, v: nat, u: nat, t: int, x: int)
    requires Stepping(c, z, z', v, u, t) && !c.done[t] && 0 <= x < |c.b| && IsPlaced(c, z.front, t, x)
    ensures 0 <= z.s[x] < |c.b| && z.s[x] != u && Ord(c, z.s[x], u)
  {
    hide Below, Count, Pairs, Pair, Side, PlacedPair, Copied, RegionOk, Rank, OthersDiffer, SortedGiven;
    PlacedInside(c, z, t, x);
    assert RowOk(c, z, x);
    var w := After(z.s[x], |c.b|);
    PairSplit(c.b, z.s[x]);
    assert SeenOk(c, z, w);
    var q :| 0 <= q < |c.b| && IsScanned(c, z.j, q) && z.s[q] == w;
    assert RegionPair(c, z, q, z.j);
    if c.side < 0 {
      BeforeRank(c.b, z.s[x], u);
    } else {
      BeforeRank(c.b, u, z.s[x]);
    }
  }

  /** When the new entry joins the region itself, everything already there comes first. */
  lemma RegionBeforeNew(c: Scan, z: State, z': State, v: nat, u: nat, t: int, x: int)
    requires Stepping(c, z, z', v, u, t) && t == c.ss && !c.done[t] && InRegion(c, z.front, x)
    ensures 0 <= x < |c.b| && 0 <= z.s[x] < |c.b| && z.s[x] != u && Ord(c, z.s[x], u)
  {
    hide Below, Count, Pairs, Pair, Side, PlacedPair, RegionPair, Copied, RegionOk, Rank, OthersDiffer, SortedGiven;
    RegionInside(c, z, x);
    BigBucketAt(c, c.ss, x);
    assert BoundsGiven(c, c.ss);
    if Base(c, c.ss) <= x < End(c, c.ss) {
      PlacedBeforeNew(c, z, z', v, u, t, x);
    } else {
      NotInOwnBucket(c, x);
      assert RowOk(c, z, x) && RowGiven(c, x);
      if c.side < 0 {
        PairRank(c.b, z.s[x], u);
      } else {
        PairRank(c.b, u, z.s[x]);
      }
    }
  }

  /** Rows of the big bucket outside [ss, ss]. */
  lemma NotInOwnBucket(c: Scan, x: int)
    requires Setting(c) && 0 <= x < |c.b| && c.st[c.ss * 256] <= x < c.st[c.ss * 256 + 256]
    requires !(Base(c, c.ss) <= x < End(c, c.ss))
    ensures 0 <= Bucket(c, x) < 65536 && Bucket(c, x) / 256 == c.ss && Bucket(c, x) % 256 != c.ss
    ensures x < Base(c, c.ss) ==> Bucket(c, x) < c.ss * 256 + c.ss
    ensures x >= End(c, c.ss) ==> Bucket(c, x) > c.ss * 256 + c.ss
  {
    hide Below, Pairs;
    BigBucketAt(c, c.ss, x);
    var k := c.ss * 256 + c.ss;
    if Bucket(c, x) >= k && x < Base(c, c.ss) {
      StartsMonotone(c, k, Bucket(c, x));
    }
    if Bucket(c, x) <= k && x >= End(c, c.ss) {
      StartsMonotone(c, Bucket(c, x) + 1, k + 1);
    }
  }

  lemma StepRegionPair(c: Scan, z: State, z': State, v: nat, u: nat, t: int, x: int, y: int)
    requires Stepping(c, z, z', v, u, t) && 0 <= x < |c.b| && 0 <= y < |c.b|
    ensures RegionPair(c, z', x, y)
  {
    hide Below, Count, Pair, Pairs, Side, PlacedPair, SeenOk, Copied, RowOk, RowGiven, RegionOk, Rank, Setting;
    assert RegionPair(c, z, x, y);
    if InRegion(c, z'.front, x) && InRegion(c, z'.front, y) && Earlier(c, x, y) && !c.done[t] {
      if InRegion(c, z.front, x) {
        WrittenRow(c, z, z', v, u, t, x);
      }
      if InRegion(c, z.front, y) {
        WrittenRow(c, z, z', v, u, t, y);
      } else {
        RegionBeforeNew(c, z, z', v, u, t, x);
      }
    }
  }

  lemma StepPlacedPair(c: Scan, z: State, z': State, v: nat, u: nat, t: int, x: int, y: int)
    requires Stepping(c, z, z', v, u, t) && 0 <= x < |c.b| && 0 <= y < |c.b|
    ensures PlacedPair(c, z', x, y)
  {
    hide Below, Count, Pair, Pairs, Side, RegionPair, SeenOk, Copied, RowOk, RowGiven, RegionOk, Rank, Setting;
    assert PlacedPair(c, z, x, y);
    if !c.done[t] && y == z.front[t] && 0 <= Bucket(c, x) < 65536 && Bucket(c, x) == Bucket(c, y) && Earlier(c, x, y)
       && IsPlaced(c, z'.front, t, x) {
      PlacedBeforeNew(c, z, z', v, u, t, x);
    }
  }

  lemma StepKeeps(c: Scan, z: State) returns (z': State, v: nat, u: nat, t: int)
    requires Scanning(c, z) && MayStep(c, z)
    ensures Stepping(c, z, z', v, u, t) && Scanning(c, z')
  {
    hide Below, Count, Pair, Pairs, Side, RegionPair, PlacedPair, SeenOk, Copied, RowOk, RowGiven, RegionOk, Rank;
    hide Stepping;
    ScanningSized(c, z);
    z', v, u, t := StepFacts(c, z);
    StepRows(c, z, z', v, u, t);
    forall w | w in z'.seen
      ensures 0 <= w < |c.b| && SeenOk(c, z', w) && Copied(c, z', w)
    {
      StepSeen(c, z, z', v, u, t, w);
    }
    forall x | 0 <= x < |c.b|
      ensures RegionOk(c, z', x)
    {
      StepRegion(c, z, z', v, u, t, x);
    }
    forall x, y | 0 <= x < |c.b| && 0 <= y < |c.b|
      ensures RegionPair(c, z', x, y) && PlacedPair(c, z', x, y)
    {
      StepRegionPair(c, z, z', v, u, t, x, y);
      StepPlacedPair(c, z, z', v, u, t, x, y);
    }
  }

  // ---------- beginning and end of a pass ----------

  ghost predicate Begun(c: Scan, z: State) {
    && Sized(c) && |z.front| == 256
    && z.s == c.s0 && z.seen == {}
    && z.j == (if c.side < 0 then c.st[c.ss * 256] else c.st[c.ss * 256 + 256] - 1)
    && forall t | 0 <= t < 256 :: z.front[t] == if c.side < 0 then Base(c, t) else End(c, t) - 1
  }

  lemma BeginRow(c: Scan, z: State, x: int)
    requires Setting(c) && Begun(c, z) && 0 <= x < |c.b|
    ensures RowOk(c, z, x) && RegionOk(c, z, x)
    ensures InRegion(c, z.front, x) ==>
      0 <= Bucket(c, x) < 65536 && Bucket(c, x) / 256 == c.ss && Bucket(c, x) % 256 != c.ss && z.s[x] == c.orig[x]
  {
    hide Below, Count, Pairs, SortedGiven, OthersDiffer;
    assert RowGiven(c, x) && BoundsGiven(c, c.ss);
    if 0 <= Bucket(c, x) / 256 < 256 {
      assert z.front[Bucket(c, x) / 256] == if c.side < 0 then Base(c, Bucket(c, x) / 256) else End(c, Bucket(c, x) / 256) - 1;
    }
    if InRegion(c, z.front, x) {
      assert z.front[c.ss] == if c.side < 0 then Base(c, c.ss) else End(c, c.ss) - 1;
      NotInOwnBucket(c, x);
      PairSplit(c.b, c.orig[x]);
      SideOfSecond(c.b, c.orig[x], c.ss);
    }
  }

  lemma SideOfSecond(b: seq<int>, v: nat, ss: int)
    requires v < |b| && b[v] == ss && b[After(v, |b|)] != ss
    ensures Side(b, v, ss, |b|) == if b[After(v, |b|)] < ss then -1 else 1
  {
    assert At(b, v + 1) == b[After(v, |b|)];
  }

  lemma BeginPair(c: Scan, z: State, x: int, y: int)
    requires Setting(c) && Begun(c, z) && 0 <= x < |c.b| && 0 <= y < |c.b|
    ensures RegionPair(c, z, x, y) && PlacedPair(c, z, x, y)
  {
    hide Below, Count, Pairs, Side, OthersDiffer, Rank;
    BeginRow(c, z, x);
    BeginRow(c, z, y);
    if InRegion(c, z.front, x) && InRegion(c, z.front, y) && x != y {
      BeginOrder(c, if x < y then x else y, if x < y then y else x);
    }
    if 0 <= Bucket(c, x) < 65536 {
      assert z.front[Bucket(c, x) / 256] == if c.side < 0 then Base(c, Bucket(c, x) / 256) else End(c, Bucket(c, x) / 256) - 1;
    }
  }

  lemma BeginOrder(c: Scan, x: int, y: int)
    requires Setting(c) && 0 <= x < y < |c.b|
    requires 0 <= Bucket(c, x) < 65536 && Bucket(c, x) / 256 == c.ss && Bucket(c, x) % 256 != c.ss
    requires 0 <= Bucket(c, y) < 65536 && Bucket(c, y) / 256 == c.ss && Bucket(c, y) % 256 != c.ss
    ensures c.orig[x] != c.orig[y] && Rank(c.b, c.orig[x]) <= Rank(c.b, c.orig[y])
  {
    hide Below, Count, Pairs, Side, OthersDiffer, Rank;
    assert RowGiven(c, x) && RowGiven(c, y);
    if Bucket(c, x) == Bucket(c, y) {
      assert SortedGiven(c, x, y);
    } else if Bucket(c, x) < Bucket(c, y) {
      PairRank(c.b, c.orig[x], c.orig[y]);
    } else {
      StartsMonotone(c, Bucket(c, y) + 1, Bucket(c, x));
    }
  }

  lemma BeginScan(c: Scan, z: State)
    requires Setting(c) && Begun(c, z)
    ensures Scanning(c, z)
  {
    hide Below, Count, Pairs, Side, OthersDiffer, Rank, RowGiven, SortedGiven, RegionPair, PlacedPair, RegionOk, RowOk;
    assert BoundsGiven(c, c.ss);
    forall t | 0 <= t < 256
      ensures FrontOk(c, z, t)
    {
      assert BoundsGiven(c, t);
    }
    forall x | 0 <= x < |c.b|
      ensures RowOk(c, z, x) && RegionOk(c, z, x)
    {
      BeginRow(c, z, x);
    }
    forall x, y | 0 <= x < |c.b| && 0 <= y < |c.b|
      ensures RegionPair(c, z, x, y) && PlacedPair(c, z, x, y)
    {
      BeginPair(c, z, x, y);
    }
  }

  /** At the end of a pass every rotation of the big bucket on its side has been read. */
  lemma {:induction false} PassComplete(c: Scan, z: State, v: nat, fuel: nat)
    requires Scanning(c, z) && !MayStep(c, z)
    requires v < |c.b| && c.b[v] == c.ss && Side(c.b, v, c.ss, fuel) == c.side
    ensures v in z.seen
    decreases fuel
  {
    hide Below, Count, Pairs, OthersDiffer, Rank, RegionPair, PlacedPair, SortedGiven, SeenOk;
    FrontAt(c, z, c.ss);
    var w := After(v, |c.b|);
    PairSplit(c.b, v);
    if c.b[w] == c.ss {
      SideOfNext(c.b, v, c.ss, fuel);
      PassComplete(c, z, w, fuel - 1);
      assert Copied(c, z, w);
      var x :| 0 <= x < |c.b| && IsPlaced(c, z.front, c.ss, x) && z.s[x] == v;
      assert RegionOk(c, z, x);
    } else {
      SideOfOther(c.b, v, c.ss, fuel);
      PermutationIsSurjective(c.orig);
      assert v in c.orig;
      var x :| 0 <= x < |c.b| && c.orig[x] == v;
      assert RowOk(c, z, x) && RowGiven(c, x) && RegionOk(c, z, x);
      if c.side < 0 {
        StartsMonotone(c, c.ss * 256, Bucket(c, x));
        StartsMonotone(c, Bucket(c, x) + 1, c.ss * 256 + c.ss);
      } else {
        StartsMonotone(c, Bucket(c, x) + 1, c.ss * 256 + 256);
        StartsMonotone(c, c.ss * 256 + c.ss + 1, Bucket(c, x));
      }
    }
  }

  lemma SideOfNext(b: seq<int>, v: nat, ss: int, fuel: nat)
    requires v < |b| && b[v] == ss && Side(b, v, ss, fuel) != 0
    ensures fuel > 0 && Side(b, After(v, |b|), ss, fuel - 1) == Side(b, v, ss, fuel)
  {
    if v + 1 == |b| {
      SidePeriodic(b, 0, ss, fuel - 1);
    }
  }

  lemma SideOfOther(b: seq<int>, v: nat, ss: int, fuel: nat)
    requires v < |b| && b[v] == ss && Side(b, v, ss, fuel) != 0 && b[After(v, |b|)] != ss
    ensures Side(b, v, ss, fuel) == if b[After(v, |b|)] < ss then -1 else 1
  {
    assert At(b, v + 1) == b[After(v, |b|)];
  }

  // ---------- both passes together ----------

  ghost predicate BothDone(l: Scan, zl: State, r: Scan, zr: State) {
    && Scanning(l, zl) && !MayStep(l, zl) && l.side == -1 && l.s0 == l.orig
    && (forall t | 0 <= t < 256 :: l.other[t] == End(l, t) - 1)
    && Scanning(r, zr) && !MayStep(r, zr)
    && r == l.(s0 := zl.s, side := 1, other := zl.front)
  }

  /** What the left pass leaves is what the right pass needs. */
  lemma LeftGivesRight(l: Scan, z: State, r: Scan)
    requires Scanning(l, z) && l.side == -1 && l.s0 == l.orig
    requires forall t | 0 <= t < 256 :: l.other[t] == End(l, t) - 1
    requires r == l.(s0 := z.s, side := 1, other := z.front)
    ensures Setting(r)
  {
    hide Below, Count, Pairs, Pair, Side, Rank, RegionPair, RegionOk;
    forall x | 0 <= x < |l.b|
      ensures RowGiven(r, x)
    {
      assert RowOk(l, z, x) && RowGiven(l, x);
      var t := Bucket(l, x) / 256;
      if Target(l, Bucket(l, x)) && IsPlaced(l, z.front, t, x) {
        assert SeenOk(l, z, After(z.s[x], |l.b|));
      }
    }
    forall x, y | 0 <= x < y < |l.b|
      ensures OthersDiffer(r, x, y) && SortedGiven(r, x, y)
    {
      assert PlacedPair(l, z, x, y) && SortedGiven(l, x, y);
      assert RowOk(l, z, x) && RowOk(l, z, y);
    }
    forall t | 0 <= t < 256
      ensures BoundsGiven(r, t)
    {
      assert BoundsGiven(l, t) && FrontOk(l, z, t);
    }
  }

  lemma BothSized(l: Scan, zl: State, r: Scan, zr: State)
    requires BothDone(l, zl, r, zr)
    ensures Sized(l) && Sized(r) && |zl.s| == |zr.s| == |l.b| && |zl.front| == |zr.front| == 256
    ensures Setting(l) && Setting(r) && Keys(l.b, 256) && zl.s == r.s0 && l.b == r.b && l.ss == r.ss
    ensures Scanning(l, zl) && Scanning(r, zr) && l.done == r.done && l.orig == r.orig
  {
  }

  /** Every member of a bucket [t, ss] that is not done has been written by one of the passes. */
  lemma MemberWritten(l: Scan, zl: State, r: Scan, zr: State, u: nat) returns (x: int)
    requires BothDone(l, zl, r, zr) && !Uniform(l.b, l.ss)
    requires u < |l.b| && 0 <= l.b[u] < 256 && l.b[After(u, |l.b|)] == l.ss && !l.done[l.b[u]]
    ensures 0 <= x < |l.b| && Base(r, l.b[u]) <= x < End(r, l.b[u]) && IsFilled(r, zr, l.b[u], x) && zr.s[x] == u
  {
    hide Below, Count, Pairs, Pair, Rank, RegionPair, PlacedPair, RegionOk, SeenOk, OthersDiffer, SortedGiven, Uniform;
    var v, n, t := After(u, |l.b|), |l.b|, l.b[u];
    if Side(l.b, v, l.ss, n) == 0 {
      SideUniform(l.b, v, l.ss);
    }
    if Side(l.b, v, l.ss, n) == 1 {
      PassComplete(r, zr, v, n);
      assert Copied(r, zr, v);
      x :| 0 <= x < n && IsPlaced(r, zr.front, t, x) && zr.s[x] == u;
      PlacedInside(r, zr, t, x);
    } else {
      PassComplete(l, zl, v, n);
      assert Copied(l, zl, v);
      x :| 0 <= x < n && IsPlaced(l, zl.front, t, x) && zl.s[x] == u;
      PlacedInside(l, zl, t, x);
      assert RowOk(r, zr, x) && FrontOk(r, zr, t);
    }
  }

  lemma WrittenMembers(l: Scan, zl: State, r: Scan, zr: State, t: int, w: seq<int>)
    requires BothDone(l, zl, r, zr) && !Uniform(l.b, l.ss) && 0 <= t < 256 && !l.done[t]
    requires forall x | 0 <= x < |l.b| && Base(r, t) <= x < End(r, t) && IsFilled(r, zr, t, x) :: zr.s[x] in w
    ensures Count(Pairs(l.b), |l.b|, t * 256 + l.ss) <= |w|
  {
    hide Below, Count, Pair, Side, Scanning, Setting, Uniform;
    var n, k := |l.b|, t * 256 + l.ss;
    BothSized(l, zl, r, zr);
    forall u | u in Members(Pairs(l.b), n, k)
      ensures u in Elements(w)
    {
      PairSplit(l.b, u);
      var x := MemberWritten(l, zl, r, zr, u);
    }
    MembersCount(Pairs(l.b), n, k);
    SubsetCardinality(Members(Pairs(l.b), n, k), Elements(w));
    ElementsBound(w);
  }

  /** So the two fronts meet. */
  lemma FrontsMeet(l: Scan, zl: State, r: Scan, zr: State, t: int)
    requires BothDone(l, zl, r, zr) && !Uniform(l.b, l.ss) && 0 <= t < 256 && !l.done[t]
    ensures zr.front[t] == zl.front[t] - 1
  {
    hide Below, Count, Pair, Pairs, Side, Scanning, Setting, Uniform;
    BothSized(l, zl, r, zr);
    FrontAt(r, zr, t);
    var lo, mid, top, hi := Base(r, t), zl.front[t], zr.front[t] + 1, End(r, t);
    var w := zr.s[lo..mid] + zr.s[top..hi];
    forall x | 0 <= x < |l.b| && lo <= x < hi && IsFilled(r, zr, t, x)
      ensures zr.s[x] in w
    {
      if x < mid {
        assert zr.s[lo..mid][x - lo] == zr.s[x];
      } else {
        assert zr.s[top..hi][x - top] == zr.s[x];
      }
    }
    WrittenMembers(l, zl, r, zr, t, w);
  }

  lemma AllFilled(l: Scan, zl: State, r: Scan, zr: State, t: int, x: int)
    requires BothDone(l, zl, r, zr) && !Uniform(l.b, l.ss) && 0 <= t < 256 && !l.done[t]
    requires 0 <= x < |l.b| && Base(r, t) <= x < End(r, t)
    ensures IsFilled(r, zr, t, x) && !(IsPlaced(r, zr.front, t, x) && IsOther(r, t, x))
  {
    hide Below, Count, Pair, Pairs, Side, Scanning, Setting, Uniform;
    FrontsMeet(l, zl, r, zr, t);
  }

  /** Within a freshly written bucket rows are in order: what came from the left, then what came from the right. */
  lemma CopiedOrder(l: Scan, zl: State, r: Scan, zr: State, t: int, x: int, y: int)
    requires BothDone(l, zl, r, zr) && !Uniform(l.b, l.ss) && 0 <= t < 256 && !l.done[t]
    requires 0 <= x < y < |l.b| && Base(r, t) <= x && y < End(r, t)
    ensures 0 <= zr.s[x] < |l.b| && 0 <= zr.s[y] < |l.b| && zr.s[x] != zr.s[y]
    ensures Pair(l.b, zr.s[x]) == Pair(l.b, zr.s[y]) == t * 256 + l.ss
    ensures Rank(l.b, zr.s[x]) <= Rank(l.b, zr.s[y])
  {
    hide Below, Count, Pair, Pairs, Side, Rank, Setting, Uniform, RegionPair, RegionOk, SeenOk, Copied;
    BothSized(l, zl, r, zr);
    AllFilled(l, zl, r, zr, t, x);
    AllFilled(l, zl, r, zr, t, y);
    FilledRow(r, zr, t, x);
    FilledRow(r, zr, t, y);
    FilledDiffer(r, zr, t, x, y);
    BucketAt(r, t * 256 + r.ss, x);
    BucketAt(r, t * 256 + r.ss, y);
    if IsPlaced(r, zr.front, t, x) && IsPlaced(r, zr.front, t, y) {
      assert PlacedPair(r, zr, y, x);
    } else if !IsPlaced(r, zr.front, t, x) && !IsPlaced(r, zr.front, t, y) {
      assert PlacedPair(l, zl, x, y);
      assert RowOk(r, zr, x) && RowOk(r, zr, y);
    } else {
      var n, u, w := |l.b|, zr.s[x], zr.s[y];
      FrontAt(r, zr, t);
      PairSplit(l.b, u);
      PairSplit(l.b, w);
      SideRank(l.b, After(u, n), After(w, n), l.ss);
      BeforeRank(l.b, u, w);
    }
  }

  lemma FilledPairs(l: Scan, zl: State, r: Scan, zr: State, t: int, x: int)
    requires BothDone(l, zl, r, zr) && !Uniform(l.b, l.ss) && 0 <= t < 256 && !l.done[t]
    requires 0 <= x < |l.b| && Base(r, t) <= x < End(r, t)
    ensures 0 <= zr.s[x] < |l.b| && Pair(l.b, zr.s[x]) == t * 256 + l.ss
  {
    hide Below, Count, Pair, Pairs, Side, Scanning, Setting, Uniform;
    BothSized(l, zl, r, zr);
    AllFilled(l, zl, r, zr, t, x);
    FilledRow(r, zr, t, x);
  }

  /** In a block of one repeated character neither pass writes anything. */
  lemma UniformUntouched(c: Scan, z: State, x: int)
    requires Scanning(c, z) && Uniform(c.b, c.ss) && 0 <= x < |c.b|
    ensures z.s[x] == c.s0[x]
    ensures forall t | 0 <= t < 256 :: !IsPlaced(c, z.front, t, x)
  {
    hide Below, Count, Pair, Pairs, Setting, RegionPair, RegionOk, PlacedPair, Copied;
    assert RowOk(c, z, x);
    forall w | w in z.seen
      ensures false
    {
      assert SeenOk(c, z, w);
      UniformSide(c.b, w, c.ss, |c.b|);
    }
    forall t | 0 <= t < 256
      ensures !IsPlaced(c, z.front, t, x)
    {
      FrontAt(c, z, t);
      if IsPlaced(c, z.front, t, x) {
        PlacedInside(c, z, t, x);
      }
    }
  }

  /** The outcome for one row. */
  ghost predicate RowResult(l: Scan, s: seq<int>, x: int)
    requires Sized(l) && |s| == |l.b| && 0 <= x < |l.b|
  {
    && 0 <= s[x] < |l.b|
    && Pair(l.b, s[x]) == Bucket(l, x)
    && 0 <= Bucket(l, x) < 65536
    && (!Target(l, Bucket(l, x)) ==> s[x] == l.orig[x])
  }

  lemma RowOutcome(l: Scan, zl: State, r: Scan, zr: State, x: int)
    requires BothDone(l, zl, r, zr) && 0 <= x < |l.b|
    ensures |zr.s| == |l.b| && Sized(l) && RowResult(l, zr.s, x)
  {
    hide Below, Count, Pair, Pairs, Side, Setting, Uniform, RegionPair, RegionOk, PlacedPair, Copied, SeenOk;
    BothSized(l, zl, r, zr);
    assert RowOk(l, zl, x) && RowOk(r, zr, x);
    RowGivenAt(l, x);
    if Uniform(l.b, l.ss) {
      UniformUntouched(l, zl, x);
      UniformUntouched(r, zr, x);
    } else if Target(l, Bucket(l, x)) {
      FilledPairs(l, zl, r, zr, Bucket(l, x) / 256, x);
    }
  }

  lemma RowGivenAt(c: Scan, x: int)
    requires Setting(c) && 0 <= x < |c.b|
    ensures RowGiven(c, x) && 0 <= c.orig[x] < |c.b|
    ensures Target(c, Bucket(c, x)) ==> Base(c, Bucket(c, x) / 256) <= x < End(c, Bucket(c, x) / 256)
  {
    hide Below, Count, Pairs, Side, SortedGiven, OthersDiffer;
    assert RowGiven(c, x);
  }

  /** The outcome for two rows: different rotations, in order if their bucket is one of those just written. */
  lemma PairOutcome(l: Scan, zl: State, r: Scan, zr: State, x: int, y: int)
    requires BothDone(l, zl, r, zr) && 0 <= x < y < |l.b|
    ensures |zr.s| == |l.b| && Sized(l) && RowResult(l, zr.s, x) && RowResult(l, zr.s, y)
    ensures zr.s[x] != zr.s[y]
    ensures Bucket(l, x) == Bucket(l, y) && Target(l, Bucket(l, x)) ==> Rank(l.b, zr.s[x]) <= Rank(l.b, zr.s[y])
  {
    hide Below, Count, Pair, Pairs, Side, Setting, Uniform, RegionPair, RegionOk, PlacedPair, Copied, SeenOk, Rank;
    BothSized(l, zl, r, zr);
    RowOutcome(l, zl, r, zr, x);
    RowOutcome(l, zl, r, zr, y);
    RowGivenAt(l, x);
    RowGivenAt(l, y);
    if Uniform(l.b, l.ss) {
      UniformUntouched(l, zl, x);
      UniformUntouched(r, zr, x);
      UniformUntouched(l, zl, y);
      UniformUntouched(r, zr, y);
      assert zr.s[x] == l.orig[x] && zr.s[y] == l.orig[y];
      UniformRanks(l.b, zr.s[x], zr.s[y], l.ss);
    } else if Bucket(l, x) == Bucket(l, y) && Target(l, Bucket(l, x)) {
      CopiedOrder(l, zl, r, zr, Bucket(l, x) / 256, x, y);
    }
  }

  /**
   * The source's check after the two passes: the fronts of [ss, ss] meet, and only if the block is one repeated symbol do
   * they stand at its two ends instead.
   */
  lemma OwnFrontsMeet(l: Scan, zl: State, r: Scan, zr: State)
    requires BothDone(l, zl, r, zr)
    ensures |zl.front| == |zr.front| == 256 && 0 <= l.ss < 256
    ensures if Uniform(l.b, l.ss) then zl.front[l.ss] == 0 && zr.front[l.ss] == |l.b| - 1
            else zl.front[l.ss] - 1 == zr.front[l.ss]
  {
    hide Below, Count, Pair, Pairs, Side, Scanning, Setting, Uniform;
    BothSized(l, zl, r, zr);
    if Uniform(l.b, l.ss) {
      UniformFronts(l, zl, r, zr);
    } else {
      OwnNotDone(l);
      FrontsMeet(l, zl, r, zr, l.ss);
    }
  }

  lemma OwnNotDone(l: Scan)
    requires Setting(l)
    ensures 0 <= l.ss < 256 && !l.done[l.ss]
  {
  }

  lemma UniformFronts(l: Scan, zl: State, r: Scan, zr: State)
    requires BothDone(l, zl, r, zr) && Uniform(l.b, l.ss)
    ensures zl.front[l.ss] == 0 && zr.front[l.ss] == |l.b| - 1
  {
    hide Side, Scanning, Count;
    BothSized(l, zl, r, zr);
    var n, k := |l.b|, l.ss * 256 + l.ss;
    forall i | 0 <= i < n
      ensures Pairs(l.b)[i] == k
    {
      PairSplit(l.b, i);
    }
    BelowNone(Pairs(l.b), n, k);
    BelowAll(Pairs(l.b), n, k + 1);
    assert Base(l, l.ss) == 0 && End(l, l.ss) == n;
    FrontAt(l, zl, l.ss);
    FrontAt(r, zr, l.ss);
    UniformUntouched(l, zl, 0);
    UniformUntouched(r, zr, n - 1);
    assert !IsPlaced(l, zl.front, l.ss, 0) && !IsPlaced(r, zr.front, l.ss, n - 1);
  }
}
