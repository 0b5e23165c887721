/**
 * The Bentley-McIlroy three-way split that fallbackQSort3 and mainQSort3 share (their text differs only in the key:
 * eclass[e] for the one, block[e + d] for the other, so the first is the case d == 0).
 */
module Partitioning {
  import opened Permutations

  /** What one call splits: the stretch lo..hi of start, by the keys key[e + d], around med. */
  datatype Task = Task(start: seq<int>, key: seq<int>, d: int, lo: int, hi: int, med: int)

  /** Every entry of s, moved on by d, indexes a key table of the given size. */
  ghost predicate Keyed(s: seq<int>, d: int, size: int) {
    forall x | 0 <= x < |s| :: 0 <= s[x] + d < size
  }

  ghost predicate AllBelow(t: Task, s: seq<int>, from: int, to: int)
    requires 0 <= from && to <= |s| && Keyed(s, t.d, |t.key|)
  {
    forall x | from <= x < to :: t.key[s[x] + t.d] < t.med
  }

  ghost predicate AllEqual(t: Task, s: seq<int>, from: int, to: int)
    requires 0 <= from && to <= |s| && Keyed(s, t.d, |t.key|)
  {
    forall x | from <= x < to :: t.key[s[x] + t.d] == t.med
  }

  ghost predicate AllAbove(t: Task, s: seq<int>, from: int, to: int)
    requires 0 <= from && to <= |s| && Keyed(s, t.d, |t.key|)
  {
    forall x | from <= x < to :: t.key[s[x] + t.d] > t.med
  }

  /** s rearranges the stretch, which now reads: equal | below | not yet seen | above | equal. */
  ghost predicate Splitting(t: Task, s: seq<int>, ltLo: int, unLo: int, unHi: int, gtHi: int) {
    && Rearranged(t.start, s, t.lo, t.hi + 1)
    && Keyed(s, t.d, |t.key|)
    && t.lo <= ltLo <= unLo <= unHi + 1 <= gtHi + 1 <= t.hi + 1
    && AllEqual(t, s, t.lo, ltLo)
    && AllBelow(t, s, ltLo, unLo)
    && AllAbove(t, s, unHi + 1, gtHi + 1)
    && AllEqual(t, s, gtHi + 1, t.hi + 1)
  }

  lemma LowStep(t: Task, s: seq<int>, ltLo: int, unLo: int, unHi: int, gtHi: int)
    requires Splitting(t, s, ltLo, unLo, unHi, gtHi)
    requires unLo <= unHi && t.key[s[unLo] + t.d] <= t.med
    ensures if t.key[s[unLo] + t.d] == t.med
            then Splitting(t, Swapped(s, unLo, ltLo), ltLo + 1, unLo + 1, unHi, gtHi)
            else Splitting(t, s, ltLo, unLo + 1, unHi, gtHi)
  {
    hide Bag;
    SwapRearranges(s, unLo, ltLo, t.lo, t.hi + 1);
  }

  lemma HighStep(t: Task, s: seq<int>, ltLo: int, unLo: int, unHi: int, gtHi: int)
    requires Splitting(t, s, ltLo, unLo, unHi, gtHi)
    requires unLo <= unHi && t.key[s[unHi] + t.d] >= t.med
    ensures if t.key[s[unHi] + t.d] == t.med
            then Splitting(t, Swapped(s, unHi, gtHi), ltLo, unLo, unHi - 1, gtHi - 1)
            else Splitting(t, s, ltLo, unLo, unHi - 1, gtHi)
  {
    hide Bag;
    SwapRearranges(s, unHi, gtHi, t.lo, t.hi + 1);
  }

  lemma CrossStep(t: Task, s: seq<int>, ltLo: int, unLo: int, unHi: int, gtHi: int)
    requires Splitting(t, s, ltLo, unLo, unHi, gtHi)
    requires unLo < unHi && t.key[s[unLo] + t.d] > t.med > t.key[s[unHi] + t.d]
    ensures Splitting(t, Swapped(s, unLo, unHi), ltLo, unLo + 1, unHi - 1, gtHi)
  {
    hide Bag;
    SwapRearranges(s, unLo, unHi, t.lo, t.hi + 1);
  }

  lemma SplittingStart(t: Task)
    requires 0 <= t.lo <= t.hi < |t.start| && Keyed(t.start, t.d, |t.key|)
    ensures Splitting(t, t.start, t.lo, t.lo, t.hi, t.hi)
  {
  }

  lemma SplittingBounds(t: Task, s: seq<int>, ltLo: int, unLo: int, unHi: int, gtHi: int)
    requires Splitting(t, s, ltLo, unLo, unHi, gtHi)
    ensures Keyed(s, t.d, |t.key|) && 0 <= t.lo <= ltLo <= unLo <= unHi + 1 <= gtHi + 1 <= t.hi + 1 <= |s|
  {
  }

  method SwapAt(a: array<int>, i: int, j: int)
    requires 0 <= i < a.Length && 0 <= j < a.Length
    modifies a
    ensures a[..] == Swapped(old(a[..]), i, j)
  {
    a[i], a[j] := a[j], a[i];
  }

  /** The first inner loop: climb over entries that are not above, moving equal ones to the low end. */
  method ScanUp(ghost t: Task, a: array<int>, key: array<int>, d: int, med: int,
                ltLo0: int, unLo0: int, unHi: int, ghost gtHi: int)
    returns (ltLo: int, unLo: int)
    requires a != key && t.key == key[..] && t.d == d && t.med == med
    requires Splitting(t, a[..], ltLo0, unLo0, unHi, gtHi)
    modifies a
    ensures unLo0 <= unLo
    ensures Splitting(t, a[..], ltLo, unLo, unHi, gtHi)
    ensures unLo <= unHi ==> 0 <= unLo < a.Length && 0 <= a[unLo] + d < key.Length && key[a[unLo] + d] > med
  {
    hide *;
    ltLo, unLo := ltLo0, unLo0;
    while true
      invariant t.key == key[..]
      invariant unLo0 <= unLo
      invariant Splitting(t, a[..], ltLo, unLo, unHi, gtHi)
      decreases unHi - unLo
    {
      SplittingBounds(t, a[..], ltLo, unLo, unHi, gtHi);
      if unLo > unHi || key[a[unLo] + d] > med {
        break;
      }
      LowStep(t, a[..], ltLo, unLo, unHi, gtHi);
      if key[a[unLo] + d] == med {
        SwapAt(a, unLo, ltLo);
        ltLo := ltLo + 1;
      }
      unLo := unLo + 1;
    }
  }

  /** The second inner loop, its mirror image. */
  method ScanDown(ghost t: Task, a: array<int>, key: array<int>, d: int, med: int,
                  ghost ltLo: int, unLo: int, unHi0: int, gtHi0: int)
    returns (unHi: int, gtHi: int)
    requires a != key && t.key == key[..] && t.d == d && t.med == med
    requires Splitting(t, a[..], ltLo, unLo, unHi0, gtHi0)
    requires unLo <= unHi0 ==> 0 <= unLo < a.Length && 0 <= a[unLo] + d < key.Length && key[a[unLo] + d] > med
    modifies a
    ensures unHi <= unHi0
    ensures Splitting(t, a[..], ltLo, unLo, unHi, gtHi)
    ensures unLo <= unHi ==> unLo < unHi && 0 <= unLo && unHi < a.Length
    ensures unLo <= unHi ==> 0 <= a[unLo] + d < key.Length && key[a[unLo] + d] > med
    ensures unLo <= unHi ==> 0 <= a[unHi] + d < key.Length && key[a[unHi] + d] < med
  {
    hide *;
    unHi, gtHi := unHi0, gtHi0;
    while true
      invariant t.key == key[..]
      invariant unHi <= unHi0
      invariant unLo <= unHi ==> 0 <= unLo < a.Length && 0 <= a[unLo] + d < key.Length && key[a[unLo] + d] > med
      invariant Splitting(t, a[..], ltLo, unLo, unHi, gtHi)
      decreases unHi - unLo
    {
      SplittingBounds(t, a[..], ltLo, unLo, unHi, gtHi);
      if unLo > unHi || key[a[unHi] + d] < med {
        break;
      }
      HighStep(t, a[..], ltLo, unLo, unHi, gtHi);
      if key[a[unHi] + d] == med {
        SwappedAt(a[..], unHi, gtHi);
        SwapAt(a, unHi, gtHi);
        gtHi := gtHi - 1;
      }
      unHi := unHi - 1;
    }
  }

  /** The loop that leaves equal | below | above | equal. */
  method Split(a: array<int>, key: array<int>, d: int, lo: int, hi: int, med: int)
    returns (ltLo: int, unLo: int, unHi: int, gtHi: int)
    requires 0 <= lo <= hi < a.Length && a != key
    requires Keyed(a[..], d, key.Length)
    modifies a
    ensures unLo == unHi + 1
    ensures Splitting(Task(old(a[..]), key[..], d, lo, hi, med), a[..], ltLo, unLo, unHi, gtHi)
  {
    ghost var t := Task(a[..], key[..], d, lo, hi, med);
    unLo, ltLo := lo, lo;
    unHi, gtHi := hi, hi;
    hide *;
    SplittingStart(t);
    while true
      invariant t.key == key[..]
      invariant Splitting(t, a[..], ltLo, unLo, unHi, gtHi)
      decreases unHi - unLo
    {
      ltLo, unLo := ScanUp(t, a, key, d, med, ltLo, unLo, unHi, gtHi);
      unHi, gtHi := ScanDown(t, a, key, d, med, ltLo, unLo, unHi, gtHi);
      SplittingBounds(t, a[..], ltLo, unLo, unHi, gtHi);
      if unLo > unHi {
        break;
      }
      CrossStep(t, a[..], ltLo, unLo, unHi, gtHi);
      SwapAt(a, unLo, unHi);
      unLo, unHi := unLo + 1, unHi - 1;
    }
  }

  /** s with the stretches of n entries at p1 and p2 exchanged. */
  ghost predicate Exchanged(s: seq<int>, r: seq<int>, p1: int, p2: int, n: int) {
    && |r| == |s| && 0 <= p1 && 0 <= n && p1 + n <= p2 && p2 + n <= |s|
    && (forall x | p1 <= x < p1 + n :: r[x] == s[x + (p2 - p1)])
    && (forall x | p2 <= x < p2 + n :: r[x] == s[x - (p2 - p1)])
    && (forall x | 0 <= x < |s| && !(p1 <= x < p1 + n) && !(p2 <= x < p2 + n) :: r[x] == s[x])
  }

  lemma ExchangeStep(s: seq<int>, r: seq<int>, p1: int, p2: int, k: int, lo: int, hi: int)
    requires Exchanged(s, r, p1, p2, k) && Rearranged(s, r, lo, hi)
    requires p1 + k < p2 && lo <= p1 && p2 + k < hi
    ensures Exchanged(s, Swapped(r, p1 + k, p2 + k), p1, p2, k + 1)
    ensures Rearranged(s, Swapped(r, p1 + k, p2 + k), lo, hi)
  {
    hide Bag;
    SwapRearranges(r, p1 + k, p2 + k, lo, hi);
    RearrangedTransitive(s, r, Swapped(r, p1 + k, p2 + k), lo, hi);
  }

  /** fvswap / mvswap: exchange the stretches of n entries at p1 and p2. */
  method SwapStretches(a: array<int>, p1: int, p2: int, n: int, ghost lo: int, ghost hi: int)
    requires 0 <= lo <= p1 && 0 <= n && p1 + n <= p2 && p2 + n <= hi <= a.Length
    modifies a
    ensures Exchanged(old(a[..]), a[..], p1, p2, n)
    ensures Rearranged(old(a[..]), a[..], lo, hi)
  {
    ghost var was := a[..];
    assert Exchanged(was, a[..], p1, p2, 0) && Rearranged(was, a[..], lo, hi);
    hide *;
    for k := 0 to n
      invariant Exchanged(was, a[..], p1, p2, k) && Rearranged(was, a[..], lo, hi)
    {
      ExchangeStep(was, a[..], p1, p2, k, lo, hi);
      SwapAt(a, p1 + k, p2 + k);
    }
  }

  /** The stretch lo..hi of s now reads: below (up to n) | equal | above (from m). */
  ghost predicate Gathered(t: Task, s: seq<int>, n: int, m: int) {
    && Rearranged(t.start, s, t.lo, t.hi + 1)
    && Keyed(s, t.d, |t.key|)
    && t.lo - 1 <= n < m <= t.hi + 1
    && AllBelow(t, s, t.lo, n + 1)
    && AllEqual(t, s, n + 1, m)
    && AllAbove(t, s, m, t.hi + 1)
  }

  lemma GatherAllEqual(t: Task, s: seq<int>, ltLo: int, unLo: int, unHi: int, gtHi: int)
    requires Splitting(t, s, ltLo, unLo, unHi, gtHi) && unLo == unHi + 1 && gtHi < ltLo
    ensures Gathered(t, s, t.lo - 1, t.hi + 1)
  {
  }

  /** After the first exchange: below (up to n) | equal | above | equal. */
  ghost predicate HalfGathered(t: Task, s: seq<int>, n: int, unLo: int, gtHi: int) {
    && Rearranged(t.start, s, t.lo, t.hi + 1)
    && Keyed(s, t.d, |t.key|)
    && t.lo - 1 <= n < unLo <= gtHi + 1 <= t.hi + 1
    && AllBelow(t, s, t.lo, n + 1)
    && AllEqual(t, s, n + 1, unLo)
    && AllAbove(t, s, unLo, gtHi + 1)
    && AllEqual(t, s, gtHi + 1, t.hi + 1)
  }

  lemma GatherLowEnd(t: Task, s: seq<int>, s1: seq<int>, ltLo: int, unLo: int, unHi: int, gtHi: int, n: int)
    requires Splitting(t, s, ltLo, unLo, unHi, gtHi) && unLo == unHi + 1 && ltLo <= gtHi
    requires n == if ltLo - t.lo < unLo - ltLo then ltLo - t.lo else unLo - ltLo
    requires Exchanged(s, s1, t.lo, unLo - n, n) && Rearranged(s, s1, t.lo, t.hi + 1)
    ensures HalfGathered(t, s1, t.lo + unLo - ltLo - 1, unLo, gtHi)
  {
    hide Bag;
  }

  lemma GatherHighEnd(t: Task, s1: seq<int>, s2: seq<int>, n: int, unLo: int, gtHi: int, m: int)
    requires HalfGathered(t, s1, n, unLo, gtHi)
    requires m == if t.hi - gtHi < gtHi - (unLo - 1) then t.hi - gtHi else gtHi - (unLo - 1)
    requires Exchanged(s1, s2, unLo, t.hi - m + 1, m) && Rearranged(s1, s2, t.lo, t.hi + 1)
    ensures Gathered(t, s2, n, t.hi - (gtHi - (unLo - 1)) + 1)
  {
    hide Bag;
  }

  /** The two exchanges after the loop, which carry the equal entries from both ends into the middle. */
  method Gather(ghost t: Task, a: array<int>, lo: int, hi: int, ltLo: int, unLo: int, unHi: int, gtHi: int)
    returns (n: int, m: int)
    requires t.lo == lo && t.hi == hi && unLo == unHi + 1 && ltLo <= gtHi
    requires Splitting(t, a[..], ltLo, unLo, unHi, gtHi)
    modifies a
    ensures Gathered(t, a[..], n, m)
  {
    hide *;
    ghost var s := a[..];
    SplittingBounds(t, s, ltLo, unLo, unHi, gtHi);
    n := if ltLo - lo < unLo - ltLo then ltLo - lo else unLo - ltLo;
    SwapStretches(a, lo, unLo - n, n, lo, hi + 1);
    GatherLowEnd(t, s, a[..], ltLo, unLo, unHi, gtHi, n);
    n := lo + unLo - ltLo - 1;
    s := a[..];
    m := if hi - gtHi < gtHi - unHi then hi - gtHi else gtHi - unHi;
    SwapStretches(a, unLo, hi - m + 1, m, lo, hi + 1);
    GatherHighEnd(t, s, a[..], n, unLo, gtHi, m);
    m := hi - (gtHi - unHi) + 1;
  }

  /** The whole split; allEqual reports that every key equals med. */
  method SplitAndGather(a: array<int>, key: array<int>, d: int, lo: int, hi: int, med: int)
    returns (allEqual: bool, n: int, m: int)
    requires 0 <= lo <= hi < a.Length && a != key
    requires Keyed(a[..], d, key.Length)
    modifies a
    ensures Gathered(Task(old(a[..]), key[..], d, lo, hi, med), a[..], n, m)
    ensures allEqual ==> n == lo - 1 && m == hi + 1
  {
    hide *;
    ghost var t := Task(a[..], key[..], d, lo, hi, med);
    var ltLo, unLo, unHi, gtHi := Split(a, key, d, lo, hi, med);
    allEqual := gtHi < ltLo;
    if allEqual {
      GatherAllEqual(t, a[..], ltLo, unLo, unHi, gtHi);
      n, m := lo - 1, hi + 1;
    } else {
      n, m := Gather(t, a, lo, hi, ltLo, unLo, unHi, gtHi);
    }
  }
}
