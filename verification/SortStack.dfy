/**
 * The bookkeeping both explicit-stack quicksorts rest on: which index pairs may still be out of order.
 */
module SortStack {
  import opened Permutations

  /** A stretch lo..hi, both ends included; empty when hi == lo - 1. d is the depth mainQSort3 stores with it. */
  datatype Stretch = Stretch(lo: int, hi: int, d: int) {
    predicate Has(x: int) {
      lo <= x <= hi
    }

    function Size(): int {
      hi - lo + 1
    }
  }

  /** Keys looked up by entry: rank[e] for each entry e of the array being sorted. */
  ghost predicate Ranked(s: seq<int>, rank: seq<int>) {
    forall x | 0 <= x < |s| :: 0 <= s[x] < |rank|
  }

  ghost predicate InOrder(s: seq<int>, rank: seq<int>, x: int, y: int)
    requires Ranked(s, rank) && 0 <= x < |s| && 0 <= y < |s|
  {
    rank[s[x]] <= rank[s[y]]
  }

  /** s[from..to] (both ends included) is in order. */
  ghost predicate Ordered(s: seq<int>, rank: seq<int>, from: int, to: int)
    requires Ranked(s, rank) && 0 <= from && to < |s|
  {
    forall x, y | from <= x < y <= to :: InOrder(s, rank, x, y)
  }

  /**
   * Everything in lo..hi is in order except inside the stretches still on the stack;
   * owner[x] is the stack position of the stretch that holds x, or -1.
   */
  ghost predicate Open(s: seq<int>, rank: seq<int>, lo: int, hi: int, stack: seq<Stretch>, owner: seq<int>) {
    && 0 <= lo <= hi + 1 <= |s| == |owner|
    && Ranked(s, rank)
    && (forall k | 0 <= k < |stack| :: lo <= stack[k].lo <= stack[k].hi + 1 <= hi + 1)
    && (forall k, x | 0 <= k < |stack| && lo <= x <= hi :: stack[k].Has(x) <==> owner[x] == k)
    && (forall x | lo <= x <= hi :: -1 <= owner[x] < |stack|)
    && (forall x, y | lo <= x < y <= hi :: owner[x] != owner[y] || owner[x] == -1 ==> InOrder(s, rank, x, y))
  }

  /** Which of up to three pieces holds x. */
  ghost function PieceOf(pieces: seq<Stretch>, x: int): int
    requires |pieces| <= 3
  {
    if |pieces| > 0 && pieces[0].Has(x) then 0
    else if |pieces| > 1 && pieces[1].Has(x) then 1
    else if |pieces| > 2 && pieces[2].Has(x) then 2
    else -1
  }

  ghost function Reowned(owner: seq<int>, top: Stretch, base: int, pieces: seq<Stretch>): (r: seq<int>)
    requires |pieces| <= 3
    ensures |r| == |owner|
    ensures forall x | 0 <= x < |owner| && !top.Has(x) :: r[x] == owner[x]
    ensures forall x | 0 <= x < |owner| && top.Has(x) ::
      r[x] == if PieceOf(pieces, x) == -1 then -1 else base + PieceOf(pieces, x)
  {
    seq(|owner|, x requires 0 <= x < |owner| =>
      if !top.Has(x) then owner[x] else if PieceOf(pieces, x) == -1 then -1 else base + PieceOf(pieces, x))
  }

  /** The pieces lie in the stretch and apart from each other. */
  ghost predicate Pieces(top: Stretch, pieces: seq<Stretch>) {
    && |pieces| <= 3
    && (forall k | 0 <= k < |pieces| :: top.lo <= pieces[k].lo <= pieces[k].hi + 1 <= top.hi + 1)
    && (forall j, k, x | 0 <= j < k < |pieces| :: !(pieces[j].Has(x) && pieces[k].Has(x)))
  }

  /** s2 has the popped stretch in order except inside the given pieces. */
  ghost predicate Refines(s2: seq<int>, rank: seq<int>, top: Stretch, pieces: seq<Stretch>)
    requires |pieces| <= 3 && Ranked(s2, rank) && 0 <= top.lo && top.hi < |s2|
  {
    forall x, y | top.lo <= x < y <= top.hi ::
      PieceOf(pieces, x) != PieceOf(pieces, y) || PieceOf(pieces, x) == -1 ==> InOrder(s2, rank, x, y)
  }

  lemma OpenStart(s: seq<int>, rank: seq<int>, lo: int, hi: int, d: int)
    requires 0 <= lo <= hi + 1 <= |s| && Ranked(s, rank)
    ensures Open(s, rank, lo, hi, [Stretch(lo, hi, d)], seq(|s|, _ => 0))
  {
  }

  lemma OpenEnd(s: seq<int>, rank: seq<int>, lo: int, hi: int, owner: seq<int>)
    requires Open(s, rank, lo, hi, [], owner)
    ensures Ordered(s, rank, lo, hi)
  {
  }

  /** Rearranging inside the top stretch keeps it in order against everything around it. */
  lemma OutsideStaysOrdered(s: seq<int>, s2: seq<int>, rank: seq<int>, lo: int, hi: int,
                            stack: seq<Stretch>, owner: seq<int>, x: int, y: int)
    requires |stack| > 0 && Open(s, rank, lo, hi, stack, owner)
    requires Ranked(s2, rank) && lo <= x < y <= hi
    requires Rearranged(s, s2, stack[|stack| - 1].lo, stack[|stack| - 1].hi + 1)
    requires !(stack[|stack| - 1].Has(x) && stack[|stack| - 1].Has(y))
    requires owner[x] != owner[y] || owner[x] == -1
    ensures InOrder(s2, rank, x, y)
  {
    var top := stack[|stack| - 1];
    RearrangedOrigin(s, s2, top.lo, top.hi + 1);
    if top.Has(x) {
      var v :| top.lo <= v < top.hi + 1 && s[v] == s2[x];
      assert owner[v] == |stack| - 1 != owner[y];
      assert InOrder(s, rank, v, y);
    } else if top.Has(y) {
      var v :| top.lo <= v < top.hi + 1 && s[v] == s2[y];
      assert owner[v] == |stack| - 1 != owner[x];
      assert InOrder(s, rank, x, v);
    } else {
      assert InOrder(s, rank, x, y);
    }
  }

  /** Popping the top stretch, putting it in order except inside some pieces, and pushing those. */
  lemma OpenStep(s: seq<int>, s2: seq<int>, rank: seq<int>, lo: int, hi: int,
                 rest: seq<Stretch>, top: Stretch, owner: seq<int>, pieces: seq<Stretch>)
    requires Open(s, rank, lo, hi, rest + [top], owner)
    requires Ranked(s2, rank) && Rearranged(s, s2, top.lo, top.hi + 1)
    requires Pieces(top, pieces) && Refines(s2, rank, top, pieces)
    ensures Open(s2, rank, lo, hi, rest + pieces, Reowned(owner, top, |rest|, pieces))
  {
    hide Bag;
    var stack, stack2, owner2 := rest + [top], rest + pieces, Reowned(owner, top, |rest|, pieces);
    assert stack[|stack| - 1] == top;
    forall k | 0 <= k < |stack2|
      ensures lo <= stack2[k].lo <= stack2[k].hi + 1 <= hi + 1
    {
      assert k < |rest| ==> stack2[k] == rest[k] == stack[k];
      assert k >= |rest| ==> stack2[k] == pieces[k - |rest|];
    }
    forall k, x | 0 <= k < |stack2| && lo <= x <= hi
      ensures stack2[k].Has(x) <==> owner2[x] == k
    {
      assert k < |rest| ==> stack2[k] == rest[k] == stack[k];
      assert k >= |rest| ==> stack2[k] == pieces[k - |rest|];
      assert top.Has(x) <==> owner[x] == |rest|;
    }
    forall x, y | lo <= x < y <= hi && (owner2[x] != owner2[y] || owner2[x] == -1)
      ensures InOrder(s2, rank, x, y)
    {
      assert top.Has(x) <==> owner[x] == |rest|;
      assert top.Has(y) <==> owner[y] == |rest|;
      if !(top.Has(x) && top.Has(y)) {
        OutsideStaysOrdered(s, s2, rank, lo, hi, stack, owner, x, y);
      }
    }
  }

  /** Shrinks with every step: splitting off at least one entry, or going one character deeper, makes it smaller. */
  ghost function Work(stack: seq<Stretch>): nat {
    if stack == [] then 0 else Work(stack[..|stack| - 1]) + Weight(stack[|stack| - 1])
  }

  ghost function Weight(s: Stretch): (r: nat)
    ensures r > 0
  {
    if s.Size() < 0 || s.d > 16 then 1 else 3 * s.Size() * (16 - s.d) + 1
  }

  lemma WorkOfPush(stack: seq<Stretch>, top: Stretch)
    ensures Work(stack + [top]) == Work(stack) + Weight(top)
  {
    assert (stack + [top])[..|stack|] == stack;
  }

  /** n halved k times. */
  function Halved(n: nat, k: nat): nat {
    if k == 0 then n else Halved(n, k - 1) / 2
  }

  lemma {:induction false} HalvedMonotone(n: nat, m: nat, k: nat)
    requires n <= m
    ensures Halved(n, k) <= Halved(m, k)
  {
    if k > 0 {
      HalvedMonotone(n, m, k - 1);
    }
  }

  lemma {:induction false} HalvedDecreases(n: nat, j: nat, k: nat)
    requires j <= k
    ensures Halved(n, k) <= Halved(n, j)
  {
    if j < k {
      HalvedDecreases(n, j, k - 1);
    }
  }

  lemma HalvedMaximum()
    ensures Halved(900000, 17) == 6
  {
    assert Halved(900000, 4) == 56250;
    assert Halved(900000, 8) == 3515;
    assert Halved(900000, 12) == 219;
    assert Halved(900000, 16) == 13;
  }
}
