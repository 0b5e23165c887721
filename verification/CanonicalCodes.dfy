/** BZ2_hbAssignCodes and BZ2_hbCreateDecodeTables: canonical codes and the tables that decode them. */
module CanonicalCodes {
  import opened Bits
  import opened Counting
  import opened Placement
  import opened PrefixCodes

  const TABLE := 258     // BZ_MAX_ALPHA_SIZE
  const CODELEN := 23    // BZ_MAX_CODE_LEN

  /** The first code of length n: codes of one length are consecutive, and each length continues the one before. */
  ghost function First(lens: seq<int>, n: nat): (r: nat) {
    if n == 0 then 0 else 2 * (First(lens, n - 1) + Count(lens, |lens|, n - 1))
  }

  /** The code of symbol i. */
  ghost function CodeOf(lens: seq<int>, i: nat): (r: nat)
    requires i < |lens| && lens[i] >= 0
  {
    First(lens, lens[i]) + Count(lens, i, lens[i])
  }

  ghost predicate Within(lens: seq<int>, minLen: nat, maxLen: nat) {
    && 1 <= minLen <= maxLen <= LONGEST && 0 < |lens| <= TABLE
    && forall i | 0 <= i < |lens| :: minLen <= lens[i] <= maxLen
  }

  lemma {:induction false} CountNone(s: seq<int>, n: nat, c: int)
    requires n <= |s| && forall x | 0 <= x < n :: s[x] != c
    ensures Count(s, n, c) == 0
  {
    if n > 0 {
      CountNone(s, n - 1, c);
    }
  }

  lemma {:induction false} FirstZero(lens: seq<int>, n: nat)
    requires forall x | 0 <= x < |lens| :: lens[x] >= n
    ensures First(lens, n) == 0
  {
    if n > 0 {
      FirstZero(lens, n - 1);
      CountNone(lens, |lens|, n - 1);
    }
  }

  // ---------- codes fit their lengths ----------

  /** What the symbols of at most n bits take of Kraft's sum. */
  ghost function Taken(lens: seq<int>, m: nat, n: int): (r: nat)
    requires m <= |lens|
  {
    if m == 0 then 0
    else Taken(lens, m - 1, n) + (if 0 <= lens[m - 1] <= n && n <= LONGEST then Pow2(LONGEST - lens[m - 1]) else 0)
  }

  /** What c codes of n bits take. */
  ghost function Share(c: nat, n: nat): (r: nat)
    requires n <= LONGEST
  {
    c * Pow2(LONGEST - n)
  }

  lemma ShareMore(c: nat, n: nat)
    requires n <= LONGEST
    ensures Share(c + 1, n) == Share(c, n) + Pow2(LONGEST - n) && Share(0, n) == 0
  {
    hide Pow2;
  }

  /** One bit more halves the share of a code. */
  lemma ShareNext(a: nat, c: nat, n: nat)
    requires n < LONGEST
    ensures Share(2 * a + c, n + 1) == Share(a, n) + Share(c, n + 1)
  {
    var p := Pow2(LONGEST - n - 1);
    assert Pow2(LONGEST - n) == 2 * p;
    hide Pow2;
    assert (2 * a + c) * p == a * (2 * p) + c * p;
  }

  lemma ShareFits(c: nat, n: nat)
    requires n <= LONGEST && Share(c, n) <= Pow2(LONGEST)
    ensures c <= Pow2(n)
  {
    hide Pow2;
    Pow2Add(n, LONGEST - n);
    if c > Pow2(n) {
      Scaled(c, Pow2(n), Pow2(LONGEST - n));
    }
  }

  lemma OneMore(a: nat, p: nat)
    ensures (a + 1) * p == a * p + p
  {
  }

  lemma Scaled(x: nat, y: nat, p: nat)
    requires x > y && p > 0
    ensures x * p > y * p
  {
  }

  lemma {:induction false} TakenNext(lens: seq<int>, m: nat, n: nat)
    requires m <= |lens| && n < LONGEST
    ensures Taken(lens, m, n + 1) == Taken(lens, m, n) + Share(Count(lens, m, n + 1), n + 1)
  {
    hide Pow2, Share;
    if m > 0 {
      TakenNext(lens, m - 1, n);
      ShareMore(Count(lens, m - 1, n + 1), n + 1);
    } else {
      ShareMore(0, n + 1);
    }
  }

  lemma {:induction false} TakenZero(lens: seq<int>, m: nat)
    requires m <= |lens| && forall x | 0 <= x < m :: lens[x] >= 1
    ensures Taken(lens, m, 0) == 0
  {
    if m > 0 {
      TakenZero(lens, m - 1);
    }
  }

  lemma {:induction false} TakenBound(lens: seq<int>, m: nat, n: int)
    requires m <= |lens|
    ensures Taken(lens, m, n) <= KraftSum(lens, m)
  {
    if m > 0 {
      TakenBound(lens, m - 1, n);
    }
  }

  lemma {:induction false} FirstTaken(lens: seq<int>, n: nat)
    requires n <= LONGEST && forall x | 0 <= x < |lens| :: lens[x] >= 1
    ensures Share(First(lens, n) + Count(lens, |lens|, n), n) == Taken(lens, |lens|, n)
  {
    hide Share, Pow2, Taken;
    var k := |lens|;
    if n == 0 {
      TakenZero(lens, k);
      CountNone(lens, k, 0);
      ShareMore(0, 0);
    } else {
      hide First, Count;
      FirstTaken(lens, n - 1);
      TakenNext(lens, k, n - 1);
      FirstNext(lens, n - 1);
      ShareNext(First(lens, n - 1) + Count(lens, k, n - 1), Count(lens, k, n), n - 1);
    }
  }

  lemma FirstNext(lens: seq<int>, n: nat)
    ensures First(lens, n + 1) == 2 * (First(lens, n) + Count(lens, |lens|, n))
  {
    hide Count;
  }

  /** Kraft's inequality leaves room for every code. */
  lemma CodesFit(lens: seq<int>, n: nat)
    requires ValidLengths(lens) && n <= LONGEST
    ensures First(lens, n) + Count(lens, |lens|, n) <= Pow2(n)
  {
    hide Pow2, Taken, Count, First, KraftSum, Share;
    FirstTaken(lens, n);
    TakenBound(lens, |lens|, n);
    ShareFits(First(lens, n) + Count(lens, |lens|, n), n);
  }

  lemma CodeFits(lens: seq<int>, i: nat)
    requires ValidLengths(lens) && i < |lens|
    ensures First(lens, lens[i]) <= CodeOf(lens, i) < First(lens, lens[i]) + Count(lens, |lens|, lens[i])
    ensures CodeOf(lens, i) < Pow2(lens[i])
  {
    CodesFit(lens, lens[i]);
    CountMonotone(lens, i, |lens|, lens[i]);
  }

  // ---------- decoding ----------

  ghost function BaseOf(lens: seq<int>, minLen: int, maxLen: int, n: nat): int {
    if minLen <= n <= maxLen then First(lens, n) - Below(lens, |lens|, n) else Below(lens, |lens|, n)
  }

  /** What BZ2_hbCreateDecodeTables leaves in limit, base and perm. */
  ghost predicate Tables(lens: seq<int>, minLen: nat, maxLen: nat, limit: seq<int>, base: seq<int>, perm: seq<int>) {
    && Within(lens, minLen, maxLen)
    && |limit| == |base| == |perm| == TABLE
    && (forall n | 0 <= n < CODELEN ::
          limit[n] == if minLen <= n <= maxLen then First(lens, n) + Count(lens, |lens|, n) - 1 else 0)
    && (forall n | 0 <= n < CODELEN :: base[n] == BaseOf(lens, minLen, maxLen, n))
    && (forall i | 0 <= i < |lens| :: PermAt(lens, perm, i))
  }

  ghost predicate PermAt(lens: seq<int>, perm: seq<int>, i: nat)
    requires i < |lens|
  {
    Place(lens, i) < |perm| && perm[Place(lens, i)] == i
  }

  lemma {:induction false} FirstGrows(lens: seq<int>, n: nat, m: nat)
    requires n < m
    ensures First(lens, m) >= (First(lens, n) + Count(lens, |lens|, n)) * Pow2(m - n)
  {
    var x := First(lens, n) + Count(lens, |lens|, n);
    if m == n + 1 {
      assert Pow2(1) == 2 && First(lens, m) == 2 * x;
    } else {
      FirstGrows(lens, n, m - 1);
      Doubled(x, Pow2(m - 1 - n));
    }
  }

  lemma QuotientAtLeast(c: nat, x: nat, p: nat)
    requires p > 0 && c >= x * p
    ensures c / p >= x
  {
    var q := c / p;
    assert c == q * p + c % p && c % p < p;
    if q < x {
      MulMonotone(q + 1, x, p);
      OneMore(q, p);
    }
  }

  lemma MulMonotone(a: nat, b: nat, p: nat)
    requires a <= b
    ensures a * p <= b * p
  {
  }

  /** A proper prefix of a code lies beyond all codes of its length. */
  lemma PrefixBeyond(lens: seq<int>, i: nat, n: nat)
    requires ValidLengths(lens) && i < |lens| && n < lens[i]
    ensures CodeOf(lens, i) / Pow2(lens[i] - n) >= First(lens, n) + Count(lens, |lens|, n)
  {
    hide First, Below, Count;
    CodeFits(lens, i);
    FirstGrows(lens, n, lens[i]);
    QuotientAtLeast(CodeOf(lens, i), First(lens, n) + Count(lens, |lens|, n), Pow2(lens[i] - n));
  }

  /** So it is not taken for a code. */
  lemma PrefixGoesOn(lens: seq<int>, minLen: nat, maxLen: nat, limit: seq<int>, base: seq<int>, perm: seq<int>,
                     i: nat, n: nat)
    requires ValidLengths(lens) && Tables(lens, minLen, maxLen, limit, base, perm)
    requires i < |lens| && minLen <= n < lens[i]
    ensures CodeOf(lens, i) / Pow2(lens[i] - n) > limit[n]
  {
    hide PermAt, First, Below, Count;
    PrefixBeyond(lens, i, n);
  }

  /** The whole code is recognised and leads to its symbol. */
  lemma CodeFound(lens: seq<int>, minLen: nat, maxLen: nat, limit: seq<int>, base: seq<int>, perm: seq<int>, i: nat)
    requires ValidLengths(lens) && Tables(lens, minLen, maxLen, limit, base, perm) && i < |lens|
    ensures minLen <= lens[i] <= maxLen && CodeOf(lens, i) <= limit[lens[i]]
    ensures 0 <= CodeOf(lens, i) - base[lens[i]] < TABLE && perm[CodeOf(lens, i) - base[lens[i]]] == i
  {
    hide First, Below, Count;
    CodeFits(lens, i);
    assert PermAt(lens, perm, i);
  }

  // ---------- BZ2_hbAssignCodes ----------

  /** Number the symbols of length n, starting at vec. */
  method AssignLength(code: array<int>, length: array<int>, n: nat, vec: nat, alphaSize: nat, ghost lens: seq<int>)
    returns (vec': nat)
    requires code != length && alphaSize <= code.Length && alphaSize <= length.Length && lens == length[..alphaSize]
    modifies code
    ensures vec' == vec + Count(lens, alphaSize, n)
    ensures forall i | 0 <= i < alphaSize && lens[i] == n :: code[i] == vec + Count(lens, i, n)
    ensures forall i | 0 <= i < code.Length && !(i < alphaSize && lens[i] == n) :: code[i] == old(code[i])
  {
    vec' := vec;
    for i := 0 to alphaSize
      invariant lens == length[..alphaSize] && vec' == vec + Count(lens, i, n)
      invariant forall x | 0 <= x < i && lens[x] == n :: code[x] == vec + Count(lens, x, n)
      invariant forall x | 0 <= x < code.Length && !(x < i && lens[x] == n) :: code[x] == old(code[x])
    {
      assert lens[i] == length[i];
      if length[i] == n {
        code[i] := vec';
        vec' := vec' + 1;
      }
    }
  }

  /** BZ2_hbAssignCodes. */
  method AssignCodes(code: array<int>, length: array<int>, minLen: nat, maxLen: nat, alphaSize: nat)
    requires code != length && alphaSize <= code.Length && alphaSize <= length.Length
    requires Within(length[..alphaSize], minLen, maxLen)
    modifies code
    ensures forall i | 0 <= i < alphaSize :: code[i] == CodeOf(length[..alphaSize], i)
  {
    ghost var lens := length[..alphaSize];
    hide Count;
    FirstZero(lens, minLen);
    var vec := 0;
    for n := minLen to maxLen + 1
      invariant lens == length[..alphaSize] && vec == First(lens, n)
      invariant forall i | 0 <= i < alphaSize && lens[i] < n :: code[i] == CodeOf(lens, i)
    {
      vec := AssignLength(code, length, n, vec, alphaSize, lens);
      assert First(lens, n + 1) == 2 * (First(lens, n) + Count(lens, alphaSize, n));
      vec := 2 * vec;
    }
  }

  // ---------- BZ2_hbCreateDecodeTables ----------

  /** The symbols shorter than n, and of the first m symbols those of length n, are in perm. */
  ghost predicate Listed(lens: seq<int>, perm: seq<int>, n: int, m: nat) {
    forall i | 0 <= i < |lens| && (lens[i] < n || (lens[i] == n && i < m)) :: PermAt(lens, perm, i)
  }

  lemma ListedPlace(lens: seq<int>, i: nat, n: int, m: nat)
    requires i < |lens| && m <= |lens| && (lens[i] < n || (lens[i] == n && i < m))
    ensures Place(lens, i) < Below(lens, |lens|, n) + Count(lens, m, n)
  {
    CountMonotone(lens, i, |lens|, lens[i]);
    BelowNext(lens, |lens|, lens[i]);
    if lens[i] < n {
      BelowMonotone(lens, |lens|, lens[i] + 1, n);
    } else {
      CountMonotone(lens, i, m, n);
    }
  }

  lemma ListedStep(lens: seq<int>, perm: seq<int>, n: int, m: nat)
    requires m < |lens| && Listed(lens, perm, n, m) && |lens| <= |perm|
    ensures lens[m] == n ==> Place(lens, m) < |perm| && Listed(lens, perm[Place(lens, m) := m], n, m + 1)
    ensures lens[m] != n ==> Listed(lens, perm, n, m + 1)
  {
    if lens[m] == n {
      CountMonotone(lens, m, |lens|, n);
      BelowNext(lens, |lens|, n);
      var p := perm[Place(lens, m) := m];
      forall i | 0 <= i < |lens| && (lens[i] < n || (lens[i] == n && i < m + 1))
        ensures PermAt(lens, p, i)
      {
        if i != m {
          assert PermAt(lens, perm, i);
          ListedPlace(lens, i, n, m);
        }
      }
    }
  }

  /** Append the symbols of length n to perm. */
  method ListLength(perm: array<int>, length: array<int>, n: nat, pp: nat, alphaSize: nat, ghost lens: seq<int>)
    returns (pp': nat)
    requires perm != length && alphaSize <= perm.Length && alphaSize <= length.Length && lens == length[..alphaSize]
    requires pp == Below(lens, alphaSize, n) && Listed(lens, perm[..], n, 0)
    modifies perm
    ensures pp' == Below(lens, alphaSize, n + 1)
    ensures Listed(lens, perm[..], n + 1, 0)
  {
    hide Listed, Below;
    pp' := pp;
    for j := 0 to alphaSize
      invariant lens == length[..alphaSize] && pp' == pp + Count(lens, j, n) && Listed(lens, perm[..], n, j)
    {
      ghost var p := perm[..];
      ListedStep(lens, p, n, j);
      assert lens[j] == length[j];
      if length[j] == n {
        perm[pp'] := j;
        assert perm[..] == p[pp' := j];
        pp' := pp' + 1;
      }
    }
    BelowNext(lens, alphaSize, n);
    ListedAll(lens, perm[..], n);
  }

  lemma ListedAll(lens: seq<int>, perm: seq<int>, n: int)
    requires Listed(lens, perm, n, |lens|)
    ensures Listed(lens, perm, n + 1, 0)
  {
  }

  lemma ListedNone(lens: seq<int>, perm: seq<int>, n: int)
    requires forall i | 0 <= i < |lens| :: lens[i] >= n
    ensures Listed(lens, perm, n, 0)
  {
  }

  method MakePerm(perm: array<int>, length: array<int>, minLen: nat, maxLen: nat, alphaSize: nat)
    requires perm != length && alphaSize <= perm.Length && alphaSize <= length.Length
    requires Within(length[..alphaSize], minLen, maxLen)
    modifies perm
    ensures forall i | 0 <= i < alphaSize :: PermAt(length[..alphaSize], perm[..], i)
  {
    ghost var lens := length[..alphaSize];
    BelowNone(lens, alphaSize, minLen);
    ListedNone(lens, perm[..], minLen);
    hide Listed, Below;
    var pp := 0;
    for i := minLen to maxLen + 1
      invariant lens == length[..alphaSize] && pp == Below(lens, alphaSize, i) && Listed(lens, perm[..], i, 0)
    {
      pp := ListLength(perm, length, i, pp, alphaSize, lens);
    }
    AllListed(lens, perm[..], maxLen + 1);
  }

  lemma AllListed(lens: seq<int>, perm: seq<int>, n: int)
    requires Listed(lens, perm, n, 0) && forall i | 0 <= i < |lens| :: lens[i] < n
    ensures forall i | 0 <= i < |lens| :: PermAt(lens, perm, i)
  {
  }

  /** base[i] counts the symbols shorter than i. */
  method CountBase(base: array<int>, length: array<int>, alphaSize: nat, ghost lens: seq<int>)
    requires base != length && base.Length == TABLE && alphaSize <= length.Length && lens == length[..alphaSize]
    requires forall i | 0 <= i < alphaSize :: 1 <= lens[i] <= LONGEST
    modifies base
    ensures forall i | 0 <= i < CODELEN :: base[i] == Below(lens, alphaSize, i)
  {
    hide Below;
    for i := 0 to CODELEN
      invariant forall x | 0 <= x < i :: base[x] == 0
    {
      base[i] := 0;
    }
    for i := 0 to alphaSize
      invariant lens == length[..alphaSize]
      invariant forall x | 0 <= x < CODELEN :: base[x] == Count(lens, i, x - 1)
    {
      assert lens[i] == length[i];
      base[length[i] + 1] := base[length[i] + 1] + 1;
    }
    AccumulateBase(base, length, alphaSize, lens);
  }

  method AccumulateBase(base: array<int>, length: array<int>, alphaSize: nat, ghost lens: seq<int>)
    requires base != length && base.Length == TABLE && alphaSize == |lens|
    requires forall i | 0 <= i < alphaSize :: 1 <= lens[i] <= LONGEST
    requires forall i | 0 <= i < CODELEN :: base[i] == Count(lens, alphaSize, i - 1)
    modifies base
    ensures forall i | 0 <= i < CODELEN :: base[i] == Below(lens, alphaSize, i)
  {
    BelowNone(lens, alphaSize, -1);
    BelowNext(lens, alphaSize, -1);
    hide Below, Count;
    for i := 1 to CODELEN
      invariant forall x | 0 <= x < i :: base[x] == Below(lens, alphaSize, x)
      invariant forall x | i <= x < CODELEN :: base[x] == Count(lens, alphaSize, x - 1)
    {
      BelowNext(lens, alphaSize, i - 1);
      base[i] := base[i] + base[i - 1];
    }
  }

  method ClearLimit(limit: array<int>)
    requires limit.Length == TABLE
    modifies limit
    ensures forall x | 0 <= x < CODELEN :: limit[x] == 0
  {
    for i := 0 to CODELEN
      invariant forall x | 0 <= x < i :: limit[x] == 0
    {
      limit[i] := 0;
    }
  }

  method MakeLimit(limit: array<int>, base: array<int>, minLen: nat, maxLen: nat, ghost lens: seq<int>)
    requires limit != base && limit.Length == base.Length == TABLE && Within(lens, minLen, maxLen)
    requires forall i | 0 <= i < CODELEN :: base[i] == Below(lens, |lens|, i)
    modifies limit
    ensures forall n | 0 <= n < CODELEN ::
      limit[n] == if minLen <= n <= maxLen then First(lens, n) + Count(lens, |lens|, n) - 1 else 0
  {
    ClearLimit(limit);
    FirstZero(lens, minLen);
    hide Below, Count, First;
    var vec := 0;
    for i := minLen to maxLen + 1
      invariant vec == First(lens, i)
      invariant forall x | 0 <= x < CODELEN :: base[x] == Below(lens, |lens|, x)
      invariant forall n | 0 <= n < CODELEN ::
        limit[n] == if minLen <= n < i then First(lens, n) + Count(lens, |lens|, n) - 1 else 0
    {
      BelowNext(lens, |lens|, i);
      vec := vec + (base[i + 1] - base[i]);
      limit[i] := vec - 1;
      FirstNext(lens, i);
      vec := 2 * vec;
    }
  }

  lemma BaseStep(lens: seq<int>, base: seq<int>, minLen: nat, i: nat, limit: int)
    requires |base| == TABLE && minLen < i < CODELEN
    requires forall n | 0 <= n < CODELEN :: base[n] == BaseOf(lens, minLen, i - 1, n)
    requires limit == First(lens, i - 1) + Count(lens, |lens|, i - 1) - 1
    ensures forall n | 0 <= n < CODELEN :: base[i := (limit + 1) * 2 - base[i]][n] == BaseOf(lens, minLen, i, n)
  {
    hide Count, Below;
  }

  method MakeBase(limit: array<int>, base: array<int>, minLen: nat, maxLen: nat, ghost lens: seq<int>)
    requires limit != base && limit.Length == base.Length == TABLE && Within(lens, minLen, maxLen)
    requires forall i | 0 <= i < CODELEN :: base[i] == Below(lens, |lens|, i)
    requires forall n | minLen <= n <= maxLen :: limit[n] == First(lens, n) + Count(lens, |lens|, n) - 1
    modifies base
    ensures forall n | 0 <= n < CODELEN :: base[n] == BaseOf(lens, minLen, maxLen, n)
  {
    FirstZero(lens, minLen);
    BelowNone(lens, |lens|, minLen);
    assert forall n | 0 <= n < CODELEN :: base[n] == BaseOf(lens, minLen, minLen, n);
    hide Below, Count, First, BaseOf;
    ghost var lim := limit[..];
    for i := minLen + 1 to maxLen + 1
      invariant limit[..] == lim
      invariant forall n | 0 <= n < CODELEN :: base[n] == BaseOf(lens, minLen, i - 1, n)
    {
      ghost var b := base[..];
      assert limit[i - 1] == lim[i - 1] == First(lens, i - 1) + Count(lens, |lens|, i - 1) - 1;
      BaseStep(lens, b, minLen, i, limit[i - 1]);
      base[i] := (limit[i - 1] + 1) * 2 - base[i];
      assert base[..] == b[i := (lim[i - 1] + 1) * 2 - b[i]];
      assert forall n | 0 <= n < CODELEN :: base[n] == base[..][n];
    }
  }

  /** BZ2_hbCreateDecodeTables. */
  method CreateDecodeTables(limit: array<int>, base: array<int>, perm: array<int>, length: array<int>,
                            minLen: nat, maxLen: nat, alphaSize: nat)
    requires limit != base && limit != perm && base != perm && length != limit && length != base && length != perm
    requires limit.Length == base.Length == perm.Length == TABLE && alphaSize <= length.Length
    requires Within(length[..alphaSize], minLen, maxLen)
    modifies limit, base, perm
    ensures Tables(length[..alphaSize], minLen, maxLen, limit[..], base[..], perm[..])
  {
    hide First, Count, Below, PermAt;
    ghost var lens := length[..alphaSize];
    MakePerm(perm, length, minLen, maxLen, alphaSize);
    ghost var p := perm[..];
    CountBase(base, length, alphaSize, lens);
    MakeLimit(limit, base, minLen, maxLen, lens);
    MakeBase(limit, base, minLen, maxLen, lens);
    assert perm[..] == p && length[..alphaSize] == lens;
  }
}
