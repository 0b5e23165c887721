/** How often a value, or values below it, occur among the first n entries of a sequence. */
module Counting {

  ghost function Count(s: seq<int>, n: nat, c: int): (r: nat)
    requires n <= |s|
    ensures r <= n
  {
    if n == 0 then 0 else Count(s, n - 1, c) + (if s[n - 1] == c then 1 else 0)
  }

  ghost function Below(s: seq<int>, n: nat, c: int): (r: nat)
    requires n <= |s|
    ensures r <= n
  {
    if n == 0 then 0 else Below(s, n - 1, c) + (if s[n - 1] < c then 1 else 0)
  }

  lemma {:induction false} BelowNext(s: seq<int>, n: nat, c: int)
    requires n <= |s|
    ensures Below(s, n, c + 1) == Below(s, n, c) + Count(s, n, c)
  {
    if n > 0 {
      BelowNext(s, n - 1, c);
    }
  }

  lemma {:induction false} BelowNone(s: seq<int>, n: nat, c: int)
    requires n <= |s| && forall x | 0 <= x < n :: s[x] >= c
    ensures Below(s, n, c) == 0
  {
    if n > 0 {
      BelowNone(s, n - 1, c);
    }
  }

  lemma {:induction false} BelowAll(s: seq<int>, n: nat, c: int)
    requires n <= |s| && forall x | 0 <= x < n :: s[x] < c
    ensures Below(s, n, c) == n
  {
    if n > 0 {
      BelowAll(s, n - 1, c);
    }
  }

  lemma {:induction false} BelowMonotone(s: seq<int>, n: nat, c: int, d: int)
    requires n <= |s| && c <= d
    ensures Below(s, n, c) <= Below(s, n, d)
  {
    if n > 0 {
      BelowMonotone(s, n - 1, c, d);
    }
  }

  lemma {:induction false} CountMonotone(s: seq<int>, m: nat, n: nat, c: int)
    requires m <= n <= |s|
    ensures Count(s, m, c) <= Count(s, n, c)
    ensures m < n && s[m] == c ==> Count(s, m, c) < Count(s, n, c)
  {
    if m < n {
      CountMonotone(s, m, n - 1, c);
      if m == n - 1 {
      } else {
        assert Count(s, n, c) >= Count(s, n - 1, c);
      }
    }
  }

  /** The bucket of value c in sorted order is [Below(c), Below(c + 1)); every place belongs to one bucket. */
  lemma {:induction false} BucketOf(s: seq<int>, n: nat, x: nat, size: nat) returns (c: nat)
    requires n <= |s| && x < n && forall y | 0 <= y < n :: 0 <= s[y] < size
    ensures c < size && Below(s, n, c) <= x < Below(s, n, c + 1)
  {
    c := 0;
    BelowNone(s, n, 0);
    BelowAll(s, n, size);
    while !(x < Below(s, n, c + 1))
      invariant 0 <= c < size && Below(s, n, c) <= x
      decreases size - c
    {
      c := c + 1;
    }
  }
}
