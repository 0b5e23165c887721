/** Numbers as bits, most significant first, and 32-bit words with the operations C has on them. */
module Words {
  import opened Bits

  /** The low n bits of v. */
  function Bin(v: nat, n: nat): (r: seq<bool>)
    ensures |r| == n
  {
    if n == 0 then [] else Bin(v / 2, n - 1) + [v % 2 == 1]
  }

  function Val(s: seq<bool>): (r: nat)
  {
    if s == [] then 0 else 2 * Val(s[..|s| - 1]) + (if s[|s| - 1] then 1 else 0)
  }

  lemma {:induction false} ValOfBin(v: nat, n: nat)
    requires v < Pow2(n)
    ensures Val(Bin(v, n)) == v
  {
    if n > 0 {
      ValOfBin(v / 2, n - 1);
      assert Bin(v, n)[..n - 1] == Bin(v / 2, n - 1);
    }
  }

  lemma {:induction false} BinOfVal(s: seq<bool>)
    ensures Val(s) < Pow2(|s|) && Bin(Val(s), |s|) == s
  {
    if s != [] {
      BinOfVal(s[..|s| - 1]);
      assert s == s[..|s| - 1] + [s[|s| - 1]];
    }
  }

  lemma {:induction false} ValConcat(s: seq<bool>, r: seq<bool>)
    ensures Val(s + r) == Val(s) * Pow2(|r|) + Val(r)
  {
    if r == [] {
      assert s + r == s;
    } else {
      var r' := r[..|r| - 1];
      ValConcat(s, r');
      assert (s + r)[..|s + r| - 1] == s + r';
      Doubled(Val(s), Pow2(|r'|));
    }
  }

  lemma ValAppend(s: seq<bool>, b: bool)
    ensures Val(s + [b]) == 2 * Val(s) + (if b then 1 else 0)
  {
    assert (s + [b])[..|s|] == s;
  }

  /** Leading zeros do not count. */
  lemma {:induction false} LeadingZeros(v: nat, n: nat, k: nat)
    requires v < Pow2(k) && k <= n
    ensures Bin(v, n) == Zeros(n - k) + Bin(v, k)
    decreases k
  {
    if k == 0 {
      BinZero(n);
    } else {
      LeadingZeros(v / 2, n - 1, k - 1);
    }
  }

  function Zeros(n: nat): (r: seq<bool>)
    ensures |r| == n && forall i | 0 <= i < n :: !r[i]
  {
    seq(n, _ => false)
  }

  lemma {:induction false} BinZero(n: nat)
    ensures Bin(0, n) == Zeros(n)
  {
    if n > 0 {
      BinZero(n - 1);
    }
  }

  /** The bits of a byte string. */
  function BytesBits(s: seq<int>): (r: seq<bool>)
    requires forall i | 0 <= i < |s| :: 0 <= s[i] < 256
  {
    if s == [] then [] else BytesBits(s[..|s| - 1]) + Bin(s[|s| - 1], 8)
  }

  lemma BytesBitsNext(s: seq<int>, c: int)
    requires (forall i | 0 <= i < |s| :: 0 <= s[i] < 256) && 0 <= c < 256
    ensures BytesBits(s + [c]) == BytesBits(s) + Bin(c, 8)
  {
    assert (s + [c])[..|s|] == s;
  }

  lemma {:induction false} BytesBitsConcat(s: seq<int>, r: seq<int>)
    requires (forall i | 0 <= i < |s| :: 0 <= s[i] < 256) && forall i | 0 <= i < |r| :: 0 <= r[i] < 256
    ensures BytesBits(s + r) == BytesBits(s) + BytesBits(r)
    decreases |r|
  {
    if r == [] {
      assert s + r == s;
    } else {
      var r', c := r[..|r| - 1], r[|r| - 1];
      BytesBitsConcat(s, r');
      assert s + r == (s + r') + [c];
      BytesBitsNext(s + r', c);
    }
  }

  lemma {:induction false} BytesBitsLength(s: seq<int>)
    requires forall i | 0 <= i < |s| :: 0 <= s[i] < 256
    ensures |BytesBits(s)| == 8 * |s|
  {
    if s != [] {
      BytesBitsLength(s[..|s| - 1]);
    }
  }

  // ---------- UInt32 ----------

  type Word = w: seq<bool> | |w| == 32 witness seq(32, _ => false)

  /** w << n. */
  function Shl(w: Word, n: nat): Word
    requires n <= 32
  {
    w[n..] + Zeros(n)
  }

  /** w >> n. */
  function Shr(w: Word, n: nat): Word
    requires n <= 32
  {
    Zeros(n) + w[..32 - n]
  }

  /** a | b. */
  function OrWord(a: Word, b: Word): Word {
    seq(32, i requires 0 <= i < 32 => a[i] || b[i])
  }

  /** w & ((1 << n) - 1). */
  function LowBits(w: Word, n: nat): Word
    requires n <= 32
  {
    Zeros(32 - n) + w[32 - n..]
  }

  lemma {:induction false} ZerosBefore(k: nat, s: seq<bool>)
    ensures Val(Zeros(k) + s) == Val(s)
    decreases k + |s|
  {
    if s != [] {
      ZerosBefore(k, s[..|s| - 1]);
      assert (Zeros(k) + s)[..k + |s| - 1] == Zeros(k) + s[..|s| - 1];
    } else if k > 0 {
      ZerosBefore(k - 1, s);
      assert Zeros(k) + s == Zeros(k);
      assert Zeros(k)[..k - 1] == Zeros(k - 1) + s;
    }
  }

  lemma ValOfLow(s: seq<bool>)
    requires |s| <= 32
    ensures Val(Zeros(32 - |s|) + s) == Val(s)
  {
    ZerosBefore(32 - |s|, s);
  }
}
