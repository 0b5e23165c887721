/** The bit packer of compress.c and the bit fetching of decompress.c. */
module BitStream {
  import opened Bits
  import opened Words

  /** The fields of EState bits are written through. */
  class BitWriter {
    var bsBuff: Word
    var bsLive: nat
    var zbits: seq<int>         // the first numZ bytes of the output area
    ghost var taken: seq<int>   // bytes that have been there before

    ghost predicate Valid()
      reads this
    {
      && bsLive <= 32
      && (forall i | 0 <= i < |taken| :: 0 <= taken[i] < 256)
      && (forall i | 0 <= i < |zbits| :: 0 <= zbits[i] < 256)
      && forall i | bsLive <= i < 32 :: !bsBuff[i]
    }

    /** All bits written so far, those still in the buffer included. */
    ghost function Written(): seq<bool>
      requires Valid()
      reads this
    {
      BytesBits(taken + zbits) + bsBuff[..bsLive]
    }

    lemma WrittenLength()
      requires Valid()
      ensures |Written()| == 8 * (|taken| + |zbits|) + bsLive && bsLive <= 32
    {
      BytesBitsLength(taken + zbits);
    }

    /** BZ2_bsInitWrite. */
    constructor ()
      ensures Valid() && zbits == taken == [] && bsLive == 0 && Written() == []
    {
      bsBuff := seq(32, _ => false);
      bsLive := 0;
      zbits := [];
      taken := [];
    }

    /** The output area is used again once its bytes have been handed over. */
    method Reuse()
      requires Valid()
      modifies this
      ensures Valid() && Written() == old(Written())
      ensures zbits == [] && taken == old(taken + zbits)
      ensures bsLive == old(bsLive)
    {
      assert taken + zbits + [] == taken + zbits;
      taken := taken + zbits;
      zbits := [];
    }

    method PutByte()
      requires Valid() && bsLive > 0
      modifies this
      ensures Valid() && bsLive == if old(bsLive) >= 8 then old(bsLive) - 8 else 0
      ensures |zbits| == |old(zbits)| + 1 && zbits[..|old(zbits)|] == old(zbits) && taken == old(taken)
      ensures old(bsLive) >= 8 ==> Written() == old(Written())
      ensures old(bsLive) < 8 ==> Written() == old(Written()) + Zeros(8 - old(bsLive))
    {
      hide BytesBits, Val, Bin, Shr;
      ghost var was := bsBuff[..bsLive];
      ghost var byte := bsBuff[..8];
      ShiftedByte(bsBuff);
      BytesBitsNext(taken + zbits, Val(Shr(bsBuff, 24)));
      assert taken + (zbits + [Val(Shr(bsBuff, 24))]) == taken + zbits + [Val(Shr(bsBuff, 24))];
      zbits := zbits + [Val(Shr(bsBuff, 24))];
      bsBuff := Shl(bsBuff, 8);
      bsLive := if bsLive >= 8 then bsLive - 8 else 0;
      if |was| >= 8 {
        assert was == byte + bsBuff[..bsLive];
      } else {
        assert byte == was + Zeros(8 - |was|);
        assert bsBuff[..bsLive] == [];
      }
    }

    /** bsW: the low n bits of v. */
    method Put(n: nat, v: nat)
      requires Valid() && n <= 25 && v < Pow2(n)
      modifies this
      ensures Valid() && Written() == old(Written()) + Bin(v, n) && taken == old(taken)
    {
      hide BytesBits, Val, Bin, Shl, OrWord, Pow2;
      while bsLive >= 8
        invariant Valid() && Written() == old(Written()) && taken == old(taken)
        decreases bsLive
      {
        PutByte();
      }
      ghost var was, l := bsBuff, bsLive;
      bsBuff := OrWord(bsBuff, Shl(Bin(v, 32), 32 - bsLive - n));
      bsLive := bsLive + n;
      PlacedBits(was, l, n, v);
    }

    /** bsFinishWrite. */
    method Finish()
      requires Valid()
      modifies this
      ensures Valid() && bsLive == 0 && taken == old(taken)
      ensures exists k: nat :: k < 8 && Written() == old(Written()) + Zeros(k)
    {
      ghost var k: nat := 0;
      assert Written() == Written() + Zeros(0);
      while bsLive > 0
        invariant taken == old(taken)
        invariant Valid() && k < 8 && Written() == old(Written()) + Zeros(k) && (bsLive > 0 ==> k == 0)
        decreases bsLive
      {
        if bsLive < 8 {
          k := 8 - bsLive;
        }
        PutByte();
        assert Zeros(0) + Zeros(k) == Zeros(k);
      }
    }
  }

  lemma ShiftedByte(w: Word)
    ensures 0 <= Val(Shr(w, 24)) < 256 && Bin(Val(Shr(w, 24)), 8) == w[..8]
  {
    assert Shr(w, 24) == Zeros(32 - 8) + w[..8];
    ValOfLow(w[..8]);
    BinOfVal(w[..8]);
    Pow2Values();
  }

  /** Or-ing the bits of v in behind the first l. */
  lemma PlacedBits(w: Word, l: nat, n: nat, v: nat)
    requires l < 8 && n <= 25 - 0 && l + n <= 32 && v < Pow2(n)
    requires forall i | l <= i < 32 :: !w[i]
    ensures var r := OrWord(w, Shl(Bin(v, 32), 32 - l - n));
      r[..l + n] == w[..l] + Bin(v, n) && forall i | l + n <= i < 32 :: !r[i]
  {
    LeadingZeros(v, 32, n);
    var s := Shl(Bin(v, 32), 32 - l - n);
    assert s == Zeros(l) + Bin(v, n) + Zeros(32 - l - n);
  }

  // ---------- reading ----------

  /** The bit buffer of DState, and the input still to come. */
  class BitReader {
    var bsBuff: Word
    var bsLive: nat
    var next_in: seq<int>

    ghost predicate Valid()
      reads this
    {
      bsLive <= 32 && forall i | 0 <= i < |next_in| :: 0 <= next_in[i] < 256
    }

    constructor ()
      ensures Valid() && Held() == [] && next_in == []
    {
      bsBuff := seq(32, _ => false);
      bsLive := 0;
      next_in := [];
    }

    /** Bits fetched but not yet used. */
    ghost function Held(): seq<bool>
      requires Valid()
      reads this
    {
      bsBuff[32 - bsLive..]
    }

    /**
     * GET_BITS: n bits if they can be had, fetching bytes as needed; otherwise the call is suspended when the input is
     * used up, with everything fetched kept.
     */
    method Get(n: nat) returns (ok: bool, v: nat, ghost used: nat)
      requires Valid() && n <= 24
      modifies this
      ensures Valid() && used <= |old(next_in)| && next_in == old(next_in)[used..]
      ensures var got := old(Held()) + BytesBits(old(next_in)[..used]);
        if ok then n <= |got| && v == Val(got[..n]) && Held() == got[n..] else |got| < n && Held() == got && next_in == []
    {
      hide BytesBits, Val, Bin, OrWord, Shl, Shr, LowBits;
      ghost var input, held := next_in, Held();
      used := 0;
      NoBytes(input);
      while true
        invariant Valid() && 0 <= used <= |input| && next_in == input[used..]
        invariant forall i | 0 <= i < |input| :: 0 <= input[i] < 256
        invariant Held() == held + BytesBits(input[..used])
        decreases |input| - used
      {
        if bsLive >= n {
          v := Val(LowBits(Shr(bsBuff, bsLive - n), n));
          FetchedBits(bsBuff, bsLive, n);
          bsLive := bsLive - n;
          ok := true;
          break;
        }
        if |next_in| == 0 {
          ok, v := false, 0;
          break;
        }
        NextByte(bsBuff, bsLive, next_in[0]);
        MoreBytes(input, used, held, Held(), next_in[0]);
        bsBuff := OrWord(Shl(bsBuff, 8), Bin(next_in[0], 32));
        bsLive := bsLive + 8;
        next_in := next_in[1..];
        used := used + 1;
      }
    }
  }

  lemma NoBytes(input: seq<int>)
    ensures input[..0] == [] && BytesBits([]) == []
  {
  }

  lemma MoreBytes(input: seq<int>, used: nat, held: seq<bool>, now: seq<bool>, c: int)
    requires (forall i | 0 <= i < |input| :: 0 <= input[i] < 256) && used < |input| && c == input[used]
    requires now == held + BytesBits(input[..used])
    ensures now + Bin(c, 8) == held + BytesBits(input[..used + 1])
  {
    assert input[..used + 1] == input[..used] + [c];
    BytesBitsNext(input[..used], c);
  }

  lemma FetchedBits(w: Word, live: nat, n: nat)
    requires n <= live <= 32
    ensures Val(LowBits(Shr(w, live - n), n)) == Val(w[32 - live..][..n])
    ensures w[32 - live..][n..] == w[32 - (live - n)..]
  {
    var s := w[32 - live..][..n];
    assert LowBits(Shr(w, live - n), n) == Zeros(32 - n) + s;
    ValOfLow(s);
  }

  lemma NextByte(w: Word, live: nat, c: int)
    requires live < 24 && 0 <= c < 256
    ensures OrWord(Shl(w, 8), Bin(c, 32))[32 - (live + 8)..] == w[32 - live..] + Bin(c, 8)
  {
    Pow2Values();
    LeadingZeros(c, 32, 8);
    assert OrWord(Shl(w, 8), Bin(c, 32)) == w[8..] + Bin(c, 8);
  }
}
