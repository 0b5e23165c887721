/** The block checksum: the table is whatever it is, only the way bytes are folded in matters here. */
module Crc {
  import opened Basics

  // ---------- a byte as a word ----------

  function Bit(c: int): (b: bv32)
    ensures b <= 1
  {
    if c % 2 == 1 then 1 else 0
  }

  function Packed(a: bv32, b: bv32, c: bv32, d: bv32): (w: bv32)
    ensures a <= 1 && b <= 1 && c <= 1 && d <= 1 ==> w < 16
  {
    (a << 3) | (b << 2) | (c << 1) | d
  }

  function Nibble(c: int): (w: bv32)
    ensures w < 16
  {
    Packed(Bit(c / 8), Bit(c / 4), Bit(c / 2), Bit(c))
  }

  /** (UChar)c, bit by bit. */
  function Word(c: int): (w: bv32)
    ensures w < 256
  {
    (Nibble(c / 16) << 4) | Nibble(c)
  }

  lemma PackedTells(a: bv32, b: bv32, c: bv32, d: bv32, a': bv32, b': bv32, c': bv32, d': bv32)
    requires a <= 1 && b <= 1 && c <= 1 && d <= 1 && a' <= 1 && b' <= 1 && c' <= 1 && d' <= 1
    requires Packed(a, b, c, d) == Packed(a', b', c', d')
    ensures a == a' && b == b' && c == c' && d == d'
  {
  }

  lemma BitTells(c: int, d: int)
    requires Bit(c) == Bit(d)
    ensures c % 2 == d % 2
  {
  }

  lemma FourBits(c: int)
    ensures c % 4 == c / 2 % 2 * 2 + c % 2
    ensures c % 16 == c / 4 % 4 * 4 + c % 4
  {
  }

  lemma SameBits(c: int, d: int)
    requires c % 2 == d % 2 && c / 2 % 2 == d / 2 % 2 && c / 4 % 2 == d / 4 % 2 && c / 8 % 2 == d / 8 % 2
    ensures c % 16 == d % 16
  {
    FourBits(c);
    FourBits(d);
    FourBits(c / 4);
    FourBits(d / 4);
    assert c / 8 == c / 4 / 2 && d / 8 == d / 4 / 2;
  }

  lemma NibbleTells(c: int, d: int)
    requires Nibble(c) == Nibble(d)
    ensures c % 16 == d % 16
  {
    hide Packed, Bit;
    PackedTells(Bit(c / 8), Bit(c / 4), Bit(c / 2), Bit(c), Bit(d / 8), Bit(d / 4), Bit(d / 2), Bit(d));
    BitTells(c, d);
    BitTells(c / 2, d / 2);
    BitTells(c / 4, d / 4);
    BitTells(c / 8, d / 8);
    hide *;
    SameBits(c, d);
  }

  lemma NibblesTell(h: bv32, l: bv32, h': bv32, l': bv32)
    requires h < 16 && l < 16 && h' < 16 && l' < 16 && (h << 4) | l == (h' << 4) | l'
    ensures h == h' && l == l'
  {
  }

  lemma WordTells(c: int, d: int)
    requires 0 <= c < 256 && 0 <= d < 256 && Word(c) == Word(d)
    ensures c == d
  {
    hide Nibble;
    NibblesTell(Nibble(c / 16), Nibble(c), Nibble(d / 16), Nibble(d));
    NibbleTells(c / 16, d / 16);
    NibbleTells(c, d);
  }

  // ---------- the checksum of a block ----------

  function Xor(a: bv32, b: bv32): bv32 {
    a ^ b
  }

  function TopByte(x: bv32): (h: bv32)
    ensures h < 256
  {
    x >> 24
  }

  function Raised(x: bv32): bv32 {
    x << 8
  }

  lemma XorSmall(a: bv32, b: bv32)
    ensures a < 256 && b < 256 ==> Xor(a, b) < 256
  {
  }

  /** Where BZ_UPDATE_CRC looks the table up. */
  function Entry(crc: bv32, c: int): (h: bv32)
    requires 0 <= c < 256
    ensures h < 256
  {
    XorSmall(TopByte(crc), Word(c));
    Xor(TopByte(crc), Word(c))
  }

  /** BZ_UPDATE_CRC. */
  function Update(table: seq<bv32>, crc: bv32, c: int): bv32
    requires |table| == 256 && 0 <= c < 256
  {
    Xor(Raised(crc), table[Entry(crc, c) as int])
  }

  /** The checksum after all of s. */
  function UpdateAll(table: seq<bv32>, crc: bv32, s: seq<int>): bv32
    requires |table| == 256 && Bytes(s)
    decreases |s|
  {
    if s == [] then crc else Update(table, UpdateAll(table, crc, s[..|s| - 1]), s[|s| - 1])
  }

  lemma UpdateNext(table: seq<bv32>, crc: bv32, s: seq<int>, c: int)
    requires |table| == 256 && Bytes(s) && 0 <= c < 256
    ensures UpdateAll(table, crc, s + [c]) == Update(table, UpdateAll(table, crc, s), c)
  {
    hide Update;
    assert (s + [c])[..|s|] == s;
  }

  /** Checksums of consecutive pieces compose. */
  lemma {:induction false} UpdateConcat(table: seq<bv32>, crc: bv32, s: seq<int>, r: seq<int>)
    requires |table| == 256 && Bytes(s) && Bytes(r)
    ensures UpdateAll(table, crc, s + r) == UpdateAll(table, UpdateAll(table, crc, s), r)
    decreases |r|
  {
    hide Update;
    if r == [] {
      assert s + r == s;
    } else {
      var r', c := r[..|r| - 1], r[|r| - 1];
      UpdateConcat(table, crc, s, r');
      assert s + r == (s + r') + [c];
      UpdateNext(table, crc, s + r', c);
    }
  }

  const START: bv32 := 0xFFFF_FFFF  // BZ_INITIALISE_CRC

  /** The checksum stored with a block: BZ_FINALISE_CRC of all its bytes. */
  function Checksum(table: seq<bv32>, s: seq<int>): bv32
    requires |table| == 256 && Bytes(s)
  {
    !UpdateAll(table, START, s)
  }

  /** The block checksum when part of the block has gone into crc already, and s is what remains. */
  function ChecksumFrom(table: seq<bv32>, crc: bv32, s: seq<int>): bv32
    requires |table| == 256 && Bytes(s)
  {
    Final(UpdateAll(table, crc, s))
  }

  /** BZ_FINALISE_CRC. */
  function Final(crc: bv32): bv32 {
    !crc
  }

  lemma ChecksumWhole(table: seq<bv32>, s: seq<int>)
    requires |table| == 256 && Bytes(s)
    ensures ChecksumFrom(table, START, s) == Checksum(table, s)
  {
    hide UpdateAll;
  }

  lemma ChecksumGoesOn(table: seq<bv32>, crc: bv32, s: seq<int>, r: seq<int>)
    requires |table| == 256 && Bytes(s) && Bytes(r) && Bytes(s + r)
    ensures ChecksumFrom(table, crc, s + r) == ChecksumFrom(table, UpdateAll(table, crc, s), r)
  {
    hide UpdateAll, Final;
    UpdateConcat(table, crc, s, r);
  }

  lemma ChecksumEnd(table: seq<bv32>, crc: bv32)
    requires |table| == 256
    ensures ChecksumFrom(table, crc, []) == Final(crc)
  {
  }

  /** The stream checksum after one more block. */
  function Combine(combined: bv32, block: bv32): bv32 {
    ((combined << 1) | (combined >> 31)) ^ block
  }

  function ToNat(c: bv32): (r: nat)
    ensures r < 0x1_0000_0000
  {
    c as int
  }

  lemma WordOfIndex(h: bv32)
    ensures h as int as bv32 == h
  {
  }

  /** Stored as a number it is still told apart. */
  lemma NumberTells(x: bv32, y: bv32)
    ensures ToNat(x) == ToNat(y) <==> x == y
  {
    WordOfIndex(x);
    WordOfIndex(y);
  }
}
