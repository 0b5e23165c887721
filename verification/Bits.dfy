/** Bitwise or and shifts of non-negative integers, as the C code applies them to packed words. */
module Bits {

  function Pow2(k: nat): (r: nat)
    ensures r > 0
  {
    if k == 0 then 1 else 2 * Pow2(k - 1)
  }

  /** x | y. */
  function Or(x: nat, y: nat): (r: nat)
    decreases x + y
  {
    if x == 0 && y == 0 then 0
    else 2 * Or(x / 2, y / 2) + (if x % 2 == 1 || y % 2 == 1 then 1 else 0)
  }

  /** Or-ing something below bit k into a multiple of 2^k is adding it. */
  lemma {:induction false} OrDisjoint(x: nat, y: nat, k: nat)
    requires y < Pow2(k)
    ensures Or(x * Pow2(k), y) == x * Pow2(k) + y
  {
    if k == 0 {
      assert x * Pow2(0) == x;
      OrRightZero(x);
    } else {
      var p := x * Pow2(k - 1);
      Doubled(x, Pow2(k - 1));
      assert x * Pow2(k) == 2 * p;
      OrDisjoint(x, y / 2, k - 1);
      if x * Pow2(k) == 0 && y == 0 {
      } else {
        assert (2 * p) / 2 == p && (2 * p) % 2 == 0;
      }
    }
  }

  lemma OrByte(x: nat, y: nat)
    requires y < 256
    ensures Or(x * 256, y) == x * 256 + y
  {
    Pow2Values();
    OrDisjoint(x, y, 8);
  }

  lemma Doubled(x: nat, p: nat)
    ensures x * (2 * p) == 2 * (x * p)
  {
  }

  lemma {:induction false} OrRightZero(x: nat)
    ensures Or(x, 0) == x
  {
    if x > 0 {
      OrRightZero(x / 2);
    }
  }

  lemma {:induction false} Pow2Add(j: nat, k: nat)
    ensures Pow2(j + k) == Pow2(j) * Pow2(k)
  {
    if k == 0 {
      assert Pow2(j) * 1 == Pow2(j);
    } else {
      Pow2Add(j, k - 1);
      Doubled(Pow2(j), Pow2(k - 1));
    }
  }

  lemma Pow2Values()
    ensures Pow2(8) == 256 && Pow2(16) == 65536 && Pow2(20) == 1048576 && Pow2(24) == 16777216
    ensures Pow2(32) == 4294967296
  {
    assert Pow2(4) == 16 && Pow2(8) == 256;
    assert Pow2(12) == 4096 && Pow2(16) == 65536 && Pow2(20) == 1048576;
    assert Pow2(24) == 16777216 && Pow2(28) == 268435456 && Pow2(32) == 4294967296;
  }
}
