/** What the checksums tell apart, and so which damage to a stream is found. */
module Detection {
  import opened Basics
  import opened BlockParser
  import opened Crc
  import opened OutputRuns
  import opened RoundTrip
  import opened RunLength
  import opened StreamFormat

  // ---------- the table ----------

  const POLYNOMIAL: bv32 := 0x04C1_1DB7

  predicate Top(x: bv32) {
    x >> 31 == 1
  }

  function Up(x: bv32): bv32 {
    x << 1
  }

  /** One step of dividing by the polynomial, highest bit first. */
  function Divided(x: bv32): bv32 {
    if Top(x) then Xor(Up(x), POLYNOMIAL) else Up(x)
  }

  function DividedByte(x: bv32): bv32 {
    Divided(Divided(Divided(Divided(Divided(Divided(Divided(Divided(x))))))))
  }

  function AtTop(b: bv32): bv32 {
    b << 24
  }

  /** A byte, divided. */
  function Remainder(i: int): bv32
    requires 0 <= i < 256
  {
    DividedByte(AtTop(i as bv32))
  }

  /** BZ2_crc32Table. */
  function PolynomialTable(): (table: seq<bv32>)
    ensures |table| == 256
  {
    seq(256, i requires 0 <= i < 256 => Remainder(i))
  }

  lemma EntryOf(h: bv32)
    requires h < 256
    ensures PolynomialTable()[h as int] == DividedByte(AtTop(h))
  {
    hide DividedByte, AtTop;
    WordOfIndex(h);
  }

  // ---------- division is linear ----------

  lemma XorMoves(a: bv32, b: bv32, c: bv32)
    ensures Xor(Xor(a, b), c) == Xor(a, Xor(b, c))
  {
  }

  lemma XorTurns(a: bv32, b: bv32)
    ensures Xor(a, b) == Xor(b, a)
  {
  }

  lemma XorTwice(a: bv32, b: bv32)
    ensures Xor(Xor(a, b), b) == a
  {
  }

  /** Xor with the same word on one side or both. */
  lemma XorSides(a: bv32, b: bv32, p: bv32)
    ensures Xor(Xor(a, p), Xor(b, p)) == Xor(a, b)
    ensures Xor(Xor(a, p), b) == Xor(a, Xor(b, p)) == Xor(Xor(a, b), p)
  {
    hide Xor;
    XorMoves(a, p, Xor(b, p));
    XorTurns(p, Xor(b, p));
    XorTwice(b, p);
    XorMoves(a, p, b);
    XorTurns(p, b);
    XorMoves(a, b, p);
  }

  lemma XorTells(a: bv32, b: bv32, c: bv32)
    requires Xor(a, b) == Xor(a, c)
    ensures b == c
  {
    hide Xor;
    XorTurns(a, b);
    XorTurns(a, c);
    XorTwice(b, a);
    XorTwice(c, a);
  }

  lemma TopRaw(x: bv32, y: bv32)
    ensures ((x ^ y) >> 31) == (x >> 31) ^ (y >> 31)
  {
  }

  lemma OneBit(a: bv32, b: bv32)
    requires a <= 1 && b <= 1
    ensures a ^ b == 1 <==> a != b
  {
  }

  lemma TopBit(x: bv32)
    ensures x >> 31 <= 1
  {
  }

  lemma TopOfXor(x: bv32, y: bv32)
    ensures Top(Xor(x, y)) <==> Top(x) != Top(y)
  {
    TopRaw(x, y);
    TopBit(x);
    TopBit(y);
    OneBit(x >> 31, y >> 31);
  }

  lemma UpOfXor(x: bv32, y: bv32)
    ensures Up(Xor(x, y)) == Xor(Up(x), Up(y))
  {
  }

  lemma LinearStep(x: bv32, y: bv32)
    ensures Divided(Xor(x, y)) == Xor(Divided(x), Divided(y))
  {
    hide Top, Up, Xor;
    TopOfXor(x, y);
    UpOfXor(x, y);
    XorSides(Up(x), Up(y), POLYNOMIAL);
  }

  lemma LinearTwice(x: bv32, y: bv32)
    ensures Divided(Divided(Xor(x, y))) == Xor(Divided(Divided(x)), Divided(Divided(y)))
  {
    hide *;
    LinearStep(x, y);
    LinearStep(Divided(x), Divided(y));
  }

  lemma Linear(x: bv32, y: bv32)
    ensures DividedByte(Xor(x, y)) == Xor(DividedByte(x), DividedByte(y))
  {
    hide Divided, Xor;
    LinearTwice(x, y);
    var x2, y2 := Divided(Divided(x)), Divided(Divided(y));
    LinearTwice(x2, y2);
    var x4, y4 := Divided(Divided(x2)), Divided(Divided(y2));
    LinearTwice(x4, y4);
    LinearTwice(Divided(Divided(x4)), Divided(Divided(y4)));
  }

  // ---------- the low bytes of the table ----------

  function LowByte(x: bv32): bv32 {
    x & 0xFF
  }

  function LowEntry(table: seq<bv32>, h: bv32): bv32
    requires |table| == 256 && h < 256
  {
    LowByte(table[h as int])
  }

  /** The low bytes of the entries are all different. */
  ghost predicate Spread(table: seq<bv32>) {
    |table| == 256 && forall h, g | h < 256 && g < 256 && LowEntry(table, h) == LowEntry(table, g) :: h == g
  }

  lemma NoneVanishes(z: bv32)
    requires z < 256 && LowByte(DividedByte(AtTop(z))) == 0
    ensures z == 0
  {
  }

  lemma AtTopXor(i: bv32, j: bv32)
    ensures Xor(AtTop(i), AtTop(j)) == AtTop(Xor(i, j))
  {
  }

  lemma XorZero(i: bv32, j: bv32)
    requires Xor(i, j) == 0
    ensures i == j
  {
  }

  lemma LowXor(x: bv32, y: bv32)
    requires LowByte(x) == LowByte(y)
    ensures LowByte(Xor(x, y)) == 0
  {
  }

  lemma EntriesDiffer(i: bv32, j: bv32)
    requires i < 256 && j < 256 && LowByte(DividedByte(AtTop(i))) == LowByte(DividedByte(AtTop(j)))
    ensures i == j
  {
    hide *;
    AtTopXor(i, j);
    Linear(AtTop(i), AtTop(j));
    LowXor(DividedByte(AtTop(i)), DividedByte(AtTop(j)));
    XorSmall(i, j);
    NoneVanishes(Xor(i, j));
    XorZero(i, j);
  }

  /** The entries of BZ2_crc32Table are told apart by their low bytes. */
  lemma PolynomialSpread()
    ensures Spread(PolynomialTable())
  {
    hide DividedByte, AtTop, LowByte, PolynomialTable;
    var t := PolynomialTable();
    forall h, g | h < 256 && g < 256 && LowEntry(t, h) == LowEntry(t, g)
      ensures h == g
    {
      EntryOf(h);
      EntryOf(g);
      EntriesDiffer(h, g);
    }
  }

  // ---------- the table form is the division ----------

  function LowPart(x: bv32): bv32 {
    x & 0xFF_FFFF
  }

  lemma LowDivided(x: bv32)
    ensures DividedByte(LowPart(x)) == Raised(x)
  {
  }

  /** The three low bytes just move up; the highest one is what the table is asked for. */
  lemma Parts(x: bv32, b: bv32)
    requires b < 256
    ensures Xor(LowPart(x), AtTop(Xor(TopByte(x), b))) == Xor(x, AtTop(b))
  {
  }

  /** A byte added at the top. */
  function Added(crc: bv32, c: int): bv32
    requires 0 <= c < 256
  {
    Xor(crc, AtTop(Word(c)))
  }

  /** With that table the checksum is the remainder: a byte is folded in as if its bits were divided one by one. */
  lemma UpdateDivides(crc: bv32, c: int)
    requires 0 <= c < 256
    ensures Update(PolynomialTable(), crc, c) == DividedByte(Added(crc, c))
  {
    hide DividedByte, AtTop, LowPart, TopByte, Raised, PolynomialTable, Xor, Word;
    EntryOf(Entry(crc, c));
    Parts(crc, Word(c));
    Linear(LowPart(crc), AtTop(Entry(crc, c)));
    LowDivided(crc);
  }

  /** One more byte, with numbers put in. */
  lemma Folded(s: seq<int>, crc: bv32, c: int, next: bv32) returns (t: seq<int>)
    requires Bytes(s) && 0 <= c < 256 && UpdateAll(PolynomialTable(), START, s) == crc
    requires DividedByte(Xor(crc, AtTop(Word(c)))) == next
    ensures t == s + [c] && Bytes(t) && UpdateAll(PolynomialTable(), START, t) == next
  {
    hide DividedByte, Update, PolynomialTable, Xor, AtTop, Word, UpdateAll;
    UpdateDivides(crc, c);
    t := s + [c];
    UpdateNext(PolynomialTable(), START, s, c);
  }

  lemma KnownStart()
    ensures UpdateAll(PolynomialTable(), START, [0x31, 0x32, 0x33]) == 0xD952_F164
  {
    var s: seq<int> := [];
    assert UpdateAll(PolynomialTable(), START, s) == START;
    hide Update, PolynomialTable, UpdateAll;
    s := Folded(s, 0xFFFF_FFFF, 0x31, 0x9EFB_CF93);
    s := Folded(s, 0x9EFB_CF93, 0x32, 0x3FEC_5E6A);
    s := Folded(s, 0x3FEC_5E6A, 0x33, 0xD952_F164);
    assert s == [0x31, 0x32, 0x33];
  }

  lemma KnownMiddle()
    ensures UpdateAll(PolynomialTable(), START, [0x31, 0x32, 0x33, 0x34, 0x35, 0x36]) == 0xD8F0_6C8F
  {
    hide Update, PolynomialTable, UpdateAll;
    KnownStart();
    var s := [0x31, 0x32, 0x33];
    s := Folded(s, 0xD952_F164, 0x34, 0xA695_C4AA);
    s := Folded(s, 0xA695_C4AA, 0x35, 0xBD9A_B747);
    s := Folded(s, 0xBD9A_B747, 0x36, 0xD8F0_6C8F);
    assert s == [0x31, 0x32, 0x33, 0x34, 0x35, 0x36];
  }

  lemma KnownEnd()
    ensures UpdateAll(PolynomialTable(), START, [0x31, 0x32, 0x33, 0x34, 0x35, 0x36, 0x37, 0x38, 0x39]) == 0x0376_E6E7
  {
    hide Update, PolynomialTable, UpdateAll;
    KnownMiddle();
    var s := [0x31, 0x32, 0x33, 0x34, 0x35, 0x36];
    s := Folded(s, 0xD8F0_6C8F, 0x37, 0x0D8A_14C4);
    s := Folded(s, 0x0D8A_14C4, 0x38, 0x49E3_C2FB);
    s := Folded(s, 0x49E3_C2FB, 0x39, 0x0376_E6E7);
    assert s == [0x31, 0x32, 0x33, 0x34, 0x35, 0x36, 0x37, 0x38, 0x39];
  }

  /** The check value of this checksum: what the digits 1 to 9 come to. */
  lemma KnownChecksum()
    ensures Checksum(PolynomialTable(), [0x31, 0x32, 0x33, 0x34, 0x35, 0x36, 0x37, 0x38, 0x39]) == 0xFC89_1918
  {
    hide PolynomialTable, UpdateAll;
    KnownEnd();
  }

  // ---------- what one checksum tells apart ----------

  /** The n lowest bytes of a word, n being at most 4. */
  function Low(x: bv32, n: nat): bv32 {
    if n == 0 then 0 else if n == 1 then x & 0xFF else if n == 2 then x & 0xFFFF else if n == 3 then x & 0xFF_FFFF else x
  }

  lemma LowOfSum(x: bv32, y: bv32, t: bv32, u: bv32, n: nat)
    requires 1 <= n <= 4 && Low(Xor(Raised(x), t), n) == Low(Xor(Raised(y), u), n)
    ensures LowByte(t) == LowByte(u)
  {
  }

  lemma RestOfSum(x: bv32, y: bv32, t: bv32, n: nat)
    requires 1 <= n <= 4 && Low(Xor(Raised(x), t), n) == Low(Xor(Raised(y), t), n)
    ensures Low(x, n - 1) == Low(y, n - 1)
  {
    RestOne(x, y, t);
    RestTwo(x, y, t);
    RestThree(x, y, t);
  }

  lemma RestOne(x: bv32, y: bv32, t: bv32)
    ensures ((x << 8) ^ t) & 0xFFFF == ((y << 8) ^ t) & 0xFFFF ==> x & 0xFF == y & 0xFF
  {
  }

  lemma RestTwo(x: bv32, y: bv32, t: bv32)
    ensures ((x << 8) ^ t) & 0xFF_FFFF == ((y << 8) ^ t) & 0xFF_FFFF ==> x & 0xFFFF == y & 0xFFFF
  {
  }

  lemma RestThree(x: bv32, y: bv32, t: bv32)
    ensures (x << 8) ^ t == (y << 8) ^ t ==> x & 0xFF_FFFF == y & 0xFF_FFFF
  {
  }

  /** Checksums that agree in n bytes come from the same entry, and from checksums that agree in n - 1. */
  lemma StepBack(table: seq<bv32>, x: bv32, y: bv32, c: int, d: int, n: nat)
    requires Spread(table) && 0 <= c < 256 && 0 <= d < 256 && 1 <= n <= 4
    requires Low(Update(table, x, c), n) == Low(Update(table, y, d), n)
    ensures Entry(x, c) == Entry(y, d) && Low(x, n - 1) == Low(y, n - 1)
  {
    hide Entry, Low, Raised, Xor, LowByte;
    var t, u := table[Entry(x, c) as int], table[Entry(y, d) as int];
    LowOfSum(x, y, t, u, n);
    assert LowEntry(table, Entry(x, c)) == LowEntry(table, Entry(y, d));
    RestOfSum(x, y, t, n);
  }

  lemma SameByte(x: bv32, c: int, d: int)
    requires 0 <= c < 256 && 0 <= d < 256 && Entry(x, c) == Entry(x, d)
    ensures c == d
  {
    hide TopByte, Xor, Word;
    XorTells(TopByte(x), Word(c), Word(d));
    WordTells(c, d);
  }

  /** From one checksum, no two strings of at most four bytes lead to checksums that agree in as many bytes. */
  lemma {:induction false} ShortTold(table: seq<bv32>, crc: bv32, a: seq<int>, b: seq<int>)
    requires |table| == 256 && Spread(table) && Bytes(a) && Bytes(b) && |a| == |b| <= 4
    requires Low(UpdateAll(table, crc, a), |a|) == Low(UpdateAll(table, crc, b), |a|)
    ensures a == b
    decreases |a|
  {
    hide Update, Entry, Low, Spread;
    if a != [] {
      var n := |a| - 1;
      var x, y := UpdateAll(table, crc, a[..n]), UpdateAll(table, crc, b[..n]);
      StepBack(table, x, y, a[n], b[n], n + 1);
      ShortTold(table, crc, a[..n], b[..n]);
      SameByte(x, a[n], b[n]);
      assert a == a[..n] + [a[n]] && b == b[..n] + [b[n]];
    }
  }

  lemma WholeWord(u: bv32, v: bv32)
    requires TopByte(u) == TopByte(v) && Low(u, 3) == Low(v, 3)
    ensures u == v
  {
  }

  lemma SameState(table: seq<bv32>, u: bv32, v: bv32, c: int)
    requires Spread(table) && 0 <= c < 256 && Update(table, u, c) == Update(table, v, c)
    ensures u == v
  {
    hide Update, Low, TopByte, Xor, Word;
    StepBack(table, u, v, c, c, 4);
    XorTurns(TopByte(u), Word(c));
    XorTurns(TopByte(v), Word(c));
    XorTells(Word(c), TopByte(u), TopByte(v));
    WholeWord(u, v);
  }

  /** Different checksums stay different whatever follows. */
  lemma {:induction false} StaysDifferent(table: seq<bv32>, x: bv32, y: bv32, s: seq<int>)
    requires |table| == 256 && Spread(table) && Bytes(s) && UpdateAll(table, x, s) == UpdateAll(table, y, s)
    ensures x == y
    decreases |s|
  {
    hide Update, Spread;
    if s != [] {
      var n := |s| - 1;
      SameState(table, UpdateAll(table, x, s[..n]), UpdateAll(table, y, s[..n]), s[n]);
      StaysDifferent(table, x, y, s[..n]);
    }
  }

  lemma FinalTells(x: bv32, y: bv32)
    requires Final(x) == Final(y)
    ensures x == y
  {
  }

  lemma ChecksumIs(table: seq<bv32>, s: seq<int>)
    requires |table| == 256 && Bytes(s)
    ensures Checksum(table, s) == Final(UpdateAll(table, START, s))
  {
    hide UpdateAll;
  }

  /** Two strings that differ only within four bytes in a row, one byte above all, have different checksums. */
  lemma BurstFound(table: seq<bv32>, front: seq<int>, a: seq<int>, b: seq<int>, back: seq<int>)
    requires |table| == 256 && Spread(table) && |a| == |b| <= 4
    requires Bytes(front) && Bytes(a) && Bytes(b) && Bytes(back)
    ensures Bytes(front + a + back) && Bytes(front + b + back)
    ensures Checksum(table, front + a + back) == Checksum(table, front + b + back) <==> a == b
  {
    hide Update, Spread, UpdateAll, Low, Checksum, Final;
    var x := UpdateAll(table, START, front);
    UpdateConcat(table, START, front + a, back);
    UpdateConcat(table, START, front, a);
    UpdateConcat(table, START, front + b, back);
    UpdateConcat(table, START, front, b);
    var u, v := UpdateAll(table, x, a), UpdateAll(table, x, b);
    if Checksum(table, front + a + back) == Checksum(table, front + b + back) {
      ChecksumIs(table, front + a + back);
      ChecksumIs(table, front + b + back);
      FinalTells(UpdateAll(table, u, back), UpdateAll(table, v, back));
      StaysDifferent(table, u, v, back);
      ShortTold(table, x, a, b);
    }
  }

  // ---------- what the combined checksum tells apart ----------

  /** A block with another checksum changes the combined checksum, and so does a change before it. */
  lemma CombineTells(x: bv32, y: bv32, a: bv32, b: bv32)
    ensures Combine(x, a) == Combine(x, b) <==> a == b
    ensures Combine(x, a) == Combine(y, a) <==> x == y
  {
  }

  /** A word turned by one bit. */
  function Turned(x: bv32): bv32 {
    (x << 1) | (x >> 31)
  }

  lemma TurnedSum(x: bv32, y: bv32)
    ensures ((x ^ y) << 1) | ((x ^ y) >> 31) == ((x << 1) | (x >> 31)) ^ ((y << 1) | (y >> 31))
  {
  }

  lemma CombineTwice(x: bv32, a: bv32, b: bv32)
    ensures Combine(Combine(x, a), b) == (Turned(Turned(x)) ^ Turned(a)) ^ b
  {
    TurnedSum(Turned(x), a);
  }

  lemma TurnedBack(z: bv32)
    ensures (z << 1) | (z >> 31) == z <==> z == 0 || z == 0xFFFF_FFFF
  {
  }

  lemma TurnedSame(z: bv32)
    ensures Turned(z) == z <==> z == 0 || z == 0xFFFF_FFFF
  {
    TurnedBack(z);
  }

  lemma TurnedDifference(a: bv32, b: bv32)
    ensures Turned(a ^ b) == Turned(a) ^ Turned(b)
  {
    TurnedSum(a, b);
  }

  lemma SumIsZero(a: bv32, b: bv32)
    requires a ^ b == 0
    ensures a == b
  {
  }

  lemma SumIsOnes(a: bv32, b: bv32)
    requires a ^ b == 0xFFFF_FFFF
    ensures a == !b
  {
  }

  lemma SumOfSame(b: bv32)
    ensures b ^ b == 0 && !b ^ b == 0xFFFF_FFFF
  {
  }

  lemma SidesChanged(t: bv32, u: bv32, v: bv32, a: bv32, b: bv32)
    ensures (t ^ u) ^ b == (t ^ v) ^ a <==> u ^ v == a ^ b
  {
  }

  /** Two blocks exchanged are noticed, unless their checksums are equal or opposite in every bit. */
  lemma CombineOrder(x: bv32, a: bv32, b: bv32)
    ensures Combine(Combine(x, a), b) == Combine(Combine(x, b), a) <==> a == b || a == !b
  {
    hide *;
    CombineTwice(x, a, b);
    CombineTwice(x, b, a);
    SidesChanged(Turned(Turned(x)), Turned(a), Turned(b), a, b);
    TurnedDifference(a, b);
    TurnedSame(a ^ b);
    SumOfSame(b);
    if a ^ b == 0 {
      SumIsZero(a, b);
    }
    if a ^ b == 0xFFFF_FFFF {
      SumIsOnes(a, b);
    }
  }

  // ---------- damage to a stream ----------

  /**
   * A block that carries the checksum of some bytes and decodes to others, which differ from them only within four bytes
   * in a row: the stream is corrupt, whatever comes before and after it.
   */
  lemma DamageFound(table: seq<bv32>, p: Parser, bits: seq<bool>, combined: bv32,
                    front: seq<int>, a: seq<int>, b: seq<int>, back: seq<int>)
    requires |table| == 256 && Spread(table) && |a| == |b| <= 4 && a != b
    requires Bytes(front) && Bytes(a) && Bytes(b) && Bytes(back) && Bytes(front + a + back)
    requires var q := Drive(p, bits).0;
      && q.at == Output && q.origPtr < |q.out| && Bytes(q.out) && !q.randomised
      && q.storedBlockCRC == ToNat(Checksum(table, front + a + back))
      && Rest(ChainOf(q.out, q.origPtr), 1) == front + b + back
    ensures Decode(table, p, bits, combined) == Corrupt
  {
    hide Drive, Rest, Sound, Checksum, ChainOf, Combine, ToNat, Spread;
    RunShrinks(p, bits);
    BurstFound(table, front, a, b, back);
    NumberTells(Checksum(table, front + a + back), Checksum(table, front + b + back));
  }

  /** The combined checksum of the blocks up to block i. */
  ghost function CrcTo(table: seq<bv32>, log: seq<Sent>, i: nat, k: nat): bv32
    requires LogOk(table, log, k) && i <= |log|
  {
    LogPrefix(table, log, i, k);
    LogCrc(table, log[..i], k)
  }

  ghost function CrcOf(table: seq<bv32>, log: seq<Sent>, i: nat, k: nat): bv32
    requires LogOk(table, log, k) && i < |log|
  {
    SentAt(table, log, i, k);
    SentParts(table, log[i], k);
    Checksum(table, DataOf(log[i].rs))
  }

  lemma CrcToNext(table: seq<bv32>, log: seq<Sent>, i: nat, k: nat)
    requires LogOk(table, log, k) && i < |log|
    ensures CrcTo(table, log, i + 1, k) == Combine(CrcTo(table, log, i, k), CrcOf(table, log, i, k))
  {
    hide LogOk, Combine, Checksum, LogCrc;
    LogPrefix(table, log, i, k);
    LogPrefix(table, log, i + 1, k);
    SentAt(table, log, i, k);
    SentParts(table, log[i], k);
    CrcNext(table, log, i, k);
  }

  lemma CrcToAll(table: seq<bv32>, log: seq<Sent>, k: nat)
    requires LogOk(table, log, k)
    ensures CrcTo(table, log, |log|, k) == LogCrc(table, log, k)
  {
    hide LogOk, LogCrc;
    assert log[..|log|] == log;
  }

  lemma MovedCrc(table: seq<bv32>, log: seq<Sent>, log': seq<Sent>, i: nat, j: nat, k: nat)
    requires LogOk(table, log, k) && LogOk(table, log', k) && i < |log| && j < |log'| && log[i] == log'[j]
    ensures CrcOf(table, log, i, k) == CrcOf(table, log', j, k)
  {
    hide LogOk, Checksum;
  }

  /** The same blocks from block m on: the combined checksums differ just when they did before. */
  lemma {:induction false} CrcsGoOn(table: seq<bv32>, log: seq<Sent>, log': seq<Sent>, m: nat, i: nat, k: nat)
    requires LogOk(table, log, k) && LogOk(table, log', k) && m <= i <= |log| == |log'|
    requires forall j | m <= j < |log| :: log[j] == log'[j]
    ensures CrcTo(table, log, i, k) == CrcTo(table, log', i, k) <==> CrcTo(table, log, m, k) == CrcTo(table, log', m, k)
    decreases i
  {
    hide LogOk, CrcTo, CrcOf, Combine;
    if m < i {
      CrcsGoOn(table, log, log', m, i - 1, k);
      CrcToNext(table, log, i - 1, k);
      CrcToNext(table, log', i - 1, k);
      MovedCrc(table, log, log', i - 1, i - 1, k);
      CombineTells(CrcTo(table, log, i - 1, k), CrcTo(table, log', i - 1, k), CrcOf(table, log, i - 1, k), 0);
    }
  }

  lemma SamePrefix(table: seq<bv32>, log: seq<Sent>, log': seq<Sent>, i: nat, k: nat)
    requires LogOk(table, log, k) && LogOk(table, log', k) && i <= |log| == |log'| && log[..i] == log'[..i]
    ensures CrcTo(table, log, i, k) == CrcTo(table, log', i, k)
  {
    hide LogOk, LogCrc;
  }

  lemma LogWith(table: seq<bv32>, log: seq<Sent>, i: nat, s: Sent, k: nat)
    requires LogOk(table, log, k) && i < |log| && SentOk(table, s, k)
    ensures LogOk(table, log[i := s], k) && |table| == 256
  {
    hide SentOk;
  }

  /** A block replaced by another, its own checksum in order: noticed at the end just when the checksums differ. */
  lemma ReplacedFound(table: seq<bv32>, log: seq<Sent>, i: nat, s: Sent, k: nat, pad: seq<bool>)
    requires LogOk(table, log, k) && i < |log| && SentOk(table, s, k)
    ensures LogOk(table, log[i := s], k) && |table| == 256 && Bytes(DataOf(s.rs)) && Bytes(DataOf(log[i].rs))
    ensures Decode(table, Fresh(), StreamWith(table, log[i := s], k, LogCrc(table, log, k), pad), 0)
            == if Checksum(table, DataOf(s.rs)) == Checksum(table, DataOf(log[i].rs)) then Decoded(LogData(log[i := s]))
               else Corrupt
  {
    hide LogOk, SentOk, CrcTo, Combine, LogCrc, StreamWith, Decode, Fresh, LogData, Checksum;
    var log' := log[i := s];
    LogWith(table, log, i, s, k);
    SentAt(table, log, i, k);
    SentParts(table, log[i], k);
    SentParts(table, s, k);
    assert log[..i] == log'[..i];
    SamePrefix(table, log, log', i, k);
    CrcToNext(table, log, i, k);
    CrcToNext(table, log', i, k);
    CombineTells(CrcTo(table, log, i, k), 0, CrcOf(table, log, i, k), CrcOf(table, log', i, k));
    CrcsGoOn(table, log, log', i + 1, |log|, k);
    CrcToAll(table, log, k);
    CrcToAll(table, log', k);
    DecodeWith(table, log', k, LogCrc(table, log, k), pad);
  }

  ghost function Exchanged(log: seq<Sent>, i: nat): (r: seq<Sent>)
    requires i + 1 < |log|
    ensures |r| == |log|
  {
    log[i := log[i + 1]][i + 1 := log[i]]
  }

  /** Two neighbouring blocks exchanged: noticed at the end, unless their checksums are equal or opposite in every bit. */
  lemma ExchangeFound(table: seq<bv32>, log: seq<Sent>, i: nat, k: nat, pad: seq<bool>)
    requires LogOk(table, log, k) && i + 1 < |log|
    ensures LogOk(table, Exchanged(log, i), k) && |table| == 256
    ensures var a, b := CrcOf(table, log, i, k), CrcOf(table, log, i + 1, k);
      Decode(table, Fresh(), StreamWith(table, Exchanged(log, i), k, LogCrc(table, log, k), pad), 0)
      == if a == b || a == !b then Decoded(LogData(Exchanged(log, i))) else Corrupt
  {
    hide LogOk, SentOk, CrcTo, CrcOf, Combine, LogCrc, StreamWith, Decode, Fresh, LogData, Checksum;
    var log' := Exchanged(log, i);
    SentAt(table, log, i, k);
    SentAt(table, log, i + 1, k);
    LogWith(table, log, i, log[i + 1], k);
    LogWith(table, log[i := log[i + 1]], i + 1, log[i], k);
    assert log[..i] == log'[..i];
    SamePrefix(table, log, log', i, k);
    CrcToNext(table, log, i, k);
    CrcToNext(table, log, i + 1, k);
    CrcToNext(table, log', i, k);
    CrcToNext(table, log', i + 1, k);
    MovedCrc(table, log, log', i, i + 1, k);
    MovedCrc(table, log, log', i + 1, i, k);
    CombineOrder(CrcTo(table, log, i, k), CrcOf(table, log, i, k), CrcOf(table, log, i + 1, k));
    CrcsGoOn(table, log, log', i + 2, |log|, k);
    CrcToAll(table, log, k);
    CrcToAll(table, log', k);
    DecodeWith(table, log', k, LogCrc(table, log, k), pad);
  }
}
