/** How long a stream can get: bounds on the bits of a block, and on a whole stream whose blocks are full. */
module StreamSize {
  import opened Basics
  import opened BlockEncoder
  import opened BlockFormat
  import opened CanonicalCodes
  import opened Crc
  import opened MoveToFront
  import opened MtfCoding
  import opened PrefixCodes
  import opened RunLength
  import opened StreamFormat
  import opened Words

  const BLOCKBITS := 168809  // all of a block but its symbols, at most

  lemma {:induction false} BytesLength(bytes: seq<int>, rest: seq<bool>)
    requires forall i | 0 <= i < |bytes| :: 0 <= bytes[i] < 256
    ensures |BytesThen(bytes, rest)| == 8 * |bytes| + |rest|
  {
    hide Bin;
    if bytes != [] {
      BytesLength(bytes[1..], rest);
    }
  }

  lemma {:induction false} GroupsLength(inUse: seq<bool>, i: nat, rest: seq<bool>)
    requires |inUse| == 256 && i <= 16
    ensures |GroupsThen(inUse, i, rest)| <= 16 * (16 - i) + |rest|
    decreases 16 - i
  {
    hide Used16;
    if i < 16 {
      GroupsLength(inUse, i + 1, rest);
    }
  }

  lemma {:induction false} UnaryLength(mtf: seq<int>, rest: seq<bool>)
    requires forall i | 0 <= i < |mtf| :: 0 <= mtf[i] < 6
    ensures |UnaryThen(mtf, rest)| <= 6 * |mtf| + |rest|
  {
    if mtf != [] {
      UnaryLength(mtf[1..], rest);
    }
  }

  lemma {:induction false} StepsLength(a: int, b: int, rest: seq<bool>)
    ensures |StepsThen(a, b, rest)| == 2 * (if a < b then b - a else a - b) + |rest|
    decreases if a < b then b - a else a - b
  {
    if a != b {
      StepsLength(if a < b then a + 1 else a - 1, b, rest);
    }
  }

  lemma {:induction false} LengthsLength(curr: int, lens: seq<int>, rest: seq<bool>)
    requires 1 <= curr <= 20 && forall i | 0 <= i < |lens| :: 1 <= lens[i] <= 20
    ensures |LengthsThen(curr, lens, rest)| <= 39 * |lens| + |rest|
    decreases |lens|
  {
    if lens != [] {
      LengthsLength(lens[0], lens[1..], rest);
      StepsLength(curr, lens[0], [false] + LengthsThen(lens[0], lens[1..], rest));
    }
  }

  lemma {:induction false} TablesLength(lens: seq<seq<int>>, rest: seq<bool>)
    requires forall t | 0 <= t < |lens| :: 0 < |lens[t]| <= 258 && forall i | 0 <= i < |lens[t]| :: 1 <= lens[t][i] <= 20
    ensures |TablesThen(lens, rest)| <= 10067 * |lens| + |rest|
    decreases |lens|
  {
    hide Bin, LengthsThen;
    if lens != [] {
      TablesLength(lens[1..], rest);
      LengthsLength(lens[0][0], lens[0], TablesThen(lens[1..], rest));
    }
  }

  lemma {:induction false} DataLength(c: Coded, x: nat, rest: seq<bool>)
    requires x <= |c.syms| && forall y: nat | x <= y < |c.syms| :: SymbolOk(c, y)
    ensures |DataThen(c, x, rest)| <= 20 * (|c.syms| - x) + |rest|
    decreases |c.syms| - x
  {
    hide Bin, CodeOf;
    if x < |c.syms| {
      assert SymbolOk(c, x);
      DataLength(c, x + 1, rest);
    }
  }

  lemma TabledLength(c: Coded, k: nat, rest: seq<bool>)
    requires CodedOk(c, k)
    ensures |TabledThen(c, k, rest)| <= 60402 + 20 * |c.syms| + |rest|
  {
    TabledParts(c, k, rest);
    TableBounds(c, k);
    hide *;
    DataLength(c, 0, rest);
    TablesLength(c.lens, DataThen(c, 0, rest));
  }

  lemma TableBounds(c: Coded, k: nat)
    requires CodedOk(c, k)
    ensures |c.lens| <= 6 && |c.selectors| <= MAXSELECTORS && |c.inUse| == 256
    ensures forall t | 0 <= t < |c.lens| :: 0 < |c.lens[t]| <= 258 && forall i | 0 <= i < |c.lens[t]| :: 1 <= c.lens[t][i] <= 20
    ensures forall i | 0 <= i < |SelectorPart(c, k)| :: 0 <= SelectorPart(c, k)[i] < 6
    ensures |SelectorPart(c, k)| == |c.selectors|
  {
    hide KraftSum;
  }

  /** The bits of one block, at most 20 a symbol. */
  lemma BlockLength(c: Coded, k: nat, rest: seq<bool>)
    requires CodedOk(c, k)
    ensures |BlockThen(c, k, rest)| <= BLOCKBITS + 20 * |c.syms| + |rest|
  {
    TableBounds(c, k);
    MagicBytes();
    hide *;
    TabledLength(c, k, rest);
    SelectedIs(c, k, rest);
    UnaryLength(SelectorPart(c, k), TabledThen(c, k, rest));
    MappedIs(c, k, rest);
    GroupsLength(c.inUse, 0, SelectedThen(c, k, rest));
    BlockThenIs(c, k, rest);
    BytesLength(BLOCKMAGIC + WordBytes(c.crc), [false] + (Bin(c.origPtr, 24) + MappedThen(c, k, rest)));
  }

  /** A block of n bytes takes at most BLOCKBITS bits and 20 for each of n + 1 symbols. */
  lemma SentLength(b: seq<int>, p: seq<int>, c: Coded, crc: nat, k: nat)
    requires Encodes(c, b, p, crc, k)
    ensures |BlockThen(c, k, [])| <= BLOCKBITS + 20 * (|b| + 1)
  {
    hide BlockThen, CodedOk, Numbering, BlockSymbols;
    SortedRows(b, p);
    InUseSized(c, k);
    SymbolsOfBlock(b, p, c.inUse);
    BlockLength(c, k, []);
  }

  lemma InUseSized(c: Coded, k: nat)
    requires CodedOk(c, k)
    ensures |c.inUse| == 256
  {
  }

  // ---------- where a block's bytes go ----------

  /**
   * zbits starts behind the n bytes of the block in an array of 4 * (100000 * blockSize100k + 34) bytes: at most 32 bits
   * left from the block before, the header, the block, and the padded trailer fit into the rest of it.
   */
  lemma FitsBehindBlock(n: nat, k: nat, bits: nat)
    requires n <= 100000 * k - 10 && 1 <= k && bits <= 32 + 32 + (BLOCKBITS + 20 * (n + 1)) + 80 + 7
    ensures bits / 8 <= 4 * (100000 * k + 34) - n
  {
  }

  // ---------- whole streams ----------

  /** How many blocks were sent while there was still room in them for another run. */
  ghost function Shorts(log: seq<Sent>, k: nat): nat {
    if log == [] then 0
    else Shorts(log[..|log| - 1], k) + (if |BlockOf(log[|log| - 1].rs)| < 100000 * k - 19 then 1 else 0)
  }

  lemma ShortsNext(log: seq<Sent>, s: Sent, k: nat)
    ensures Shorts(log + [s], k) == Shorts(log, k) + (if |BlockOf(s.rs)| < 100000 * k - 19 then 1 else 0)
  {
    hide BlockOf;
    assert (log + [s])[..|log|] == log;
  }

  lemma {:induction false} BlockShort(rs: seq<Run>)
    requires forall i | 0 <= i < |rs| :: RunOk(rs[i])
    ensures 4 * |BlockOf(rs)| <= 5 * |DataOf(rs)|
  {
    if rs != [] {
      assert RunOk(rs[|rs| - 1]);
      BlockShort(rs[..|rs| - 1]);
    }
  }

  lemma SentSizes(table: seq<bv32>, s: Sent, k: nat)
    requires SentOk(table, s, k)
    ensures CodedOk(s.c, k) && |BlockThen(s.c, k, [])| <= BLOCKBITS + 20 * (|BlockOf(s.rs)| + 1)
    ensures 4 * |BlockOf(s.rs)| <= 5 * |DataOf(s.rs)|
  {
    BlockShort(s.rs);
    hide BlockThen, CodedOk, BlockSymbols;
    SentLength(BlockOf(s.rs), s.p, s.c, ToNat(Checksum(table, DataOf(s.rs))), k);
  }

  lemma LogLast(table: seq<bv32>, log: seq<Sent>, k: nat)
    requires LogOk(table, log, k) && log != []
    ensures var l, s := log[..|log| - 1], log[|log| - 1];
      LogOk(table, l, k) && SentOk(table, s, k) && l + [s] == log
  {
    hide SentOk;
  }

  /** At most 28 bits for each byte of data, and something for each block that is not full. */
  lemma {:induction false} OpenLength(table: seq<bv32>, log: seq<Sent>, k: nat)
    requires LogOk(table, log, k)
    ensures |OpenBits(table, log, k)| <= 32 + 28 * |LogData(log)| + (BLOCKBITS + 20) * Shorts(log, k)
    decreases |log|
  {
    if log == [] {
      BytesLength(HeaderBytes(k), []);
    } else {
      LogLast(table, log, k);
      var l, s := log[..|log| - 1], log[|log| - 1];
      SizeOf(k);
      hide OpenBits, LogOk, SentOk, BlockOf, DataOf, BlockThen, CodedOk;
      OpenLength(table, l, k);
      SentSizes(table, s, k);
      OpenSnoc(table, l, s, k);
    }
  }

  lemma SizeOf(k: nat)
    ensures k >= 1 ==> 100000 * k - 19 >= 99981
  {
  }

  /** Room enough for the compressed form of n bytes with this many short blocks. */
  function Ample(n: nat, shorts: nat): nat {
    15 + 4 * n + 21104 * shorts
  }

  /** Neither an open nor a closed stream outgrows the room for its data. */
  lemma StreamLength(table: seq<bv32>, log: seq<Sent>, k: nat, bits: seq<bool>)
    requires LogOk(table, log, k)
    requires bits == [] || bits == OpenBits(table, log, k)
      || exists pad: nat :: pad < 8 && bits == ClosedBits(table, log, k) + Zeros(pad)
    ensures |bits| < 8 * Ample(|LogData(log)|, Shorts(log, k))
  {
    hide OpenBits, ClosedBits, LogOk, Shorts, LogData, TrailerBits, LogCrc;
    OpenLength(table, log, k);
    if bits != [] && bits != OpenBits(table, log, k) {
      Closing(table, log, k);
      TrailerLength(ToNat(LogCrc(table, log, k)));
    }
  }

  lemma TrailerLength(crc: nat)
    ensures |TrailerBits(crc, [])| == 80
  {
    hide BytesThen;
    BytesLength(ENDMAGIC + WordBytes(crc), []);
  }
}
