/** Decoding undoes compressing: what the decoder makes of a stream the compressor has completed. */
module RoundTrip {
  import opened Basics
  import opened BlockEncoder
  import opened BlockFormat
  import opened BlockParser
  import opened BurrowsWheeler
  import opened Crc
  import opened MtfCoding
  import opened OutputRuns
  import opened ParseBlock
  import opened ParseHeader
  import opened Permutations
  import opened Placement
  import opened Rotations
  import opened RunLength
  import opened StreamFormat
  import opened Words
  import Bits
  import PrefixCodes

  /**
   * What becomes of a stream: all its data, or more input needed, or an error; or it holds a randomised block, or more
   * selectors than there is room for, and what the source does then is outside this model.
   */
  datatype Outcome = Decoded(data: seq<int>) | Suspended | Corrupt | Outside

  /** The chain the decoder follows through a column. */
  ghost function ChainOf(l: seq<int>, o: nat): (c: Chain)
    requires o < |l| && Bytes(l)
    ensures ChainOk(c) && c.l == l && c.o == o && Vector(l, c.t)
  {
    VectorThere(l);
    var t :| Vector(l, t) && |t| == |l| && IsPermutation(t);
    Chain(l, t, o)
  }

  lemma VectorThere(l: seq<int>)
    ensures exists t :: Vector(l, t) && |t| == |l| && IsPermutation(t)
  {
    var t := VectorExists(l);
  }

  /**
   * BZ2_bzDecompress on a whole stream: parse to the end of a block, put its runs out, check its checksum, go on with
   * the next, until the trailer, whose combined checksum is checked.
   */
  ghost function Decode(table: seq<bv32>, p: Parser, bits: seq<bool>, combined: bv32): Outcome
    requires |table| == 256
    decreases |bits|, 1
  {
    RunShrinks(p, bits);
    Resume(table, Drive(p, bits).0, Drive(p, bits).1, combined, |bits|)
  }

  /** From where the parser has stopped; n is what was there before it started. */
  ghost function Resume(table: seq<bv32>, q: Parser, rest: seq<bool>, combined: bv32, n: nat): Outcome
    requires |table| == 256 && |rest| <= n
    decreases n, 0
  {
    if q.at == Idle then
      (if q.storedCombinedCRC == ToNat(combined) then Decoded([]) else Corrupt)
    else if q.at == Output && q.origPtr < |q.out| && Bytes(q.out) && |rest| < n then
      var c := ChainOf(q.out, q.origPtr);
      if q.randomised then Outside
      else if !Sound(c, 1) || q.storedBlockCRC != ToNat(Checksum(table, Rest(c, 1))) then Corrupt
      else
        var later := Decode(table, q.(at := BlkHdr(1)), rest, Combine(combined, Checksum(table, Rest(c, 1))));
        if later.Decoded? then Decoded(Rest(c, 1) + later.data) else later
    else if Need(q) > 0 then Suspended
    else if q.at == Failed(OUTSIDE) then Outside
    else Corrupt
  }

  lemma {:induction false} RunShrinks(p: Parser, bits: seq<bool>)
    ensures |Drive(p, bits).1| <= |bits|
    decreases |bits|
  {
    hide Step;
    if Need(p) != 0 && |bits| >= Need(p) {
      RunShrinks(Step(p, Val(bits[..Need(p)])), bits[Need(p)..]);
    }
  }

  // ---------- header and trailer ----------

  lemma ParseByte(p: Parser, v: int, more: seq<int>, rest: seq<bool>)
    requires Need(p) == 8 && 0 <= v < 256 && forall i | 0 <= i < |more| :: 0 <= more[i] < 256
    ensures Drive(p, BytesThen([v] + more, rest)) == Drive(Step(p, v), BytesThen(more, rest))
  {
    hide Drive, Step, BytesThen;
    BytesThenFront(v, more, rest);
    RunByte(p, v, BytesThen(more, rest));
  }

  lemma ParseStart(k: nat, rest: seq<bool>)
    requires 1 <= k <= 9
    ensures Drive(Fresh(), BytesThen(HeaderBytes(k), rest)) == Drive(Fresh().(at := BlkHdr(1), blockSize100k := k), rest)
  {
    hide Drive, BytesThen, Identity;
    var p := Fresh();
    assert HeaderBytes(k) == [0x42] + ([0x5A] + ([0x68] + ([0x30 + k] + [])));
    ParseByte(p, 0x42, [0x5A] + ([0x68] + ([0x30 + k] + [])), rest);
    ParseByte(p.(at := Magic(2)), 0x5A, [0x68] + ([0x30 + k] + []), rest);
    ParseByte(p.(at := Magic(3)), 0x68, [0x30 + k] + [], rest);
    ParseByte(p.(at := Magic(4)), 0x30 + k, [], rest);
    NoBytesLeft(rest);
  }

  lemma ParseEndMagic(p: Parser, more: seq<int>, rest: seq<bool>)
    requires p.at == BlkHdr(1) && forall i | 0 <= i < |more| :: 0 <= more[i] < 256
    ensures Drive(p, BytesThen(ENDMAGIC + more, rest)) == Drive(p.(at := Ccrc(1), storedCombinedCRC := 0), BytesThen(more, rest))
  {
    hide *;
    EndMagicBytes(more);
    EndStart(p);
    ParseByte(p, 0x17, [0x72] + ([0x45] + ([0x38] + ([0x50] + ([0x90] + more)))), rest);
    EndSteps(p);
    ParseByte(p.(at := EndHdr(2)), 0x72, [0x45] + ([0x38] + ([0x50] + ([0x90] + more))), rest);
    ParseByte(p.(at := EndHdr(3)), 0x45, [0x38] + ([0x50] + ([0x90] + more)), rest);
    ParseByte(p.(at := EndHdr(4)), 0x38, [0x50] + ([0x90] + more), rest);
    ParseByte(p.(at := EndHdr(5)), 0x50, [0x90] + more, rest);
    ParseByte(p.(at := EndHdr(6)), 0x90, more, rest);
  }

  lemma EndMagicBytes(more: seq<int>)
    ensures ENDMAGIC + more == [0x17] + ([0x72] + ([0x45] + ([0x38] + ([0x50] + ([0x90] + more)))))
  {
  }

  lemma EndSteps(p: Parser)
    ensures forall k: nat | 2 <= k <= 6 :: Need(p.(at := EndHdr(k))) == 8
    ensures Step(p.(at := EndHdr(2)), 0x72) == p.(at := EndHdr(3)) && Step(p.(at := EndHdr(3)), 0x45) == p.(at := EndHdr(4))
    ensures Step(p.(at := EndHdr(4)), 0x38) == p.(at := EndHdr(5)) && Step(p.(at := EndHdr(5)), 0x50) == p.(at := EndHdr(6))
    ensures Step(p.(at := EndHdr(6)), 0x90) == p.(at := Ccrc(1), storedCombinedCRC := 0)
  {
  }

  lemma EndStart(p: Parser)
    requires p.at == BlkHdr(1)
    ensures Need(p) == 8 && Step(p, 0x17) == p.(at := EndHdr(2))
  {
  }

  lemma CombinedStep(p: Parser, k: nat, v: int)
    requires 1 <= k <= 4 && p.at == Ccrc(k) && 0 <= v < 256 && p.storedCombinedCRC * 256 + v < 0x1_0000_0000
    ensures Need(p) == 8
    ensures Step(p, v) == p.(at := if k < 4 then Ccrc(k + 1) else Idle, storedCombinedCRC := p.storedCombinedCRC * 256 + v)
  {
  }

  lemma ParseCombined(p: Parser, crc: nat, rest: seq<bool>)
    requires p.at == Ccrc(1) && p.storedCombinedCRC == 0 && crc < 0x1_0000_0000
    ensures Drive(p, BytesThen(WordBytes(crc), rest)) == Drive(p.(at := Idle, storedCombinedCRC := crc), rest)
  {
    hide *;
    var a, b, c, d := FourBytes(crc);
    ParseFour(p, a, b, c, d, rest);
  }

  lemma ParseFour(p: Parser, a: int, b: int, c: int, d: int, rest: seq<bool>)
    requires p.at == Ccrc(1) && p.storedCombinedCRC == 0
    requires 0 <= a < 256 && 0 <= b < 256 && 0 <= c < 256 && 0 <= d < 256
    ensures Drive(p, BytesThen([a, b, c, d], rest))
            == Drive(p.(at := Idle, storedCombinedCRC := ((a * 256 + b) * 256 + c) * 256 + d), rest)
  {
    hide *;
    assert [a, b] + [c, d] == [a, b, c, d] && [c, d] + [] == [c, d];
    ParseTwo(p, 1, a, b, [c, d], rest);
    ParseTwo(p.(at := Ccrc(3), storedCombinedCRC := a * 256 + b), 3, c, d, [], rest);
    NoBytesLeft(rest);
  }

  lemma ParseTwo(p: Parser, k: nat, a: int, b: int, more: seq<int>, rest: seq<bool>)
    requires (k == 1 || k == 3) && p.at == Ccrc(k) && p.storedCombinedCRC < 65536
    requires 0 <= a < 256 && 0 <= b < 256 && forall i | 0 <= i < |more| :: 0 <= more[i] < 256
    ensures Drive(p, BytesThen([a, b] + more, rest))
            == Drive(p.(at := if k == 1 then Ccrc(3) else Idle,
                        storedCombinedCRC := (p.storedCombinedCRC * 256 + a) * 256 + b), BytesThen(more, rest))
  {
    hide *;
    assert [a] + ([b] + more) == [a, b] + more;
    CombinedStep(p, k, a);
    ParseByte(p, a, [b] + more, rest);
    var q := p.(at := Ccrc(k + 1), storedCombinedCRC := p.storedCombinedCRC * 256 + a);
    CombinedStep(q, k + 1, b);
    ParseByte(q, b, more, rest);
  }

  lemma ParseTrailer(p: Parser, crc: nat, rest: seq<bool>)
    requires p.at == BlkHdr(1) && crc < 0x1_0000_0000
    ensures Drive(p, TrailerBits(crc, rest)) == Drive(p.(at := Idle, storedCombinedCRC := crc), rest)
  {
    hide Drive, BytesThen, ENDMAGIC, WordBytes;
    ParseEndMagic(p, WordBytes(crc), rest);
    ParseCombined(p.(at := Ccrc(1), storedCombinedCRC := 0), crc, rest);
  }

  // ---------- one block ----------

  lemma SameRotation(b: seq<int>, i: nat, h: nat)
    requires |b| > 0
    ensures Cmp(b, i, i, h) == 0
  {
    CmpOpposite(b, i, i, h);
  }

  /** The chain through the last column spells the block. */
  lemma ChainSpellsBlock(b: seq<int>, p: seq<int>, o: nat, c: Chain)
    requires SortsRotations(b, p) && o < |b| && p[o] == 0 && Bytes(b)
    requires ChainOk(c) && c.l == LastColumn(b, p) && c.o == o && Vector(c.l, c.t)
    ensures |c.l| == |b| && forall m: nat | m < |b| :: ByteAt(c, m) == b[m]
  {
    hide Cmp, Walk, Undoes;
    VectorIsStable(c.l, c.t);
    SameRotation(b, 0, |b|);
    forall m: nat | m < |b|
      ensures ByteAt(c, m) == b[m]
    {
      InverseTransform(b, p, c.t, o, m);
    }
  }

  lemma ColumnBytes(b: seq<int>, p: seq<int>)
    requires SortsRotations(b, p) && Bytes(b)
    ensures |p| == |b| > 0 && (forall i | 0 <= i < |p| :: 0 <= p[i] < |b|)
    ensures |LastColumn(b, p)| == |b| && Bytes(LastColumn(b, p))
  {
  }

  /** The output side puts out the data of the block that was sent. */
  lemma BlockData(table: seq<bv32>, s: Sent, k: nat, c: Chain)
    requires SentOk(table, s, k)
    requires var b := BlockOf(s.rs);
      |s.p| == |b| && (forall i | 0 <= i < |s.p| :: 0 <= s.p[i] < |b|)
      && ChainOk(c) && c.l == LastColumn(b, s.p) && c.o == s.c.origPtr && Vector(c.l, c.t)
    ensures Rest(c, 1) == DataOf(s.rs) && Sound(c, 1)
  {
    hide Undoes, Expand, Complete, Rest, Sound, Runs, ByteAt;
    var b := BlockOf(s.rs);
    SentParts(table, s, k);
    ChainSpellsBlock(b, s.p, s.c.origPtr, c);
    ExpandBlock(s.rs);
    assert b[0..] == b;
    RestExpands(c, b, 1);
  }

  lemma SentParts(table: seq<bv32>, s: Sent, k: nat)
    requires SentOk(table, s, k)
    ensures var b := BlockOf(s.rs);
      && Runs(s.rs) && Bytes(b) && SortsRotations(b, s.p) && s.c.origPtr < |b| <= 100000 * k && |s.p| == |b|
      && s.p[s.c.origPtr] == 0 && CodedOk(s.c, k) && |s.c.inUse| == 256 && InUse(b, s.c.inUse)
      && (forall i | 0 <= i < |s.p| :: 0 <= s.p[i] < |b|) && s.c.syms == BlockSymbols(b, s.p, s.c.inUse)
    ensures |table| == 256 && Bytes(DataOf(s.rs)) && s.c.crc == ToNat(Checksum(table, DataOf(s.rs)))
  {
    hide PrefixCodes.ValidLengths, BlockSymbols, Runs, Numbering;
  }

  /** Parsing the block leads to its column. */
  lemma ParseSent(table: seq<bv32>, s: Sent, k: nat, p: Parser, rest: seq<bool>) returns (q: Parser)
    requires SentOk(table, s, k) && p.at == BlkHdr(1) && p.blockSize100k == k
    ensures CodedOk(s.c, k)
    ensures Drive(p, BlockThen(s.c, k, rest)) == Drive(q, rest)
    ensures q.at == Output && q.blockSize100k == k && q.origPtr == s.c.origPtr && q.storedBlockCRC == s.c.crc
    ensures !q.randomised
    ensures var b := BlockOf(s.rs);
      |s.p| == |b| && (forall i | 0 <= i < |s.p| :: 0 <= s.p[i] < |b|)
      && q.out == LastColumn(b, s.p) && Bytes(q.out) && q.origPtr < |q.out|
  {
    hide *;
    var b := BlockOf(s.rs);
    SentParts(table, s, k);
    ColumnBytes(b, s.p);
    ColumnBack(s.c, b, s.p);
    MaxIs(p);
    q := ParseWhole(p, s.c, rest);
  }

  lemma MaxIs(p: Parser)
    ensures BlockMax(p) == 100000 * p.blockSize100k
  {
  }

  // ---------- the whole stream ----------

  lemma StoppedRun(p: Parser, bits: seq<bool>)
    requires Need(p) == 0
    ensures Drive(p, bits) == (p, bits)
  {
  }

  lemma BlocksShrink(c: Coded, k: nat, rest: seq<bool>)
    requires CodedOk(c, k)
    ensures |rest| < |BlockThen(c, k, rest)|
  {
    hide *;
    BlockAppend(c, k, rest);
    BlockNonempty(c, k);
  }

  lemma BlockNonempty(c: Coded, k: nat)
    requires CodedOk(c, k)
    ensures |BlockThen(c, k, [])| > 0
  {
    hide MappedThen, CodedOk, Bin;
    BlockThenIs(c, k, []);
    var more := WordBytes(c.crc);
    assert BLOCKMAGIC + more == [0x31] + ([0x41, 0x59, 0x26, 0x53, 0x59] + more);
    BytesThenFront(0x31, [0x41, 0x59, 0x26, 0x53, 0x59] + more, [false] + (Bin(c.origPtr, 24) + MappedThen(c, k, [])));
  }

  /** One block decoded, then the rest. */
  lemma DecodeSent(table: seq<bv32>, s: Sent, k: nat, p: Parser, rest: seq<bool>, combined: bv32) returns (q: Parser)
    requires SentOk(table, s, k) && p.at == BlkHdr(1) && p.blockSize100k == k
    ensures CodedOk(s.c, k) && |table| == 256 && Bytes(DataOf(s.rs))
    ensures q.at == BlkHdr(1) && q.blockSize100k == k
    ensures var later := Decode(table, q, rest, Combine(combined, Checksum(table, DataOf(s.rs))));
      Decode(table, p, BlockThen(s.c, k, rest), combined)
      == if later.Decoded? then Decoded(DataOf(s.rs) + later.data) else later
  {
    hide Drive, Rest, Sound, BlockThen, Combine, Checksum, LastColumn, Vector, ChainOk, CodedOk, SentOk, BlockOf, DataOf;
    var r := ParseSent(table, s, k, p, rest);
    StoppedRun(r, rest);
    BlocksShrink(s.c, k, rest);
    SentParts(table, s, k);
    BlockData(table, s, k, ChainOf(r.out, r.origPtr));
    q := r.(at := BlkHdr(1));
  }

  /** The blocks from block i on, then a trailer with some combined checksum: all their data, or an error. */
  lemma {:induction false} DecodeBlocks(table: seq<bv32>, log: seq<Sent>, i: nat, k: nat, p: Parser, crc: bv32, pad: seq<bool>)
    requires LogOk(table, log, k) && i <= |log| && p.at == BlkHdr(1) && p.blockSize100k == k
    ensures Decode(table, p, BlocksThen(table, log, i, k, TrailerBits(ToNat(crc), pad)), LogCrc(table, log[..i], k))
            == if crc == LogCrc(table, log, k) then Decoded(LaterData(log, i)) else Corrupt
    decreases |log| - i
  {
    hide Drive, BlocksThen, BlockThen, LogOk, TrailerBits, Combine, Checksum, CodedOk, Decode, LogCrc, LaterData;
    LogPrefix(table, log, i, k);
    var tail := TrailerBits(ToNat(crc), pad);
    BlocksAt(table, log, i, k, tail);
    if i == |log| {
      assert log[..i] == log;
      DecodeTrailer(table, p, crc, pad, LogCrc(table, log, k));
      NoneLater(log);
    } else {
      LogPrefix(table, log, i + 1, k);
      var rest := BlocksThen(table, log, i + 1, k, tail);
      SentAt(table, log, i, k);
      var q := DecodeSent(table, log[i], k, p, rest, LogCrc(table, log[..i], k));
      CrcNext(table, log, i, k);
      DecodeBlocks(table, log, i + 1, k, q, crc, pad);
      LaterNext(log, i);
    }
  }

  lemma DecodeTrailer(table: seq<bv32>, p: Parser, crc: bv32, pad: seq<bool>, combined: bv32)
    requires |table| == 256 && p.at == BlkHdr(1)
    ensures Decode(table, p, TrailerBits(ToNat(crc), pad), combined) == if crc == combined then Decoded([]) else Corrupt
  {
    hide Drive, TrailerBits, ToNat;
    ParseTrailer(p, ToNat(crc), pad);
    StoppedRun(p.(at := Idle, storedCombinedCRC := ToNat(crc)), pad);
    NumberTells(crc, combined);
  }

  ghost function LaterData(log: seq<Sent>, i: nat): seq<int>
    requires i <= |log|
    decreases |log| - i
  {
    if i == |log| then [] else DataOf(log[i].rs) + LaterData(log, i + 1)
  }

  lemma NoneLater(log: seq<Sent>)
    ensures LaterData(log, |log|) == []
  {
  }

  lemma LaterNext(log: seq<Sent>, i: nat)
    requires i < |log|
    ensures LaterData(log, i) == DataOf(log[i].rs) + LaterData(log, i + 1)
  {
  }

  lemma LogPrefix(table: seq<bv32>, log: seq<Sent>, i: nat, k: nat)
    requires LogOk(table, log, k) && i <= |log|
    ensures LogOk(table, log[..i], k) && |table| == 256 && 1 <= k <= 9
  {
    hide SentOk;
  }

  lemma SentAt(table: seq<bv32>, log: seq<Sent>, i: nat, k: nat)
    requires LogOk(table, log, k) && i < |log|
    ensures SentOk(table, log[i], k)
  {
    hide SentOk;
  }

  lemma CrcNext(table: seq<bv32>, log: seq<Sent>, i: nat, k: nat)
    requires i < |log| && LogOk(table, log, k) && LogOk(table, log[..i], k) && LogOk(table, log[..i + 1], k)
    requires |table| == 256 && Bytes(DataOf(log[i].rs))
    ensures LogCrc(table, log[..i + 1], k) == Combine(LogCrc(table, log[..i], k), Checksum(table, DataOf(log[i].rs)))
  {
    hide Combine, Checksum, SentOk, LogOk;
    assert log[..i + 1][..i] == log[..i];
  }

  lemma {:induction false} DataSplits(log: seq<Sent>, i: nat)
    requires i <= |log|
    ensures LogData(log) == LogData(log[..i]) + LaterData(log, i)
    decreases |log| - i
  {
    hide DataOf;
    if i == |log| {
      assert log[..i] == log;
    } else {
      DataSplits(log, i + 1);
      assert log[..i + 1][..i] == log[..i];
      assert LogData(log[..i + 1]) == LogData(log[..i]) + DataOf(log[i].rs);
    }
  }

  /** A whole stream of these blocks, with some combined checksum in its trailer. */
  ghost function StreamWith(table: seq<bv32>, log: seq<Sent>, k: nat, crc: bv32, pad: seq<bool>): seq<bool>
    requires LogOk(table, log, k)
  {
    BytesThen(HeaderBytes(k), BlocksThen(table, log, 0, k, TrailerBits(ToNat(crc), pad)))
  }

  /** It decodes to the data of its blocks just when the combined checksum is theirs, whatever padding follows. */
  lemma DecodeWith(table: seq<bv32>, log: seq<Sent>, k: nat, crc: bv32, pad: seq<bool>)
    requires LogOk(table, log, k)
    ensures |table| == 256
    ensures Decode(table, Fresh(), StreamWith(table, log, k, crc, pad), 0)
            == if crc == LogCrc(table, log, k) then Decoded(LogData(log)) else Corrupt
  {
    hide Drive, BlocksThen, TrailerBits, LogCrc, Decode, SentOk, Fresh, BytesThen, HeaderBytes, LogOk, ToNat;
    AccountedK(table, log, k);
    var blocks := BlocksThen(table, log, 0, k, TrailerBits(ToNat(crc), pad));
    ParseStart(k, blocks);
    var p := Started(k);
    BytesThenLonger(HeaderBytes(k), blocks);
    SameRunSameDecode(table, Fresh(), BytesThen(HeaderBytes(k), blocks), p, blocks, 0);
    LogPrefix(table, log, 0, k);
    NoCrc(table, log, k);
    DecodeBlocks(table, log, 0, k, p, crc, pad);
    DataSplits(log, 0);
    NoData(log);
  }

  /** Decoding what compressing has written: all the data of all blocks, whatever padding follows. */
  lemma DecodeCompressed(table: seq<bv32>, log: seq<Sent>, k: nat, pad: seq<bool>)
    requires LogOk(table, log, k)
    ensures |table| == 256
    ensures Decode(table, Fresh(), ClosedBits(table, log, k) + pad, 0) == Decoded(LogData(log))
  {
    hide *;
    AccountedK(table, log, k);
    ClosedThen(table, log, k, pad);
    DecodeWith(table, log, k, LogCrc(table, log, k), pad);
  }

  function Started(k: nat): (p: Parser)
    ensures p.at == BlkHdr(1) && p.blockSize100k == k && p == Fresh().(at := BlkHdr(1), blockSize100k := k)
  {
    Fresh().(at := BlkHdr(1), blockSize100k := k)
  }

  lemma AccountedK(table: seq<bv32>, log: seq<Sent>, k: nat)
    requires LogOk(table, log, k)
    ensures |table| == 256 && 1 <= k <= 9
  {
  }

  lemma NoCrc(table: seq<bv32>, log: seq<Sent>, k: nat)
    requires LogOk(table, log[..0], k)
    ensures LogCrc(table, log[..0], k) == 0
  {
  }

  lemma NoData(log: seq<Sent>)
    ensures LogData(log[..0]) + LaterData(log, 0) == LaterData(log, 0)
  {
  }

  lemma ClosedThen(table: seq<bv32>, log: seq<Sent>, k: nat, pad: seq<bool>)
    requires LogOk(table, log, k)
    ensures ClosedBits(table, log, k) + pad == StreamWith(table, log, k, LogCrc(table, log, k), pad)
  {
    hide BlocksThen, LogCrc, SentOk, BytesThen, WordBytes, ENDMAGIC, ToNat;
    var crc := ToNat(LogCrc(table, log, k));
    TrailerBytes(crc);
    BytesAppend(ENDMAGIC + WordBytes(crc), [], pad);
    assert [] + pad == pad;
    assert TrailerBits(crc, []) + pad == TrailerBits(crc, pad);
    BlocksAppend(table, log, 0, k, TrailerBits(crc, []), pad);
    BytesAppend(HeaderBytes(k), BlocksThen(table, log, 0, k, TrailerBits(crc, [])), pad);
  }

  lemma TrailerBytes(crc: nat)
    ensures forall i | 0 <= i < |ENDMAGIC + WordBytes(crc)| :: 0 <= (ENDMAGIC + WordBytes(crc))[i] < 256
  {
  }

  /** Decoding depends on where the parser gets to, and on nothing else. */
  lemma SameRunSameDecode(table: seq<bv32>, p: Parser, bits: seq<bool>, p': Parser, bits': seq<bool>, combined: bv32)
    requires |table| == 256 && Drive(p, bits) == Drive(p', bits') && |bits'| <= |bits| && Need(p') > 0
    ensures Decode(table, p, bits, combined) == Decode(table, p', bits', combined)
  {
    DriveMoves(p', bits');
    RunShrinks(p', bits');
    hide Drive, Resume;
    ResumeSame(table, Drive(p', bits').0, Drive(p', bits').1, combined, |bits|, |bits'|);
  }

  lemma ResumeSame(table: seq<bv32>, q: Parser, rest: seq<bool>, combined: bv32, n: nat, n': nat)
    requires |table| == 256 && |rest| <= n' <= n && (|rest| < n' || q.at != Output)
    ensures Resume(table, q, rest, combined, n) == Resume(table, q, rest, combined, n')
  {
    hide Decode, Rest, Sound, Checksum, Combine, ToNat, Vector, ChainOk, Bytes;
  }

  lemma DriveMoves(p: Parser, bits: seq<bool>)
    requires Need(p) > 0
    ensures |Drive(p, bits).1| < |bits| || Drive(p, bits).0 == p
  {
    hide Step;
    if |bits| >= Need(p) {
      RunShrinks(Step(p, Val(bits[..Need(p)])), bits[Need(p)..]);
    }
  }

  lemma {:induction false} BytesThenLonger(bytes: seq<int>, rest: seq<bool>)
    requires forall i | 0 <= i < |bytes| :: 0 <= bytes[i] < 256
    ensures |rest| <= |BytesThen(bytes, rest)|
    decreases |bytes|
  {
    if bytes != [] {
      BytesThenLonger(bytes[1..], rest);
    }
  }
}
