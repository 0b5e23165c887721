/** How a stream begins: its first four bytes, and the one error code that speaks of them. */
module StreamStart {
  import opened Basics
  import opened BlockFormat
  import opened BlockParser
  import opened Crc
  import opened DecoderState
  import opened FrontEnd
  import opened ParseHeader
  import opened ParserBounds
  import opened RoundTrip
  import opened RunLength
  import opened StreamFormat
  import opened Words
  import Bits

  /** A byte that a stream can have at place i: "BZh", and then a digit from 1 to 9. */
  predicate StartByte(i: nat, v: int) {
    if i == 0 then v == 0x42 else if i == 1 then v == 0x5A else if i == 2 then v == 0x68 else 0x31 <= v <= 0x39
  }

  /** The bytes, as many as there are, depart from that within the first four. */
  ghost predicate BadStart(s: seq<int>) {
    exists i :: 0 <= i < 4 && i < |s| && !StartByte(i, s[i])
  }

  /** Four bytes, and all right. */
  ghost predicate GoodStart(s: seq<int>) {
    |s| >= 4 && !BadStart(s)
  }

  // ---------- the codes of failures ----------

  /** A failure says that the magic number is wrong while that is being read, and that the data are wrong later. */
  predicate FailsRight(p: Parser, magic: bool) {
    p.at.Failed? ==> p.at.code == OUTSIDE || p.at.code == if magic then DATA_ERROR_MAGIC else DATA_ERROR
  }

  lemma StartStep(p: Parser, v: nat)
    requires p.at.Magic? && 1 <= p.at.k <= 4
    ensures HeaderStep(p, v).at == if !StartByte(p.at.k - 1, v) then Failed(DATA_ERROR_MAGIC)
                                   else if p.at.k < 4 then Magic(p.at.k + 1) else BlkHdr(1)
  {
  }

  lemma HeadFails(p: Parser, v: nat)
    requires p.at.Magic? || p.at.BlkHdr? || p.at.Bcrc? || p.at == RandBit || p.at.OrigPtr? || p.at.EndHdr? || p.at.Ccrc?
    ensures FailsRight(HeaderStep(p, v), p.at.Magic?)
  {
  }

  lemma TableFails(p: Parser, v: nat)
    requires InSelectors(p) || InTables(p)
    ensures FailsRight(HeaderStep(p, v), false)
  {
    hide AlphaSize, UndoSelectors, BlockParser.Least;
  }

  lemma MapFails(p: Parser, v: nat)
    requires p.at == Mapping1 || p.at == Mapping2
    ensures FailsRight(HeaderStep(p, v), false)
  {
    hide AlphaSize, NextUsed16;
  }

  lemma HeaderFails(p: Parser, v: nat)
    requires Need(p) > 0 && !InData(p)
    ensures FailsRight(HeaderStep(p, v), p.at.Magic?)
  {
    hide HeaderStep, FailsRight;
    if p.at == Mapping1 || p.at == Mapping2 {
      MapFails(p, v);
    } else if InSelectors(p) || InTables(p) {
      TableFails(p, v);
    } else {
      HeadFails(p, v);
    }
  }

  // ---------- the first four bytes ----------

  /** The magic number has been read. */
  predicate Past(p: Parser) {
    !p.at.Magic? && p.at != Failed(DATA_ERROR_MAGIC)
  }

  lemma StepPast(p: Parser, v: nat)
    requires Past(p) && Need(p) > 0
    ensures Past(Step(p, v))
  {
    if InData(p) {
      StepIsCheck(p, v);
      hide Step, CheckCode;
      var q := p.(zvec := if p.at == MtfFirst then v else 2 * p.zvec + v);
      DataFails(q);
      DataPast(q);
    } else {
      StepIsHeader(p, v);
      hide Step, HeaderStep;
      HeaderShape(p, v);
      HeaderFails(p, v);
    }
  }

  lemma DataPast(p: Parser)
    requires InData(p)
    ensures !CheckCode(p).at.Magic?
  {
    hide LimitAt, SymbolAt, Table, AlphaSize, Unseq, BlockMax, MinLen;
  }

  lemma {:induction false} RunPast(p: Parser, bits: seq<bool>)
    requires Past(p)
    ensures Past(Drive(p, bits).0)
    decreases |bits|
  {
    hide Step, Past;
    var n := Need(p);
    if n != 0 && |bits| >= n {
      StepPast(p, Val(bits[..n]));
      RunPast(Step(p, Val(bits[..n])), bits[n..]);
    }
  }

  /** Which places of the magic number these bytes get wrong, when they follow k - 1 right ones. */
  ghost predicate Departs(k: nat, s: seq<int>)
    requires 1 <= k <= 4
  {
    exists i :: 0 <= i < 5 - k && i < |s| && !StartByte(k - 1 + i, s[i])
  }

  /** From a place within the magic number: an error at the first wrong byte, and past it only with all four right. */
  lemma {:induction false} RunStart(p: Parser, s: seq<int>)
    requires p.at.Magic? && 1 <= p.at.k <= 4 && Bytes(s)
    ensures var k, d := p.at.k, Drive(p, BytesThen(s, []));
      if Departs(k, s) then d.0.at == Failed(DATA_ERROR_MAGIC)
      else if |s| < 5 - k then d.0.at == Magic(k + |s|) && d.1 == []
      else Past(d.0)
    decreases |s|
  {
    hide Drive, Step, BytesThen;
    var k := p.at.k;
    if s == [] {
      NoneRead(p);
    } else {
      var v, s' := s[0], s[1..];
      assert s == [v] + s';
      ParseByte(p, v, s', []);
      StepIsHeader(p, v);
      StartStep(p, v);
      hide HeaderStep;
      var q := Step(p, v);
      DepartsNext(k, s);
      if !StartByte(k - 1, v) {
        StoppedRun(q, BytesThen(s', []));
      } else if k < 4 {
        RunStart(q, s');
      } else {
        RunPast(q, BytesThen(s', []));
      }
    }
  }

  lemma NoneRead(p: Parser)
    requires Need(p) == 8
    ensures Drive(p, BytesThen([], [])) == (p, [])
  {
  }

  lemma DepartsNext(k: nat, s: seq<int>)
    requires 1 <= k <= 4 && s != []
    ensures Departs(k, s) <==> !StartByte(k - 1, s[0]) || (k < 4 && Departs(k + 1, s[1..]))
  {
    if k < 4 && Departs(k + 1, s[1..]) {
      var i :| 0 <= i < 4 - k && i < |s| - 1 && !StartByte(k + i, s[1..][i]);
      assert s[i + 1] == s[1..][i];
    }
    if Departs(k, s) && StartByte(k - 1, s[0]) {
      var i :| 0 <= i < 5 - k && i < |s| && !StartByte(k - 1 + i, s[i]);
      assert s[1..][i - 1] == s[i];
    }
  }

  // ---------- the first six bytes of a block ----------

  /** The magic numbers of a block and of the trailer: pi, and its square root, in decimal digits. */
  predicate HeadBytes(s: seq<int>, end: bool) {
    s == if end then [0x17, 0x72, 0x45, 0x38, 0x50, 0x90] else [0x31, 0x41, 0x59, 0x26, 0x53, 0x59]
  }

  /** Within one of them. */
  predicate InHead(p: Parser, k: nat, end: bool) {
    p.at == if end then EndHdr(k) else BlkHdr(k)
  }

  lemma HeadStep(p: Parser, k: nat, end: bool, v: nat)
    requires 2 <= k <= 6 && InHead(p, k, end)
    ensures |BLOCKMAGIC| == |ENDMAGIC| == 6
    ensures v == (if end then ENDMAGIC else BLOCKMAGIC)[k - 1] && k < 6 ==> InHead(HeaderStep(p, v), k + 1, end)
    ensures v != (if end then ENDMAGIC else BLOCKMAGIC)[k - 1] ==> HeaderStep(p, v).at == Failed(DATA_ERROR)
  {
  }

  lemma FirstStep(p: Parser, v: nat)
    requires p.at == BlkHdr(1)
    ensures v == 0x17 ==> InHead(HeaderStep(p, v), 2, true)
    ensures v == 0x31 ==> InHead(HeaderStep(p, v), 2, false)
    ensures v != 0x17 && v != 0x31 ==> HeaderStep(p, v).at == Failed(DATA_ERROR)
  {
  }

  lemma {:induction false} RunHead(p: Parser, k: nat, end: bool, s: seq<int>, rest: seq<bool>)
    requires 2 <= k <= 6 && InHead(p, k, end) && Bytes(s) && |s| == 7 - k
    ensures |BLOCKMAGIC| == |ENDMAGIC| == 6
    ensures s != (if end then ENDMAGIC else BLOCKMAGIC)[k - 1..] ==> Drive(p, BytesThen(s, rest)).0.at == Failed(DATA_ERROR)
    decreases |s|
  {
    hide Drive, Step, HeaderStep, BytesThen, BLOCKMAGIC, ENDMAGIC;
    var v, s' := s[0], s[1..];
    HeadStep(p, k, end, v);
    var m := if end then ENDMAGIC else BLOCKMAGIC;
    assert s == [v] + s' && m[k - 1..] == [m[k - 1]] + m[k..];
    HeadNeeds(p, k, end);
    ParseByte(p, v, s', rest);
    StepIsHeader(p, v);
    if v != m[k - 1] {
      StoppedRun(Step(p, v), BytesThen(s', rest));
    } else if k < 6 {
      RunHead(Step(p, v), k + 1, end, s', rest);
    }
  }

  lemma HeadNeeds(p: Parser, k: nat, end: bool)
    requires InHead(p, k, end)
    ensures Need(p) == 8 && !InData(p)
  {
  }

  /** Six bytes at the start of a block, or at the end of the last: any but the two magic numbers are a data error. */
  lemma HeadRead(p: Parser, s: seq<int>, rest: seq<bool>)
    requires p.at == BlkHdr(1) && Bytes(s) && |s| == 6
    ensures !HeadBytes(s, false) && !HeadBytes(s, true) ==> Drive(p, BytesThen(s, rest)).0.at == Failed(DATA_ERROR)
  {
    hide Drive, Step, HeaderStep, BytesThen;
    var v, s' := s[0], s[1..];
    assert s == [v] + s';
    FirstStep(p, v);
    HeadNeeds(p, 1, false);
    ParseByte(p, v, s', rest);
    StepIsHeader(p, v);
    if v == 0x17 {
      RunHead(Step(p, v), 2, true, s', rest);
    } else if v == 0x31 {
      RunHead(Step(p, v), 2, false, s', rest);
    } else {
      StoppedRun(Step(p, v), BytesThen(s', rest));
    }
  }

  // ---------- what has been heard of the magic number ----------

  /** All that has come in is got; held and input are what the parser has not used of it. */
  ghost predicate Heard(at: Label, held: seq<bool>, input: seq<int>, got: seq<int>) {
    if at.Magic? then
      && 1 <= at.k <= 4 && held == [] && |got| == at.k - 1 + |input| && got[at.k - 1..] == input
      && forall i | 0 <= i < at.k - 1 :: StartByte(i, got[i])
    else GoodStart(got)
  }

  lemma HeardMore(at: Label, held: seq<bool>, input: seq<int>, got: seq<int>, more: seq<int>)
    ensures Heard(at, held, input, got) ==> Heard(at, held, input + more, got + more)
  {
    hide StartByte;
    if Heard(at, held, input, got) && !at.Magic? {
      assert forall i | 0 <= i < 4 :: (got + more)[i] == got[i];
    }
  }

  lemma HeardPast(at: Label, held: seq<bool>, input: seq<int>, got: seq<int>)
    requires Heard(at, held, input, got) && !at.Magic?
    ensures GoodStart(got) && !BadStart(got)
  {
    hide BadStart;
  }

  lemma DepartsIs(k: nat, s: seq<int>, got: seq<int>)
    requires 1 <= k <= 4 && |got| >= k - 1 && s <= got[k - 1..] && forall i | 0 <= i < k - 1 :: StartByte(i, got[i])
    ensures Departs(k, s) ==> BadStart(got)
    ensures BadStart(got) && (|s| >= 5 - k || s == got[k - 1..]) ==> Departs(k, s)
  {
    if Departs(k, s) {
      var i :| 0 <= i < 5 - k && i < |s| && !StartByte(k - 1 + i, s[i]);
      assert got[k - 1 + i] == s[i];
    }
    if BadStart(got) && (|s| >= 5 - k || s == got[k - 1..]) {
      var i :| 0 <= i < 4 && i < |got| && !StartByte(i, got[i]);
      assert got[i] == s[i - (k - 1)];
    }
  }

  /** What a call of BZ2_decompress makes of it: it fails with the code just when a wrong byte has come in. */
  lemma HeardOn(g: Parser, h: seq<bool>, input: seq<int>, used: nat, a: Parser, b: seq<bool>, got: seq<int>)
    requires Heard(g.at, h, input, got) && Past(g) == !g.at.Magic? && Bytes(input) && used <= |input|
    requires Reached(g, h + BytesBits(input[..used]), a, b) && (Need(a) > 0 ==> used == |input|)
    ensures a.at == Failed(DATA_ERROR_MAGIC) <==> BadStart(got)
    ensures a.at.Failed? && a.at != Failed(DATA_ERROR_MAGIC) ==> GoodStart(got)
    ensures !a.at.Failed? ==> Heard(a.at, b, input[used..], got)
  {
    hide Drive, BytesBits, StartByte;
    var bits := h + BytesBits(input[..used]);
    if g.at.Magic? {
      var s := input[..used];
      assert bits == BytesThen(s, []) by {
        BitsThen(s);
        assert h == [];
      }
      RunStart(g, s);
      DepartsIs(g.at.k, s, got);
      assert |s| >= 5 - g.at.k ==> |got| >= 4;
      if !Departs(g.at.k, s) && used < 5 - g.at.k {
        StillHeard(g.at.k, input, used, got);
      }
    } else {
      RunPast(g, bits);
    }
  }

  /** The first used bytes are right and there are not yet four. */
  lemma StillHeard(k: nat, input: seq<int>, used: nat, got: seq<int>)
    requires 1 <= k <= 4 && used <= |input| && |got| == k - 1 + |input| && got[k - 1..] == input
    requires forall i | 0 <= i < k - 1 :: StartByte(i, got[i])
    requires !Departs(k, input[..used]) && used < 5 - k
    ensures Heard(Magic(k + used), [], input[used..], got)
  {
    hide StartByte;
    var m := k - 1 + used;
    forall i | k - 1 <= i < m
      ensures StartByte(i, got[i])
    {
      var x := i - (k - 1);
      assert got[i] == input[..used][x];
      assert StartByte(k - 1 + x, input[..used][x]);
    }
    assert got[m..] == input[used..];
  }

  lemma {:induction false} BitsThen(s: seq<int>)
    requires Bytes(s)
    ensures BytesThen(s, []) == BytesBits(s)
    decreases |s|
  {
    if s != [] {
      BitsThen(s[1..]);
      assert s == [s[0]] + s[1..];
      BytesBitsConcat([s[0]], s[1..]);
      OneByte(s[0]);
    }
  }

  lemma OneByte(v: int)
    requires 0 <= v < 256
    ensures BytesBits([v]) == Bin(v, 8)
  {
    assert [v][..0] == [];
    assert BytesBits([]) == [];
    assert [] + Bin(v, 8) == Bin(v, 8);
  }

  // ---------- how a stream that has been written begins ----------

  /** Its first ten bytes: "BZh", the digit of the block size, and the magic number of a block, or of the trailer. */
  ghost predicate WrittenStart(s: seq<int>, k: nat, blocks: bool) {
    && |s| >= 10 && s[..4] == [0x42, 0x5A, 0x68, 0x30 + k]
    && HeadBytes(s[4..10], !blocks)
  }

  lemma ByteAgain(v: int, w: int, r: seq<bool>, q: seq<bool>)
    requires 0 <= v < 256 && 0 <= w < 256 && Bin(v, 8) + r == Bin(w, 8) + q
    ensures v == w && r == q
  {
    Bits.Pow2Values();
    assert (Bin(v, 8) + r)[..8] == Bin(v, 8) && (Bin(w, 8) + q)[..8] == Bin(w, 8);
    assert (Bin(v, 8) + r)[8..] == r && (Bin(w, 8) + q)[8..] == q;
    ValOfBin(v, 8);
    ValOfBin(w, 8);
  }

  lemma {:induction false} BytesAgain(s: seq<int>, t: seq<int>, rest: seq<bool>)
    requires Bytes(s) && Bytes(t) && BytesThen(s, []) == BytesThen(t, rest)
    ensures |s| >= |t| && s[..|t|] == t
    decreases |t|
  {
    hide Bin;
    if t != [] {
      if s != [] {
        ByteAgain(s[0], t[0], BytesThen(s[1..], []), BytesThen(t[1..], rest));
        BytesAgain(s[1..], t[1..], rest);
        assert s[..|t|] == [s[0]] + s[1..][..|t| - 1];
      }
    }
  }

  lemma {:induction false} BytesJoin(a: seq<int>, b: seq<int>, rest: seq<bool>)
    requires Bytes(a) && Bytes(b) && Bytes(a + b)
    ensures BytesThen(a + b, rest) == BytesThen(a, BytesThen(b, rest))
    decreases |a|
  {
    hide Bin;
    if a == [] {
      assert a + b == b;
    } else {
      BytesJoin(a[1..], b, rest);
      assert (a + b)[1..] == a[1..] + b;
    }
  }

  /** What follows the header. */
  lemma BlocksStart(table: seq<bv32>, log: seq<Sent>, k: nat, crc: nat, pad: seq<bool>) returns (rest: seq<bool>)
    requires LogOk(table, log, k)
    ensures BlocksThen(table, log, 0, k, TrailerBits(crc, pad)) == BytesThen(if log == [] then ENDMAGIC else BLOCKMAGIC, rest)
  {
    hide BytesThen, LogOk, WordBytes, MappedThen, Bin;
    if log == [] {
      BytesJoin(ENDMAGIC, WordBytes(crc), pad);
      rest := BytesThen(WordBytes(crc), pad);
      NoBlocks(table, k, TrailerBits(crc, pad));
    } else {
      var later := BlocksThen(table, log, 1, k, TrailerBits(crc, pad));
      CodedSentAt(table, log, 0, k);
      var c := log[0].c;
      var r := [false] + (Bin(c.origPtr, 24) + MappedThen(c, k, later));
      BytesJoin(BLOCKMAGIC, WordBytes(c.crc), r);
      rest := BytesThen(WordBytes(c.crc), r);
      FirstBlock(table, log, k, TrailerBits(crc, pad));
    }
  }

  lemma NoBlocks(table: seq<bv32>, k: nat, rest: seq<bool>)
    requires LogOk(table, [], k)
    ensures BlocksThen(table, [], 0, k, rest) == rest
  {
  }

  lemma FirstBlock(table: seq<bv32>, log: seq<Sent>, k: nat, rest: seq<bool>)
    requires LogOk(table, log, k) && log != []
    ensures CodedOk(log[0].c, k)
    ensures BlocksThen(table, log, 0, k, rest) == BlockThen(log[0].c, k, BlocksThen(table, log, 1, k, rest))
  {
    hide BlockThen, SentOk;
    CodedSentAt(table, log, 0, k);
  }

  lemma StreamStarts(table: seq<bv32>, log: seq<Sent>, k: nat, crc: bv32, pad: seq<bool>) returns (rest: seq<bool>)
    requires LogOk(table, log, k) && 1 <= k <= 9
    ensures Bytes(HeaderBytes(k) + if log == [] then ENDMAGIC else BLOCKMAGIC)
    ensures StreamWith(table, log, k, crc, pad) == BytesThen(HeaderBytes(k) + if log == [] then ENDMAGIC else BLOCKMAGIC, rest)
  {
    hide BytesThen, LogOk, ToNat, TrailerBits, BlocksThen;
    rest := BlocksStart(table, log, k, ToNat(crc), pad);
    BytesJoin(HeaderBytes(k), if log == [] then ENDMAGIC else BLOCKMAGIC, rest);
  }

  lemma TenBytes(s: seq<int>, k: nat, end: bool)
    requires 1 <= k <= 9
    requires var head := HeaderBytes(k) + if end then ENDMAGIC else BLOCKMAGIC; |s| >= |head| && s[..|head|] == head
    ensures WrittenStart(s, k, !end)
  {
    assert s[..4] == s[..10][..4] && s[4..10] == s[..10][4..];
  }

  lemma CompleteStarts(table: seq<bv32>, log: seq<Sent>, k: nat, pad: nat, s: seq<int>)
    requires LogOk(table, log, k) && Bytes(s) && BytesBits(s) == ClosedBits(table, log, k) + Zeros(pad)
    ensures WrittenStart(s, k, log != [])
  {
    hide *;
    AccountedK(table, log, k);
    ClosedThen(table, log, k, Zeros(pad));
    BitsThen(s);
    var rest := StreamStarts(table, log, k, LogCrc(table, log, k), Zeros(pad));
    BytesAgain(s, HeaderBytes(k) + if log == [] then ENDMAGIC else BLOCKMAGIC, rest);
    TenBytes(s, k, log == []);
  }

  /** Blocks are not empty, so there are some just when there are data. */
  lemma {:induction false} SomeBlocks(table: seq<bv32>, log: seq<Sent>, k: nat)
    requires LogOk(table, log, k)
    ensures log == [] <==> LogData(log) == []
  {
    if log != [] {
      var s := log[|log| - 1];
      SentAt(table, log, |log| - 1, k);
      SentParts(table, s, k);
      hide SentOk, Runs;
      SameEmptiness(s.rs);
    }
  }

  /** All of a stream without data: header, trailer, and a combined checksum of 0. */
  function EmptyStream(k: nat): seq<int> {
    [0x42, 0x5A, 0x68, 0x30 + k, 0x17, 0x72, 0x45, 0x38, 0x50, 0x90, 0, 0, 0, 0]
  }

  lemma EmptyBits(table: seq<bv32>, k: nat, pad: seq<bool>)
    requires LogOk(table, [], k) && 1 <= k <= 9
    ensures Bytes(EmptyStream(k)) && StreamWith(table, [], k, 0, pad) == BytesThen(EmptyStream(k), pad)
  {
    hide BytesThen, LogOk;
    NoBlocks(table, k, TrailerBits(ToNat(0), pad));
    assert ToNat(0) == 0;
    var t := ENDMAGIC + WordBytes(0);
    BytesJoin(HeaderBytes(k), t, pad);
    assert HeaderBytes(k) + t == EmptyStream(k);
  }

  lemma {:induction false} BytesThenLength(s: seq<int>, rest: seq<bool>)
    requires Bytes(s)
    ensures |BytesThen(s, rest)| == 8 * |s| + |rest|
    decreases |s|
  {
    if s != [] {
      BytesThenLength(s[1..], rest);
    }
  }

  lemma EmptyComplete(table: seq<bv32>, k: nat, pad: nat, s: seq<int>)
    requires LogOk(table, [], k) && Bytes(s) && pad < 8 && BytesBits(s) == ClosedBits(table, [], k) + Zeros(pad)
    ensures s == EmptyStream(k)
  {
    AccountedK(table, [], k);
    assert LogCrc(table, [], k) == 0;
    hide BytesThen, BytesBits, ClosedBits, LogOk, LogCrc, StreamWith;
    ClosedThen(table, [], k, Zeros(pad));
    EmptyBits(table, k, Zeros(pad));
    BitsThen(s);
    BytesAgain(s, EmptyStream(k), Zeros(pad));
    BytesThenLength(s, []);
    BytesThenLength(EmptyStream(k), Zeros(pad));
    assert s[..14] == s;
  }
}
