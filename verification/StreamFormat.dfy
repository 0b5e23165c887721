/** A whole stream: header, blocks, trailer, and what its blocks record about the data they stand for. */
module StreamFormat {
  import opened Basics
  import opened BlockEncoder
  import CanonicalCodes
  import PrefixCodes
  import opened BlockFormat
  import opened Crc
  import opened MtfCoding
  import opened RunLength
  import opened Words

  /** A block that has been sent: its runs, its bits, and the row order they were made from. */
  datatype Sent = Sent(rs: seq<Run>, c: Coded, p: seq<int>)

  ghost predicate SentOk(table: seq<bv32>, s: Sent, k: nat) {
    && |table| == 256 && 1 <= k <= 9
    && Runs(s.rs) && Bytes(DataOf(s.rs))
    && |BlockOf(s.rs)| <= 100000 * k - 10
    && Encodes(s.c, BlockOf(s.rs), s.p, ToNat(Checksum(table, DataOf(s.rs))), k)
  }

  ghost predicate LogOk(table: seq<bv32>, log: seq<Sent>, k: nat) {
    && |table| == 256 && 1 <= k <= 9
    && forall i | 0 <= i < |log| :: SentOk(table, log[i], k)
  }

  /** A block that is sent marks the bytes it has, and has a code for each of them and two more. */
  lemma SentMarks(table: seq<bv32>, s: Sent, k: nat)
    requires SentOk(table, s, k)
    ensures |s.c.inUse| == 256 && forall x | 0 <= x < 256 :: s.c.inUse[x] <==> x in BlockOf(s.rs)
    ensures forall t | 0 <= t < |s.c.lens| :: |s.c.lens[t]| == |set x | x in BlockOf(s.rs)| + 2
  {
    CharactersInUse(BlockOf(s.rs), s.c.inUse);
    hide Numbering, BlockOf, Runs, PrefixCodes.ValidLengths, BlockSymbols;
  }

  /** The data of all blocks sent. */
  ghost function LogData(log: seq<Sent>): seq<int> {
    if log == [] then [] else LogData(log[..|log| - 1]) + DataOf(log[|log| - 1].rs)
  }

  /** The combined checksum over all blocks sent. */
  ghost function LogCrc(table: seq<bv32>, log: seq<Sent>, k: nat): bv32
    requires LogOk(table, log, k)
  {
    if log == [] then 0 else
      assert SentOk(table, log[|log| - 1], k);
      Combine(LogCrc(table, log[..|log| - 1], k), Checksum(table, DataOf(log[|log| - 1].rs)))
  }

  function HeaderBytes(k: nat): (r: seq<int>)
    requires 1 <= k <= 9
    ensures |r| == 4 && forall i | 0 <= i < 4 :: 0 <= r[i] < 256
  {
    [0x42, 0x5A, 0x68, 0x30 + k]
  }

  /** The blocks from block i on, then rest. */
  ghost function BlocksThen(table: seq<bv32>, log: seq<Sent>, i: nat, k: nat, rest: seq<bool>): seq<bool>
    requires LogOk(table, log, k) && i <= |log|
    decreases |log| - i
  {
    if i == |log| then rest else
      assert SentOk(table, log[i], k);
      BlockThen(log[i].c, k, BlocksThen(table, log, i + 1, k, rest))
  }

  /** What has been written when the given blocks have, and the stream is still open. */
  ghost function OpenBits(table: seq<bv32>, log: seq<Sent>, k: nat): seq<bool>
    requires LogOk(table, log, k)
  {
    BytesThen(HeaderBytes(k), BlocksThen(table, log, 0, k, []))
  }

  ghost function ClosedBits(table: seq<bv32>, log: seq<Sent>, k: nat): seq<bool>
    requires LogOk(table, log, k)
  {
    BytesThen(HeaderBytes(k), BlocksThen(table, log, 0, k, TrailerBits(ToNat(LogCrc(table, log, k)), [])))
  }

  function TrailerBits(crc: nat, rest: seq<bool>): seq<bool> {
    BytesThen(ENDMAGIC + WordBytes(crc), rest)
  }

  // ---------- appending ----------

  lemma {:induction false} UnaryAppend(mtf: seq<int>, rest: seq<bool>, tail: seq<bool>)
    requires forall i | 0 <= i < |mtf| :: mtf[i] >= 0
    ensures UnaryThen(mtf, rest) + tail == UnaryThen(mtf, rest + tail)
    decreases |mtf|
  {
    if mtf != [] {
      UnaryAppend(mtf[1..], rest, tail);
      var a, b := Ones(mtf[0]), UnaryThen(mtf[1..], rest);
      assert a + ([false] + b) + tail == a + ([false] + (b + tail));
    }
  }

  lemma {:induction false} GroupsAppend(inUse: seq<bool>, i: nat, rest: seq<bool>, tail: seq<bool>)
    requires |inUse| == 256 && i <= 16
    ensures GroupsThen(inUse, i, rest) + tail == GroupsThen(inUse, i, rest + tail)
    decreases 16 - i
  {
    if i < 16 {
      GroupsAppend(inUse, i + 1, rest, tail);
      var a, b := inUse[16 * i..16 * i + 16], GroupsThen(inUse, i + 1, rest);
      assert a + b + tail == a + (b + tail);
    }
  }

  lemma {:induction false} StepsAppend(a: int, b: int, rest: seq<bool>, tail: seq<bool>)
    ensures StepsThen(a, b, rest) + tail == StepsThen(a, b, rest + tail)
    decreases if a < b then b - a else a - b
  {
    if a != b {
      var next, bit := if a < b then a + 1 else a - 1, a > b;
      StepsAppend(next, b, rest, tail);
      var s := StepsThen(next, b, rest);
      assert [true, bit] + s + tail == [true, bit] + (s + tail);
    }
  }

  lemma {:induction false} LengthsAppend(curr: int, lens: seq<int>, rest: seq<bool>, tail: seq<bool>)
    ensures LengthsThen(curr, lens, rest) + tail == LengthsThen(curr, lens, rest + tail)
    decreases |lens|
  {
    if lens != [] {
      LengthsAppend(lens[0], lens[1..], rest, tail);
      var s := LengthsThen(lens[0], lens[1..], rest);
      StepsAppend(curr, lens[0], [false] + s, tail);
      assert [false] + s + tail == [false] + (s + tail);
    }
  }

  lemma {:induction false} TablesAppend(lens: seq<seq<int>>, rest: seq<bool>, tail: seq<bool>)
    requires forall t | 0 <= t < |lens| :: lens[t] != [] && lens[t][0] >= 0
    ensures TablesThen(lens, rest) + tail == TablesThen(lens, rest + tail)
    decreases |lens|
  {
    hide Bin, LengthsThen;
    if lens != [] {
      TablesAppend(lens[1..], rest, tail);
      var s := TablesThen(lens[1..], rest);
      LengthsAppend(lens[0][0], lens[0], s, tail);
      var h, l := Bin(lens[0][0], 5), LengthsThen(lens[0][0], lens[0], s);
      assert h + l + tail == h + (l + tail);
    }
  }

  lemma {:induction false} DataAppend(c: Coded, x: nat, rest: seq<bool>, tail: seq<bool>)
    requires x <= |c.syms| && forall y: nat | x <= y < |c.syms| :: SymbolOk(c, y)
    ensures DataThen(c, x, rest) + tail == DataThen(c, x, rest + tail)
    decreases |c.syms| - x
  {
    hide Bin;
    if x < |c.syms| {
      assert SymbolOk(c, x);
      DataAppend(c, x + 1, rest, tail);
      var l, s := TableFor(c, x), c.syms[x];
      var h, d := Bin(CanonicalCodes.CodeOf(l, s), l[s]), DataThen(c, x + 1, rest);
      assert h + d + tail == h + (d + tail);
    }
  }

  lemma TabledAppend(c: Coded, k: nat, tail: seq<bool>)
    requires CodedOk(c, k)
    ensures TabledThen(c, k, []) + tail == TabledThen(c, k, tail)
  {
    hide DataThen, TablesThen, CodedOk;
    TabledParts(c, k, []);
    TabledParts(c, k, tail);
    DataAppend(c, 0, [], tail);
    TablesAppend(c.lens, DataThen(c, 0, []), tail);
    assert [] + tail == tail;
  }

  lemma TabledParts(c: Coded, k: nat, rest: seq<bool>)
    requires CodedOk(c, k)
    ensures forall x: nat | x < |c.syms| :: SymbolOk(c, x)
    ensures forall t | 0 <= t < |c.lens| :: c.lens[t] != [] && c.lens[t][0] >= 0
    ensures TabledThen(c, k, rest) == TablesThen(c.lens, DataThen(c, 0, rest))
  {
    hide DataThen, TablesThen, Numbering;
    forall x: nat | x < |c.syms|
      ensures SymbolOk(c, x)
    {
      CodedSymbol(c, k, x);
    }
    forall t | 0 <= t < |c.lens|
      ensures c.lens[t] != [] && c.lens[t][0] >= 0
    {
      assert PrefixCodes.ValidLengths(c.lens[t]);
    }
  }

  /** A block's bits in front of nothing, then a tail, are its bits in front of the tail. */
  lemma BlockAppend(c: Coded, k: nat, tail: seq<bool>)
    requires CodedOk(c, k)
    ensures BlockThen(c, k, []) + tail == BlockThen(c, k, tail)
  {
    hide Bin, TabledThen, UnaryThen, GroupsThen, BytesThen, Used16, CodedOk, WordBytes, BLOCKMAGIC, SelectorMtf;
    TabledAppend(c, k, tail);
    var sel, tab := SelectorPart(c, k), TabledThen(c, k, []);
    UnaryAppend(sel, tab, tail);
    var un := UnaryThen(sel, tab);
    var a, b := Bin(|c.lens|, 3), Bin(|c.selectors|, 15);
    assert a + (b + un) + tail == a + (b + (un + tail));
    SelectedIs(c, k, []);
    SelectedIs(c, k, tail);
    assert SelectedThen(c, k, []) + tail == SelectedThen(c, k, tail);
    MappedIs(c, k, []);
    MappedIs(c, k, tail);
    GroupsAppend(c.inUse, 0, SelectedThen(c, k, []), tail);
    var u, g := Used16(c.inUse), GroupsThen(c.inUse, 0, SelectedThen(c, k, []));
    assert u + g + tail == u + (g + tail);
    assert MappedThen(c, k, []) + tail == MappedThen(c, k, tail);
    BlockThenIs(c, k, []);
    BlockThenIs(c, k, tail);
    var m, o := MappedThen(c, k, []), Bin(c.origPtr, 24);
    MagicBytes();
    BytesAppend(BLOCKMAGIC + WordBytes(c.crc), [false] + (o + m), tail);
    assert [false] + (o + m) + tail == [false] + (o + (m + tail));
  }

  lemma MagicBytes()
    ensures forall i | 0 <= i < |BLOCKMAGIC| :: 0 <= BLOCKMAGIC[i] < 256
  {
  }

  ghost function SelectorPart(c: Coded, k: nat): (r: seq<int>)
    requires CodedOk(c, k)
    ensures forall i | 0 <= i < |r| :: r[i] >= 0
  {
    SelectorMtf(Identity(|c.lens|), c.selectors)
  }

  lemma SelectedIs(c: Coded, k: nat, rest: seq<bool>)
    requires CodedOk(c, k)
    ensures SelectedThen(c, k, rest)
            == Bin(|c.lens|, 3) + (Bin(|c.selectors|, 15) + UnaryThen(SelectorPart(c, k), TabledThen(c, k, rest)))
  {
    hide TabledThen, UnaryThen, Bin;
  }

  lemma MappedIs(c: Coded, k: nat, rest: seq<bool>)
    requires CodedOk(c, k)
    ensures |c.inUse| == 256
    ensures MappedThen(c, k, rest) == Used16(c.inUse) + GroupsThen(c.inUse, 0, SelectedThen(c, k, rest))
  {
    hide SelectedThen, GroupsThen, Used16, Numbering;
  }

  lemma BlocksAt(table: seq<bv32>, log: seq<Sent>, i: nat, k: nat, rest: seq<bool>)
    requires LogOk(table, log, k) && i <= |log|
    ensures i == |log| ==> BlocksThen(table, log, i, k, rest) == rest
    ensures i < |log| ==> CodedOk(log[i].c, k)
    ensures i < |log| ==>
      BlocksThen(table, log, i, k, rest) == BlockThen(log[i].c, k, BlocksThen(table, log, i + 1, k, rest))
  {
    if i < |log| {
      CodedSentAt(table, log, i, k);
    }
    hide BlockThen, LogOk, SentOk, CodedOk;
  }

  lemma {:induction false} BlocksAppend(table: seq<bv32>, log: seq<Sent>, i: nat, k: nat, rest: seq<bool>, tail: seq<bool>)
    requires LogOk(table, log, k) && i <= |log|
    ensures BlocksThen(table, log, i, k, rest) + tail == BlocksThen(table, log, i, k, rest + tail)
    decreases |log| - i
  {
    hide *;
    BlocksAt(table, log, i, k, rest);
    BlocksAt(table, log, i, k, rest + tail);
    if i < |log| {
      var s := BlocksThen(table, log, i + 1, k, rest);
      BlocksAppend(table, log, i + 1, k, rest, tail);
      BlockAppend(log[i].c, k, s);
      BlockAppend(log[i].c, k, s + tail);
      Rebracketed(BlockThen(log[i].c, k, []), s, tail);
    }
  }

  lemma Rebracketed(a: seq<bool>, b: seq<bool>, c: seq<bool>)
    ensures a + b + c == a + (b + c)
  {
  }

  /** One more block at the end. */
  lemma {:induction false} BlocksSnoc(table: seq<bv32>, log: seq<Sent>, s: Sent, i: nat, k: nat)
    requires LogOk(table, log, k) && SentOk(table, s, k) && i <= |log|
    ensures LogOk(table, log + [s], k) && CodedOk(s.c, k)
    ensures BlocksThen(table, log + [s], i, k, []) == BlocksThen(table, log, i, k, []) + BlockThen(s.c, k, [])
    decreases |log| - i
  {
    hide *;
    CodedSent(table, s, k);
    LogSnoc(table, log, s, k);
    var l, b := log + [s], BlockThen(s.c, k, []);
    BlocksAt(table, log, i, k, []);
    BlocksAt(table, l, i, k, []);
    if i == |log| {
      assert l[i] == s;
      BlocksAt(table, l, i + 1, k, []);
      assert [] + b == b;
    } else {
      assert l[i] == log[i];
      BlocksSnoc(table, log, s, i + 1, k);
      var rest := BlocksThen(table, log, i + 1, k, []);
      BlockAppend(log[i].c, k, rest);
      BlockAppend(log[i].c, k, rest + b);
      Rebracketed(BlockThen(log[i].c, k, []), rest, b);
    }
  }

  lemma CodedSent(table: seq<bv32>, s: Sent, k: nat)
    requires SentOk(table, s, k)
    ensures CodedOk(s.c, k)
  {
  }

  lemma CodedSentAt(table: seq<bv32>, log: seq<Sent>, i: nat, k: nat)
    requires LogOk(table, log, k) && i < |log|
    ensures CodedOk(log[i].c, k)
  {
    assert SentOk(table, log[i], k);
  }

  lemma LogSnoc(table: seq<bv32>, log: seq<Sent>, s: Sent, k: nat)
    requires LogOk(table, log, k) && SentOk(table, s, k)
    ensures LogOk(table, log + [s], k)
  {
    hide SentOk;
  }

  lemma OpenSnoc(table: seq<bv32>, log: seq<Sent>, s: Sent, k: nat)
    requires LogOk(table, log, k) && SentOk(table, s, k)
    ensures LogOk(table, log + [s], k) && CodedOk(s.c, k)
    ensures OpenBits(table, log + [s], k) == OpenBits(table, log, k) + BlockThen(s.c, k, [])
    ensures LogData(log + [s]) == LogData(log) + DataOf(s.rs)
    ensures Bytes(DataOf(s.rs))
    ensures LogCrc(table, log + [s], k) == Combine(LogCrc(table, log, k), Checksum(table, DataOf(s.rs)))
  {
    BlocksSnoc(table, log, s, 0, k);
    assert (log + [s])[..|log|] == log;
    hide BlockThen, BlocksThen, Combine, Checksum, Encodes, BytesThen;
    BytesAppend(HeaderBytes(k), BlocksThen(table, log, 0, k, []), BlockThen(s.c, k, []));
  }

  lemma Closing(table: seq<bv32>, log: seq<Sent>, k: nat)
    requires LogOk(table, log, k)
    ensures OpenBits(table, log, k) + TrailerBits(ToNat(LogCrc(table, log, k)), []) == ClosedBits(table, log, k)
  {
    hide BlocksThen, LogCrc, BytesThen, SentOk, TrailerBits;
    var t := TrailerBits(ToNat(LogCrc(table, log, k)), []);
    BlocksAppend(table, log, 0, k, [], t);
    assert [] + t == t;
    BytesAppend(HeaderBytes(k), BlocksThen(table, log, 0, k, []), t);
  }
}
