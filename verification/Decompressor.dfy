/** BZ2_bzDecompress: parsing and putting out by turns, whatever pieces the input comes in and the room is given in. */
module Decompressor {
  import opened Basics
  import opened BlockParser
  import opened BurrowsWheeler
  import opened Counting
  import opened Crc
  import opened DecoderState
  import opened ParserBounds
  import opened InverseVectors
  import opened OutputRuns
  import opened OutputSide
  import opened Placement
  import opened RoundTrip
  import opened StreamStart
  import opened Words
  import MtfCoding
  import MoveToFront

  const SEQUENCE_ERROR := -1  // BZ_SEQUENCE_ERROR

  predicate IsDataError(code: int) {
    code == DATA_ERROR || code == DATA_ERROR_MAGIC
  }

  /** What a stream comes to when work on it ends with this code: an error, or the end of what is modelled. */
  ghost function StoppedBy(code: int): Outcome {
    if code == OUTSIDE then Outside else Corrupt
  }

  ghost predicate Stops(code: int, all: Outcome) {
    (IsDataError(code) || code == OUTSIDE) && all == StoppedBy(code)
  }

  // ---------- what is still to come out of a stream ----------

  /** First these bytes, then what the rest of the stream gives. */
  ghost function Then(out: seq<int>, later: Outcome): Outcome {
    if later.Decoded? then Decoded(out + later.data) else later
  }

  lemma ThenTwice(a: seq<int>, b: seq<int>, later: Outcome)
    ensures Then(a, Then(b, later)) == Then(a + b, later)
  {
    if later.Decoded? {
      assert a + (b + later.data) == (a + b) + later.data;
    }
  }

  lemma ThenStopped(a: seq<int>, code: int)
    ensures Then(a, StoppedBy(code)) == StoppedBy(code)
  {
  }

  lemma ThenEnd(a: seq<int>)
    ensures Then(a, Decoded([])) == Decoded(a)
  {
    assert a + [] == a;
  }

  lemma ThenNothing(later: Outcome)
    ensures Then([], later) == later
  {
    if later.Decoded? {
      assert [] + later.data == later.data;
    }
  }

  /** While a block is being put out: what is left of it, and then the rest, if the checksums come out right. */
  ghost function AfterBlock(table: seq<bv32>, p: Parser, left: seq<int>, sound: bool, crc: bv32, combined: bv32,
                            bits: seq<bool>): Outcome
    requires |table| == 256 && Bytes(left)
  {
    var block := ChecksumFrom(table, crc, left);
    if !sound || p.storedBlockCRC != ToNat(block) then Corrupt
    else Then(left, Decode(table, p.(at := BlkHdr(1)), bits, Combine(combined, block)))
  }

  /** Part of the block has gone out. */
  lemma SomeOut(table: seq<bv32>, p: Parser, out: seq<int>, left: seq<int>, sound: bool, crc: bv32, combined: bv32,
                bits: seq<bool>)
    requires |table| == 256 && Bytes(out) && Bytes(left)
    ensures Bytes(out + left)
    ensures AfterBlock(table, p, out + left, sound, crc, combined, bits)
            == Then(out, AfterBlock(table, p, left, sound, UpdateAll(table, crc, out), combined, bits))
  {
    hide Decode, Combine, ToNat, UpdateAll, ChecksumFrom, Then;
    ChecksumGoesOn(table, crc, out, left);
    var block := ChecksumFrom(table, crc, out + left);
    ThenTwice(out, left, Decode(table, p.(at := BlkHdr(1)), bits, Combine(combined, block)));
    ThenStopped(out, DATA_ERROR);
  }

  /** All of it has. */
  lemma AllOut(table: seq<bv32>, p: Parser, crc: bv32, combined: bv32, bits: seq<bool>)
    requires |table| == 256
    ensures AfterBlock(table, p, [], true, crc, combined, bits)
            == if p.storedBlockCRC != ToNat(Final(crc)) then Corrupt
               else Decode(table, p.(at := BlkHdr(1)), bits, Combine(combined, Final(crc)))
  {
    hide Decode, Combine, ToNat, ChecksumFrom, Then, Final;
    ChecksumEnd(table, crc);
    ThenNothing(Decode(table, p.(at := BlkHdr(1)), bits, Combine(combined, Final(crc))));
  }

  /** Nothing of it yet. */
  lemma NoneOut(table: seq<bv32>, p: Parser, left: seq<int>, sound: bool, combined: bv32, bits: seq<bool>)
    requires |table| == 256 && Bytes(left)
    ensures AfterBlock(table, p, left, sound, START, combined, bits)
            == if !sound || p.storedBlockCRC != ToNat(Checksum(table, left)) then Corrupt
               else Then(left, Decode(table, p.(at := BlkHdr(1)), bits, Combine(combined, Checksum(table, left))))
  {
    hide Decode, Combine, ToNat, UpdateAll, Checksum, ChecksumFrom, Then;
    ChecksumWhole(table, left);
  }

  /** A block has just been parsed. */
  lemma BlockParsed(table: seq<bv32>, q: Parser, rest: seq<bool>, combined: bv32, n: nat, c: Chain)
    requires |table| == 256 && |rest| < n && q.at == Output && q.origPtr < |q.out| && Bytes(q.out)
    requires !q.randomised && ChainOk(c) && c.l == q.out && c.o == q.origPtr && Vector(c.l, c.t)
    ensures Resume(table, q, rest, combined, n) == AfterBlock(table, q, Rest(c, 1), Sound(c, 1), START, combined, rest)
  {
    hide Decode, Combine, ToNat, UpdateAll, Rest, Sound, Vector, Checksum, AfterBlock;
    var d := ChainOf(q.out, q.origPtr);
    VectorUnique(c.l, c.t, d.t);
    assert c == d;
    NoneOut(table, q, Rest(c, 1), Sound(c, 1), combined, rest);
  }

  /** A randomised block has just been parsed. */
  lemma RandomisedParsed(table: seq<bv32>, q: Parser, rest: seq<bool>, combined: bv32, n: nat)
    requires |table| == 256 && |rest| < n && q.at == Output && q.origPtr < |q.out| && Bytes(q.out) && q.randomised
    ensures Resume(table, q, rest, combined, n) == Outside
  {
    hide Decode, Combine, ToNat, Rest, Sound, Vector, Checksum;
  }

  // ---------- the block data of a block that is done with do not matter any more ----------

  /** Outside the block data, and not at the end of them. */
  predicate Between(p: Parser) {
    !InData(p) && p.at != Output
  }

  lemma {:induction false} DriveFrame(p: Parser, l: seq<int>, o: seq<int>, bits: seq<bool>)
    requires Between(p)
    ensures var a, b := Drive(p, bits), Drive(WithData(p, l, o), bits);
      b == a || (Between(a.0) && b == (WithData(a.0, l, o), a.1))
    decreases |bits|
  {
    hide HeaderStep, StartsData, AlphaSize;
    var n := Need(p);
    if n != 0 && |bits| >= n {
      var v := Val(bits[..n]);
      HeaderFrame(p, l, o, v);
      HeaderShape(p, v);
      StepIsHeader(p, v);
      StepIsHeader(WithData(p, l, o), v);
      hide Step;
      if !StartsData(p, v) {
        DriveFrame(Step(p, v), l, o, bits[n..]);
      }
    }
  }

  lemma DecodeFrame(table: seq<bv32>, p: Parser, l: seq<int>, o: seq<int>, bits: seq<bool>, combined: bv32)
    requires |table| == 256 && Between(p)
    ensures Decode(table, WithData(p, l, o), bits, combined) == Decode(table, p, bits, combined)
  {
    hide Drive, Rest, Sound, Checksum, Combine, ToNat, Vector, ChainOk, Bytes;
    DriveFrame(p, l, o, bits);
    RunShrinks(p, bits);
  }

  /** Block sizes are what a header can say, a block ends only if it contains its own row, and failures have codes. */
  ghost predicate Sensible(p: Parser) {
    && p.blockSize100k <= 9
    && (p.at == Label.Output ==> p.origPtr < |p.out|)
    && (p.at.Failed? ==> IsDataError(p.at.code) || p.at.code == OUTSIDE)
  }

  lemma StepSensible(p: Parser, v: nat)
    requires Sensible(p) && Need(p) > 0
    ensures Sensible(Step(p, v))
  {
    if InData(p) {
      hide HeaderStep, CheckCode, Sensible;
      CheckSensible(if p.at == MtfFirst then p.(zvec := v) else p.(zvec := 2 * p.zvec + v));
    } else {
      hide HeaderStep, CheckCode;
      StepIsHeader(p, v);
      hide Step;
      HeaderShape(p, v);
      HeaderFails(p, v);
      if p.at.Magic? {
        MagicSize(p, v);
      }
    }
  }

  lemma MagicSize(p: Parser, v: nat)
    requires p.at.Magic? && p.blockSize100k <= 9
    ensures HeaderStep(p, v).blockSize100k <= 9
  {
  }

  lemma CheckSensible(p: Parser)
    requires InData(p) && p.blockSize100k <= 9
    ensures Sensible(CheckCode(p))
  {
    hide LimitAt, SymbolAt, Symbol;
    var r := SymbolAt(Table(p), p.zn, p.zvec);
    if r.Found? {
      SymbolSensible(p, r.sym);
    }
  }

  lemma SymbolSensible(p: Parser, sym: nat)
    requires InData(p) && p.blockSize100k <= 9
    ensures Sensible(Symbol(p, sym))
  {
    hide AlphaSize, Unseq, BeginSymbol;
    var d := if p.inRun then p else p.(inRun := true, es := -1, N := 1);
    BegunSensible(d.(es := d.es + (sym + 1) * d.N, N := 2 * d.N));
    var q := EndRun(p);
    if !q.at.Failed? && 1 <= sym && sym - 1 < |q.list| {
      var uc := q.list[sym - 1];
      BegunSensible(q.(list := [uc] + q.list[..sym - 1] + q.list[sym..], out := q.out + [Unseq(q, uc)]));
    }
  }

  lemma BegunSensible(p: Parser)
    requires p.blockSize100k <= 9
    ensures Sensible(BeginSymbol(p))
  {
    hide BlockParser.Least;
  }

  lemma {:induction false} DriveSensible(p: Parser, bits: seq<bool>)
    requires Sensible(p)
    ensures Sensible(Drive(p, bits).0)
    decreases |bits|
  {
    hide Step, Sensible;
    var n := Need(p);
    if n != 0 && |bits| >= n {
      StepSensible(p, Val(bits[..n]));
      DriveSensible(Step(p, Val(bits[..n])), bits[n..]);
    }
  }

  lemma BlockFrame(table: seq<bv32>, p: Parser, q: Parser, left: seq<int>, sound: bool, combined: bv32, bits: seq<bool>)
    requires |table| == 256 && Bytes(left) && q == WithData(p, q.list, q.out)
    ensures AfterBlock(table, q, left, sound, START, combined, bits) == AfterBlock(table, p, left, sound, START, combined, bits)
  {
    hide Decode, ToNat, Combine, ChecksumFrom, Then;
    DecodeFrame(table, p.(at := BlkHdr(1)), q.list, q.out, bits, Combine(combined, ChecksumFrom(table, START, left)));
  }

  // ---------- what a call of BZ2_decompress means for the rest of the stream ----------

  lemma AfterFailure(table: seq<bv32>, g: Parser, got: seq<bool>, more: seq<bool>, a: Parser, b: seq<bool>, combined: bv32)
    requires |table| == 256 && Reached(g, got, a, b) && a.at.Failed?
    ensures Decode(table, g, got + more, combined) == StoppedBy(a.at.code)
  {
    hide Drive, Resume, Step;
    RunInPieces(g, got, more);
    var q := Drive(g, got);
    StaysPut(q.0, q.1 + more);
    RunShrinks(g, got + more);
    FailedResume(table, q.0, q.1 + more, combined, |got + more|);
  }

  lemma StaysPut(p: Parser, bits: seq<bool>)
    requires Need(p) == 0
    ensures Drive(p, bits) == (p, bits)
  {
  }

  lemma FailedResume(table: seq<bv32>, p: Parser, bits: seq<bool>, combined: bv32, n: nat)
    requires |table| == 256 && p.at.Failed? && |bits| <= n
    ensures Resume(table, p, bits, combined, n) == StoppedBy(p.at.code)
  {
    hide Decode, Rest, Sound, Checksum, Combine, ToNat, Vector, ChainOk, Bytes;
  }

  lemma AfterStop(table: seq<bv32>, g: Parser, got: seq<bool>, more: seq<bool>, a: Parser, b: seq<bool>, combined: bv32)
    requires |table| == 256 && Reached(g, got, a, b) && Need(a) == 0 && !a.at.Failed? && Need(g) > 0
    ensures |b + more| < |got + more|
    ensures Decode(table, g, got + more, combined) == Resume(table, a, b + more, combined, |got + more|)
  {
    RunInPieces(g, got, more);
    assert Drive(a, b + more) == (a, b + more);
    hide Drive, Resume;
    DriveMoves(g, got);
  }

  lemma AfterSuspension(table: seq<bv32>, g: Parser, got: seq<bool>, more: seq<bool>, a: Parser, b: seq<bool>,
                        combined: bv32)
    requires |table| == 256 && Reached(g, got, a, b) && Need(a) > 0
    ensures Decode(table, g, got + more, combined) == Decode(table, a, b + more, combined)
  {
    hide Drive, Decode;
    RunInPieces(g, got, more);
    RunShrinks(g, got);
    SameRunSameDecode(table, g, got + more, a, b + more, combined);
  }

  /** Suspended for want of bits: without more of them there is no saying what the stream holds. */
  lemma WantsBits(table: seq<bv32>, a: Parser, b: seq<bool>, combined: bv32)
    requires |table| == 256 && |b| < Need(a)
    ensures Decode(table, a, b, combined) == Suspended
  {
    hide Rest, Sound, Checksum, Combine, ToNat, Vector, ChainOk, Bytes;
  }

  /** Where a call of BZ2_decompress can end. */
  lemma ParsedFacts(g: Parser, got: seq<bool>, a: Parser, b: seq<bool>)
    requires Reached(g, got, a, b) && Sensible(g) && Need(g) > 0
    ensures a.at.Failed? ==> IsDataError(a.at.code) || a.at.code == OUTSIDE
    ensures !a.at.Failed? ==> Sensible(a) && |b| <= |got| && (Need(a) == 0 ==> |b| < |got|)
  {
    hide Drive, Step;
    DriveSensible(g, got);
    DriveMoves(g, got);
    RunShrinks(g, got);
  }

  lemma SplitInput(h: seq<bool>, input: seq<int>, rest: seq<int>, used: nat)
    requires Bytes(input) && Bytes(rest) && used <= |input|
    ensures Bytes(input + rest) && Bytes(input[used..] + rest) && Bytes(input[..used])
    ensures h + BytesBits(input + rest) == h + BytesBits(input[..used]) + BytesBits(input[used..] + rest)
    ensures |BytesBits(input[..used])| == 8 * used
  {
    hide BytesBits;
    assert input + rest == input[..used] + (input[used..] + rest);
    BytesBitsConcat(input[..used], input[used..] + rest);
    BytesBitsLength(input[..used]);
  }

  /** How a call of BZ2_decompress bears on the outcome, case by case. */
  lemma Parsed(table: seq<bv32>, g: Parser, h: seq<bool>, input: seq<int>, rest: seq<int>, used: nat,
               a: Parser, b: seq<bool>, cc: bv32)
    requires |table| == 256 && Bytes(input) && Bytes(rest) && used <= |input| && Sensible(g) && Need(g) > 0
    requires Bytes(input[..used]) && Reached(g, h + BytesBits(input[..used]), a, b)
    ensures Bytes(input + rest) && Bytes(input[used..] + rest)
    ensures var now, n := b + BytesBits(input[used..] + rest), |h + BytesBits(input + rest)|;
      var all := Decode(table, g, h + BytesBits(input + rest), cc);
      && (a.at.Failed? ==> Stops(a.at.code, all))
      && (!a.at.Failed? ==> Sensible(a))
      && (a.at == Label.Output ==> |now| < n && |b| < |h| + 8 * used && all == Resume(table, a, now, cc, n))
      && (a.at == Label.Idle ==> all == if a.storedCombinedCRC == ToNat(cc) then Decoded([]) else Corrupt)
      && (Need(a) > 0 ==> all == Decode(table, a, now, cc))
  {
    hide BytesBits, Decode, Drive, Resume, ToNat, Reached, Sensible;
    var got, more := h + BytesBits(input[..used]), BytesBits(input[used..] + rest);
    SplitInput(h, input, rest, used);
    ParsedFacts(g, got, a, b);
    if a.at.Failed? {
      AfterFailure(table, g, got, more, a, b, cc);
    } else if Need(a) == 0 {
      AfterStop(table, g, got, more, a, b, cc);
      if a.at == Label.Idle {
        AtTrailer(table, a, b + more, cc, |got + more|);
      }
    } else {
      AfterSuspension(table, g, got, more, a, b, cc);
    }
  }

  lemma AtTrailer(table: seq<bv32>, a: Parser, b: seq<bool>, combined: bv32, n: nat)
    requires |table| == 256 && a.at == Label.Idle && |b| <= n
    ensures Resume(table, a, b, combined, n)
            == if a.storedCombinedCRC == ToNat(combined) then Decoded([]) else Corrupt
  {
  }

  lemma LeftBytes(c: Chain, r: Reader)
    requires ChainOk(c) && 1 <= r.used && 0 <= r.ch < 256
    ensures Bytes(Left(c, r))
  {
    hide Rest;
    var h := MtfCoding.Repeat(r.ch, r.len);
    assert forall i | 0 <= i < |h| :: h[i] == r.ch;
  }

  /** Bytes have been added behind those put out before, in the room there was. */
  ghost predicate Handed(s: Sink, s': Sink) {
    && |s.out| <= |s'.out| && s'.out[..|s.out|] == s.out
    && |s'.out| - |s.out| == s.avail - s'.avail
  }

  lemma NoneHanded(s: Sink)
    ensures Handed(s, s)
  {
  }

  lemma HandedTwice(a: Sink, b: Sink, c: Sink)
    requires Handed(a, b) && Handed(b, c)
    ensures Handed(a, c)
  {
    assert c.out[..|a.out|] == b.out[..|a.out|];
  }

  lemma ProgressHands(table: seq<bv32>, s: Sink, p: seq<int>, s': Sink, p': seq<int>)
    requires Progress(table, s, p, s', p')
    ensures Handed(s, s')
  {
  }

  /** What has come out together with what is to come is the same after some more has come out. */
  lemma MoreOut(table: seq<bv32>, p: Parser, s: Sink, left: seq<int>, s': Sink, left': seq<int>, sound: bool,
                combined: bv32, bits: seq<bool>)
    requires Progress(table, s, left, s', left') && Bytes(left) && Bytes(left')
    ensures |table| == 256
    ensures Then(s.out, AfterBlock(table, p, left, sound, s.crc, combined, bits))
            == Then(s'.out, AfterBlock(table, p, left', sound, s'.crc, combined, bits))
  {
    hide AfterBlock, Then, UpdateAll;
    var out := s'.out[|s.out|..];
    assert s'.out == s.out + out;
    SomeOut(table, p, out, left', sound, s.crc, combined, bits);
    ThenTwice(s.out, out, AfterBlock(table, p, left', sound, s'.crc, combined, bits));
  }

  lemma UnsoundTotal(table: seq<bv32>, p: Parser, s: Sink, left: seq<int>, combined: bv32, bits: seq<bool>)
    requires |table| == 256 && Bytes(left)
    ensures Then(s.out, AfterBlock(table, p, left, false, s.crc, combined, bits)) == Corrupt
  {
  }

  // ---------- from the column to the output side ----------

  /** The output side at the start of the block of chain c: one byte fetched, none put out. */
  ghost predicate AtStart(o: OutputState, c: Chain, table: seq<bv32>, s: Sink)
    reads o
  {
    && ChainOk(c) && Vector(c.l, c.t) && o.crcTable == table && o.save_nblock == |c.l|
    && o.written == s.out && o.avail_out == s.avail && o.calculatedBlockCRC == START
    && o.nblock_used == 1 && o.state_out_len == 0 && 0 <= o.state_out_ch < 256
  }

  lemma StartLeft(o: OutputState, c: Chain, table: seq<bv32>, s: Sink)
    requires AtStart(o, c, table, s)
    ensures Left(c, o.Fields()) == Rest(c, 1)
  {
    hide Vector, ChainOk;
    NothingOfRun(c, o.state_out_ch, 1);
  }

  lemma CountedParts(l: seq<int>, unzftab: seq<int>)
    requires Counted(l, unzftab)
    ensures |unzftab| == 256 && Bytes(l) && forall c | 0 <= c < 256 :: unzftab[c] == Count(l, |l|, c)
  {
  }

  lemma ChainFrom(l: seq<int>, t: seq<int>, o: nat)
    requires Vector(l, t) && o < |l| && Bytes(l)
    ensures ChainOk(Chain(l, t, o))
  {
    hide Place;
  }

  /** The end of BZ2_decompress, fast form: T^(-1) above the characters, and the first byte. */
  method SetUpFast(tt: array<int>, unzftab: array<int>, nblock: nat, origPtr: nat, blockSize: nat, table: seq<bv32>,
                   s: Sink)
    returns (o: OutputState, ghost c: Chain)
    requires tt != unzftab && origPtr < nblock <= tt.Length && nblock <= 100000 * blockSize && |table| == 256
    requires Counted(tt[..nblock], unzftab[..])
    modifies tt
    ensures fresh(o) && AtStart(o, c, table, s) && c.l == old(tt[..nblock]) && c.o == origPtr
    ensures o.Holds(c, 1) && FastVector(c.l, c.t, tt[..])
  {
    hide Counted, Count, BucketStarts, Vector;
    ghost var l := tt[..nblock];
    CountedParts(l, unzftab[..]);
    var cftab := new int[257];
    MakeCftab(cftab, unzftab, l);
    ghost var t := BuildFast(tt, cftab, nblock, l);
    c := Chain(l, t, origPtr);
    ChainFrom(l, t, origPtr);
    assert tt[..][origPtr] == l[origPtr] + 256 * t[origPtr];
    var tPos := tt[origPtr] / 256;
    var fail, k0;
    fail, k0, tPos := GetFast(tt, tPos, blockSize, c, 0);
    o := new OutputState(nblock, blockSize, table, Reader(tPos, k0, 1, 0, 0), s.(crc := START));
  }

  /** The same, small form: the forward vector in 20-bit cells, then its pointers reversed. */
  method SetUpSmall(ll16: array<int>, unzftab: array<int>, nblock: nat, origPtr: nat, blockSize: nat,
                    table: seq<bv32>, s: Sink)
    returns (o: OutputState, cells: CellArray, cftab: array<int>, ghost c: Chain)
    requires ll16 != unzftab && origPtr < nblock <= ll16.Length && nblock <= 100000 * blockSize && |table| == 256
    requires Counted(ll16[..nblock], unzftab[..]) && nblock <= 900000
    modifies ll16
    ensures fresh(o) && AtStart(o, c, table, s) && c.l == old(ll16[..nblock]) && c.o == origPtr
    ensures fresh(cells) && fresh(cells.ll4) && fresh(cftab) && cells.ll16 == ll16
    ensures o.Holds(c, 0) && SmallVectors(c, cells, cftab[..])
  {
    hide Counted, Count, BucketStarts, Vector, Reversed;
    ghost var l := ll16[..nblock];
    CountedParts(l, unzftab[..]);
    cftab := new int[257];
    MakeCftab(cftab, unzftab, l);
    var cftabCopy := new int[257](i requires 0 <= i < 257 reads cftab => cftab[i]);
    assert cftabCopy[..] == cftab[..];
    var ll4 := new int[(1 + nblock) / 2](_ => 0);
    cells := new CellArray(ll16, ll4, nblock);
    FillCells(cells, cftabCopy, nblock, l);
    ghost var t := VectorExists(l);
    c := Chain(l, t, origPtr);
    ChainFrom(l, t, origPtr);
    VectorMeans(l, t);
    ReversePointers(cells, origPtr, Places(l), t);
    var fail, k0, tPos;
    fail, k0, tPos := GetSmall(cells, cftab, origPtr, blockSize, c, 0);
    o := new OutputState(nblock, blockSize, table, Reader(tPos, k0, 1, 0, 0), s.(crc := START));
  }

  lemma VectorMeans(l: seq<int>, t: seq<int>)
    requires Vector(l, t)
    ensures Undoes(Places(l), t)
  {
  }

  /** The output side before there is a block. */
  method NoBlock(table: seq<bv32>) returns (o: OutputState, cells: CellArray, cftab: array<int>)
    ensures fresh(o) && fresh(cells) && fresh(cells.ll16) && fresh(cells.ll4) && fresh(cftab)
    ensures o.crcTable == table && o.written == []
  {
    o := new OutputState(0, 0, table, Reader(0, 0, 0, 0, 0), Sink(0, [], 0));
    var low, high := new int[0], new int[0];
    cells := new CellArray(low, high, 0);
    cftab := new int[257];
  }

  class Decompressor {
    const d: DState
    const small: bool
    const crcTable: seq<bv32>
    var o: OutputState
    var cells: CellArray
    var cftab: array<int>
    var calculatedCombinedCRC: bv32
    ghost var c: Chain
    ghost var received: seq<int>  // all input so far

    ghost function Repr(): set<object>
      reads this, d
    {
      {this, o, d, d.r, d.cache, d.cache.mtfa, d.cache.mtfbase, d.tt, d.unzftab, cells, cells.ll16, cells.ll4, cftab}
    }

    /** Objects held are those held before, or new. */
    twostate predicate Grown()
      reads this, d
    {
      && d.NewStorage(old(d.tt), old(d.cache)) && d.unzftab == old(d.unzftab)
      && (o == old(o) || fresh(o)) && (cftab == old(cftab) || fresh(cftab))
      && (cells == old(cells) || (fresh(cells) && fresh(cells.ll4) && (cells.ll16 == old(d.tt) || fresh(cells.ll16))))
    }

    /** The output side of the block parsed last is set up. */
    ghost predicate BlockReady()
      reads this, d, Repr()
    {
      && o.save_nblock <= 900000
      && if small then o.Holds(c, 0) && SmallVectors(c, cells, cftab[..])
         else o.Holds(c, 1) && FastVector(c.l, c.t, d.tt[..])
    }

    ghost predicate Valid()
      reads this, d, Repr()
    {
      && d.Stored() && d.r.Valid() && |crcTable| == 256 && o.crcTable == crcTable
      && d.p.blockSize100k <= 9 && !d.p.at.Failed?
      && if d.p.at == Label.Output then BlockReady() else d.Valid()
    }

    /** What has been read of the magic number is right, or it has been read. */
    ghost predicate Listening()
      requires d.r.Valid()
      reads this, d, d.r
    {
      Heard(d.p.at, d.r.Held(), d.r.next_in, received)
    }

    /** What the stream still gives, when these bits follow. */
    ghost function Future(bits: seq<bool>): Outcome
      requires Valid()
      reads this, d, Repr()
    {
      if d.p.at == Label.Output then
        LeftBytes(c, o.Fields());
        AfterBlock(crcTable, d.p, Left(c, o.Fields()), Sound(c, o.nblock_used), o.calculatedBlockCRC,
                   calculatedCombinedCRC, d.r.Held() + bits)
      else Decode(crcTable, d.Abs(), d.r.Held() + bits, calculatedCombinedCRC)
    }

    /** All that comes out of the stream, when rest follows the input that is there: what has come out, and the future. */
    ghost function Total(rest: seq<int>): Outcome
      requires Valid() && Bytes(rest)
      reads this, d, Repr()
    {
      Then(o.written, Future(BytesBits(d.r.next_in + rest)))
    }

    /** BZ2_bzDecompressInit. */
    constructor (table: seq<bv32>, small: bool)
      requires |table| == 256
      ensures Valid() && fresh(Repr()) && this.small == small && crcTable == table
      ensures o.written == [] && d.r.next_in == [] && d.p.at == Magic(1)
      ensures d.r.Valid() && Listening() && received == []
      ensures forall rest | Bytes(rest) :: Total(rest) == Decode(table, Fresh(), BytesBits(rest), 0)
    {
      hide *;
      this.small := small;
      crcTable := table;
      var side, low, starts := NoBlock(table);
      o, cells, cftab := side, low, starts;
      calculatedCombinedCRC := 0;
      received := [];
      d := new DState();
      new;
      ReprIs();
      ParsingValid();
      NothingHeard();
      FutureOfAll();
    }

    lemma ReprIs()
      ensures Repr()
           == {this, o, d, d.r, d.cache, d.cache.mtfa, d.cache.mtfbase, d.tt, d.unzftab, cells, cells.ll16, cells.ll4, cftab}
    {
    }

    lemma NothingHeard()
      requires d.r.Valid() && d.p.at == Magic(1) && d.r.Held() == [] && d.r.next_in == [] && received == []
      ensures Listening()
    {
    }

    lemma ParsingValid()
      requires d.Stored() && d.Valid() && d.r.Valid() && |crcTable| == 256 && o.crcTable == crcTable
      requires d.p.blockSize100k <= 9 && !d.p.at.Failed? && d.p.at != Label.Output
      ensures Valid()
    {
      hide DState.Stored, DState.Valid;
    }

    lemma FutureOfAll()
      requires Valid() && o.written == [] && d.r.next_in == [] && d.r.Held() == []
      requires d.Abs() == Fresh() && d.p.at == Magic(1) && calculatedCombinedCRC == 0
      ensures |crcTable| == 256
      ensures forall rest | Bytes(rest) :: Total(rest) == Decode(crcTable, Fresh(), BytesBits(rest), 0)
    {
      assert |crcTable| == 256;
      hide Decode, BytesBits, DState.Stored, DState.Valid, Total, Valid, Fresh;
      forall rest | Bytes(rest)
        ensures Total(rest) == Decode(crcTable, Fresh(), BytesBits(rest), 0)
      {
        NothingYet(rest);
      }
    }

    lemma NothingYet(rest: seq<int>)
      requires Bytes(rest) && Valid() && o.written == [] && d.r.next_in == [] && d.r.Held() == []
      requires d.Abs() == Fresh() && d.p.at == Magic(1) && calculatedCombinedCRC == 0
      ensures Total(rest) == Decode(crcTable, Fresh(), BytesBits(rest), 0)
    {
      hide Decode, BytesBits, DState.Stored, DState.Valid;
      assert [] + rest == rest && [] + BytesBits(rest) == BytesBits(rest);
      ThenNothing(Decode(crcTable, Fresh(), BytesBits(rest), 0));
    }

    /** The output routine of the mode. */
    method Emit() returns (corrupt: bool)
      requires Valid() && d.p.at == Label.Output
      modifies o
      ensures Handed(old(o.Outside()), o.Outside())
      ensures corrupt ==> !old(Sound(c, o.nblock_used))
      ensures !corrupt ==> Valid() && Sound(c, o.nblock_used) == old(Sound(c, o.nblock_used))
      ensures !corrupt ==>
        Progress(crcTable, old(o.Outside()), old(Left(c, o.Fields())), o.Outside(), Left(c, o.Fields()))
      ensures !corrupt ==> (o.Finished() <==> Left(c, o.Fields()) == [] && Sound(c, o.nblock_used))
      ensures !corrupt && !o.Finished() ==> o.avail_out == 0
    {
      hide Sound, Left, Walk, FastVector, SmallVectors, DState.Stored, DState.Valid, OutputSide.Progress;
      ghost var s, p := o.Outside(), Left(c, o.Fields());
      if small {
        corrupt := o.UnRleSmall(cells, cftab, c);
      } else {
        corrupt := o.UnRleFast(d.tt, c);
      }
      if !corrupt || small {
        ProgressRoom(crcTable, s, p, o.Outside(), Left(c, o.Fields()));
        ProgressHands(crcTable, s, p, o.Outside(), Left(c, o.Fields()));
      }
    }

    /** As much of the block as there is room for; when it is all out, its checksum decides whether to go on. */
    method PutOut(ghost rest: seq<int>) returns (go: bool, ret: int)
      requires Valid() && d.p.at == Label.Output && Bytes(rest)
      modifies o, d`p, this`calculatedCombinedCRC
      ensures Handed(old(o.Outside()), o.Outside())
      ensures ret == OK ==> Valid() && Total(rest) == old(Total(rest)) && (old(Listening()) ==> Listening())
      ensures go ==> ret == OK && d.p.at == BlkHdr(1)
      ensures ret == OK && !go ==> o.avail_out == 0 && d.p.at == Label.Output
      ensures ret == OK && !go ==> !(Left(c, o.Fields()) == [] && Sound(c, o.nblock_used))
      ensures ret != OK ==> ret == DATA_ERROR && old(Total(rest)) == StoppedBy(ret)
    {
      hide Total, Future, BytesBits, AfterBlock, Decode, Left, Sound, DState.Stored, DState.Valid, FastVector, SmallVectors,
        Walk, OutputSide.Progress, Then, Combine, ToNat, Final, WithData;
      ghost var bits := d.r.Held() + BytesBits(d.r.next_in + rest);
      OutputTotal(rest);
      ghost var s, left, sound, cc := o.Outside(), Left(c, o.Fields()), Sound(c, o.nblock_used), calculatedCombinedCRC;
      var corrupt := Emit();
      if corrupt {
        UnsoundTotal(crcTable, d.p, s, left, cc, bits);
        return false, DATA_ERROR;
      }
      OutputTotal(rest);
      MoreOut(crcTable, d.p, s, left, o.Outside(), Left(c, o.Fields()), sound, cc, bits);
      if !o.Finished() {
        return false, OK;
      }
      ret := CloseBlock(rest);
      go := ret == OK;
    }

    /** All of the block is out: BZ_FINALISE_CRC, the comparison, and on to the next. */
    method CloseBlock(ghost rest: seq<int>) returns (ret: int)
      requires Valid() && d.p.at == Label.Output && Bytes(rest)
      requires Left(c, o.Fields()) == [] && Sound(c, o.nblock_used)
      modifies o`calculatedBlockCRC, d`p, this`calculatedCombinedCRC
      ensures ret == OK ==> Valid() && Total(rest) == old(Total(rest)) && d.p.at == BlkHdr(1)
      ensures ret == OK ==> old(Listening()) ==> Listening()
      ensures ret != OK ==> ret == DATA_ERROR && old(Total(rest)) == StoppedBy(ret)
    {
      hide Total, Future, BytesBits, AfterBlock, Decode, Left, Sound, DState.Stored, DState.Valid, FastVector, SmallVectors,
        Walk, Then, Combine, ToNat, Final, WithData;
      OutputTotal(rest);
      AllOut(crcTable, d.p, o.calculatedBlockCRC, calculatedCombinedCRC, d.r.Held() + BytesBits(d.r.next_in + rest));
      o.calculatedBlockCRC := Final(o.calculatedBlockCRC);
      if d.p.storedBlockCRC != ToNat(o.calculatedBlockCRC) {
        ThenStopped(o.written, DATA_ERROR);
        return DATA_ERROR;
      }
      calculatedCombinedCRC := Combine(calculatedCombinedCRC, o.calculatedBlockCRC);
      d.NextBlock();
      ParsingTotal(rest);
      return OK;
    }

    lemma OutputTotal(rest: seq<int>)
      requires Valid() && d.p.at == Label.Output && Bytes(rest)
      ensures |crcTable| == 256 && o.Outside().out == o.written && o.Outside().crc == o.calculatedBlockCRC
      ensures ChainOk(c) && 1 <= o.nblock_used && Bytes(Left(c, o.Fields()))
      ensures Bytes(d.r.next_in) && Bytes(d.r.next_in + rest)
      ensures Total(rest) == Then(o.written, AfterBlock(crcTable, d.p, Left(c, o.Fields()), Sound(c, o.nblock_used),
                o.calculatedBlockCRC, calculatedCombinedCRC, d.r.Held() + BytesBits(d.r.next_in + rest)))
    {
      hide Left, Sound, AfterBlock, BytesBits, Then, FastVector, SmallVectors, DState.Stored, DState.Valid;
      LeftBytes(c, o.Fields());
    }

    lemma ParsingTotal(rest: seq<int>)
      requires d.Stored() && d.Valid() && d.r.Valid() && |crcTable| == 256 && o.crcTable == crcTable
      requires d.p.blockSize100k <= 9 && !d.p.at.Failed? && d.p.at != Label.Output && Bytes(rest)
      ensures Valid() && Total(rest) == Then(o.written, Decode(crcTable, d.Abs(),
                d.r.Held() + BytesBits(d.r.next_in + rest), calculatedCombinedCRC))
      ensures Between(d.p) ==> Total(rest) == Then(o.written, Decode(crcTable, d.p,
                d.r.Held() + BytesBits(d.r.next_in + rest), calculatedCombinedCRC))
    {
      hide Decode, BytesBits, Then, DState.Valid;
      if Between(d.p) {
        DecodeFrame(crcTable, d.p, d.cache.List(), d.tt[..d.nblock], d.r.Held() + BytesBits(d.r.next_in + rest),
                    calculatedCombinedCRC);
      }
    }

    /** Bits that can still be had without more input. */
    ghost function Supply(): nat
      requires d.r.Valid()
      reads this, d, d.r
    {
      |d.r.Held()| + 8 * |d.r.next_in|
    }

    /** Parse on, and set up the output side when a block is complete. */
    method Parse(ghost rest: seq<int>) returns (ret: int)
      requires Valid() && Need(d.p) > 0 && Bytes(rest) && Listening()
      modifies this`o, this`cells, this`cftab, this`c, d, d.tt, d.unzftab, d.cache.mtfa, d.cache.mtfbase, d.r
      ensures Grown() && Handed(old(o.Outside()), o.Outside()) && o.written == old(o.written)
      ensures ret == OK ==> Valid() && Total(rest) == old(Total(rest))
      ensures ret == OK ==> if d.p.at == Label.Output then Supply() < old(Supply())
                            else d.r.next_in == [] && |d.r.Held()| < Need(d.p)
      ensures ret == STREAM_END ==> Valid() && old(Total(rest)) == Decoded(o.written) && d.p.at == Label.Idle
      ensures ret != OK && ret != STREAM_END ==> Stops(ret, old(Total(rest)))
      ensures ret == DATA_ERROR_MAGIC <==> BadStart(received)
      ensures ret != OK && ret != DATA_ERROR_MAGIC ==> GoodStart(received)
      ensures ret == OK || ret == STREAM_END ==> Listening()
    {
      hide Total, Future, BytesBits, Decode, DState.Stored, DState.Valid, Resume, Need, BlockReady, Then, ToNat, WithData,
        BadStart, GoodStart, Heard;
      ghost var n, all;
      ret, n, all := ParseInput(rest);
      AbsParts();
      if ret == STREAM_END {
        if ToNat(calculatedCombinedCRC) != d.p.storedCombinedCRC {
          ThenStopped(o.written, DATA_ERROR);
          return DATA_ERROR;
        }
        ThenEnd(o.written);
        return STREAM_END;
      }
      if d.p.at != Label.Output {
        if d.p.at.Failed? {
          ThenStopped(o.written, ret);
        } else {
          ParsingTotal(rest);
        }
        return;
      }
      ret := BlockComplete(rest, n);
    }

    /** A block has been parsed to its end. */
    method BlockComplete(ghost rest: seq<int>, ghost n: nat) returns (ret: int)
      requires d.Stored() && d.Valid() && d.r.Valid() && |crcTable| == 256 && o.crcTable == crcTable && Bytes(rest)
      requires d.p.blockSize100k <= 9 && d.p.at == Label.Output && d.p.origPtr < d.nblock
      requires |d.r.Held() + BytesBits(d.r.next_in + rest)| < n && Listening()
      modifies this`o, this`cells, this`cftab, this`c, d.tt
      ensures Grown() && o.written == old(o.written) && o.avail_out == old(o.avail_out) && Listening()
      ensures ret == OK || ret == OUTSIDE
      ensures var all := Resume(crcTable, old(d.Abs()), d.r.Held() + BytesBits(d.r.next_in + rest), calculatedCombinedCRC, n);
        if ret == OK then Valid() && Total(rest) == Then(o.written, all) else Then(o.written, all) == Outside
    {
      hide Total, BytesBits, DState.Stored, DState.Valid, Resume, Then, Heard, BlockReady;
      if d.p.randomised {
        BlockRandomised(d.r.Held() + BytesBits(d.r.next_in + rest), n);
        ThenStopped(o.written, OUTSIDE);
        return OUTSIDE;
      }
      BeginOutput(rest, n);
      return OK;
    }

    /** BZ2_decompress on the input there is, and what that means for all of the stream; n bits were there before it. */
    method ParseInput(ghost rest: seq<int>) returns (ret: int, ghost n: nat, ghost all: Outcome)
      requires Valid() && Need(d.p) > 0 && Bytes(rest) && Listening()
      modifies d, d.tt, d.unzftab, d.cache.mtfa, d.cache.mtfbase, d.r
      ensures d.Stored() && d.Valid() && d.r.Valid() && |crcTable| == 256 && o.crcTable == crcTable
      ensures d.NewStorage(old(d.tt), old(d.cache)) && d.unzftab == old(d.unzftab)
      ensures Bytes(d.r.next_in + rest) && old(Total(rest)) == Then(o.written, all)
      ensures ret == if d.p.at.Failed? then d.p.at.code else if d.p.at == Label.Idle then STREAM_END else OK
      ensures d.p.at.Failed? ==> Stops(ret, all)
      ensures !d.p.at.Failed? ==> d.p.blockSize100k <= 9 && (d.p.at == Label.Output ==> d.p.origPtr < d.nblock)
      ensures var now := d.r.Held() + BytesBits(d.r.next_in + rest);
        && (d.p.at == Label.Output ==>
              |now| < n && Supply() < old(Supply()) && all == Resume(crcTable, d.Abs(), now, calculatedCombinedCRC, n))
        && (d.p.at == Label.Idle ==>
              all == if d.p.storedCombinedCRC == ToNat(calculatedCombinedCRC) then Decoded([]) else Corrupt)
        && (Need(d.p) > 0 ==>
              d.r.next_in == [] && |d.r.Held()| < Need(d.p) && all == Decode(crcTable, d.Abs(), now, calculatedCombinedCRC))
      ensures d.p.at == Failed(DATA_ERROR_MAGIC) <==> BadStart(received)
      ensures Need(d.p) == 0 && !BadStart(received) ==> GoodStart(received)
      ensures !d.p.at.Failed? ==> Listening()
    {
      hide Total, Future, BytesBits, Decode, DState.Stored, DState.Valid, Drive, Resume, Need, BlockReady,
        Then, ToNat, WithData, Reached, Sensible, BadStart, GoodStart, Heard;
      ghost var g, h, input, cc := d.Abs(), d.r.Held(), d.r.next_in, calculatedCombinedCRC;
      ParsingNow();
      AbsParts();
      ParsingTotal(rest);
      ghost var used;
      ret, used := d.Decompress();
      n := |h + BytesBits(input + rest)|;
      all := Decode(crcTable, g, h + BytesBits(input + rest), cc);
      Parsed(crcTable, g, h, input, rest, used, d.Abs(), d.r.Held(), cc);
      AbsParts();
      HeardOn(g, h, input, used, d.Abs(), d.r.Held(), received);
      if !d.p.at.Failed? && Need(d.p) == 0 {
        HeardPast(d.p.at, d.r.Held(), d.r.next_in, received);
      }
    }

    lemma ParsingNow()
      requires Valid() && Need(d.p) > 0
      ensures d.Stored() && d.Valid() && d.r.Valid() && |crcTable| == 256 && o.crcTable == crcTable
      ensures d.p.blockSize100k <= 9 && !d.p.at.Failed? && d.p.at != Label.Output
      ensures Sensible(d.Abs()) && Need(d.Abs()) == Need(d.p)
    {
      hide DState.Stored, DState.Valid, Sensible;
      AbsParts();
    }

    lemma AbsParts()
      requires d.Stored()
      ensures d.Abs().at == d.p.at && d.Abs().storedCombinedCRC == d.p.storedCombinedCRC && Need(d.Abs()) == Need(d.p)
      ensures Sensible(d.Abs()) ==> d.p.blockSize100k <= 9 && (d.p.at == Label.Output ==> d.p.origPtr < d.nblock)
      ensures d.p.blockSize100k <= 9 && Need(d.p) > 0 ==> Sensible(d.Abs()) && d.p.at != Label.Output
      ensures Need(d.p) == 0 <==> d.p.at == Label.Output || d.p.at == Label.Idle || d.p.at.Failed?
    {
      hide Reachable;
      StoppedAt(d.p);
      FrameSame(d.p, d.cache.List(), d.tt[..d.nblock]);
      hide DState.Stored, Need;
    }

    /** A block has just been parsed: its output side. */
    method BeginOutput(ghost rest: seq<int>, ghost n: nat)
      requires d.Stored() && d.Valid() && d.r.Valid() && |crcTable| == 256 && o.crcTable == crcTable && Bytes(rest)
      requires d.p.blockSize100k <= 9 && d.p.at == Label.Output && d.p.origPtr < d.nblock
      requires !d.p.randomised && |d.r.Held() + BytesBits(d.r.next_in + rest)| < n
      modifies this`o, this`cells, this`cftab, this`c, d.tt
      ensures Grown() && o.written == old(o.written) && o.avail_out == old(o.avail_out)
      ensures Valid()
      ensures Total(rest) == Then(o.written, Resume(crcTable, old(d.Abs()), d.r.Held() + BytesBits(d.r.next_in + rest),
                                                    calculatedCombinedCRC, n))
    {
      hide Total, Future, BytesBits, AfterBlock, Decode, Left, Sound, DState.Valid, FastVector, SmallVectors,
        Walk, Then, Combine, ToNat, Resume, Counted, Reachable;
      ghost var q, bits := d.Abs(), d.r.Held() + BytesBits(d.r.next_in + rest);
      ghost var l, list := d.tt[..d.nblock], d.cache.List();
      DoneColumn();
      if small {
        o, cells, cftab, c := SetUpSmall(d.tt, d.unzftab, d.nblock, d.p.origPtr, d.p.blockSize100k, crcTable, o.Outside());
      } else {
        o, c := SetUpFast(d.tt, d.unzftab, d.nblock, d.p.origPtr, d.p.blockSize100k, crcTable, o.Outside());
      }
      BegunTotal(rest, q);
      BlockParsed(crcTable, q, bits, calculatedCombinedCRC, n, c);
    }

    lemma BegunTotal(rest: seq<int>, q: Parser)
      requires Valid() && d.p.at == Label.Output && Bytes(rest) && AtStart(o, c, crcTable, o.Outside())
      requires q == WithData(d.p, q.list, q.out)
      ensures Bytes(d.r.next_in + rest) && ChainOk(c) && |crcTable| == 256
      ensures Total(rest) == Then(o.written, AfterBlock(crcTable, q, Rest(c, 1), Sound(c, 1), START, calculatedCombinedCRC,
                                                        d.r.Held() + BytesBits(d.r.next_in + rest)))
    {
      hide Total, BytesBits, Left, Sound, Rest, Vector, AfterBlock, Then, FastVector, SmallVectors, DState.Stored, DState.Valid;
      OutputTotal(rest);
      StartLeft(o, c, crcTable, o.Outside());
      BlockFrame(crcTable, d.p, q, Rest(c, 1), Sound(c, 1), calculatedCombinedCRC, d.r.Held() + BytesBits(d.r.next_in + rest));
    }

    lemma BlockRandomised(rest: seq<bool>, n: nat)
      requires d.Stored() && d.Valid() && |crcTable| == 256 && d.p.at == Label.Output && d.p.origPtr < d.nblock
      requires d.p.randomised && |rest| < n
      ensures Resume(crcTable, d.Abs(), rest, calculatedCombinedCRC, n) == Outside
    {
      DoneColumn();
      hide Resume, DState.Valid, Counted, Reachable;
      RandomisedParsed(crcTable, d.Abs(), rest, calculatedCombinedCRC, n);
    }

    lemma DoneColumn()
      requires d.Stored() && d.Valid() && d.p.at == Label.Output
      ensures Counted(d.tt[..d.nblock], d.unzftab[..]) && Bytes(d.tt[..d.nblock])
    {
      hide Reachable;
    }

    /** The caller has added input and provided room. */
    method Offer(input: seq<int>, room: nat, ghost rest: seq<int>)
      requires Valid() && Bytes(input) && Bytes(rest)
      modifies o`avail_out, d.r`next_in, this`received
      ensures Valid() && Bytes(input + rest) && Total(rest) == old(Total(input + rest))
      ensures received == old(received) + input && (old(Listening()) ==> Listening())
      ensures o.avail_out == room && d.r.next_in == old(d.r.next_in) + input
    {
      hide BytesBits, Decode, DState.Stored, DState.Valid, FastVector, SmallVectors, Walk, Then, AfterBlock, Left, Sound, Ahead;
      assert d.r.next_in + (input + rest) == (d.r.next_in + input) + rest;
      HeardMore(d.p.at, d.r.Held(), d.r.next_in, received, input);
      d.r.next_in := d.r.next_in + input;
      received := received + input;
      o.avail_out := room;
    }

    /** Nothing can be done without more room, or without more input. */
    ghost predicate Waiting()
      requires Valid() && d.r.Valid()
      reads this, d, Repr()
    {
      if d.p.at == Label.Output then o.avail_out == 0 && !(Left(c, o.Fields()) == [] && Sound(c, o.nblock_used))
      else d.r.next_in == [] && |d.r.Held()| < Need(d.p)
    }

    lemma Parsing()
      requires Valid() && d.p.at != Label.Output && d.p.at != Label.Idle
      ensures Need(d.p) > 0
    {
      hide Need, DState.Valid, Reachable;
      StoppedAt(d.p);
    }

    /** One round of the loop of BZ2_bzDecompress; more when a block is complete and can be put out. */
    method Round(ghost rest: seq<int>) returns (more: bool, ret: int)
      requires Valid() && d.r.Valid() && Bytes(rest) && d.p.at != Label.Idle && Listening()
      modifies this, o, d, d.tt, d.unzftab, d.cache.mtfa, d.cache.mtfbase, d.r
      ensures Grown() && Handed(old(o.Outside()), o.Outside()) && ret != SEQUENCE_ERROR && received == old(received)
      ensures ret == DATA_ERROR_MAGIC <==> BadStart(received)
      ensures ret != OK && ret != DATA_ERROR_MAGIC ==> GoodStart(received)
      ensures more ==> Valid() && d.r.Valid() && d.p.at == Label.Output && Supply() < old(Supply())
      ensures more ==> Total(rest) == old(Total(rest)) && ret == OK
      ensures !more && ret == OK ==> Valid() && Total(rest) == old(Total(rest)) && d.r.Valid() && Waiting()
      ensures !more && ret == STREAM_END ==> Valid() && d.p.at == Label.Idle && old(Total(rest)) == Decoded(o.written)
      ensures ret == OK || ret == STREAM_END ==> Listening()
      ensures !more && ret != OK && ret != STREAM_END ==> Stops(ret, old(Total(rest)))
    {
      hide Valid, BytesBits, Decode, Total, Then, Need, DState.Stored, DState.Valid, Future, Handed;
      NoneHanded(o.Outside());
      ghost var s := o.Outside();
      if d.p.at == Label.Output {
        var go;
        go, ret := PutOut(rest);
        if !go {
          if ret == OK {
            ReaderValid();
          }
          return false, ret;
        }
      }
      Parsing();
      ghost var s' := o.Outside();
      ret := Parse(rest);
      HandedTwice(s, s', o.Outside());
      if ret == OK {
        ReaderValid();
      }
      more := ret == OK && d.p.at == Label.Output;
    }

    /**
     * BZ2_bzDecompress with input added to what is there and room for output; rest is whatever input will follow. What
     * comes out in all calls together depends on the stream alone.
     */
    method Decompress(input: seq<int>, room: nat, ghost rest: seq<int>) returns (ret: int)
      requires Valid() && Bytes(input) && Bytes(rest) && Listening()
      modifies this, o, d, d.tt, d.unzftab, d.cache.mtfa, d.cache.mtfbase, d.r
      ensures Grown() && Bytes(input + rest)
      ensures Handed(old(o.Outside()).(avail := room), o.Outside())
      ensures received == old(received) + input
      ensures ret == DATA_ERROR_MAGIC <==> BadStart(received)
      ensures ret != OK && ret != DATA_ERROR_MAGIC ==> GoodStart(received)
      ensures ret == SEQUENCE_ERROR <==> old(d.p.at == Label.Idle)
      ensures ret == SEQUENCE_ERROR ==> Valid() && o.written == old(o.written)
      ensures ret == OK ==> Valid() && Total(rest) == old(Total(input + rest)) && d.r.Valid() && Waiting()
      ensures ret == STREAM_END ==> Valid() && d.p.at == Label.Idle && old(Total(input + rest)) == Decoded(o.written)
      ensures ret == OK || ret == STREAM_END || ret == SEQUENCE_ERROR ==> Listening()
      ensures ret != OK && ret != STREAM_END && ret != SEQUENCE_ERROR ==> Stops(ret, old(Total(input + rest)))
    {
      hide Valid, BytesBits, Decode, Total, Then, Need, Waiting, Supply, DState.Stored, DState.Valid, Future;
      Offer(input, room, rest);
      ReaderValid();
      if d.p.at == Label.Idle {
        return SEQUENCE_ERROR;
      }
      ret := Rounds(rest);
    }

    /** The loop of BZ2_bzDecompress. */
    method Rounds(ghost rest: seq<int>) returns (ret: int)
      requires Valid() && d.r.Valid() && Bytes(rest) && d.p.at != Label.Idle && Listening()
      modifies this, o, d, d.tt, d.unzftab, d.cache.mtfa, d.cache.mtfbase, d.r
      ensures Grown() && Handed(old(o.Outside()), o.Outside()) && ret != SEQUENCE_ERROR && received == old(received)
      ensures ret == DATA_ERROR_MAGIC <==> BadStart(received)
      ensures ret != OK && ret != DATA_ERROR_MAGIC ==> GoodStart(received)
      ensures ret == OK ==> Valid() && Total(rest) == old(Total(rest)) && d.r.Valid() && Waiting()
      ensures ret == STREAM_END ==> Valid() && d.p.at == Label.Idle && old(Total(rest)) == Decoded(o.written)
      ensures ret == OK || ret == STREAM_END ==> Listening()
      ensures ret != OK && ret != STREAM_END ==> Stops(ret, old(Total(rest)))
    {
      hide Valid, BytesBits, Decode, Total, Then, Need, Waiting, Supply, DState.Stored, DState.Valid, Future, Handed,
        Listening, BadStart, GoodStart;
      ghost var s, total := o.Outside(), Total(rest);
      NoneHanded(s);
      while true
        invariant Valid() && d.r.Valid() && Total(rest) == total && d.p.at != Label.Idle && Listening()
        invariant received == old(received)
        invariant Grown() && Handed(s, o.Outside())
        decreases Supply()
      {
        ghost var s' := o.Outside();
        var more;
        more, ret := Round(rest);
        HandedTwice(s, s', o.Outside());
        if !more {
          return;
        }
      }
    }

    lemma ReaderValid()
      requires Valid()
      ensures d.r.Valid()
    {
      hide DState.Stored, DState.Valid;
    }
  }
}
