/** BZ2_bzBuffToBuffCompress and BZ2_bzBuffToBuffDecompress: a whole buffer in one call, there and back. */
module BufferToBuffer {
  import opened Basics
  import C = Compressor
  import opened BlockParser
  import opened Crc
  import D = Decompressor
  import DecoderState
  import OutputRuns
  import OutputSide
  import opened StreamSize
  import opened RoundTrip
  import opened StreamFormat
  import opened StreamStart
  import opened Words

  const OK := 0               // BZ_OK
  const SEQUENCE_ERROR := -1  // BZ_SEQUENCE_ERROR
  const PARAM_ERROR := -2     // BZ_PARAM_ERROR
  const UNEXPECTED_EOF := -7  // BZ_UNEXPECTED_EOF
  const OUTBUFF_FULL := -8    // BZ_OUTBUFF_FULL

  /** What a byte string decodes to as a whole stream. */
  ghost function Meaning(table: seq<bv32>, stream: seq<int>): Outcome
    requires |table| == 256 && Bytes(stream)
  {
    Decode(table, Fresh(), BytesBits(stream), 0)
  }

  lemma CompleteMeans(table: seq<bv32>, log: seq<Sent>, k: nat, stream: seq<int>)
    requires LogOk(table, log, k) && Bytes(stream)
    requires exists pad: nat :: pad < 8 && BytesBits(stream) == ClosedBits(table, log, k) + Zeros(pad)
    ensures |table| == 256 && Meaning(table, stream) == Decoded(LogData(log))
  {
    hide LogOk, ClosedBits, BytesBits, Decode, Fresh, Zeros;
    var pad: nat :| pad < 8 && BytesBits(stream) == ClosedBits(table, log, k) + Zeros(pad);
    DecodeCompressed(table, log, k, Zeros(pad));
  }

  lemma WholeStream(strm: C.Compressor)
    requires strm.Complete()
    ensures |strm.crcTable| == 256 && Bytes(strm.written)
    ensures Meaning(strm.crcTable, strm.written) == Decoded(strm.h.consumed)
    ensures WrittenStart(strm.written, strm.blockSize100k, strm.h.consumed != [])
    ensures strm.h.consumed == [] ==> strm.written == EmptyStream(strm.blockSize100k)
  {
    hide Meaning, LogData, LogOk, ClosedBits, BytesBits, Zeros, WrittenStart, EmptyStream;
    CompleteMeans(strm.crcTable, strm.h.log, strm.blockSize100k, strm.written);
    var pad: nat :|
      pad < 8 && BytesBits(strm.written) == ClosedBits(strm.crcTable, strm.h.log, strm.blockSize100k) + Zeros(pad);
    CompleteStarts(strm.crcTable, strm.h.log, strm.blockSize100k, pad, strm.written);
    SomeBlocks(strm.crcTable, strm.h.log, strm.blockSize100k);
    if strm.h.consumed == [] {
      EmptyComplete(strm.crcTable, strm.blockSize100k, pad, strm.written);
    }
  }

  /** A finished stream is not empty. */
  lemma SomethingWritten(strm: C.Compressor)
    requires strm.Complete()
    ensures |strm.written| > 0
  {
    hide OpenBits, ClosedBits, TrailerBits, LogOk, LogCrc, LogData, BytesBits;
    BytesBitsLength(strm.written);
    Closing(strm.crcTable, strm.h.log, strm.blockSize100k);
    TrailerLength(ToNat(LogCrc(strm.crcTable, strm.h.log, strm.blockSize100k)));
  }

  /** BZ2_bzBuffToBuffCompress. It succeeds whenever there is ample room. */
  method Compress(table: seq<bv32>, source: seq<int>, destLen: nat, blockSize100k: int, workFactor: int)
    returns (ret: int, dest: seq<int>)
    requires |table| == 256 && Bytes(source)
    ensures ret == PARAM_ERROR <==> !(1 <= blockSize100k <= 9 && 0 <= workFactor <= 250)
    ensures ret == OK ==> |dest| <= destLen && Bytes(dest) && Meaning(table, dest) == Decoded(source)
    ensures ret == OK ==> WrittenStart(dest, blockSize100k, source != [])
    ensures ret == OK && source == [] ==> dest == EmptyStream(blockSize100k)
    ensures ret == OK || ret == PARAM_ERROR || ret == OUTBUFF_FULL || ret == SEQUENCE_ERROR
    ensures ret == OUTBUFF_FULL ==> |dest| == destLen
    ensures ret != PARAM_ERROR && destLen >= Ample(|source|, 1) ==> ret == OK
    ensures ret == SEQUENCE_ERROR <==> ret != PARAM_ERROR && source == [] && destLen == 0
  {
    dest := [];
    if blockSize100k < 1 || blockSize100k > 9 || workFactor < 0 || workFactor > 250 {
      return PARAM_ERROR, dest;
    }
    hide Meaning, Bytes, Ample, WrittenStart, EmptyStream;
    var strm, r := FinishAtOnce(table, source, destLen, blockSize100k, workFactor);
    dest := strm.written;
    if r == C.FINISH_OK {
      return OUTBUFF_FULL, dest;
    }
    if r != C.STREAM_END {
      return SEQUENCE_ERROR, dest;
    }
    return OK, dest;
  }

  /** Initialise the stream, and a single call to finish it. */
  method FinishAtOnce(table: seq<bv32>, source: seq<int>, destLen: nat, blockSize100k: nat, workFactor: int)
    returns (strm: C.Compressor, r: C.Status)
    requires |table| == 256 && Bytes(source) && 1 <= blockSize100k <= 9 && 0 <= workFactor <= 250
    ensures r == C.STREAM_END || r == C.FINISH_OK || r == C.SEQUENCE_ERROR
    ensures |strm.written| <= destLen && (r == C.FINISH_OK ==> |strm.written| == destLen)
    ensures r == C.STREAM_END ==> Bytes(strm.written) && Meaning(table, strm.written) == Decoded(source)
    ensures r == C.STREAM_END ==> WrittenStart(strm.written, blockSize100k, source != [])
    ensures r == C.STREAM_END && source == [] ==> strm.written == EmptyStream(blockSize100k)
    ensures destLen >= Ample(|source|, 1) ==> r == C.STREAM_END
    ensures r == C.SEQUENCE_ERROR <==> source == [] && destLen == 0
  {
    hide Meaning, C.Compressor.Valid, C.Compressor.FlushedOut, C.Compressor.Complete, C.Advances, C.Progressed, Ample, Shorts,
      WrittenStart, EmptyStream;
    strm := new C.Compressor(blockSize100k, workFactor, table);
    assert !strm.Misused(C.Finish, |source|);
    NoShorts(blockSize100k);
    r := strm.Compress(C.Finish, source, destLen);
    TakenAll(C.View(source, [], [], [], destLen), strm.Now());
    AmpleGrows(|strm.h.consumed|, |source|, Shorts(strm.h.log, blockSize100k));
    if strm.Complete() {
      SomethingWritten(strm);
    }
    if r == C.STREAM_END {
      WholeStream(strm);
    }
  }

  lemma NoShorts(k: nat)
    ensures Shorts([], k) == 0
  {
  }

  lemma AmpleGrows(n: nat, m: nat, shorts: nat)
    requires n <= m && shorts <= 1
    ensures Ample(n, shorts) <= Ample(m, 1)
  {
  }

  lemma TakenAll(a: C.View, b: C.View)
    requires C.Advances(a, b) && a.consumed == [] && a.written == []
    ensures |b.written| == a.room - b.room && (b.input == [] ==> b.consumed == a.input)
    ensures |b.consumed| <= |a.input|
    ensures C.Progressed(a, b) <==> |b.input| < |a.input| || |b.written| > 0
  {
    if b.input == [] {
      assert [] + a.input[..|a.input|] == a.input;
    }
  }

  /** BZ2_bzBuffToBuffDecompress, in either mode. It succeeds just when the stream is whole and its data fit. */
  method Decompress(table: seq<bv32>, source: seq<int>, destLen: nat, small: bool) returns (ret: int, dest: seq<int>)
    requires |table| == 256 && Bytes(source)
    ensures |dest| <= destLen
    ensures ret == OK <==> Meaning(table, source).Decoded? && |Meaning(table, source).data| <= destLen
    ensures ret == OK ==> Meaning(table, source) == Decoded(dest)
    ensures ret == UNEXPECTED_EOF ==> Meaning(table, source) == Suspended
    ensures ret == OUTBUFF_FULL ==> |dest| == destLen
    ensures ret == OUTSIDE ==> Meaning(table, source) == Outside
    ensures ret == DATA_ERROR || ret == DATA_ERROR_MAGIC ==> Meaning(table, source) == Corrupt
    ensures ret == DATA_ERROR_MAGIC <==> BadStart(source)
    ensures ret == DATA_ERROR ==> GoodStart(source)
    ensures ret == OK || ret == UNEXPECTED_EOF || ret == OUTBUFF_FULL || ret == OUTSIDE || D.IsDataError(ret)
  {
    hide D.Decompressor.Valid, D.Decompressor.Total, Decode, BytesBits, D.Decompressor.Waiting, Fresh;
    var strm := new D.Decompressor(table, small);
    assert source + [] == source && [] + source == source;
    assert strm.Total(source) == Meaning(table, source);
    var r := strm.Decompress(source, destLen, []);
    dest := strm.o.written;
    if r == DecoderState.OK {
      StuckCall(strm, destLen);
      if strm.o.avail_out > 0 {
        return UNEXPECTED_EOF, dest;
      }
      return OUTBUFF_FULL, dest;
    }
    if r != DecoderState.STREAM_END {
      return r, dest;
    }
    return OK, dest;
  }

  /** What can be said of a call that waits when there is no more input. */
  lemma StuckCall(strm: D.Decompressor, destLen: nat)
    requires strm.Valid() && strm.d.r.Valid() && strm.Waiting() && |strm.o.written| == destLen - strm.o.avail_out
    ensures strm.o.avail_out > 0 ==> strm.Total([]) == Suspended
    ensures strm.Total([]).Decoded? ==> |strm.Total([]).data| > destLen
  {
    hide D.Decompressor.Valid, D.Decompressor.Total, D.Decompressor.Repr, Decode, BytesBits, D.AfterBlock, OutputRuns.Sound,
      OutputSide.Left, D.Then, Need;
    if strm.d.p.at == Label.Output {
      strm.OutputTotal([]);
      var left, sound := OutputSide.Left(strm.c, strm.o.Fields()), OutputRuns.Sound(strm.c, strm.o.nblock_used);
      MoreThanFits(strm.crcTable, strm.d.p, strm.o.written, left, sound, strm.o.calculatedBlockCRC,
                   strm.calculatedCombinedCRC, strm.d.r.Held() + BytesBits(strm.d.r.next_in + []));
    } else {
      Starved(strm);
    }
  }

  lemma MoreThanFits(table: seq<bv32>, p: Parser, out: seq<int>, left: seq<int>, sound: bool, crc: bv32, combined: bv32,
                     bits: seq<bool>)
    requires |table| == 256 && Bytes(left) && !(left == [] && sound)
    ensures var all := D.Then(out, D.AfterBlock(table, p, left, sound, crc, combined, bits));
      all.Decoded? ==> |all.data| > |out|
  {
    hide Decode, ToNat, ChecksumFrom, Combine;
  }

  lemma Starved(strm: D.Decompressor)
    requires strm.Valid() && strm.d.r.Valid() && strm.d.p.at != Label.Output
    requires strm.d.r.next_in == [] && |strm.d.r.Held()| < Need(strm.d.p)
    ensures strm.Total([]) == Suspended
  {
    hide D.Decompressor.Repr, Decode, BytesBits, DecoderState.DState.Stored, DecoderState.DState.Valid;
    var none: seq<int> := [];
    assert none + none == none;
    NoBits();
    assert strm.d.r.Held() + [] == strm.d.r.Held();
    strm.AbsParts();
    D.WantsBits(strm.crcTable, strm.d.Abs(), strm.d.r.Held(), strm.calculatedCombinedCRC);
  }

  lemma NoBits()
    ensures BytesBits([]) == []
  {
  }

  /** Whatever the settings on either side, a buffer comes back as it was. */
  method ThereAndBack(table: seq<bv32>, source: seq<int>, room: nat, blockSize100k: int, workFactor: int, small: bool,
                      destLen: nat)
    returns (packed: bool, ret: int, back: seq<int>)
    requires |table| == 256 && Bytes(source)
    ensures 1 <= blockSize100k <= 9 && 0 <= workFactor <= 250 && room >= Ample(|source|, 1) ==> packed
    ensures packed ==> (ret == OK <==> |source| <= destLen)
    ensures packed && |source| <= destLen ==> back == source
  {
    hide Meaning, Ample;
    var dest;
    ret, dest := Compress(table, source, room, blockSize100k, workFactor);
    packed, back := ret == OK, [];
    if packed {
      ret, back := Decompress(table, dest, destLen, small);
    }
  }
}
