/** handle_compress and BZ2_bzCompress: the streaming compressor as a state machine. */
module Compressor {
  import opened Basics
  import opened BitStream
  import opened BlockEncoder
  import opened BlockFormat
  import opened BlockWriter
  import opened Crc
  import opened FrontEnd
  import opened MtfCoding
  import opened RunLength
  import opened StreamFormat
  import opened StreamSize
  import opened Words
  import Bits

  datatype Mode = Idling | Running | Flushing | Finishing
  datatype Phase = Input | Output
  datatype Action = Run | Flush | Finish
  datatype Status = RUN_OK | FLUSH_OK | FINISH_OK | STREAM_END | SEQUENCE_ERROR | PARAM_ERROR

  /** The blocks sent and all that was read so far, against the block being filled and the pending run. */
  datatype History = History(log: seq<Sent>, rs: seq<RunLength.Run>, consumed: seq<int>, closed: bool)

  ghost predicate Accounted(table: seq<bv32>, k: nat, h: History, ch: int, len: nat, combined: bv32) {
    && LogOk(table, h.log, k)
    && PendingOk(h.rs, ch, len)
    && h.consumed == LogData(h.log) + (DataOf(h.rs) + Repeat(ch, len))
    && combined == LogCrc(table, h.log, k)
  }

  /** All bits written for this history: nothing before the first block is compressed. */
  ghost predicate WrittenFor(table: seq<bv32>, k: nat, h: History, begun: bool, bits: seq<bool>)
    requires LogOk(table, h.log, k)
  {
    if h.closed then exists pad: nat :: pad < 8 && bits == ClosedBits(table, h.log, k) + Zeros(pad)
    else if begun then bits == OpenBits(table, h.log, k)
    else bits == [] && h.log == []
  }

  /** The nested conditions the comments of the state machine rely on. */
  ghost predicate ModeOk(mode: Mode, phase: Phase, due: nat, empty: bool, closed: bool) {
    && (mode == Idling ==> closed)
    && (closed ==> phase == Output && empty && due == 0 && (mode == Finishing || mode == Idling))
    && (mode == Running && phase == Output ==> !empty)
    && (mode == Flushing && phase == Output && empty ==> due == 0)
    && (mode == Finishing && phase == Output && empty ==> closed)
  }

  lemma NothingBegun(table: seq<bv32>, k: nat)
    requires |table| == 256 && 1 <= k <= 9
    ensures Accounted(table, k, History([], [], [], false), 256, 0, 0)
    ensures WrittenFor(table, k, History([], [], [], false), false, [])
  {
    assert Repeat(256, 0) == [];
  }

  /** What a call can be seen to have done: input left, input consumed, blocks sent, output, room left. */
  datatype View = View(input: seq<int>, consumed: seq<int>, log: seq<Sent>, written: seq<int>, room: nat)

  /** Input is consumed from the front, blocks and output are added at the end. */
  ghost predicate Advances(a: View, b: View) {
    && |b.input| <= |a.input| && b.input == a.input[|a.input| - |b.input|..]
    && b.consumed == a.consumed + a.input[..|a.input| - |b.input|]
    && |a.log| <= |b.log| && b.log[..|a.log|] == a.log
    && |a.written| <= |b.written| && b.written[..|a.written|] == a.written
    && |b.written| - |a.written| == a.room - b.room
  }

  ghost predicate Progressed(a: View, b: View) {
    |b.input| < |a.input| || |b.written| > |a.written|
  }

  lemma OutputAdvances(a: View, b: View)
    requires b == a.(written := b.written, room := b.room) && |a.written| <= |b.written|
    requires b.written[..|a.written|] == a.written && |b.written| - |a.written| == a.room - b.room
    ensures Advances(a, b) && (Progressed(a, b) <==> |b.written| > |a.written|)
  {
    assert a.input[..0] == [];
  }

  lemma InputAdvances(a: View, b: View)
    requires |b.input| <= |a.input| && b.input == a.input[|a.input| - |b.input|..]
    requires b.consumed == a.consumed + a.input[..|a.input| - |b.input|]
    requires |a.log| <= |b.log| && b.log[..|a.log|] == a.log && b.written == a.written && b.room == a.room
    ensures Advances(a, b) && (Progressed(a, b) <==> |b.input| < |a.input|)
  {
  }

  lemma NoAdvance(a: View)
    ensures Advances(a, a) && !Progressed(a, a)
  {
  }

  lemma AdvanceTwice(a: View, b: View, c: View)
    requires Advances(a, b) && Advances(b, c)
    ensures Advances(a, c) && (Progressed(a, c) <==> Progressed(a, b) || Progressed(b, c))
  {
    var m, n := |a.input| - |b.input|, |b.input| - |c.input|;
    assert a.input[..m] + b.input[..n] == a.input[..m + n];
    assert c.log[..|a.log|] == b.log[..|a.log|];
    assert c.written[..|a.written|] == b.written[..|a.written|];
  }

  /** EState, with the fields of bz_stream it works on. */
  class Compressor {
    const blockSize100k: nat
    const workFactor: int
    const crcTable: seq<bv32>
    const w: BitWriter
    var mode: Mode
    var state: Phase
    var avail_in_expect: nat
    var state_in_ch: int
    var state_in_len: nat
    var f: Filling            // block, inUse and blockCRC; nblock is the length of block
    var combinedCRC: bv32
    var blockNo: nat
    var state_out_pos: nat    // numZ is the length of w.zbits
    var next_in: seq<int>     // avail_in bytes
    var avail_out: nat
    var written: seq<int>     // all that next_out has moved over
    ghost var h: History

    function NblockMax(): int {
      100000 * blockSize100k - 19
    }

    /** isempty_RL. */
    predicate EmptyRL()
      reads this
    {
      !(state_in_ch < 256 && state_in_len > 0)
    }

    /** BZ2_bzCompressInit, init_RL and prepare_new_block. */
    constructor (k: nat, wfact: int, table: seq<bv32>)
      requires 1 <= k <= 9 && 0 <= wfact <= 250 && |table| == 256
      ensures Valid() && fresh(w) && mode == Running && h == History([], [], [], false) && written == []
      ensures state == Input && Unfinished()
      ensures blockSize100k == k && crcTable == table
    {
      blockSize100k := k;
      workFactor := if wfact == 0 then 30 else wfact;
      crcTable := table;
      w := new BitWriter();
      mode, state, avail_in_expect := Running, Input, 0;
      state_in_ch, state_in_len := 256, 0;
      f := EmptyBlock();
      combinedCRC, blockNo, state_out_pos := 0, 1, 0;
      next_in, avail_out, written := [], 0, [];
      h := History([], [], [], false);
      new;
      EmptyOk(table);
      NothingBegun(table, k);
    }

    /** copy_output_until_stop. */
    method CopyOutput() returns (progress: bool)
      requires state_out_pos <= |w.zbits| && written == w.taken + w.zbits[..state_out_pos]
      modifies this`state_out_pos, this`avail_out, this`written
      ensures old(state_out_pos) <= state_out_pos <= |w.zbits| && written == w.taken + w.zbits[..state_out_pos]
      ensures state_out_pos == |w.zbits| || avail_out == 0
      ensures progress <==> state_out_pos > old(state_out_pos)
      ensures |written| - |old(written)| == old(avail_out) - avail_out && |old(written)| <= |written|
      ensures written[..|old(written)|] == old(written)
    {
      progress := false;
      while true
        invariant old(state_out_pos) <= state_out_pos <= |w.zbits|
        invariant written == w.taken + w.zbits[..state_out_pos] && (progress <==> state_out_pos > old(state_out_pos))
        invariant |written| - |old(written)| == old(avail_out) - avail_out
        decreases |w.zbits| - state_out_pos
      {
        if avail_out == 0 {
          break;
        }
        if state_out_pos >= |w.zbits| {
          break;
        }
        progress := true;
        written := written + [w.zbits[state_out_pos]];
        state_out_pos := state_out_pos + 1;
        avail_out := avail_out - 1;
      }
    }

    /** Everything but where the machine stands. */
    ghost predicate Core()
      reads this, w
    {
      && 1 <= blockSize100k <= 9 && |crcTable| == 256 && blockNo >= 1
      && w.Valid() && Bytes(next_in)
      && Accounted(crcTable, blockSize100k, h, state_in_ch, state_in_len, combinedCRC)
      && (h.closed ==> w.bsLive == 0)
      && state_out_pos <= |w.zbits| && written == w.taken + w.zbits[..state_out_pos]
    }

    /** The block is being filled, up to n bytes of it; its last run may have been flushed into it. */
    ghost predicate Filled(n: int)
      reads this, w
    {
      && Core() && !h.closed && state == Input
      && WrittenFor(crcTable, blockSize100k, h, blockNo > 1, w.Written())
      && FillingOk(crcTable, h.rs, f) && |f.block| <= n && state_out_pos == 0 && w.zbits == []
    }

    ghost predicate FillingUp(n: int)
      reads this, w
    {
      Filled(n) && (state_in_ch == 256 ==> h.rs == [])
    }

    /** A finished block's bytes are being handed out. */
    ghost predicate Draining()
      reads this, w
    {
      && Core() && state == Output && h.rs == []
      && WrittenFor(crcTable, blockSize100k, h, true, w.Written())
    }

    ghost predicate Standing()
      reads this
    {
      ModeOk(mode, state, avail_in_expect, EmptyRL(), h.closed)
    }

    ghost predicate Valid()
      reads this, w
    {
      Standing() && if state == Input then FillingUp(NblockMax() - 1) else Draining()
    }

    lemma FilledParts(n: int)
      requires Filled(n)
      ensures Core() && !h.closed && state == Input && FillingOk(crcTable, h.rs, f) && |f.block| <= n
      ensures state_out_pos == 0 && w.zbits == [] && 1 <= blockNo
      ensures LogOk(crcTable, h.log, blockSize100k)
      ensures WrittenFor(crcTable, blockSize100k, h, blockNo > 1, w.Written())
    {
      hide FillingOk, WrittenFor, LogOk, LogCrc, PendingOk;
    }

    lemma FilledFrom(n: int)
      requires Core() && !h.closed && state == Input && FillingOk(crcTable, h.rs, f) && |f.block| <= n
      requires state_out_pos == 0 && w.zbits == [] && LogOk(crcTable, h.log, blockSize100k)
      requires WrittenFor(crcTable, blockSize100k, h, blockNo > 1, w.Written())
      ensures Filled(n)
    {
      hide FillingOk, WrittenFor, LogOk, Core;
    }

    lemma FillingUpFrom(n: int)
      requires Filled(n) && (state_in_ch == 256 ==> h.rs == [])
      ensures FillingUp(n)
    {
      hide Filled;
    }

    lemma FillingUpParts(n: int)
      requires FillingUp(n)
      ensures Filled(n) && (state_in_ch == 256 ==> h.rs == [])
    {
      hide Filled;
    }

    /** prepare_new_block. */
    method PrepareNewBlock()
      requires Core() && !h.closed && h.rs == [] && state == Output && state_out_pos == |w.zbits|
      requires WrittenFor(crcTable, blockSize100k, h, true, w.Written())
      modifies this`f, this`blockNo, this`state_out_pos, this`state, w
      ensures state == Input && FillingUp(0) && written == old(written)
      ensures blockNo == old(blockNo) + 1
    {
      hide Accounted, WrittenFor, UpdateAll;
      f := EmptyBlock();
      state_out_pos := 0;
      assert w.zbits[..|w.zbits|] == w.zbits;
      w.Reuse();
      blockNo := blockNo + 1;
      state := Input;
      EmptyOk(crcTable);
      assert w.taken + w.zbits[..0] == w.taken;
    }

    /** copy_input_until_stop; the source writes the loop out once for each kind of mode. */
    method CopyInput() returns (progress: bool)
      requires FillingUp(NblockMax() - 1) && NblockMax() > 0 && |f.block| < NblockMax()
      requires mode != Running ==> avail_in_expect == |next_in|
      modifies this`f, this`state_in_ch, this`state_in_len, this`next_in, this`avail_in_expect, this`h
      ensures FillingUp(NblockMax() + 4)
      ensures mode != Running ==> avail_in_expect == |next_in|
      ensures mode == Running ==> avail_in_expect == old(avail_in_expect)
      ensures |f.block| >= NblockMax() || next_in == []
      ensures |next_in| <= |old(next_in)| && next_in == old(next_in)[|old(next_in)| - |next_in|..]
      ensures h == old(h).(rs := h.rs, consumed := old(h.consumed) + old(next_in)[..|old(next_in)| - |next_in|])
      ensures progress <==> |next_in| < |old(next_in)|
      ensures progress <==> old(next_in) != []
      ensures progress ==> state_in_ch < 256
      ensures !progress ==> state_in_ch == old(state_in_ch) && state_in_len == old(state_in_len) && f == old(f)
    {
      hide FillingUp;
      progress := false;
      AtMost(NblockMax() - 1, NblockMax() + 4);
      ghost var input, used := next_in, 0;
      assert input[0..] == input && input[..0] == [];
      ghost var h0 := h;
      assert h0.consumed + input[..0] == h0.consumed;
      while true
        invariant FillingUp(NblockMax() + 4)
        invariant mode != Running ==> avail_in_expect == |next_in|
        invariant mode == Running ==> avail_in_expect == old(avail_in_expect)
        invariant 0 <= used <= |input| && next_in == input[used..] && (progress <==> used > 0)
        invariant h == h0.(rs := h.rs, consumed := h0.consumed + input[..used])
        invariant progress ==> state_in_ch < 256
        invariant old(next_in) != [] && used == 0 ==> |f.block| < NblockMax() && next_in != []
        invariant !progress ==> state_in_ch == old(state_in_ch) && state_in_len == old(state_in_len) && f == old(f)
        decreases |input| - used
      {
        if |f.block| >= NblockMax() {
          break;
        }
        if |next_in| == 0 {
          break;
        }
        if mode != Running && avail_in_expect == 0 {
          break;
        }
        progress := true;
        AtMost(NblockMax() + 4, NblockMax() - 1);
        TakeChar();
        assert input[..used + 1] == input[..used] + [input[used]];
        used := used + 1;
      }
    }

    lemma AtMost(n: int, m: int)
      requires FillingUp(n) && |f.block| <= m
      ensures FillingUp(m)
    {
      hide Core, FillingOk, WrittenFor;
    }

    /** One byte of the input goes into the front end. */
    method TakeChar()
      requires FillingUp(NblockMax() - 1) && next_in != [] && (mode != Running ==> avail_in_expect > 0)
      modifies this`f, this`state_in_ch, this`state_in_len, this`next_in, this`avail_in_expect, this`h
      ensures avail_in_expect == old(avail_in_expect) - if mode != Running then 1 else 0
      ensures FillingUp(NblockMax() + 4) && next_in == old(next_in)[1..] && state_in_ch < 256
      ensures h == old(h).(rs := h.rs, consumed := old(h.consumed) + [old(next_in)[0]])
    {
      hide *;
      FillingUpParts(NblockMax() - 1);
      FilledParts(NblockMax() - 1);
      CoreParts();
      AccountedLog(crcTable, blockSize100k, h, state_in_ch, state_in_len, combinedCRC);
      FirstByte(next_in);
      ghost var rs;
      ghost var was := h;
      ghost var ch0, len0, c := state_in_ch, state_in_len, next_in[0];
      f, state_in_ch, state_in_len, rs := AddChar(crcTable, f, state_in_ch, state_in_len, next_in[0], h.rs);
      h := h.(rs := rs, consumed := h.consumed + [c]);
      next_in := next_in[1..];
      if mode != Running {
        avail_in_expect := avail_in_expect - 1;
      }
      OpenWritten(crcTable, blockSize100k, was, h, blockNo > 1, w.Written());
      OneMoreConsumed(crcTable, blockSize100k, was, h, ch0, len0, state_in_ch, state_in_len, c, combinedCRC);
      CoreFrom();
      FilledFrom(NblockMax() + 4);
      FillingUpFrom(NblockMax() + 4);
    }

    /**
     * BZ2_compressBlock: the block, if there is anything in it, after the header if it is the first, before the trailer
     * if it is the last.
     */
    method CompressBlock(last: bool)
      requires Filled(NblockMax() + 9) && (last ==> state_in_ch == 256)
      modifies this`state, this`combinedCRC, this`state_out_pos, this`h, w
      ensures state == Output && Core() && h.rs == [] && h.closed == last && h.consumed == old(h.consumed)
      ensures WrittenFor(crcTable, blockSize100k, h, true, w.Written())
      ensures written == old(written) && w.taken == old(w.taken) && state_out_pos == 0
      ensures |old(h.log)| <= |h.log| && h.log[..|old(h.log)|] == old(h.log)
      ensures |w.zbits| <= 4 * (100000 * blockSize100k + 34) - |f.block| && (last ==> |w.zbits| > 0)
      ensures Shorts(h.log, blockSize100k)
              <= old(Shorts(h.log, blockSize100k)) + (if |f.block| >= NblockMax() then 0 else 1)
    {
      hide *;
      FilledParts(NblockMax() + 9);
      BlockLimit();
      CoreParts();
      w.WrittenLength();
      if blockNo == 1 {
        // BZ2_bsInitWrite has left the writer empty
        StartStream();
      }
      SealBlock();
      if last {
        CloseStream();
      }
      CoreParts();
      w.WrittenLength();
      FitsBehindBlock(|f.block|, blockSize100k, |w.Written()| - 8 * |w.taken|);
    }

    /** The checksums, and the block itself if it is not empty. */
    method SealBlock()
      requires Core() && !h.closed && FillingOk(crcTable, h.rs, f) && |f.block| <= NblockMax() + 9
      requires state_out_pos == 0
      requires WrittenFor(crcTable, blockSize100k, h, true, w.Written())
      modifies this`state, this`combinedCRC, this`h, w
      ensures state == Output && Core() && !h.closed && h.rs == [] && h.consumed == old(h.consumed)
      ensures WrittenFor(crcTable, blockSize100k, h, true, w.Written())
      ensures w.taken == old(w.taken)
      ensures |old(h.log)| <= |h.log| && h.log[..|old(h.log)|] == old(h.log)
      ensures |old(w.Written())| <= |w.Written()| <= |old(w.Written())| + BLOCKBITS + 20 * (|f.block| + 1)
      ensures Shorts(h.log, blockSize100k)
              <= old(Shorts(h.log, blockSize100k)) + (if |f.block| >= NblockMax() then 0 else 1)
    {
      hide *;
      CoreParts();
      ghost var h0 := h;
      FillingParts(crcTable, h.rs, f);
      AccountedLog(crcTable, blockSize100k, h, state_in_ch, state_in_len, combinedCRC);
      BlockLimit();
      SizeLimit();
      if |f.block| > 0 {
        var blockCRC := !f.crc;
        ghost var before := combinedCRC;
        combinedCRC := Combine(combinedCRC, blockCRC);
        ghost var c, p;
        ghost var bits := w.Written();
        c, p := EncodeBlock(w, f.block, f.inUse, ToNat(blockCRC), blockSize100k, workFactor);
        h := History(h.log + [Sent(h.rs, c, p)], [], h.consumed, false);
        EncodedBlock(c, f.block, p, ToNat(blockCRC), blockSize100k);
        SentLength(f.block, p, c, ToNat(blockCRC), blockSize100k);
        ShortsNext(h0.log, Sent(h0.rs, c, p), blockSize100k);
        Sealed(crcTable, blockSize100k, h0, h, f, c, p, state_in_ch, state_in_len, before, combinedCRC, bits, w.Written());
      } else {
        NothingToSeal(crcTable, h.rs, f);
      }
      state := Output;
      CoreFrom();
    }

    lemma CoreParts()
      requires Core()
      ensures 1 <= blockSize100k <= 9 && |crcTable| == 256 && blockNo >= 1
      ensures w.Valid() && Bytes(next_in)
      ensures Accounted(crcTable, blockSize100k, h, state_in_ch, state_in_len, combinedCRC)
      ensures h.closed ==> w.bsLive == 0
      ensures state_out_pos <= |w.zbits| && written == w.taken + w.zbits[..state_out_pos]
    {
      hide Accounted;
    }

    lemma CoreFrom()
      requires 1 <= blockSize100k <= 9 && |crcTable| == 256 && blockNo >= 1
      requires w.Valid() && Bytes(next_in)
      requires Accounted(crcTable, blockSize100k, h, state_in_ch, state_in_len, combinedCRC)
      requires h.closed ==> w.bsLive == 0
      requires state_out_pos <= |w.zbits| && written == w.taken + w.zbits[..state_out_pos]
      ensures Core()
    {
      hide Accounted;
    }

    lemma SizeLimit()
      ensures NblockMax() == 100000 * blockSize100k - 19 && BLOCKBITS >= 0
    {
    }

    lemma BlockLimit()
      ensures NblockMax() + 9 == 100000 * blockSize100k - 10
    {
    }

    /** The trailer. */
    method CloseStream()
      requires Core() && !h.closed && h.rs == [] && state == Output && state_out_pos == 0
      requires state_in_ch == 256 && WrittenFor(crcTable, blockSize100k, h, true, w.Written())
      modifies this`h, w
      ensures Core() && h == old(h).(closed := true) && w.taken == old(w.taken)
      ensures WrittenFor(crcTable, blockSize100k, h, true, w.Written())
      ensures |old(w.Written())| + 80 <= |w.Written()| < |old(w.Written())| + 88 && w.bsLive == 0
    {
      hide Accounted, WrittenFor, BytesThen, WordBytes, ENDMAGIC;
      TrailerLength(ToNat(combinedCRC));
      EndBytes();
      AccountedLog(crcTable, blockSize100k, h, state_in_ch, state_in_len, combinedCRC);
      ghost var bits := w.Written();
      PutBytes(w, ENDMAGIC + WordBytes(ToNat(combinedCRC)), []);
      ghost var full := w.Written();
      w.Finish();
      ghost var was := h;
      h := h.(closed := true);
      Closed(crcTable, blockSize100k, was, h, bits, full, w.Written(), combinedCRC);
      SameAccount(crcTable, blockSize100k, was, h, state_in_ch, state_in_len, combinedCRC);
    }

    /** The stream header. */
    method StartStream()
      requires Filled(NblockMax() + 9) && blockNo == 1
      modifies w
      ensures Core() && !h.closed && FillingOk(crcTable, h.rs, f) && w.taken == old(w.taken)
      ensures WrittenFor(crcTable, blockSize100k, h, true, w.Written())
      ensures |w.Written()| == |old(w.Written())| + 32
    {
      hide FillingOk, Accounted, BytesThen, HeaderBytes;
      BytesLength(HeaderBytes(blockSize100k), []);
      PutBytes(w, HeaderBytes(blockSize100k), []);
      HeaderOnly(crcTable, blockSize100k, h, w.Written());
    }

    ghost function Now(): View
      reads this
    {
      View(next_in, h.consumed, h.log, written, avail_out)
    }

    /** Why handle_compress may stop. */
    ghost predicate Stopped()
      reads this, w
    {
      || (state == Output && state_out_pos < |w.zbits| && avail_out == 0)
      || (mode == Finishing && h.closed && state_out_pos == |w.zbits|)
      || (mode == Flushing && state == Input && avail_in_expect == 0 && EmptyRL() && h.rs == [])
      || (mode == Running && state == Input && next_in == [])
    }

    /** During a flush or a finish the bytes due are those that are there. */
    predicate DueIsThere()
      reads this
    {
      mode != Running ==> avail_in_expect == |next_in|
    }

    /** While the stream is being finished there is something left to do or to put out. */
    ghost predicate Unfinished()
      reads this, w
    {
      mode == Finishing && h.closed ==> state_out_pos < |w.zbits|
    }

    /** The first half of a round of handle_compress. */
    method OutputPhase() returns (progress: bool, stop: bool)
      requires Valid() && state == Output && mode != Idling && DueIsThere() && Unfinished()
      modifies this`f, this`blockNo, this`state_out_pos, this`state, this`avail_out, this`written, w
      ensures Valid() && DueIsThere()
      ensures stop ==> Stopped()
      ensures !stop ==> state == Input && |f.block| == 0
      ensures !stop && mode != Running ==> !EmptyRL()
      ensures Advances(old(Now()), Now()) && (progress <==> Progressed(old(Now()), Now()))
      ensures next_in == old(next_in) && EmptyRL() == old(EmptyRL())
      ensures !progress || !stop ==> Unfinished()
    {
      hide Core, WrittenFor, FillingUp, Filled, FillingOk, Advances, Progressed, Accounted;
      CoreParts();
      ghost var a := Now();
      progress := CopyOutput();
      CoreFrom();
      OutputAdvances(a, Now());
      stop := true;
      if state_out_pos < |w.zbits| {
        return;
      }
      if mode == Finishing && avail_in_expect == 0 && EmptyRL() {
        return;
      }
      PrepareNewBlock();
      FillingUpParts(0);
      FilledParts(0);
      LimitIsPositive();
      AtMost(0, NblockMax() - 1);
      if mode == Flushing && avail_in_expect == 0 && EmptyRL() {
        return;
      }
      stop := false;
    }

    lemma LimitIsPositive()
      requires Core()
      ensures NblockMax() > 90000
    {
      hide Accounted;
    }

    /** The second half. */
    method InputPhase() returns (progress: bool, stop: bool)
      requires Valid() && state == Input && mode != Idling && DueIsThere()
      modifies this`f, this`state_in_ch, this`state_in_len, this`next_in, this`avail_in_expect, this`combinedCRC,
               this`state_out_pos, this`state, this`h, w
      ensures Valid() && DueIsThere()
      ensures stop ==> Stopped()
      ensures !stop ==> state == Output && (progress || (EmptyRL() && old(mode != Running && next_in == [])))
      ensures |next_in| <= |old(next_in)| && (progress <==> |next_in| < |old(next_in)|)
      ensures progress <==> old(next_in) != []
      ensures Unfinished()
      ensures Advances(old(Now()), Now()) && (progress <==> Progressed(old(Now()), Now()))
      ensures Shorts(h.log, blockSize100k) <= old(Shorts(h.log, blockSize100k)) + Due()
    {
      hide *;
      ghost var a := Now();
      ReadyForInput(a);
      progress := CopyInput();
      StillOpen(NblockMax() + 4);
      stop := SealIfDue();
      ThereIs(Now());
      InputAdvances(a, Now());
    }

    lemma ReadyForInput(a: View)
      requires Valid() && state == Input && DueIsThere() && a == Now()
      ensures FillingUp(NblockMax() - 1) && |f.block| < NblockMax() && NblockMax() > 90000
      ensures mode != Running ==> avail_in_expect == |next_in|
      ensures a == View(next_in, h.consumed, h.log, written, avail_out)
    {
      hide Core, WrittenFor, FillingOk, Standing;
      FillingUpParts(NblockMax() - 1);
      FilledParts(NblockMax() - 1);
      LimitIsPositive();
    }

    lemma StillOpen(n: int)
      requires FillingUp(n)
      ensures !h.closed && state == Input
      ensures (mode != Running ==> avail_in_expect == |next_in|) ==> DueIsThere()
    {
      hide Core, WrittenFor, FillingOk;
    }

    lemma ThereIs(b: View)
      requires b == Now()
      ensures b == View(next_in, h.consumed, h.log, written, avail_out)
      ensures DueIsThere() <==> (mode != Running ==> avail_in_expect == |next_in|)
    {
    }

    /** 1 when a block has been sent because nothing more is to go into it. */
    ghost function Due(): nat
      reads this
    {
      if state == Output && mode != Running && EmptyRL() then 1 else 0
    }

    /** Send the block, if all input there is has gone into it or it is full. */
    method SealIfDue() returns (stop: bool)
      requires FillingUp(NblockMax() + 4) && state == Input && mode != Idling && DueIsThere() && !h.closed
      requires NblockMax() > 90000 && (|f.block| >= NblockMax() || next_in == [])
      requires |f.block| >= NblockMax() ==> state_in_ch < 256
      modifies this`f, this`state_in_ch, this`state_in_len, this`combinedCRC, this`state_out_pos, this`state, this`h, w
      ensures Valid() && Unfinished() && written == old(written) && h.consumed == old(h.consumed)
      ensures |old(h.log)| <= |h.log| && h.log[..|old(h.log)|] == old(h.log)
      ensures stop ==> Stopped()
      ensures !stop ==> state == Output && (EmptyRL() ==> mode != Running && next_in == [])
      ensures !stop ==> old(|f.block|) >= NblockMax() || EmptyRL()
      ensures Shorts(h.log, blockSize100k) <= old(Shorts(h.log, blockSize100k)) + Due()
    {
      hide Core, WrittenFor, FillingUp, Filled, FillingOk, Shorts;
      FillingUpParts(NblockMax() + 4);
      FilledParts(NblockMax() + 4);
      stop := false;
      if mode != Running && avail_in_expect == 0 {
        FlushRun();
        CompressBlock(mode == Finishing);
      } else if |f.block| >= NblockMax() {
        PendingThere();
        Widen(NblockMax() + 4, NblockMax() + 9);
        CompressBlock(false);
      } else if |next_in| == 0 {
        AtMost(NblockMax() + 4, NblockMax() - 1);
        stop := true;
      }
    }

    /** flush_RL. */
    method FlushRun()
      requires FillingUp(NblockMax() + 4)
      modifies this`f, this`state_in_ch, this`state_in_len, this`h
      ensures Filled(NblockMax() + 9) && state_in_ch == 256 && state_in_len == 0
      ensures h == old(h).(rs := h.rs)
    {
      hide *;
      FillingUpParts(NblockMax() + 4);
      FilledParts(NblockMax() + 4);
      CoreParts();
      AccountedLog(crcTable, blockSize100k, h, state_in_ch, state_in_len, combinedCRC);
      ghost var was, rs, ch, len := h, h.rs, state_in_ch, state_in_len;
      f, rs := FlushRL(crcTable, f, state_in_ch, state_in_len, h.rs);
      state_in_ch, state_in_len := 256, 0;
      h := h.(rs := rs);
      FlushedAccount(crcTable, blockSize100k, was, h, ch, len, combinedCRC);
      OpenWritten(crcTable, blockSize100k, was, h, blockNo > 1, w.Written());
      CoreFrom();
      FilledFrom(NblockMax() + 9);
    }

    lemma PendingThere()
      requires Core() && state_in_ch < 256
      ensures !EmptyRL()
    {
      hide LogOk, LogCrc;
    }

    lemma Widen(n: int, m: int)
      requires Filled(n) && n <= m
      ensures Filled(m)
    {
      hide Core, FillingOk, WrittenFor;
    }

    /** handle_compress. It ends, having consumed and put out what it could. */
    method HandleCompress() returns (progress: bool)
      requires Valid() && mode != Idling && DueIsThere() && Unfinished()
      modifies this`f, this`state_in_ch, this`state_in_len, this`next_in, this`avail_in_expect, this`combinedCRC,
               this`state_out_pos, this`state, this`h, this`blockNo, this`avail_out, this`written, w
      ensures Valid() && DueIsThere() && Stopped()
      ensures Advances(old(Now()), Now()) && (progress <==> Progressed(old(Now()), Now()))
      ensures old(state == Input && next_in != []) ==> progress
      ensures !progress ==> Unfinished()
      ensures Shorts(h.log, blockSize100k) <= old(Shorts(h.log, blockSize100k)) + (if mode == Running then 0 else 1)
    {
      hide Valid, Stopped, EmptyRL, Advances, Progressed, DueIsThere, Shorts, Unfinished;
      ghost var start, sure := Now(), state == Input && next_in != [];
      ghost var shorts := Shorts(h.log, blockSize100k);
      NoAdvance(start);
      progress := false;
      while true
        invariant Valid() && mode != Idling && DueIsThere() && Unfinished()
        invariant Advances(start, Now()) && (progress <==> Progressed(start, Now()))
        invariant sure && !progress ==> state == Input && next_in != []
        invariant Shorts(h.log, blockSize100k) <= shorts + Due()
        decreases |next_in|, if state == Output && EmptyRL() then 0 else 1
      {
        ghost var a := Now();
        if state == Output {
          var out, stop := OutputPhase();
          AdvanceTwice(start, a, Now());
          progress := progress || out;
          if stop {
            break;
          }
        }
        ghost var b := Now();
        var took, stop := InputPhase();
        AdvanceTwice(start, b, Now());
        progress := progress || took;
        if stop {
          break;
        }
      }
    }

    /** The stream is complete: all input is in the blocks sent, and all bytes of header, blocks and trailer are out. */
    ghost predicate Complete()
      reads this
    {
      && h.closed && |crcTable| == 256 && LogOk(crcTable, h.log, blockSize100k)
      && h.consumed == LogData(h.log) && Bytes(written)
      && exists pad: nat :: pad < 8 && BytesBits(written) == ClosedBits(crcTable, h.log, blockSize100k) + Zeros(pad)
    }

    /** Everything read is in the blocks sent, and every whole byte of them is out. */
    ghost predicate FlushedOut()
      reads this, w
    {
      && w.Valid() && 1 <= blockSize100k <= 9 && |crcTable| == 256 && LogOk(crcTable, h.log, blockSize100k)
      && h.consumed == LogData(h.log) && written == w.taken + w.zbits && next_in == []
    }

    lemma FlushComplete()
      requires Valid() && mode == Flushing && state == Input && h.rs == [] && EmptyRL() && next_in == []
      ensures FlushedOut()
    {
      hide LogOk, LogCrc, LogData, UpdateAll;
      NoRuns();
      assert Repeat(state_in_ch, 0) == [];
      assert LogData(h.log) + ([] + []) == LogData(h.log);
    }

    lemma FinishComplete()
      requires Valid() && h.closed && state_out_pos == |w.zbits|
      ensures Complete()
    {
      hide LogOk, LogCrc, LogData, UpdateAll, ClosedBits;
      NoRuns();
      assert Repeat(state_in_ch, 0) == [];
      assert LogData(h.log) + ([] + []) == LogData(h.log);
      assert w.zbits[..|w.zbits|] == w.zbits && w.bsBuff[..0] == [];
      assert BytesBits(written) + [] == BytesBits(written);
    }

    /** The call may not be made in this mode. */
    predicate Misused(action: Action, avail: nat)
      reads this
    {
      || mode == Idling
      || (mode == Flushing && (action != Flush || avail_in_expect != avail))
      || (mode == Finishing && (action != Finish || avail_in_expect != avail))
    }

    /** The caller has set next_in, avail_in and avail_out. */
    method Offer(input: seq<int>, room: nat)
      requires Valid() && Bytes(input)
      modifies this`next_in, this`avail_out
      ensures Valid() && next_in == input && avail_out == room
      ensures EmptyRL() == old(EmptyRL())
    {
      hide WrittenFor, FillingOk, Accounted;
      next_in, avail_out := input, room;
    }

    /** From running to flushing or finishing. */
    method Enter(m: Mode)
      requires Valid() && mode == Running && (m == Flushing || m == Finishing)
      modifies this`mode, this`avail_in_expect
      ensures Valid() && mode == m && avail_in_expect == |next_in| && Unfinished()
    {
      hide WrittenFor, FillingOk, Accounted;
      avail_in_expect := |next_in|;
      mode := m;
    }

    /** The case of BZ_M_FLUSHING. */
    method FlushCall(action: Action) returns (ret: Status)
      requires Valid() && mode == Flushing
      modifies this`next_in, this`avail_out, this`mode, this`avail_in_expect, this`f, this`state_in_ch,
               this`state_in_len, this`combinedCRC, this`state_out_pos, this`state, this`h, this`blockNo, this`written, w
      ensures Valid() && Advances(old(Now()), Now()) && mode != Idling
      ensures ret == SEQUENCE_ERROR || ret == FLUSH_OK || ret == RUN_OK
      ensures ret == SEQUENCE_ERROR <==> action != Flush || old(avail_in_expect != |next_in|)
      ensures ret == SEQUENCE_ERROR ==> Now() == old(Now()) && h == old(h)
      ensures ret == RUN_OK ==> FlushedOut() && mode == Running
      ensures ret != RUN_OK ==> mode == Flushing
      ensures ret == FLUSH_OK ==> avail_out == 0
      ensures Shorts(h.log, blockSize100k) <= old(Shorts(h.log, blockSize100k)) + 1
    {
      hide Core, WrittenFor, FillingUp, Filled, FillingOk, Advances, Progressed, Shorts;
      NoAdvance(Now());
      if action != Flush {
        return SEQUENCE_ERROR;
      }
      if avail_in_expect != |next_in| {
        return SEQUENCE_ERROR;
      }
      var progress := HandleCompress();
      if state == Input {
        FillingUpParts(NblockMax() - 1);
        FilledParts(NblockMax() - 1);
      }
      if avail_in_expect > 0 || !EmptyRL() || state_out_pos < |w.zbits| {
        return FLUSH_OK;
      }
      FlushComplete();
      Resume();
      return RUN_OK;
    }

    /** The flush is done. */
    method Resume()
      requires Valid() && mode == Flushing && state == Input && FlushedOut()
      modifies this`mode
      ensures Valid() && mode == Running && FlushedOut()
    {
      hide WrittenFor, FillingOk, Accounted, LogData, LogOk, BytesBits;
      mode := Running;
    }

    /** The case of BZ_M_FINISHING. */
    method FinishCall(action: Action) returns (ret: Status)
      requires Valid() && mode == Finishing && Unfinished()
      modifies this`next_in, this`avail_out, this`mode, this`avail_in_expect, this`f, this`state_in_ch,
               this`state_in_len, this`combinedCRC, this`state_out_pos, this`state, this`h, this`blockNo, this`written, w
      ensures Valid() && Advances(old(Now()), Now())
      ensures ret == SEQUENCE_ERROR || ret == FINISH_OK || ret == STREAM_END
      ensures action != Finish || old(avail_in_expect != |next_in|) ==> Now() == old(Now()) && h == old(h)
      ensures ret == SEQUENCE_ERROR <==>
        action != Finish || old(avail_in_expect != |next_in|) || !Progressed(old(Now()), Now())
      ensures action == Finish && !old(avail_in_expect != |next_in|) ==>
        (old(state == Input && next_in != []) ==> ret != SEQUENCE_ERROR) && (avail_out == 0 || ret == STREAM_END)
      ensures Unfinished()
      ensures Shorts(h.log, blockSize100k) <= old(Shorts(h.log, blockSize100k)) + 1
      ensures ret == STREAM_END ==> Complete() && mode == Idling && next_in == []
      ensures ret != STREAM_END ==> mode == Finishing
      ensures ret == FINISH_OK ==> avail_out == 0
    {
      hide Core, WrittenFor, FillingUp, Filled, FillingOk, Advances, Progressed, Shorts;
      NoAdvance(Now());
      if action != Finish {
        return SEQUENCE_ERROR;
      }
      if avail_in_expect != |next_in| {
        return SEQUENCE_ERROR;
      }
      var progress := HandleCompress();
      if !progress {
        Halted();
        return SEQUENCE_ERROR;
      }
      if avail_in_expect > 0 || !EmptyRL() || state_out_pos < |w.zbits| {
        return FINISH_OK;
      }
      FinishComplete();
      Retire();
      return STREAM_END;
    }

    lemma Halted()
      requires mode == Finishing && Stopped() && Unfinished()
      ensures avail_out == 0
    {
    }

    /** The stream is finished. */
    method Retire()
      requires Valid() && mode == Finishing && Complete()
      modifies this`mode
      ensures Valid() && mode == Idling && Complete()
    {
      hide WrittenFor, FillingOk, Accounted, ClosedBits, LogData, LogOk, BytesBits, BlocksThen;
      mode := Idling;
    }

    /**
     * BZ2_bzCompress with input before next_in and room after next_out: one call of any sequence of calls.
     */
    method Compress(action: Action, input: seq<int>, room: nat) returns (ret: Status)
      requires Valid() && Unfinished() && Bytes(input)
      modifies this`next_in, this`avail_out, this`mode, this`avail_in_expect, this`f, this`state_in_ch,
               this`state_in_len, this`combinedCRC, this`state_out_pos, this`state, this`h, this`blockNo, this`written, w
      ensures Valid() && Unfinished()
      ensures Advances(View(input, old(h.consumed), old(h.log), old(written), room), Now())
      ensures old(Misused(action, |input|)) ==> mode == old(mode) && h == old(h) && written == old(written)
      ensures var idle := !Progressed(View(input, old(h.consumed), old(h.log), old(written), room), Now());
        && (ret == SEQUENCE_ERROR <==> old(Misused(action, |input|)) || (action == Finish && idle))
        && (ret == PARAM_ERROR <==> !old(Misused(action, |input|)) && action == Action.Run && idle)
      ensures action == Finish && !old(Misused(action, |input|)) ==>
        (old(state) == Input && input != [] ==> ret != SEQUENCE_ERROR) && (avail_out == 0 || ret == STREAM_END)
      ensures ret == STREAM_END <==> old(mode) != Idling && mode == Idling
      ensures ret == STREAM_END ==> Complete() && next_in == []
      ensures ret == RUN_OK && action == Flush ==> FlushedOut() && mode == Running
      ensures ret == RUN_OK && action != Flush ==> action == Action.Run && mode == Running && (next_in == [] || avail_out == 0)
      ensures ret == FLUSH_OK || ret == FINISH_OK ==> avail_out == 0
      ensures ret == FLUSH_OK ==> action == Flush && mode == Flushing
      ensures ret == FINISH_OK ==> action == Finish && mode == Finishing
      ensures ret == PARAM_ERROR ==> action == Action.Run && h.consumed == old(h.consumed) && written == old(written)
      ensures Shorts(h.log, blockSize100k) <= old(Shorts(h.log, blockSize100k)) + (if action == Action.Run then 0 else 1)
      ensures |written| < Ample(|h.consumed|, Shorts(h.log, blockSize100k))
    {
      hide Valid, Advances, Progressed, Complete, FlushedOut, Shorts, Ample;
      Offer(input, room);
      ghost var start := Now();
      NoAdvance(start);
      if mode == Idling {
        OutputSmall();
        return SEQUENCE_ERROR;
      }
      if mode == Running {
        if action == Action.Run {
          var progress := RunCall();
          Unmoved(start, Now());
          OutputSmall();
          return if progress then RUN_OK else PARAM_ERROR;
        }
        Enter(if action == Flush then Flushing else Finishing);
      }
      if mode == Flushing {
        ret := FlushCall(action);
      } else {
        ret := FinishCall(action);
      }
      OutputSmall();
    }

    lemma OutputSmall()
      requires Valid()
      ensures |written| < Ample(|h.consumed|, Shorts(h.log, blockSize100k))
    {
      hide LogOk, LogCrc, LogData, OpenBits, ClosedBits, PendingOk, FillingOk, DataOf, Shorts;
      w.WrittenLength();
      assert |LogData(h.log)| <= |h.consumed|;
      StreamLength(crcTable, h.log, blockSize100k, w.Written());
    }

    method RunCall() returns (progress: bool)
      requires Valid() && mode == Running
      modifies this`next_in, this`avail_out, this`avail_in_expect, this`f, this`state_in_ch,
               this`state_in_len, this`combinedCRC, this`state_out_pos, this`state, this`h, this`blockNo, this`written, w
      ensures Valid() && Advances(old(Now()), Now()) && (progress <==> Progressed(old(Now()), Now()))
      ensures next_in == [] || avail_out == 0
      ensures Shorts(h.log, blockSize100k) <= old(Shorts(h.log, blockSize100k))
    {
      hide Core, WrittenFor, FillingUp, Filled, FillingOk, Advances, Progressed, Shorts;
      progress := HandleCompress();
    }
  }

  lemma Unmoved(a: View, b: View)
    requires Advances(a, b)
    ensures !Progressed(a, b) ==> b.consumed == a.consumed && b.written == a.written
  {
    if !Progressed(a, b) {
      assert a.input[..0] == [];
      assert a.consumed + [] == a.consumed;
    }
  }

  lemma FlushedAccount(table: seq<bv32>, k: nat, h: History, h': History, ch: int, len: nat, combined: bv32)
    requires Accounted(table, k, h, ch, len, combined) && h' == h.(rs := h'.rs)
    requires DataOf(h'.rs) == DataOf(h.rs) + Repeat(ch, len)
    ensures Accounted(table, k, h', 256, 0, combined)
  {
    hide LogOk, LogCrc, LogData, DataOf, Runs;
    assert DataOf(h'.rs) + Repeat(256, 0) == DataOf(h'.rs);
  }

  lemma FirstByte(s: seq<int>)
    requires Bytes(s) && s != []
    ensures 0 <= s[0] < 256 && Bytes(s[1..])
  {
  }

  lemma EncodedBlock(c: Coded, b: seq<int>, p: seq<int>, crc: nat, k: nat)
    requires Encodes(c, b, p, crc, k)
    ensures CodedOk(c, k)
  {
  }

  /** One more byte has gone into the front end. */
  lemma OneMoreConsumed(table: seq<bv32>, k: nat, h: History, h': History, ch: int, len: nat, ch': int, len': nat,
                        c: int, combined: bv32)
    requires Accounted(table, k, h, ch, len, combined) && h' == h.(rs := h'.rs, consumed := h.consumed + [c])
    requires PendingOk(h'.rs, ch', len')
    requires DataOf(h'.rs) + Repeat(ch', len') == DataOf(h.rs) + Repeat(ch, len) + [c]
    ensures Accounted(table, k, h', ch', len', combined)
  {
    hide LogOk, LogCrc, LogData, DataOf, Repeat, PendingOk;
    assert LogData(h.log) + (DataOf(h.rs) + Repeat(ch, len)) + [c]
        == LogData(h.log) + (DataOf(h.rs) + Repeat(ch, len) + [c]);
  }

  lemma FillingParts(table: seq<bv32>, rs: seq<RunLength.Run>, f: Filling)
    requires FillingOk(table, rs, f)
    ensures |f.inUse| == 256 && InUse(f.block, f.inUse) && |table| == 256 && f.block == BlockOf(rs)
  {
  }

  lemma NothingToSeal(table: seq<bv32>, rs: seq<RunLength.Run>, f: Filling)
    requires FillingOk(table, rs, f) && f.block == []
    ensures rs == []
  {
    SameEmptiness(rs);
  }

  lemma AccountedLog(table: seq<bv32>, k: nat, h: History, ch: int, len: nat, combined: bv32)
    requires Accounted(table, k, h, ch, len, combined)
    ensures LogOk(table, h.log, k) && combined == LogCrc(table, h.log, k) && PendingOk(h.rs, ch, len)
  {
    hide LogOk, LogCrc, PendingOk;
  }

  lemma SameAccount(table: seq<bv32>, k: nat, h: History, h': History, ch: int, len: nat, combined: bv32)
    requires Accounted(table, k, h, ch, len, combined) && h' == h.(closed := h'.closed)
    ensures Accounted(table, k, h', ch, len, combined)
  {
  }

  /** A block has been sent: it joins the log, and the pending run opens the next one. */
  lemma Sealed(table: seq<bv32>, k: nat, h: History, h': History, f: Filling, c: Coded, p: seq<int>,
               ch: int, len: nat, before: bv32, after: bv32, bits: seq<bool>, bits': seq<bool>)
    requires Accounted(table, k, h, ch, len, before) && !h.closed && WrittenFor(table, k, h, true, bits)
    requires FillingOk(table, h.rs, f) && 0 < |f.block| <= 100000 * k - 10
    requires Encodes(c, f.block, p, ToNat(!f.crc), k) && after == Combine(before, !f.crc)
    requires h' == History(h.log + [Sent(h.rs, c, p)], [], h.consumed, false)
    requires bits' == bits + BlockThen(c, k, [])
    ensures Accounted(table, k, h', ch, len, after) && WrittenFor(table, k, h', true, bits')
  {
    hide *;
    var s := Sent(h.rs, c, p);
    AccountedLog(table, k, h, ch, len, before);
    AccountedSizes(table, k, h);
    SealedSent(table, k, h.rs, f, c, p);
    OpenSnoc(table, h.log, s, k);
    SealedWritten(table, k, h, h', bits, bits');
    SealedAccount(table, k, h, h', ch, len, before, after, s);
  }

  lemma SealedSent(table: seq<bv32>, k: nat, rs: seq<RunLength.Run>, f: Filling, c: Coded, p: seq<int>)
    requires 1 <= k <= 9 && FillingOk(table, rs, f) && 0 < |f.block| <= 100000 * k - 10
    requires Encodes(c, f.block, p, ToNat(!f.crc), k)
    ensures |table| == 256 && Bytes(DataOf(rs)) && Checksum(table, DataOf(rs)) == !f.crc
    ensures SentOk(table, Sent(rs, c, p), k)
  {
    hide Encodes, UpdateAll, Update, ToNat;
  }

  lemma SealedWritten(table: seq<bv32>, k: nat, h: History, h': History, bits: seq<bool>, bits': seq<bool>)
    requires LogOk(table, h.log, k) && LogOk(table, h'.log, k) && !h.closed && !h'.closed
    requires WrittenFor(table, k, h, true, bits)
    requires |h'.log| > 0 && CodedOk(h'.log[|h'.log| - 1].c, k)
    requires OpenBits(table, h'.log, k) == OpenBits(table, h.log, k) + BlockThen(h'.log[|h'.log| - 1].c, k, [])
    requires bits' == bits + BlockThen(h'.log[|h'.log| - 1].c, k, [])
    ensures WrittenFor(table, k, h', true, bits')
  {
    hide LogOk, OpenBits, BlockThen, CodedOk;
  }

  lemma SealedAccount(table: seq<bv32>, k: nat, h: History, h': History, ch: int, len: nat, before: bv32, after: bv32,
                      s: Sent)
    requires Accounted(table, k, h, ch, len, before) && LogOk(table, h'.log, k) && Bytes(DataOf(h.rs)) && |table| == 256
    requires h' == History(h.log + [s], [], h.consumed, false) && s.rs == h.rs
    requires LogData(h'.log) == LogData(h.log) + DataOf(h.rs)
    requires LogCrc(table, h'.log, k) == Combine(LogCrc(table, h.log, k), Checksum(table, DataOf(h.rs)))
    requires after == Combine(before, Checksum(table, DataOf(h.rs)))
    ensures Accounted(table, k, h', ch, len, after)
  {
    hide LogOk, LogCrc, LogData, DataOf, Repeat, Combine, Checksum, Runs;
    NoRuns();
    assert DataOf([]) + Repeat(ch, len) == Repeat(ch, len);
    assert LogData(h.log) + (DataOf(h.rs) + Repeat(ch, len)) == LogData(h.log) + DataOf(h.rs) + Repeat(ch, len);
  }

  lemma NoRuns()
    ensures DataOf([]) == []
  {
  }

  lemma AccountedSizes(table: seq<bv32>, k: nat, h: History)
    requires LogOk(table, h.log, k)
    ensures |table| == 256 && 1 <= k <= 9
  {
  }

  lemma EndBytes()
    ensures |ENDMAGIC| == 6 && forall i | 0 <= i < 6 :: 0 <= ENDMAGIC[i] < 256
  {
  }

  lemma Closed(table: seq<bv32>, k: nat, h: History, h': History, bits: seq<bool>, full: seq<bool>, bits': seq<bool>,
               combined: bv32)
    requires LogOk(table, h.log, k) && combined == LogCrc(table, h.log, k)
    requires WrittenFor(table, k, h, true, bits) && !h.closed && h' == h.(closed := true)
    requires |ENDMAGIC| == 6 && forall i | 0 <= i < 6 :: 0 <= ENDMAGIC[i] < 256
    requires full + [] == bits + BytesThen(ENDMAGIC + WordBytes(ToNat(combined)), [])
    requires exists pad: nat :: pad < 8 && bits' == full + Zeros(pad)
    ensures WrittenFor(table, k, h', true, bits')
  {
    hide LogOk, LogCrc, OpenBits, ClosedBits, BytesThen, WordBytes, ENDMAGIC;
    Closing(table, h.log, k);
    var pad: nat :| pad < 8 && bits' == full + Zeros(pad);
    assert full + [] == full;
    assert TrailerBits(ToNat(combined), []) == BytesThen(ENDMAGIC + WordBytes(ToNat(combined)), []);
    assert bits' == ClosedBits(table, h.log, k) + Zeros(pad);
  }

  lemma HeaderOnly(table: seq<bv32>, k: nat, h: History, bits: seq<bool>)
    requires LogOk(table, h.log, k) && h.log == [] && !h.closed && bits + [] == [] + BytesThen(HeaderBytes(k), [])
    ensures WrittenFor(table, k, h, true, bits)
  {
    hide BytesThen;
    assert bits + [] == bits;
  }

  lemma OpenWritten(table: seq<bv32>, k: nat, h: History, h': History, begun: bool, bits: seq<bool>)
    requires LogOk(table, h.log, k) && WrittenFor(table, k, h, begun, bits) && h'.log == h.log && h'.closed == h.closed
    ensures WrittenFor(table, k, h', begun, bits)
  {
  }
}
