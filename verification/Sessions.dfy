/** Whole sessions: any calls of BZ2_bzCompress on one stream, any calls of BZ2_bzDecompress on another, and both. */
module Sessions {
  import opened Basics
  import opened BufferToBuffer
  import C = Compressor
  import opened BlockParser
  import opened Crc
  import D = Decompressor
  import DecoderState
  import OutputRuns
  import OutputSide
  import opened RoundTrip
  import opened StreamFormat
  import opened StreamSize
  import opened StreamStart
  import opened Words

  // ---------- compressing ----------

  /** A call of BZ2_bzCompress: what to do, the input offered and the room given. */
  datatype Call = Call(action: C.Action, input: seq<int>, room: nat)

  /** How many of the calls ask for a flush or the end. */
  function Closings(calls: seq<Call>): nat {
    if calls == [] then 0
    else Closings(calls[..|calls| - 1]) + (if calls[|calls| - 1].action == C.Action.Run then 0 else 1)
  }

  lemma ClosingsNext(calls: seq<Call>, i: nat)
    requires i < |calls|
    ensures Closings(calls[..i + 1]) == Closings(calls[..i]) + (if calls[i].action == C.Action.Run then 0 else 1)
  {
    assert calls[..i + 1][..i] == calls[..i];
  }

  lemma AmpleMore(n: nat, a: nat, b: nat)
    requires a <= b
    ensures 0 < Ample(n, a) <= Ample(n, b)
  {
  }

  /** The call asks for the end, with ample room for n bytes in so many short blocks. */
  predicate EndsWithRoom(call: Call, n: nat, shorts: nat) {
    call.action == C.Finish && call.room >= Ample(n, shorts)
  }

  twostate lemma StillComplete(strm: C.Compressor)
    requires old(strm.Complete()) && strm.h == old(strm.h) && strm.written == old(strm.written)
    ensures strm.Complete()
  {
  }

  /**
   * Whatever the calls, their inputs and their room: once one of them has ended the stream, what was written means what
   * was consumed, and it is never longer than ample room for that. A last call that asks for the end with ample room
   * gets there, unless it is refused.
   */
  method CompressSession(table: seq<bv32>, blockSize100k: nat, workFactor: int, calls: seq<Call>)
    returns (done: bool, ret: C.Status, consumed: seq<int>, written: seq<int>)
    requires |table| == 256 && 1 <= blockSize100k <= 9 && 0 <= workFactor <= 250
    requires forall i | 0 <= i < |calls| :: Bytes(calls[i].input)
    ensures done ==> Bytes(written) && Meaning(table, written) == Decoded(consumed)
    ensures done ==> WrittenStart(written, blockSize100k, consumed != [])
    ensures done && consumed == [] ==> written == EmptyStream(blockSize100k)
    ensures |written| < Ample(|consumed|, Closings(calls))
    ensures calls != [] && EndsWithRoom(calls[|calls| - 1], |consumed|, Closings(calls)) && ret != C.SEQUENCE_ERROR ==> done
  {
    hide Meaning, C.Compressor.Valid, C.Compressor.FlushedOut, C.Compressor.Complete, C.Progressed, Ample, Shorts, Bytes,
      Closings, C.Compressor.Unfinished, WrittenStart, EmptyStream;
    var strm := new C.Compressor(blockSize100k, workFactor, table);
    done, ret, consumed := false, C.RUN_OK, [];
    NoShorts(blockSize100k);
    AmpleMore(0, 0, 0);
    for i := 0 to |calls|
      invariant strm.Valid() && strm.Unfinished() && fresh(strm) && fresh(strm.w)
      invariant strm.crcTable == table && strm.blockSize100k == blockSize100k
      invariant consumed == strm.h.consumed && (done <==> strm.mode == C.Idling)
      invariant done ==> strm.Complete()
      invariant Shorts(strm.h.log, blockSize100k) <= Closings(calls[..i])
      invariant |strm.written| < Ample(|consumed|, Shorts(strm.h.log, blockSize100k))
      invariant i > 0 && ret != C.SEQUENCE_ERROR && calls[i - 1].action == C.Finish ==>
        done || |strm.written| >= calls[i - 1].room
    {
      ClosingsNext(calls, i);
      var call := calls[i];
      label Before:
      ret := strm.Compress(call.action, call.input, call.room);
      if done {
        StillComplete@Before(strm);
      } else {
        consumed := consumed + call.input[..|call.input| - |strm.next_in|];
      }
      done := done || ret == C.STREAM_END;
    }
    assert calls[..|calls|] == calls;
    written := strm.written;
    AmpleMore(|consumed|, Shorts(strm.h.log, blockSize100k), Closings(calls));
    if done {
      WholeStream(strm);
    }
  }

  // ---------- decompressing ----------

  /** A call of BZ2_bzDecompress: input that follows the input before, and room. */
  datatype Piece = Piece(input: seq<int>, room: nat)

  ghost function Whole(pieces: seq<Piece>): seq<int> {
    if pieces == [] then [] else pieces[0].input + Whole(pieces[1..])
  }

  ghost predicate PiecesOk(pieces: seq<Piece>) {
    forall i | 0 <= i < |pieces| :: Bytes(pieces[i].input)
  }

  lemma {:induction false} WholeBytes(pieces: seq<Piece>)
    requires PiecesOk(pieces)
    ensures Bytes(Whole(pieces))
  {
    if pieces != [] {
      WholeBytes(pieces[1..]);
    }
  }

  lemma WholeNext(pieces: seq<Piece>, i: nat, rest: seq<int>)
    requires PiecesOk(pieces) && i < |pieces| && Bytes(rest)
    ensures Bytes(pieces[i].input) && Bytes(Whole(pieces[i + 1..]) + rest)
    ensures Whole(pieces[i..]) + rest == pieces[i].input + (Whole(pieces[i + 1..]) + rest)
  {
    assert pieces[i..][1..] == pieces[i + 1..];
    WholeBytes(pieces[i + 1..]);
  }

  lemma WholeEnds(pieces: seq<Piece>, rest: seq<int>)
    ensures Whole(pieces[0..]) + rest == Whole(pieces) + rest
    ensures Whole(pieces[|pieces|..]) + rest == rest
  {
    assert pieces[0..] == pieces;
  }

  /** What has come out is where the data of the stream begin. */
  ghost predicate Begins(out: seq<int>, all: Outcome) {
    all.Decoded? ==> out <= all.data
  }

  lemma BegunOut(strm: D.Decompressor, rest: seq<int>)
    requires strm.Valid() && Bytes(rest)
    ensures Begins(strm.o.written, strm.Total(rest))
  {
    hide D.Decompressor.Valid, D.Decompressor.Future, BytesBits;
  }

  lemma NotIdle(strm: D.Decompressor)
    requires strm.Valid() && strm.d.r.Valid() && strm.Waiting()
    ensures strm.d.p.at != Label.Idle
  {
    hide D.Decompressor.Valid;
  }

  lemma StartOfWhole(pieces: seq<Piece>, rest: seq<int>)
    requires PiecesOk(pieces) && Bytes(rest)
    ensures Bytes(Whole(pieces) + rest)
  {
    WholeBytes(pieces);
  }

  lemma FirstMeaning(strm: D.Decompressor, table: seq<bv32>, stream: seq<int>)
    requires strm.Valid() && Bytes(stream) && |table| == 256
    requires strm.Total(stream) == Decode(table, Fresh(), BytesBits(stream), 0)
    ensures strm.Total(stream) == Meaning(table, stream)
  {
  }

  /** The first i pieces have come in. */
  ghost predicate Given(pieces: seq<Piece>, i: nat, got: seq<int>) {
    i <= |pieces| && Whole(pieces) == got + Whole(pieces[i..])
  }

  lemma NoneGiven(pieces: seq<Piece>)
    ensures Given(pieces, 0, []) && !BadStart([])
  {
    assert pieces[0..] == pieces && [] + Whole(pieces) == Whole(pieces);
  }

  lemma GivenNext(pieces: seq<Piece>, i: nat, got: seq<int>)
    requires Given(pieces, i, got) && i < |pieces|
    ensures Given(pieces, i + 1, got + pieces[i].input)
  {
    assert pieces[i..][1..] == pieces[i + 1..];
    assert got + (pieces[i].input + Whole(pieces[i + 1..])) == got + pieces[i].input + Whole(pieces[i + 1..]);
  }

  /** What has come in decides whether all the pieces start badly, once there are four bytes or all pieces are there. */
  lemma GivenStart(pieces: seq<Piece>, i: nat, got: seq<int>)
    requires Given(pieces, i, got)
    ensures BadStart(got) ==> BadStart(Whole(pieces))
    ensures GoodStart(got) || (i == |pieces| && !BadStart(got)) ==> !BadStart(Whole(pieces))
  {
    hide StartByte;
    assert pieces[|pieces|..] == [];
    var later := Whole(pieces[i..]);
    if i == |pieces| {
      assert got + [] == got;
    }
    assert forall x | 0 <= x < |got| :: (got + later)[x] == got[x];
  }

  /** All the storage a call may change is new since the session began. */
  twostate predicate Handing(new strm: D.Decompressor)
    reads strm, strm.d, strm.d.cache
  {
    && fresh(strm) && fresh(strm.o) && fresh(strm.d) && fresh(strm.d.r) && fresh(strm.d.tt) && fresh(strm.d.unzftab)
    && fresh(strm.d.cache) && fresh(strm.d.cache.mtfa) && fresh(strm.d.cache.mtfbase)
  }

  /**
   * Whatever pieces a stream comes in, whatever the room, and whatever the mode: the end is reported with exactly its
   * data, trouble only if the whole of it comes to that, and until then the data come out from the front. When all of a
   * whole stream has been given and its end is still not reported, the last call has filled its room and there is more.
   */
  method DecompressSession(table: seq<bv32>, small: bool, pieces: seq<Piece>, ghost rest: seq<int>)
    returns (ret: int, out: seq<int>, filled: bool)
    requires |table| == 256 && PiecesOk(pieces) && Bytes(rest)
    ensures Bytes(Whole(pieces) + rest)
    ensures var all := Meaning(table, Whole(pieces) + rest);
      && (ret == DecoderState.STREAM_END ==> all == Decoded(out))
      && (ret == DecoderState.OK ==> Begins(out, all))
      && (ret == DecoderState.OK && rest == [] && pieces != [] && all.Decoded? ==> filled && out < all.data)
      && (ret != DecoderState.OK && ret != DecoderState.STREAM_END ==> D.Stops(ret, all))
    ensures ret == DATA_ERROR_MAGIC <==> BadStart(Whole(pieces))
  {
    hide Meaning, D.Decompressor.Valid, D.Decompressor.Total, D.Decompressor.Waiting, Bytes, Whole, PiecesOk, Decode,
      BytesBits, Fresh, D.Stops, BadStart, GoodStart, Given, D.Decompressor.Listening;
    StartOfWhole(pieces, rest);
    WholeEnds(pieces, rest);
    var strm := new D.Decompressor(table, small);
    ghost var all := Meaning(table, Whole(pieces) + rest);
    FirstMeaning(strm, table, Whole(pieces) + rest);
    NoneGiven(pieces);
    ret, filled := DecoderState.OK, false;
    var i := 0;
    while i < |pieces| && ret == DecoderState.OK
      invariant i <= |pieces| && fresh(strm) && strm.crcTable == table
      invariant Handing(strm)
      invariant ret == DecoderState.OK ==>
        strm.Valid() && strm.d.p.at != Label.Idle && strm.d.r.Valid() && strm.Listening()
      invariant Given(pieces, i, strm.received) && (ret == DATA_ERROR_MAGIC <==> BadStart(strm.received))
      invariant ret != DATA_ERROR_MAGIC && ret != DecoderState.OK ==> GoodStart(strm.received)
      invariant ret == DecoderState.OK ==> Bytes(Whole(pieces[i..]) + rest) && strm.Total(Whole(pieces[i..]) + rest) == all
      invariant ret == DecoderState.OK && i > 0 ==>
        strm.Waiting() && (filled <==> strm.o.avail_out == 0)
      invariant ret == DecoderState.STREAM_END ==> all == Decoded(strm.o.written)
      invariant ret != DecoderState.OK && ret != DecoderState.STREAM_END ==> D.Stops(ret, all)
    {
      WholeNext(pieces, i, rest);
      GivenNext(pieces, i, strm.received);
      ret := strm.Decompress(pieces[i].input, pieces[i].room, Whole(pieces[i + 1..]) + rest);
      filled := strm.o.avail_out == 0;
      if ret == DecoderState.OK {
        NotIdle(strm);
      }
      i := i + 1;
    }
    out := strm.o.written;
    GivenStart(pieces, i, strm.received);
    if ret == DecoderState.OK {
      BegunOut(strm, rest);
      if pieces != [] && rest == [] {
        StuckCall(strm, |strm.o.written| + strm.o.avail_out);
      }
    }
  }

  // ---------- there and back ----------

  /** Pieces of a stream, each of at most n bytes with room r for every (n, r) of cuts. */
  function Cut(stream: seq<int>, cuts: seq<(nat, nat)>): seq<Piece>
    decreases |cuts|
  {
    if cuts == [] then [] else
      var n := Smaller(cuts[0].0, |stream|);
      [Piece(stream[..n], cuts[0].1)] + Cut(stream[n..], cuts[1..])
  }

  /** What the pieces leave of it. */
  ghost function Uncut(stream: seq<int>, cuts: seq<(nat, nat)>): seq<int>
    decreases |cuts|
  {
    if cuts == [] then stream else Uncut(stream[Smaller(cuts[0].0, |stream|)..], cuts[1..])
  }

  lemma {:induction false} CutWhole(stream: seq<int>, cuts: seq<(nat, nat)>)
    requires Bytes(stream)
    ensures PiecesOk(Cut(stream, cuts)) && Bytes(Uncut(stream, cuts)) && |Cut(stream, cuts)| == |cuts|
    ensures Whole(Cut(stream, cuts)) + Uncut(stream, cuts) == stream
    decreases |cuts|
  {
    if cuts != [] {
      var n := Smaller(cuts[0].0, |stream|);
      var a, b := stream[..n], stream[n..];
      CutWhole(b, cuts[1..]);
      hide Whole, PiecesOk;
      OnePiece(Piece(a, cuts[0].1), Cut(b, cuts[1..]), Uncut(b, cuts[1..]));
      assert stream == a + b;
    }
  }

  lemma OnePiece(piece: Piece, pieces: seq<Piece>, rest: seq<int>)
    requires Bytes(piece.input) && PiecesOk(pieces)
    ensures PiecesOk([piece] + pieces)
    ensures Whole([piece] + pieces) + rest == piece.input + (Whole(pieces) + rest)
  {
    assert ([piece] + pieces)[1..] == pieces;
  }

  /**
   * Any calls to compress, then the stream in any pieces with any room, in either mode: no trouble is ever reported, what
   * comes out begins what went in, and at the end it is what went in. All of the stream given, the end is missed only for
   * want of room.
   */
  method ThereAndBack(table: seq<bv32>, blockSize100k: nat, workFactor: int, calls: seq<Call>, small: bool,
                      cuts: seq<(nat, nat)>)
    returns (done: bool, consumed: seq<int>, ret: int, back: seq<int>, filled: bool, ghost written: seq<int>)
    requires |table| == 256 && 1 <= blockSize100k <= 9 && 0 <= workFactor <= 250
    requires forall i | 0 <= i < |calls| :: Bytes(calls[i].input)
    ensures done ==> (ret == DecoderState.OK || ret == DecoderState.STREAM_END) && back <= consumed
    ensures done && ret == DecoderState.STREAM_END ==> back == consumed
    ensures done && ret == DecoderState.OK && cuts != [] && Uncut(written, cuts) == [] ==> filled && back < consumed
  {
    hide Meaning, Cut, Uncut, Ample, Closings, Whole, PiecesOk, Bytes, EndsWithRoom;
    var status, stream;
    done, status, consumed, stream := CompressSession(table, blockSize100k, workFactor, calls);
    ret, back, filled, written := DecoderState.OK, [], false, stream;
    if done {
      CutWhole(stream, cuts);
      ret, back, filled := DecompressSession(table, small, Cut(stream, cuts), Uncut(stream, cuts));
    }
  }
}
