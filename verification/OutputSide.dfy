/** unRLE_obuf_to_output_FAST and _SMALL for blocks that are not randomised. */
module OutputSide {
  import opened Basics
  import opened BurrowsWheeler
  import opened Counting
  import opened Crc
  import opened InverseVectors
  import opened MtfCoding
  import opened OutputRuns
  import opened Placement

  // ---------- reading the next byte of the block ----------

  /** BZ_GET_FAST on the local copy of tPos. The range check never strikes. */
  method GetFast(tt: array<int>, tPos: nat, blockSize100k: nat, ghost c: Chain, ghost m: nat)
    returns (fail: bool, cccc: int, tPos': nat)
    requires ChainOk(c) && FastVector(c.l, c.t, tt[..]) && |c.l| <= 100000 * blockSize100k
    requires tPos == Walk(c.t, c.o, m + 1)
    ensures !fail && cccc == ByteAt(c, m) && tPos' == Walk(c.t, c.o, m + 2)
  {
    hide Vector;
    fail, cccc, tPos' := false, 0, tPos;
    if tPos >= 100000 * blockSize100k {
      fail := true;
      return;
    }
    assert tt[..][tPos] == c.l[tPos] + 256 * c.t[tPos];
    tPos' := tt[tPos];
    cccc := tPos' % 256;
    tPos' := tPos' / 256;
  }

  ghost predicate SmallVectors(c: Chain, cells: CellArray, cftab: seq<int>)
    reads cells.ll16, cells.ll4
  {
    && ChainOk(c) && Vector(c.l, c.t) && cells.Valid() && cells.size == |c.l|
    && Reversed(Places(c.l), c.t, cells.Cells(), c.o)
    && BucketStarts(c.l, cftab)
  }

  /** BZ_GET_SMALL. */
  method GetSmall(cells: CellArray, cftab: array<int>, tPos: nat, blockSize100k: nat, ghost c: Chain, ghost m: nat)
    returns (fail: bool, cccc: int, tPos': nat)
    requires SmallVectors(c, cells, cftab[..]) && |c.l| <= 100000 * blockSize100k
    requires tPos == Walk(c.t, c.o, m)
    ensures !fail && cccc == ByteAt(c, m) && tPos' == Walk(c.t, c.o, m + 1)
  {
    hide Undoes, Below, Cell, BucketStarts;
    fail, cccc, tPos' := false, 0, tPos;
    if tPos >= 100000 * blockSize100k {
      fail := true;
      return;
    }
    cccc := IndexIntoF(tPos, cftab, c.l);
    RowCharacter(c.l, c.t, tPos, cccc);
    assert BackAlong(c.t, cells.Cells(), c.o, m);
    tPos' := cells.Get(tPos);
  }

  // ---------- starting a run ----------

  /** After a run has been started: enough of the next one has been fetched ahead. */
  ghost predicate Ahead(c: Chain, used: nat, k0: int) {
    && ChainOk(c) && 1 <= used
    && (used < Full(c) ==> k0 == ByteAt(c, used - 1))
  }

  /**
   * Start the next run, fast form; one says that its single byte goes out next, whatever len says. A failing fetch would
   * end the call at once, but none fails.
   */
  method StartRunFast(tt: array<int>, tPos: nat, k0: int, used: nat, nblockPP: nat, blockSize100k: nat, ghost c: Chain)
    returns (one: bool, len: nat, tPos': nat, k0': int, used': nat)
    requires FastVector(c.l, c.t, tt[..]) && |c.l| <= 100000 * blockSize100k && nblockPP == Full(c)
    requires Ahead(c, used, k0) && used < nblockPP && tPos == Walk(c.t, c.o, used + 1)
    ensures used' == NextRun(c, used).1 && (if one then 1 else len) == NextRun(c, used).0
    ensures Ahead(c, used', k0') && tPos' == Walk(c.t, c.o, used' + 1)
  {
    hide FastVector, Walk, ByteAt;
    var fail, k1;
    one, len, k0', used', tPos' := false, 0, k0, used, tPos;
    fail, k1, tPos' := GetFast(tt, tPos', blockSize100k, c, used');
    used' := used' + 1;
    if k1 != k0 {
      k0', one := k1, true;
      return;
    }
    if used' == nblockPP {
      one := true;
      return;
    }
    len := 2;
    fail, k1, tPos' := GetFast(tt, tPos', blockSize100k, c, used');
    used' := used' + 1;
    if used' == nblockPP {
      return;
    }
    if k1 != k0 {
      k0' := k1;
      return;
    }
    len := 3;
    fail, k1, tPos' := GetFast(tt, tPos', blockSize100k, c, used');
    used' := used' + 1;
    if used' == nblockPP {
      return;
    }
    if k1 != k0 {
      k0' := k1;
      return;
    }
    fail, k1, tPos' := GetFast(tt, tPos', blockSize100k, c, used');
    used' := used' + 1;
    len := k1 + 4;
    fail, k0', tPos' := GetFast(tt, tPos', blockSize100k, c, used');
    used' := used' + 1;
  }

  /** Start the next run, small form. */
  method StartRunSmall(cells: CellArray, cftab: array<int>, tPos: nat, k0: int, used: nat, nblockPP: nat,
                       blockSize100k: nat, ghost c: Chain)
    returns (len: nat, tPos': nat, k0': int, used': nat)
    requires SmallVectors(c, cells, cftab[..]) && |c.l| <= 100000 * blockSize100k && nblockPP == Full(c)
    requires Ahead(c, used, k0) && used < nblockPP && tPos == Walk(c.t, c.o, used)
    ensures used' == NextRun(c, used).1 && len == NextRun(c, used).0
    ensures Ahead(c, used', k0') && tPos' == Walk(c.t, c.o, used')
  {
    assert ChainOk(c);
    hide SmallVectors, Walk, ByteAt;
    var fail, k1;
    len, k0', used', tPos' := 1, k0, used, tPos;
    fail, k1, tPos' := GetSmall(cells, cftab, tPos', blockSize100k, c, used');
    used' := used' + 1;
    if used' == nblockPP {
      return;
    }
    if k1 != k0 {
      k0' := k1;
      return;
    }
    len := 2;
    fail, k1, tPos' := GetSmall(cells, cftab, tPos', blockSize100k, c, used');
    used' := used' + 1;
    if used' == nblockPP {
      return;
    }
    if k1 != k0 {
      k0' := k1;
      return;
    }
    len := 3;
    fail, k1, tPos' := GetSmall(cells, cftab, tPos', blockSize100k, c, used');
    used' := used' + 1;
    if used' == nblockPP {
      return;
    }
    if k1 != k0 {
      k0' := k1;
      return;
    }
    fail, k1, tPos' := GetSmall(cells, cftab, tPos', blockSize100k, c, used');
    used' := used' + 1;
    len := k1 + 4;
    fail, k0', tPos' := GetSmall(cells, cftab, tPos', blockSize100k, c, used');
    used' := used' + 1;
  }

  // ---------- the calls ----------

  /** Local copies of what the output loop works on: room left, bytes put out, checksum. */
  datatype Sink = Sink(avail: nat, out: seq<int>, crc: bv32)

  function Put(table: seq<bv32>, s: Sink, ch: int): Sink
    requires |table| == 256 && 0 <= ch < 256 && s.avail > 0
  {
    Sink(s.avail - 1, s.out + [ch], Update(table, s.crc, ch))
  }

  /** From s0 the bytes of p that are not in p' have gone out. */
  ghost predicate Progress(table: seq<bv32>, s0: Sink, p: seq<int>, s: Sink, p': seq<int>) {
    && |table| == 256 && |s.out| >= |s0.out| && s.out[..|s0.out|] == s0.out
    && Bytes(s.out[|s0.out|..])
    && p == s.out[|s0.out|..] + p'
    && s.avail == s0.avail - |s.out[|s0.out|..]|
    && s.crc == UpdateAll(table, s0.crc, s.out[|s0.out|..])
  }

  lemma ProgressStart(table: seq<bv32>, s: Sink, p: seq<int>)
    requires |table| == 256
    ensures Progress(table, s, p, s, p)
  {
    assert s.out[|s.out|..] == [];
  }

  lemma ProgressStep(table: seq<bv32>, s0: Sink, p: seq<int>, s: Sink, ch: int, p': seq<int>)
    requires Progress(table, s0, p, s, [ch] + p') && 0 <= ch < 256 && s.avail > 0
    ensures Progress(table, s0, p, Put(table, s, ch), p')
  {
    hide Update;
    var e, s' := s.out[|s0.out|..], Put(table, s, ch);
    UpdateNext(table, s0.crc, e, ch);
    assert s'.out[|s0.out|..] == e + [ch];
    assert s'.out[..|s0.out|] == s0.out;
    assert e + ([ch] + p') == (e + [ch]) + p';
  }

  /** The part of the output loop that finishes a run, fast form; one tells of a jump to the last byte of the run. */
  method FinishRunFast(table: seq<bv32>, s: Sink, one: bool, len: nat, ch: int,
                       ghost c: Chain, ghost used: nat, ghost s0: Sink, ghost p: seq<int>)
    returns (stop: bool, len': nat, s': Sink)
    requires |table| == 256 && ChainOk(c) && 1 <= used && 0 <= ch < 256
    requires Progress(table, s0, p, s, Pending(c, ch, if one then 1 else len, used))
    ensures stop ==> len' > 0 && s'.avail == 0 && Progress(table, s0, p, s', Pending(c, ch, len', used))
    ensures !stop ==> Progress(table, s0, p, s', Rest(c, used))
  {
    hide *;
    s', len', stop := s, len, false;
    NothingOfRun(c, ch, used);
    if !one && len == 0 {
      return;
    }
    if !one {
      while true
        invariant len' > 0 && Progress(table, s0, p, s', Pending(c, ch, len', used))
        decreases len'
      {
        if s'.avail == 0 {
          stop := true;
          return;
        }
        if len' == 1 {
          break;
        }
        EmitOne(c, ch, len', used);
        ProgressStep(table, s0, p, s', ch, Pending(c, ch, len' - 1, used));
        s' := Put(table, s', ch);
        len' := len' - 1;
      }
    }
    if s'.avail == 0 {
      len', stop := 1, true;
      return;
    }
    EmitOne(c, ch, 1, used);
    ProgressStep(table, s0, p, s', ch, Pending(c, ch, 0, used));
    s' := Put(table, s', ch);
  }

  /** The same, small form; the room is looked at even when no run is under way. */
  method FinishRunSmall(table: seq<bv32>, s: Sink, len: nat, ch: int,
                        ghost c: Chain, ghost used: nat, ghost s0: Sink, ghost p: seq<int>)
    returns (stop: bool, len': nat, s': Sink)
    requires |table| == 256 && ChainOk(c) && 1 <= used && 0 <= ch < 256
    requires Progress(table, s0, p, s, Pending(c, ch, len, used))
    ensures Progress(table, s0, p, s', Pending(c, ch, len', used))
    ensures stop <==> s'.avail == 0
    ensures !stop ==> len' == 0
  {
    hide *;
    s', len', stop := s, len, false;
    while true
      invariant Progress(table, s0, p, s', Pending(c, ch, len', used))
      decreases len'
    {
      if s'.avail == 0 {
        stop := true;
        return;
      }
      if len' == 0 {
        break;
      }
      EmitOne(c, ch, len', used);
      ProgressStep(table, s0, p, s', ch, Pending(c, ch, len' - 1, used));
      s' := Put(table, s', ch);
      len' := len' - 1;
    }
  }

  /** The loop's copies of the DState fields. */
  datatype Reader = Reader(tPos: nat, k0: int, used: nat, ch: int, len: nat)

  /** The vector position is lag steps further in the fast form than in the small one. */
  ghost predicate Reading(c: Chain, r: Reader, lag: nat) {
    Ahead(c, r.used, r.k0) && 0 <= r.ch < 256 && r.tPos == Walk(c.t, c.o, r.used + lag)
  }

  ghost function Left(c: Chain, r: Reader): seq<int>
    requires ChainOk(c) && 1 <= r.used
  {
    Pending(c, r.ch, r.len, r.used)
  }

  /** What the output loop keeps. */
  ghost predicate Looping(c: Chain, table: seq<bv32>, s0: Sink, p: seq<int>, sound: bool, s: Sink, r: Reader,
                          one: bool, lag: nat) {
    && Reading(c, r, lag) && sound == Sound(c, r.used)
    && Progress(table, s0, p, s, Left(c, r.(len := if one then 1 else r.len)))
  }

  lemma LoopingStart(c: Chain, table: seq<bv32>, s: Sink, r: Reader, lag: nat)
    requires Reading(c, r, lag) && |table| == 256
    ensures ChainOk(c) && 1 <= r.used && Looping(c, table, s, Left(c, r), Sound(c, r.used), s, r, false, lag)
  {
    ProgressStart(table, s, Left(c, r));
  }

  lemma LoopingParts(c: Chain, table: seq<bv32>, s0: Sink, p: seq<int>, sound: bool, s: Sink, r: Reader,
                     one: bool, lag: nat)
    requires Looping(c, table, s0, p, sound, s, r, one, lag)
    ensures ChainOk(c) && 1 <= r.used && Ahead(c, r.used, r.k0) && 0 <= r.ch < 256 && |table| == 256
    ensures r.tPos == Walk(c.t, c.o, r.used + lag) && sound == Sound(c, r.used)
    ensures Progress(table, s0, p, s, Pending(c, r.ch, if one then 1 else r.len, r.used))
  {
    hide Walk, Pending, Sound;
  }

  /** When the run is finished, another has been started. */
  lemma LoopingNext(c: Chain, table: seq<bv32>, s0: Sink, p: seq<int>, sound: bool, s: Sink, r: Reader,
                    r': Reader, one: bool, lag: nat)
    requires Reading(c, r, lag) && sound == Sound(c, r.used) && r.used < Full(c)
    requires Progress(table, s0, p, s, Rest(c, r.used))
    requires Ahead(c, r'.used, r'.k0) && r'.tPos == Walk(c.t, c.o, r'.used + lag) && r'.ch == r.k0
    requires r'.used == NextRun(c, r.used).1 && (if one then 1 else r'.len) == NextRun(c, r.used).0
    ensures Looping(c, table, s0, p, sound, s, r', one, lag)
  {
    hide Walk, Pending, Rest, NextRun, ByteAt;
    AheadChain(c, r.used, r.k0);
    FetchedAhead(c, r.used, r.k0);
    StartedRun(c, r.used);
  }

  /** How a call ends that has not found the block bad. */
  ghost predicate Ended(c: Chain, table: seq<bv32>, s0: Sink, p: seq<int>, sound: bool, s: Sink, r: Reader, lag: nat) {
    && Looping(c, table, s0, p, sound, s, r, false, lag)
    && ChainOk(c) && 1 <= r.used
    && (Left(c, r) == [] || s.avail == 0)
  }

  lemma EndedStopped(c: Chain, table: seq<bv32>, s0: Sink, p: seq<int>, sound: bool, s: Sink, r: Reader,
                     was: Reader, lag: nat)
    requires Reading(c, was, lag) && sound == Sound(c, was.used) && r == was.(len := r.len)
    requires ChainOk(c) && 1 <= r.used && s.avail == 0 && r.len > 0
    requires Progress(table, s0, p, s, Pending(c, r.ch, r.len, r.used))
    ensures Ended(c, table, s0, p, sound, s, r, lag) && |Left(c, r)| > 0 && s0.avail < |p|
  {
    hide Walk, Pending, Rest, Sound, NextRun, ByteAt;
    PendingSome(c, r.ch, r.len, r.used);
    ProgressRoom(table, s0, p, s, Left(c, r));
  }

  lemma EndedFull(c: Chain, table: seq<bv32>, s0: Sink, p: seq<int>, sound: bool, s: Sink, r: Reader,
                  was: Reader, lag: nat)
    requires Reading(c, was, lag) && sound == Sound(c, was.used) && r == was.(len := 0) && r.used == Full(c)
    requires ChainOk(c) && 1 <= r.used && Progress(table, s0, p, s, Rest(c, r.used))
    ensures Ended(c, table, s0, p, sound, s, r, lag) && Left(c, r) == [] && sound
  {
    hide Walk, Pending, Sound, NextRun, ByteAt;
    NothingOfRun(c, r.ch, r.used);
    RestIsEmpty(c, r.used);
  }

  lemma FoundBad(c: Chain, table: seq<bv32>, s0: Sink, p: seq<int>, sound: bool, s: Sink, used: nat)
    requires ChainOk(c) && 1 <= used && sound == Sound(c, used) && used > Full(c)
    requires Progress(table, s0, p, s, Rest(c, used))
    ensures !sound && |p| == s0.avail - s.avail
  {
    RestIsEmpty(c, used);
    ProgressRoom(table, s0, p, s, Rest(c, used));
  }

  /** The fast loop, on its local copies. */
  method LoopFast(tt: array<int>, table: seq<bv32>, nblockPP: nat, blockSize100k: nat, s0: Sink, r0: Reader,
                  ghost c: Chain)
    returns (corrupt: bool, s: Sink, r: Reader)
    requires |table| == 256 && Reading(c, r0, 1) && FastVector(c.l, c.t, tt[..]) && nblockPP == Full(c)
    requires |c.l| <= 100000 * blockSize100k && ChainOk(c) && 1 <= r0.used
    ensures corrupt <==> !Sound(c, r0.used) && |Left(c, r0)| <= s0.avail
    ensures !corrupt ==> Ended(c, table, s0, Left(c, r0), Sound(c, r0.used), s, r, 1)
    ensures !corrupt ==> 1 <= r.used && (r.used == nblockPP && r.len == 0 <==> Left(c, r) == [])
  {
    hide *;
    ghost var p, sound := Left(c, r0), Sound(c, r0.used);
    LoopingStart(c, table, s0, r0, 1);
    s, r := s0, r0;
    var one := false;
    while true
      invariant Looping(c, table, s0, p, sound, s, r, one, 1)
      decreases nblockPP - r.used
    {
      LoopingParts(c, table, s0, p, sound, s, r, one, 1);
      ReadingFrom(c, r, 1);
      var stop, len;
      stop, len, s := FinishRunFast(table, s, one, r.len, r.ch, c, r.used, s0, p);
      ghost var was := r;
      if stop {
        r := r.(len := len);
        EndedStopped(c, table, s0, p, sound, s, r, was, 1);
        return false, s, r;
      }
      if r.used > nblockPP {
        FoundBad(c, table, s0, p, sound, s, r.used);
        return true, s, r;
      }
      if r.used == nblockPP {
        r := r.(len := 0);
        EndedFull(c, table, s0, p, sound, s, r, was, 1);
        return false, s, r;
      }
      var tPos, k0, used;
      one, len, tPos, k0, used := StartRunFast(tt, r.tPos, r.k0, r.used, nblockPP, blockSize100k, c);
      RunAdvances(c, r.used);
      r := Reader(tPos, k0, used, r.k0, len);
      LoopingNext(c, table, s0, p, sound, s, was, r, one, 1);
    }
  }

  lemma ReadingFrom(c: Chain, r: Reader, lag: nat)
    requires Ahead(c, r.used, r.k0) && 0 <= r.ch < 256 && r.tPos == Walk(c.t, c.o, r.used + lag)
    ensures Reading(c, r, lag)
  {
  }

  lemma RunAdvances(c: Chain, used: nat)
    requires ChainOk(c) && 1 <= used < Full(c)
    ensures NextRun(c, used).1 > used
  {
  }

  /** The small loop. */
  method LoopSmall(cells: CellArray, cftab: array<int>, table: seq<bv32>, nblockPP: nat, blockSize100k: nat,
                   s0: Sink, r0: Reader, ghost c: Chain)
    returns (corrupt: bool, s: Sink, r: Reader)
    requires |table| == 256 && Reading(c, r0, 0) && SmallVectors(c, cells, cftab[..]) && nblockPP == Full(c)
    requires |c.l| <= 100000 * blockSize100k && ChainOk(c) && 1 <= r0.used
    ensures corrupt <==> !Sound(c, r0.used) && |Left(c, r0)| < s0.avail
    ensures Ended(c, table, s0, Left(c, r0), Sound(c, r0.used), s, r, 0)
    ensures 1 <= r.used && (r.used == nblockPP && r.len == 0 <==> Left(c, r) == [] && Sound(c, r.used))
  {
    hide *;
    ghost var p, sound := Left(c, r0), Sound(c, r0.used);
    LoopingStart(c, table, s0, r0, 0);
    s, r := s0, r0;
    while true
      invariant Looping(c, table, s0, p, sound, s, r, false, 0)
      decreases nblockPP - r.used
    {
      LoopingParts(c, table, s0, p, sound, s, r, false, 0);
      ReadingFrom(c, r, 0);
      var stop, len;
      stop, len, s := FinishRunSmall(table, s, r.len, r.ch, c, r.used, s0, p);
      ghost var was := r;
      r := r.(len := len);
      SmallEnd(c, table, s0, p, sound, s, r, was);
      if stop {
        return false, s, r;
      }
      if r.used == nblockPP {
        return false, s, r;
      }
      if r.used > nblockPP {
        return true, s, r;
      }
      var tPos, k0, used;
      len, tPos, k0, used := StartRunSmall(cells, cftab, r.tPos, r.k0, r.used, nblockPP, blockSize100k, c);
      RunAdvances(c, r.used);
      r := Reader(tPos, k0, used, r.k0, len);
      LoopingNext(c, table, s0, p, sound, s, was, r, false, 0);
    }
  }

  /** What holds in the small form whenever the loop may end. */
  lemma SmallEnd(c: Chain, table: seq<bv32>, s0: Sink, p: seq<int>, sound: bool, s: Sink, r: Reader, was: Reader)
    requires Reading(c, was, 0) && sound == Sound(c, was.used) && r == was.(len := r.len)
    requires ChainOk(c) && 1 <= r.used && Progress(table, s0, p, s, Pending(c, r.ch, r.len, r.used))
    requires s.avail != 0 ==> r.len == 0
    ensures s.avail == 0 || r.used >= Full(c) ==> Ended(c, table, s0, p, sound, s, r, 0)
    ensures r.used == Full(c) && r.len == 0 <==> Left(c, r) == [] && Sound(c, r.used)
    ensures s.avail == 0 ==> !(|p| < s0.avail)
    ensures s.avail != 0 && r.used == Full(c) ==> sound
    ensures s.avail != 0 && r.used > Full(c) ==> !sound && |p| < s0.avail
    ensures s.avail != 0 ==> Progress(table, s0, p, s, Rest(c, r.used))
  {
    hide Walk, Pending, Sound, NextRun, ByteAt;
    PendingEmpty(c, r.ch, r.len, r.used);
    RestIsEmpty(c, r.used);
    ProgressRoom(table, s0, p, s, Left(c, r));
    NothingOfRun(c, r.ch, r.used);
  }

  /** The fields of DState and bz_stream the output side works on. */
  class OutputState {
    const save_nblock: nat
    const blockSize100k: nat
    const crcTable: seq<bv32>
    var tPos: nat
    var k0: int
    var nblock_used: nat
    var state_out_ch: int
    var state_out_len: nat
    var calculatedBlockCRC: bv32
    var avail_out: nat
    var written: seq<int>  // what next_out has moved over

    constructor (nblock: nat, blockSize: nat, table: seq<bv32>, r: Reader, s: Sink)
      ensures save_nblock == nblock && blockSize100k == blockSize && crcTable == table
      ensures Fields() == r && Outside() == s
    {
      save_nblock, blockSize100k, crcTable := nblock, blockSize, table;
      tPos, k0, nblock_used, state_out_ch, state_out_len := r.tPos, r.k0, r.used, r.ch, r.len;
      avail_out, written, calculatedBlockCRC := s.avail, s.out, s.crc;
    }

    function Fields(): Reader
      reads this
    {
      Reader(tPos, k0, nblock_used, state_out_ch, state_out_len)
    }

    function Outside(): Sink
      reads this
    {
      Sink(avail_out, written, calculatedBlockCRC)
    }

    ghost predicate Holds(c: Chain, lag: nat)
      reads this
    {
      && Reading(c, Fields(), lag) && save_nblock == |c.l| <= 100000 * blockSize100k && |crcTable| == 256
    }

    /** No more output, and nothing wrong: what BZ2_bzDecompress looks at after each call. */
    predicate Finished()
      reads this
    {
      nblock_used == save_nblock + 1 && state_out_len == 0
    }

    /**
     * unRLE_obuf_to_output_FAST. Corruption is reported as soon as all of a bad block has been put out, and then the
     * fields are not brought up to date.
     */
    method UnRleFast(tt: array<int>, ghost c: Chain) returns (corrupt: bool)
      requires Holds(c, 1) && FastVector(c.l, c.t, tt[..])
      modifies this
      ensures corrupt <==> !old(Sound(c, nblock_used)) && |old(Left(c, Fields()))| <= old(avail_out)
      ensures !corrupt ==> Holds(c, 1) && Sound(c, nblock_used) == old(Sound(c, nblock_used))
      ensures !corrupt ==> Progress(crcTable, old(Outside()), old(Left(c, Fields())), Outside(), Left(c, Fields()))
      ensures !corrupt ==> (Left(c, Fields()) == [] || avail_out == 0)
      ensures !corrupt ==> (Finished() <==> Left(c, Fields()) == [])
      ensures corrupt ==> Outside() == old(Outside())
    {
      hide Pending, Rest, Sound, NextRun, Progress, FastVector, Walk, ByteAt, Left;
      var s, r;
      corrupt, s, r := LoopFast(tt, crcTable, save_nblock + 1, blockSize100k, Outside(), Fields(), c);
      if !corrupt {
        avail_out, written, calculatedBlockCRC := s.avail, s.out, s.crc;
        tPos, k0, nblock_used, state_out_ch, state_out_len := r.tPos, r.k0, r.used, r.ch, r.len;
        assert Fields() == r && Outside() == s;
      }
    }

    /** unRLE_obuf_to_output_SMALL. A bad block is reported once there is still room after all of it. */
    method UnRleSmall(cells: CellArray, cftab: array<int>, ghost c: Chain) returns (corrupt: bool)
      requires Holds(c, 0) && SmallVectors(c, cells, cftab[..])
      modifies this
      ensures corrupt <==> !old(Sound(c, nblock_used)) && |old(Left(c, Fields()))| < old(avail_out)
      ensures Holds(c, 0) && Sound(c, nblock_used) == old(Sound(c, nblock_used))
      ensures Progress(crcTable, old(Outside()), old(Left(c, Fields())), Outside(), Left(c, Fields()))
      ensures Left(c, Fields()) == [] || avail_out == 0
      ensures Finished() <==> Left(c, Fields()) == [] && Sound(c, nblock_used)
    {
      hide Pending, Rest, Sound, NextRun, Progress, SmallVectors, Walk, ByteAt, Left;
      var s, r;
      corrupt, s, r := LoopSmall(cells, cftab, crcTable, save_nblock + 1, blockSize100k, Outside(), Fields(), c);
      avail_out, written, calculatedBlockCRC := s.avail, s.out, s.crc;
      tPos, k0, nblock_used, state_out_ch, state_out_len := r.tPos, r.k0, r.used, r.ch, r.len;
      assert Fields() == r && Outside() == s;
    }
  }

  lemma AheadChain(c: Chain, used: nat, k0: int)
    requires Ahead(c, used, k0)
    ensures ChainOk(c) && 1 <= used
  {
  }

  lemma FetchedAhead(c: Chain, used: nat, k0: int)
    requires Ahead(c, used, k0) && used < Full(c)
    ensures ChainOk(c) && 1 <= used && k0 == ByteAt(c, used - 1) && 0 <= k0 < 256
  {
  }

  lemma PendingSome(c: Chain, ch: int, len: nat, used: nat)
    requires ChainOk(c) && 1 <= used && len > 0
    ensures |Pending(c, ch, len, used)| > 0
  {
  }

  lemma PendingEmpty(c: Chain, ch: int, len: nat, used: nat)
    requires ChainOk(c) && 1 <= used
    ensures Pending(c, ch, len, used) == [] <==> len == 0 && Rest(c, used) == []
  {
  }

  /** How much has gone out is what there was room for. */
  lemma ProgressRoom(table: seq<bv32>, s0: Sink, p: seq<int>, s: Sink, p': seq<int>)
    requires Progress(table, s0, p, s, p')
    ensures s0.avail - s.avail == |p| - |p'|
  {
  }
}
