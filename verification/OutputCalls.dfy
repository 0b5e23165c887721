/** A block put out over any number of calls, each with room of its own. */
module OutputCalls {
  import opened Basics
  import opened BurrowsWheeler
  import opened Crc
  import opened Decompressor
  import opened DecoderState
  import opened InverseVectors
  import opened OutputRuns
  import opened OutputSide
  import opened Placement
  import opened RoundTrip

  ghost function Sum(rooms: seq<nat>): nat {
    if rooms == [] then 0 else Sum(rooms[..|rooms| - 1]) + rooms[|rooms| - 1]
  }

  lemma SumNext(rooms: seq<nat>, i: nat)
    requires i < |rooms|
    ensures Sum(rooms[..i + 1]) == Sum(rooms[..i]) + rooms[i]
  {
    assert rooms[..i + 1][..i] == rooms[..i];
  }

  lemma {:induction false} SumWithin(rooms: seq<nat>, i: nat)
    requires i <= |rooms|
    ensures Sum(rooms[..i]) <= Sum(rooms)
    decreases |rooms| - i
  {
    if i == |rooms| {
      assert rooms[..i] == rooms;
    } else {
      SumNext(rooms, i);
      SumWithin(rooms, i + 1);
    }
  }

  /** Of the bytes p as many have gone out behind w0 as room for n allows, and left remains. */
  ghost predicate Given(w0: seq<int>, p: seq<int>, w: seq<int>, left: seq<int>, n: nat) {
    && p == p[..Smaller(n, |p|)] + left
    && w == w0 + p[..Smaller(n, |p|)]
  }

  lemma GivenNone(w: seq<int>, p: seq<int>)
    ensures Given(w, p, w, p, 0)
  {
  }

  lemma GivenMore(table: seq<bv32>, w0: seq<int>, p: seq<int>, n: nat, s: Sink, left: seq<int>, s': Sink, left': seq<int>)
    requires Given(w0, p, s.out, left, n) && Progress(table, s, left, s', left') && (left' == [] || s'.avail == 0)
    ensures Given(w0, p, s'.out, left', n + s.avail)
  {
    hide UpdateAll;
    var done, more := p[..Smaller(n, |p|)], s'.out[|s.out|..];
    assert s'.out == s.out + more && left == more + left';
    assert p == (done + more) + left';
    assert p[..|done| + |more|] == done + more;
    assert |done| + |more| == Smaller(n + s.avail, |p|);
    assert s'.out == w0 + (done + more);
  }

  /** A call that finds a bad block had room for all that was left of it. */
  lemma GivenAll(w0: seq<int>, p: seq<int>, w: seq<int>, left: seq<int>, n: nat, room: nat)
    requires Given(w0, p, w, left, n) && |left| <= room
    ensures |p| <= n + room
    ensures |left| < room ==> |p| < n + room
  {
  }

  lemma NotAll(w0: seq<int>, p: seq<int>, w: seq<int>, left: seq<int>, n: nat, room: nat)
    requires Given(w0, p, w, left, n)
    ensures |left| > room ==> |p| > n + room
    ensures |left| >= room && n <= |p| ==> |p| >= n + room
  {
  }

  lemma SumNone()
    ensures Sum([]) == 0
  {
  }

  lemma GivenIs(w0: seq<int>, p: seq<int>, w: seq<int>, left: seq<int>, n: nat)
    requires Given(w0, p, w, left, n)
    ensures w == w0 + p[..Smaller(n, |p|)]
  {
  }

  /** Calls of unRLE_obuf_to_output_FAST, as long as none finds the block corrupt. */
  method CallFast(o: OutputState, tt: array<int>, rooms: seq<nat>, ghost c: Chain) returns (corrupt: bool)
    requires o.Holds(c, 1) && FastVector(c.l, c.t, tt[..])
    modifies o
    ensures var p := old(Left(c, o.Fields()));
      && (!corrupt ==> o.written == old(o.written) + p[..Smaller(Sum(rooms), |p|)])
      && (corrupt <==> rooms != [] && !old(Sound(c, o.nblock_used)) && |p| <= Sum(rooms))
  {
    hide Sound, Left, FastVector, Walk, ByteAt, Progress, Given, Sum;
    ghost var p, w0, sound := Left(c, o.Fields()), o.written, Sound(c, o.nblock_used);
    SumNone();
    GivenNone(w0, p);
    corrupt := false;
    for i := 0 to |rooms|
      invariant o.Holds(c, 1) && FastVector(c.l, c.t, tt[..]) && Sound(c, o.nblock_used) == sound
      invariant Given(w0, p, o.written, Left(c, o.Fields()), Sum(rooms[..i]))
      invariant i > 0 && !sound ==> Sum(rooms[..i]) < |p|
    {
      SumNext(rooms, i);
      SumWithin(rooms, i + 1);
      o.avail_out := rooms[i];
      ghost var s, left := o.Outside(), Left(c, o.Fields());
      corrupt := o.UnRleFast(tt, c);
      if corrupt {
        GivenAll(w0, p, s.out, left, Sum(rooms[..i]), rooms[i]);
        return;
      }
      GivenMore(o.crcTable, w0, p, Sum(rooms[..i]), s, left, o.Outside(), Left(c, o.Fields()));
      NotAll(w0, p, s.out, left, Sum(rooms[..i]), rooms[i]);
    }
    assert rooms[..|rooms|] == rooms;
    GivenIs(w0, p, o.written, Left(c, o.Fields()), Sum(rooms));
  }

  /** Calls of unRLE_obuf_to_output_SMALL. */
  method CallSmall(o: OutputState, cells: CellArray, cftab: array<int>, rooms: seq<nat>, ghost c: Chain)
    returns (corrupt: bool)
    requires o.Holds(c, 0) && SmallVectors(c, cells, cftab[..])
    modifies o
    ensures var p := old(Left(c, o.Fields()));
      && (!corrupt ==> o.written == old(o.written) + p[..Smaller(Sum(rooms), |p|)])
      && (corrupt <==> !old(Sound(c, o.nblock_used)) && |p| < Sum(rooms))
  {
    hide Sound, Left, SmallVectors, Walk, ByteAt, Progress, Given, Sum;
    ghost var p, w0, sound := Left(c, o.Fields()), o.written, Sound(c, o.nblock_used);
    SumNone();
    GivenNone(w0, p);
    corrupt := false;
    for i := 0 to |rooms|
      invariant o.Holds(c, 0) && SmallVectors(c, cells, cftab[..]) && Sound(c, o.nblock_used) == sound
      invariant Given(w0, p, o.written, Left(c, o.Fields()), Sum(rooms[..i]))
      invariant !sound ==> Sum(rooms[..i]) <= |p|
    {
      SumNext(rooms, i);
      SumWithin(rooms, i + 1);
      o.avail_out := rooms[i];
      ghost var s, left := o.Outside(), Left(c, o.Fields());
      corrupt := o.UnRleSmall(cells, cftab, c);
      if corrupt {
        GivenAll(w0, p, s.out, left, Sum(rooms[..i]), rooms[i]);
        return;
      }
      GivenMore(o.crcTable, w0, p, Sum(rooms[..i]), s, left, o.Outside(), Left(c, o.Fields()));
      NotAll(w0, p, s.out, left, Sum(rooms[..i]), rooms[i]);
    }
    assert rooms[..|rooms|] == rooms;
    GivenIs(w0, p, o.written, Left(c, o.Fields()), Sum(rooms));
  }

  lemma ChainIs(c: Chain)
    requires ChainOk(c) && Vector(c.l, c.t)
    ensures Bytes(c.l) && ChainOf(c.l, c.o) == c
  {
    hide Vector;
    VectorUnique(c.l, c.t, ChainOf(c.l, c.o).t);
  }

  /**
   * A column set up and put out in the chosen mode. What comes out is a prefix of one and the same sequence, in either
   * mode and however the room is divided: its length alone depends on the room. Corruption is found only in an unsound
   * block, all of which there was room for.
   */
  method PutOutBlock(tt: array<int>, unzftab: array<int>, nblock: nat, origPtr: nat, blockSize: nat, table: seq<bv32>,
                     small: bool, rooms: seq<nat>)
    returns (out: seq<int>, corrupt: bool)
    requires tt != unzftab && origPtr < nblock <= tt.Length && nblock <= 100000 * blockSize <= 900000 && |table| == 256
    requires Counted(tt[..nblock], unzftab[..])
    modifies tt
    ensures Bytes(old(tt[..nblock]))
    ensures var c := ChainOf(old(tt[..nblock]), origPtr); var p := Rest(c, 1);
      && (!corrupt ==> out == p[..Smaller(Sum(rooms), |p|)])
      && (corrupt ==> !Sound(c, 1) && |p| <= Sum(rooms))
      && (!Sound(c, 1) && |p| < Sum(rooms) ==> corrupt)
  {
    hide Counted, Vector, Sound, Rest, FastVector, SmallVectors, Sum, Left;
    ghost var l := tt[..nblock];
    CountedParts(l, unzftab[..]);
    SumNone();
    if small {
      var o, cells, cftab, c := SetUpSmall(tt, unzftab, nblock, origPtr, blockSize, table, Sink(0, [], 0));
      ChainIs(c);
      StartLeft(o, c, table, Sink(0, [], 0));
      corrupt := CallSmall(o, cells, cftab, rooms, c);
      out := o.written;
    } else {
      var o, c := SetUpFast(tt, unzftab, nblock, origPtr, blockSize, table, Sink(0, [], 0));
      ChainIs(c);
      StartLeft(o, c, table, Sink(0, [], 0));
      corrupt := CallFast(o, tt, rooms, c);
      out := o.written;
    }
  }
}
