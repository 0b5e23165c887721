/** What a decoded block still has to give: the runs its bytes stand for, read along the chain of the inverse vector. */
module OutputRuns {
  import opened Basics
  import opened BurrowsWheeler
  import opened Crc
  import opened MtfCoding

  /** Column, vector and starting row of a block; its byte m is found m + 1 steps along the vector. */
  datatype Chain = Chain(l: seq<int>, t: seq<int>, o: nat)

  ghost predicate ChainOk(c: Chain) {
    && c.o < |c.l| == |c.t|
    && (forall x | 0 <= x < |c.t| :: 0 <= c.t[x] < |c.t|)
    && forall x | 0 <= x < |c.l| :: 0 <= c.l[x] < 256
  }

  ghost function ByteAt(c: Chain, m: nat): (r: int)
    requires ChainOk(c)
    ensures 0 <= r < 256
  {
    c.l[Walk(c.t, c.o, m + 1)]
  }

  /** nblock_used when no further run can be started: one byte is always fetched ahead. */
  ghost function Full(c: Chain): nat {
    |c.l| + 1
  }

  /** The run that starts with byte used - 1: its length, and nblock_used after it. */
  ghost function NextRun(c: Chain, used: nat): (r: (nat, nat))
    requires ChainOk(c) && 1 <= used < Full(c)
    ensures r.0 > 0 && used < r.1
  {
    var k0 := ByteAt(c, used - 1);
    if used + 1 == Full(c) || ByteAt(c, used) != k0 then (1, used + 1)
    else if used + 2 == Full(c) || ByteAt(c, used + 1) != k0 then (2, used + 2)
    else if used + 3 == Full(c) || ByteAt(c, used + 2) != k0 then (3, used + 3)
    else (ByteAt(c, used + 3) + 4, used + 5)
  }

  /** All bytes of the runs from there on. */
  ghost function Rest(c: Chain, used: nat): (r: seq<int>)
    requires ChainOk(c) && 1 <= used
    ensures Bytes(r)
    decreases Full(c) - used
  {
    if used >= Full(c) then [] else Repeat(ByteAt(c, used - 1), NextRun(c, used).0) + Rest(c, NextRun(c, used).1)
  }

  /** No run lacks its count at the end of the block. */
  ghost predicate Sound(c: Chain, used: nat)
    requires ChainOk(c) && 1 <= used
    decreases Full(c) - used
  {
    if used >= Full(c) then used == Full(c) else Sound(c, NextRun(c, used).1)
  }

  /** The current run's remainder and everything after it. */
  ghost function Pending(c: Chain, ch: int, len: nat, used: nat): (r: seq<int>)
    requires ChainOk(c) && 1 <= used
  {
    Repeat(ch, len) + Rest(c, used)
  }

  lemma StartedRun(c: Chain, used: nat)
    requires ChainOk(c) && 1 <= used < Full(c)
    ensures Rest(c, used) == Pending(c, ByteAt(c, used - 1), NextRun(c, used).0, NextRun(c, used).1)
    ensures Sound(c, used) == Sound(c, NextRun(c, used).1)
    ensures |Rest(c, used)| > 0
  {
  }

  lemma RestIsEmpty(c: Chain, used: nat)
    requires ChainOk(c) && 1 <= used
    ensures Rest(c, used) == [] <==> used >= Full(c)
    ensures used >= Full(c) ==> (Sound(c, used) <==> used == Full(c))
  {
  }

  /** One byte of the current run goes out. */
  lemma EmitOne(c: Chain, ch: int, len: nat, used: nat)
    requires ChainOk(c) && 1 <= used && len > 0
    ensures Pending(c, ch, len, used) == [ch] + Pending(c, ch, len - 1, used)
  {
    assert Repeat(ch, len) == [ch] + Repeat(ch, len - 1);
  }

  lemma NothingOfRun(c: Chain, ch: int, used: nat)
    requires ChainOk(c) && 1 <= used
    ensures Pending(c, ch, 0, used) == Rest(c, used)
  {
  }
}
