/** The run-length front end on values: a block is a list of runs, a run of four or more carries its length. */
module RunLength {
  import opened BurrowsWheeler
  import opened Crc
  import opened MtfCoding
  import opened OutputRuns

  /** A run of len times ch, 1 <= len <= 255. */
  datatype Run = Run(ch: int, len: nat)

  ghost predicate RunOk(r: Run) {
    0 <= r.ch < 256 && 1 <= r.len <= 255
  }

  /** What add_pair_to_block stores for a run. */
  function Stored(r: Run): (s: seq<int>)
    ensures |s| == if r.len < 4 then r.len else 5
  {
    if r.len < 4 then Repeat(r.ch, r.len) else [r.ch, r.ch, r.ch, r.ch, r.len - 4]
  }

  /** Runs as they follow each other in a block: the same character again only after a run of full length. */
  ghost predicate Runs(rs: seq<Run>) {
    && (forall i | 0 <= i < |rs| :: RunOk(rs[i]))
    && forall i | 0 <= i < |rs| - 1 :: Apart(rs[i], rs[i + 1])
  }

  ghost predicate Apart(r: Run, s: Run) {
    r.ch != s.ch || r.len == 255
  }

  ghost function BlockOf(rs: seq<Run>): (s: seq<int>) {
    if rs == [] then [] else BlockOf(rs[..|rs| - 1]) + Stored(rs[|rs| - 1])
  }

  ghost function DataOf(rs: seq<Run>): (s: seq<int>) {
    if rs == [] then [] else DataOf(rs[..|rs| - 1]) + Repeat(rs[|rs| - 1].ch, rs[|rs| - 1].len)
  }

  lemma {:induction false} BlockFront(rs: seq<Run>)
    requires rs != []
    ensures BlockOf(rs) == Stored(rs[0]) + BlockOf(rs[1..])
  {
    hide Stored;
    if |rs| == 1 {
      assert rs[..0] == [] && rs[1..] == [];
    } else {
      var r, last := rs[..|rs| - 1], rs[|rs| - 1];
      assert rs[1..][..|rs| - 2] == r[1..];
      assert BlockOf(rs[1..]) == BlockOf(r[1..]) + Stored(last);
      assert BlockOf(rs) == BlockOf(r) + Stored(last);
      hide BlockOf;
      BlockFront(r);
    }
  }

  lemma {:induction false} DataFront(rs: seq<Run>)
    requires rs != []
    ensures DataOf(rs) == Repeat(rs[0].ch, rs[0].len) + DataOf(rs[1..])
  {
    hide Repeat;
    if |rs| == 1 {
      assert rs[..0] == [] && rs[1..] == [];
    } else {
      var r, last := rs[..|rs| - 1], rs[|rs| - 1];
      assert rs[1..][..|rs| - 2] == r[1..];
      assert DataOf(rs[1..]) == DataOf(r[1..]) + Repeat(last.ch, last.len);
      assert DataOf(rs) == DataOf(r) + Repeat(last.ch, last.len);
      hide DataOf;
      DataFront(r);
    }
  }

  // ---------- undoing it ----------

  /** How many bytes the run at the front of b takes up, and how long it is. */
  ghost function Front(b: seq<int>): (r: (nat, nat))
    requires b != []
    ensures 0 < r.0
  {
    if |b| == 1 || b[1] != b[0] then (1, 1)
    else if |b| == 2 || b[2] != b[0] then (2, 2)
    else if |b| == 3 || b[3] != b[0] then (3, 3)
    else if |b| == 4 || b[4] < 0 then (5, 0)
    else (5, b[4] + 4)
  }

  ghost function Expand(b: seq<int>): seq<int> {
    if b == [] || Front(b).0 > |b| then []
    else Repeat(b[0], Front(b).1) + Expand(b[Front(b).0..])
  }

  /** No run at the end lacks its count. */
  ghost predicate Complete(b: seq<int>) {
    b == [] || (Front(b).0 <= |b| && Complete(b[Front(b).0..]))
  }

  lemma {:induction false} BlockStart(rs: seq<Run>)
    requires Runs(rs) && rs != []
    ensures |BlockOf(rs)| > 0 && BlockOf(rs)[0] == rs[0].ch
  {
    BlockFront(rs);
    assert RunOk(rs[0]);
  }

  lemma FrontOfStored(r: Run, rest: seq<int>)
    requires RunOk(r) && (rest == [] || r.len >= 4 || rest[0] != r.ch)
    ensures Front(Stored(r) + rest) == (|Stored(r)|, r.len)
    ensures (Stored(r) + rest)[|Stored(r)|..] == rest
  {
    var b := Stored(r) + rest;
    assert b[0] == r.ch && |b| == |Stored(r)| + |rest|;
    if r.len == 1 {
      assert |b| > 1 ==> b[1] == rest[0];
    } else if r.len == 2 {
      assert b[1] == r.ch && (|b| > 2 ==> b[2] == rest[0]);
    } else if r.len == 3 {
      assert b[1] == b[2] == r.ch && (|b| > 3 ==> b[3] == rest[0]);
    } else {
      assert b[1] == b[2] == b[3] == r.ch && b[4] == r.len - 4;
    }
  }

  lemma FrontOfRuns(rs: seq<Run>)
    requires Runs(rs) && rs != []
    ensures |BlockOf(rs)| > 0 && BlockOf(rs)[0] == rs[0].ch
    ensures Front(BlockOf(rs)) == (|Stored(rs[0])|, rs[0].len)
    ensures BlockOf(rs)[|Stored(rs[0])|..] == BlockOf(rs[1..])
    ensures Runs(rs[1..])
  {
    hide Front;
    BlockFront(rs);
    BlockStart(rs);
    assert RunOk(rs[0]);
    LaterRuns(rs);
    if |rs| > 1 {
      BlockStart(rs[1..]);
      assert Apart(rs[0], rs[1]);
    } else {
      assert BlockOf(rs[1..]) == [];
    }
    hide BlockOf, Stored;
    FrontOfStored(rs[0], BlockOf(rs[1..]));
  }

  lemma LaterRuns(rs: seq<Run>)
    requires Runs(rs) && rs != []
    ensures Runs(rs[1..])
  {
    forall i | 0 <= i < |rs[1..]| - 1
      ensures Apart(rs[1..][i], rs[1..][i + 1])
    {
      assert Apart(rs[i + 1], rs[i + 1 + 1]);
    }
  }

  /** Undoing the run-length coding of a block gives its data. */
  lemma {:induction false} ExpandBlock(rs: seq<Run>)
    requires Runs(rs)
    ensures Expand(BlockOf(rs)) == DataOf(rs) && Complete(BlockOf(rs))
  {
    if rs != [] {
      FrontOfRuns(rs);
      DataFront(rs);
      ExpandBlock(rs[1..]);
      hide Front, BlockOf, DataOf, Stored, Repeat;
    }
  }

  /** The decoder's output side, reading a block's bytes along its chain, gives exactly that. */
  lemma {:induction false} RestExpands(c: Chain, b: seq<int>, used: nat)
    requires ChainOk(c) && |b| == |c.l| && 1 <= used <= Full(c)
    requires forall m: nat | m < |b| :: ByteAt(c, m) == b[m]
    requires Complete(b[used - 1..])
    ensures Rest(c, used) == Expand(b[used - 1..]) && Sound(c, used)
    decreases Full(c) - used
  {
    hide ByteAt, ChainOk;
    var s := b[used - 1..];
    if used < Full(c) {
      FrontIsNext(c, b, used);
      hide NextRun, Front;
      var k := Front(s).0;
      assert s[k..] == b[used + k - 1..] && s[0] == b[used - 1];
      RestExpands(c, b, used + k);
    }
  }

  /** The run read along the chain is the run at the front. */
  lemma FrontIsNext(c: Chain, b: seq<int>, used: nat)
    requires ChainOk(c) && |b| == |c.l| && 1 <= used < Full(c)
    requires forall m: nat | m < |b| :: ByteAt(c, m) == b[m]
    requires Front(b[used - 1..]).0 <= |b[used - 1..]|
    ensures NextRun(c, used) == (Front(b[used - 1..]).1, used + Front(b[used - 1..]).0)
  {
    hide Walk;
    var s := b[used - 1..];
    assert s[0] == b[used - 1] == ByteAt(c, used - 1);
    assert |s| > 1 ==> s[1] == b[used] == ByteAt(c, used);
    assert |s| > 2 ==> s[2] == b[used + 1] == ByteAt(c, used + 1);
    assert |s| > 3 ==> s[3] == b[used + 2] == ByteAt(c, used + 2);
    assert |s| > 4 ==> s[4] == b[used + 3] == ByteAt(c, used + 3);
  }
}
