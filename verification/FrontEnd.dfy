/** add_pair_to_block, ADD_CHAR_TO_BLOCK and flush_RL: the run-length front end as it fills a block. */
module FrontEnd {
  import opened Basics
  import opened Crc
  import opened MtfCoding
  import opened RunLength

  /** The block under construction: bytes stored, characters marked, checksum of the data they stand for. */
  datatype Filling = Filling(block: seq<int>, inUse: seq<bool>, crc: bv32)

  ghost predicate FillingOk(table: seq<bv32>, rs: seq<Run>, f: Filling) {
    && |table| == 256 && Runs(rs) && f.block == BlockOf(rs)
    && |f.inUse| == 256 && InUse(f.block, f.inUse)
    && Bytes(DataOf(rs)) && f.crc == UpdateAll(table, START, DataOf(rs))
  }

  /** The run not yet stored; character 256 stands for none. */
  ghost predicate PendingOk(rs: seq<Run>, ch: int, len: nat) {
    && 0 <= ch <= 256 && (ch == 256 ==> len == 0)
    && (ch < 256 ==> 1 <= len <= 255 && (rs != [] ==> Apart(rs[|rs| - 1], Run(ch, len))))
  }

  function EmptyBlock(): Filling {
    Filling([], seq(256, _ => false), START)
  }

  lemma EmptyOk(table: seq<bv32>)
    requires |table| == 256
    ensures FillingOk(table, [], EmptyBlock())
  {
    assert UpdateAll(table, START, []) == START;
  }

  /** Mark ch, and the count of a run of four or more. */
  function Marked(inUse: seq<bool>, ch: int, len: nat): (r: seq<bool>)
    requires |inUse| == 256 && 0 <= ch < 256 && len <= 255
    ensures |r| == 256
  {
    if len >= 4 then inUse[ch := true][len - 4 := true] else inUse[ch := true]
  }

  /** What is stored for a run is marked, and nothing else besides. */
  lemma MarkedRun(b: seq<int>, inUse: seq<bool>, ch: int, len: nat)
    requires |inUse| == 256 && InUse(b, inUse) && 0 <= ch < 256 && 1 <= len <= 255
    ensures InUse(b + Stored(Run(ch, len)), Marked(inUse, ch, len))
  {
    var st, inUse' := Stored(Run(ch, len)), Marked(inUse, ch, len);
    StoredMarks(inUse, ch, len);
    hide Marked, Stored;
    var b' := b + st;
    forall i | 0 <= i < |b'|
      ensures 0 <= b'[i] < 256 && inUse'[b'[i]]
    {
      if i >= |b| {
        assert b'[i] == st[i - |b|];
      } else {
        assert b'[i] == b[i];
      }
    }
  }

  lemma StoredMarks(inUse: seq<bool>, ch: int, len: nat)
    requires |inUse| == 256 && 0 <= ch < 256 && 1 <= len <= 255
    ensures var st, inUse' := Stored(Run(ch, len)), Marked(inUse, ch, len);
      && (forall i | 0 <= i < |st| :: 0 <= st[i] < 256 && inUse'[st[i]])
      && (forall x | 0 <= x < 256 && inUse'[x] :: inUse[x] || x in st)
      && forall x | 0 <= x < 256 && inUse[x] :: inUse'[x]
  {
    var st := Stored(Run(ch, len));
    assert st[0] == ch && (len >= 4 ==> st[4] == len - 4);
  }

  lemma StoredRun(table: seq<bv32>, rs: seq<Run>, f: Filling, ch: int, len: nat, crc: bv32)
    requires FillingOk(table, rs, f) && PendingOk(rs, ch, len) && ch < 256
    requires crc == UpdateAll(table, f.crc, Repeat(ch, len))
    ensures FillingOk(table, rs + [Run(ch, len)], Filling(f.block + Stored(Run(ch, len)), Marked(f.inUse, ch, len), crc))
    ensures DataOf(rs + [Run(ch, len)]) == DataOf(rs) + Repeat(ch, len)
    ensures |Stored(Run(ch, len))| <= 5
  {
    hide Update, InUse, Marked;
    var r, rs' := Run(ch, len), rs + [Run(ch, len)];
    assert rs'[..|rs|] == rs;
    forall i | 0 <= i < |rs'| - 1
      ensures Apart(rs'[i], rs'[i + 1])
    {
      if i < |rs| - 1 {
        assert Apart(rs[i], rs[i + 1]);
      }
    }
    UpdateConcat(table, START, DataOf(rs), Repeat(ch, len));
    hide UpdateAll;
    MarkedRun(f.block, f.inUse, ch, len);
  }

  /** add_pair_to_block: the checksum takes len times ch, the block what is stored for it. */
  method AddPairToBlock(table: seq<bv32>, f: Filling, ch: int, len: nat, ghost rs: seq<Run>)
    returns (f': Filling)
    requires FillingOk(table, rs, f) && PendingOk(rs, ch, len) && ch < 256
    ensures FillingOk(table, rs + [Run(ch, len)], f')
    ensures |f'.block| <= |f.block| + 5
    ensures DataOf(rs + [Run(ch, len)]) == DataOf(rs) + Repeat(ch, len)
  {
    hide Update, UpdateAll, BlockOf, DataOf, Runs, InUse;
    var crc := f.crc;
    assert UpdateAll(table, crc, []) == crc by {
      NoneFolded(table, crc);
    }
    assert Repeat(ch, 0) == [];
    for i := 0 to len
      invariant crc == UpdateAll(table, f.crc, Repeat(ch, i))
    {
      UpdateNext(table, f.crc, Repeat(ch, i), ch);
      assert Repeat(ch, i) + [ch] == Repeat(ch, i + 1);
      crc := Update(table, crc, ch);
    }
    StoredRun(table, rs, f, ch, len, crc);
    var inUse := f.inUse[ch := true];
    var block := f.block;
    if len == 1 {
      block := block + [ch];
    } else if len == 2 {
      block := block + [ch] + [ch];
    } else if len == 3 {
      block := block + [ch] + [ch] + [ch];
    } else {
      inUse := inUse[len - 4 := true];
      block := block + [ch] + [ch] + [ch] + [ch] + [len - 4];
    }
    assert block == f.block + Stored(Run(ch, len));
    f' := Filling(block, inUse, crc);
  }

  lemma NoneFolded(table: seq<bv32>, crc: bv32)
    requires |table| == 256
    ensures UpdateAll(table, crc, []) == crc
  {
  }

  /** ADD_CHAR_TO_BLOCK. */
  method AddChar(table: seq<bv32>, f: Filling, ch: int, len: nat, zchh: int, ghost rs: seq<Run>)
    returns (f': Filling, ch': int, len': nat, ghost rs': seq<Run>)
    requires FillingOk(table, rs, f) && PendingOk(rs, ch, len) && (ch == 256 ==> rs == []) && 0 <= zchh < 256
    ensures FillingOk(table, rs', f') && PendingOk(rs', ch', len') && ch' < 256
    ensures |f'.block| <= |f.block| + 5
    ensures DataOf(rs') + Repeat(ch', len') == DataOf(rs) + Repeat(ch, len) + [zchh]
  {
    hide Update, UpdateAll, BlockOf, DataOf, Runs, FillingOk;
    f', ch', len', rs' := f, ch, len, rs;
    if zchh != ch && len == 1 {
      // the fast track stores the single character itself
      f' := AddPairToBlock(table, f, ch, 1, rs);
      rs' := rs + [Run(ch, 1)];
      ch' := zchh;
      assert Repeat(zchh, 1) == [zchh];
    } else if zchh != ch || len == 255 {
      if ch < 256 {
        f' := AddPairToBlock(table, f, ch, len, rs);
        rs' := rs + [Run(ch, len)];
      } else {
        assert Repeat(ch, 0) == [] && DataOf(rs) + [] == DataOf(rs);
      }
      ch', len' := zchh, 1;
      assert Repeat(zchh, 1) == [zchh];
    } else {
      len' := len + 1;
      assert Repeat(ch, len + 1) == Repeat(ch, len) + [ch];
      assert DataOf(rs) + Repeat(ch, len + 1) == DataOf(rs) + Repeat(ch, len) + [ch];
    }
  }

  /** flush_RL. */
  method FlushRL(table: seq<bv32>, f: Filling, ch: int, len: nat, ghost rs: seq<Run>)
    returns (f': Filling, ghost rs': seq<Run>)
    requires FillingOk(table, rs, f) && PendingOk(rs, ch, len)
    ensures FillingOk(table, rs', f') && |f'.block| <= |f.block| + 5
    ensures DataOf(rs') == DataOf(rs) + Repeat(ch, len)
    ensures f'.block == [] <==> DataOf(rs') == []
  {
    f', rs' := f, rs;
    if ch < 256 {
      f' := AddPairToBlock(table, f, ch, len, rs);
      rs' := rs + [Run(ch, len)];
    } else {
      assert Repeat(ch, 0) == [] && DataOf(rs) + [] == DataOf(rs);
    }
    SameEmptiness(rs');
  }

  lemma SameEmptiness(rs: seq<Run>)
    requires Runs(rs)
    ensures BlockOf(rs) == [] <==> rs == []
    ensures DataOf(rs) == [] <==> rs == []
  {
    if rs != [] {
      assert RunOk(rs[|rs| - 1]);
    }
  }
}
