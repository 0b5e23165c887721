/** The part of BZ2_compressBlock that turns a nonempty block into bits: sort, code, send. */
module BlockEncoder {
  import opened Basics
  import opened BitStream
  import opened BlockFormat
  import opened BlockWriter
  import opened BurrowsWheeler
  import opened MainCompare
  import opened MtfCoding
  import opened Permutations
  import opened Rotations
  import opened Words
  import Bits
  import BlockSort
  import MainSort

  /** What the stream says about block b, whichever order equal rotations were sorted in and whichever tables chosen. */
  ghost predicate Encodes(c: Coded, b: seq<int>, p: seq<int>, crc: nat, k: nat) {
    && CodedOk(c, k) && c.crc == crc && 0 < |b| <= 100000 * k
    && SortsRotations(b, p) && c.origPtr < |b| && p[c.origPtr] == 0
    && InUse(b, c.inUse) && c.syms == BlockSymbols(b, p, c.inUse) && TablesMade(c)
  }

  /** Every table has the lengths BZ2_hbMakeCodeLengths makes for the groups that use it. */
  ghost predicate TablesMade(c: Coded) {
    && |c.inUse| == 256 && |c.selectors| == (|c.syms| + 49) / 50
    && forall t | 0 <= t < |c.lens| :: MadeFor(c.lens[t], c.syms, c.selectors, t, Numbering(c.inUse, 256) + 2)
  }

  /** The selectors the optimising passes of sendMTFValues arrive at: any table for any group. */
  method ChooseSelectors(nMTF: nat) returns (selector: seq<int>)
    ensures |selector| == (nMTF + 49) / 50
    ensures forall i | 0 <= i < |selector| :: 0 <= selector[i] < NumberOfGroups(nMTF)
  {
    selector := [];
    while |selector| < (nMTF + 49) / 50
      invariant |selector| <= (nMTF + 49) / 50
      invariant forall i | 0 <= i < |selector| :: 0 <= selector[i] < NumberOfGroups(nMTF)
    {
      assert 0 < NumberOfGroups(nMTF);
      var bt: nat :| bt < NumberOfGroups(nMTF);
      selector := selector + [bt];
    }
  }

  /** arr1 as 16-bit halves: the same memory the row order was sorted in. */
  method AsHalves(ptr: array<int>) returns (mem: array<int>)
    requires forall i | 0 <= i < ptr.Length :: 0 <= ptr[i] < ptr.Length
    ensures fresh(mem) && mem.Length == 2 * ptr.Length
    ensures forall i | 0 <= i < ptr.Length :: MtfCoding.Word(mem[..], i) == ptr[i]
  {
    mem := new int[2 * ptr.Length](x requires 0 <= x < 2 * ptr.Length reads ptr =>
      if x % 2 == 0 then ptr[x / 2] % 0x10000 else ptr[x / 2] / 0x10000);
    forall i | 0 <= i < ptr.Length
      ensures MtfCoding.Word(mem[..], i) == ptr[i]
    {
      assert mem[2 * i] == ptr[i] % 0x10000 && mem[2 * i + 1] == ptr[i] / 0x10000;
    }
  }

  lemma SortedRows(b: seq<int>, p: seq<int>)
    requires SortsRotations(b, p)
    ensures |p| == |b| > 0 && forall i | 0 <= i < |p| :: 0 <= p[i] < |b|
  {
  }

  lemma SymbolsOfBlock(b: seq<int>, p: seq<int>, inUse: seq<bool>)
    requires |p| == |b| > 0 && |inUse| == 256 && InUse(b, inUse) && forall i | 0 <= i < |p| :: 0 <= p[i] < |b|
    ensures var m, s := Numbering(inUse, 256), BlockSymbols(b, p, inUse);
      && 0 < m <= 256 && 1 <= |s| <= |b| + 1 && (forall x | 0 <= x < |s| :: 0 <= s[x] <= m + 1)
      && s[|s| - 1] == m + 1 && forall x | 0 <= x < |s| - 1 :: s[x] != m + 1
  {
    var m, u := Numbering(inUse, 256), ColumnOf(b, p, inUse);
    BlockSymbolsAre(b, p, inUse);
    SymbolsBound(Identity(m), m, 0, u);
    hide Symbols, ColumnOf, Numbering;
    NumberingSmall(inUse);
  }

  lemma NumberingSmall(inUse: seq<bool>)
    requires |inUse| == 256
    ensures Numbering(inUse, 256) <= 256
  {
  }

  lemma WrittenSymbols(mem: seq<int>, freq: seq<int>, out: seq<int>, m: nat)
    requires MtfCoding.Written(mem, freq, out, m)
    ensures |out| <= |mem| && forall x | 0 <= x < |out| :: mem[x] == out[x]
  {
  }

  lemma BlockBits(c: Coded, k: nat)
    requires CodedOk(c, k)
    ensures BlockThen(c, k, []) == BytesThen(BLOCKMAGIC + WordBytes(c.crc), [false] + (Bin(c.origPtr, 24) + MappedThen(c, k, [])))
  {
    hide *;
    BlockThenIs(c, k, []);
  }

  lemma BlockThenIs(c: Coded, k: nat, rest: seq<bool>)
    requires CodedOk(c, k)
    ensures BlockThen(c, k, rest)
            == BytesThen(BLOCKMAGIC + WordBytes(c.crc), [false] + (Bin(c.origPtr, 24) + MappedThen(c, k, rest)))
  {
    hide BytesThen, MappedThen, CodedOk, WordBytes, BLOCKMAGIC, Bin;
  }

  /** BZ2_blockSort on working storage of its own. */
  method SortRows(block: seq<int>, workFactor: int) returns (ptr: array<int>, origPtr: nat)
    requires 0 < |block| <= 900000 && forall i | 0 <= i < |block| :: 0 <= block[i] < 256
    ensures fresh(ptr) && ptr.Length == |block| && SortsRotations(block, ptr[..])
    ensures origPtr < |block| && ptr[origPtr] == 0
  {
    OvershootIs();
    hide *;
    var nblock := |block|;
    var arr2 := new int[nblock + 34](i => if 0 <= i < nblock then block[i] else 0);
    assert arr2[..nblock] == block;
    var quadrant, ftab := new int[nblock + 34], new int[65537];
    var eclass, bhtab := new int[nblock], new bool[nblock + 96];
    ptr := new int[nblock];
    origPtr := BlockSort.BlockSort(ptr, arr2, quadrant, ftab, eclass, bhtab, nblock, workFactor);
  }

  /** generateMTFValues over the storage the rows were sorted in. */
  method CodeColumn(block: seq<int>, inUse: seq<bool>, ptr: array<int>)
    returns (mem: array<int>, nInUse: nat, nMTF: nat, ghost syms: seq<int>)
    requires ptr.Length == |block| > 0 && |inUse| == 256 && InUse(block, inUse)
    requires forall i | 0 <= i < |block| :: 0 <= ptr[i] < |block|
    ensures fresh(mem) && nInUse == Numbering(inUse, 256) && syms == BlockSymbols(block, ptr[..], inUse)
    ensures nMTF == |syms| <= mem.Length && forall x | 0 <= x < nMTF :: mem[x] == syms[x]
  {
    hide *;
    ghost var p := ptr[..];
    var arr2 := new int[|block|](i requires 0 <= i < |block| => block[i]);
    assert arr2[..|block|] == block;
    var used := new bool[256](i requires 0 <= i < 256 => inUse[i]);
    assert used[..] == inUse;
    var unseqToSeq, mtfFreq := new int[256], new int[258];
    mem := AsHalves(ptr);
    nInUse, nMTF, syms := GenerateMtfValues(mem, arr2, used, unseqToSeq, mtfFreq, |block|, p);
    WrittenSymbols(mem[..], mtfFreq[..], syms, nInUse);
    assert forall x | 0 <= x < nMTF :: mem[..][x] == mem[x];
  }

  /** Sort the block, code its last column, and write it all out. */
  method EncodeBlock(w: BitWriter, block: seq<int>, inUse: seq<bool>, crc: nat, k: nat, workFactor: int)
    returns (ghost c: Coded, ghost p: seq<int>)
    requires w.Valid() && 0 < |block| <= 100000 * k && 1 <= k <= 9 && crc < 0x1_0000_0000
    requires |inUse| == 256 && InUse(block, inUse)
    modifies w
    ensures Encodes(c, block, p, crc, k) && c.inUse == inUse
    ensures w.Valid() && w.taken == old(w.taken) && w.Written() == old(w.Written()) + BlockThen(c, k, [])
  {
    hide *;
    BlockIsBytes(block, inUse);
    var ptr, origPtr := SortRows(block, workFactor);
    p := ptr[..];
    SortedRows(block, p);
    assert forall i | 0 <= i < |block| :: ptr[i] == p[i];
    var mem, nInUse, nMTF;
    ghost var syms;
    mem, nInUse, nMTF, syms := CodeColumn(block, inUse, ptr);
    SymbolsOfBlock(block, p, inUse);
    var selector := ChooseSelectors(nMTF);
    ghost var start := w.Written();
    PutHead(w, crc, origPtr, []);
    ghost var headed := w.Written();
    c := SendMtfValues(w, mem, nMTF, nInUse, inUse, selector, crc, origPtr, k, syms);
    BlockBits(c, k);
    HeadThenRest(start, headed, crc, origPtr, MappedThen(c, k, []));
    AllTablesMade(c, nInUse);
    EncodesFrom(c, block, p, crc, k);
  }

  lemma AllTablesMade(c: Coded, nInUse: nat)
    requires |c.inUse| == 256 && nInUse == Numbering(c.inUse, 256) && |c.selectors| == (|c.syms| + 49) / 50
    requires forall t | 0 <= t < |c.lens| :: MadeFor(c.lens[t], c.syms, c.selectors, t, nInUse + 2)
    ensures TablesMade(c)
  {
    hide Numbering, MadeFor;
  }

  lemma BlockIsBytes(block: seq<int>, inUse: seq<bool>)
    requires |inUse| == 256 && InUse(block, inUse)
    ensures forall i | 0 <= i < |block| :: 0 <= block[i] < 256
  {
  }

  lemma OvershootIs()
    ensures OVERSHOOT == 34
  {
  }

  lemma EncodesFrom(c: Coded, b: seq<int>, p: seq<int>, crc: nat, k: nat)
    requires CodedOk(c, k) && c.crc == crc && 0 < |b| <= 100000 * k && |c.inUse| == 256
    requires SortsRotations(b, p) && c.origPtr < |b| == |p| && p[c.origPtr] == 0
    requires InUse(b, c.inUse) && (forall i | 0 <= i < |p| :: 0 <= p[i] < |b|) && c.syms == BlockSymbols(b, p, c.inUse)
    requires TablesMade(c)
    ensures Encodes(c, b, p, crc, k)
  {
    hide TablesMade, Numbering, BlockSymbols, SortsRotations;
  }

  /** Bytes in front of a tail are bytes in front of nothing, then the tail. */
  lemma {:induction false} BytesAppend(bytes: seq<int>, rest: seq<bool>, tail: seq<bool>)
    requires forall i | 0 <= i < |bytes| :: 0 <= bytes[i] < 256
    ensures BytesThen(bytes, rest) + tail == BytesThen(bytes, rest + tail)
    decreases |bytes|
  {
    if bytes != [] {
      BytesAppend(bytes[1..], rest, tail);
      assert Bin(bytes[0], 8) + BytesThen(bytes[1..], rest) + tail == Bin(bytes[0], 8) + (BytesThen(bytes[1..], rest) + tail);
    }
  }

  lemma HeadThenRest(start: seq<bool>, headed: seq<bool>, crc: nat, origPtr: nat, mapped: seq<bool>)
    requires headed + [] == start + BytesThen(BLOCKMAGIC + WordBytes(crc), [false] + (Bin(origPtr, 24) + []))
    ensures headed + mapped == start + BytesThen(BLOCKMAGIC + WordBytes(crc), [false] + (Bin(origPtr, 24) + mapped))
  {
    hide Bin, WordBytes, BytesThen;
    var h := [false] + (Bin(origPtr, 24) + []);
    BytesAppend(BLOCKMAGIC + WordBytes(crc), h, mapped);
    assert h + mapped == [false] + (Bin(origPtr, 24) + mapped);
    assert headed + [] == headed;
  }
}
