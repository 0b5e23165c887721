/** The parser reads back a whole block: the head, and the last column of the sorted rotations. */
module ParseBlock {
  import opened Bits
  import opened BlockFormat
  import opened BlockParser
  import opened BurrowsWheeler
  import opened MoveToFront
  import opened MtfCoding
  import opened ParseData
  import opened ParseHeader
  import opened Permutations
  import opened PrefixCodes
  import opened Words

  lemma IdentityPermutes(n: nat)
    ensures IsPermutation(Identity(n))
  {
  }

  /** The column the symbols of c stand for, in numbers of characters in use. */
  ghost function Entries(c: Coded): seq<int>
    requires |c.inUse| == 256
  {
    Unsymbols(Identity(256), Numbering(c.inUse, 256) + 1, 0, 1, c.syms)
  }

  lemma ParseTabled(p: Parser, c: Coded, rest: seq<bool>) returns (q: Parser)
    requires p.at == Coding1 && p.lens == [] && CodedOk(c, p.blockSize100k) && p.nGroups == |c.lens|
    requires p.inUse == c.inUse && p.selector == c.selectors && p.nSelectors == |c.selectors| && p.origPtr == c.origPtr
    requires |Entries(c)| <= BlockMax(p) && c.origPtr < |Entries(c)|
    ensures Drive(p, TabledThen(c, p.blockSize100k, rest)) == Drive(q, rest)
    ensures q.at == Output && SameHead(p, q) && q.out == Mapped(c.inUse, Entries(c))
  {
    hide *;
    DataReady(p, c);
    TableSizes(p, c);
    TabledIs(c, p.blockSize100k, rest);
    ParseTables(p, c.lens, DataThen(c, 0, rest));
    var last := c.lens[|c.lens| - 1];
    assert p.lens + c.lens == c.lens;
    var p1 := p.(at := Coding2, lens := c.lens, len := [], curr := last[|last| - 1]);
    var p2 := DataStart(p1, c);
    q := ParseSyms(c, p2, 0, rest);
    assert p2.out + Mapped(c.inUse, Entries(c)) == Mapped(c.inUse, Entries(c));
    HeadFrom(p, p2, q);
  }

  lemma HeadFrom(p: Parser, p2: Parser, q: Parser)
    requires SameHead(p2, q) && p2.blockSize100k == p.blockSize100k && p2.storedBlockCRC == p.storedBlockCRC
    requires p2.randomised == p.randomised && p2.origPtr == p.origPtr && p2.inUse == p.inUse
    ensures SameHead(p, q)
  {
  }

  lemma DataReady(p: Parser, c: Coded)
    requires CodedOk(c, p.blockSize100k) && p.inUse == c.inUse
    ensures forall x: nat | x < |c.syms| :: SymbolOk(c, x)
    ensures 2 <= |c.lens| && 1 <= |c.syms| && |c.inUse| == 256 && BlockMax(p) == 100000 * p.blockSize100k
    ensures forall t | 0 <= t < |c.lens| :: c.lens[t] != [] && c.lens[t][0] >= 0
  {
    hide KraftSum, Numbering;
    forall x: nat | x < |c.syms|
      ensures SymbolOk(c, x)
    {
      CodedSymbol(c, p.blockSize100k, x);
    }
    TableSizes(p, c);
  }

  lemma TabledIs(c: Coded, k: nat, rest: seq<bool>)
    requires CodedOk(c, k) && forall x: nat | x < |c.syms| :: SymbolOk(c, x)
    requires forall t | 0 <= t < |c.lens| :: c.lens[t] != [] && c.lens[t][0] >= 0
    ensures TabledThen(c, k, rest) == TablesThen(c.lens, DataThen(c, 0, rest))
  {
    hide TablesThen, DataThen, CodedOk, SymbolOk;
  }

  /** The state when the first symbol is about to be fetched. */
  lemma DataStart(p1: Parser, c: Coded) returns (p2: Parser)
    requires CodedOk(c, p1.blockSize100k) && p1.at == Coding2
    requires p1.inUse == c.inUse && p1.lens == c.lens && p1.origPtr == c.origPtr
    requires p1.selector == c.selectors && p1.nSelectors == |c.selectors|
    requires |c.inUse| == 256 && |Entries(c)| <= 100000 * p1.blockSize100k
    ensures StartData(p1) == BeginSymbol(p2) && Fits(c, p2, 0) && Coming(c, p2, 0) == Entries(c) && p2.out == []
    ensures p2.blockSize100k == p1.blockSize100k && p2.storedBlockCRC == p1.storedBlockCRC
    ensures p2.randomised == p1.randomised && p2.origPtr == p1.origPtr && p2.inUse == p1.inUse
  {
    hide BeginSymbol, Unsymbols, Numbering, ValidLengths, CodedOk;
    p2 := p1.(groupNo := -1, groupPos := 0, inRun := false, es := 0, N := 0, list := Identity(256), out := []);
    assert c.syms[0..] == c.syms;
    SizesOf(c, p1.blockSize100k);
  }

  lemma SizesOf(c: Coded, k: nat)
    requires CodedOk(c, k)
    ensures |c.inUse| == 256
  {
  }

  lemma TableSizes(p: Parser, c: Coded)
    requires CodedOk(c, p.blockSize100k) && p.inUse == c.inUse
    ensures forall t | 0 <= t < |c.lens| ::
      |c.lens[t]| == AlphaSize(p) && forall i | 0 <= i < |c.lens[t]| :: 1 <= c.lens[t][i] <= 20
  {
    hide KraftSum, Numbering;
  }

  lemma {:induction false} ParseWhole(p: Parser, c: Coded, rest: seq<bool>) returns (q: Parser)
    requires p.at == BlkHdr(1) && CodedOk(c, p.blockSize100k)
    requires |Entries(c)| <= BlockMax(p) && c.origPtr < |Entries(c)|
    ensures Drive(p, BlockThen(c, p.blockSize100k, rest)) == Drive(q, rest)
    ensures q.at == Output && q.blockSize100k == p.blockSize100k && q.storedBlockCRC == c.crc && !q.randomised
    ensures q.origPtr == c.origPtr && q.out == Mapped(c.inUse, Entries(c))
  {
    hide Drive, StartData, UndoSelectors, TabledThen, UnaryThen, GroupsThen, BytesThen, Entries, Mapped, Numbering, BLOCKMAGIC;
    hide ValidLengths, Bin;
    var k := p.blockSize100k;
    Pow2Values();
    hide Pow2;
    ParseHead(p, c.crc, c.origPtr, MappedThen(c, k, rest));
    var p1 := p.(at := Mapping1, storedBlockCRC := c.crc, randomised := false, origPtr := c.origPtr, inUse16 := [],
                 inUse := seq(256, _ => false));
    var p2 := ParseMapping(p1, c.inUse, SelectedThen(c, k, rest));
    IdentityPermutes(|c.lens|);
    ParseSelected(p2, |c.lens|, c.selectors, TabledThen(c, k, rest));
    var p3 := p2.(at := Coding1, nGroups := |c.lens|, nSelectors := |c.selectors|, j := 0, lens := [],
                  selector := c.selectors, selectorMtf := SelectorMtf(Identity(|c.lens|), c.selectors));
    q := ParseTabled(p3, c, rest);
  }

  // ---------- the column ----------

  /** Entries of the list that are never asked for do not matter. */
  lemma {:induction false} ShorterList(list: seq<int>, m: nat, eob: int, es: nat, N: nat, syms: seq<int>)
    requires 0 < m <= |list| && eob == m + 1 && forall x | 0 <= x < |syms| :: 0 <= syms[x] <= m + 1
    ensures Unsymbols(list, eob, es, N, syms) == Unsymbols(list[..m], eob, es, N, syms)
    decreases |syms|
  {
    if syms == [] || syms[0] == eob {
    } else if syms[0] == RUNA || syms[0] == RUNB {
      ShorterList(list, m, eob, if syms[0] == RUNA then es + N else es + 2 * N, 2 * N, syms[1..]);
    } else {
      var k := syms[0] - 1;
      assert ToFront(list, k)[..m] == ToFront(list[..m], k);
      ShorterList(ToFront(list, k), m, eob, 0, 1, syms[1..]);
    }
  }

  lemma {:induction false} UsedAt(inUse: seq<bool>, n: nat, c: nat)
    requires c < n <= |inUse| && inUse[c]
    ensures Numbering(inUse, c) < |SeqToUnseq(inUse, n)| && SeqToUnseq(inUse, n)[Numbering(inUse, c)] == c
  {
    if c < n - 1 {
      UsedAt(inUse, n - 1, c);
    }
  }

  /** Decoding the symbols of a block gives the last column of its sorted rotations. */
  lemma ColumnBack(c: Coded, b: seq<int>, p: seq<int>)
    requires |p| == |b| > 0 && |c.inUse| == 256 && InUse(b, c.inUse) && forall i | 0 <= i < |p| :: 0 <= p[i] < |b|
    requires c.syms == BlockSymbols(b, p, c.inUse)
    ensures |Entries(c)| == |b| && Mapped(c.inUse, Entries(c)) == LastColumn(b, p)
    ensures var m := Numbering(c.inUse, 256);
      m > 0 && 1 <= |c.syms| <= |b| + 1 && (forall x | 0 <= x < |c.syms| :: 0 <= c.syms[x] <= m + 1)
      && c.syms[|c.syms| - 1] == m + 1 && forall x | 0 <= x < |c.syms| - 1 :: c.syms[x] != m + 1
  {
    var m, u := Numbering(c.inUse, 256), ColumnOf(b, p, c.inUse);
    hide Unsymbols, ColumnOf, Symbols, Numbering, Mapped, LastColumn, IsPermutation, InUse, Column;
    BlockSymbolsAre(b, p, c.inUse);
    SymbolsBound(Identity(m), m, 0, u);
    EntriesBack(c, m, u);
    MappedColumn(b, p, c.inUse);
  }

  lemma EntriesBack(c: Coded, m: nat, u: seq<int>)
    requires |c.inUse| == 256 && m == Numbering(c.inUse, 256) > 0 && Column(u, m) && Listing(Identity(m), m)
    requires c.syms == Symbols(Identity(m), m, 0, u) + [m + 1]
    requires forall x | 0 <= x < |c.syms| :: 0 <= c.syms[x] <= m + 1
    ensures Entries(c) == u
  {
    hide Unsymbols, Symbols, IsPermutation;
    NumberingBound(c.inUse);
    SymbolsDecoded(Identity(m), m, 0, u);
    ShorterList(Identity(256), m, m + 1, 0, 1, c.syms);
    assert Identity(256)[..m] == Identity(m);
    assert Repeat(Identity(m)[0], 0) + u == u;
  }

  lemma MappedColumn(b: seq<int>, p: seq<int>, inUse: seq<bool>)
    requires |p| == |b| && |inUse| == 256 && InUse(b, inUse) && forall i | 0 <= i < |p| :: 0 <= p[i] < |b|
    ensures Mapped(inUse, ColumnOf(b, p, inUse)) == LastColumn(b, p)
  {
    hide Numbering;
    forall i | 0 <= i < |b|
      ensures Mapped(inUse, ColumnOf(b, p, inUse))[i] == LastColumn(b, p)[i]
    {
      var ch := b[Before(p[i], |b|)];
      assert inUse[ch];
      UsedAt(inUse, 256, ch);
    }
  }
}
