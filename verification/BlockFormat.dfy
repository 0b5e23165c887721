/** What one compressed block looks like in the stream, bit by bit. */
module BlockFormat {
  import opened Bits
  import opened CanonicalCodes
  import opened MoveToFront
  import opened MtfCoding
  import opened Permutations
  import opened PrefixCodes
  import opened Words

  /** Everything a block says: syms are the move-to-front symbols, end mark included, selectors the table per group. */
  datatype Coded = Coded(crc: nat, origPtr: nat, inUse: seq<bool>, selectors: seq<int>, lens: seq<seq<int>>,
                         syms: seq<int>)

  /** Bits of the given bytes, then rest. */
  function BytesThen(bytes: seq<int>, rest: seq<bool>): seq<bool>
    requires forall i | 0 <= i < |bytes| :: 0 <= bytes[i] < 256
  {
    if bytes == [] then rest else Bin(bytes[0], 8) + BytesThen(bytes[1..], rest)
  }

  /** The four bytes of bsPutUInt32. */
  function WordBytes(u: nat): (r: seq<int>)
    ensures |r| == 4 && forall i | 0 <= i < 4 :: 0 <= r[i] < 256
  {
    [u / 16777216 % 256, u / 65536 % 256, u / 256 % 256, u % 256]
  }

  const BLOCKMAGIC := [0x31, 0x41, 0x59, 0x26, 0x53, 0x59]
  const ENDMAGIC := [0x17, 0x72, 0x45, 0x38, 0x50, 0x90]

  // ---------- the mapping table ----------

  function AnyUsed(inUse: seq<bool>, from: nat, n: nat): (r: bool)
    ensures r <==> exists x :: from <= x < from + n && x < |inUse| && inUse[x]
  {
    if n == 0 then false else AnyUsed(inUse, from, n - 1) || (from + n - 1 < |inUse| && inUse[from + n - 1])
  }

  function Used16(inUse: seq<bool>): (r: seq<bool>)
    ensures |r| == 16 && forall i | 0 <= i < 16 :: r[i] == AnyUsed(inUse, 16 * i, 16)
  {
    seq(16, i requires 0 <= i < 16 => AnyUsed(inUse, 16 * i, 16))
  }

  /** The groups of 16 that are in use at all, from group i on. */
  function GroupsThen(inUse: seq<bool>, i: nat, rest: seq<bool>): seq<bool>
    requires |inUse| == 256 && i <= 16
    decreases 16 - i
  {
    if i == 16 then rest
    else if Used16(inUse)[i] then inUse[16 * i..16 * i + 16] + GroupsThen(inUse, i + 1, rest)
    else GroupsThen(inUse, i + 1, rest)
  }

  // ---------- the selectors ----------

  function Ones(n: nat): (r: seq<bool>)
    ensures |r| == n
  {
    seq(n, _ => true)
  }

  function UnaryThen(mtf: seq<int>, rest: seq<bool>): seq<bool>
    requires forall i | 0 <= i < |mtf| :: mtf[i] >= 0
  {
    if mtf == [] then rest else Ones(mtf[0]) + ([false] + UnaryThen(mtf[1..], rest))
  }

  /** selectorMtf: positions on a list that is moved to front. */
  ghost function SelectorMtf(list: seq<int>, sel: seq<int>): (r: seq<int>)
    requires IsPermutation(list) && forall i | 0 <= i < |sel| :: 0 <= sel[i] < |list|
    ensures |r| == |sel| && forall i | 0 <= i < |r| :: 0 <= r[i] < |list|
    decreases |sel|
  {
    if sel == [] then [] else
      ListingHas(list, |list|, sel[0]);
      ToFrontListing(list, |list|, IndexOf(list, sel[0]));
      [IndexOf(list, sel[0])] + SelectorMtf(ToFront(list, IndexOf(list, sel[0])), sel[1..])
  }

  // ---------- the coding tables ----------

  /** From length a to length b in steps of one. */
  function StepsThen(a: int, b: int, rest: seq<bool>): seq<bool>
    decreases if a < b then b - a else a - b
  {
    if a < b then [true, false] + StepsThen(a + 1, b, rest)
    else if a > b then [true, true] + StepsThen(a - 1, b, rest)
    else rest
  }

  function LengthsThen(curr: int, lens: seq<int>, rest: seq<bool>): seq<bool>
    decreases |lens|
  {
    if lens == [] then rest
    else StepsThen(curr, lens[0], [false] + LengthsThen(lens[0], lens[1..], rest))
  }

  function TablesThen(lens: seq<seq<int>>, rest: seq<bool>): seq<bool>
    requires forall t | 0 <= t < |lens| :: lens[t] != [] && lens[t][0] >= 0
    decreases |lens|
  {
    if lens == [] then rest
    else Bin(lens[0][0], 5) + LengthsThen(lens[0][0], lens[0], TablesThen(lens[1..], rest))
  }

  // ---------- the data ----------

  /** The table symbol number x is coded with. */
  ghost predicate TableOk(c: Coded, x: nat) {
    && x / 50 < |c.selectors| && 0 <= c.selectors[x / 50] < |c.lens|
  }

  ghost function TableFor(c: Coded, x: nat): seq<int>
    requires TableOk(c, x)
  {
    c.lens[c.selectors[x / 50]]
  }

  ghost predicate SymbolOk(c: Coded, x: nat)
    requires x < |c.syms|
  {
    && TableOk(c, x) && 0 <= c.syms[x] < |TableFor(c, x)| && 1 <= TableFor(c, x)[c.syms[x]] <= LONGEST
  }

  ghost function DataThen(c: Coded, x: nat, rest: seq<bool>): seq<bool>
    requires x <= |c.syms| && forall y: nat | x <= y < |c.syms| :: SymbolOk(c, y)
    decreases |c.syms| - x
  {
    if x == |c.syms| then rest
    else
      assert SymbolOk(c, x);
      var l, s := TableFor(c, x), c.syms[x];
      Bin(CodeOf(l, s), l[s]) + DataThen(c, x + 1, rest)
  }

  // ---------- the whole block ----------

  /** What a block of at most 100000 * blockSize100k bytes may say. */
  ghost predicate CodedOk(c: Coded, blockSize100k: nat) {
    && c.crc < 0x1_0000_0000 && 1 <= blockSize100k <= 9 && c.origPtr <= 10 + 100000 * blockSize100k
    && |c.inUse| == 256 && Numbering(c.inUse, 256) > 0
    && 2 <= |c.lens| <= 6
    && (forall t | 0 <= t < |c.lens| :: |c.lens[t]| == Numbering(c.inUse, 256) + 2 && ValidLengths(c.lens[t]))
    && 1 <= |c.selectors| <= MAXSELECTORS
    && (forall i | 0 <= i < |c.selectors| :: 0 <= c.selectors[i] < |c.lens|)
    && 1 <= |c.syms| <= 50 * |c.selectors|
    && (forall x | 0 <= x < |c.syms| :: 0 <= c.syms[x] <= Numbering(c.inUse, 256) + 1)
    && c.syms[|c.syms| - 1] == Numbering(c.inUse, 256) + 1
    && forall x | 0 <= x < |c.syms| - 1 :: c.syms[x] != Numbering(c.inUse, 256) + 1
  }

  lemma CodedSymbol(c: Coded, k: nat, x: nat)
    requires CodedOk(c, k) && x < |c.syms|
    ensures SymbolOk(c, x) && ValidLengths(TableFor(c, x)) && |TableFor(c, x)| == Numbering(c.inUse, 256) + 2
  {
    hide KraftSum;
    var l := c.lens[c.selectors[x / 50]];
    assert 1 <= l[c.syms[x]] <= LONGEST;
  }

  /** Bits of the block, then rest. */
  ghost function BlockThen(c: Coded, k: nat, rest: seq<bool>): seq<bool>
    requires CodedOk(c, k)
  {
    BytesThen(BLOCKMAGIC + WordBytes(c.crc),
      [false] + (Bin(c.origPtr, 24) + MappedThen(c, k, rest)))
  }

  ghost function MappedThen(c: Coded, k: nat, rest: seq<bool>): seq<bool>
    requires CodedOk(c, k)
  {
    Used16(c.inUse) + GroupsThen(c.inUse, 0, SelectedThen(c, k, rest))
  }

  ghost function SelectedThen(c: Coded, k: nat, rest: seq<bool>): seq<bool>
    requires CodedOk(c, k)
  {
    Bin(|c.lens|, 3) + (Bin(|c.selectors|, 15)
      + UnaryThen(SelectorMtf(Identity(|c.lens|), c.selectors), TabledThen(c, k, rest)))
  }

  ghost function TabledThen(c: Coded, k: nat, rest: seq<bool>): seq<bool>
    requires CodedOk(c, k)
  {
    forall x: nat | x < |c.syms| ensures SymbolOk(c, x) { CodedSymbol(c, k, x); }
    TablesThen(c.lens, DataThen(c, 0, rest))
  }
}
