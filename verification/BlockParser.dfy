/**
 * BZ2_decompress as a machine: between two fetches of bits everything it remembers is in the save area and the tables
 * of DState, so a state is a value, and one step takes the next fetched number to the next state.
 */
module BlockParser {
  import Bits
  import opened CanonicalCodes
  import opened Counting
  import opened MoveToFront
  import opened MtfCoding
  import opened Placement
  import opened PrefixCodes
  import opened Words

  const DATA_ERROR := -4        // BZ_DATA_ERROR
  const DATA_ERROR_MAGIC := -5  // BZ_DATA_ERROR_MAGIC
  const GROUP := 50             // BZ_G_SIZE
  const RUNLIMIT := 0x20_0000   // 2*1024*1024

  /**
   * No return code of the source: the machine stops where the source goes on in a way that is not modelled. Its parser
   * does so when it is about to write past selectorMtf.
   */
  const OUTSIDE := -100

  /** Where the machine fetches next; BZ_X_MTF_1, 3, 5 and 2, 4, 6 are told apart by inRun. */
  datatype Label =
    Magic(k: nat) | BlkHdr(k: nat) | Bcrc(k: nat) | RandBit | OrigPtr(k: nat) | Mapping1 | Mapping2
    | Selector1 | Selector2 | Selector3 | Coding1 | Coding2 | Coding3 | MtfFirst | MtfMore
    | EndHdr(k: nat) | Ccrc(k: nat) | Output | Idle | Failed(code: int)

  /**
   * The save area and the block's tables. seqs stand for arrays filled in order; list is the move-to-front list, out the
   * column decoded so far (tt or ll16), storedCRC and so on as in DState.
   *
   * Where a step looks into a seq it first asks whether the place is there, which the source does not. That only makes
   * the steps total: ParserBounds shows that in a run such a question is never answered with no.
   */
  datatype Parser = Parser(
    at: Label, blockSize100k: nat, storedBlockCRC: nat, randomised: bool, origPtr: nat,
    inUse16: seq<bool>, inUse: seq<bool>, i: nat, j: nat, nGroups: nat, nSelectors: nat,
    selectorMtf: seq<int>, selector: seq<int>, curr: int, len: seq<int>, lens: seq<seq<int>>,
    groupNo: int, groupPos: nat, zn: nat, zvec: nat, inRun: bool, es: int, N: nat,
    list: seq<int>, out: seq<int>, storedCombinedCRC: nat)

  function Fresh(): Parser {
    Parser(Magic(1), 0, 0, false, 0, [], [], 0, 0, 0, 0, [], [], 0, [], [], 0, 0, 0, 0, false, 0, 0, Identity(256), [], 0)
  }

  function Fail(p: Parser, code: int): Parser {
    p.(at := Failed(code))
  }

  /** How many bits are fetched next; 0 when the machine has stopped. */
  function Need(p: Parser): nat {
    match p.at
    case Magic(_) => 8
    case BlkHdr(_) => 8
    case Bcrc(_) => 8
    case RandBit => 1
    case OrigPtr(_) => 8
    case Mapping1 => 1
    case Mapping2 => 1
    case Selector1 => 3
    case Selector2 => 15
    case Selector3 => 1
    case Coding1 => 5
    case Coding2 => 1
    case Coding3 => 1
    case MtfFirst => p.zn
    case MtfMore => 1
    case EndHdr(_) => 8
    case Ccrc(_) => 8
    case Output => 0
    case Idle => 0
    case Failed(_) => 0
  }

  // ---------- makeMaps_d ----------

  /** The characters in use below c, in order: seqToUnseq. */
  function SeqToUnseq(inUse: seq<bool>, c: nat): (r: seq<int>)
    requires c <= |inUse|
    ensures |r| <= c && |r| == Numbering(inUse, c)
    ensures forall x | 0 <= x < |r| :: 0 <= r[x] < c
  {
    if c == 0 then [] else SeqToUnseq(inUse, c - 1) + (if inUse[c - 1] then [c - 1] else [])
  }

  function AlphaSize(p: Parser): nat {
    |SeqToUnseq(p.inUse, |p.inUse|)| + 2
  }

  // ---------- one step, outside the block data ----------

  function HdrByte(k: nat): int {
    if k == 1 then 0x31 else if k == 2 then 0x41 else if k == 3 then 0x59 else if k == 4 then 0x26
    else if k == 5 then 0x53 else 0x59
  }

  function EndByte(k: nat): int {
    if k == 2 then 0x72 else if k == 3 then 0x45 else if k == 4 then 0x38 else if k == 5 then 0x50 else 0x90
  }

  function MagicByte(k: nat): int {
    if k == 1 then 0x42 else if k == 2 then 0x5a else 0x68  // 'B', 'Z', 'h'
  }

  /** The next group of 16 characters in use, from i on; 16 if there is none. */
  function NextUsed16(used: seq<bool>, i: nat): (r: nat)
    ensures i <= r
    decreases |used| - i
  {
    if i >= |used| || used[i] then i else NextUsed16(used, i + 1)
  }

  /** Go on with group i of the mapping table, or, all groups read, with the selectors. */
  function StartMapping2(p: Parser, i: nat): Parser {
    var k := NextUsed16(p.inUse16, i);
    if k < 16 then p.(at := Mapping2, i := k, j := 0)
    else if AlphaSize(p) == 2 then Fail(p, DATA_ERROR)
    else p.(at := Selector1)
  }

  /** Undo the move-to-front coding of the selectors. */
  function UndoSelectors(pos: seq<int>, mtf: seq<int>): (r: seq<int>)
    ensures |r| == |mtf|
    decreases |mtf|
  {
    if mtf == [] then []
    else if 0 <= mtf[0] < |pos| then
      [pos[mtf[0]]] + UndoSelectors([pos[mtf[0]]] + pos[..mtf[0]] + pos[mtf[0] + 1..], mtf[1..])
    else [0] + UndoSelectors(pos, mtf[1..])
  }

  /** A length is checked before each bit of its table. */
  function CheckLength(p: Parser): Parser {
    if p.curr < 1 || p.curr > 20 then Fail(p, DATA_ERROR) else p.(at := Coding2)
  }

  function Least(lens: seq<int>): int
    requires lens != []
  {
    if |lens| == 1 then lens[0] else
      var m := Least(lens[..|lens| - 1]);
      if lens[|lens| - 1] < m then lens[|lens| - 1] else m
  }

  /** The code lengths of the table in use. */
  function Table(p: Parser): seq<int> {
    if 0 <= p.groupNo < |p.selector| && 0 <= p.selector[p.groupNo] < |p.lens| then p.lens[p.selector[p.groupNo]] else []
  }

  /** minLens of a table. */
  function MinLen(lens: seq<int>): nat {
    if lens == [] || Least(lens) < 0 then 0 else Least(lens)
  }

  /** GET_MTF_VAL up to its first fetch. */
  function BeginSymbol(p: Parser): Parser {
    var q := if p.groupPos == 0 then p.(groupNo := p.groupNo + 1, groupPos := GROUP) else p;
    if q.groupNo >= q.nSelectors then Fail(p, DATA_ERROR)
    else q.(groupPos := q.groupPos - 1, zn := MinLen(Table(q)), at := MtfFirst)
  }

  function StartData(p: Parser): Parser {
    BeginSymbol(p.(groupNo := -1, groupPos := 0, inRun := false, es := 0, N := 0, list := Identity(256), out := []))
  }

  /** Every label but those of the block data. */
  function HeaderStep(p: Parser, v: nat): Parser {
    match p.at
    case Magic(k) =>
      if k < 4 then (if v == MagicByte(k) then p.(at := Magic(k + 1)) else Fail(p, DATA_ERROR_MAGIC))
      else if v < 0x31 || v > 0x39 then Fail(p, DATA_ERROR_MAGIC)
      else p.(at := BlkHdr(1), blockSize100k := v - 0x30)
    case BlkHdr(k) =>
      if k == 1 && v == 0x17 then p.(at := EndHdr(2))
      else if v != HdrByte(k) then Fail(p, DATA_ERROR)
      else if k < 6 then p.(at := BlkHdr(k + 1))
      else p.(at := Bcrc(1), storedBlockCRC := 0)
    case Bcrc(k) =>
      var q := p.(storedBlockCRC := (p.storedBlockCRC * 256 + v) % 0x1_0000_0000);
      if k < 4 then q.(at := Bcrc(k + 1)) else q.(at := RandBit)
    case RandBit => p.(at := OrigPtr(1), randomised := v == 1, origPtr := 0)
    case OrigPtr(k) =>
      var q := p.(origPtr := p.origPtr * 256 + v);
      if k < 3 then q.(at := OrigPtr(k + 1))
      else if q.origPtr > 10 + 100000 * q.blockSize100k then Fail(q, DATA_ERROR)
      else q.(at := Mapping1, inUse16 := [], inUse := seq(256, _ => false))
    case Mapping1 =>
      var q := p.(inUse16 := p.inUse16 + [v == 1]);
      if |q.inUse16| < 16 then q else StartMapping2(q, 0)
    case Mapping2 =>
      var x := p.i * 16 + p.j;
      var q := if v == 1 && x < |p.inUse| then p.(inUse := p.inUse[x := true]) else p;
      if p.j + 1 < 16 then q.(j := p.j + 1) else StartMapping2(q, p.i + 1)
    case Selector1 => if v < 2 || v > 6 then Fail(p, DATA_ERROR) else p.(at := Selector2, nGroups := v)
    case Selector2 =>
      if v < 1 then Fail(p, DATA_ERROR)
      else p.(at := Selector3, nSelectors := v, selectorMtf := [], j := 0)
    case Selector3 =>
      if v == 0 && |p.selectorMtf| >= MAXSELECTORS then Fail(p, OUTSIDE)
      else if v == 0 then
        var q := p.(selectorMtf := p.selectorMtf + [p.j], j := 0);
        if |q.selectorMtf| < q.nSelectors then q
        else q.(at := Coding1, selector := UndoSelectors(Identity(q.nGroups), q.selectorMtf), lens := [])
      else if p.j + 1 >= p.nGroups then Fail(p, DATA_ERROR)
      else p.(j := p.j + 1)
    case Coding1 => CheckLength(p.(curr := v, len := []))
    case Coding2 =>
      if v == 0 then
        var q := p.(len := p.len + [p.curr]);
        if |q.len| < AlphaSize(q) then q
        else
          var r := q.(lens := q.lens + [q.len], len := []);
          if |r.lens| < r.nGroups then r.(at := Coding1) else StartData(r)
      else p.(at := Coding3)
    case Coding3 => CheckLength(p.(curr := if v == 0 then p.curr + 1 else p.curr - 1))
    case MtfFirst => p
    case MtfMore => p
    case EndHdr(k) =>
      if v != EndByte(k) then Fail(p, DATA_ERROR)
      else if k < 6 then p.(at := EndHdr(k + 1))
      else p.(at := Ccrc(1), storedCombinedCRC := 0)
    case Ccrc(k) =>
      var q := p.(storedCombinedCRC := (p.storedCombinedCRC * 256 + v) % 0x1_0000_0000);
      if k < 4 then q.(at := Ccrc(k + 1)) else q.(at := Idle)
    case Output => p
    case Idle => p
    case Failed(_) => p
  }

  // ---------- one step in the block data ----------

  function BlockMax(p: Parser): nat {
    100000 * p.blockSize100k
  }

  function Unseq(p: Parser, c: int): int {
    var s := SeqToUnseq(p.inUse, |p.inUse|);
    if 0 <= c < |s| then s[c] else 0
  }

  /** A run has ended: its character, es + 1 times. */
  function EndRun(p: Parser): Parser {
    if !p.inRun then p
    else if p.es + 1 < 0 || p.list == [] || |p.out| + p.es + 1 > BlockMax(p) then Fail(p, DATA_ERROR)
    else p.(inRun := false, out := p.out + Repeat(Unseq(p, p.list[0]), p.es + 1))
  }

  /** A decoded symbol: RUNA, RUNB, the end of the block, or a position on the list. */
  function Symbol(p: Parser, sym: nat): Parser {
    if sym == RUNA || sym == RUNB then
      var q := if p.inRun then p else p.(inRun := true, es := -1, N := 1);
      if q.N >= RUNLIMIT then Fail(q, DATA_ERROR)
      else BeginSymbol(q.(es := q.es + (sym + 1) * q.N, N := 2 * q.N))
    else
      var q := EndRun(p);
      if q.at.Failed? then q
      else if sym == AlphaSize(p) - 1 then
        if q.origPtr >= |q.out| then Fail(q, DATA_ERROR) else q.(at := Output)
      else if |q.out| >= BlockMax(p) || sym - 1 >= |q.list| then Fail(q, DATA_ERROR)
      else
        var uc := q.list[sym - 1];
        BeginSymbol(q.(list := [uc] + q.list[..sym - 1] + q.list[sym..], out := q.out + [Unseq(q, uc)]))
  }

  function Greatest(lens: seq<int>): int
    requires lens != []
  {
    if |lens| == 1 then lens[0] else
      var m := Greatest(lens[..|lens| - 1]);
      if lens[|lens| - 1] > m then lens[|lens| - 1] else m
  }

  /** limit[n]. */
  ghost function LimitAt(lens: seq<int>, n: nat): int {
    if lens != [] && Least(lens) <= n <= Greatest(lens) then First(lens, n) + Count(lens, |lens|, n) - 1 else 0
  }

  /** perm[zvec - base[n]]; None outside the table. */
  datatype Lookup = Found(sym: nat) | NoSymbol

  ghost function SymbolAt(lens: seq<int>, n: nat, zvec: nat): Lookup {
    var k := if lens == [] then -1 else zvec - BaseOf(lens, Least(lens), Greatest(lens), n);
    if exists s :: 0 <= s < |lens| && Place(lens, s) == k then
      var s :| 0 <= s < |lens| && Place(lens, s) == k;
      Found(s)
    else NoSymbol
  }

  /** The search of GET_MTF_VAL after a fetch. */
  ghost function CheckCode(p: Parser): Parser {
    if p.zn > 20 then Fail(p, DATA_ERROR)
    else if p.zvec <= LimitAt(Table(p), p.zn) then
      var r := SymbolAt(Table(p), p.zn, p.zvec);
      if r.Found? then Symbol(p, r.sym) else Fail(p, DATA_ERROR)
    else p.(zn := p.zn + 1, at := MtfMore)
  }

  ghost function Step(p: Parser, v: nat): Parser {
    match p.at
    case MtfFirst => CheckCode(p.(zvec := v))
    case MtfMore => CheckCode(p.(zvec := 2 * p.zvec + v))
    case _ => HeaderStep(p, v)
  }

  // ---------- whole runs ----------

  /** As far as the bits last: the state reached, and the bits not yet used. */
  ghost function Drive(p: Parser, bits: seq<bool>): (r: (Parser, seq<bool>))
    decreases |bits|
  {
    if Need(p) == 0 || |bits| < Need(p) then (p, bits)
    else Drive(Step(p, Val(bits[..Need(p)])), bits[Need(p)..])
  }

  /** However the input is cut, the machine ends in the same state with the same bits in hand. */
  lemma {:induction false} RunInPieces(p: Parser, s: seq<bool>, r: seq<bool>)
    ensures Drive(p, s + r) == Drive(Drive(p, s).0, Drive(p, s).1 + r)
    decreases |s|
  {
    hide Step;
    var n := Need(p);
    if n != 0 && |s| >= n {
      assert (s + r)[..n] == s[..n] && (s + r)[n..] == s[n..] + r;
      RunInPieces(Step(p, Val(s[..n])), s[n..], r);
    }
  }

  lemma RunOne(p: Parser, v: nat, n: nat, rest: seq<bool>)
    requires Need(p) == n > 0 && v < Bits.Pow2(n)
    ensures Drive(p, Bin(v, n) + rest) == Drive(Step(p, v), rest)
  {
    hide Step;
    ValOfBin(v, n);
    var s := Bin(v, n) + rest;
    assert s[..n] == Bin(v, n) && s[n..] == rest;
  }

  lemma RunBit(p: Parser, b: bool, rest: seq<bool>)
    requires Need(p) == 1
    ensures Drive(p, [b] + rest) == Drive(Step(p, if b then 1 else 0), rest)
  {
    hide Step;
    var s := [b] + rest;
    assert s[..1] == [b] && s[1..] == rest;
    assert Val([b]) == if b then 1 else 0 by {
      ValAppend([], b);
      assert [] + [b] == [b];
    }
  }
}
