/** The parser reads back the symbols of a block, and with them the column they stand for. */
module ParseData {
  import opened Bits
  import opened BlockFormat
  import opened BlockParser
  import opened CanonicalCodes
  import opened Counting
  import opened MoveToFront
  import opened MtfCoding
  import opened ParseHeader
  import opened Permutations
  import opened Placement
  import opened PrefixCodes
  import opened Words

  // ---------- one code ----------

  lemma {:induction false} LeastIsLeast(lens: seq<int>)
    requires lens != []
    ensures Least(lens) in lens && forall i | 0 <= i < |lens| :: Least(lens) <= lens[i]
  {
    if |lens| > 1 {
      LeastIsLeast(lens[..|lens| - 1]);
    }
  }

  lemma {:induction false} GreatestIsGreatest(lens: seq<int>)
    requires lens != []
    ensures Greatest(lens) in lens && forall i | 0 <= i < |lens| :: lens[i] <= Greatest(lens)
  {
    if |lens| > 1 {
      GreatestIsGreatest(lens[..|lens| - 1]);
    }
  }

  /** A proper prefix of the bits of a code is beyond the limit of its length. */
  lemma PrefixTooBig(lens: seq<int>, s: nat, n: nat)
    requires ValidLengths(lens) && s < |lens| && n < lens[s]
    ensures Val(Bin(CodeOf(lens, s), lens[s])[..n]) >= First(lens, n) + Count(lens, |lens|, n)
  {
    hide First, Count, KraftSum, Val, Bin, Pow2, CodeOf;
    CodeFits(lens, s);
    PrefixBeyond(lens, s, n);
    ValOfPrefix(CodeOf(lens, s), lens[s], n);
  }

  lemma ValOfPrefix(v: nat, len: nat, n: nat)
    requires n <= len && v < Pow2(len)
    ensures Val(Bin(v, len)[..n]) == v / Pow2(len - n)
  {
    hide Val, Bin, Pow2;
    var bits := Bin(v, len);
    var a, z := bits[..n], bits[n..];
    assert bits == a + z;
    ValConcat(a, z);
    ValOfBin(v, len);
    BinOfVal(z);
    DivideExactly(Val(a), Pow2(len - n), Val(z), v);
  }

  lemma DivideExactly(a: nat, p: nat, z: nat, v: nat)
    requires v == a * p + z && z < p
    ensures v / p == a
  {
    var q := v / p;
    assert v == q * p + v % p && v % p < p;
    if q < a {
      MulMonotone(q + 1, a, p);
      OneMore(q, p);
    } else if q > a {
      MulMonotone(a + 1, q, p);
      OneMore(a, p);
    }
  }

  lemma LimitPassed(lens: seq<int>, s: nat, n: nat)
    requires ValidLengths(lens) && s < |lens| && Least(lens) <= n < lens[s]
    ensures n <= 20 && Val(Bin(CodeOf(lens, s), lens[s])[..n]) > LimitAt(lens, n)
  {
    hide KraftSum;
    LeastIsLeast(lens);
    GreatestIsGreatest(lens);
    PrefixTooBig(lens, s, n);
  }

  lemma CodeRecognised(lens: seq<int>, s: nat)
    requires ValidLengths(lens) && s < |lens|
    ensures CodeOf(lens, s) <= LimitAt(lens, lens[s]) && SymbolAt(lens, lens[s], CodeOf(lens, s)) == Found(s)
  {
    hide KraftSum, First, Count, Below;
    LeastIsLeast(lens);
    GreatestIsGreatest(lens);
    CodeFits(lens, s);
    PlacesPermute(lens);
    var k := Place(lens, s);
    assert CodeOf(lens, s) - BaseOf(lens, Least(lens), Greatest(lens), lens[s]) == k;
    forall r | 0 <= r < |lens| && Place(lens, r) == k
      ensures r == s
    {
      assert Places(lens)[r] == Places(lens)[s];
      assert r < s || s < r || r == s;
    }
  }

  lemma CheckHit(p: Parser, s: nat)
    requires p.zn <= 20 && p.zvec <= LimitAt(Table(p), p.zn) && SymbolAt(Table(p), p.zn, p.zvec) == Found(s)
    ensures CheckCode(p) == Symbol(p, s)
  {
    hide Symbol, LimitAt, SymbolAt;
  }

  lemma CheckMiss(p: Parser)
    requires p.zn <= 20 && p.zvec > LimitAt(Table(p), p.zn)
    ensures CheckCode(p) == p.(zn := p.zn + 1, at := MtfMore)
  {
    hide Symbol, LimitAt, SymbolAt;
  }

  lemma SameTable(p: Parser, p2: Parser, p3: Parser, bit: nat)
    requires p2 == p.(zn := p.zn + 1, at := MtfMore) && p3 == p2.(zvec := 2 * p.zvec + bit)
    ensures Table(p2) == Table(p3) == Table(p) && Step(p2, bit) == CheckCode(p3) && Need(p2) == 1
  {
    hide CheckCode;
  }

  /** The search from length n on, with the first n bits of the code fetched. */
  lemma {:induction false} ParseRest(p: Parser, s: nat, n: nat, rest: seq<bool>) returns (q: Parser)
    requires ValidLengths(Table(p)) && s < |Table(p)| && Least(Table(p)) <= n <= Table(p)[s]
    requires p.zn == n && p.zvec == Val(Bin(CodeOf(Table(p), s), Table(p)[s])[..n]) && !p.at.Failed?
    ensures Drive(CheckCode(p), Bin(CodeOf(Table(p), s), Table(p)[s])[n..] + rest) == Drive(Symbol(q, s), rest)
    ensures q == p.(at := q.at, zn := q.zn, zvec := q.zvec) && !q.at.Failed?
    decreases Table(p)[s] - n
  {
    hide Drive, Symbol, First, Count, KraftSum, SymbolAt, LimitAt, Least, CheckCode, Step, Val, Bin, Table;
    var lens := Table(p);
    var len, bits := lens[s], Bin(CodeOf(lens, s), lens[s]);
    if n == len {
      CodeFits(lens, s);
      ValOfBin(CodeOf(lens, s), len);
      assert bits[..len] == bits && bits[len..] + rest == rest;
      CodeRecognised(lens, s);
      CheckHit(p, s);
      q := p;
    } else {
      LimitPassed(lens, s, n);
      var p2 := p.(zn := n + 1, at := MtfMore);
      CheckMiss(p);
      assert bits[n..] + rest == [bits[n]] + (bits[n + 1..] + rest);
      RunBit(p2, bits[n], bits[n + 1..] + rest);
      ValAppend(bits[..n], bits[n]);
      assert bits[..n + 1] == bits[..n] + [bits[n]];
      var p3 := p2.(zvec := 2 * p.zvec + if bits[n] then 1 else 0);
      SameTable(p, p2, p3, if bits[n] then 1 else 0);
      q := ParseRest(p3, s, n + 1, rest);
    }
  }

  /** One whole code. */
  lemma ParseCode(p: Parser, s: nat, rest: seq<bool>) returns (q: Parser)
    requires ValidLengths(Table(p)) && s < |Table(p)| && p.at == MtfFirst && p.zn == Least(Table(p)) >= 1
    ensures Drive(p, Bin(CodeOf(Table(p), s), Table(p)[s]) + rest) == Drive(Symbol(q, s), rest)
    ensures q == p.(at := q.at, zn := q.zn, zvec := q.zvec) && !q.at.Failed?
  {
    hide Drive, Symbol, First, Count, KraftSum, CheckCode, Val, Bin;
    var lens := Table(p);
    var n, bits := Least(lens), Bin(CodeOf(lens, s), lens[s]);
    LeastIsLeast(lens);
    assert bits + rest == bits[..n] + (bits[n..] + rest);
    RunBits(p, bits[..n], bits[n..] + rest);
    q := ParseRest(p.(zvec := Val(bits[..n])), s, n, rest);
  }

  // ---------- the symbols ----------

  /** The parser is about to fetch symbol number x of c. */
  ghost predicate At(c: Coded, p: Parser, x: nat) {
    && CodedOk(c, p.blockSize100k) && x <= |c.syms|
    && p.inUse == c.inUse && p.lens == c.lens && p.selector == c.selectors && p.nSelectors == |c.selectors|
    && p.origPtr == c.origPtr && |p.list| == 256 && !p.at.Failed?
    && p.groupNo == (x + 49) / 50 - 1 && p.groupPos == (x + 49) / 50 * 50 - x
  }

  lemma BeginAt(c: Coded, p: Parser, x: nat)
    requires At(c, p, x) && x < |c.syms|
    ensures SymbolOk(c, x) && Least(TableFor(c, x)) >= 1
    ensures BeginSymbol(p) == p.(groupNo := x / 50, groupPos := 49 - x % 50, zn := Least(TableFor(c, x)), at := MtfFirst)
  {
    hide KraftSum, Numbering, CodedOk, ValidLengths;
    GroupOf(x);
    CodedSymbol(c, p.blockSize100k, x);
    TableParts(c, p.blockSize100k, x);
    BegunTable(p, x / 50, TableFor(c, x));
  }

  lemma TableParts(c: Coded, k: nat, x: nat)
    requires CodedOk(c, k) && x < |c.syms|
    ensures SymbolOk(c, x) && x / 50 < |c.selectors| && 0 <= c.selectors[x / 50] < |c.lens|
    ensures TableFor(c, x) == c.lens[c.selectors[x / 50]] && TableFor(c, x) != [] && Least(TableFor(c, x)) >= 1
  {
    hide KraftSum, Numbering;
    CodedSymbol(c, k, x);
    LeastIsLeast(TableFor(c, x));
  }

  lemma GroupOf(x: nat)
    ensures (x + 49) / 50 == if x % 50 == 0 then x / 50 else x / 50 + 1
    ensures (x + 49) / 50 * 50 - x == if x % 50 == 0 then 0 else 50 - x % 50
  {
  }

  lemma BegunTable(p: Parser, g: nat, t: seq<int>)
    requires g < p.nSelectors && g < |p.selector| && 0 <= p.selector[g] < |p.lens| && p.lens[p.selector[g]] == t
    requires t != [] && Least(t) >= 1
    requires if p.groupPos == 0 then p.groupNo == g - 1 else p.groupNo == g
    ensures BeginSymbol(p) == p.(groupNo := g, groupPos := if p.groupPos == 0 then 49 else p.groupPos - 1,
                                 zn := Least(t), at := MtfFirst)
  {
    hide Least;
  }

  /** Pending zeros, and what the next digit counts. */
  ghost function Zeros0(p: Parser): nat {
    if p.inRun && p.es >= -1 then p.es + 1 else 0
  }

  ghost function Digit0(p: Parser): nat {
    if p.inRun then p.N else 1
  }

  ghost function Mapped(inUse: seq<bool>, s: seq<int>): (r: seq<int>)
    ensures |r| == |s|
  {
    var t := SeqToUnseq(inUse, |inUse|);
    seq(|s|, i requires 0 <= i < |s| => if 0 <= s[i] < |t| then t[s[i]] else 0)
  }

  lemma MappedConcat(inUse: seq<bool>, s: seq<int>, r: seq<int>)
    ensures Mapped(inUse, s + r) == Mapped(inUse, s) + Mapped(inUse, r)
  {
  }

  lemma MappedRepeat(p: Parser, v: int, n: nat)
    ensures Mapped(p.inUse, Repeat(v, n)) == Repeat(Unseq(p, v), n)
    ensures Mapped(p.inUse, [v]) == [Unseq(p, v)]
  {
  }

  /** The column entries symbols x, x + 1, ... still give. */
  ghost function Coming(c: Coded, p: Parser, x: nat): seq<int>
    requires x <= |c.syms| && |p.list| > 0 && |c.inUse| == 256
  {
    Unsymbols(p.list, Numbering(c.inUse, 256) + 1, Zeros0(p), Digit0(p), c.syms[x..])
  }

  ghost predicate Fits(c: Coded, p: Parser, x: nat) {
    && At(c, p, x)
    && (p.inRun ==> p.es >= -1) && Digit0(p) <= Zeros0(p) + 1
    && |p.out| + |Coming(c, p, x)| <= BlockMax(p)
  }

  lemma {:induction false} PendingComes(list: seq<int>, eob: int, es: nat, N: nat, syms: seq<int>)
    requires |list| > 0
    ensures |Unsymbols(list, eob, es, N, syms)| >= es
    decreases |syms|
  {
    if syms != [] && (syms[0] == RUNA || syms[0] == RUNB) {
      PendingComes(list, eob, if syms[0] == RUNA then es + N else es + 2 * N, 2 * N, syms[1..]);
    }
  }

  /** What a symbol does to the state, by its kind. */
  /** The state after a digit of a run length. */
  ghost function AfterDigit(p: Parser, x: nat, sym: int): (q: Parser)
    ensures q.inRun && q.es >= -1 && q.inUse == p.inUse && q.out == p.out && q.list == p.list && q.at == p.at
    ensures q.blockSize100k == p.blockSize100k && q.origPtr == p.origPtr
    ensures Zeros0(q) == Zeros0(p) + (if sym == RUNA then Digit0(p) else 2 * Digit0(p)) && Digit0(q) == 2 * Digit0(p)
  {
    BegunAt(p, x).(inRun := true, es := Zeros0(p) - 1 + (if sym == RUNA then Digit0(p) else 2 * Digit0(p)),
                   N := 2 * Digit0(p))
  }

  lemma SymbolOfDigit(c: Coded, p: Parser, x: nat)
    requires Fits(c, p, x) && x < |c.syms| && (c.syms[x] == RUNA || c.syms[x] == RUNB)
    requires p.groupNo == (x + 49) / 50 - 1
    ensures Symbol(BegunAt(p, x), c.syms[x]) == BeginSymbol(AfterDigit(p, x, c.syms[x]))
    ensures Fits(c, AfterDigit(p, x, c.syms[x]), x + 1)
    ensures Coming(c, AfterDigit(p, x, c.syms[x]), x + 1) == Coming(c, p, x)
  {
    hide BeginSymbol, Numbering, CodedOk, Symbol, Unsymbols, At, AfterDigit, Zeros0, Digit0;
    DigitAt(c, p, x);
    DigitComes(p.list, Numbering(c.inUse, 256) + 1, Zeros0(p), Digit0(p), c.syms, x);
    DigitSymbol(p, x, c.syms[x]);
  }

  lemma DigitAt(c: Coded, p: Parser, x: nat)
    requires At(c, p, x) && x < |c.syms| && p.groupNo == (x + 49) / 50 - 1
    ensures |c.inUse| == 256 && |p.list| == 256 && BlockMax(p) <= 900000
    ensures At(c, AfterDigit(p, x, c.syms[x]), x + 1) && BlockMax(AfterDigit(p, x, c.syms[x])) == BlockMax(p)
  {
    CodedSizes(c, p.blockSize100k);
    GroupOf(x);
    GroupOf(x + 1);
    hide CodedOk, Zeros0, Digit0;
  }

  lemma CodedSizes(c: Coded, k: nat)
    requires CodedOk(c, k)
    ensures |c.inUse| == 256 && k <= 9
  {
    hide ValidLengths, Numbering;
  }

  /** What a digit of a run length adds. */
  lemma DigitComes(list: seq<int>, eob: int, es: nat, N: nat, syms: seq<int>, x: nat)
    requires |list| > 0 && x < |syms| && (syms[x] == RUNA || syms[x] == RUNB)
    ensures Unsymbols(list, eob, es, N, syms[x..])
            == Unsymbols(list, eob, es + (if syms[x] == RUNA then N else 2 * N), 2 * N, syms[x + 1..])
    ensures |Unsymbols(list, eob, es, N, syms[x..])| >= es
  {
    var s := syms[x..];
    assert s[0] == syms[x] && s[1..] == syms[x + 1..];
    PendingComes(list, eob, es, N, s);
  }

  lemma DigitSymbol(p: Parser, x: nat, sym: int)
    requires (sym == RUNA || sym == RUNB) && (p.inRun ==> p.es >= -1) && Digit0(p) < RUNLIMIT
    ensures Symbol(BegunAt(p, x), sym) == BeginSymbol(AfterDigit(p, x, sym))
  {
    hide BeginSymbol;
  }

  /** The state once the search for symbol x is over, but for what the search leaves in zn, zvec and at. */
  ghost function BegunAt(p: Parser, x: nat): Parser {
    p.(groupNo := x / 50, groupPos := 49 - x % 50)
  }

  lemma EndedRun(p: Parser)
    requires p.list != [] && (p.inRun ==> p.es >= -1) && |p.out| + Zeros0(p) <= BlockMax(p)
    ensures EndRun(p) == p.(inRun := false, out := p.out + Repeat(Unseq(p, p.list[0]), Zeros0(p)))
  {
    assert p.out + Repeat(Unseq(p, p.list[0]), 0) == p.out;
  }

  /** The end mark: pending zeros go out and the block is complete. */
  lemma SymbolOfEnd(c: Coded, p: Parser, x: nat)
    requires Fits(c, p, x) && x < |c.syms| && c.syms[x] == Numbering(c.inUse, 256) + 1
    requires p.origPtr < |p.out| + |Coming(c, p, x)|
    ensures Symbol(BegunAt(p, x), c.syms[x])
            == BegunAt(p, x).(at := Output, inRun := false, out := p.out + Mapped(p.inUse, Coming(c, p, x)))
  {
    hide BeginSymbol, KraftSum, ValidLengths, EndRun;
    var s := c.syms[x..];
    assert s[0] == c.syms[x];
    assert Coming(c, p, x) == Repeat(p.list[0], Zeros0(p));
    EndedRun(BegunAt(p, x));
    MappedRepeat(p, p.list[0], Zeros0(p));
  }

  /** The state after a position on the list has been read. */
  ghost function Moved(c: Coded, p: Parser, x: nat): Parser
    requires x < |c.syms| && 0 < c.syms[x] <= |p.list|
  {
    var k := c.syms[x] - 1;
    BegunAt(p, x).(inRun := false, list := ToFront(p.list, k),
                   out := p.out + Repeat(Unseq(p, p.list[0]), Zeros0(p)) + [Unseq(p, p.list[k])])
  }

  lemma ComingOfMove(c: Coded, p: Parser, x: nat)
    requires Fits(c, p, x) && x < |c.syms| && 1 < c.syms[x] <= Numbering(c.inUse, 256)
    ensures 0 < c.syms[x] <= 256
    ensures Coming(c, p, x) == Repeat(p.list[0], Zeros0(p)) + [p.list[c.syms[x] - 1]] + Coming(c, Moved(c, p, x), x + 1)
  {
    hide ToFront, KraftSum, Numbering, ValidLengths;
    var s := c.syms[x..];
    assert s[0] == c.syms[x] && s[1..] == c.syms[x + 1..];
    NumberingBound(c.inUse);
  }

  lemma NumberingBound(inUse: seq<bool>)
    requires |inUse| == 256
    ensures Numbering(inUse, 256) <= 256
  {
  }

  lemma SymbolOfMove(c: Coded, p: Parser, x: nat)
    requires Fits(c, p, x) && x < |c.syms| && 1 < c.syms[x] <= Numbering(c.inUse, 256)
    ensures 0 < c.syms[x] <= 256 && Fits(c, Moved(c, p, x), x + 1)
    ensures Symbol(BegunAt(p, x), c.syms[x]) == BeginSymbol(Moved(c, p, x))
    ensures Moved(c, p, x).out + Mapped(p.inUse, Coming(c, Moved(c, p, x), x + 1))
            == p.out + Mapped(p.inUse, Coming(c, p, x))
  {
    ComingOfMove(c, p, x);
    var q, k, r := BegunAt(p, x), c.syms[x] - 1, Moved(c, p, x);
    var z, v, later := Repeat(p.list[0], Zeros0(p)), [p.list[k]], Coming(c, r, x + 1);
    hide BeginSymbol, KraftSum, ValidLengths, EndRun, Unsymbols, Coming, Repeat;
    EndedRun(q);
    MovedList(p.list, k);
    MovedOut(p, z, v, later, p.list[0], Zeros0(p), p.list[k]);
    hide Mapped, ToFront;
  }

  lemma MovedList(list: seq<int>, k: nat)
    requires k < |list|
    ensures [list[k]] + list[..k] + list[k + 1..] == ToFront(list, k)
  {
  }

  lemma MovedOut(p: Parser, z: seq<int>, v: seq<int>, later: seq<int>, a: int, n: nat, b: int)
    requires z == Repeat(a, n) && v == [b]
    ensures p.out + Repeat(Unseq(p, a), n) + [Unseq(p, b)] + Mapped(p.inUse, later)
            == p.out + Mapped(p.inUse, z + v + later)
  {
    MappedConcat(p.inUse, z + v, later);
    MappedConcat(p.inUse, z, v);
    MappedRepeat(p, a, n);
    MappedRepeat(p, b, 0);
    hide Mapped, Repeat, Unseq;
  }

  /** What the block data leaves alone. */
  ghost predicate SameHead(p: Parser, q: Parser) {
    && q.blockSize100k == p.blockSize100k && q.storedBlockCRC == p.storedBlockCRC && q.randomised == p.randomised
    && q.origPtr == p.origPtr && q.inUse == p.inUse
  }

  lemma SearchFits(c: Coded, p: Parser, q: Parser, x: nat)
    requires Fits(c, p, x) && q == p.(at := q.at, zn := q.zn, zvec := q.zvec) && !q.at.Failed?
    ensures Fits(c, q, x) && Coming(c, q, x) == Coming(c, p, x)
  {
    hide Unsymbols, CodedOk;
  }

  /** Fetching symbol x, up to what is done with it. */
  lemma FetchSymbol(c: Coded, p: Parser, x: nat, rest: seq<bool>) returns (q: Parser)
    requires Fits(c, p, x) && x < |c.syms| && forall y: nat | x <= y < |c.syms| :: SymbolOk(c, y)
    ensures 0 <= c.syms[x] && Fits(c, q, x) && Coming(c, q, x) == Coming(c, p, x)
    ensures q == p.(at := q.at, zn := q.zn, zvec := q.zvec)
    ensures Drive(BeginSymbol(p), DataThen(c, x, rest)) == Drive(Symbol(BegunAt(q, x), c.syms[x]), DataThen(c, x + 1, rest))
  {
    hide Drive, Symbol, BeginSymbol, Numbering, Coming;
    assert SymbolOk(c, x);
    CodedSymbol(c, p.blockSize100k, x);
    BeginAt(c, p, x);
    var p1 := BeginSymbol(p);
    assert Table(p1) == TableFor(c, x);
    var r := ParseCode(p1, c.syms[x], DataThen(c, x + 1, rest));
    q := p.(at := r.at, zn := r.zn, zvec := r.zvec);
    assert r == BegunAt(q, x);
    hide Fits;
    SearchFits(c, p, q, x);
  }

  /** From symbol x on: the column comes out, mapped to characters, and the parser stops for output. */
  lemma {:induction false} ParseSyms(c: Coded, p: Parser, x: nat, rest: seq<bool>) returns (q: Parser)
    requires Fits(c, p, x) && x < |c.syms| && forall y: nat | x <= y < |c.syms| :: SymbolOk(c, y)
    requires p.origPtr < |p.out| + |Coming(c, p, x)|
    ensures Drive(BeginSymbol(p), DataThen(c, x, rest)) == Drive(q, rest)
    ensures q.at == Output && SameHead(p, q) && q.out == p.out + Mapped(p.inUse, Coming(c, p, x))
    decreases |c.syms| - x
  {
    hide Drive, Symbol, BeginSymbol, Numbering, Coming, CodedOk, Mapped, ToFront;
    var r := FetchSymbol(c, p, x, rest);
    var sym := c.syms[x];
    SymbolKinds(c, p.blockSize100k, x);
    if sym == Numbering(c.inUse, 256) + 1 {
      SymbolOfEnd(c, r, x);
      q := Symbol(BegunAt(r, x), sym);
      assert DataThen(c, x + 1, rest) == rest;
    } else if sym == RUNA || sym == RUNB {
      SymbolOfDigit(c, r, x);
      q := ParseSyms(c, AfterDigit(r, x, sym), x + 1, rest);
    } else {
      SymbolOfMove(c, r, x);
      q := ParseSyms(c, Moved(c, r, x), x + 1, rest);
    }
  }

  lemma SymbolKinds(c: Coded, k: nat, x: nat)
    requires CodedOk(c, k) && x < |c.syms|
    ensures |c.inUse| == 256 && 0 <= c.syms[x] <= Numbering(c.inUse, 256) + 1 && Numbering(c.inUse, 256) > 0
    ensures c.syms[x] == Numbering(c.inUse, 256) + 1 <==> x == |c.syms| - 1
  {
    hide Numbering;
  }
}
