/** DState: BZ2_decompress over its own storage, one suspended call after another, does what the machine does. */
module DecoderState {
  import opened BitStream
  import opened BlockParser
  import opened CanonicalCodes
  import opened Counting
  import opened MoveToFront
  import opened MtfCoding
  import opened ParseData
  import opened ParseHeader
  import opened ParserBounds
  import opened Permutations
  import opened Placement
  import opened PrefixCodes
  import opened Words

  const OK := 0          // BZ_OK
  const STREAM_END := 4  // BZ_STREAM_END

  // ---------- the storage apart from the save area ----------

  function WithData(p: Parser, list: seq<int>, out: seq<int>): Parser {
    p.(list := list, out := out)
  }

  /** The last length of the last table has been read, and the block data begin. */
  predicate StartsData(p: Parser, v: nat) {
    p.at == Coding2 && v == 0 && |p.len| + 1 >= AlphaSize(p) && |p.lens| + 1 >= p.nGroups
  }

  lemma BeginFrame(p: Parser, l: seq<int>, o: seq<int>)
    ensures BeginSymbol(WithData(p, l, o)) == WithData(BeginSymbol(p), l, o)
  {
    hide Least;
    var q := if p.groupPos == 0 then p.(groupNo := p.groupNo + 1, groupPos := GROUP) else p;
  }

  lemma MagicFrame(p: Parser, l: seq<int>, o: seq<int>, v: nat)
    requires p.at.Magic?
    ensures HeaderStep(WithData(p, l, o), v) == WithData(HeaderStep(p, v), l, o)
  {
    hide AlphaSize, BeginSymbol, NextUsed16, UndoSelectors, StartMapping2, StartData, CheckLength, HdrByte, EndByte;
  }

  lemma BlockHeadFrame(p: Parser, l: seq<int>, o: seq<int>, v: nat)
    requires p.at.BlkHdr?
    ensures HeaderStep(WithData(p, l, o), v) == WithData(HeaderStep(p, v), l, o)
  {
    hide AlphaSize, BeginSymbol, NextUsed16, UndoSelectors, StartMapping2, StartData;
  }

  lemma BlockCrcFrame(p: Parser, l: seq<int>, o: seq<int>, v: nat)
    requires p.at.Bcrc? || p.at == RandBit
    ensures HeaderStep(WithData(p, l, o), v) == WithData(HeaderStep(p, v), l, o)
  {
    hide AlphaSize, BeginSymbol, NextUsed16, UndoSelectors, StartMapping2, StartData;
  }

  lemma OriginFrame(p: Parser, l: seq<int>, o: seq<int>, v: nat)
    requires p.at.OrigPtr?
    ensures HeaderStep(WithData(p, l, o), v) == WithData(HeaderStep(p, v), l, o)
  {
    hide AlphaSize, BeginSymbol, NextUsed16, UndoSelectors, StartMapping2, CheckLength, StartData;
  }

  lemma SelectorFrame(p: Parser, l: seq<int>, o: seq<int>, v: nat)
    requires InSelectors(p)
    ensures HeaderStep(WithData(p, l, o), v) == WithData(HeaderStep(p, v), l, o)
  {
    hide AlphaSize, BeginSymbol, NextUsed16, UndoSelectors, StartMapping2, CheckLength, StartData;
  }

  lemma LengthFrame(p: Parser, l: seq<int>, o: seq<int>, v: nat)
    requires p.at == Coding1 || p.at == Coding3
    ensures HeaderStep(WithData(p, l, o), v) == WithData(HeaderStep(p, v), l, o)
  {
    hide AlphaSize, BeginSymbol, NextUsed16, UndoSelectors, StartMapping2, StartData;
  }

  lemma EndFrame(p: Parser, l: seq<int>, o: seq<int>, v: nat)
    requires p.at.EndHdr? || p.at.Ccrc?
    ensures HeaderStep(WithData(p, l, o), v) == WithData(HeaderStep(p, v), l, o)
  {
    hide AlphaSize, BeginSymbol, NextUsed16, UndoSelectors, StartMapping2, StartData;
  }

  lemma StoppedFrame(p: Parser, l: seq<int>, o: seq<int>, v: nat)
    requires Need(p) == 0 && !InData(p)
    ensures HeaderStep(WithData(p, l, o), v) == WithData(HeaderStep(p, v), l, o)
  {
    hide AlphaSize, BeginSymbol, NextUsed16, UndoSelectors, StartMapping2, StartData;
  }

  lemma HeaderFrame(p: Parser, l: seq<int>, o: seq<int>, v: nat)
    requires !InData(p)
    ensures HeaderStep(WithData(p, l, o), v)
            == if StartsData(p, v) then HeaderStep(p, v) else WithData(HeaderStep(p, v), l, o)
  {
    hide HeaderStep;
    if p.at == Mapping1 || p.at == Mapping2 {
      MapFrame(p, l, o, v);
    } else if p.at == Coding2 {
      CodingFrame(p, l, o, v);
    } else if p.at.Magic? {
      MagicFrame(p, l, o, v);
    } else if p.at.BlkHdr? {
      BlockHeadFrame(p, l, o, v);
    } else if p.at.Bcrc? || p.at == RandBit {
      BlockCrcFrame(p, l, o, v);
    } else if p.at.OrigPtr? {
      OriginFrame(p, l, o, v);
    } else if InSelectors(p) {
      SelectorFrame(p, l, o, v);
    } else if p.at == Coding1 || p.at == Coding3 {
      LengthFrame(p, l, o, v);
    } else if p.at.EndHdr? || p.at.Ccrc? {
      EndFrame(p, l, o, v);
    } else {
      StoppedFrame(p, l, o, v);
    }
  }

  lemma MapFrame(p: Parser, l: seq<int>, o: seq<int>, v: nat)
    requires p.at == Mapping1 || p.at == Mapping2
    ensures HeaderStep(WithData(p, l, o), v) == WithData(HeaderStep(p, v), l, o)
  {
    hide StartMapping2;
    if p.at == Mapping1 {
      GroupFrame(p.(inUse16 := p.inUse16 + [v == 1]), l, o, 0);
    } else {
      var x := p.i * 16 + p.j;
      GroupFrame(if v == 1 && x < |p.inUse| then p.(inUse := p.inUse[x := true]) else p, l, o, p.i + 1);
    }
  }

  lemma GroupFrame(p: Parser, l: seq<int>, o: seq<int>, i: nat)
    ensures StartMapping2(WithData(p, l, o), i) == WithData(StartMapping2(p, i), l, o)
  {
    hide NextUsed16, SeqToUnseq;
  }

  lemma CodingFrame(p: Parser, l: seq<int>, o: seq<int>, v: nat)
    requires p.at == Coding2
    ensures HeaderStep(WithData(p, l, o), v)
            == if StartsData(p, v) then HeaderStep(p, v) else WithData(HeaderStep(p, v), l, o)
  {
    hide BeginSymbol, SeqToUnseq;
  }

  lemma FrameSame(p: Parser, l: seq<int>, o: seq<int>)
    ensures var a := WithData(p, l, o);
      Need(a) == Need(p) && Table(a) == Table(p) && AlphaSize(a) == AlphaSize(p) && BlockMax(a) == BlockMax(p)
  {
  }

  lemma FrameReachable(p: Parser, l: seq<int>, o: seq<int>)
    ensures Reachable(WithData(p, l, o)) <==> Reachable(p)
  {
    hide LenOk, Least;
    FrameSame(p, l, o);
    hide AlphaSize, Table;
  }

  /** What limit, base and perm of one table hold. */
  datatype Tab = Tab(limit: seq<int>, base: seq<int>, perm: seq<int>, minLen: int)

  ghost predicate TabOk(lens: seq<int>, tab: Tab) {
    && lens != [] && 1 <= Least(lens) && Greatest(lens) <= LONGEST
    && tab.minLen == Least(lens)
    && Tables(lens, Least(lens), Greatest(lens), tab.limit, tab.base, tab.perm)
  }

  /** A number that passes the search is not past the end of perm. */
  lemma InTable(lens: seq<int>, n: nat, zvec: nat)
    requires lens != [] && zvec <= LimitAt(lens, n)
    ensures zvec - BaseOf(lens, Least(lens), Greatest(lens), n) < |lens|
  {
    BelowNext(lens, |lens|, n);
    hide First, Count, Below, Least, Greatest;
  }

  /** The search in the arrays finds what the definition says. */
  lemma LookupAgrees(lens: seq<int>, tab: Tab, n: nat, zvec: nat)
    requires TabOk(lens, tab) && n <= 20
    ensures |tab.limit| == |tab.base| == |tab.perm| == TABLE && tab.limit[n] == LimitAt(lens, n)
    ensures |lens| <= TABLE && forall k | 0 <= k < |lens| :: 0 <= tab.perm[k] < |lens|
    ensures var k := zvec - tab.base[n];
      SymbolAt(lens, n, zvec) == if 0 <= k < |lens| then Found(tab.perm[k]) else NoSymbol
    ensures zvec <= tab.limit[n] ==> zvec - tab.base[n] < |lens|
  {
    if zvec <= LimitAt(lens, n) {
      InTable(lens, n, zvec);
    }
    hide First, Count, Below, Place;
    var k := zvec - tab.base[n];
    assert tab.base[n] == BaseOf(lens, Least(lens), Greatest(lens), n);
    PlacesPermute(lens);
    PermutationIsSurjective(Places(lens));
    forall j | 0 <= j < |lens|
      ensures 0 <= tab.perm[j] < |lens| && Place(lens, tab.perm[j]) == j
    {
      assert j in Places(lens);
      var s :| 0 <= s < |lens| && Places(lens)[s] == j;
      assert PermAt(lens, tab.perm, s);
    }
    if 0 <= k < |lens| {
      var s := tab.perm[k];
      forall r | 0 <= r < |lens| && Place(lens, r) == k
        ensures r == s
      {
        assert Places(lens)[r] == Places(lens)[s];
        assert r < s || s < r || r == s;
      }
    } else {
      forall r | 0 <= r < |lens|
        ensures Place(lens, r) != k
      {
        PlaceInBucket(lens, r);
      }
    }
  }

  /** The decode tables of all groups. */
  method MakeTables(lens: seq<seq<int>>, alphaSize: nat) returns (tabs: seq<Tab>)
    requires forall t | 0 <= t < |lens| :: LenOk(lens[t], alphaSize)
    ensures |tabs| == |lens| && forall t | 0 <= t < |lens| :: TabOk(lens[t], tabs[t])
  {
    hide LenOk, TabOk;
    tabs := [];
    for t := 0 to |lens|
      invariant |tabs| == t && forall k | 0 <= k < t :: TabOk(lens[k], tabs[k])
    {
      var tab := MakeTable(lens[t], alphaSize);
      tabs := tabs + [tab];
    }
  }

  method MakeTable(lens: seq<int>, alphaSize: nat) returns (tab: Tab)
    requires LenOk(lens, alphaSize)
    ensures TabOk(lens, tab)
  {
    var minLen, maxLen := 32, 0;
    for i := 0 to alphaSize
      invariant i > 0 ==> minLen == Least(lens[..i]) && maxLen == Greatest(lens[..i])
      invariant i == 0 ==> minLen == 32 && maxLen == 0
    {
      assert lens[..i + 1][..i] == lens[..i];
      if lens[i] > maxLen {
        maxLen := lens[i];
      }
      if lens[i] < minLen {
        minLen := lens[i];
      }
    }
    assert lens[..alphaSize] == lens;
    LeastIsLeast(lens);
    GreatestIsGreatest(lens);
    hide Least, Greatest, Tables;
    var length := new int[alphaSize](i requires 0 <= i < alphaSize => lens[i]);
    var limit, base, perm := new int[TABLE], new int[TABLE], new int[TABLE];
    assert length[..alphaSize] == lens;
    CreateDecodeTables(limit, base, perm, length, minLen, maxLen, alphaSize);
    tab := Tab(limit[..], base[..], perm[..], minLen);
  }

  // ---------- the selectors ----------

  /** The entry at v goes to the front of pos, those before it move up. */
  method EntryToFront(pos: array<int>, v0: nat, n: nat)
    requires v0 < n <= pos.Length
    modifies pos
    ensures pos[..n] == [old(pos[v0])] + old(pos[..v0]) + old(pos[v0 + 1..n])
  {
    var tmp, v := pos[v0], v0;
    while v > 0
      invariant v <= v0
      invariant forall k | 0 <= k < v || v0 < k < n :: pos[k] == old(pos[k])
      invariant forall k | v < k <= v0 :: pos[k] == old(pos[k - 1])
    {
      pos[v] := pos[v - 1];
      v := v - 1;
    }
    pos[0] := tmp;
  }

  lemma UndoOne(pos: seq<int>, mtf: seq<int>, i: nat, done: seq<int>)
    requires i < |mtf| && 0 <= mtf[i] < |pos|
    ensures var v := mtf[i];
      done + UndoSelectors(pos, mtf[i..])
      == done + [pos[v]] + UndoSelectors([pos[v]] + pos[..v] + pos[v + 1..], mtf[i + 1..])
  {
    assert mtf[i..][0] == mtf[i] && mtf[i..][1..] == mtf[i + 1..];
    var v := mtf[i];
    var later := UndoSelectors([pos[v]] + pos[..v] + pos[v + 1..], mtf[i + 1..]);
    assert UndoSelectors(pos, mtf[i..]) == [pos[v]] + later;
    hide UndoSelectors;
    assert done + ([pos[v]] + later) == done + [pos[v]] + later;
  }

  /** Undo the move-to-front coding of the selectors. */
  method UndoPositions(mtf: seq<int>, nGroups: nat) returns (sel: seq<int>)
    requires 1 <= nGroups <= 6 && |mtf| <= MAXSELECTORS && forall i | 0 <= i < |mtf| :: 0 <= mtf[i] < nGroups
    ensures sel == UndoSelectors(Identity(nGroups), mtf)
  {
    hide UndoSelectors;
    var pos, selector := new int[6](v => v), new int[MAXSELECTORS](_ => 0);
    assert pos[..nGroups] == Identity(nGroups) && mtf[0..] == mtf;
    assert selector[..0] + UndoSelectors(Identity(nGroups), mtf) == UndoSelectors(Identity(nGroups), mtf);
    for i := 0 to |mtf|
      invariant selector[..i] + UndoSelectors(pos[..nGroups], mtf[i..]) == UndoSelectors(Identity(nGroups), mtf)
    {
      ghost var list := pos[..nGroups];
      UndoOne(list, mtf, i, selector[..i]);
      var v := mtf[i];
      var tmp := pos[v];
      EntryToFront(pos, v, nGroups);
      selector[i] := tmp;
      assert pos[..nGroups] == [list[v]] + list[..v] + list[v + 1..];
      assert selector[..i + 1] == selector[..i] + [list[v]];
    }
    sel := selector[..|mtf|];
    assert mtf[|mtf|..] == [];
    NothingToUndo(pos[..nGroups]);
    assert sel + [] == sel;
  }

  lemma NothingToUndo(pos: seq<int>)
    ensures UndoSelectors(pos, []) == []
  {
  }

  /** The last selector has been read. */
  predicate EndsSelectors(p: Parser, v: nat) {
    p.at == Selector3 && v == 0 && |p.selectorMtf| < MAXSELECTORS && |p.selectorMtf| + 1 >= p.nSelectors
  }

  lemma SelectorsEnd(p: Parser, v: nat)
    requires Reachable(p) && EndsSelectors(p, v)
    ensures var mtf := p.selectorMtf + [p.j];
      && |mtf| <= MAXSELECTORS && 2 <= p.nGroups <= 6 && (forall i | 0 <= i < |mtf| :: 0 <= mtf[i] < p.nGroups)
      && HeaderStep(p, v) == p.(at := Coding1, selectorMtf := mtf, j := 0, lens := [],
                                selector := UndoSelectors(Identity(p.nGroups), mtf))
  {
    hide UndoSelectors, AlphaSize, LenOk, Table, Least;
  }

  /** The state of the machine, unless it has failed. */
  ghost predicate Refines(a: Parser, b: Parser) {
    if b.at.Failed? then a.at == b.at else a == b
  }

  /** How often each character occurs in the column so far. */
  ghost predicate Counted(out: seq<int>, unzftab: seq<int>) {
    && |unzftab| == 256
    && (forall i | 0 <= i < |out| :: 0 <= out[i] < 256)
    && forall c | 0 <= c < 256 :: unzftab[c] == Count(out, |out|, c)
  }

  lemma CountedMore(out: seq<int>, unzftab: seq<int>, uc: int)
    requires Counted(out, unzftab) && 0 <= uc < 256
    ensures Counted(out + [uc], unzftab[uc := unzftab[uc] + 1])
  {
    var out', unz' := out + [uc], unzftab[uc := unzftab[uc] + 1];
    forall c | 0 <= c < 256
      ensures unz'[c] == Count(out', |out'|, c)
    {
      CountPrefix(out, out', |out|, c);
    }
  }

  lemma {:induction false} CountedRun(out: seq<int>, unzftab: seq<int>, uc: int, n: nat)
    requires Counted(out, unzftab) && 0 <= uc < 256
    ensures Counted(out + Repeat(uc, n), unzftab[uc := unzftab[uc] + n])
  {
    if n == 0 {
      assert out + Repeat(uc, 0) == out;
    } else {
      CountedRun(out, unzftab, uc, n - 1);
      var o, u := out + Repeat(uc, n - 1), unzftab[uc := unzftab[uc] + n - 1];
      CountedMore(o, u, uc);
      assert o + [uc] == out + Repeat(uc, n);
      assert u[uc := u[uc] + 1] == unzftab[uc := unzftab[uc] + n];
    }
  }

  lemma UnseqRange(p: Parser, c: int)
    requires Bounded(p)
    ensures 0 <= Unseq(p, c) < 256
  {
  }

  /** The column when a pending run has been put out. */
  function AfterRun(p: Parser, l: seq<int>, o: seq<int>): seq<int>
    requires l != [] && (p.inRun ==> p.es >= -1)
  {
    if p.inRun then o + Repeat(Unseq(p, l[0]), p.es + 1) else o
  }

  lemma SymbolDigit(p: Parser, l: seq<int>, o: seq<int>, sym: nat)
    requires sym == RUNA || sym == RUNB
    ensures Symbol(WithData(p, l, o), sym) == WithData(Symbol(p, sym), l, o)
  {
    hide BeginSymbol;
    var q := if p.inRun then p else p.(inRun := true, es := -1, N := 1);
    BeginFrame(q.(es := q.es + (sym + 1) * q.N, N := 2 * q.N), l, o);
  }

  lemma SymbolOverflow(p: Parser, l: seq<int>, o: seq<int>, sym: nat)
    requires sym > RUNB && |l| == 256 && (p.inRun ==> p.es >= -1) && |AfterRun(p, l, o)| > BlockMax(p) && p.inRun
    ensures Symbol(WithData(p, l, o), sym).at == Failed(DATA_ERROR)
  {
    hide BeginSymbol, Unseq;
  }

  lemma EndedRunFrame(p: Parser, l: seq<int>, o: seq<int>)
    requires |l| == 256 && (p.inRun ==> p.es >= -1 && |AfterRun(p, l, o)| <= BlockMax(p))
    ensures EndRun(WithData(p, l, o)) == WithData(p.(inRun := false), l, AfterRun(p, l, o))
  {
    hide SeqToUnseq;
  }

  lemma SymbolLast(p: Parser, l: seq<int>, o: seq<int>, sym: nat)
    requires |l| == 256 && (p.inRun ==> p.es >= -1 && |AfterRun(p, l, o)| <= BlockMax(p)) && !p.at.Failed?
    requires sym > RUNB && sym == AlphaSize(p) - 1
    ensures Symbol(WithData(p, l, o), sym)
            == if p.origPtr >= |AfterRun(p, l, o)| then Fail(WithData(p.(inRun := false), l, AfterRun(p, l, o)), DATA_ERROR)
               else WithData(p.(inRun := false, at := Output), l, AfterRun(p, l, o))
  {
    EndedRunFrame(p, l, o);
    FrameSame(p, l, o);
    hide EndRun, BeginSymbol, AfterRun, AlphaSize;
  }

  lemma SymbolNext(p: Parser, l: seq<int>, o: seq<int>, sym: nat)
    requires |l| == 256 && (p.inRun ==> p.es >= -1 && |AfterRun(p, l, o)| <= BlockMax(p)) && !p.at.Failed?
    requires sym > RUNB && sym != AlphaSize(p) - 1 && sym <= 256
    ensures |AfterRun(p, l, o)| >= BlockMax(p) ==> Symbol(WithData(p, l, o), sym).at == Failed(DATA_ERROR)
    ensures |AfterRun(p, l, o)| < BlockMax(p) ==>
      Symbol(WithData(p, l, o), sym) == WithData(BeginSymbol(p.(inRun := false)), ToFront(l, sym - 1),
                                                 AfterRun(p, l, o) + [Unseq(p, l[sym - 1])])
  {
    EndedRunFrame(p, l, o);
    FrameSame(p, l, o);
    var q, l', o' := p.(inRun := false), ToFront(l, sym - 1), AfterRun(p, l, o) + [Unseq(p, l[sym - 1])];
    BeginFrame(q, l', o');
    MovedFront(l, sym - 1);
    hide EndRun, BeginSymbol, AfterRun, AlphaSize, ToFront;
  }

  lemma MovedFront(l: seq<int>, k: nat)
    requires k < |l|
    ensures [l[k]] + l[..k] + l[k + 1..] == ToFront(l, k)
  {
  }

  class DState {
    const r: BitReader
    var p: Parser          // the save area; list and out stay empty, cache and tt hold them
    var cache: MtfCache
    var tt: array<int>
    var nblock: nat
    var unzftab: array<int>
    var tabs: seq<Tab>

    ghost predicate Apart()
      reads this, cache
    {
      && cache.mtfa != cache.mtfbase && cache.mtfa != tt && cache.mtfa != unzftab
      && cache.mtfbase != tt && cache.mtfbase != unzftab && tt != unzftab
    }

    ghost predicate Stored()
      reads this, cache, cache.mtfa, cache.mtfbase, tt, unzftab
    {
      && Apart() && cache.Valid() && unzftab.Length == 256
      && nblock <= BlockMax(p) <= tt.Length && p.list == [] && p.out == [] && Reachable(p)
    }

    /** What the storage holds while block data are read. */
    ghost predicate DataReady()
      reads this, tt, unzftab
      requires nblock <= tt.Length
    {
      && Counted(tt[..nblock], unzftab[..])
      && |tabs| == |p.lens| && forall t | 0 <= t < |tabs| :: TabOk(p.lens[t], tabs[t])
    }

    ghost predicate Valid()
      reads this, cache, cache.mtfa, cache.mtfbase, tt, unzftab
    {
      && Stored() && (p.at == Output ==> Counted(tt[..nblock], unzftab[..])) && (InData(p) ==> DataReady())
      && (p.at.Magic? ==> nblock == 0)
    }

    /** The state of the machine. */
    ghost function Abs(): Parser
      requires Stored()
      reads this, cache, cache.mtfa, cache.mtfbase, tt, unzftab
    {
      WithData(p, cache.List(), tt[..nblock])
    }

    /** BZ2_bzDecompressInit and the initialised save area. */
    constructor ()
      ensures Valid() && Abs() == Fresh() && r.Valid() && r.Held() == [] && r.next_in == []
      ensures p.blockSize100k == 0 && p.at == Magic(1)
      ensures fresh(r) && fresh(cache) && fresh(cache.mtfa) && fresh(cache.mtfbase) && fresh(tt) && fresh(unzftab)
    {
      r := new BitReader();
      p := Fresh().(list := [], out := []);
      cache := new MtfCache();
      tt := new int[0];
      nblock := 0;
      unzftab := new int[256];
      tabs := [];
      new;
      assert Identity(256) == seq(256, x => x);
    }

    /** The run decoded last goes into the column, if there is room for it. */
    method PutPendingRun() returns (ok: bool)
      requires Valid() && InData(p)
      modifies this`p, this`nblock, tt, unzftab
      ensures p == old(p) || p == old(p).(inRun := false)
      ensures Stored() && cache.List() == old(cache.List())
      ensures ok ==> DataReady() && p == old(p).(inRun := false) && tt[..nblock] == AfterRun(old(p), cache.List(), old(tt[..nblock]))
      ensures !ok ==> old(p.inRun) && |AfterRun(old(p), cache.List(), old(tt[..nblock]))| > BlockMax(p)
    {
      hide Reachable, TabOk, ListOf, Segments;
      ok := true;
      ReachableRun();
      if p.inRun {
        var es := p.es + 1;
        FrontEntry();
        var uc := Unseq(p, cache.mtfa[cache.mtfbase[0]]);
        UnseqRange(p, cache.List()[0]);
        ghost var o, u := tt[..nblock], unzftab[..];
        CountedRun(o, u, uc, es);
        unzftab[uc] := unzftab[uc] + es;
        ok := FillColumn(uc, es);
        if ok {
          assert unzftab[..] == u[uc := u[uc] + es];
          p := p.(inRun := false);
          RunDone(old(p), p);
        }
      }
    }

    lemma ReachableRun()
      requires Stored() && InData(p)
      ensures Bounded(p) && (p.inRun ==> p.es >= -1)
    {
    }

    lemma FrontEntry()
      requires Stored()
      ensures |cache.List()| == 256 && 0 <= cache.mtfbase[0] < MTFA && cache.mtfa.Length == MTFA
      ensures cache.mtfbase.Length == 16 && cache.List()[0] == cache.mtfa[cache.mtfbase[0]]
    {
      SegmentBounds(cache.mtfbase[..], 0);
    }

    /** es copies of uc at the end of the column. */
    method FillColumn(uc: int, es0: nat) returns (ok: bool)
      requires nblock <= BlockMax(p) <= tt.Length
      modifies this`nblock, tt
      ensures nblock <= BlockMax(p)
      ensures ok ==> tt[..nblock] == old(tt[..nblock]) + Repeat(uc, es0)
      ensures ok <==> old(nblock) + es0 <= BlockMax(p)
    {
      ghost var o := tt[..nblock];
      var es := es0;
      assert o + Repeat(uc, 0) == o;
      while es > 0
        invariant 0 <= es <= es0 && nblock == |o| + (es0 - es) <= BlockMax(p)
        invariant tt[..nblock] == o + Repeat(uc, es0 - es)
      {
        if nblock >= BlockMax(p) {
          return false;
        }
        tt[nblock] := uc;
        assert tt[..nblock + 1] == tt[..nblock] + [uc];
        assert Repeat(uc, es0 - es + 1) == Repeat(uc, es0 - es) + [uc];
        nblock := nblock + 1;
        es := es - 1;
      }
      return true;
    }

    /** What follows a whole code: the symbol it stands for. */
    method DoSymbol(sym: nat)
      requires Valid() && InData(p) && sym < AlphaSize(p)
      modifies this`p, this`nblock, tt, unzftab, cache.mtfa, cache.mtfbase
      ensures Valid() && Refines(Abs(), Symbol(old(Abs()), sym))
    {
      hide Reachable, TabOk, ListOf, Segments, Symbol, AlphaSize, AfterRun, Counted, ToFront;
      ghost var p0, l, o := p, cache.List(), tt[..nblock];
      SymbolFacts(sym);
      if sym == RUNA || sym == RUNB {
        SymbolDigit(p, l, o, sym);
        p := Symbol(p, sym);
        DigitShape(p0, p, sym);
      } else {
        var last := sym == AlphaSize(p) - 1;
        var ok := PutPendingRun();
        if !ok {
          SymbolOverflow(p0, l, o, sym);
          Give(DATA_ERROR);
        } else if last {
          SymbolLast(p0, l, o, sym);
          EndBlock();
        } else {
          SymbolNext(p0, l, o, sym);
          NextEntry(sym, p0);
        }
      }
    }

    /** The end mark: the block is complete if it contains its own row. */
    method EndBlock()
      requires Stored() && DataReady() && Bounded(p)
      modifies this`p
      ensures Valid()
      ensures if p.origPtr >= nblock then p == Fail(old(p), DATA_ERROR) else p == old(p).(at := Output)
    {
      hide Reachable, Counted, TabOk;
      if p.origPtr >= nblock {
        Give(DATA_ERROR);
      } else {
        p := p.(at := Output);
        StoppedReachable(p);
      }
    }

    /** A position on the list: its character into the column, and on to the next symbol. */
    method NextEntry(sym: nat, ghost p0: Parser)
      requires Stored() && DataReady() && 1 < sym <= 256 && p == p0.(inRun := false) && Reachable(p0) && InData(p0)
      requires Bounded(p)
      modifies this`p, this`nblock, tt, unzftab, cache.mtfa, cache.mtfbase
      ensures Valid()
      ensures old(nblock) >= BlockMax(old(p)) ==> p.at == Failed(DATA_ERROR)
      ensures old(nblock) < BlockMax(old(p)) ==>
        && p == BeginSymbol(old(p)) && cache.List() == ToFront(old(cache.List()), sym - 1)
        && tt[..nblock] == old(tt[..nblock]) + [Unseq(old(p), old(cache.List())[sym - 1])]
    {
      hide Reachable, TabOk, ListOf, Segments, Counted, ToFront, AlphaSize, BeginSymbol;
      if nblock >= BlockMax(p) {
        Give(DATA_ERROR);
      } else {
        MoveAndPut(sym - 1);
        ghost var q := p;
        p := BeginSymbol(p);
        BegunShape(p0, q, p);
      }
    }

    lemma SymbolFacts(sym: nat)
      requires Stored() && InData(p) && sym < AlphaSize(p)
      ensures |cache.List()| == 256 && Bounded(p) && sym <= 257 && (p.inRun ==> p.es >= -1) && !p.at.Failed?
      ensures sym != AlphaSize(p) - 1 ==> sym <= 256
    {
      hide AlphaSize, LenOk;
    }

    method Give(code: int)
      requires Stored() && code != OUTSIDE
      modifies this`p
      ensures Valid() && p == Fail(old(p), code)
    {
      UsesLittle(p);
      hide Reachable;
      p := Fail(p, code);
      StoppedReachable(p);
    }

    /** A character from the list into the column. */
    method MoveAndPut(k: nat)
      requires Stored() && InData(p) && DataReady() && k < 256 && nblock < BlockMax(p) && Bounded(p)
      modifies this`nblock, tt, unzftab, cache.mtfa, cache.mtfbase
      ensures Stored() && DataReady() && cache.List() == ToFront(old(cache.List()), k)
      ensures tt[..nblock] == old(tt[..nblock]) + [Unseq(p, old(cache.List())[k])] && nblock == old(nblock) + 1
    {
      hide Reachable, TabOk, ListOf, Segments, Counted, ToFront, AlphaSize;
      ghost var o, u := tt[..nblock], unzftab[..];
      var uc := cache.MoveUp(k);
      assert tt[..nblock] == o && unzftab[..] == u;
      var ch := Unseq(p, uc);
      UnseqRange(p, uc);
      CountedMore(o, u, ch);
      unzftab[ch] := unzftab[ch] + 1;
      tt[nblock] := ch;
      nblock := nblock + 1;
      assert tt[..nblock] == o + [ch] && unzftab[..] == u[ch := u[ch] + 1];
    }

    /** The search of GET_MTF_VAL after a fetch. */
    method Look()
      requires Valid() && InData(p)
      modifies this`p, this`nblock, tt, unzftab, cache.mtfa, cache.mtfbase
      ensures Valid() && Refines(Abs(), CheckCode(old(Abs())))
    {
      hide Symbol, TabOk, Counted, CheckCode, Table, ListOf, Segments, AlphaSize, Reachable;
      ghost var p0, l, o := p, cache.List(), tt[..nblock];
      FrameSame(p0, l, o);
      LookFacts(p);
      CheckedFacts(p0, l, o, tabs);
      if p.zn > 20 {
        Give(DATA_ERROR);
        return;
      }
      var t := p.selector[p.groupNo];
      var tab := tabs[t];
      if p.zvec <= tab.limit[p.zn] {
        var k := p.zvec - tab.base[p.zn];
        if k < 0 || k >= 258 {
          Give(DATA_ERROR);
          return;
        }
        DoSymbol(tab.perm[k]);
      } else {
        p := p.(zn := p.zn + 1, at := MtfMore);
        LongerCode(p0, p);
      }
    }

    method SetCode(zvec: nat)
      requires Valid() && InData(p)
      modifies this`p
      ensures Valid() && p == old(p).(zvec := zvec) && Abs() == old(Abs()).(zvec := zvec)
    {
      hide Reachable, TabOk, Counted, ListOf, Segments;
      ghost var p0 := p;
      p := p.(zvec := zvec);
      Searching(p0, p);
    }

    /** Storage is the same as before or newly allocated. */
    twostate predicate NewStorage(a: array<int>, c: MtfCache)
      reads this
    {
      (tt == a || fresh(tt)) && (cache == c || (fresh(cache) && fresh(cache.mtfa) && fresh(cache.mtfbase)))
    }

    /** One step, with v the number just fetched. */
    method Advance(v: nat)
      requires Valid() && Need(p) > 0
      modifies this`p, this`nblock, this`tt, this`cache, this`tabs, tt, unzftab, cache.mtfa, cache.mtfbase
      ensures Valid() && Refines(Abs(), Step(old(Abs()), v))
      ensures NewStorage(old(tt), old(cache))
    {
      hide Reachable, CheckCode, HeaderStep, Step, TabOk, Counted, ListOf, Segments, AlphaSize;
      if InData(p) {
        StepIsCheck(Abs(), v);
        SetCode(if p.at == MtfFirst then v else 2 * p.zvec + v);
        Look();
      } else {
        StepIsHeader(Abs(), v);
        HeaderAdvance(v);
      }
    }

    /** A step outside the block data; storage is set up when the block size is known and when block data begin. */
    method HeaderAdvance(v: nat)
      requires Valid() && !InData(p) && Need(p) > 0
      modifies this`p, this`nblock, this`tt, this`cache, this`tabs, unzftab
      ensures Valid() && Refines(Abs(), HeaderStep(old(Abs()), v))
      ensures NewStorage(old(tt), old(cache))
    {
      hide Reachable, HeaderStep, TabOk, Counted, ListOf, Segments, AlphaSize, BeginSymbol, LenOk;
      HeaderFrame(p, cache.List(), tt[..nblock], v);
      HeaderReachable(p, v);
      HeaderShape(p, v);
      if StartsData(p, v) {
        NewTables(p, v);
        var q := HeaderStep(p, v);
        tabs := MakeTables(q.lens, AlphaSize(p));
        StartStorage();
        p := q.(list := [], out := []);
        FrameReachable(q, [], []);
        assert tt[..nblock] == [];
        assert WithData(p, Identity(256), []) == q;
      } else if EndsSelectors(p, v) {
        SelectorsEnd(p, v);
        var mtf := p.selectorMtf + [p.j];
        var selector := UndoPositions(mtf, p.nGroups);
        p := p.(at := Coding1, selectorMtf := mtf, j := 0, lens := [], selector := selector);
      } else {
        var first := p.at.Magic?;
        p := HeaderStep(p, v);
        if first && p.at == BlkHdr(1) {
          tt := new int[BlockMax(p)];
        }
      }
    }

    /**
     * BZ2_decompress: steps for as long as bits can be had. The bytes used are a prefix of the input, and the state is
     * the one the machine reaches on the bits held before and these bytes; it gives up only when the input is used up.
     */
    method Decompress() returns (ret: int, ghost used: nat)
      requires Valid() && r.Valid() && Need(p) > 0
      modifies this`p, this`nblock, this`tt, this`cache, this`tabs, tt, unzftab, cache.mtfa, cache.mtfbase, r
      ensures Stored() && Valid() && r.Valid() && NewStorage(old(tt), old(cache))
      ensures used <= |old(r.next_in)| && r.next_in == old(r.next_in)[used..]
      ensures Reached(old(Abs()), old(r.Held()) + BytesBits(old(r.next_in)[..used]), Abs(), r.Held())
      ensures ret == if p.at.Failed? then p.at.code else if p.at == Idle then STREAM_END else OK
      ensures Need(p) > 0 ==> r.next_in == [] && |r.Held()| < Need(p)
    {
      hide Reachable, Step, TabOk, Counted, ListOf, Segments, AlphaSize, Drive, BytesBits, Follows, Reached, Need, WithData,
        Took;
      ghost var g, h, input := Abs(), r.Held(), r.next_in;
      used := 0;
      StartOfInput(g, h, input);
      var ok := true;
      while ok && Need(p) > 0
        invariant Stored() && Valid() && r.Valid() && NewStorage(old(tt), old(cache))
        invariant Took(g, h, input, used, r.next_in, Abs(), r.Held())
        invariant !ok ==> r.next_in == [] && |r.Held()| < Need(p)
        decreases if ok then |r.Held()| + 8 * |r.next_in| + 1 else 0
      {
        ok, used := TakeOne(g, h, input, used);
      }
      FrameSame(p, cache.List(), tt[..nblock]);
      ReachedEnd(g, h, input, used, r.next_in, Abs(), r.Held());
      ret := if p.at.Failed? then p.at.code else if p.at == Idle then STREAM_END else OK;
    }

    method TakeOne(ghost g: Parser, ghost h: seq<bool>, ghost input: seq<int>, ghost used: nat)
      returns (ok: bool, ghost used': nat)
      requires Valid() && r.Valid() && Need(p) > 0 && Took(g, h, input, used, r.next_in, Abs(), r.Held())
      modifies this`p, this`nblock, this`tt, this`cache, this`tabs, tt, unzftab, cache.mtfa, cache.mtfbase, r
      ensures Stored() && Valid() && r.Valid() && NewStorage(old(tt), old(cache))
      ensures Took(g, h, input, used', r.next_in, Abs(), r.Held())
      ensures if ok then |r.Held()| + 8 * |r.next_in| < old(|r.Held()| + 8 * |r.next_in|)
              else r.next_in == [] && |r.Held()| < Need(p)
    {
      hide Reachable, Step, TabOk, Counted, ListOf, Segments, AlphaSize, Drive, BytesBits, Follows, Need, WithData;
      ghost var k;
      ok, k := FetchAndStep(g, h + BytesBits(input[..used]));
      used' := used + k;
      MoreInput(h, input, used, k);
    }

    /** One fetch, and the step it makes possible. */
    method FetchAndStep(ghost g: Parser, ghost bits: seq<bool>) returns (ok: bool, ghost k: nat)
      requires Valid() && r.Valid() && Need(p) > 0 && Follows(g, bits, Abs(), r.Held())
      modifies this`p, this`nblock, this`tt, this`cache, this`tabs, tt, unzftab, cache.mtfa, cache.mtfbase, r
      ensures Stored() && Valid() && r.Valid() && NewStorage(old(tt), old(cache))
      ensures k <= |old(r.next_in)| && r.next_in == old(r.next_in)[k..]
      ensures Follows(g, bits + BytesBits(old(r.next_in)[..k]), Abs(), r.Held())
      ensures if ok then |r.Held()| + 8 * |r.next_in| < old(|r.Held()| + 8 * |r.next_in|)
              else r.next_in == [] && |r.Held()| < Need(p)
    {
      hide Reachable, Step, TabOk, Counted, ListOf, Segments, AlphaSize, Drive, BytesBits, Follows;
      NeedLittle();
      ghost var a, b, input := Abs(), r.Held(), r.next_in;
      var v;
      ok, v, k := r.Get(Need(p));
      BytesBitsLength(input[..k]);
      FetchStep(g, bits, BytesBits(input[..k]), a, b);
      if ok {
        StepTaken(g, bits + BytesBits(input[..k]), a, b + BytesBits(input[..k]), v);
        Advance(v);
        Refined(g, bits + BytesBits(input[..k]), Step(a, v), Abs(), r.Held());
      }
    }

    /** On to the next block, once this one has been put out. */
    method NextBlock()
      requires Stored()
      modifies this`p
      ensures Stored() && Valid() && p == old(p).(at := BlkHdr(1))
    {
      UsesLittle(p);
      hide Reachable;
      p := p.(at := BlkHdr(1));
      BlockStartReachable(p);
    }

    lemma NeedLittle()
      requires Stored() && Need(p) > 0
      ensures Need(p) <= 24 && Need(Abs()) == Need(p)
    {
      FrameSame(p, cache.List(), tt[..nblock]);
    }

    /** unzftab and the move-to-front list at the start of a block's data. */
    method StartStorage()
      requires unzftab.Length == 256 && unzftab != tt
      modifies this`nblock, this`cache, unzftab
      ensures nblock == 0 && fresh(cache) && fresh(cache.mtfa) && fresh(cache.mtfbase)
      ensures cache.Valid() && cache.List() == Identity(256)
      ensures Counted([], unzftab[..])
    {
      for i := 0 to 256
        invariant forall x | 0 <= x < i :: unzftab[x] == 0
        modifies unzftab
      {
        unzftab[i] := 0;
      }
      nblock := 0;
      cache := new MtfCache();
      assert Identity(256) == seq(256, x => x);
    }
  }

  /** a, with b in hand, is on the way the machine takes from g on these bits. */
  ghost predicate Follows(g: Parser, bits: seq<bool>, a: Parser, b: seq<bool>) {
    if a.at.Failed? then Drive(g, bits).0.at == a.at else Drive(g, bits) == Drive(a, b)
  }

  /** The machine gets from g to a, and b is not used; a failed state is told by its code alone. */
  ghost predicate Reached(g: Parser, bits: seq<bool>, a: Parser, b: seq<bool>) {
    if a.at.Failed? then Drive(g, bits).0.at == a.at else Drive(g, bits) == (a, b)
  }

  /** Follows, with the first used bytes of the input behind h. */
  ghost predicate Took(g: Parser, h: seq<bool>, input: seq<int>, used: nat, left: seq<int>, a: Parser, b: seq<bool>) {
    && used <= |input| && left == input[used..] && (forall i | 0 <= i < |input| :: 0 <= input[i] < 256)
    && Follows(g, h + BytesBits(input[..used]), a, b)
  }

  lemma ReachedEnd(g: Parser, h: seq<bool>, input: seq<int>, used: nat, left: seq<int>, a: Parser, b: seq<bool>)
    requires Took(g, h, input, used, left, a, b) && (Need(a) == 0 || |b| < Need(a))
    ensures used <= |input| && left == input[used..] && (forall i | 0 <= i < |input| :: 0 <= input[i] < 256)
    ensures Reached(g, h + BytesBits(input[..used]), a, b)
  {
    hide Step, Need, BytesBits;
  }

  lemma StartOfInput(g: Parser, h: seq<bool>, input: seq<int>)
    requires forall i | 0 <= i < |input| :: 0 <= input[i] < 256
    ensures Took(g, h, input, 0, input, g, h)
  {
    assert h + [] == h && input[0..] == input;
    hide Step;
  }

  lemma MoreInput(h: seq<bool>, input: seq<int>, u: nat, k: nat)
    requires u + k <= |input| && forall i | 0 <= i < |input| :: 0 <= input[i] < 256
    ensures h + BytesBits(input[..u]) + BytesBits(input[u..][..k]) == h + BytesBits(input[..u + k])
    ensures input[u..][k..] == input[u + k..]
  {
    hide BytesBits;
    assert input[..u + k] == input[..u] + input[u..][..k];
    BytesBitsConcat(input[..u], input[u..][..k]);
  }

  /** More bits for both. */
  lemma FetchStep(g: Parser, bits: seq<bool>, more: seq<bool>, a: Parser, b: seq<bool>)
    requires Follows(g, bits, a, b) && !a.at.Failed?
    ensures Follows(g, bits + more, a, b + more)
  {
    hide Step, Drive;
    RunInPieces(g, bits, more);
    RunInPieces(a, b, more);
  }

  lemma StepTaken(g: Parser, bits: seq<bool>, a: Parser, s: seq<bool>, v: nat)
    requires Follows(g, bits, a, s) && 0 < Need(a) <= |s| && v == Val(s[..Need(a)])
    ensures Follows(g, bits, Step(a, v), s[Need(a)..])
  {
    hide Step;
    assert Drive(a, s) == Drive(Step(a, v), s[Need(a)..]);
    if Step(a, v).at.Failed? {
      assert Drive(Step(a, v), s[Need(a)..]).0 == Step(a, v);
    }
  }

  lemma Refined(g: Parser, bits: seq<bool>, a: Parser, a': Parser, b: seq<bool>)
    requires Follows(g, bits, a, b) && Refines(a', a)
    ensures Follows(g, bits, a', b)
  {
    hide Step, Drive;
  }

  lemma LookFacts(p: Parser)
    requires Reachable(p) && InData(p)
    ensures Bounded(p) && p.zn <= 21 && 0 <= p.groupNo < |p.selector| && 0 <= p.selector[p.groupNo] < |p.lens|
    ensures Table(p) == p.lens[p.selector[p.groupNo]] && |Table(p)| == AlphaSize(p)
  {
    hide AlphaSize, Least;
    assert LenOk(Table(p), AlphaSize(p));
  }

  /** What the machine does after a fetch, in terms of limit, base and perm. */
  lemma CheckedFacts(p: Parser, l: seq<int>, o: seq<int>, tabs: seq<Tab>)
    requires Reachable(p) && InData(p) && |tabs| == |p.lens| && forall t | 0 <= t < |tabs| :: TabOk(p.lens[t], tabs[t])
    ensures p.zn > 20 ==> CheckCode(WithData(p, l, o)).at == Failed(DATA_ERROR)
    ensures 0 <= p.groupNo < |p.selector| && 0 <= p.selector[p.groupNo] < |tabs|
    ensures p.zn <= 20 ==>
      var tab, lens := tabs[p.selector[p.groupNo]], Table(p);
      |tab.limit| == |tab.base| == |tab.perm| == TABLE && |lens| <= TABLE && p.lens[p.selector[p.groupNo]] == lens
    ensures p.zn <= 20 ==>
      var tab, lens := tabs[p.selector[p.groupNo]], Table(p);
      var k, next := p.zvec - tab.base[p.zn], CheckCode(WithData(p, l, o));
      if p.zvec > tab.limit[p.zn] then next == WithData(p.(zn := p.zn + 1, at := MtfMore), l, o)
      else if 0 <= k then k < |lens| && 0 <= tab.perm[k] < AlphaSize(p) && next == Symbol(WithData(p, l, o), tab.perm[k])
      else next.at == Failed(DATA_ERROR)
  {
    hide AlphaSize, Symbol, SymbolAt, LimitAt, Least, TabOk;
    LookFacts(p);
    FrameSame(p, l, o);
    if p.zn <= 20 {
      LookupAgrees(Table(p), tabs[p.selector[p.groupNo]], p.zn, p.zvec);
    }
  }

  /** What a step outside the block data leaves as it is. */
  ghost predicate Kept(p: Parser, q: Parser) {
    && q.list == p.list && q.out == p.out && !InData(q) && q.at != Output && !q.at.Magic?
    && q.blockSize100k == p.blockSize100k
  }

  lemma HeadShape(p: Parser, v: nat)
    requires p.at.BlkHdr? || p.at.Bcrc? || p.at == RandBit || p.at.OrigPtr?
    ensures Kept(p, HeaderStep(p, v))
  {
  }

  lemma OtherShape(p: Parser, v: nat)
    requires InSelectors(p) || p.at == Coding1 || p.at == Coding3 || p.at.EndHdr? || p.at.Ccrc?
    ensures Kept(p, HeaderStep(p, v))
  {
    hide UndoSelectors;
  }

  lemma MapShape(p: Parser, v: nat)
    requires p.at == Mapping1 || p.at == Mapping2
    ensures Kept(p, HeaderStep(p, v))
  {
    hide NextUsed16, AlphaSize;
  }

  lemma LengthShape(p: Parser, v: nat)
    requires p.at == Coding2
    ensures var q := HeaderStep(p, v);
      q.at != Output && !q.at.Magic? && q.blockSize100k == p.blockSize100k
      && if StartsData(p, v) then q.list == Identity(256) && q.out == [] else Kept(p, q)
  {
    hide AlphaSize, BeginSymbol;
    if StartsData(p, v) {
      var q := p.(len := p.len + [p.curr]);
      SameAlpha(p, q);
      var r := q.(lens := q.lens + [q.len], len := []);
      BegunKept(r.(groupNo := -1, groupPos := 0, inRun := false, es := 0, N := 0, list := Identity(256), out := []));
    } else {
      SameAlpha(p, p.(len := p.len + [p.curr]));
    }
  }

  lemma MagicShape(p: Parser, v: nat)
    requires p.at.Magic?
    ensures var q := HeaderStep(p, v);
      q.list == p.list && q.out == p.out && !InData(q) && q.at != Output
      && (q.at != BlkHdr(1) ==> q.blockSize100k == p.blockSize100k)
  {
  }

  lemma HeaderShape(p: Parser, v: nat)
    requires !InData(p) && Need(p) > 0
    ensures var q := HeaderStep(p, v);
      if p.at.Magic? then
        q.list == p.list && q.out == p.out && !InData(q) && q.at != Output
        && (q.at != BlkHdr(1) ==> q.blockSize100k == p.blockSize100k)
      else if StartsData(p, v) then
        q.list == Identity(256) && q.out == [] && q.at != Output && !q.at.Magic? && q.blockSize100k == p.blockSize100k
      else Kept(p, q)
  {
    hide HeaderStep, AlphaSize;
    if p.at.Magic? {
      MagicShape(p, v);
    } else if p.at == Coding2 {
      LengthShape(p, v);
    } else if p.at == Mapping1 || p.at == Mapping2 {
      MapShape(p, v);
    } else if p.at.BlkHdr? || p.at.Bcrc? || p.at == RandBit || p.at.OrigPtr? {
      HeadShape(p, v);
    } else {
      OtherShape(p, v);
    }
  }

  lemma NewTables(p: Parser, v: nat)
    requires Reachable(p) && StartsData(p, v)
    ensures forall t | 0 <= t < |HeaderStep(p, v).lens| :: LenOk(HeaderStep(p, v).lens[t], AlphaSize(p))
  {
    hide BeginSymbol, LenOk;
    var r := p.(lens := p.lens + [p.len + [p.curr]], len := []);
    LensExtended(p, r);
    BegunKept(r.(groupNo := -1, groupPos := 0, inRun := false, es := 0, N := 0, list := Identity(256), out := []));
    LastLength(p);
    hide AlphaSize, HeaderStep;
    StepIsHeader(p, 0);
  }

  lemma DigitShape(p: Parser, q: Parser, sym: nat)
    requires Reachable(p) && InData(p) && (sym == RUNA || sym == RUNB) && q == Symbol(p, sym)
    ensures Reachable(q) && q.lens == p.lens && q.blockSize100k == p.blockSize100k && q.list == p.list && q.out == p.out
    ensures q.at != Output && !q.at.Magic?
  {
    DigitKept(p, sym);
    hide BeginSymbol, AlphaSize, LenOk, Least, Table;
    if !q.at.Failed? {
      SymbolReachable(p, sym);
    } else {
      hide Symbol;
      StoppedReachable(q);
    }
  }

  lemma DigitKept(p: Parser, sym: nat)
    requires sym == RUNA || sym == RUNB
    ensures var q := Symbol(p, sym);
      q.lens == p.lens && q.blockSize100k == p.blockSize100k && q.list == p.list && q.out == p.out && q.inUse == p.inUse
      && q.at != Output && q.at != Idle && !q.at.Magic? && q.at != Failed(OUTSIDE)
      && q.selectorMtf == p.selectorMtf && q.selector == p.selector
  {
    hide Least;
  }

  lemma BegunShape(p: Parser, q: Parser, r: Parser)
    requires Reachable(p) && InData(p) && q == p.(inRun := false) && r == BeginSymbol(q)
    ensures Reachable(r) && r.lens == p.lens && r.blockSize100k == p.blockSize100k && r.list == p.list && r.out == p.out
    ensures r.at != Output && !r.at.Magic?
  {
    BegunKept(q);
    hide BeginSymbol, LenOk;
    SameAlpha(p, q);
    hide AlphaSize;
    BeginReachable(q);
  }

  lemma BegunKept(q: Parser)
    ensures var r := BeginSymbol(q);
      r.lens == q.lens && r.blockSize100k == q.blockSize100k && r.list == q.list && r.out == q.out && r.at != Output && !r.at.Magic?
  {
    hide Least;
  }

  lemma RunDone(p: Parser, q: Parser)
    requires Reachable(p) && q == p.(inRun := false)
    ensures Reachable(q)
  {
    hide LenOk, Least;
    SameAlpha(p, q);
    hide AlphaSize;
  }
}
