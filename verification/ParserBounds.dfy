/**
 * BZ2_decompress stays within its tables, whatever the input: what every state of the machine satisfies, and so which
 * places of which arrays it touches.
 */
module ParserBounds {
  import opened BlockParser
  import opened CanonicalCodes
  import opened MoveToFront
  import opened MtfCoding
  import opened ParseData
  import opened ParseHeader
  import opened Words

  ghost predicate LenOk(l: seq<int>, alpha: nat) {
    && |l| == alpha && 3 <= alpha <= 258
    && forall i | 0 <= i < |l| :: 1 <= l[i] <= 20
  }

  predicate InTables(p: Parser) {
    p.at == Coding1 || p.at == Coding2 || p.at == Coding3
  }

  predicate InData(p: Parser) {
    p.at == MtfFirst || p.at == MtfMore
  }

  predicate InSelectors(p: Parser) {
    p.at == Selector1 || p.at == Selector2 || p.at == Selector3
  }

  /** The tables that are filled from the front do not grow past their arrays. */
  ghost predicate Bounded(p: Parser) {
    |p.inUse16| <= 16 && |p.inUse| <= 256 && |p.selectorMtf| <= MAXSELECTORS && |p.selector| <= MAXSELECTORS
  }

  /** The selectors read so far are positions on a list of nGroups. */
  ghost predicate Positions(p: Parser) {
    && 2 <= p.nGroups <= 6 && p.j < p.nGroups
    && forall i | 0 <= i < |p.selectorMtf| :: 0 <= p.selectorMtf[i] < p.nGroups
  }

  /** All selectors announced are there, and each is the number of a table. */
  ghost predicate Selected(p: Parser) {
    && 2 <= p.nGroups <= 6 && |p.selector| == p.nSelectors
    && forall i | 0 <= i < |p.selector| :: 0 <= p.selector[i] < p.nGroups
  }

  /** All tables are there. */
  ghost predicate Tabled(p: Parser) {
    && 3 <= AlphaSize(p) <= 258 && Selected(p) && |p.lens| == p.nGroups
    && forall t | 0 <= t < |p.lens| :: LenOk(p.lens[t], AlphaSize(p))
  }

  ghost predicate Reachable(p: Parser) {
    && Bounded(p)
    && (p.at == Mapping1 ==> |p.inUse16| < 16 && |p.inUse| == 256)
    && (p.at == Mapping2 ==> |p.inUse16| == 16 && |p.inUse| == 256 && p.i < 16 && p.j < 16)
    && (p.at == Selector2 ==> 2 <= p.nGroups <= 6)
    && (p.at == Selector3 ==> |p.selectorMtf| < p.nSelectors && Positions(p))
    && (p.at == Failed(OUTSIDE) ==> |p.selectorMtf| == MAXSELECTORS < p.nSelectors)
    && (InSelectors(p) || InTables(p) ==> 3 <= AlphaSize(p) <= 258)
    && (InTables(p) ==> Selected(p) && |p.lens| < p.nGroups)
    && (InTables(p) ==> forall t | 0 <= t < |p.lens| :: LenOk(p.lens[t], AlphaSize(p)))
    && (p.at == Coding2 || p.at == Coding3 ==>
          1 <= p.curr <= 20 && |p.len| < AlphaSize(p) && forall i | 0 <= i < |p.len| :: 1 <= p.len[i] <= 20)
    && (InData(p) ==>
          && Tabled(p) && 0 <= p.groupNo < |p.selector|
          && 1 <= Least(Table(p)) <= p.zn <= 21 && (p.at == MtfFirst ==> p.zn == Least(Table(p)) <= 20)
          && (p.inRun ==> p.es >= -1))
  }

  lemma AlphaBound(p: Parser)
    requires Bounded(p)
    ensures 2 <= AlphaSize(p) <= 258
  {
  }

  lemma SameTables(p: Parser, q: Parser)
    requires Tabled(p) && q.inUse == p.inUse && q.lens == p.lens
    requires q.nGroups == p.nGroups && q.selector == p.selector && q.nSelectors == p.nSelectors
    ensures Tabled(q) && AlphaSize(q) == AlphaSize(p)
  {
    hide LenOk;
    SameAlpha(p, q);
    hide AlphaSize;
  }

  lemma TableThere(p: Parser)
    requires Tabled(p) && 0 <= p.groupNo < |p.selector|
    ensures 0 <= p.selector[p.groupNo] < |p.lens| && Table(p) == p.lens[p.selector[p.groupNo]]
    ensures LenOk(Table(p), AlphaSize(p)) && Table(p) != [] && 1 <= Least(Table(p)) <= 20 && MinLen(Table(p)) == Least(Table(p))
  {
    hide AlphaSize;
    assert LenOk(Table(p), AlphaSize(p));
    LeastIsLeast(Table(p));
  }

  lemma DataReachable(p: Parser)
    requires Bounded(p) && Tabled(p) && InData(p) && 0 <= p.groupNo < |p.selector| && Table(p) != []
    requires 1 <= Least(Table(p)) <= p.zn <= 21 && (p.at == MtfFirst ==> p.zn == Least(Table(p)) <= 20)
    requires p.inRun ==> p.es >= -1
    ensures Reachable(p)
  {
    hide Tabled, Table, Least;
  }

  lemma FailedReachable(p: Parser)
    requires Bounded(p) && p.at == Failed(DATA_ERROR)
    ensures Reachable(p)
  {
    hide Tabled, Table, Least, AlphaSize;
  }

  /** GET_MTF_VAL finds a selector, unless they are used up, and its table. */
  lemma BeginReachable(p: Parser)
    requires Bounded(p) && Tabled(p)
    requires if p.groupPos == 0 then -1 <= p.groupNo else 0 <= p.groupNo < |p.selector|
    requires p.inRun ==> p.es >= -1
    ensures Reachable(BeginSymbol(p))
  {
    var q := if p.groupPos == 0 then p.(groupNo := p.groupNo + 1, groupPos := GROUP) else p;
    var r := BeginSymbol(p);
    SameTables(p, q);
    SelectorsThere(p);
    hide Tabled, Table, Least, MinLen, Reachable;
    if q.groupNo < q.nSelectors {
      TableThere(q);
      SameTables(p, r);
      assert Table(r) == Table(q) by { TableThere(r); }
      DataReachable(r);
    } else {
      FailedReachable(r);
    }
  }

  lemma SelectorsThere(p: Parser)
    requires Tabled(p)
    ensures |p.selector| == p.nSelectors
  {
  }

  lemma SameAlpha(p: Parser, q: Parser)
    requires q.inUse == p.inUse
    ensures AlphaSize(q) == AlphaSize(p)
  {
  }

  lemma PlainReachable(p: Parser, v: nat)
    requires Reachable(p) && !InData(p) && !InTables(p) && !InSelectors(p) && p.at != Mapping1 && p.at != Mapping2
    ensures Reachable(HeaderStep(p, v))
  {
    hide HeaderStep, Reachable;
    if p.at.BlkHdr? || p.at.Bcrc? || p.at == RandBit || p.at.OrigPtr? {
      HeadReachable(p, v);
    } else {
      EndReachable(p, v);
    }
  }

  lemma HeadReachable(p: Parser, v: nat)
    requires Reachable(p) && (p.at.BlkHdr? || p.at.Bcrc? || p.at == RandBit || p.at.OrigPtr?)
    ensures Reachable(HeaderStep(p, v))
  {
    hide AlphaSize, LenOk, Table, Least, UndoSelectors, StartMapping2, StartData, Identity, Tabled, Selected, Positions;
  }

  lemma EndReachable(p: Parser, v: nat)
    requires Reachable(p) && !InData(p) && !InTables(p) && !InSelectors(p) && p.at != Mapping1 && p.at != Mapping2
    requires !p.at.BlkHdr? && !p.at.Bcrc? && p.at != RandBit && !p.at.OrigPtr?
    ensures Reachable(HeaderStep(p, v))
  {
    hide AlphaSize, LenOk, Table, Least, UndoSelectors, StartMapping2, StartData, Identity, Tabled, Selected, Positions;
  }

  lemma MappingReachable(p: Parser, i: nat)
    requires Bounded(p) && |p.inUse16| == 16 && |p.inUse| == 256
    ensures Reachable(StartMapping2(p, i))
  {
    hide LenOk;
    AlphaBound(p);
    hide AlphaSize, NextUsed16;
    var q := StartMapping2(p, i);
    SameAlpha(p, q);
  }

  lemma SelectorReachable(p: Parser, v: nat)
    requires Reachable(p) && InSelectors(p)
    ensures Reachable(HeaderStep(p, v))
  {
    if p.at == Selector3 && v == 0 {
      hide HeaderStep, Reachable;
      OneSelector(p);
    } else {
      hide HeaderStep, Reachable;
      NoSelector(p, v);
    }
  }

  lemma NoSelector(p: Parser, v: nat)
    requires Reachable(p) && InSelectors(p) && (p.at == Selector3 ==> v != 0)
    ensures Reachable(HeaderStep(p, v))
  {
    hide AlphaSize, LenOk, UndoSelectors, Identity, Selected, Tabled, StartMapping2, StartData, CheckLength;
    SameAlpha(p, HeaderStep(p, v));
  }

  lemma OneSelector(p: Parser)
    requires Reachable(p) && p.at == Selector3
    ensures Reachable(HeaderStep(p, 0))
  {
    hide AlphaSize, LenOk, UndoSelectors, Identity, Tabled;
    SameAlpha(p, HeaderStep(p, 0));
    UndoInRange(p.nGroups, Identity(p.nGroups), p.selectorMtf + [p.j]);
  }

  /** Whatever the positions, undoing gives entries of the list. */
  lemma {:induction false} UndoInRange(n: nat, pos: seq<int>, mtf: seq<int>)
    requires n > 0 && forall i | 0 <= i < |pos| :: 0 <= pos[i] < n
    ensures forall i | 0 <= i < |mtf| :: 0 <= UndoSelectors(pos, mtf)[i] < n
    decreases |mtf|
  {
    if mtf != [] {
      if 0 <= mtf[0] < |pos| {
        UndoInRange(n, [pos[mtf[0]]] + pos[..mtf[0]] + pos[mtf[0] + 1..], mtf[1..]);
      } else {
        UndoInRange(n, pos, mtf[1..]);
      }
    }
  }

  lemma CodingReachable(p: Parser, v: nat)
    requires Reachable(p) && (p.at == Coding1 || p.at == Coding3 || (p.at == Coding2 && v != 0))
    ensures Reachable(HeaderStep(p, v))
  {
    hide AlphaSize, LenOk;
    SameAlpha(p, HeaderStep(p, v));
  }

  lemma HeaderReachable(p: Parser, v: nat)
    requires Reachable(p) && !InData(p)
    ensures Reachable(HeaderStep(p, v))
  {
    hide Reachable, HeaderStep;
    if p.at == Mapping1 {
      MapGroups(p, v);
    } else if p.at == Mapping2 {
      MapStep(p, v);
    } else if InSelectors(p) {
      SelectorReachable(p, v);
    } else if p.at == Coding2 && v == 0 {
      LengthDone(p);
    } else if InTables(p) {
      CodingReachable(p, v);
    } else {
      PlainReachable(p, v);
    }
  }

  lemma MapStep(p: Parser, v: nat)
    requires Reachable(p) && p.at == Mapping2
    ensures Reachable(HeaderStep(p, v))
  {
    UsesLittle(p);
    MappingParts(p);
    var q := MapStepIs(p, v);
    hide *;
    if p.j + 1 < 16 {
      StillMapping(q.(j := p.j + 1));
    }
    MappingReachable(q, p.i + 1);
  }

  lemma MapStepIs(p: Parser, v: nat) returns (q: Parser)
    requires p.at == Mapping2 && Bounded(p)
    ensures HeaderStep(p, v) == if p.j + 1 < 16 then q.(j := p.j + 1) else StartMapping2(q, p.i + 1)
    ensures q.at == Mapping2 && Bounded(q) && q.inUse16 == p.inUse16 && |q.inUse| == |p.inUse| && q.i == p.i
  {
    hide StartMapping2;
    var x := p.i * 16 + p.j;
    q := if v == 1 && x < |p.inUse| then p.(inUse := p.inUse[x := true]) else p;
  }

  lemma MapGroups(p: Parser, v: nat)
    requires Reachable(p) && p.at == Mapping1
    ensures Reachable(HeaderStep(p, v))
  {
    hide AlphaSize, LenOk, StartMapping2, Reachable, UndoSelectors, StartData, Identity, CheckLength;
    UsesLittle(p);
    MappingParts(p);
    var q := p.(inUse16 := p.inUse16 + [v == 1]);
    if |q.inUse16| < 16 {
      StillMapping(q);
    } else {
      MappingReachable(q, 0);
    }
  }

  lemma MappingParts(p: Parser)
    requires Reachable(p)
    ensures p.at == Mapping1 ==> |p.inUse16| < 16 && |p.inUse| == 256
    ensures p.at == Mapping2 ==> |p.inUse16| == 16 && |p.inUse| == 256 && p.i < 16 && p.j < 16
  {
  }

  lemma UsesLittle(p: Parser)
    requires Reachable(p)
    ensures Bounded(p)
  {
  }

  lemma StillMapping(p: Parser)
    requires p.at == Mapping1 || p.at == Mapping2
    requires Bounded(p) && |p.inUse| == 256
    requires if p.at == Mapping1 then |p.inUse16| < 16 else |p.inUse16| == 16 && p.i < 16 && p.j < 16
    ensures Reachable(p)
  {
  }

  lemma LengthDone(p: Parser)
    requires Reachable(p) && p.at == Coding2
    ensures Reachable(HeaderStep(p, 0))
  {
    hide BeginSymbol, AlphaSize, Identity, HeaderStep;
    if |p.len| + 1 < AlphaSize(p) {
      MoreLengths(p);
      SameAlpha(p, Step(p, 0));
    } else {
      LastLength(p);
      var r := p.(lens := p.lens + [p.len + [p.curr]], len := []);
      LensExtended(p, r);
      SameAlpha(p, r.(at := Coding1));
      if |r.lens| >= r.nGroups {
        var d := r.(groupNo := -1, groupPos := 0, inRun := false, es := 0, N := 0, list := Identity(256), out := []);
        SameAlpha(p, d);
        BeginReachable(d);
      }
    }
    hide Reachable;
    StepIsHeader(p, 0);
  }

  lemma StepIsCheck(p: Parser, v: nat)
    requires InData(p)
    ensures Step(p, v) == CheckCode(p.(zvec := if p.at == MtfFirst then v else 2 * p.zvec + v))
  {
    hide HeaderStep, CheckCode;
  }

  lemma StepIsHeader(p: Parser, v: nat)
    requires !InData(p)
    ensures Step(p, v) == HeaderStep(p, v)
  {
    hide HeaderStep;
  }

  lemma LensExtended(p: Parser, r: Parser)
    requires Reachable(p) && p.at == Coding2 && |p.len| + 1 == AlphaSize(p)
    requires r == p.(lens := p.lens + [p.len + [p.curr]], len := [])
    ensures AlphaSize(r) == AlphaSize(p) && forall t | 0 <= t < |r.lens| :: LenOk(r.lens[t], AlphaSize(p))
  {
    hide AlphaSize;
    SameAlpha(p, r);
    assert LenOk(p.len + [p.curr], AlphaSize(p));
    forall t | 0 <= t < |r.lens|
      ensures LenOk(r.lens[t], AlphaSize(p))
    {
      if t < |p.lens| {
        assert LenOk(p.lens[t], AlphaSize(p));
      }
    }
  }

  lemma SymbolReachable(p: Parser, sym: nat)
    requires Bounded(p) && Tabled(p) && InData(p) && 0 <= p.groupNo < |p.selector|
    requires p.inRun ==> p.es >= -1
    ensures Reachable(Symbol(p, sym)) || Symbol(p, sym).at.Failed?
  {
    hide Symbol;
    if sym == RUNA || sym == RUNB {
      DigitReachable(p, sym);
    } else {
      MoveReachable(p, sym);
    }
  }

  lemma DigitReachable(p: Parser, sym: nat)
    requires Bounded(p) && Tabled(p) && InData(p) && 0 <= p.groupNo < |p.selector| && (sym == RUNA || sym == RUNB)
    requires p.inRun ==> p.es >= -1
    ensures Reachable(Symbol(p, sym)) || Symbol(p, sym).at.Failed?
  {
    hide AlphaSize, BeginSymbol, Tabled, Reachable;
    var q := if p.inRun then p else p.(inRun := true, es := -1, N := 1);
    if q.N < RUNLIMIT {
      var r := q.(es := q.es + (sym + 1) * q.N, N := 2 * q.N);
      SameTables(p, r);
      assert (sym + 1) * q.N >= 0;
      BeginReachable(r);
    }
  }

  lemma MoveReachable(p: Parser, sym: nat)
    requires Bounded(p) && Tabled(p) && InData(p) && 0 <= p.groupNo < |p.selector| && sym > RUNB
    requires p.inRun ==> p.es >= -1
    ensures Reachable(Symbol(p, sym)) || Symbol(p, sym).at.Failed?
  {
    hide AlphaSize, BeginSymbol, Tabled, Unseq, Reachable, Repeat;
    var q := EndRun(p);
    if q.at.Failed? {
    } else if sym == AlphaSize(p) - 1 {
      if q.origPtr < |q.out| {
        DoneReachable(q.(at := Output));
      }
    } else if |q.out| < BlockMax(p) && sym - 1 < |q.list| {
      var uc := q.list[sym - 1];
      var r := q.(list := [uc] + q.list[..sym - 1] + q.list[sym..], out := q.out + [Unseq(q, uc)]);
      SameTables(p, r);
      BeginReachable(r);
    }
  }

  lemma DoneReachable(p: Parser)
    requires Bounded(p) && p.at == Output
    ensures Reachable(p)
  {
  }

  lemma SymbolBounded(p: Parser, sym: nat)
    requires Bounded(p) && InData(p)
    ensures Bounded(Symbol(p, sym)) && Symbol(p, sym).at != Failed(OUTSIDE)
  {
    hide AlphaSize, BeginSymbol, Unseq, Repeat, BlockMax;
    if sym == RUNA || sym == RUNB {
      var q := if p.inRun then p else p.(inRun := true, es := -1, N := 1);
      BegunBounded(q.(es := q.es + (sym + 1) * q.N, N := 2 * q.N));
    } else {
      var q := EndRun(p);
      if sym - 1 < |q.list| {
        var uc := q.list[sym - 1];
        BegunBounded(q.(list := [uc] + q.list[..sym - 1] + q.list[sym..], out := q.out + [Unseq(q, uc)]));
      }
    }
  }

  lemma BegunBounded(p: Parser)
    requires Bounded(p)
    ensures Bounded(BeginSymbol(p)) && BeginSymbol(p).at != Failed(OUTSIDE)
  {
    hide Least;
  }

  lemma CheckBounded(p: Parser, v: nat)
    requires Bounded(p) && InData(p)
    ensures Bounded(Step(p, v)) && Step(p, v).at != Failed(OUTSIDE)
  {
    StepIsCheck(p, v);
    hide Step, Symbol, SymbolAt, LimitAt;
    var q := p.(zvec := if p.at == MtfFirst then v else 2 * p.zvec + v);
    var r := SymbolAt(Table(q), q.zn, q.zvec);
    if r.Found? {
      SymbolBounded(q, r.sym);
    }
  }

  lemma CheckReachable(p: Parser, v: nat)
    requires Reachable(p) && InData(p)
    ensures Reachable(Step(p, v)) || Step(p, v).at.Failed?
  {
    StepIsCheck(p, v);
    hide Step, Symbol, SymbolAt, LimitAt, AlphaSize, LenOk, Least;
    var q := p.(zvec := if p.at == MtfFirst then v else 2 * p.zvec + v);
    Searching(p, q);
    SearchReachable(q);
  }

  lemma SearchReachable(q: Parser)
    requires Reachable(q) && InData(q)
    ensures Reachable(CheckCode(q)) || CheckCode(q).at.Failed?
  {
    SearchParts(q);
    hide *;
    if q.zn <= 20 && q.zvec > LimitAt(Table(q), q.zn) {
      LongerCode(q, q.(zn := q.zn + 1, at := MtfMore));
    } else if SymbolAt(Table(q), q.zn, q.zvec).Found? {
      SymbolReachable(q, SymbolAt(Table(q), q.zn, q.zvec).sym);
    }
  }

  lemma SearchParts(q: Parser)
    requires Reachable(q) && InData(q)
    ensures CheckCode(q) == if q.zn > 20 then Fail(q, DATA_ERROR)
      else if q.zvec <= LimitAt(Table(q), q.zn) then
        var r := SymbolAt(Table(q), q.zn, q.zvec);
        if r.Found? then Symbol(q, r.sym) else Fail(q, DATA_ERROR)
      else q.(zn := q.zn + 1, at := MtfMore)
    ensures Bounded(q) && Tabled(q) && 0 <= q.groupNo < |q.selector|
    ensures q.inRun ==> q.es >= -1
    ensures Fail(q, DATA_ERROR).at.Failed?
  {
    hide Symbol, SymbolAt, LimitAt, AlphaSize, LenOk, Least, Table;
  }

  lemma LongerCode(p: Parser, q: Parser)
    requires Reachable(p) && InData(p) && p.zn <= 20 && q == p.(zn := p.zn + 1, at := MtfMore)
    ensures Reachable(q)
  {
    hide LenOk, Least;
    SameAlpha(p, q);
    hide AlphaSize;
  }

  lemma Searching(p: Parser, q: Parser)
    requires Reachable(p) && InData(p) && q == p.(zvec := q.zvec)
    ensures Reachable(q)
  {
    hide LenOk, Least;
    SameAlpha(p, q);
    hide AlphaSize;
  }

  lemma StoppedReachable(p: Parser)
    requires Bounded(p) && Need(p) == 0 && !InData(p) && p.at != Failed(OUTSIDE)
    ensures Reachable(p)
  {
  }

  lemma StoppedAt(p: Parser)
    requires Reachable(p)
    ensures Need(p) == 0 <==> p.at == Output || p.at == Idle || p.at.Failed?
  {
    hide AlphaSize, LenOk, Table, Least;
  }

  lemma BlockStartReachable(p: Parser)
    requires Bounded(p) && p.at == BlkHdr(1)
    ensures Reachable(p)
  {
  }

  // ---------- the rows of len, and the move-to-front list ----------

  /** len[t][i] is written for t < 6 and i < 258 only. */
  ghost predicate Sized(p: Parser) {
    |p.lens| <= 6 && |p.len| <= 258 && forall t | 0 <= t < |p.lens| :: |p.lens[t]| <= 258
  }

  lemma LengthSized(p: Parser, v: nat)
    requires Reachable(p) && Sized(p) && p.at == Coding2
    ensures Sized(HeaderStep(p, v))
  {
    hide AlphaSize, BeginSymbol, LenOk, Identity;
    SameAlpha(p, p.(len := p.len + [p.curr]));
    var r := p.(lens := p.lens + [p.len + [p.curr]], len := []);
    BegunKeeps(r.(groupNo := -1, groupPos := 0, inRun := false, es := 0, N := 0, list := Identity(256), out := []));
  }

  lemma BegunKeeps(p: Parser)
    ensures var q := BeginSymbol(p);
      q.lens == p.lens && q.len == p.len && q.list == p.list && q.inUse == p.inUse && (q.at == MtfFirst || q.at.Failed?)
  {
    hide Table, MinLen;
  }

  lemma HeaderSized(p: Parser, v: nat)
    requires Sized(p) && !InData(p) && p.at != Coding2
    ensures Sized(HeaderStep(p, v)) && !InData(HeaderStep(p, v))
  {
    hide HeaderStep, Sized;
    if InSelectors(p) || p.at == Mapping1 || p.at == Mapping2 || p.at == Coding1 || p.at == Coding3 {
      TableSized(p, v);
    } else {
      HeadSized(p, v);
    }
  }

  lemma TableSized(p: Parser, v: nat)
    requires Sized(p)
    requires InSelectors(p) || p.at == Mapping1 || p.at == Mapping2 || p.at == Coding1 || p.at == Coding3
    ensures Sized(HeaderStep(p, v)) && !InData(HeaderStep(p, v))
  {
    hide AlphaSize, UndoSelectors, NextUsed16, Identity;
  }

  lemma HeadSized(p: Parser, v: nat)
    requires Sized(p) && !InData(p) && !InTables(p) && !InSelectors(p) && p.at != Mapping1 && p.at != Mapping2
    ensures Sized(HeaderStep(p, v)) && !InData(HeaderStep(p, v))
  {
    if p.at.BlkHdr? || p.at.Bcrc? || p.at == RandBit || p.at.OrigPtr? {
      HeadLengths(p, v);
    } else {
      EndLengths(p, v);
    }
    hide HeaderStep;
    StillSized(p, HeaderStep(p, v));
  }

  lemma HeadLengths(p: Parser, v: nat)
    requires p.at.BlkHdr? || p.at.Bcrc? || p.at == RandBit || p.at.OrigPtr?
    ensures var q := HeaderStep(p, v); q.lens == p.lens && q.len == p.len && !InData(q)
  {
    hide StartMapping2, CheckLength, StartData, UndoSelectors, EndByte, MagicByte;
  }

  lemma EndLengths(p: Parser, v: nat)
    requires !InData(p) && !InTables(p) && !InSelectors(p) && p.at != Mapping1 && p.at != Mapping2
    requires !p.at.BlkHdr? && !p.at.Bcrc? && p.at != RandBit && !p.at.OrigPtr?
    ensures var q := HeaderStep(p, v); q.lens == p.lens && q.len == p.len && !InData(q)
  {
    hide StartMapping2, CheckLength, StartData, UndoSelectors, HdrByte;
  }

  lemma SymbolKeeps(p: Parser, sym: nat)
    requires InData(p)
    ensures var q := Symbol(p, sym); q.lens == p.lens && q.len == p.len && q.inUse == p.inUse
    ensures var q := Symbol(p, sym);
      InData(q) ==> q.list == p.list || (RUNB < sym <= |p.list| && sym != AlphaSize(p) - 1
                                         && q.list == [p.list[sym - 1]] + p.list[..sym - 1] + p.list[sym..])
  {
    hide AlphaSize, BeginSymbol, Unseq, Repeat, BlockMax;
    if sym == RUNA || sym == RUNB {
      var q := if p.inRun then p else p.(inRun := true, es := -1, N := 1);
      BegunKeeps(q.(es := q.es + (sym + 1) * q.N, N := 2 * q.N));
    } else {
      var q := EndRun(p);
      if sym - 1 < |q.list| {
        var uc := q.list[sym - 1];
        BegunKeeps(q.(list := [uc] + q.list[..sym - 1] + q.list[sym..], out := q.out + [Unseq(q, uc)]));
      }
    }
  }

  /** nInUse. */
  function Used(p: Parser): nat {
    |SeqToUnseq(p.inUse, |p.inUse|)|
  }

  /** In the block data the list has 256 entries, and those a symbol can ask for are numbers of characters in use. */
  ghost predicate Listed(p: Parser) {
    InData(p) ==> |p.list| == 256 && forall x | 0 <= x < Used(p) && x < 256 :: 0 <= p.list[x] < Used(p)
  }

  lemma MovedListed(list: seq<int>, n: nat, k: nat)
    requires |list| == 256 && k < n <= 256 && forall x | 0 <= x < n :: 0 <= list[x] < n
    ensures var l := [list[k]] + list[..k] + list[k + 1..];
      |l| == 256 && forall x | 0 <= x < n :: 0 <= l[x] < n
  {
  }

  lemma UsedIs(p: Parser, q: Parser)
    requires q.inUse == p.inUse
    ensures Used(q) == Used(p) && AlphaSize(p) == Used(p) + 2
  {
  }

  /** A symbol is one of its table. */
  lemma SymbolInTable(lens: seq<int>, n: nat, zvec: nat)
    ensures SymbolAt(lens, n, zvec).Found? ==> SymbolAt(lens, n, zvec).sym < |lens|
  {
    hide Least, Greatest;
  }

  /** None of the tests the source does not make ever strikes: the places named are there. */
  lemma SymbolInRange(p: Parser, sym: nat)
    requires Reachable(p) && Listed(p) && InData(p) && sym < AlphaSize(p)
    ensures p.list != [] && (p.inRun ==> p.es + 1 >= 0) && 0 <= p.list[0] < Used(p)
    ensures sym > RUNB && sym != AlphaSize(p) - 1 ==> sym - 1 < Used(p) <= |p.list| && 0 <= p.list[sym - 1] < Used(p)
  {
    hide SeqToUnseq, LenOk, Least;
    UsedIs(p, p);
  }

  lemma SymbolListed(p: Parser, sym: nat)
    requires Reachable(p) && Listed(p) && InData(p) && sym < AlphaSize(p)
    ensures Listed(Symbol(p, sym))
  {
    SymbolKeeps(p, sym);
    SymbolInRange(p, sym);
    ListParts(p);
    var q := Symbol(p, sym);
    UsedIs(p, q);
    hide Symbol, Reachable, Used, AlphaSize;
    if InData(q) && q.list != p.list {
      MovedListed(p.list, Used(p), sym - 1);
    }
  }

  lemma ListParts(p: Parser)
    requires Reachable(p) && Listed(p) && InData(p)
    ensures |p.list| == 256 && 0 < Used(p) <= 256 && forall x | 0 <= x < Used(p) :: 0 <= p.list[x] < Used(p)
  {
    hide SeqToUnseq, LenOk, Least;
    UsedIs(p, p);
  }

  // ---------- whole runs ----------

  /** What every state of a run satisfies: one that has failed with an error is of no further use. */
  ghost predicate Steady(p: Parser) {
    && Bounded(p) && Sized(p) && Listed(p)
    && (Reachable(p) || p.at == Failed(DATA_ERROR) || p.at == Failed(DATA_ERROR_MAGIC))
  }

  lemma SearchSteady(p: Parser)
    requires Reachable(p) && Sized(p) && Listed(p) && InData(p)
    ensures Sized(CheckCode(p)) && Listed(CheckCode(p))
  {
    SearchParts(p);
    var r := SymbolAt(Table(p), p.zn, p.zvec);
    SymbolInTable(Table(p), p.zn, p.zvec);
    TableThere(p);
    hide *;
    if p.zn <= 20 && p.zvec <= LimitAt(Table(p), p.zn) && r.Found? {
      AsLongAs(p);
      SymbolKeeps(p, r.sym);
      SymbolListed(p, r.sym);
      StillSized(p, Symbol(p, r.sym));
    } else {
      NewPlace(p, CheckCode(p));
    }
  }

  lemma AsLongAs(p: Parser)
    requires LenOk(Table(p), AlphaSize(p))
    ensures |Table(p)| == AlphaSize(p)
  {
    hide AlphaSize, Table;
  }

  lemma StillSized(p: Parser, q: Parser)
    requires Sized(p) && q.lens == p.lens && q.len == p.len
    ensures Sized(q)
  {
  }

  lemma NewPlace(p: Parser, q: Parser)
    requires Sized(p) && Listed(p) && InData(p) && q == p.(zn := q.zn, at := q.at)
    ensures Sized(q) && Listed(q)
  {
    UsedIs(p, q);
    hide Used;
  }

  lemma DataSteady(p: Parser, v: nat)
    requires Steady(p) && InData(p)
    ensures Steady(Step(p, v))
  {
    CheckBounded(p, v);
    CheckReachable(p, v);
    StepIsCheck(p, v);
    hide Step, Reachable, CheckCode, Sized, Used;
    var q := p.(zvec := if p.at == MtfFirst then v else 2 * p.zvec + v);
    Searching(p, q);
    StillSized(p, q);
    UsedIs(p, q);
    SearchSteady(q);
    DataFails(q);
  }

  lemma DataFails(p: Parser)
    requires InData(p)
    ensures CheckCode(p).at.Failed? ==> CheckCode(p).at == Failed(DATA_ERROR)
  {
    hide Symbol, LimitAt, SymbolAt, Table;
    var r := SymbolAt(Table(p), p.zn, p.zvec);
    if r.Found? {
      SymbolFails(p, r.sym);
    }
  }

  lemma SymbolFails(p: Parser, sym: nat)
    requires InData(p)
    ensures Symbol(p, sym).at.Failed? ==> Symbol(p, sym).at == Failed(DATA_ERROR)
  {
    hide AlphaSize, Unseq, Repeat, BlockMax, Table, MinLen;
  }

  lemma StepSteady(p: Parser, v: nat)
    requires Steady(p) && Need(p) > 0
    ensures Steady(Step(p, v))
  {
    if InData(p) {
      hide *;
      DataSteady(p, v);
    } else {
      StepIsHeader(p, v);
      hide Step, HeaderStep, Reachable, BeginSymbol, Sized;
      HeaderReachable(p, v);
      UsesLittle(HeaderStep(p, v));
      if p.at == Coding2 {
        LengthSized(p, v);
        LengthListed(p, v);
      } else {
        HeaderSized(p, v);
      }
    }
  }

  lemma LengthListed(p: Parser, v: nat)
    requires p.at == Coding2
    ensures Listed(HeaderStep(p, v))
  {
    hide AlphaSize, BeginSymbol, Used;
    var r := p.(lens := p.lens + [p.len + [p.curr]], len := []);
    var d := r.(groupNo := -1, groupPos := 0, inRun := false, es := 0, N := 0, list := Identity(256), out := []);
    BegunKeeps(d);
    SameAlpha(p, p.(len := p.len + [p.curr]));
  }

  /**
   * The places BZ2_decompress names. Everything read so far fits its array: inUse16[16], inUse[256], selectorMtf and
   * selector, len[6][258]; and where the next place is computed from the input it is there: inUse[i * 16 + j], pos[j],
   * selector[groupNo] and the table it selects, the entries of the list and of seqToUnseq. The machine stops before a write
   * past selectorMtf, and only if more than 18002 selectors are announced.
   */
  ghost predicate InBounds(p: Parser) {
    && |p.inUse16| <= 16 && |p.inUse| <= 256 && |p.selectorMtf| <= MAXSELECTORS && |p.selector| <= MAXSELECTORS
    && |p.lens| <= 6 && |p.len| <= 258 && (forall t | 0 <= t < |p.lens| :: |p.lens[t]| <= 258)
    && (p.at == Mapping1 ==> |p.inUse16| < 16)
    && (p.at == Mapping2 ==> p.i < |p.inUse16| && p.i * 16 + p.j < |p.inUse| == 256)
    && (p.at == Selector3 ==> p.j < p.nGroups <= 6)
    && (InTables(p) ==> |p.lens| < p.nGroups <= 6)
    && (p.at == Coding2 || p.at == Coding3 ==> |p.len| < 258)
    && (InTables(p) || InData(p) ==>
          |p.selector| == p.nSelectors && forall i | 0 <= i < |p.selector| :: 0 <= p.selector[i] < p.nGroups)
    && (InData(p) ==>
          && 0 <= p.groupNo < |p.selector| && |p.lens| == p.nGroups && p.zn <= 21
          && |p.list| == 256 && forall x | 0 <= x < Used(p) && x < 256 :: 0 <= p.list[x] < Used(p))
    && (p.at == Failed(OUTSIDE) ==> |p.selectorMtf| == MAXSELECTORS < p.nSelectors)
  }

  lemma SteadyInBounds(p: Parser)
    requires Steady(p)
    ensures InBounds(p)
  {
    hide Used, Least, LenOk, Table, AlphaSize;
  }

  /** Whatever the input, from any steady state on. */
  lemma {:induction false} RunInBounds(p: Parser, bits: seq<bool>)
    requires Steady(p)
    ensures Steady(Drive(p, bits).0) && InBounds(Drive(p, bits).0)
    decreases |bits|
  {
    hide Step, Steady, InBounds;
    var n := Need(p);
    SteadyInBounds(p);
    if n != 0 && |bits| >= n {
      StepSteady(p, Val(bits[..n]));
      RunInBounds(Step(p, Val(bits[..n])), bits[n..]);
    }
  }

  lemma FreshSteady()
    ensures Steady(Fresh())
  {
    hide Identity, Table, Tabled, Selected;
  }

  lemma NextBlockSteady(p: Parser)
    requires Steady(p) && p.at == Output
    ensures Steady(p.(at := BlkHdr(1)))
  {
    hide Table, Used, LenOk;
  }

  /** The machine after some blocks: each run ends with a block read, and the next begins where its bits end. */
  ghost function AfterBlocks(p: Parser, bits: seq<bool>, blocks: nat): (Parser, seq<bool>)
    decreases blocks
  {
    var d := Drive(p, bits);
    if blocks == 0 || d.0.at != Output then d else AfterBlocks(d.0.(at := BlkHdr(1)), d.1, blocks - 1)
  }

  lemma {:induction false} BlocksInBounds(p: Parser, bits: seq<bool>, blocks: nat)
    requires Steady(p)
    ensures InBounds(AfterBlocks(p, bits, blocks).0)
    decreases blocks
  {
    hide Steady, InBounds, Drive;
    var d := Drive(p, bits);
    RunInBounds(p, bits);
    if blocks > 0 && d.0.at == Output {
      NextBlockSteady(d.0);
      BlocksInBounds(d.0.(at := BlkHdr(1)), d.1, blocks - 1);
    }
  }

  /** Every state of every stream is in bounds, however many blocks it has. */
  lemma StreamInBounds(bits: seq<bool>, blocks: nat)
    ensures InBounds(AfterBlocks(Fresh(), bits, blocks).0)
  {
    hide *;
    FreshSteady();
    BlocksInBounds(Fresh(), bits, blocks);
  }
}
