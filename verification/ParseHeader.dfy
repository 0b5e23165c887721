/** The parser reads back what comes before the block data. */
module ParseHeader {
  import opened Basics
  import opened Bits
  import opened BlockFormat
  import opened BlockParser
  import opened MoveToFront
  import opened MtfCoding
  import opened Permutations
  import opened Words

  lemma RunBits(p: Parser, s: seq<bool>, rest: seq<bool>)
    requires Need(p) == |s| > 0
    ensures Drive(p, s + rest) == Drive(Step(p, Val(s)), rest)
  {
    hide Step, Val;
    assert (s + rest)[..|s|] == s && (s + rest)[|s|..] == rest;
  }

  lemma RunByte(p: Parser, v: int, rest: seq<bool>)
    requires Need(p) == 8 && 0 <= v < 256
    ensures Drive(p, Bin(v, 8) + rest) == Drive(Step(p, v), rest)
  {
    Pow2Values();
    RunOne(p, v, 8, rest);
  }

  lemma BytesThenFront(a: int, more: seq<int>, rest: seq<bool>)
    requires 0 <= a < 256 && forall i | 0 <= i < |more| :: 0 <= more[i] < 256
    ensures BytesThen([a] + more, rest) == Bin(a, 8) + BytesThen(more, rest)
  {
    assert ([a] + more)[1..] == more;
  }

  /** Bytes k, ..., 6 of the block's magic number. */
  lemma {:induction false} ParseMagic(p: Parser, k: nat, more: seq<int>, rest: seq<bool>)
    requires 1 <= k <= 6 && p.at == BlkHdr(k) && forall i | 0 <= i < |more| :: 0 <= more[i] < 256
    ensures Drive(p, BytesThen(BLOCKMAGIC[k - 1..] + more, rest))
            == Drive(p.(at := Bcrc(1), storedBlockCRC := 0), BytesThen(more, rest))
    decreases 6 - k
  {
    hide *;
    MagicStep(p, k);
    var v, left := BLOCKMAGIC[k - 1], BLOCKMAGIC[k..];
    assert BLOCKMAGIC[k - 1..] + more == [v] + (left + more);
    BytesThenFront(v, left + more, rest);
    RunByte(p, v, BytesThen(left + more, rest));
    if k < 6 {
      ParseMagic(p.(at := BlkHdr(k + 1)), k + 1, more, rest);
    } else {
      assert left + more == more;
    }
  }

  lemma MagicStep(p: Parser, k: nat)
    requires 1 <= k <= 6 && p.at == BlkHdr(k)
    ensures Need(p) == 8 && |BLOCKMAGIC| == 6 && forall i | 0 <= i < 6 :: 0 <= BLOCKMAGIC[i] < 256
    ensures Step(p, BLOCKMAGIC[k - 1]) == if k < 6 then p.(at := BlkHdr(k + 1)) else p.(at := Bcrc(1), storedBlockCRC := 0)
  {
  }

  lemma ParseCrcByte(p: Parser, k: nat, v: int, more: seq<int>, rest: seq<bool>)
    requires 1 <= k <= 4 && p.at == Bcrc(k) && 0 <= v < 256 && forall i | 0 <= i < |more| :: 0 <= more[i] < 256
    requires p.storedBlockCRC * 256 + v < 0x1_0000_0000
    ensures Drive(p, BytesThen([v] + more, rest))
            == Drive(p.(at := if k < 4 then Bcrc(k + 1) else RandBit, storedBlockCRC := p.storedBlockCRC * 256 + v),
                   BytesThen(more, rest))
  {
    hide Drive, BytesThen, Step;
    BytesThenFront(v, more, rest);
    CrcStep(p, k, v);
    RunByte(p, v, BytesThen(more, rest));
  }

  lemma CrcStep(p: Parser, k: nat, v: int)
    requires 1 <= k <= 4 && p.at == Bcrc(k) && 0 <= v < 256 && p.storedBlockCRC * 256 + v < 0x1_0000_0000
    ensures Need(p) == 8
    ensures Step(p, v) == p.(at := if k < 4 then Bcrc(k + 1) else RandBit, storedBlockCRC := p.storedBlockCRC * 256 + v)
  {
  }

  lemma ParseCrc(p: Parser, crc: nat, rest: seq<bool>)
    requires p.at == Bcrc(1) && p.storedBlockCRC == 0 && crc < 0x1_0000_0000
    ensures Drive(p, BytesThen(WordBytes(crc), rest)) == Drive(p.(at := RandBit, storedBlockCRC := crc), rest)
  {
    hide *;
    var a, b, c, d := FourBytes(crc);
    ParseFourBytes(p, a, b, c, d, rest);
  }

  lemma FourBytes(u: nat) returns (a: int, b: int, c: int, d: int)
    requires u < 0x1_0000_0000
    ensures 0 <= a < 256 && 0 <= b < 256 && 0 <= c < 256 && 0 <= d < 256
    ensures WordBytes(u) == [a, b, c, d] && ((a * 256 + b) * 256 + c) * 256 + d == u
  {
    a, b, c, d := u / 16777216 % 256, u / 65536 % 256, u / 256 % 256, u % 256;
    var x := u / 65536;
    assert u / 16777216 == x / 256 < 256;
    assert u / 256 == x * 256 + c;
  }

  lemma ParseFourBytes(p: Parser, a: int, b: int, c: int, d: int, rest: seq<bool>)
    requires p.at == Bcrc(1) && p.storedBlockCRC == 0
    requires 0 <= a < 256 && 0 <= b < 256 && 0 <= c < 256 && 0 <= d < 256
    ensures Drive(p, BytesThen([a, b, c, d], rest))
            == Drive(p.(at := RandBit, storedBlockCRC := ((a * 256 + b) * 256 + c) * 256 + d), rest)
  {
    hide *;
    assert [a, b] + [c, d] == [a, b, c, d] && [c, d] + [] == [c, d];
    ParseTwoBytes(p, 1, a, b, [c, d], rest);
    ParseTwoBytes(p.(at := Bcrc(3), storedBlockCRC := a * 256 + b), 3, c, d, [], rest);
    NoBytesLeft(rest);
  }

  lemma ParseTwoBytes(p: Parser, k: nat, a: int, b: int, more: seq<int>, rest: seq<bool>)
    requires (k == 1 || k == 3) && p.at == Bcrc(k) && p.storedBlockCRC < 65536
    requires 0 <= a < 256 && 0 <= b < 256 && forall i | 0 <= i < |more| :: 0 <= more[i] < 256
    ensures Drive(p, BytesThen([a, b] + more, rest))
            == Drive(p.(at := if k == 1 then Bcrc(3) else RandBit,
                        storedBlockCRC := (p.storedBlockCRC * 256 + a) * 256 + b), BytesThen(more, rest))
  {
    hide *;
    assert [a] + ([b] + more) == [a, b] + more;
    ParseCrcByte(p, k, a, [b] + more, rest);
    ParseCrcByte(p.(at := Bcrc(k + 1), storedBlockCRC := p.storedBlockCRC * 256 + a), k + 1, b, more, rest);
  }

  lemma NoBytesLeft(rest: seq<bool>)
    ensures BytesThen([], rest) == rest
  {
  }

  /** The row number, fetched as three bytes. */
  lemma ParseOrigPtr(p: Parser, v: nat, rest: seq<bool>)
    requires p.at == OrigPtr(1) && p.origPtr == 0 && v <= 10 + 100000 * p.blockSize100k && v < Pow2(24)
    ensures Drive(p, Bin(v, 24) + rest)
            == Drive(p.(at := Mapping1, origPtr := v, inUse16 := [], inUse := seq(256, _ => false)), rest)
  {
    hide *;
    var a, b, c := ThreeBytes(v);
    var s := a + (b + (c + rest));
    assert Bin(v, 24) + rest == s;
    OrigPtrStep(p, 1, Val(a));
    RunBits(p, a, b + (c + rest));
    var p2 := p.(at := OrigPtr(2), origPtr := Val(a));
    OrigPtrStep(p2, 2, Val(b));
    RunBits(p2, b, c + rest);
    var p3 := p.(at := OrigPtr(3), origPtr := Val(a) * 256 + Val(b));
    OrigPtrStep(p3, 3, Val(c));
    RunBits(p3, c, rest);
  }

  lemma ThreeBytes(v: nat) returns (a: seq<bool>, b: seq<bool>, c: seq<bool>)
    requires v < Pow2(24)
    ensures |a| == |b| == |c| == 8 && Bin(v, 24) == a + b + c
    ensures (Val(a) * 256 + Val(b)) * 256 + Val(c) == v
  {
    hide Val, Bin;
    var s := Bin(v, 24);
    ValOfBin(v, 24);
    a, b, c := s[..8], s[8..16], s[16..];
    assert a + b + c == s;
    ValConcat(a, b);
    ValConcat(a + b, c);
    Pow2Values();
  }

  lemma OrigPtrStep(p: Parser, k: nat, v: nat)
    requires 1 <= k <= 3 && p.at == OrigPtr(k)
    requires k == 3 ==> p.origPtr * 256 + v <= 10 + 100000 * p.blockSize100k
    ensures Need(p) == 8
    ensures Step(p, v) == if k < 3 then p.(at := OrigPtr(k + 1), origPtr := p.origPtr * 256 + v)
      else p.(at := Mapping1, origPtr := p.origPtr * 256 + v, inUse16 := [], inUse := seq(256, _ => false))
  {
  }

  lemma RandStep(p: Parser)
    requires p.at == RandBit
    ensures Need(p) == 1 && Step(p, 0) == p.(at := OrigPtr(1), randomised := false, origPtr := 0)
  {
  }

  lemma WordOfBytes(crc: nat)
    ensures |WordBytes(crc)| == 4 && forall i | 0 <= i < 4 :: 0 <= WordBytes(crc)[i] < 256
  {
  }

  lemma ParseHead(p: Parser, crc: nat, origPtr: nat, rest: seq<bool>)
    requires p.at == BlkHdr(1) && crc < 0x1_0000_0000
    requires origPtr <= 10 + 100000 * p.blockSize100k && origPtr < Pow2(24)
    ensures Drive(p, BytesThen(BLOCKMAGIC + WordBytes(crc), [false] + (Bin(origPtr, 24) + rest)))
            == Drive(p.(at := Mapping1, storedBlockCRC := crc, randomised := false, origPtr := origPtr, inUse16 := [],
                      inUse := seq(256, _ => false)), rest)
  {
    hide *;
    var r1 := Bin(origPtr, 24) + rest;
    assert BLOCKMAGIC[0..] == BLOCKMAGIC;
    WordOfBytes(crc);
    RandStep(p.(at := RandBit, storedBlockCRC := crc));
    ParseMagic(p, 1, WordBytes(crc), [false] + r1);
    ParseCrc(p.(at := Bcrc(1), storedBlockCRC := 0), crc, [false] + r1);
    var p2 := p.(at := RandBit, storedBlockCRC := crc);
    RunBit(p2, false, r1);
    ParseOrigPtr(p2.(at := OrigPtr(1), randomised := false, origPtr := 0), origPtr, rest);
  }

  // ---------- the mapping table ----------

  lemma {:induction false} ParseUsed16(p: Parser, u: seq<bool>, rest: seq<bool>)
    requires p.at == Mapping1 && |u| == 16 && |p.inUse16| < 16 && p.inUse16 == u[..|p.inUse16|]
    ensures Drive(p, u[|p.inUse16|..] + rest) == Drive(StartMapping2(p.(inUse16 := u), 0), rest)
    decreases 16 - |p.inUse16|
  {
    hide Drive, StartMapping2;
    var k := |p.inUse16|;
    assert u[k..] + rest == [u[k]] + (u[k + 1..] + rest);
    RunBit(p, u[k], u[k + 1..] + rest);
    var q := p.(inUse16 := p.inUse16 + [u[k]]);
    assert q.inUse16 == u[..k + 1];
    if k + 1 < 16 {
      ParseUsed16(q, u, rest);
    } else {
      assert u[16..] + rest == rest && u[..16] == u;
    }
  }

  /** The characters in use below n. */
  function UsedBelow(u: seq<bool>, n: nat): (r: seq<bool>)
    ensures |r| == |u| && forall x | 0 <= x < |u| :: r[x] == (x < n && u[x])
  {
    seq(|u|, x requires 0 <= x < |u| => x < n && u[x])
  }

  /** The rest of one group of 16. */
  lemma {:induction false} ParseGroup(p: Parser, u: seq<bool>, i: nat, j: nat, rest: seq<bool>)
    requires p.at == Mapping2 && p.i == i < 16 && p.j == j < 16 && |u| == 256
    requires p.inUse == UsedBelow(u, 16 * i + j)
    ensures Drive(p, u[16 * i + j..16 * i + 16] + rest)
            == Drive(StartMapping2(p.(j := 15, inUse := UsedBelow(u, 16 * i + 16)), i + 1), rest)
    decreases 16 - j
  {
    hide Drive, StartMapping2;
    var x := 16 * i + j;
    assert u[x..16 * i + 16] + rest == [u[x]] + (u[x + 1..16 * i + 16] + rest);
    RunBit(p, u[x], u[x + 1..16 * i + 16] + rest);
    var next := if u[x] then p.inUse[x := true] else p.inUse;
    assert next == UsedBelow(u, x + 1);
    if j + 1 < 16 {
      ParseGroup(p.(inUse := next, j := j + 1), u, i, j + 1, rest);
    } else {
      assert u[x + 1..16 * i + 16] + rest == rest;
    }
  }

  /** All groups from i on; i and j of the result are of no further use. */
  lemma {:induction false} ParseGroups(p: Parser, u: seq<bool>, i: nat, rest: seq<bool>) returns (q: Parser)
    requires i <= 16 && |u| == 256 && p.inUse16 == Used16(u) && p.inUse == UsedBelow(u, 16 * i)
    requires Numbering(u, 256) > 0
    ensures Drive(StartMapping2(p, i), GroupsThen(u, i, rest)) == Drive(q, rest)
    ensures q == p.(at := Selector1, inUse := u, i := q.i, j := q.j)
    decreases 16 - i
  {
    hide *;
    GroupsUnfold(u, i, rest);
    if i == 16 {
      NoMoreGroups(p);
      q := p.(at := Selector1);
    } else if Used16(u)[i] {
      FirstOfGroup(p, i);
      var p2 := p.(at := Mapping2, i := i, j := 0);
      ParseGroup(p2, u, i, 0, GroupsThen(u, i + 1, rest));
      q := ParseGroups(p2.(j := 15, inUse := UsedBelow(u, 16 * i + 16)), u, i + 1, rest);
    } else {
      SkipGroup(p, i);
      q := ParseGroups(p, u, i + 1, rest);
    }
  }

  lemma GroupsUnfold(u: seq<bool>, i: nat, rest: seq<bool>)
    requires |u| == 256 && i <= 16
    ensures i == 16 ==> GroupsThen(u, i, rest) == rest && UsedBelow(u, 16 * i) == u
    ensures i < 16 && Used16(u)[i] ==>
      GroupsThen(u, i, rest) == u[16 * i..16 * i + 16] + GroupsThen(u, i + 1, rest)
    ensures i < 16 && !Used16(u)[i] ==>
      GroupsThen(u, i, rest) == GroupsThen(u, i + 1, rest) && UsedBelow(u, 16 * i + 16) == UsedBelow(u, 16 * i)
  {
    if i < 16 && !Used16(u)[i] {
      assert !AnyUsed(u, 16 * i, 16);
      assert UsedBelow(u, 16 * i + 16) == UsedBelow(u, 16 * i);
    }
  }

  lemma NoMoreGroups(p: Parser)
    requires |p.inUse16| == 16 && |p.inUse| == 256 && Numbering(p.inUse, 256) > 0
    ensures StartMapping2(p, 16) == p.(at := Selector1)
  {
  }

  lemma FirstOfGroup(p: Parser, i: nat)
    requires i < 16 == |p.inUse16| && p.inUse16[i]
    ensures StartMapping2(p, i) == p.(at := Mapping2, i := i, j := 0)
  {
  }

  lemma SkipGroup(p: Parser, i: nat)
    requires i < 16 == |p.inUse16| && !p.inUse16[i]
    ensures StartMapping2(p, i) == StartMapping2(p, i + 1)
  {
  }

  lemma ParseMapping(p: Parser, u: seq<bool>, rest: seq<bool>) returns (q: Parser)
    requires p.at == Mapping1 && p.inUse16 == [] && p.inUse == seq(256, _ => false)
    requires |u| == 256 && Numbering(u, 256) > 0
    ensures Drive(p, Used16(u) + GroupsThen(u, 0, rest)) == Drive(q, rest)
    ensures q == p.(at := Selector1, inUse16 := Used16(u), inUse := u, i := q.i, j := q.j)
  {
    hide Drive, StartMapping2, GroupsThen, Numbering;
    assert Used16(u)[0..] == Used16(u) && Used16(u)[..0] == [];
    ParseUsed16(p, Used16(u), GroupsThen(u, 0, rest));
    assert p.inUse == UsedBelow(u, 0);
    q := ParseGroups(p.(inUse16 := Used16(u)), u, 0, rest);
  }

  // ---------- the selectors ----------

  /** One selector in unary. */
  lemma {:induction false} ParseUnary(p: Parser, m: nat, rest: seq<bool>)
    requires p.at == Selector3 && p.j <= m < p.nGroups && |p.selectorMtf| < p.nSelectors
    ensures Drive(p, Ones(m - p.j) + ([false] + rest)) == Drive(Step(p.(j := m), 0), rest)
    decreases m - p.j
  {
    hide Drive, Step;
    if p.j == m {
      assert Ones(0) + ([false] + rest) == [false] + rest;
      RunBit(p, false, rest);
    } else {
      var tail := Ones(m - p.j - 1) + ([false] + rest);
      assert Ones(m - p.j) + ([false] + rest) == [true] + tail;
      RunBit(p, true, tail);
      OneMoreOne(p);
      ParseUnary(p.(j := p.j + 1), m, rest);
    }
  }

  lemma OneMoreOne(p: Parser)
    requires p.at == Selector3 && p.j + 1 < p.nGroups
    ensures Step(p, 1) == p.(j := p.j + 1)
  {
  }

  lemma {:induction false} ParseSelectors(p: Parser, mtf: seq<int>, rest: seq<bool>)
    requires p.at == Selector3 && p.j == 0 && p.nSelectors == |p.selectorMtf| + |mtf| && mtf != []
    requires p.nSelectors <= MAXSELECTORS
    requires forall i | 0 <= i < |mtf| :: 0 <= mtf[i] < p.nGroups
    ensures Drive(p, UnaryThen(mtf, rest))
            == Drive(p.(at := Coding1, selectorMtf := p.selectorMtf + mtf, lens := [],
                      selector := UndoSelectors(Identity(p.nGroups), p.selectorMtf + mtf)), rest)
    decreases |mtf|
  {
    hide Drive, UndoSelectors;
    assert Ones(mtf[0] - 0) == Ones(mtf[0]);
    ParseUnary(p, mtf[0], UnaryThen(mtf[1..], rest));
    var q := p.(selectorMtf := p.selectorMtf + [mtf[0]]);
    assert p.selectorMtf + mtf == q.selectorMtf + mtf[1..];
    if |mtf| > 1 {
      ParseSelectors(q, mtf[1..], rest);
    } else {
      assert mtf[1..] == [];
      assert q.selectorMtf == p.selectorMtf + mtf;
    }
  }

  /** More selectors than there is room for. */
  lemma {:induction false} ParseOverrun(p: Parser, mtf: seq<int>, rest: seq<bool>)
    requires p.at == Selector3 && p.j == 0 && p.nSelectors == |p.selectorMtf| + |mtf| > MAXSELECTORS
    requires |p.selectorMtf| <= MAXSELECTORS && forall i | 0 <= i < |mtf| :: 0 <= mtf[i] < p.nGroups
    ensures Drive(p, UnaryThen(mtf, rest)).0.at == Failed(OUTSIDE)
    decreases |mtf|
  {
    hide Drive, UndoSelectors;
    assert Ones(mtf[0] - 0) == Ones(mtf[0]);
    ParseUnary(p, mtf[0], UnaryThen(mtf[1..], rest));
    if |p.selectorMtf| < MAXSELECTORS {
      ParseOverrun(p.(selectorMtf := p.selectorMtf + [mtf[0]]), mtf[1..], rest);
    } else {
      FailedStays(Fail(p.(j := mtf[0]), OUTSIDE), UnaryThen(mtf[1..], rest));
    }
  }

  lemma FailedStays(p: Parser, bits: seq<bool>)
    requires p.at.Failed?
    ensures Drive(p, bits) == (p, bits)
  {
  }

  /**
   * A stream that gives as many selectors as it has announced is parsed past them if and only if there is room for them;
   * otherwise the machine stops at the write past the end of selectorMtf.
   */
  lemma SelectorsFit(p: Parser, mtf: seq<int>)
    requires p.at == Selector3 && p.j == 0 && p.selectorMtf == [] && p.nSelectors == |mtf| > 0
    requires forall i | 0 <= i < |mtf| :: 0 <= mtf[i] < p.nGroups
    ensures var q := Drive(p, UnaryThen(mtf, [])).0;
      && (q.at == Coding1 <==> p.nSelectors <= MAXSELECTORS)
      && (q.at == Failed(OUTSIDE) <==> p.nSelectors > MAXSELECTORS)
  {
    if |mtf| <= MAXSELECTORS {
      hide UnaryThen, UndoSelectors;
      ParseSelectors(p, mtf, []);
    } else {
      hide Drive, UnaryThen;
      ParseOverrun(p, mtf, []);
    }
  }

  /** Undoing the move-to-front coding gives the selectors back. */
  lemma {:induction false} SelectorsUndone(list: seq<int>, sel: seq<int>)
    requires IsPermutation(list) && forall i | 0 <= i < |sel| :: 0 <= sel[i] < |list|
    ensures UndoSelectors(list, SelectorMtf(list, sel)) == sel
    decreases |sel|
  {
    if sel != [] {
      ListingHas(list, |list|, sel[0]);
      var k := IndexOf(list, sel[0]);
      ToFrontListing(list, |list|, k);
      var next := ToFront(list, k);
      SelectorsUndone(next, sel[1..]);
      var mtf := SelectorMtf(list, sel);
      assert mtf[1..] == SelectorMtf(next, sel[1..]);
      assert [list[k]] + list[..k] + list[k + 1..] == next;
    }
  }

  lemma ParseSelected(p: Parser, n: nat, sel: seq<int>, rest: seq<bool>)
    requires p.at == Selector1 && 2 <= n <= 6 && 1 <= |sel| <= MAXSELECTORS && IsPermutation(Identity(n))
    requires forall i | 0 <= i < |sel| :: 0 <= sel[i] < n
    ensures Drive(p, Bin(n, 3) + (Bin(|sel|, 15) + UnaryThen(SelectorMtf(Identity(n), sel), rest)))
            == Drive(p.(at := Coding1, nGroups := n, nSelectors := |sel|, j := 0, lens := [], selector := sel,
                      selectorMtf := SelectorMtf(Identity(n), sel)), rest)
  {
    hide Drive, UndoSelectors, UnaryThen;
    var mtf := SelectorMtf(Identity(n), sel);
    SmallPowers();
    RunOne(p, n, 3, Bin(|sel|, 15) + UnaryThen(mtf, rest));
    var p2 := p.(at := Selector2, nGroups := n);
    RunOne(p2, |sel|, 15, UnaryThen(mtf, rest));
    var p3 := p2.(at := Selector3, nSelectors := |sel|, selectorMtf := [], j := 0);
    ParseSelectors(p3, mtf, rest);
    SelectorsUndone(Identity(n), sel);
    assert [] + mtf == mtf;
  }

  lemma SmallPowers()
    ensures Pow2(3) == 8 && Pow2(5) == 32 && Pow2(15) == 0x8000
  {
    assert Pow2(10) == 1024;
  }

  // ---------- the coding tables ----------

  /** From length a to length b. */
  lemma {:induction false} ParseSteps(p: Parser, b: int, rest: seq<bool>)
    requires p.at == Coding2 && 1 <= p.curr <= 20 && 1 <= b <= 20
    ensures Drive(p, StepsThen(p.curr, b, rest)) == Drive(p.(curr := b), rest)
    decreases if p.curr < b then b - p.curr else p.curr - b
  {
    hide Drive, Step;
    if p.curr != b {
      var next := if p.curr < b then p.curr + 1 else p.curr - 1;
      var tail := StepsThen(next, b, rest);
      var up := p.curr > b;
      assert StepsThen(p.curr, b, rest) == [true, up] + tail;
      assert [true, up] + tail == [true] + ([up] + tail);
      RunBit(p, true, [up] + tail);
      LengthStep(p, up);
      RunBit(p.(at := Coding3), up, tail);
      ParseSteps(p.(curr := next), b, rest);
    }
  }

  lemma LengthStep(p: Parser, up: bool)
    requires p.at == Coding2 && (if up then 1 < p.curr <= 20 else 1 <= p.curr < 20)
    ensures Step(p, 1) == p.(at := Coding3)
    ensures Step(p.(at := Coding3), if up then 1 else 0) == p.(curr := if up then p.curr - 1 else p.curr + 1)
  {
  }

  /** The lengths of one table from symbol |p.len| on. */
  lemma {:induction false} ParseLengths(p: Parser, lens: seq<int>, rest: seq<bool>)
    requires p.at == Coding2 && 1 <= p.curr <= 20 && lens != [] && |p.len| + |lens| == AlphaSize(p)
    requires forall i | 0 <= i < |lens| :: 1 <= lens[i] <= 20
    ensures Drive(p, LengthsThen(p.curr, lens, rest))
            == Drive(Step(p.(curr := lens[|lens| - 1], len := (p.len + lens)[..AlphaSize(p) - 1]), 0), rest)
    decreases |lens|
  {
    hide Drive, Step, StepsThen, AlphaSize;
    var next := LengthsThen(lens[0], lens[1..], rest);
    ParseSteps(p, lens[0], [false] + next);
    var q := p.(curr := lens[0]);
    RunBit(q, false, next);
    LengthAlpha(p, q);
    if |lens| == 1 {
      assert (p.len + lens)[..AlphaSize(p) - 1] == p.len;
      assert next == rest;
    } else {
      MoreLengths(q);
      LengthAlpha(p, q.(len := q.len + [lens[0]]));
      var r := q.(len := q.len + [lens[0]]);
      assert r.len + lens[1..] == p.len + lens;
      ParseLengths(r, lens[1..], rest);
    }
  }

  lemma LengthAlpha(p: Parser, q: Parser)
    requires q == p.(curr := q.curr, len := q.len)
    ensures AlphaSize(q) == AlphaSize(p)
  {
  }

  lemma MoreLengths(p: Parser)
    requires p.at == Coding2 && |p.len| + 1 < AlphaSize(p)
    ensures Step(p, 0) == p.(len := p.len + [p.curr])
  {
  }

  lemma LastLength(p: Parser)
    requires p.at == Coding2 && |p.len| + 1 == AlphaSize(p)
    ensures var r := p.(lens := p.lens + [p.len + [p.curr]], len := []);
      Step(p, 0) == if |r.lens| < r.nGroups then r.(at := Coding1) else StartData(r)
  {
    hide StartData;
  }

  lemma CodingStart(p: Parser, v: nat)
    requires p.at == Coding1 && 1 <= v <= 20
    ensures Need(p) == 5 && Step(p, v) == p.(at := Coding2, curr := v, len := [])
  {
  }

  lemma ParseTable(p: Parser, lens: seq<int>, rest: seq<bool>) returns (q: Parser)
    requires p.at == Coding1 && |lens| == AlphaSize(p) && |p.lens| < p.nGroups
    requires forall i | 0 <= i < |lens| :: 1 <= lens[i] <= 20
    ensures Drive(p, Bin(lens[0], 5) + LengthsThen(lens[0], lens, rest)) == Drive(q, rest)
    ensures var r := p.(lens := p.lens + [lens], len := [], curr := lens[|lens| - 1]);
      q == if |r.lens| < r.nGroups then r else StartData(r.(at := Coding2))
  {
    hide Drive, StartData, Step, LengthsThen;
    SmallPowers();
    CodingStart(p, lens[0]);
    RunOne(p, lens[0], 5, LengthsThen(lens[0], lens, rest));
    var p2 := p.(at := Coding2, curr := lens[0], len := []);
    assert [] + lens == lens;
    ParseLengths(p2, lens, rest);
    var p3 := p2.(curr := lens[|lens| - 1], len := lens[..|lens| - 1]);
    q := Step(p3, 0);
    LastLength(p3);
    assert lens[..|lens| - 1] + [lens[|lens| - 1]] == lens;
  }

  /** All tables; the state is then at the first symbol. */
  lemma {:induction false} ParseTables(p: Parser, lens: seq<seq<int>>, rest: seq<bool>)
    requires p.at == Coding1 && lens != [] && |p.lens| + |lens| == p.nGroups
    requires forall t | 0 <= t < |lens| ::
      |lens[t]| == AlphaSize(p) && forall i | 0 <= i < |lens[t]| :: 1 <= lens[t][i] <= 20
    ensures forall t | 0 <= t < |lens| :: lens[t] != [] && lens[t][0] >= 0
    ensures var all, last := p.lens + lens, lens[|lens| - 1];
      Drive(p, TablesThen(lens, rest))
      == Drive(StartData(p.(at := Coding2, lens := all, len := [], curr := last[|last| - 1])), rest)
    decreases |lens|
  {
    hide Drive, StartData, LengthsThen;
    var q := ParseTable(p, lens[0], TablesThen(lens[1..], rest));
    assert p.lens + lens == (p.lens + [lens[0]]) + lens[1..];
    if |lens| > 1 {
      assert AlphaSize(q) == AlphaSize(p);
      ParseTables(q, lens[1..], rest);
    } else {
      assert TablesThen(lens[1..], rest) == rest;
      assert p.lens + lens == p.lens + [lens[0]];
    }
  }
}
