/** sendMTFValues and the block head: the bits of a block go out as the format says. */
module BlockWriter {
  import opened Bits
  import opened BitStream
  import opened BlockFormat
  import opened CanonicalCodes
  import opened Huffman
  import opened MoveToFront
  import opened MtfCoding
  import opened Permutations
  import opened PrefixCodes
  import opened Words

  /** One Put, seen as taking a piece off what is still to be written. */
  lemma Rebracket(w: seq<bool>, b: seq<bool>, tail: seq<bool>)
    ensures w + (b + tail) == (w + b) + tail
  {
  }

  method PutBytes(w: BitWriter, bytes: seq<int>, ghost tail: seq<bool>)
    requires w.Valid() && forall i | 0 <= i < |bytes| :: 0 <= bytes[i] < 256
    modifies w
    ensures w.Valid() && w.taken == old(w.taken) && w.Written() + tail == old(w.Written()) + BytesThen(bytes, tail)
  {
    hide BytesBits, Bin;
    ghost var start := w.Written();
    assert bytes[0..] == bytes;
    for i := 0 to |bytes|
      invariant w.Valid() && w.taken == old(w.taken)
      invariant w.Written() + BytesThen(bytes[i..], tail) == start + BytesThen(bytes, tail)
    {
      assert bytes[i..][1..] == bytes[i + 1..];
      Rebracket(w.Written(), Bin(bytes[i], 8), BytesThen(bytes[i + 1..], tail));
      Pow2Values();
      w.Put(8, bytes[i]);
    }
  }

  method PutBit(w: BitWriter, b: bool, ghost tail: seq<bool>)
    requires w.Valid()
    modifies w
    ensures w.Valid() && w.taken == old(w.taken) && w.Written() + tail == old(w.Written()) + ([b] + tail)
  {
    hide BytesBits;
    assert Pow2(1) == 2;
    OneBit(b);
    Rebracket(w.Written(), [b], tail);
    w.Put(1, if b then 1 else 0);
  }

  lemma OneBit(b: bool)
    ensures Bin(if b then 1 else 0, 1) == [b]
  {
    assert Bin(0, 0) == [];
  }

  // ---------- the mapping table ----------

  method PutFlags(w: BitWriter, flags: seq<bool>, ghost tail: seq<bool>)
    requires w.Valid()
    modifies w
    ensures w.Valid() && w.taken == old(w.taken) && w.Written() + tail == old(w.Written()) + (flags + tail)
  {
    hide BytesBits;
    ghost var start := w.Written();
    assert flags[0..] == flags;
    for i := 0 to |flags|
      invariant w.Valid() && w.taken == old(w.taken)
      invariant w.Written() + (flags[i..] + tail) == start + (flags + tail)
    {
      assert flags[i..] + tail == [flags[i]] + (flags[i + 1..] + tail);
      PutBit(w, flags[i], flags[i + 1..] + tail);
    }
    assert flags[|flags|..] + tail == tail;
  }

  method PutMapping(w: BitWriter, inUse: seq<bool>, ghost tail: seq<bool>)
    requires w.Valid() && |inUse| == 256
    modifies w
    ensures w.Valid() && w.taken == old(w.taken)
    ensures w.Written() + tail == old(w.Written()) + (Used16(inUse) + GroupsThen(inUse, 0, tail))
  {
    ghost var start := w.Written();
    var inUse16 := Used16(inUse);
    hide BytesBits, Used16;
    PutFlags(w, inUse16, GroupsThen(inUse, 0, tail));
    for i := 0 to 16
      invariant w.Valid() && w.taken == old(w.taken)
      invariant w.Written() + GroupsThen(inUse, i, tail) == start + (Used16(inUse) + GroupsThen(inUse, 0, tail))
    {
      if inUse16[i] {
        PutFlags(w, inUse[16 * i..16 * i + 16], GroupsThen(inUse, i + 1, tail));
      }
    }
  }

  // ---------- the selectors ----------

  /** selectorMtf: where each selector stands on a list that is moved to front. */
  method SelectorPositions(selector: seq<int>, nGroups: nat) returns (mtf: seq<int>)
    requires nGroups <= 6 && IsPermutation(Identity(nGroups))
    requires forall i | 0 <= i < |selector| :: 0 <= selector[i] < nGroups
    ensures mtf == SelectorMtf(Identity(nGroups), selector)
  {
    hide IsPermutation, ToFront;
    var pos := new int[6];
    for i := 0 to nGroups
      invariant forall x | 0 <= x < i :: pos[x] == x
    {
      pos[i] := i;
    }
    mtf := [];
    assert pos[..nGroups] == Identity(nGroups) && selector[0..] == selector;
    for i := 0 to |selector|
      invariant IsPermutation(pos[..nGroups])
      invariant mtf + SelectorMtf(pos[..nGroups], selector[i..]) == SelectorMtf(Identity(nGroups), selector)
    {
      ghost var list := pos[..nGroups];
      SelectorStep(list, selector[i..]);
      assert selector[i..][1..] == selector[i + 1..];
      var j := FindSelector(pos, selector[i], nGroups);
      mtf := mtf + [j];
    }
    assert selector[|selector|..] == [];
  }

  lemma SelectorStep(list: seq<int>, sel: seq<int>)
    requires IsPermutation(list) && sel != [] && forall i | 0 <= i < |sel| :: 0 <= sel[i] < |list|
    ensures sel[0] in list && IsPermutation(ToFront(list, IndexOf(list, sel[0])))
    ensures SelectorMtf(list, sel) == [IndexOf(list, sel[0])] + SelectorMtf(ToFront(list, IndexOf(list, sel[0])), sel[1..])
  {
    ListingHas(list, |list|, sel[0]);
    ToFrontListing(list, |list|, IndexOf(list, sel[0]));
  }

  /** The search loop, which looks at the front entry too. */
  method FindSelector(pos: array<int>, v: int, m: nat) returns (j: nat)
    requires 0 < m <= pos.Length && v in pos[..m]
    modifies pos
    ensures old(v in pos[..m]) && j == IndexOf(old(pos[..m]), v)
    ensures pos[..m] == ToFront(old(pos[..m]), j)
  {
    ghost var y0 := pos[..];
    ghost var l := pos[..m];
    ghost var k := IndexOf(l, v);
    assert forall x | 0 <= x < m :: l[x] == y0[x];
    hide Rotated;
    RotatedStart(y0);
    j := 0;
    var tmp := pos[0];
    while v != tmp
      invariant 0 <= j <= k && tmp == y0[j] && Rotated(y0, pos[..], j)
      decreases k - j
    {
      ghost var y := pos[..];
      RotatedNext(y0, y, j);
      j := j + 1;
      var tmp2 := tmp;
      tmp := pos[j];
      pos[j] := tmp2;
      assert pos[..] == y[j := y0[j - 1]];
    }
    ghost var y := pos[..];
    pos[0] := tmp;
    assert pos[..] == y[0 := y0[j]];
    if j > 0 {
      RotatedToFront(y0, y, m, j);
    } else {
      NothingRotated(y0, y);
      assert ToFront(l, 0) == l;
    }
    assert pos[..m] == pos[..][..m];
  }

  lemma NothingRotated(y0: seq<int>, y: seq<int>)
    requires Rotated(y0, y, 0)
    ensures y == y0
  {
    forall x | 0 <= x < |y|
      ensures y[x] == y0[x]
    {
      assert RotatedAt(y0, y, 0, x);
    }
  }

  method PutOnes(w: BitWriter, n: nat, ghost tail: seq<bool>)
    requires w.Valid()
    modifies w
    ensures w.Valid() && w.taken == old(w.taken) && w.Written() + tail == old(w.Written()) + (Ones(n) + tail)
  {
    hide BytesBits;
    ghost var start := w.Written();
    for j := 0 to n
      invariant w.Valid() && w.taken == old(w.taken)
      invariant w.Written() + (Ones(n - j) + tail) == start + (Ones(n) + tail)
    {
      assert Ones(n - j) + tail == [true] + (Ones(n - j - 1) + tail);
      PutBit(w, true, Ones(n - j - 1) + tail);
    }
    assert Ones(0) + tail == tail;
  }

  method PutUnary(w: BitWriter, mtf: seq<int>, ghost tail: seq<bool>)
    requires w.Valid() && forall i | 0 <= i < |mtf| :: mtf[i] >= 0
    modifies w
    ensures w.Valid() && w.taken == old(w.taken) && w.Written() + tail == old(w.Written()) + UnaryThen(mtf, tail)
  {
    hide BytesBits, Ones;
    ghost var start := w.Written();
    assert mtf[0..] == mtf;
    for i := 0 to |mtf|
      invariant w.Valid() && w.taken == old(w.taken)
      invariant w.Written() + UnaryThen(mtf[i..], tail) == start + UnaryThen(mtf, tail)
    {
      assert mtf[i..][1..] == mtf[i + 1..];
      PutOnes(w, mtf[i], [false] + UnaryThen(mtf[i + 1..], tail));
      PutBit(w, false, UnaryThen(mtf[i + 1..], tail));
    }
  }

  // ---------- the coding tables ----------

  /** One length, from the one before in steps of one. */
  method PutLength(w: BitWriter, curr0: int, target: int, ghost tail: seq<bool>)
    requires w.Valid()
    modifies w
    ensures w.Valid() && w.taken == old(w.taken) && w.Written() + tail == old(w.Written()) + StepsThen(curr0, target, tail)
  {
    hide BytesBits, Bin;
    ghost var start := w.Written();
    var curr := curr0;
    TwoBits();
    while curr < target
      invariant w.Valid() && w.taken == old(w.taken) && (curr <= target || curr == curr0)
      invariant w.Written() + StepsThen(curr, target, tail) == start + StepsThen(curr0, target, tail)
    {
      Rebracket(w.Written(), [true, false], StepsThen(curr + 1, target, tail));
      w.Put(2, 2);
      curr := curr + 1;
    }
    while curr > target
      invariant w.Valid() && w.taken == old(w.taken) && curr >= target
      invariant w.Written() + StepsThen(curr, target, tail) == start + StepsThen(curr0, target, tail)
    {
      Rebracket(w.Written(), [true, true], StepsThen(curr - 1, target, tail));
      w.Put(2, 3);
      curr := curr - 1;
    }
  }

  lemma TwoBits()
    ensures Pow2(2) == 4 && Bin(2, 2) == [true, false] && Bin(3, 2) == [true, true]
  {
    assert Bin(1, 1) == [true] by {
      OneBit(true);
    }
  }

  method PutTable(w: BitWriter, lens: seq<int>, ghost tail: seq<bool>)
    requires w.Valid() && lens != [] && 0 <= lens[0] < 32
    modifies w
    ensures w.Valid() && w.taken == old(w.taken)
    ensures w.Written() + tail == old(w.Written()) + (Bin(lens[0], 5) + LengthsThen(lens[0], lens, tail))
  {
    hide BytesBits, Bin, StepsThen;
    ghost var start := w.Written();
    assert Pow2(5) == 32;
    var curr := lens[0];
    Rebracket(start, Bin(curr, 5), LengthsThen(curr, lens, tail));
    w.Put(5, curr);
    assert lens[0..] == lens;
    for i := 0 to |lens|
      invariant w.Valid() && w.taken == old(w.taken)
      invariant w.Written() + LengthsThen(curr, lens[i..], tail)
                == start + (Bin(lens[0], 5) + LengthsThen(lens[0], lens, tail))
    {
      assert lens[i..][1..] == lens[i + 1..];
      PutLength(w, curr, lens[i], [false] + LengthsThen(lens[i], lens[i + 1..], tail));
      curr := lens[i];
      PutBit(w, false, LengthsThen(curr, lens[i + 1..], tail));
    }
  }

  method PutTables(w: BitWriter, lens: seq<seq<int>>, ghost tail: seq<bool>)
    requires w.Valid() && forall t | 0 <= t < |lens| :: lens[t] != [] && 0 <= lens[t][0] < 32
    modifies w
    ensures w.Valid() && w.taken == old(w.taken) && w.Written() + tail == old(w.Written()) + TablesThen(lens, tail)
  {
    hide BytesBits, Bin, LengthsThen;
    ghost var start := w.Written();
    assert lens[0..] == lens;
    for t := 0 to |lens|
      invariant w.Valid() && w.taken == old(w.taken)
      invariant w.Written() + TablesThen(lens[t..], tail) == start + TablesThen(lens, tail)
    {
      assert lens[t..][1..] == lens[t + 1..];
      PutTable(w, lens[t], TablesThen(lens[t + 1..], tail));
    }
  }

  // ---------- the data ----------

  /** codes holds the code of every symbol of every table. */
  ghost predicate CodesOf(lens: seq<seq<int>>, codes: seq<seq<int>>) {
    && |codes| == |lens|
    && forall t | 0 <= t < |lens| :: TableCodes(lens[t], codes[t])
  }

  ghost predicate TableCodes(lens: seq<int>, codes: seq<int>) {
    && |codes| == |lens| && ValidLengths(lens)
    && forall i | 0 <= i < |lens| :: codes[i] == CodeOf(lens, i)
  }

  lemma CodeReady(lens: seq<int>, codes: seq<int>, s: nat)
    requires TableCodes(lens, codes) && s < |lens|
    ensures |codes| == |lens| && 1 <= lens[s] <= 20 && codes[s] == CodeOf(lens, s) < Pow2(lens[s])
  {
    hide KraftSum;
    CodeFits(lens, s);
  }

  /** The symbols, in groups of 50, each group with its table. */
  method PutData(w: BitWriter, mtfv: array<int>, codes: seq<seq<int>>, ghost c: Coded, ghost tail: seq<bool>,
                 nMTF: nat, selector: seq<int>, lens: seq<seq<int>>)
    requires w.Valid() && CodesOf(lens, codes) && selector == c.selectors && lens == c.lens
    requires nMTF == |c.syms| <= mtfv.Length && forall x | 0 <= x < nMTF :: mtfv[x] == c.syms[x]
    requires forall x: nat | x < nMTF :: SymbolOk(c, x)
    requires |selector| == (nMTF + 49) / 50
    modifies w
    ensures w.Valid() && w.taken == old(w.taken) && w.Written() + tail == old(w.Written()) + DataThen(c, 0, tail)
  {
    hide BytesBits, Bin, Pow2, CodeOf, TableCodes, ValidLengths;
    ghost var start := w.Written();
    var selCtr, gs := 0, 0;
    while gs < nMTF
      invariant w.Valid() && w.taken == old(w.taken) && gs <= nMTF && selCtr == (gs + 49) / 50
      invariant gs < nMTF ==> gs % 50 == 0
      invariant w.Written() + DataThen(c, gs, tail) == start + DataThen(c, 0, tail)
    {
      var ge := gs + 50 - 1;
      if ge >= nMTF {
        ge := nMTF - 1;
      }
      assert SymbolOk(c, gs);
      assert 0 <= selector[selCtr] < |lens|;  // AssertH 3006
      PutGroup(w, mtfv, codes[selector[selCtr]], lens[selector[selCtr]], gs, ge, selCtr, c, tail);
      gs := ge + 1;
      selCtr := selCtr + 1;
    }
    assert selCtr == |selector|;  // AssertH 3007
  }

  method PutGroup(w: BitWriter, mtfv: array<int>, codes: seq<int>, lens: seq<int>, gs: nat, ge: nat, ghost selCtr: nat,
                  ghost c: Coded, ghost tail: seq<bool>)
    requires w.Valid() && gs <= ge < |c.syms| <= mtfv.Length && ge <= gs + 49 && gs == 50 * selCtr
    requires forall x | 0 <= x < |c.syms| :: mtfv[x] == c.syms[x]
    requires forall x: nat | x < |c.syms| :: SymbolOk(c, x)
    requires selCtr < |c.selectors| && 0 <= c.selectors[selCtr] < |c.lens| && lens == c.lens[c.selectors[selCtr]]
    requires TableCodes(lens, codes)
    modifies w
    ensures w.Valid() && w.taken == old(w.taken)
    ensures w.Written() + DataThen(c, ge + 1, tail) == old(w.Written()) + DataThen(c, gs, tail)
  {
    hide BytesBits, Bin, Pow2, CodeOf, TableCodes;
    ghost var start := w.Written();
    for i := gs to ge + 1
      invariant w.Valid() && w.taken == old(w.taken)
      invariant w.Written() + DataThen(c, i, tail) == start + DataThen(c, gs, tail)
    {
      assert SymbolOk(c, i) && TableFor(c, i) == lens;
      var s := mtfv[i];
      CodeReady(lens, codes, s);
      Rebracket(w.Written(), Bin(codes[s], lens[s]), DataThen(c, i + 1, tail));
      w.Put(lens[s], codes[s]);
    }
  }

  // ---------- choosing the tables ----------

  /** The more symbols the more tables. */
  function NumberOfGroups(nMTF: nat): (r: nat)
    ensures 2 <= r <= 6
    ensures (r >= 3 <==> nMTF >= 200) && (r >= 4 <==> nMTF >= 600) && (r >= 5 <==> nMTF >= 1200) && (r == 6 <==> nMTF >= 2400)
  {
    if nMTF < 200 then 2 else if nMTF < 600 then 3 else if nMTF < 1200 then 4 else if nMTF < 2400 then 5 else 6
  }

  lemma {:induction false} SumOfIncrement(freq: seq<int>, m: nat, v: nat)
    requires m <= |freq| && v < |freq|
    ensures SumOf(freq[v := freq[v] + 1], m) == SumOf(freq, m) + if v < m then 1 else 0
  {
    if m > 0 {
      SumOfIncrement(freq, m - 1, v);
    }
  }

  lemma {:induction false} SumOfZeros(freq: seq<int>, m: nat)
    requires m <= |freq| && forall i | 0 <= i < m :: freq[i] == 0
    ensures SumOf(freq, m) == 0
  {
    if m > 0 {
      SumOfZeros(freq, m - 1);
    }
  }

  /** How often symbol v occurs among the first n symbols, in groups that use table t. */
  ghost function Uses(syms: seq<int>, selector: seq<int>, t: int, v: int, n: nat): (r: nat)
    requires n <= |syms| && (n + 49) / 50 <= |selector|
    ensures r <= n
  {
    if n == 0 then 0
    else Uses(syms, selector, t, v, n - 1) + if selector[(n - 1) / 50] == t && syms[n - 1] == v then 1 else 0
  }

  /** freq[v] says that of every symbol. */
  ghost predicate CountsUses(freq: seq<int>, syms: seq<int>, selector: seq<int>, t: int, alphaSize: nat, n: nat)
    requires n <= |syms| && (n + 49) / 50 <= |selector|
  {
    alphaSize <= |freq| && forall v | 0 <= v < alphaSize :: freq[v] == Uses(syms, selector, t, v, n)
  }

  lemma CountsStart(freq: seq<int>, syms: seq<int>, selector: seq<int>, t: int, alphaSize: nat)
    requires alphaSize <= |freq| && forall v | 0 <= v < alphaSize :: freq[v] == 0
    ensures CountsUses(freq, syms, selector, t, alphaSize, 0)
  {
  }

  lemma CountsNext(freq: seq<int>, syms: seq<int>, selector: seq<int>, t: int, alphaSize: nat, n: nat)
    requires n < |syms| && (n + 50) / 50 <= |selector| && CountsUses(freq, syms, selector, t, alphaSize, n)
    requires 0 <= syms[n] < alphaSize
    ensures CountsUses(if selector[n / 50] == t then freq[syms[n] := freq[syms[n]] + 1] else freq,
                       syms, selector, t, alphaSize, n + 1)
  {
  }

  /** rfreq[t]: how often each symbol occurs in the groups that use table t. */
  method CountTable(mtfv: array<int>, nMTF: nat, selector: seq<int>, t: int, alphaSize: nat) returns (rfreq: array<int>)
    requires nMTF <= mtfv.Length && alphaSize <= 258 && |selector| == (nMTF + 49) / 50
    requires forall x | 0 <= x < nMTF :: 0 <= mtfv[x] < alphaSize
    ensures fresh(rfreq) && rfreq.Length == 258 && CountsUses(rfreq[..], mtfv[..nMTF], selector, t, alphaSize, nMTF)
    ensures SumOf(rfreq[..], alphaSize) <= nMTF
  {
    hide SumOf, CountsUses;
    rfreq := new int[258](_ => 0);
    SumOfZeros(rfreq[..], alphaSize);
    ghost var syms := mtfv[..nMTF];
    CountsStart(rfreq[..], syms, selector, t, alphaSize);
    for i := 0 to nMTF
      invariant mtfv[..nMTF] == syms && CountsUses(rfreq[..], syms, selector, t, alphaSize, i)
      invariant SumOf(rfreq[..], alphaSize) <= i
    {
      ghost var f := rfreq[..];
      assert syms[i] == mtfv[i];
      CountsNext(f, syms, selector, t, alphaSize, i);
      if selector[i / 50] == t {
        SumOfIncrement(f, alphaSize, mtfv[i]);
        rfreq[mtfv[i]] := rfreq[mtfv[i]] + 1;
        assert rfreq[..] == f[mtfv[i] := f[mtfv[i]] + 1];
      }
    }
  }

  ghost predicate GoodLengths(lens: seq<int>, alphaSize: nat) {
    |lens| == alphaSize && CompleteLengths(lens, 17)
  }

  lemma GoodIsValid(lens: seq<int>, alphaSize: nat)
    requires GoodLengths(lens, alphaSize)
    ensures |lens| == alphaSize && ValidLengths(lens) && forall i | 0 <= i < |lens| :: 1 <= lens[i] <= 17
  {
    hide KraftSum;
  }

  /** The lengths of table t are what BZ2_hbMakeCodeLengths makes of how often the groups that use it use each symbol. */
  ghost predicate MadeFor(lens: seq<int>, syms: seq<int>, selector: seq<int>, t: int, alphaSize: nat)
    requires (|syms| + 49) / 50 <= |selector|
  {
    exists freq, tries ::
      && |freq| == alphaSize && CountsUses(freq, syms, selector, t, alphaSize, |syms|)
      && Tried(freq, tries, 17) && tries[|tries| - 1] == lens
  }

  /** The code lengths of every table, from how often the groups that use it use each symbol. */
  method MakeLengths(mtfv: array<int>, nMTF: nat, selector: seq<int>, nGroups: nat, alphaSize: nat)
    returns (lens: seq<seq<int>>)
    requires nMTF <= mtfv.Length && nMTF <= 900001 && 3 <= alphaSize <= 258 && |selector| == (nMTF + 49) / 50
    requires forall x | 0 <= x < nMTF :: 0 <= mtfv[x] < alphaSize
    ensures |lens| == nGroups && forall t | 0 <= t < nGroups :: GoodLengths(lens[t], alphaSize)
    ensures forall t | 0 <= t < nGroups :: MadeFor(lens[t], mtfv[..nMTF], selector, t, alphaSize)
  {
    hide SumOf, GoodLengths, CompleteLengths, CountsUses, MadeFor, Tried;
    lens := [];
    ghost var syms := mtfv[..nMTF];
    for t := 0 to nGroups
      invariant |lens| == t && forall k | 0 <= k < t :: GoodLengths(lens[k], alphaSize)
      invariant forall k | 0 <= k < t :: MadeFor(lens[k], syms, selector, k, alphaSize)
      invariant mtfv[..nMTF] == syms && forall x | 0 <= x < nMTF :: 0 <= mtfv[x] < alphaSize
    {
      var rfreq := CountTable(mtfv, nMTF, selector, t, alphaSize);
      var len := new int[258];
      CountsNatural(rfreq[..], syms, selector, t, alphaSize, nMTF);
      ghost var tries := MakeCodeLengths(len, rfreq, alphaSize, 17);
      GoodFrom(len[..alphaSize], alphaSize);
      MadeHere(rfreq[..], tries, len[..alphaSize], syms, selector, t, alphaSize);
      lens := lens + [len[..alphaSize]];
    }
  }

  lemma CountsNatural(freq: seq<int>, syms: seq<int>, selector: seq<int>, t: int, alphaSize: nat, n: nat)
    requires n <= |syms| && (n + 49) / 50 <= |selector| && CountsUses(freq, syms, selector, t, alphaSize, n)
    ensures alphaSize <= |freq| && forall v | 0 <= v < alphaSize :: freq[v] >= 0
  {
  }

  lemma MadeHere(freq: seq<int>, tries: seq<seq<int>>, lens: seq<int>, syms: seq<int>, selector: seq<int>, t: int,
                 alphaSize: nat)
    requires (|syms| + 49) / 50 <= |selector| && CountsUses(freq, syms, selector, t, alphaSize, |syms|)
    requires Tried(freq[..alphaSize], tries, 17) && tries[|tries| - 1] == lens
    ensures MadeFor(lens, syms, selector, t, alphaSize)
  {
    hide Tried, Uses;
    assert CountsUses(freq[..alphaSize], syms, selector, t, alphaSize, |syms|);
  }

  lemma GoodFrom(lens: seq<int>, alphaSize: nat)
    requires |lens| == alphaSize && CompleteLengths(lens, 17)
    ensures GoodLengths(lens, alphaSize)
  {
  }

  /** The smallest and the largest length of a table. */
  method LengthRange(lens: seq<int>) returns (minLen: int, maxLen: int)
    requires lens != [] && forall i | 0 <= i < |lens| :: 1 <= lens[i] <= 17
    ensures 1 <= minLen <= maxLen <= 17 && forall i | 0 <= i < |lens| :: minLen <= lens[i] <= maxLen
  {
    minLen, maxLen := 32, 0;
    for i := 0 to |lens|
      invariant i > 0 ==> 1 <= minLen <= maxLen <= 17
      invariant i == 0 ==> minLen == 32 && maxLen == 0
      invariant forall x | 0 <= x < i :: minLen <= lens[x] <= maxLen
    {
      if lens[i] > maxLen {
        maxLen := lens[i];
      }
      if lens[i] < minLen {
        minLen := lens[i];
      }
    }
  }

  method MakeCodes(lens: seq<seq<int>>, alphaSize: nat) returns (codes: seq<seq<int>>)
    requires 3 <= alphaSize <= 258 && forall t | 0 <= t < |lens| :: GoodLengths(lens[t], alphaSize)
    ensures CodesOf(lens, codes)
  {
    hide GoodLengths, TableCodes, CodeOf;
    codes := [];
    for t := 0 to |lens|
      invariant |codes| == t && forall k | 0 <= k < t :: TableCodes(lens[k], codes[k])
    {
      GoodIsValid(lens[t], alphaSize);
      var minLen, maxLen := LengthRange(lens[t]);
      // AssertH 3004 and 3005
      assert !(maxLen > 17) && !(minLen < 1);
      var length := new int[alphaSize](i requires 0 <= i < alphaSize => lens[t][i]);
      var code := new int[alphaSize];
      assert length[..alphaSize] == lens[t];
      AssignCodes(code, length, minLen, maxLen, alphaSize);
      TableDone(lens[t], code[..]);
      codes := codes + [code[..]];
    }
  }

  lemma TableDone(lens: seq<int>, codes: seq<int>)
    requires |codes| == |lens| && ValidLengths(lens) && forall i | 0 <= i < |lens| :: codes[i] == CodeOf(lens, i)
    ensures TableCodes(lens, codes)
  {
  }

  // ---------- a whole block ----------

  lemma SentIsCoded(c: Coded, k: nat, nMTF: nat)
    requires c.crc < 0x1_0000_0000 && 1 <= k <= 9 && c.origPtr <= 10 + 100000 * k
    requires |c.inUse| == 256 && Numbering(c.inUse, 256) > 0
    requires |c.lens| == NumberOfGroups(nMTF)
    requires forall t | 0 <= t < |c.lens| :: GoodLengths(c.lens[t], Numbering(c.inUse, 256) + 2)
    requires |c.selectors| == (nMTF + 49) / 50 && nMTF == |c.syms| && 1 <= nMTF <= 900001
    requires forall i | 0 <= i < |c.selectors| :: 0 <= c.selectors[i] < |c.lens|
    requires forall x | 0 <= x < nMTF :: 0 <= c.syms[x] <= Numbering(c.inUse, 256) + 1
    requires c.syms[nMTF - 1] == Numbering(c.inUse, 256) + 1
    requires forall x | 0 <= x < nMTF - 1 :: c.syms[x] != Numbering(c.inUse, 256) + 1
    ensures CodedOk(c, k) && |c.selectors| <= MAXSELECTORS
  {
    hide GoodLengths, Numbering;
    forall t | 0 <= t < |c.lens|
      ensures |c.lens[t]| == Numbering(c.inUse, 256) + 2 && ValidLengths(c.lens[t])
    {
      GoodIsValid(c.lens[t], Numbering(c.inUse, 256) + 2);
    }
  }

  /** The fixed part of a block's head. */
  method PutHead(w: BitWriter, crc: nat, origPtr: nat, ghost tail: seq<bool>)
    requires w.Valid() && crc < 0x1_0000_0000 && origPtr < 0x100_0000
    modifies w
    ensures w.Valid() && w.taken == old(w.taken)
    ensures w.Written() + tail
            == old(w.Written()) + BytesThen(BLOCKMAGIC + WordBytes(crc), [false] + (Bin(origPtr, 24) + tail))
  {
    hide BytesBits, Bin, BytesThen, WordBytes;
    Pow2Values();
    PutBytes(w, BLOCKMAGIC + WordBytes(crc), [false] + (Bin(origPtr, 24) + tail));
    PutBit(w, false, Bin(origPtr, 24) + tail);
    Rebracket(w.Written(), Bin(origPtr, 24), tail);
    w.Put(24, origPtr);
  }

  /**
   * sendMTFValues, for whatever selectors the optimising passes have settled on: tables from the symbols that use them,
   * then mapping table, selectors, tables and data.
   */
  method SendMtfValues(w: BitWriter, mtfv: array<int>, nMTF: nat, nInUse: nat, inUse: seq<bool>, selector: seq<int>,
                       ghost crc: nat, ghost origPtr: nat, ghost k: nat, ghost syms: seq<int>)
    returns (ghost c: Coded)
    requires w.Valid() && |inUse| == 256 && nInUse == Numbering(inUse, 256) > 0 && nInUse <= 256
    requires crc < 0x1_0000_0000 && 1 <= k <= 9 && origPtr <= 10 + 100000 * k
    requires 1 <= nMTF == |syms| <= 900001 && nMTF <= mtfv.Length
    requires forall x | 0 <= x < nMTF :: mtfv[x] == syms[x] && 0 <= syms[x] <= nInUse + 1
    requires syms[nMTF - 1] == nInUse + 1 && forall x | 0 <= x < nMTF - 1 :: syms[x] != nInUse + 1
    requires |selector| == (nMTF + 49) / 50
    requires forall i | 0 <= i < |selector| :: 0 <= selector[i] < NumberOfGroups(nMTF)
    modifies w
    ensures c == Coded(crc, origPtr, inUse, selector, c.lens, syms) && CodedOk(c, k)
    ensures forall t | 0 <= t < |c.lens| :: MadeFor(c.lens[t], syms, selector, t, nInUse + 2)
    ensures w.Valid() && w.taken == old(w.taken)
    ensures w.Written() == old(w.Written()) + MappedThen(c, k, [])
  {
    hide *;
    var alphaSize := nInUse + 2;
    var nGroups := NumberOfGroups(nMTF);
    var lens := MakeLengths(mtfv, nMTF, selector, nGroups, alphaSize);
    assert mtfv[..nMTF] == syms;
    c := Coded(crc, origPtr, inUse, selector, lens, syms);
    SentIsCoded(c, k, nMTF);
    // AssertH 3002 and 3003
    assert nGroups < 8 && |selector| < 32768 && |selector| <= MAXSELECTORS;
    IdentityIsPermutation(nGroups);
    var selectorMtf := SelectorPositions(selector, nGroups);
    var codes := MakeCodes(lens, alphaSize);
    PartsReady(c, k);
    ghost var data := DataThen(c, 0, []);
    ghost var tables := TablesThen(lens, data);
    ghost var sel := UnaryThen(selectorMtf, tables);
    PutMapping(w, inUse, Bin(nGroups, 3) + (Bin(|selector|, 15) + sel));
    FieldSizes();
    Rebracket(w.Written(), Bin(nGroups, 3), Bin(|selector|, 15) + sel);
    w.Put(3, nGroups);
    Rebracket(w.Written(), Bin(|selector|, 15), sel);
    w.Put(15, |selector|);
    PutUnary(w, selectorMtf, tables);
    PutTables(w, lens, data);
    PutData(w, mtfv, codes, c, [], nMTF, selector, lens);
    NoTail(w.Written());
  }

  lemma NoTail(s: seq<bool>)
    ensures s + [] == s
  {
  }

  lemma FieldSizes()
    ensures Pow2(3) == 8 && Pow2(15) == 0x8000
  {
    assert Pow2(10) == 1024;
  }

  lemma IdentityIsPermutation(n: nat)
    ensures IsPermutation(Identity(n))
  {
  }

  lemma PartsReady(c: Coded, k: nat)
    requires CodedOk(c, k)
    ensures forall x: nat | x < |c.syms| :: SymbolOk(c, x)
    ensures forall t | 0 <= t < |c.lens| :: c.lens[t] != [] && 0 <= c.lens[t][0] < 32
    ensures |c.inUse| == 256
    ensures MappedThen(c, k, []) == Used16(c.inUse) + GroupsThen(c.inUse, 0, Bin(|c.lens|, 3) + (Bin(|c.selectors|, 15)
              + UnaryThen(SelectorMtf(Identity(|c.lens|), c.selectors), TablesThen(c.lens, DataThen(c, 0, [])))))
  {
    hide KraftSum, Numbering, DataThen, TablesThen, UnaryThen, GroupsThen, Bin;
    forall x: nat | x < |c.syms|
      ensures SymbolOk(c, x)
    {
      CodedSymbol(c, k, x);
    }
    forall t | 0 <= t < |c.lens|
      ensures c.lens[t] != [] && 0 <= c.lens[t][0] < 32
    {
      assert ValidLengths(c.lens[t]);
    }
  }
}
