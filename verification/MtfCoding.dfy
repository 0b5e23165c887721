/** generateMTFValues: move-to-front symbols with zero runs in bijective base 2, and their decoding. */
module MtfCoding {
  import opened Bits
  import opened BurrowsWheeler
  import opened Counting
  import opened MoveToFront
  import opened Permutations

  const RUNA := 0  // BZ_RUNA
  const RUNB := 1  // BZ_RUNB

  const MAXSELECTORS := 18002  // BZ_MAX_SELECTORS

  // ---------- zero runs ----------

  /** The digits of a run of z, least significant first: RUNA counts 1, RUNB counts 2. */
  function RunCode(z: nat): (r: seq<int>)
    ensures |r| <= z
    ensures forall x | 0 <= x < |r| :: r[x] == RUNA || r[x] == RUNB
  {
    if z == 0 then [] else [if z % 2 == 0 then RUNB else RUNA] + RunCode((z - 1) / 2)
  }

  // ---------- the symbols of a column ----------

  ghost function IndexOf(list: seq<int>, v: int): (r: nat)
    requires v in list
    ensures r < |list| && list[r] == v
    ensures forall x | 0 <= x < r :: list[x] != v
  {
    if list[0] == v then 0 else 1 + IndexOf(list[1..], v)
  }

  ghost predicate Listing(list: seq<int>, m: nat) {
    && |list| == m && IsPermutation(list)
  }

  lemma ListingHas(list: seq<int>, m: nat, v: int)
    requires Listing(list, m) && 0 <= v < m
    ensures v in list
  {
    PermutationIsSurjective(list);
  }

  lemma ToFrontListing(list: seq<int>, m: nat, k: nat)
    requires Listing(list, m) && k < m
    ensures Listing(ToFront(list, k), m)
  {
  }

  /** All symbols of the column are on the list. */
  ghost predicate Column(u: seq<int>, m: nat) {
    forall x | 0 <= x < |u| :: 0 <= u[x] < m
  }

  /** The symbols for column u, given the list and the zeros already pending, without the end mark. */
  ghost function Symbols(list: seq<int>, m: nat, z: nat, u: seq<int>): (r: seq<int>)
    requires Listing(list, m) && m > 0 && Column(u, m)
    decreases |u|
  {
    if u == [] then RunCode(z)
    else if list[0] == u[0] then Symbols(list, m, z + 1, u[1..])
    else
      ListingHas(list, m, u[0]);
      var k := IndexOf(list, u[0]);
      ToFrontListing(list, m, k);
      RunCode(z) + [k + 1] + Symbols(ToFront(list, k), m, 0, u[1..])
  }

  /** Never more symbols than column entries, and all below the end mark m + 1. */
  lemma {:induction false} SymbolsBound(list: seq<int>, m: nat, z: nat, u: seq<int>)
    requires Listing(list, m) && m > 0 && Column(u, m)
    ensures |Symbols(list, m, z, u)| <= z + |u|
    ensures forall x | 0 <= x < |Symbols(list, m, z, u)| :: 0 <= Symbols(list, m, z, u)[x] <= m
    decreases |u|
  {
    if u != [] {
      if list[0] == u[0] {
        SymbolsBound(list, m, z + 1, u[1..]);
      } else {
        ListingHas(list, m, u[0]);
        var k := IndexOf(list, u[0]);
        ToFrontListing(list, m, k);
        SymbolsBound(ToFront(list, k), m, 0, u[1..]);
      }
    }
  }

  // ---------- decoding ----------

  function Repeat(v: int, n: nat): (r: seq<int>)
    ensures |r| == n && forall x | 0 <= x < n :: r[x] == v
  {
    seq(n, _ => v)
  }

  /** The column the symbols stand for; es zeros are pending, the next digit counts N or 2 * N. Ends at eob. */
  ghost function Unsymbols(list: seq<int>, eob: int, es: nat, N: nat, syms: seq<int>): (r: seq<int>)
    requires |list| > 0
    decreases |syms|
  {
    if syms == [] then Repeat(list[0], es)
    else if syms[0] == RUNA then Unsymbols(list, eob, es + N, 2 * N, syms[1..])
    else if syms[0] == RUNB then Unsymbols(list, eob, es + 2 * N, 2 * N, syms[1..])
    else if syms[0] == eob || !(0 < syms[0] <= |list|) then Repeat(list[0], es)
    else Repeat(list[0], es) + [list[syms[0] - 1]] + Unsymbols(ToFront(list, syms[0] - 1), eob, 0, 1, syms[1..])
  }

  lemma RunDigit(e: nat, N: nat, z: nat)
    requires z > 0
    ensures e + (if z % 2 == 0 then 2 * N else N) + (2 * N) * ((z - 1) / 2) == e + N * z
  {
    var h := (z - 1) / 2;
    assert z == (if z % 2 == 0 then 2 else 1) + 2 * h;
    assert N * z == N * (if z % 2 == 0 then 2 else 1) + N * (2 * h);
    assert N * (2 * h) == (2 * N) * h;
  }

  /** A run code adds its run, whatever follows. */
  lemma {:induction false} RunDecoded(list: seq<int>, eob: int, e: nat, N: nat, z: nat, rest: seq<int>) returns (N': nat)
    requires |list| > 0
    ensures Unsymbols(list, eob, e, N, RunCode(z) + rest) == Unsymbols(list, eob, e + N * z, N', rest)
    decreases z
  {
    if z == 0 {
      assert RunCode(0) + rest == rest;
      N' := N;
    } else {
      var d := if z % 2 == 0 then RUNB else RUNA;
      var tail := RunCode((z - 1) / 2) + rest;
      assert RunCode(z) + rest == [d] + tail;
      assert (RunCode(z) + rest)[1..] == tail;
      N' := RunDecoded(list, eob, e + (if z % 2 == 0 then 2 * N else N), 2 * N, (z - 1) / 2, rest);
      RunDigit(e, N, z);
    }
  }

  lemma SymbolsOfMove(list: seq<int>, m: nat, z: nat, u: seq<int>) returns (k: nat)
    requires Listing(list, m) && m > 0 && Column(u, m) && u != [] && list[0] != u[0]
    ensures 0 < k < m == |list| && list[k] == u[0] && Listing(ToFront(list, k), m) && Column(u[1..], m)
    ensures Symbols(list, m, z, u) == RunCode(z) + [k + 1] + Symbols(ToFront(list, k), m, 0, u[1..])
  {
    ListingHas(list, m, u[0]);
    k := IndexOf(list, u[0]);
    ToFrontListing(list, m, k);
  }

  lemma SymbolsOfZero(list: seq<int>, m: nat, z: nat, u: seq<int>)
    requires Listing(list, m) && m > 0 && Column(u, m)
    ensures u == [] ==> Symbols(list, m, z, u) == RunCode(z)
    ensures u != [] && list[0] == u[0] ==>
      Column(u[1..], m) && Symbols(list, m, z, u) == Symbols(list, m, z + 1, u[1..])
  {
  }

  /** Decoding the symbols of a column, then the end mark, gives the column back. */
  lemma {:induction false} SymbolsDecoded(list: seq<int>, m: nat, z: nat, u: seq<int>)
    requires Listing(list, m) && m > 0 && Column(u, m)
    ensures |list| > 0 && Unsymbols(list, m + 1, 0, 1, Symbols(list, m, z, u) + [m + 1]) == Repeat(list[0], z) + u
    decreases |u|
  {
    hide Symbols, Unsymbols, RunCode, ToFront, IsPermutation;
    var eob := m + 1;
    SymbolsOfZero(list, m, z, u);
    if u == [] {
      var N' := RunDecoded(list, eob, 0, 1, z, [eob]);
      EndDecoded(list, eob, z, N');
      assert Repeat(list[0], z) + u == Repeat(list[0], z);
    } else if list[0] == u[0] {
      SymbolsDecoded(list, m, z + 1, u[1..]);
      assert Repeat(list[0], z + 1) + u[1..] == Repeat(list[0], z) + u;
    } else {
      var k := SymbolsOfMove(list, m, z, u);
      var rest := Symbols(ToFront(list, k), m, 0, u[1..]);
      SymbolsDecoded(ToFront(list, k), m, 0, u[1..]);
      MoveDecoded(list, m, z, k, rest + [eob]);
      assert Symbols(list, m, z, u) + [eob] == RunCode(z) + ([k + 1] + (rest + [eob]));
      var v := ToFront(list, k)[0];
      assert Repeat(list[0], z) + [u[0]] + (Repeat(v, 0) + u[1..]) == Repeat(list[0], z) + u;
    }
  }

  lemma EndDecoded(list: seq<int>, eob: int, z: nat, N: nat)
    requires |list| > 0 && eob > RUNB
    ensures Unsymbols(list, eob, z, N, [eob]) == Repeat(list[0], z)
  {
  }

  lemma MoveDecoded(list: seq<int>, m: nat, z: nat, k: nat, next: seq<int>)
    requires |list| == m && 0 < k < m
    ensures Unsymbols(list, m + 1, 0, 1, RunCode(z) + ([k + 1] + next))
            == Repeat(list[0], z) + [list[k]] + Unsymbols(ToFront(list, k), m + 1, 0, 1, next)
  {
    var N' := RunDecoded(list, m + 1, 0, 1, z, [k + 1] + next);
    assert ([k + 1] + next)[1..] == next;
  }

  // ---------- the storage ----------

  /**
   * Word i of arr1: the row order is kept in 32-bit words over the same memory, in 16-bit halves, the symbols go to.
   */
  function Word(mem: seq<int>, i: nat): int
    requires 2 * i + 1 < |mem|
  {
    mem[2 * i] + 0x10000 * mem[2 * i + 1]
  }

  /** Words from.. still hold the row order. */
  ghost predicate Unread(mem: seq<int>, ptr: seq<int>, from: nat) {
    && 2 * |ptr| <= |mem|
    && forall i | from <= i < |ptr| :: Word(mem, i) == ptr[i]
  }

  /** The first |out| halves hold the symbols written, and freq counts them. */
  ghost predicate Written(mem: seq<int>, freq: seq<int>, out: seq<int>, m: nat) {
    && |out| <= |mem| && |freq| == 258 && 0 < m <= 256
    && (forall x | 0 <= x < |out| :: mem[x] == out[x])
    && (forall x | 0 <= x < |out| :: 0 <= out[x] <= m + 1)
    && forall c | 0 <= c <= m + 1 :: freq[c] == Count(out, |out|, c)
  }

  lemma {:induction false} CountPrefix(s: seq<int>, t: seq<int>, n: nat, c: int)
    requires n <= |s| && n <= |t| && forall x | 0 <= x < n :: s[x] == t[x]
    ensures Count(s, n, c) == Count(t, n, c)
  {
    if n > 0 {
      CountPrefix(s, t, n - 1, c);
    }
  }

  /** Writing symbol number |out| leaves every unread word alone. */
  lemma SymbolWritten(mem: seq<int>, freq: seq<int>, ptr: seq<int>, from: nat, out: seq<int>, m: nat, v: int)
    requires Unread(mem, ptr, from) && Written(mem, freq, out, m) && 0 <= v <= m + 1
    requires |out| < 2 * from && |out| < 2 * |ptr|
    ensures |out| < |mem| && v < |freq|
    ensures Unread(mem[|out| := v], ptr, from)
    ensures Written(mem[|out| := v], freq[v := freq[v] + 1], out + [v], m)
  {
    var mem', freq', out' := mem[|out| := v], freq[v := freq[v] + 1], out + [v];
    forall i | from <= i < |ptr|
      ensures Word(mem', i) == ptr[i]
    {
      assert Word(mem, i) == ptr[i];
    }
    forall c | 0 <= c <= m + 1
      ensures freq'[c] == Count(out', |out'|, c)
    {
      CountPrefix(out, out', |out|, c);
    }
  }

  method PutSymbol(mem: array<int>, mtfFreq: array<int>, wr: nat, v: int,
                   ghost ptr: seq<int>, ghost from: nat, ghost out: seq<int>, ghost m: nat)
    requires mem != mtfFreq && Unread(mem[..], ptr, from) && Written(mem[..], mtfFreq[..], out, m)
    requires wr == |out| && 0 <= v <= m + 1 && wr < 2 * from && wr < 2 * |ptr|
    modifies mem, mtfFreq
    ensures Unread(mem[..], ptr, from) && Written(mem[..], mtfFreq[..], out + [v], m)
  {
    ghost var a, f := mem[..], mtfFreq[..];
    SymbolWritten(a, f, ptr, from, out, m, v);
    mem[wr] := v;
    mtfFreq[v] := mtfFreq[v] + 1;
    assert mem[..] == a[wr := v] && mtfFreq[..] == f[v := f[v] + 1];
  }

  lemma RunCodeStep(k: nat)
    ensures RunCode(k + 1) == [if k % 2 == 1 then RUNB else RUNA] + RunCode(k / 2)
  {
  }

  lemma RunCodeEmpty()
    ensures RunCode(0) == []
  {
  }

  /** Write a run out. */
  method PutRun(mem: array<int>, mtfFreq: array<int>, wr: nat, z: nat,
                ghost ptr: seq<int>, ghost from: nat, ghost out: seq<int>, ghost m: nat)
    returns (wr': nat, ghost out': seq<int>)
    requires mem != mtfFreq && Unread(mem[..], ptr, from) && Written(mem[..], mtfFreq[..], out, m) && m > 0
    requires wr == |out| && z > 0 && wr + z <= from && from <= |ptr|
    modifies mem, mtfFreq
    ensures out' == out + RunCode(z) && wr' == |out'|
    ensures Unread(mem[..], ptr, from) && Written(mem[..], mtfFreq[..], out', m)
  {
    hide Unread, Written, RunCode;
    wr', out' := wr, out;
    var zPend := z - 1;
    while true
      invariant 0 <= zPend && wr' == |out'| && wr' + zPend + 1 <= from
      invariant out' + RunCode(zPend + 1) == out + RunCode(z)
      invariant Unread(mem[..], ptr, from) && Written(mem[..], mtfFreq[..], out', m)
      decreases zPend
    {
      var v := if zPend % 2 == 1 then RUNB else RUNA;
      PutSymbol(mem, mtfFreq, wr', v, ptr, from, out', m);
      wr' := wr' + 1;
      RunCodeStep(zPend);
      assert out' + RunCode(zPend + 1) == (out' + [v]) + RunCode(zPend / 2);
      out' := out' + [v];
      if zPend < 2 {
        RunCodeEmpty();
        break;
      }
      zPend := (zPend - 2) / 2;
    }
  }

  /** Entries 1, ..., j hold what stood one place before. */
  ghost predicate Rotated(y0: seq<int>, y: seq<int>, j: int) {
    && |y| == |y0|
    && forall x | 0 <= x < |y| :: RotatedAt(y0, y, j, x)
  }

  ghost predicate RotatedAt(y0: seq<int>, y: seq<int>, j: int, x: int)
    requires 0 <= x < |y| == |y0|
  {
    y[x] == if 1 <= x <= j then y0[x - 1] else y0[x]
  }

  lemma RotatedToFront(y0: seq<int>, y: seq<int>, m: nat, j: nat)
    requires 0 < j < m <= |y0| && Rotated(y0, y, j)
    ensures y[0 := y0[j]][..m] == ToFront(y0[..m], j)
    ensures forall x | m <= x < |y| :: y[x] == y0[x]
  {
    var l, r := y0[..m], y[0 := y0[j]][..m];
    forall x | m <= x < |y|
      ensures y[x] == y0[x]
    {
      assert RotatedAt(y0, y, j, x);
    }
    forall x | 0 <= x < m
      ensures r[x] == ToFront(l, j)[x]
    {
      if 0 < x {
        assert RotatedAt(y0, y, j, x);
        assert l[x - 1] == y0[x - 1];
      }
    }
  }

  lemma RotatedNext(y0: seq<int>, y: seq<int>, j: int)
    requires Rotated(y0, y, j) && 0 <= j && j + 1 < |y0|
    ensures y[j + 1] == y0[j + 1] && Rotated(y0, y[j + 1 := y0[j]], j + 1)
  {
    var r, j' := y[j + 1 := y0[j]], j + 1;
    assert RotatedAt(y0, y, j, j');
    forall x | 0 <= x < |y|
      ensures RotatedAt(y0, r, j', x)
    {
      assert RotatedAt(y0, y, j, x);
    }
  }

  /** Find v in the list by moving everything before it up by one. */
  method RotateList(yy: array<int>, v: int, m: nat) returns (j: nat)
    requires 0 < m <= yy.Length && v in yy[..m] && yy[0] != v
    modifies yy
    ensures old(v in yy[..m]) && j == IndexOf(old(yy[..m]), v) && 0 < j
    ensures yy[..m] == ToFront(old(yy[..m]), j)
    ensures forall x | m <= x < yy.Length :: yy[x] == old(yy[x])
  {
    ghost var y0 := yy[..];
    ghost var l := yy[..m];
    ghost var k := IndexOf(l, v);
    assert l[0] == yy[0] && forall x | 0 <= x < m :: l[x] == y0[x];
    hide Rotated, ToFront;
    RotatedStart(y0);
    RotatedNext(y0, y0, 0);
    var rtmp := yy[1];
    yy[1] := yy[0];
    assert yy[..] == y0[1 := y0[0]];
    j := 1;
    while v != rtmp
      invariant 1 <= j <= k && rtmp == y0[j] && Rotated(y0, yy[..], j)
      decreases k - j
    {
      ghost var y := yy[..];
      RotatedNext(y0, y, j);
      j := j + 1;
      var rtmp2 := rtmp;
      rtmp := yy[j];
      yy[j] := rtmp2;
      assert yy[..] == y[j := y0[j - 1]];
    }
    ghost var y := yy[..];
    RotatedToFront(y0, y, m, j);
    yy[0] := rtmp;
    assert yy[..] == y[0 := y0[j]];
    assert yy[..m] == yy[..][..m];
    assert forall x | 1 <= x < yy.Length :: yy[x] == y[x];
  }

  lemma RotatedStart(y: seq<int>)
    ensures Rotated(y, y, 0)
  {
  }

  // ---------- the whole ----------

  /** makeMaps_e: the symbols in use, numbered. */
  ghost function Numbering(inUse: seq<bool>, c: nat): (r: nat)
    requires c <= |inUse|
    ensures r <= c
  {
    if c == 0 then 0 else Numbering(inUse, c - 1) + (if inUse[c - 1] then 1 else 0)
  }

  lemma {:induction false} NumberingGrows(inUse: seq<bool>, c: nat, d: nat)
    requires c < d <= |inUse|
    ensures Numbering(inUse, c) + (if inUse[c] then 1 else 0) <= Numbering(inUse, d)
  {
    if c < d - 1 {
      NumberingGrows(inUse, c, d - 1);
    }
  }

  method MakeMaps(inUse: array<bool>, unseqToSeq: array<int>) returns (nInUse: nat)
    requires inUse.Length == 256 == unseqToSeq.Length
    modifies unseqToSeq
    ensures nInUse == Numbering(inUse[..], 256)
    ensures forall c | 0 <= c < 256 && inUse[c] :: unseqToSeq[c] == Numbering(inUse[..], c) < nInUse
  {
    nInUse := 0;
    for i := 0 to 256
      invariant nInUse == Numbering(inUse[..], i)
      invariant forall c | 0 <= c < i && inUse[c] :: unseqToSeq[c] == Numbering(inUse[..], c)
    {
      if inUse[i] {
        unseqToSeq[i] := nInUse;
        nInUse := nInUse + 1;
      }
    }
    forall c | 0 <= c < 256 && inUse[c]
      ensures Numbering(inUse[..], c) < nInUse
    {
      NumberingGrows(inUse[..], c, 256);
    }
  }

  /** The column to be coded: the character before each row, numbered among those in use. */
  ghost function ColumnOf(b: seq<int>, p: seq<int>, inUse: seq<bool>): (r: seq<int>)
    requires |p| == |b| && |inUse| == 256 && InUse(b, inUse) && forall i | 0 <= i < |p| :: 0 <= p[i] < |b|
    ensures |r| == |b| && Column(r, Numbering(inUse, 256))
    ensures forall i | 0 <= i < |b| :: r[i] == Numbering(inUse, b[Before(p[i], |b|)])
  {
    var r := seq(|b|, i requires 0 <= i < |b| => Numbering(inUse, b[Before(p[i], |b|)]));
    assert Column(r, Numbering(inUse, 256)) by {
      forall x | 0 <= x < |r|
        ensures 0 <= r[x] < Numbering(inUse, 256)
      {
        var c := b[Before(p[x], |b|)];
        assert inUse[c];
        NumberingGrows(inUse, c, 256);
      }
    }
    r
  }

  /** Just the characters of the block are marked. */
  ghost predicate InUse(b: seq<int>, inUse: seq<bool>)
    requires |inUse| == 256
  {
    && (forall i | 0 <= i < |b| :: 0 <= b[i] < 256 && inUse[b[i]])
    && forall x | 0 <= x < 256 && inUse[x] :: x in b
  }

  /** The characters below n that are marked. */
  ghost function MarkedBelow(inUse: seq<bool>, n: nat): set<int>
    requires n <= |inUse|
  {
    set x | 0 <= x < n && inUse[x]
  }

  lemma {:induction false} MarkedCount(inUse: seq<bool>, n: nat)
    requires n <= |inUse|
    ensures |MarkedBelow(inUse, n)| == Numbering(inUse, n)
  {
    if n == 0 {
      assert MarkedBelow(inUse, 0) == {};
    } else {
      MarkedCount(inUse, n - 1);
      var fewer := MarkedBelow(inUse, n - 1);
      assert MarkedBelow(inUse, n) == if inUse[n - 1] then fewer + {n - 1} else fewer;
    }
  }

  /** nInUse is the number of different characters in the block. */
  lemma CharactersInUse(b: seq<int>, inUse: seq<bool>)
    requires |inUse| == 256 && InUse(b, inUse)
    ensures Numbering(inUse, 256) == |set x | x in b|
  {
    hide Numbering;
    MarkedCount(inUse, 256);
    assert (set x | x in b) == MarkedBelow(inUse, 256);
  }

  function Identity(m: nat): (r: seq<int>)
    ensures |r| == m && forall x | 0 <= x < m :: r[x] == x
  {
    seq(m, x => x)
  }

  /** The loop over the rows: what is written so far and what the rest of the column still gives make up the whole. */
  ghost predicate Coding(all: seq<int>, u: seq<int>, m: nat, i: nat, out: seq<int>, list: seq<int>, z: nat) {
    && m > 0 && Listing(list, m) && Column(u, m) && i <= |u| && |out| + z <= i
    && out + Symbols(list, m, z, u[i..]) == all
  }

  lemma CodingZero(all: seq<int>, u: seq<int>, m: nat, i: nat, out: seq<int>, list: seq<int>, z: nat)
    requires Coding(all, u, m, i, out, list, z) && i < |u| && |list| == m > 0 && list[0] == u[i]
    ensures Coding(all, u, m, i + 1, out, list, z + 1)
  {
    SymbolsOfZero(list, m, z, u[i..]);
    assert u[i..][1..] == u[i + 1..];
  }

  lemma CodingMove(all: seq<int>, u: seq<int>, m: nat, i: nat, out: seq<int>, list: seq<int>, z: nat) returns (k: nat)
    requires Coding(all, u, m, i, out, list, z) && i < |u| && |list| == m > 0 && list[0] != u[i]
    ensures u[i] in list && k == IndexOf(list, u[i]) && k < m
    ensures Coding(all, u, m, i + 1, out + RunCode(z) + [k + 1], ToFront(list, k), 0)
  {
    hide RunCode, ToFront, IsPermutation;
    ListingHas(list, m, u[i]);
    k := IndexOf(list, u[i]);
    ToFrontListing(list, m, k);
    assert u[i..][1..] == u[i + 1..];
    var rest := Symbols(ToFront(list, k), m, 0, u[i + 1..]);
    assert Symbols(list, m, z, u[i..]) == RunCode(z) + [k + 1] + rest;
    assert out + RunCode(z) + [k + 1] + rest == out + (RunCode(z) + [k + 1] + rest);
  }

  lemma CodingStart(u: seq<int>, m: nat)
    requires m > 0 && Column(u, m)
    ensures Listing(Identity(m), m) && Coding(Symbols(Identity(m), m, 0, u), u, m, 0, [], Identity(m), 0)
  {
    assert u[0..] == u;
  }

  lemma CodingEnd(all: seq<int>, u: seq<int>, m: nat, out: seq<int>, list: seq<int>, z: nat)
    requires Coding(all, u, m, |u|, out, list, z)
    ensures out + RunCode(z) == all
  {
    assert u[|u|..] == [];
  }

  lemma CodingParts(all: seq<int>, u: seq<int>, m: nat, i: nat, out: seq<int>, list: seq<int>, z: nat)
    requires Coding(all, u, m, i, out, list, z)
    ensures |list| == m > 0 && Column(u, m) && i <= |u| && |out| + z <= i
  {
  }

  /** Code one entry ll of the column. */
  method PutEntry(mem: array<int>, mtfFreq: array<int>, yy: array<int>, wr: nat, zPend: nat, ll: int, m: nat,
                  ghost all: seq<int>, ghost u: seq<int>, ghost i: nat, ghost ptr: seq<int>, ghost out: seq<int>)
    returns (wr': nat, zPend': nat, ghost out': seq<int>)
    requires mem != mtfFreq && mem != yy && mtfFreq != yy && yy.Length == 256 && m <= 256
    requires i < |u| == |ptr| && ll == u[i] && wr == |out| && Coding(all, u, m, i, out, yy[..m], zPend)
    requires Unread(mem[..], ptr, i + 1) && Written(mem[..], mtfFreq[..], out, m)
    modifies mem, mtfFreq, yy
    ensures wr' == |out'| && Coding(all, u, m, i + 1, out', yy[..m], zPend')
    ensures Unread(mem[..], ptr, i + 1) && Written(mem[..], mtfFreq[..], out', m)
  {
    hide Unread, Written, Coding, RunCode, ToFront;
    ghost var list := yy[..m];
    CodingParts(all, u, m, i, out, list, zPend);
    wr', zPend', out' := wr, zPend, out;
    assert list[0] == yy[0];
    if yy[0] == ll {
      CodingZero(all, u, m, i, out, list, zPend);
      zPend' := zPend + 1;
    } else {
      ghost var k := CodingMove(all, u, m, i, out, list, zPend);
      if zPend > 0 {
        wr', out' := PutRun(mem, mtfFreq, wr, zPend, ptr, i + 1, out, m);
        zPend' := 0;
      } else {
        RunCodeEmpty();
        assert out + RunCode(0) == out;
      }
      assert yy[..m] == list;
      CodingParts(all, u, m, i + 1, out + RunCode(zPend) + [k + 1], ToFront(list, k), 0);
      var j := RotateList(yy, ll, m);
      PutSymbol(mem, mtfFreq, wr', j + 1, ptr, i + 1, out', m);
      wr', out' := wr' + 1, out' + [j + 1];
    }
  }

  /** unseqToSeq numbers the characters in use. */
  ghost predicate Numbered(inUse: seq<bool>, unseq: seq<int>) {
    && |inUse| == |unseq| == 256
    && forall c | 0 <= c < 256 && inUse[c] :: unseq[c] == Numbering(inUse, c) < Numbering(inUse, 256)
  }

  lemma WrittenNone(mem: seq<int>, freq: seq<int>, m: nat)
    requires |freq| == 258 && 0 < m <= 256 && forall c | 0 <= c <= m + 1 :: freq[c] == 0
    ensures Written(mem, freq, [], m)
  {
  }

  lemma UnreadAll(mem: seq<int>, ptr: seq<int>)
    requires 2 * |ptr| <= |mem| && forall i | 0 <= i < |ptr| :: Word(mem, i) == ptr[i]
    ensures Unread(mem, ptr, 0)
  {
  }

  method StartCoding(mtfFreq: array<int>, m: nat) returns (yy: array<int>)
    requires mtfFreq.Length == 258 && 0 < m <= 256
    modifies mtfFreq
    ensures forall c | 0 <= c <= m + 1 :: mtfFreq[c] == 0
    ensures fresh(yy) && yy.Length == 256 && yy[..m] == Identity(m)
  {
    for i := 0 to m + 2
      invariant forall c | 0 <= c < i :: mtfFreq[c] == 0
    {
      mtfFreq[i] := 0;
    }
    yy := new int[256];
    for i := 0 to m
      invariant forall x | 0 <= x < i :: yy[x] == x
      invariant forall c | 0 <= c <= m + 1 :: mtfFreq[c] == 0
    {
      yy[i] := i;
    }
  }

  /** The number of the entry of row i. */
  method EntryAt(mem: array<int>, block: array<int>, unseqToSeq: array<int>, nblock: nat, i: nat,
                 ghost ptr: seq<int>, ghost inUse: seq<bool>) returns (ll: int)
    requires i < nblock == |ptr| <= block.Length && unseqToSeq.Length == 256 && |inUse| == 256
    requires Unread(mem[..], ptr, i) && Numbered(inUse, unseqToSeq[..])
    requires InUse(block[..nblock], inUse) && forall x | 0 <= x < nblock :: 0 <= ptr[x] < nblock
    ensures ll == ColumnOf(block[..nblock], ptr, inUse)[i] < Numbering(inUse, 256)
    ensures Unread(mem[..], ptr, i + 1)
  {
    hide Unread, ColumnOf, InUse;
    ReadWord(mem[..], ptr, i);
    EntryOf(block[..nblock], ptr, inUse, i);
    var j := mem[2 * i] + 0x10000 * mem[2 * i + 1] - 1;
    if j < 0 {
      j := j + nblock;
    }
    assert block[..nblock][j] == block[j];
    assert unseqToSeq[..][block[j]] == unseqToSeq[block[j]];
    ll := unseqToSeq[block[j]];
  }

  /** The symbols of a block, end mark included. */
  ghost function BlockSymbols(b: seq<int>, p: seq<int>, inUse: seq<bool>): seq<int>
    requires |p| == |b| > 0 && |inUse| == 256 && InUse(b, inUse) && forall i | 0 <= i < |p| :: 0 <= p[i] < |b|
  {
    var m := Numbering(inUse, 256);
    InUseSome(b, p, inUse);
    Symbols(Identity(m), m, 0, ColumnOf(b, p, inUse)) + [m + 1]
  }

  lemma InUseSome(b: seq<int>, p: seq<int>, inUse: seq<bool>)
    requires |p| == |b| > 0 && |inUse| == 256 && InUse(b, inUse) && forall i | 0 <= i < |p| :: 0 <= p[i] < |b|
    ensures 0 < Numbering(inUse, 256) && Listing(Identity(Numbering(inUse, 256)), Numbering(inUse, 256))
  {
    assert 0 <= ColumnOf(b, p, inUse)[0] < Numbering(inUse, 256);
  }

  /**
   * generateMTFValues. The symbols overwrite the row order in place, never a word still to be read; there are at most
   * nblock + 1 of them, they are the coded column followed by the end mark, and mtfFreq counts them.
   */
  method GenerateMtfValues(mem: array<int>, block: array<int>, inUse: array<bool>, unseqToSeq: array<int>,
                           mtfFreq: array<int>, nblock: nat, ghost ptr: seq<int>)
    returns (nInUse: nat, nMTF: nat, ghost out: seq<int>)
    requires mem != block && mem != unseqToSeq && mem != mtfFreq && mtfFreq != block && mtfFreq != unseqToSeq
    requires block != unseqToSeq && inUse.Length == 256 == unseqToSeq.Length && mtfFreq.Length == 258
    requires 0 < nblock == |ptr| <= block.Length && 2 * nblock <= mem.Length
    requires forall i | 0 <= i < nblock :: 0 <= ptr[i] < nblock && Word(mem[..], i) == ptr[i]
    requires InUse(block[..nblock], inUse[..])
    modifies mem, unseqToSeq, mtfFreq
    ensures nInUse == Numbering(inUse[..], 256) && 0 < nInUse
    ensures out == BlockSymbols(block[..nblock], ptr, inUse[..])
    ensures nMTF == |out| <= nblock + 1
    ensures Written(mem[..], mtfFreq[..], out, nInUse)
    ensures Numbered(inUse[..], unseqToSeq[..])
  {
    hide *;
    ghost var b, used := block[..nblock], inUse[..];
    nInUse := MakeMaps(inUse, unseqToSeq);
    ghost var unseq := unseqToSeq[..];
    NumberedMaps(used, unseq);
    InUseSome(b, ptr, used);
    ghost var u := ColumnOf(b, ptr, used);
    var yy := StartCoding(mtfFreq, nInUse);
    WrittenNone(mem[..], mtfFreq[..], nInUse);
    UnreadAll(mem[..], ptr);
    CodingStart(u, nInUse);
    ghost var all := Symbols(Identity(nInUse), nInUse, 0, u);
    out := [];
    var wr, zPend := 0, 0;
    for i := 0 to nblock
      invariant block[..nblock] == b && inUse[..] == used && unseqToSeq[..] == unseq
      invariant wr == |out| && Coding(all, u, nInUse, i, out, yy[..nInUse], zPend)
      invariant Unread(mem[..], ptr, i) && Written(mem[..], mtfFreq[..], out, nInUse)
    {
      CodingParts(all, u, nInUse, i, out, yy[..nInUse], zPend);
      assert wr <= i;
      var ll := EntryAt(mem, block, unseqToSeq, nblock, i, ptr, used);
      assert ll < nInUse;
      wr, zPend, out := PutEntry(mem, mtfFreq, yy, wr, zPend, ll, nInUse, all, u, i, ptr, out);
    }
    CodingParts(all, u, nInUse, nblock, out, yy[..nInUse], zPend);
    CodingEnd(all, u, nInUse, out, yy[..nInUse], zPend);
    RunCodeSize(zPend);
    if zPend > 0 {
      wr, out := PutRun(mem, mtfFreq, wr, zPend, ptr, nblock, out, nInUse);
    } else {
      RunCodeEmpty();
      assert out + RunCode(0) == out;
    }
    PutSymbol(mem, mtfFreq, wr, nInUse + 1, ptr, nblock, out, nInUse);
    out := out + [nInUse + 1];
    nMTF := wr + 1;
    BlockSymbolsAre(b, ptr, used);
  }

  lemma NumberedMaps(inUse: seq<bool>, unseq: seq<int>)
    requires |inUse| == |unseq| == 256
    requires forall c | 0 <= c < 256 && inUse[c] :: unseq[c] == Numbering(inUse, c) < Numbering(inUse, 256)
    ensures Numbered(inUse, unseq)
  {
  }

  lemma BlockSymbolsAre(b: seq<int>, p: seq<int>, inUse: seq<bool>)
    requires |p| == |b| > 0 && |inUse| == 256 && InUse(b, inUse) && forall i | 0 <= i < |p| :: 0 <= p[i] < |b|
    ensures var m := Numbering(inUse, 256);
      m > 0 && Listing(Identity(m), m) && Column(ColumnOf(b, p, inUse), m)
      && BlockSymbols(b, p, inUse) == Symbols(Identity(m), m, 0, ColumnOf(b, p, inUse)) + [m + 1]
  {
    InUseSome(b, p, inUse);
  }

  lemma RunCodeSize(z: nat)
    ensures |RunCode(z)| <= z
  {
  }

  lemma ReadWord(mem: seq<int>, ptr: seq<int>, i: nat)
    requires Unread(mem, ptr, i) && i < |ptr|
    ensures 2 * i + 1 < |mem| && mem[2 * i] + 0x10000 * mem[2 * i + 1] == ptr[i] && Unread(mem, ptr, i + 1)
  {
    assert Word(mem, i) == ptr[i];
  }

  lemma EntryOf(b: seq<int>, p: seq<int>, inUse: seq<bool>, i: nat)
    requires |p| == |b| && |inUse| == 256 && InUse(b, inUse) && forall x | 0 <= x < |p| :: 0 <= p[x] < |b|
    requires i < |b|
    ensures var j := if p[i] == 0 then |b| - 1 else p[i] - 1;
      0 <= b[j] < 256 && inUse[b[j]] && ColumnOf(b, p, inUse)[i] == Numbering(inUse, b[j])
    ensures 0 <= ColumnOf(b, p, inUse)[i] < Numbering(inUse, 256)
  {
  }
}
