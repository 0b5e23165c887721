/** Move-to-front lists, and the decoder's cache that keeps one in 16 sliding segments of 16. */
module MoveToFront {

  /** The list after its entry k has been moved to the front. */
  ghost function ToFront<T>(list: seq<T>, k: nat): (r: seq<T>)
    requires k < |list|
    ensures |r| == |list|
    ensures r[0] == list[k]
    ensures forall x | 1 <= x < |list| :: r[x] == if x <= k then list[x - 1] else list[x]
  {
    [list[k]] + list[..k] + list[k + 1..]
  }

  const MTFA := 4096  // MTFA_SIZE
  const MTFL := 16    // MTFL_SIZE

  /** The segments lie apart, in order, within mtfa. */
  ghost predicate Segments(base: seq<int>) {
    && |base| == 16
    && 0 <= base[0] && base[15] + MTFL <= MTFA
    && forall k | 0 <= k < 15 :: SegmentBefore(base, k)
  }

  ghost predicate SegmentBefore(base: seq<int>, k: int)
    requires |base| == 16 && 0 <= k < 15
  {
    base[k] + MTFL <= base[k + 1]
  }

  lemma {:induction false} SegmentsApart(base: seq<int>, k: nat, m: nat)
    requires Segments(base) && k <= m < 16
    ensures base[k] + MTFL * (m - k) <= base[m]
    decreases m - k
  {
    if k < m {
      assert SegmentBefore(base, k);
      SegmentsApart(base, k + 1, m);
    }
  }

  lemma SegmentBounds(base: seq<int>, k: nat)
    requires Segments(base) && k < 16
    ensures 0 <= base[k] && base[k] + MTFL * (16 - k) <= MTFA
  {
    SegmentsApart(base, 0, k);
    SegmentsApart(base, k, 15);
  }

  /** Where entry x of the list is kept. */
  ghost function Where(base: seq<int>, x: nat): (r: int)
    requires Segments(base) && x < 256
    ensures 0 <= r < MTFA
  {
    SegmentBounds(base, x / 16);
    base[x / 16] + x % 16
  }

  ghost function ListOf(a: seq<int>, base: seq<int>): (r: seq<int>)
    requires |a| == MTFA && Segments(base)
    ensures |r| == 256 && forall x | 0 <= x < 256 :: r[x] == a[Where(base, x)]
  {
    seq(256, x requires 0 <= x < 256 => a[Where(base, x)])
  }

  lemma WhereOrder(base: seq<int>, x: nat, y: nat)
    requires Segments(base) && x < y < 256
    ensures Where(base, x) < Where(base, y)
  {
    SegmentsApart(base, x / 16, y / 16);
  }

  lemma ListAt(a: seq<int>, base: seq<int>, k: nat, j: nat)
    requires |a| == MTFA && Segments(base) && k < 16 && j < 16
    ensures 0 <= base[k] + j < MTFA && ListOf(a, base)[16 * k + j] == a[base[k] + j]
  {
    SegmentBounds(base, k);
    assert Where(base, 16 * k + j) == base[k] + j;
  }

  // ---------- shifting within a segment ----------

  /** Entries lo + n, ..., lo + n0 - 1 have been moved up by one; entry lo + n is free. */
  ghost predicate ShiftedUp(a0: seq<int>, a: seq<int>, lo: int, n: int, n0: int) {
    && |a| == |a0| && 0 <= lo && 0 <= n <= n0 && lo + n0 < |a0|
    && (forall x | lo + n < x <= lo + n0 :: a[x] == a0[x - 1])
    && (forall x | 0 <= x < |a| && !(lo + n <= x <= lo + n0) :: a[x] == a0[x])
    && (n == n0 ==> a == a0)
  }

  /** The case nn < 16, four entries at a time while possible. */
  method ShiftFirst(mtfa: array<int>, pp: int, n0: int)
    requires 0 <= pp && 0 <= n0 && pp + n0 < mtfa.Length
    modifies mtfa
    ensures ShiftedUp(old(mtfa[..]), mtfa[..], pp, 0, n0)
  {
    ghost var a0 := mtfa[..];
    var nn := n0;
    while nn > 3
      invariant 0 <= nn <= n0 && ShiftedUp(a0, mtfa[..], pp, nn, n0)
    {
      var z := pp + nn;
      mtfa[z] := mtfa[z - 1];
      mtfa[z - 1] := mtfa[z - 2];
      mtfa[z - 2] := mtfa[z - 3];
      mtfa[z - 3] := mtfa[z - 4];
      nn := nn - 4;
    }
    while nn > 0
      invariant 0 <= nn <= n0 && ShiftedUp(a0, mtfa[..], pp, nn, n0)
    {
      mtfa[pp + nn] := mtfa[pp + nn - 1];
      nn := nn - 1;
    }
  }

  lemma FirstSegmentMoved(a0: seq<int>, a: seq<int>, base: seq<int>, n0: nat, uc: int)
    requires |a0| == MTFA && Segments(base) && n0 < 16 && ShiftedUp(a0, a, base[0], 0, n0) && uc == a0[base[0] + n0]
    ensures ListOf(a[base[0] := uc], base) == ToFront(ListOf(a0, base), n0)
  {
    var r, l := ListOf(a[base[0] := uc], base), ListOf(a0, base);
    SegmentBounds(base, 0);
    forall x | 0 <= x < 256
      ensures r[x] == ToFront(l, n0)[x]
    {
      if x > n0 {
        WhereOrder(base, n0, x);
      }
    }
  }

  // ---------- the general case ----------

  /** What the list is to become, and from where: the entry at off of segment lno is moved to the front. */
  datatype Move = Move(list: seq<int>, base: seq<int>, lno: nat, off: nat)

  ghost predicate MoveOk(c: Move) {
    |c.list| == 256 && Segments(c.base) && 1 <= c.lno < 16 && c.off < 16
  }

  /** Entry x, as far as the segment lno itself has been shifted. */
  ghost predicate CellOk(c: Move, a: seq<int>, l: int, x: int)
    requires MoveOk(c) && |a| == MTFA && 0 <= x < 256
  {
    if x / 16 == c.lno && x % 16 <= c.off then
      (x % 16 > 0 ==> a[Where(c.base, x)] == c.list[x - 1])
      && (x % 16 == 0 && l < c.lno ==> a[Where(c.base, x)] == c.list[x - 1])
    else
      a[Where(c.base, x)] == c.list[x]
  }

  /** The new first entry of segment k. */
  ghost predicate HeadOk(c: Move, a: seq<int>, l: int, k: int)
    requires MoveOk(c) && |a| == MTFA && 0 < k < 16
  {
    l < k < c.lno ==> 0 < c.base[k] <= MTFA && a[c.base[k] - 1] == c.list[16 * k - 1]
  }

  ghost predicate BaseOk(c: Move, base: seq<int>, l: int, k: int)
    requires MoveOk(c) && |base| == 16 && 0 <= k < 16
  {
    base[k] == c.base[k] + if l < k < c.lno then -1 else if k == c.lno == l then 1 else 0
  }

  /** Segments above l have received the last entry of the segment before. */
  ghost predicate Carrying(c: Move, a: seq<int>, base: seq<int>, l: int) {
    && MoveOk(c) && |a| == MTFA && |base| == 16 && 0 <= l <= c.lno
    && (forall x | 0 <= x < 256 :: CellOk(c, a, l, x))
    && (forall k | 0 < k < 16 :: HeadOk(c, a, l, k))
    && (forall k | 0 <= k < 16 :: BaseOk(c, base, l, k))
  }

  lemma CarryingStart(a0: seq<int>, a: seq<int>, base: seq<int>, lno: nat, off: nat)
    requires |a0| == MTFA && Segments(base) && 1 <= lno < 16 && off < 16
    requires ShiftedUp(a0, a, base[lno], 0, off)
    ensures Carrying(Move(ListOf(a0, base), base, lno, off), a, base[lno := base[lno] + 1], lno)
  {
    var c := Move(ListOf(a0, base), base, lno, off);
    forall x | 0 <= x < 256
      ensures CellOk(c, a, lno, x)
    {
      if x / 16 != lno {
        if x < lno * 16 {
          WhereOrder(base, x, lno * 16);
        } else {
          WhereOrder(base, lno * 16 + 15, x);
        }
      }
    }
  }

  lemma CarryingStep(c: Move, a: seq<int>, base: seq<int>, l: int)
    requires Carrying(c, a, base, l) && 0 < l
    ensures 0 <= base[l] - 1 < MTFA && 0 <= base[l - 1] + 15 < MTFA
    ensures Carrying(c, a[base[l] - 1 := a[base[l - 1] + 15]], base[l := base[l] - 1], l - 1)
  {
    assert BaseOk(c, base, l, l) && BaseOk(c, base, l, l - 1);
    SegmentBounds(c.base, l);
    SegmentBounds(c.base, l - 1);
    SegmentsApart(c.base, l - 1, l);
    var a', base', l' := a[base[l] - 1 := a[base[l - 1] + 15]], base[l := base[l] - 1], l - 1;
    assert CellOk(c, a, l, 16 * l - 1);
    forall x | 0 <= x < 256
      ensures CellOk(c, a', l', x)
    {
      assert CellOk(c, a, l, x);
      if x < 16 * l - 1 {
        WhereOrder(c.base, x, 16 * l - 1);
      } else if x > 16 * l {
        WhereOrder(c.base, 16 * l, x);
      }
    }
    forall k | 0 < k < 16
      ensures HeadOk(c, a', l', k)
    {
      assert HeadOk(c, a, l, k);
      if l < k {
        SegmentsApart(c.base, l, k);
      }
    }
    forall k | 0 <= k < 16
      ensures BaseOk(c, base', l', k)
    {
      assert BaseOk(c, base, l, k);
    }
  }

  lemma CarryingEnd(c: Move, a: seq<int>, base: seq<int>, uc: int)
    requires Carrying(c, a, base, 0) && c.base[0] > 0 && uc == c.list[16 * c.lno + c.off]
    ensures Segments(base[0 := base[0] - 1]) && 0 <= base[0] - 1 < MTFA
    ensures ListOf(a[base[0] - 1 := uc], base[0 := base[0] - 1]) == ToFront(c.list, 16 * c.lno + c.off)
  {
    assert BaseOk(c, base, 0, 0) && BaseOk(c, base, 0, 15);
    SegmentBounds(c.base, 0);
    var a', base' := a[base[0] - 1 := uc], base[0 := base[0] - 1];
    forall k | 0 <= k < 15
      ensures SegmentBefore(base', k)
    {
      assert SegmentBefore(c.base, k) && BaseOk(c, base, 0, k) && BaseOk(c, base, 0, k + 1);
    }
    forall x | 0 <= x < 256
      ensures ListOf(a', base')[x] == ToFront(c.list, 16 * c.lno + c.off)[x]
    {
      EntryMoved(c, a, base, uc, x);
    }
  }

  lemma EntryMoved(c: Move, a: seq<int>, base: seq<int>, uc: int, x: int)
    requires Carrying(c, a, base, 0) && c.base[0] > 0 && uc == c.list[16 * c.lno + c.off] && 0 <= x < 256
    requires Segments(base[0 := base[0] - 1]) && 0 <= base[0] - 1 < MTFA
    ensures a[base[0] - 1 := uc][Where(base[0 := base[0] - 1], x)] == ToFront(c.list, 16 * c.lno + c.off)[x]
  {
    var k, j := x / 16, x % 16;
    assert BaseOk(c, base, 0, k) && BaseOk(c, base, 0, 0) && CellOk(c, a, 0, x);
    SegmentsApart(c.base, 0, k);
    hide Segments;
    if 0 < k < c.lno {
      assert HeadOk(c, a, 0, k);
    }
    if k < c.lno && j > 0 {
      assert CellOk(c, a, 0, x - 1);
    }
  }

  // ---------- the rebuild ----------

  /** From entry x upwards the list has been packed against the end; what lies below is as it was. */
  ghost predicate Packing(a0: seq<int>, base0: seq<int>, a: seq<int>, x: int) {
    && |a| == |a0| == MTFA && Segments(base0) && 0 <= x <= 256
    && (forall y | x <= y < 256 :: a[3840 + y] == a0[Where(base0, y)])
    && (forall y | 0 <= y < 3840 + x :: a[y] == a0[y])
  }

  lemma PackingStep(a0: seq<int>, base0: seq<int>, a: seq<int>, x: int)
    requires Packing(a0, base0, a, x + 1) && 0 <= x
    ensures Where(base0, x) <= 3840 + x
    ensures Packing(a0, base0, a[3840 + x := a[Where(base0, x)]], x)
  {
    SegmentBounds(base0, x / 16);
  }

  ghost predicate Packed(base: seq<int>) {
    |base| == 16 && forall k | 0 <= k < 16 :: base[k] == 3840 + 16 * k
  }

  lemma PackedList(a0: seq<int>, base0: seq<int>, a: seq<int>, base: seq<int>)
    requires Packing(a0, base0, a, 0) && Packed(base)
    ensures Segments(base) && ListOf(a, base) == ListOf(a0, base0)
  {
    forall k | 0 <= k < 15
      ensures SegmentBefore(base, k)
    {
    }
    assert forall x | 0 <= x < 256 :: Where(base, x) == 3840 + x;
  }

  /** The cache of one decoder. */
  class MtfCache {
    const mtfa: array<int>
    const mtfbase: array<int>

    ghost predicate Valid()
      reads mtfa, mtfbase
    {
      mtfa != mtfbase && mtfa.Length == MTFA && Segments(mtfbase[..]) && mtfbase[0] > 0
    }

    /** The list kept. */
    ghost function List(): (r: seq<int>)
      requires Valid()
      reads mtfa, mtfbase
    {
      ListOf(mtfa[..], mtfbase[..])
    }

    constructor ()
      ensures Valid() && fresh(mtfa) && fresh(mtfbase)
      ensures List() == seq(256, x => x)
    {
      mtfa := new int[MTFA];
      mtfbase := new int[16];
      new;
      var kk := MTFA - 1;
      var ii := 15;
      while ii >= 0
        invariant -1 <= ii <= 15 && kk == 3839 + 16 * (ii + 1)
        invariant forall x | kk < x < MTFA :: mtfa[x] == x - 3840
        invariant forall k | ii < k < 16 :: mtfbase[k] == 3840 + 16 * k
      {
        var jj := 15;
        while jj >= 0
          invariant -1 <= jj <= 15 && kk == 3839 + 16 * ii + jj + 1
          invariant forall x | kk < x < MTFA :: mtfa[x] == x - 3840
          invariant forall k | ii < k < 16 :: mtfbase[k] == 3840 + 16 * k
        {
          mtfa[kk] := ii * 16 + jj;
          kk := kk - 1;
          jj := jj - 1;
        }
        mtfbase[ii] := kk + 1;
        ii := ii - 1;
      }
      assert forall k | 0 <= k < 15 :: SegmentBefore(mtfbase[..], k);
    }

    /** An entry outside the first segment: make room there, and pass one entry on from each segment before. */
    method MoveFrom(lno0: nat, off: nat) returns (uc: int)
      requires Valid() && 1 <= lno0 < 16 && off < 16
      modifies mtfa, mtfbase
      ensures Segments(mtfbase[..])
      ensures ListOf(mtfa[..], mtfbase[..]) == ToFront(old(List()), 16 * lno0 + off)
      ensures uc == old(List())[16 * lno0 + off]
    {
      ghost var a0, b0 := mtfa[..], mtfbase[..];
      SegmentBounds(b0, lno0);
      ghost var c := Move(ListOf(a0, b0), b0, lno0, off);
      ListAt(a0, b0, lno0, off);
      hide Segments, ShiftedUp, Carrying, ToFront, ListOf, Where, MoveOk;
      var lno := lno0;
      uc := ShiftSegment(lno, off);
      CarryingStart(a0, mtfa[..], b0, lno, off);
      mtfbase[lno] := mtfbase[lno] + 1;
      assert mtfbase[..] == b0[lno := b0[lno] + 1];
      while lno > 0
        invariant 0 <= lno <= lno0 && Carrying(c, mtfa[..], mtfbase[..], lno)
      {
        ghost var a, base := mtfa[..], mtfbase[..];
        CarryingStep(c, a, base, lno);
        mtfbase[lno] := mtfbase[lno] - 1;
        mtfa[mtfbase[lno]] := mtfa[mtfbase[lno - 1] + MTFL - 1];
        assert mtfa[..] == a[base[lno] - 1 := a[base[lno - 1] + 15]] && mtfbase[..] == base[lno := base[lno] - 1];
        lno := lno - 1;
      }
      ghost var a, base := mtfa[..], mtfbase[..];
      CarryingEnd(c, a, base, uc);
      mtfbase[0] := mtfbase[0] - 1;
      mtfa[mtfbase[0]] := uc;
      assert mtfa[..] == a[base[0] - 1 := uc] && mtfbase[..] == base[0 := base[0] - 1];
    }

    /** Shift the entries of segment lno before off up by one. */
    method ShiftSegment(lno: nat, off: nat) returns (uc: int)
      requires mtfa != mtfbase && mtfa.Length == MTFA && mtfbase.Length == 16 && lno < 16 && off < 16
      requires 0 <= mtfbase[lno] && mtfbase[lno] + 16 <= MTFA
      modifies mtfa
      ensures ShiftedUp(old(mtfa[..]), mtfa[..], mtfbase[lno], 0, off)
      ensures uc == old(mtfa[mtfbase[lno] + off])
    {
      ghost var a0, lo := mtfa[..], mtfbase[lno];
      var pp := mtfbase[lno] + off;
      uc := mtfa[pp];
      while pp > mtfbase[lno]
        invariant lo <= pp <= lo + off && ShiftedUp(a0, mtfa[..], lo, pp - lo, off)
      {
        mtfa[pp] := mtfa[pp - 1];
        pp := pp - 1;
      }
    }

    /** When the first segment has reached the start of mtfa, all are packed against its end again, in place. */
    method Rebuild()
      requires mtfa != mtfbase && mtfa.Length == MTFA && Segments(mtfbase[..])
      modifies mtfa, mtfbase
      ensures Valid() && List() == ListOf(old(mtfa[..]), old(mtfbase[..]))
    {
      ghost var a0, b0 := mtfa[..], mtfbase[..];
      hide Segments, Packing;
      var kk := MTFA - 1;
      var ii := 15;
      PackingNone(a0, b0);
      while ii >= 0
        invariant -1 <= ii <= 15 && kk == 3839 + 16 * (ii + 1) && |b0| == 16
        invariant Packing(a0, b0, mtfa[..], 16 * (ii + 1))
        invariant forall k | 0 <= k < 16 :: mtfbase[k] == if ii < k then 3840 + 16 * k else b0[k]
      {
        var jj := 15;
        while jj >= 0
          invariant -1 <= jj <= 15 && kk == 3839 + 16 * ii + jj + 1
          invariant Packing(a0, b0, mtfa[..], 16 * ii + jj + 1)
          invariant forall k | 0 <= k < 16 :: mtfbase[k] == if ii < k then 3840 + 16 * k else b0[k]
        {
          ghost var a := mtfa[..];
          PackingStep(a0, b0, a, 16 * ii + jj);
          mtfa[kk] := mtfa[mtfbase[ii] + jj];
          assert mtfa[..] == a[3840 + (16 * ii + jj) := a[Where(b0, 16 * ii + jj)]];
          kk := kk - 1;
          jj := jj - 1;
        }
        mtfbase[ii] := kk + 1;
        ii := ii - 1;
      }
      PackedList(a0, b0, mtfa[..], mtfbase[..]);
    }

    /** Move entry nn to the front and return it. */
    method MoveUp(nn: nat) returns (uc: int)
      requires Valid() && nn < 256
      modifies mtfa, mtfbase
      ensures Valid() && List() == ToFront(old(List()), nn) && uc == old(List())[nn]
    {
      if nn < MTFL {
        ghost var a0, b0 := mtfa[..], mtfbase[..];
        SegmentBounds(b0, 0);
        var pp := mtfbase[0];
        uc := mtfa[pp + nn];
        ShiftFirst(mtfa, pp, nn);
        ghost var a := mtfa[..];
        mtfa[pp] := uc;
        FirstSegmentMoved(a0, a, b0, nn, uc);
        assert mtfa[..] == a[pp := uc] && mtfbase[..] == b0;
      } else {
        uc := MoveFrom(nn / MTFL, nn % MTFL);
        if mtfbase[0] == 0 {
          Rebuild();
        }
      }
    }
  }

  lemma PackingNone(a0: seq<int>, base0: seq<int>)
    requires |a0| == MTFA && Segments(base0)
    ensures Packing(a0, base0, a0, 256) && |base0| == 16
  {
  }
}
