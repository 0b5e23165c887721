/** BZ2_blockSort: which sort runs, and the row the block itself ends up in. */
module BlockSort {
  import opened Basics
  import opened FallbackSort
  import opened MainCompare
  import opened MainSort
  import opened Permutations
  import opened Rotations

  /** The work allowed to mainSort before the fallback takes over. */
  function BudgetInit(nblock: nat, workFactor: int): (r: nat)
    ensures r <= 33 * nblock
  {
    var wfact := if workFactor < 1 then 1 else if workFactor > 100 then 100 else workFactor;
    nblock * ((wfact - 1) / 3)
  }

  /** fallbackSort on the first nblock bytes, which it takes over as working space and then restores. */
  method SortByFallback(ptr: array<int>, block: array<int>, eclass: array<int>, bhtab: array<bool>, nblock: nat)
    requires ptr != block && ptr != eclass && block != eclass
    requires ptr.Length == eclass.Length == nblock <= block.Length && 0 < nblock <= 900000
    requires nblock + 96 <= bhtab.Length
    requires forall i | 0 <= i < nblock :: 0 <= block[i] < 256
    modifies ptr, block, eclass, bhtab
    ensures SortsRotations(block[..nblock], ptr[..])
    ensures block[..] == old(block[..])
  {
    hide *;
    var eclass8 := new int[nblock](i requires 0 <= i < nblock reads block => block[i]);
    assert eclass8[..] == block[..nblock];
    BlockBytes(eclass8[..]);
    FallbackSort.FallbackSort(ptr, eclass, eclass8, bhtab, nblock);
    ghost var rows := ptr[..];
    for i := 0 to nblock
      invariant ptr[..] == rows && block[..] == old(block[..]) && eclass8[..] == old(block[..nblock])
    {
      assert eclass8[..][i] == old(block[..nblock])[i];
      block[i] := eclass8[i];
      assert block[..] == old(block[..]);
    }
  }

  lemma BlockBytes(s: seq<int>)
    requires forall i | 0 <= i < |s| :: 0 <= s[i] < 256
    ensures Bytes(s)
  {
  }

  /**
   * BZ2_blockSort. Whichever sort runs, the rows end up in the order of the block's rotations, origPtr is the row of
   * the block itself, and the block is unchanged.
   */
  method BlockSort(ptr: array<int>, block: array<int>, quadrant: array<int>, ftab: array<int>,
                   eclass: array<int>, bhtab: array<bool>, nblock: nat, workFactor: int)
    returns (origPtr: int)
    requires ptr != block && ptr != quadrant && ptr != ftab && ptr != eclass && block != quadrant && block != ftab
    requires block != eclass && quadrant != ftab && quadrant != eclass && ftab != eclass
    requires 0 < nblock <= 900000 && ptr.Length == eclass.Length == nblock
    requires block.Length == quadrant.Length == nblock + OVERSHOOT
    requires ftab.Length == 65537 && nblock + 96 <= bhtab.Length
    requires forall i | 0 <= i < nblock :: 0 <= block[i] < 256
    modifies ptr, block, quadrant, ftab, eclass, bhtab
    ensures SortsRotations(block[..nblock], ptr[..])
    ensures 0 <= origPtr < nblock && ptr[origPtr] == 0
    ensures block[..nblock] == old(block[..nblock])
  {
    hide *;
    OvershootValue();
    ghost var b := block[..nblock];
    if nblock < 10000 {
      SortByFallback(ptr, block, eclass, bhtab, nblock);
    } else {
      var budget := BudgetInit(nblock, workFactor);
      budget := MainSort.MainSort(ptr, block, quadrant, ftab, nblock, budget);
      assert forall i | 0 <= i < nblock :: block[i] == block[..nblock][i] == b[i];
      if budget < 0 {
        SortByFallback(ptr, block, eclass, bhtab, nblock);
      }
    }
    RowOfBlock(b, ptr[..]);
    origPtr := -1;
    for i := 0 to nblock
      invariant origPtr == -1 && forall x | 0 <= x < i :: ptr[x] != 0
    {
      if ptr[i] == 0 {
        origPtr := i;
        break;
      }
    }
    // AssertH 1003
    assert origPtr != -1 by {
      assert forall x | 0 <= x < nblock :: ptr[..][x] == ptr[x];
    }
  }

  lemma RowOfBlock(b: seq<int>, p: seq<int>)
    requires SortsRotations(b, p)
    ensures exists x :: 0 <= x < |p| && p[x] == 0
  {
    PermutationIsSurjective(p);
    assert 0 in p;
  }
}
