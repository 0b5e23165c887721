/** Code lengths and Kraft's sum, in units of 2^-20, 20 being the longest code the format allows. */
module PrefixCodes {
  import opened Bits

  const LONGEST := 20

  ghost function KraftSum(lens: seq<int>, m: nat): (r: nat)
    requires m <= |lens|
  {
    if m == 0 then 0
    else KraftSum(lens, m - 1) + (if 0 <= lens[m - 1] <= LONGEST then Pow2(LONGEST - lens[m - 1]) else 0)
  }

  /** Lengths of a prefix code over all symbols. */
  ghost predicate ValidLengths(lens: seq<int>) {
    && (forall i | 0 <= i < |lens| :: 1 <= lens[i] <= LONGEST)
    && KraftSum(lens, |lens|) <= Pow2(LONGEST)
  }

  /** Lengths no longer than the limit that leave no code unused. */
  ghost predicate CompleteLengths(lens: seq<int>, limit: int) {
    && limit <= LONGEST
    && (forall i | 0 <= i < |lens| :: 1 <= lens[i] <= limit)
    && KraftSum(lens, |lens|) == Pow2(LONGEST)
  }
}
