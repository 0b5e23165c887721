/** What many modules speak of. */
module Basics {

  ghost predicate Bytes(s: seq<int>) {
    forall i | 0 <= i < |s| :: 0 <= s[i] < 256
  }

  function Smaller(a: nat, b: nat): nat {
    if a < b then a else b
  }
}
