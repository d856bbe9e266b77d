/** Small notions several components share. */
module Basics {

  type Byte = n: nat | n < 256

  function Min(a: nat, b: nat): nat {
    if a <= b then a else b
  }

  predicate NoDuplicates(s: seq<nat>) {
    forall i, j :: 0 <= i < j < |s| ==> s[i] != s[j]
  }
}
