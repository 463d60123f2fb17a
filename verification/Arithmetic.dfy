/** Absolute values, and products kept out of larger proofs. */
module Arithmetic {

  function Abs(i: int): nat {
    if i < 0 then -i else i
  }

  lemma ProductAtMost(a: int, b: int, c: nat)
    requires a <= b
    ensures a * c <= b * c
  {}

  lemma ProductPositive(a: int, b: int)
    requires a >= 0 && b >= 0
    ensures a * b >= 0
  {}
}
