/** Powers of two and right shifts of natural numbers. */
module BinaryNumbers {

  function Pow2(n: nat): (p: nat)
    ensures p >= 1
  {
    if n == 0 then 1 else 2 * Pow2(n - 1)
  }

  lemma {:induction false} Pow2Monotone(m: nat, n: nat)
    requires m <= n
    ensures Pow2(m) <= Pow2(n)
  {
    if m < n {
      Pow2Monotone(m, n - 1);
    }
  }

  /** `x >> n` */
  function ShiftRight(x: nat, n: nat): nat {
    if n == 0 then x else ShiftRight(x, n - 1) / 2
  }

  /** `x << n` */
  function ShiftLeft(x: nat, n: nat): nat {
    if n == 0 then x else 2 * ShiftLeft(x, n - 1)
  }

  /** `x >> n` is zero exactly when `x` fits `n` bits. */
  lemma {:induction false} ShiftRightIsZero(x: nat, n: nat)
    ensures ShiftRight(x, n) == 0 <==> x < Pow2(n)
  {
    if n > 0 {
      ShiftRightHalf(x, n - 1);
      ShiftRightIsZero(x / 2, n - 1);
    }
  }

  lemma {:induction false} ShiftRightHalf(x: nat, n: nat)
    ensures ShiftRight(x, n + 1) == ShiftRight(x / 2, n)
  {
    if n > 0 {
      ShiftRightHalf(x, n - 1);
    }
  }

  lemma EightBits()
    ensures Pow2(8) == 256
  {}
}
