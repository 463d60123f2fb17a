/**
 The field GF(2^8/0x11D) of the Reed-Solomon coder.

 `Multiply` is the shift-and-xor loop; `Mul` is the product it computes. The lemmas make
 (`Xor`, `Mul`) on bytes a commutative ring with unit 1 in which multiplication by 2 is `Double`,
 that is the polynomials over two elements modulo 0x11D. `PrimitiveElement.dfy` shows that it is a field.
 */
module GaloisField {
  import opened BinaryNumbers

  type Byte = x: int | 0 <= x < 256

  /** The low eight bits and the top bit of x^8 + x^4 + x^3 + x^2 + 1. */
  const MODULUS := 0x11D

  /** Bitwise exclusive or: the sum of two polynomials over two elements. */
  function Xor(a: nat, b: nat): nat
    decreases a, b
  {
    if a == 0 && b == 0 then 0 else 2 * Xor(a / 2, b / 2) + (if a % 2 == b % 2 then 0 else 1)
  }

  /** The sum of two field elements. */
  function Add(a: Byte, b: Byte): Byte {
    XorBelow256(a, b);
    Xor(a, b)
  }

  /** Multiplication by the indeterminate: shift, then reduce. */
  function Double(z: Byte): Byte {
    if z < 128 then 2 * z else DoubleBelow256(z); Xor(2 * z, MODULUS)
  }

  /** A bit times `x`. */
  function When(c: bool, x: Byte): Byte {
    if c then x else 0
  }

  /** `x` times the polynomial whose coefficients are the bits of `y`. */
  function Mul(x: Byte, y: nat): Byte
    decreases y
  {
    if y == 0 then 0 else Add(Double(Mul(x, y / 2)), When(y % 2 == 1, x))
  }

  /** `reedSolomonMultiply`. The accumulator is an int; the last assignment's check is that it fits eight bits. */
  method Multiply(x: Byte, y: Byte) returns (product: Byte)
    ensures product == Mul(x, y)
  {
    hide Xor, Double, When;
    ShiftOut(y);
    var z := 0;
    for i := 8 downto 0
      invariant 0 <= z < 256 && z == Mul(x, ShiftRight(y, i))
    {
      ghost var before: Byte := z;
      var bit := ShiftRight(y, i) % 2;
      z := Xor(2 * z, z / 128 * MODULUS);
      ShiftAndReduce(before);
      z := Xor(z, bit * x);
      BitTimes(bit, x);
      assert ShiftRight(y, i + 1) == ShiftRight(y, i) / 2;
      MulParts(x, ShiftRight(y, i));
    }
    product := z;
  }

  lemma ShiftAndReduce(z: Byte)
    ensures Xor(2 * z, z / 128 * MODULUS) == Double(z)
  {
    hide Xor;
    XorZero(2 * z);
    if z < 128 {
      assert z / 128 == 0;
    } else {
      assert z / 128 == 1;
    }
  }

  lemma ShiftOut(y: Byte)
    ensures ShiftRight(y, 8) == 0 && ShiftRight(y, 0) == y
  {
    assert Pow2(8) == 256;
    ShiftRightIsZero(y, 8);
  }

  lemma BitTimes(bit: int, x: Byte)
    requires 0 <= bit <= 1
    ensures bit * x == When(bit == 1, x)
  {}

  // Addition

  lemma {:induction false} XorZero(a: nat)
    ensures Xor(a, 0) == a == Xor(0, a)
  {
    if a != 0 {
      XorZero(a / 2);
    }
  }

  lemma {:induction false} XorCommutes(a: nat, b: nat)
    ensures Xor(a, b) == Xor(b, a)
    decreases a + b
  {
    if a + b != 0 {
      XorCommutes(a / 2, b / 2);
    }
  }

  lemma {:induction false} XorAssociates(a: nat, b: nat, c: nat)
    ensures Xor(Xor(a, b), c) == Xor(a, Xor(b, c))
    decreases a + b + c
  {
    hide Xor;
    if a + b + c == 0 {
      XorZero(0);
    } else {
      XorAssociates(a / 2, b / 2, c / 2);
      var u, v := Xor(a, b), Xor(b, c);
      XorParts(a, b);
      XorParts(b, c);
      XorParts(u, c);
      XorParts(a, v);
      SameParts(Xor(u, c), Xor(a, v));
    }
  }

  lemma {:induction false} XorCancels(a: nat, b: nat)
    ensures Xor(a, b) == 0 <==> a == b
    decreases a + b
  {
    if a + b != 0 {
      XorCancels(a / 2, b / 2);
    }
  }

  lemma XorParts(a: nat, b: nat)
    ensures Xor(a, b) / 2 == Xor(a / 2, b / 2)
    ensures Xor(a, b) % 2 == if a % 2 == b % 2 then 0 else 1
  {}

  lemma SameParts(a: nat, b: nat)
    requires a / 2 == b / 2 && a % 2 == b % 2
    ensures a == b
  {}

  lemma DivDiv(a: nat)
    ensures a / 2 / 2 == a / 4 && a / 4 / 2 == a / 8
    ensures a / 8 / 8 == a / 64 && a / 64 / 2 == a / 128
  {}

  lemma XorEven(a: nat, b: nat)
    ensures Xor(2 * a, 2 * b) == 2 * Xor(a, b)
  {
    assert 2 * a / 2 == a && 2 * b / 2 == b;
  }

  lemma XorEighth(a: nat, b: nat)
    ensures Xor(a, b) / 8 == Xor(a / 8, b / 8)
  {
    hide Xor;
    XorParts(a, b);
    XorParts(a / 2, b / 2);
    XorParts(a / 4, b / 4);
    DivDiv(a);
    DivDiv(b);
    DivDiv(Xor(a, b));
  }

  /** Bits 7 and up of a sum. */
  lemma XorOver128(a: nat, b: nat)
    ensures Xor(a, b) / 128 == Xor(a / 128, b / 128)
  {
    hide Xor;
    XorEighth(a, b);
    XorEighth(a / 8, b / 8);
    XorParts(a / 64, b / 64);
    DivDiv(a);
    DivDiv(b);
    DivDiv(Xor(a, b));
  }

  lemma XorBelow256(a: nat, b: nat)
    requires a < 256 && b < 256
    ensures Xor(a, b) < 256
    ensures Xor(a, b) < 128 <==> (a < 128 <==> b < 128)
  {
    XorOver128(a, b);
  }

  lemma DoubleBelow256(z: nat)
    requires 128 <= z < 256
    ensures Xor(2 * z, MODULUS) < 256
  {
    hide Xor;
    XorParts(2 * z, MODULUS);
    XorOver128(z, 142);
    XorCancels(1, 1);
  }

  lemma AddZero(a: Byte)
    ensures Add(a, 0) == a == Add(0, a)
  {
    XorZero(a);
  }

  lemma AddCommutes(a: Byte, b: Byte)
    ensures Add(a, b) == Add(b, a)
  {
    XorCommutes(a, b);
  }

  lemma AddAssociates(a: Byte, b: Byte, c: Byte)
    ensures Add(Add(a, b), c) == Add(a, Add(b, c))
  {
    XorAssociates(a, b, c);
  }

  lemma AddCancels(a: Byte, b: Byte)
    ensures Add(a, b) == 0 <==> a == b
  {
    XorCancels(a, b);
  }

  /** Regroups a sum of four. */
  lemma XorSwap(a: nat, b: nat, c: nat, d: nat)
    ensures Xor(Xor(a, b), Xor(c, d)) == Xor(Xor(a, c), Xor(b, d))
  {
    hide Xor;
    XorAssociates(Xor(a, b), c, d);
    XorAssociates(a, b, c);
    XorCommutes(b, c);
    XorAssociates(a, c, b);
    XorAssociates(Xor(a, c), b, d);
  }

  lemma AddSwap(a: Byte, b: Byte, c: Byte, d: Byte)
    ensures Add(Add(a, b), Add(c, d)) == Add(Add(a, c), Add(b, d))
  {
    XorSwap(a, b, c, d);
  }

  // Linearity of the product in each argument

  lemma DoubleAdd(a: Byte, b: Byte)
    ensures Double(Add(a, b)) == Add(Double(a), Double(b))
  {
    hide Xor;
    XorBelow256(a, b);
    XorEven(a, b);
    if a < 128 && b >= 128 {
      XorAssociates(2 * a, 2 * b, MODULUS);
    } else if a >= 128 && b < 128 {
      XorAssociates(2 * a, MODULUS, 2 * b);
      XorCommutes(MODULUS, 2 * b);
      XorAssociates(2 * a, 2 * b, MODULUS);
    } else if a >= 128 && b >= 128 {
      XorSwap(2 * a, MODULUS, 2 * b, MODULUS);
      XorCancels(MODULUS, MODULUS);
      XorZero(Xor(2 * a, 2 * b));
    }
  }

  lemma WhenAdd(c: bool, x: Byte, w: Byte)
    ensures When(c, Add(x, w)) == Add(When(c, x), When(c, w))
  {
    AddZero(0);
  }

  lemma WhenDiffers(b: bool, c: bool, x: Byte)
    ensures When(b != c, x) == Add(When(b, x), When(c, x))
  {
    AddZero(x);
    AddCancels(x, x);
    AddZero(0);
  }

  lemma {:induction false} MulAddLeft(x: Byte, w: Byte, y: nat)
    ensures Mul(Add(x, w), y) == Add(Mul(x, y), Mul(w, y))
  {
    hide Add, Double, When;
    if y == 0 {
      AddZero(0);
    } else {
      var p, q, b := Mul(x, y / 2), Mul(w, y / 2), y % 2 == 1;
      MulAddLeft(x, w, y / 2);
      DoubleAdd(p, q);
      WhenAdd(b, x, w);
      AddSwap(Double(p), Double(q), When(b, x), When(b, w));
    }
  }

  lemma {:induction false} MulAddRight(x: Byte, y: nat, w: nat)
    ensures Mul(x, Xor(y, w)) == Add(Mul(x, y), Mul(x, w))
    decreases y + w
  {
    if y == 0 {
      XorZero(w);
      AddZero(Mul(x, w));
    } else if w == 0 {
      XorZero(y);
      AddZero(Mul(x, y));
    } else {
      hide Xor, Add, Double, When;
      var p, q, b, c := Mul(x, y / 2), Mul(x, w / 2), y % 2 == 1, w % 2 == 1;
      MulAddRight(x, y / 2, w / 2);
      DoubleAdd(p, q);
      XorParts(y, w);
      MulParts(x, Xor(y, w));
      WhenDiffers(b, c, x);
      AddSwap(Double(p), Double(q), When(b, x), When(c, x));
    }
  }

  lemma MulParts(x: Byte, y: nat)
    ensures Mul(x, y) == Add(Double(Mul(x, y / 2)), When(y % 2 == 1, x))
  {
    AddZero(0);
  }

  lemma {:induction false} MulDoubleLeft(x: Byte, y: nat)
    ensures Mul(Double(x), y) == Double(Mul(x, y))
  {
    if y > 0 {
      MulDoubleLeft(x, y / 2);
      DoubleAdd(Double(Mul(x, y / 2)), When(y % 2 == 1, x));
    }
  }

  // The modulus is zero

  lemma {:induction false} MulZero(y: nat)
    ensures Mul(0, y) == 0
  {
    AddZero(0);
    if y > 0 {
      MulZero(y / 2);
    }
  }

  lemma MulOne(x: Byte)
    ensures Mul(x, 1) == x
  {
    AddZero(x);
  }

  lemma MulShift(x: Byte, y: nat)
    ensures Mul(x, 2 * y) == Double(Mul(x, y))
  {
    AddZero(Double(Mul(x, y)));
  }

  lemma {:induction false} ByteParts(x: Byte)
    ensures x == Add(Double(x / 2), When(x % 2 == 1, 1))
  {
    var h := x / 2;
    XorZero(h);
    if x % 2 == 0 {
      AddZero(2 * h);
    } else {
      assert Xor(2 * h, 1) == 2 * h + 1;
    }
  }

  lemma OneTimesModulus()
    ensures Mul(1, MODULUS) == 0
  {
    assert Mul(1, 1) == 1;
    assert Mul(1, 2) == 2;
    assert Mul(1, 4) == 4;
    assert Mul(1, 8) == 8;
    assert Mul(1, 17) == 17;
    assert Mul(1, 35) == 35;
    assert Mul(1, 71) == 71;
    assert Mul(1, 142) == 142;
  }

  lemma {:induction false} MulModulus(x: Byte)
    ensures Mul(x, MODULUS) == 0
  {
    hide Mul, Add, Xor;
    if x == 0 {
      MulZero(MODULUS);
    } else if x == 1 {
      OneTimesModulus();
    } else {
      var b := x % 2 == 1;
      MulModulus(x / 2);
      MulModulus(When(b, 1));
      ByteParts(x);
      MulDoubleLeft(x / 2, MODULUS);
      MulAddLeft(Double(x / 2), When(b, 1), MODULUS);
      AddZero(0);
    }
  }

  lemma MulDoubleRight(x: Byte, y: Byte)
    ensures Mul(x, Double(y)) == Double(Mul(x, y))
  {
    MulShift(x, y);
    if y >= 128 {
      MulAddRight(x, 2 * y, MODULUS);
      MulModulus(x);
      AddZero(Mul(x, 2 * y));
    }
  }

  // The ring laws

  lemma {:induction false} OneMul(y: Byte)
    ensures Mul(1, y) == y
  {
    if y > 0 {
      OneMul(y / 2);
      ByteParts(y);
    }
  }

  lemma {:induction false} MulCommutes(x: Byte, y: Byte)
    ensures Mul(x, y) == Mul(y, x)
    decreases y
  {
    if y == 0 {
      MulZero(x);
    } else {
      var b := y % 2 == 1;
      MulParts(x, y);
      MulCommutes(x, y / 2);
      ByteParts(y);
      MulAddLeft(Double(y / 2), When(b, 1), x);
      MulDoubleLeft(y / 2, x);
      OneMul(x);
      MulZero(x);
    }
  }

  lemma {:induction false} MulAssociates(x: Byte, y: Byte, z: Byte)
    ensures Mul(Mul(x, y), z) == Mul(x, Mul(y, z))
    decreases z
  {
    if z > 0 {
      var b, v := z % 2 == 1, Mul(y, z / 2);
      MulParts(Mul(x, y), z);
      MulParts(y, z);
      MulAssociates(x, y, z / 2);
      MulAddRight(x, Double(v), When(b, y));
      MulDoubleRight(x, v);
    }
  }
}
