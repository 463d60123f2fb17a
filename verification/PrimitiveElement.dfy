/**
 Two generates the multiplicative group of GF(2^8/0x11D): its powers 2^0 .. 2^254 are distinct and
 are all the non-zero bytes. So every non-zero byte has an inverse and there are no zero divisors.
 */
module PrimitiveElement {
  import opened FiniteSets
  import opened GaloisField

  /** 2^n in the field. */
  function Exp(n: nat): Byte {
    if n == 0 then 1 else Double(Exp(n - 1))
  }

  lemma ExpZero()
    ensures Exp(0) == 1
  {}

  lemma ExpNext(n: nat)
    ensures Exp(n + 1) == Double(Exp(n))
  {}

  lemma MulTwo(x: Byte)
    ensures Mul(x, 2) == Double(x)
  {
    MulOne(x);
    MulShift(x, 1);
  }

  lemma {:induction false} ExpAdd(m: nat, n: nat)
    ensures Exp(m + n) == Mul(Exp(m), Exp(n))
  {
    if n == 0 {
      MulOne(Exp(m));
    } else {
      ExpAdd(m, n - 1);
      MulDoubleRight(Exp(m), Exp(n - 1));
    }
  }

  lemma DoubleIsZero(z: Byte)
    requires Double(z) == 0
    ensures z == 0
  {
    if z >= 128 {
      XorCancels(2 * z, MODULUS);
    }
  }

  lemma DoubleInjective(x: Byte, y: Byte)
    requires Double(x) == Double(y)
    ensures x == y
  {
    DoubleAdd(x, y);
    AddCancels(Double(x), Double(y));
    DoubleIsZero(Add(x, y));
    AddCancels(x, y);
  }

  lemma {:induction false} ExpNonZero(n: nat)
    ensures Exp(n) != 0
  {
    if n > 0 {
      ExpNonZero(n - 1);
      if Exp(n) == 0 {
        DoubleIsZero(Exp(n - 1));
      }
    }
  }

  lemma {:induction false} ExpRepeats(m: nat, k: nat)
    requires Exp(m + k) == Exp(m)
    ensures Exp(k) == 1
  {
    if m > 0 {
      DoubleInjective(Exp(m - 1 + k), Exp(m - 1));
      ExpRepeats(m - 1, k);
    }
  }

  // The order of 2

  lemma {:induction false} ExpMultiple(m: nat, k: nat)
    requires Exp(m) == 1
    ensures Exp(m * k) == 1
    decreases k
  {
    if k > 0 {
      ExpMultiple(m, k - 1);
      ExpAdd(m * (k - 1), m);
      assert m * (k - 1) + m == m * k;
      MulOne(1);
    }
  }

  // Evaluating sums of constants, digit by digit

  type Digit = d: int | 0 <= d <= 1

  function Push(h: nat, d: Digit): nat { 2 * h + d }

  function Differ(i: Digit, j: Digit): Digit { if i == j then 0 else 1 }

  lemma XorPush(h: nat, k: nat, i: Digit, j: Digit)
    ensures Xor(Push(h, i), Push(k, j)) == Push(Xor(h, k), Differ(i, j))
  {
    var a, b := 2 * h + i, 2 * k + j;
    assert a / 2 == h && b / 2 == k && a % 2 == i && b % 2 == j;
  }

  function Binary(a8: Digit, a7: Digit, a6: Digit, a5: Digit, a4: Digit, a3: Digit, a2: Digit, a1: Digit,
                  a0: Digit): nat {
    256 * a8 + 128 * a7 + 64 * a6 + 32 * a5 + 16 * a4 + 8 * a3 + 4 * a2 + 2 * a1 + a0
  }

  lemma BinaryIsPushes(a8: Digit, a7: Digit, a6: Digit, a5: Digit, a4: Digit, a3: Digit, a2: Digit, a1: Digit,
                       a0: Digit)
    ensures Binary(a8, a7, a6, a5, a4, a3, a2, a1, a0)
         == Push(Push(Push(Push(Push(Push(Push(Push(Push(0, a8), a7), a6), a5), a4), a3), a2), a1), a0)
  {}

  lemma XorBinary(a8: Digit, a7: Digit, a6: Digit, a5: Digit, a4: Digit, a3: Digit, a2: Digit, a1: Digit, a0: Digit,
                  b8: Digit, b7: Digit, b6: Digit, b5: Digit, b4: Digit, b3: Digit, b2: Digit, b1: Digit, b0: Digit)
    ensures Xor(Binary(a8, a7, a6, a5, a4, a3, a2, a1, a0), Binary(b8, b7, b6, b5, b4, b3, b2, b1, b0))
         == Binary(Differ(a8, b8), Differ(a7, b7), Differ(a6, b6), Differ(a5, b5), Differ(a4, b4),
                   Differ(a3, b3), Differ(a2, b2), Differ(a1, b1), Differ(a0, b0))
  {
    hide Xor, Push, Differ, Binary;
    XorZero(0);
    BinaryIsPushes(a8, a7, a6, a5, a4, a3, a2, a1, a0);
    BinaryIsPushes(b8, b7, b6, b5, b4, b3, b2, b1, b0);
    BinaryIsPushes(Differ(a8, b8), Differ(a7, b7), Differ(a6, b6), Differ(a5, b5), Differ(a4, b4),
                   Differ(a3, b3), Differ(a2, b2), Differ(a1, b1), Differ(a0, b0));
    var p1, q1 := Push(0, a8), Push(0, b8);
    var p2, q2 := Push(p1, a7), Push(q1, b7);
    var p3, q3 := Push(p2, a6), Push(q2, b6);
    var p4, q4 := Push(p3, a5), Push(q3, b5);
    var p5, q5 := Push(p4, a4), Push(q4, b4);
    var p6, q6 := Push(p5, a3), Push(q5, b3);
    var p7, q7 := Push(p6, a2), Push(q6, b2);
    var p8, q8 := Push(p7, a1), Push(q7, b1);
    XorPush(0, 0, a8, b8);
    XorPush(p1, q1, a7, b7);
    XorPush(p2, q2, a6, b6);
    XorPush(p3, q3, a5, b5);
    XorPush(p4, q4, a4, b4);
    XorPush(p5, q5, a3, b3);
    XorPush(p6, q6, a2, b2);
    XorPush(p7, q7, a1, b1);
    XorPush(p8, q8, a0, b0);
  }

  lemma MulShiftAdd(x: Byte, y: nat)
    ensures Mul(x, 2 * y + 1) == Add(Double(Mul(x, y)), x)
  {
    hide Xor;
    assert (2 * y + 1) / 2 == y && (2 * y + 1) % 2 == 1;
  }

  lemma SumsForSquareOf29()
    ensures Xor(58, 29) == 39 && Xor(78, 29) == 83 && Xor(332, 285) == 81 && Xor(81, 29) == 76
  {
    hide Xor;
    XorBinary(0, 0, 0, 1, 1, 1, 0, 1, 0, 0, 0, 0, 0, 1, 1, 1, 0, 1);
    XorBinary(0, 0, 1, 0, 0, 1, 1, 1, 0, 0, 0, 0, 0, 1, 1, 1, 0, 1);
    XorBinary(1, 0, 1, 0, 0, 1, 1, 0, 0, 1, 0, 0, 0, 1, 1, 1, 0, 1);
    XorBinary(0, 0, 1, 0, 1, 0, 0, 0, 1, 0, 0, 0, 0, 1, 1, 1, 0, 1);
  }

  lemma SquareOf29()
    ensures Mul(29, 29) == 76
  {
    hide Mul, Xor;
    SumsForSquareOf29();
    MulOne(29);
    MulShiftAdd(29, 1);
    assert Mul(29, 3) == 39;
    MulShiftAdd(29, 3);
    assert Mul(29, 7) == 83;
    MulShift(29, 7);
    assert Mul(29, 14) == 166;
    MulShiftAdd(29, 14);
    assert Mul(29, 29) == 76;
  }

  lemma SumsForSquareOf152()
    ensures Xor(304, 285) == 45 && Xor(180, 152) == 44 && Xor(88, 152) == 192 && Xor(384, 285) == 157
            && Xor(314, 285) == 39
  {
    hide Xor;
    XorBinary(1, 0, 0, 1, 1, 0, 0, 0, 0, 1, 0, 0, 0, 1, 1, 1, 0, 1);
    XorBinary(0, 1, 0, 1, 1, 0, 1, 0, 0, 0, 1, 0, 0, 1, 1, 0, 0, 0);
    XorBinary(0, 0, 1, 0, 1, 1, 0, 0, 0, 0, 1, 0, 0, 1, 1, 0, 0, 0);
    XorBinary(1, 1, 0, 0, 0, 0, 0, 0, 0, 1, 0, 0, 0, 1, 1, 1, 0, 1);
    XorBinary(1, 0, 0, 1, 1, 1, 0, 1, 0, 1, 0, 0, 0, 1, 1, 1, 0, 1);
  }

  lemma SquareOf152()
    ensures Mul(152, 152) == 78
  {
    hide Mul, Xor;
    SumsForSquareOf152();
    MulOne(152);
    MulShift(152, 1);
    assert Mul(152, 2) == 45;
    MulShift(152, 2);
    assert Mul(152, 4) == 90;
    MulShiftAdd(152, 4);
    assert Mul(152, 9) == 44;
    MulShiftAdd(152, 9);
    assert Mul(152, 19) == 192;
    MulShift(152, 19);
    assert Mul(152, 38) == 157;
    MulShift(152, 38);
    assert Mul(152, 76) == 39;
    MulShift(152, 76);
    assert Mul(152, 152) == 78;
  }

  lemma SumsForSquareOf78()
    ensures Xor(312, 285) == 37 && Xor(74, 78) == 4 && Xor(8, 78) == 70 && Xor(140, 78) == 194 && Xor(388, 285) == 153
  {
    hide Xor;
    XorBinary(1, 0, 0, 1, 1, 1, 0, 0, 0, 1, 0, 0, 0, 1, 1, 1, 0, 1);
    XorBinary(0, 0, 1, 0, 0, 1, 0, 1, 0, 0, 0, 1, 0, 0, 1, 1, 1, 0);
    XorBinary(0, 0, 0, 0, 0, 1, 0, 0, 0, 0, 0, 1, 0, 0, 1, 1, 1, 0);
    XorBinary(0, 1, 0, 0, 0, 1, 1, 0, 0, 0, 0, 1, 0, 0, 1, 1, 1, 0);
    XorBinary(1, 1, 0, 0, 0, 0, 1, 0, 0, 1, 0, 0, 0, 1, 1, 1, 0, 1);
  }

  lemma SquareOf78()
    ensures Mul(78, 78) == 153
  {
    hide Mul, Xor;
    SumsForSquareOf78();
    MulOne(78);
    MulShift(78, 1);
    assert Mul(78, 2) == 156;
    MulShift(78, 2);
    assert Mul(78, 4) == 37;
    MulShiftAdd(78, 4);
    assert Mul(78, 9) == 4;
    MulShiftAdd(78, 9);
    assert Mul(78, 19) == 70;
    MulShiftAdd(78, 19);
    assert Mul(78, 39) == 194;
    MulShift(78, 39);
    assert Mul(78, 78) == 153;
  }

  lemma FirstReduction()
    ensures Xor(256, 285) == 29
  {
    hide Xor;
    XorBinary(1, 0, 0, 0, 0, 0, 0, 0, 0, 1, 0, 0, 0, 1, 1, 1, 0, 1);
  }

  lemma SumsForOrder()
    ensures Xor(152, 1) == 153 && Xor(153, 1) == 152 && Xor(78, 152) == 214
  {
    hide Xor;
    assert Xor(152, 1) == 153 by {
      XorBinary(0, 1, 0, 0, 1, 1, 0, 0, 0, 0, 0, 0, 0, 0, 0, 0, 0, 1);
    }
    assert Xor(153, 1) == 152 by {
      XorAssociates(152, 1, 1);
      XorCancels(1, 1);
      XorZero(152);
    }
    assert Xor(78, 152) == 214 by {
      XorBinary(0, 0, 1, 0, 0, 1, 1, 1, 0, 0, 1, 0, 0, 1, 1, 0, 0, 0);
    }
  }

  lemma PowersUpTo17()
    ensures Exp(8) == 29 && Exp(16) == 76 && Exp(17) == 152
  {
    hide Mul, Xor;
    assert Exp(4) == 16;
    assert Exp(7) == 128;
    FirstReduction();
    assert Exp(8) == 29;
    ExpAdd(8, 8);
    SquareOf29();
  }

  // The order of 2 is 255. The powers of 2^17 form a field of 16 elements, with (2^17)^4 == 2^17 + 1.

  lemma SquareAdd(a: Byte, b: Byte)
    ensures Mul(Add(a, b), Add(a, b)) == Add(Mul(a, a), Mul(b, b))
  {
    hide Xor, Mul;
    var ab := Mul(a, b);
    MulAddLeft(a, b, Add(a, b));
    MulAddRight(a, a, b);
    MulAddRight(b, a, b);
    MulCommutes(b, a);
    AddCommutes(ab, Mul(b, b));
    AddSwap(Mul(a, a), ab, Mul(b, b), ab);
    AddCancels(ab, ab);
    AddZero(Add(Mul(a, a), Mul(b, b)));
  }

  lemma PowersOf17()
    ensures Exp(34) == 78 && Exp(68) == 153 && Exp(272) == Exp(17)
  {
    hide Mul, Xor, Exp;
    PowersUpTo17();
    SumsForOrder();
    ExpAdd(17, 17);
    SquareOf152();
    ExpAdd(34, 34);
    SquareOf78();
    MulOne(1);
    ExpAdd(68, 68);
    SquareAdd(152, 1);
    assert Exp(136) == Add(78, 1);
    ExpAdd(136, 136);
    SquareAdd(78, 1);
  }

  lemma Period()
    ensures Exp(255) == 1
  {
    PowersOf17();
    ExpRepeats(17, 255);
  }

  /** No proper divisor of 255 is a period. */
  lemma NotPeriods()
    ensures Exp(15) != 1 && Exp(51) != 1 && Exp(85) != 1
  {
    hide Mul, Xor, Exp;
    PowersUpTo17();
    PowersOf17();
    SumsForOrder();
    assert Exp(15) != 1 by {
      ExpAdd(15, 1);
      assert Exp(1) == 2 by { ExpOne(); }
      OneMul(2);
    }
    assert Exp(51) != 1 by {
      ExpAdd(51, 17);
      OneMul(152);
    }
    assert Exp(85) == 214 by {
      ExpAdd(68, 17);
      MulAddLeft(152, 1, 152);
      OneMul(152);
      SquareOf152();
    }
  }

  lemma ExpOne()
    ensures Exp(1) == 2
  {
    assert Exp(0) == 1;
  }

  lemma DivisorOf255(m: nat, q: nat)
    requires m * q == 255 && m < 255
    ensures m in {1, 3, 5, 15, 17, 51, 85}
  {
    if q <= 15 {
      SmallFactorOf255(m, q);
    } else if m <= 15 {
      SmallFactorOf255(q, m);
    } else {
      ProductAtLeast(m, q);
    }
  }

  lemma ProductAtLeast(m: nat, q: nat)
    requires m >= 16 && q >= 16
    ensures m * q >= 256
  {}

  lemma SmallFactorOf255(m: nat, q: nat)
    requires m * q == 255 && q <= 15
    ensures (m, q) in {(255, 1), (85, 3), (51, 5), (17, 15)}
  {
    if q == 0 {} else if q == 1 {} else if q == 2 {} else if q == 3 {} else if q == 4 {} else if q == 5 {}
    else if q == 6 {} else if q == 7 {} else if q == 8 {} else if q == 9 {} else if q == 10 {}
    else if q == 11 {} else if q == 12 {} else if q == 13 {} else if q == 14 {} else {}
  }

  lemma {:induction false} OrderOfTwo(m: nat)
    requires 0 < m < 255
    ensures Exp(m) != 1
  {
    hide Exp;
    if Exp(m) == 1 {
      var q, r := 255 / m, 255 % m;
      assert 255 == m * q + r;
      Period();
      ExpMultiple(m, q);
      ExpAdd(m * q, r);
      OneMul(Exp(r));
      if r > 0 {
        OrderOfTwo(r);
      } else {
        NotPeriods();
        DivisorOf255(m, q);
        if m <= 15 {
          ExpMultiple(m, 15 / m);
        } else if m <= 51 {
          ExpMultiple(m, 51 / m);
        }
      }
    }
  }

  /** The powers 2^0 .. 2^254 are distinct. */
  lemma PowersDistinct(i: nat, j: nat)
    requires i < j < 255
    ensures Exp(i) != Exp(j)
  {
    if Exp(i) == Exp(j) {
      ExpRepeats(i, j - i);
      OrderOfTwo(j - i);
    }
  }

  ghost function Powers(n: nat): set<int> {
    set i | 0 <= i < n :: Exp(i)
  }

  lemma {:induction false} PowersSize(n: nat)
    requires n <= 255
    ensures |Powers(n)| == n
  {
    hide Exp;
    if n == 0 {
      assert Powers(0) == {};
    } else {
      PowersSize(n - 1);
      assert Exp(n - 1) !in Powers(n - 1) by {
        forall i | 0 <= i < n - 1
          ensures Exp(i) != Exp(n - 1)
        {
          PowersDistinct(i, n - 1);
        }
      }
      assert Powers(n) == Powers(n - 1) + {Exp(n - 1)};
    }
  }

  /** Every non-zero byte is a power of two. */
  lemma EveryByteIsPower(x: Byte) returns (k: nat)
    requires x != 0
    ensures k < 255 && Exp(k) == x
  {
    PowersSize(255);
    IntervalSize(1, 256);
    forall i: nat
      ensures Exp(i) in Interval(1, 256)
    {
      ExpNonZero(i);
    }
    SubsetSize(Powers(255), Interval(1, 256));
    assert x in Powers(255);
    k :| 0 <= k < 255 && Exp(k) == x;
  }

  /** Every non-zero byte has an inverse. */
  lemma Inverse(x: Byte) returns (y: Byte)
    requires x != 0
    ensures Mul(x, y) == 1
  {
    var k := EveryByteIsPower(x);
    y := Exp(255 - k);
    ExpAdd(k, 255 - k);
    Period();
  }

  lemma NoZeroDivisors(x: Byte, y: Byte)
    requires Mul(x, y) == 0
    ensures x == 0 || y == 0
  {
    if x != 0 {
      var z := Inverse(x);
      MulCommutes(x, z);
      MulAssociates(z, x, y);
      MulCommutes(z, 0);
      MulZero(z);
      OneMul(y);
    }
  }
}
