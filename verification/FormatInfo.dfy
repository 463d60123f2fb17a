/** The format and version words: data bits followed by a BCH remainder, always within 15 and 18 bits. */
module FormatInfo {
  import opened BinaryNumbers
  import opened CapacityTables
  import opened GaloisField

  type Mask = m: int | 0 <= m < 8

  /** `getFormatBits` */
  function LevelBits(ecl: Ecc): (b: nat)
    ensures b < 4
  {
    match ecl
    case Low => 1
    case Medium => 0
    case Quartile => 3
    case High => 2
  }

  // The top bits of a sum

  lemma {:induction false} XorShift(a: nat, b: nat, k: nat)
    ensures ShiftRight(Xor(a, b), k) == Xor(ShiftRight(a, k), ShiftRight(b, k))
  {
    hide Xor;
    if k > 0 {
      XorShift(a, b, k - 1);
      XorParts(ShiftRight(a, k - 1), ShiftRight(b, k - 1));
    }
  }

  /** A sum of numbers of at most k bits has at most k bits. */
  lemma XorFits(a: nat, b: nat, k: nat)
    requires a < Pow2(k) && b < Pow2(k)
    ensures Xor(a, b) < Pow2(k)
  {
    hide Xor;
    XorShift(a, b, k);
    ShiftRightIsZero(a, k);
    ShiftRightIsZero(b, k);
    XorZero(0);
    ShiftRightIsZero(Xor(a, b), k);
  }

  lemma ShiftRightIsOne(a: nat, k: nat)
    requires Pow2(k) <= a < Pow2(k + 1)
    ensures ShiftRight(a, k) == 1
  {
    ShiftRightIsZero(a, k);
    ShiftRightIsZero(a, k + 1);
  }

  /** Adding two numbers of exactly k + 1 bits cancels the top bit. */
  lemma XorCancelsTop(a: nat, b: nat, k: nat)
    requires Pow2(k) <= a < Pow2(k + 1) && Pow2(k) <= b < Pow2(k + 1)
    ensures Xor(a, b) < Pow2(k)
  {
    hide Xor;
    XorShift(a, b, k);
    ShiftRightIsOne(a, k);
    ShiftRightIsOne(b, k);
    XorCancels(1, 1);
    ShiftRightIsZero(Xor(a, b), k);
  }

  /** One step of the division by `poly`, a polynomial of degree k + 1. */
  function BchStep(rem: nat, k: nat, poly: nat): nat {
    Xor(2 * rem, if rem >= Pow2(k) then poly else 0)
  }

  lemma BchStepFits(rem: nat, k: nat, poly: nat)
    requires rem < Pow2(k + 1) && Pow2(k + 1) <= poly < Pow2(k + 2)
    ensures BchStep(rem, k, poly) < Pow2(k + 1)
  {
    hide Xor;
    if rem >= Pow2(k) {
      XorCancelsTop(2 * rem, poly, k + 1);
    } else {
      XorZero(2 * rem);
    }
  }

  function Bch(data: nat, k: nat, poly: nat, n: nat): nat {
    if n == 0 then data else BchStep(Bch(data, k, poly, n - 1), k, poly)
  }

  lemma {:induction false} BchFits(data: nat, k: nat, poly: nat, n: nat)
    requires data < Pow2(k + 1) && Pow2(k + 1) <= poly < Pow2(k + 2)
    ensures Bch(data, k, poly, n) < Pow2(k + 1)
  {
    if n > 0 {
      BchFits(data, k, poly, n - 1);
      BchStepFits(Bch(data, k, poly, n - 1), k, poly);
    }
  }

  // The remainder is one: with it the word is a multiple of the polynomial, without carries

  /** The product of two polynomials with coefficients 0 and 1, as binary numbers. */
  function CarrylessMul(q: nat, poly: nat): nat {
    if q == 0 then 0 else Xor(2 * CarrylessMul(q / 2, poly), if q % 2 == 1 then poly else 0)
  }

  function BchQuotient(data: nat, k: nat, poly: nat, n: nat): nat {
    if n == 0 then 0
    else 2 * BchQuotient(data, k, poly, n - 1) + if Bch(data, k, poly, n - 1) >= Pow2(k) then 1 else 0
  }

  lemma CarrylessNext(q: nat, poly: nat, odd: bool)
    ensures CarrylessMul(2 * q + (if odd then 1 else 0), poly)
            == Xor(2 * CarrylessMul(q, poly), if odd then poly else 0)
  {
    hide Xor;
    if q == 0 && !odd {
      XorZero(0);
    }
  }

  /** n steps add a multiple of the polynomial to the data shifted by n. */
  lemma {:induction false} BchIsRemainder(data: nat, k: nat, poly: nat, n: nat)
    ensures Bch(data, k, poly, n) == Xor(data * Pow2(n), CarrylessMul(BchQuotient(data, k, poly, n), poly))
  {
    hide Xor, CarrylessMul;
    if n == 0 {
      NoProduct(poly);
      XorZero(data);
    } else {
      var rem, q := Bch(data, k, poly, n - 1), BchQuotient(data, k, poly, n - 1);
      var product, top := CarrylessMul(q, poly), if rem >= Pow2(k) then poly else 0;
      BchIsRemainder(data, k, poly, n - 1);
      CarrylessNext(q, poly, rem >= Pow2(k));
      XorEven(data * Pow2(n - 1), product);
      XorAssociates(2 * (data * Pow2(n - 1)), 2 * product, top);
      DoubleShift(data, n);
    }
  }

  lemma NoProduct(poly: nat)
    ensures CarrylessMul(0, poly) == 0
  {}

  lemma DoubleShift(data: nat, n: nat)
    requires n > 0
    ensures 2 * (data * Pow2(n - 1)) == data * Pow2(n)
  {}

  lemma Sizes()
    ensures Pow2(9) == 512 && Pow2(10) == 1024 && Pow2(11) == 2048 && Pow2(12) == 4096 && Pow2(13) == 8192
    ensures Pow2(15) == 32768 && Pow2(18) == 262144
  {
    assert Pow2(5) == 32;
    assert Pow2(9) == 16 * Pow2(5);
    assert Pow2(13) == 16 * Pow2(9);
    assert Pow2(18) == 32 * Pow2(13);
  }

  /** The 15 format bits of a level and a mask. */
  function FormatBits(ecl: Ecc, mask: Mask): nat {
    var data := LevelBits(ecl) * 8 + mask;
    Xor(data * 1024 + Bch(data, 9, 0x537, 10), 0x5412)
  }

  /** The 18 version bits. */
  function VersionBits(ver: Version): nat {
    ver * 4096 + Bch(ver, 11, 0x1F25, 12)
  }

  /** The checks `bits >> 15 != 0` and `bits >> 18 != 0` never hold. */
  lemma WordsFit(ecl: Ecc, mask: Mask, ver: Version)
    ensures FormatBits(ecl, mask) < Pow2(15) && VersionBits(ver) < Pow2(18)
  {
    hide Xor, Bch, Pow2;
    Sizes();
    var data := LevelBits(ecl) * 8 + mask;
    BchFits(data, 9, 0x537, 10);
    XorFits(data * 1024 + Bch(data, 9, 0x537, 10), 0x5412, 15);
    BchFits(ver, 11, 0x1F25, 12);
  }

  lemma OneIsPow2()
    ensures Pow2(0) == 1
  {}

  lemma HalfFits(low: nat, k: nat)
    requires k > 0 && low < Pow2(k)
    ensures low / 2 < Pow2(k - 1)
  {}

  /** Numbers without a common bit can be added. */
  lemma {:induction false} XorDisjoint(data: nat, low: nat, k: nat)
    requires low < Pow2(k)
    ensures Xor(data * Pow2(k), low) == data * Pow2(k) + low
    decreases k
  {
    hide Xor, Pow2;
    if k == 0 {
      OneIsPow2();
      XorZero(data);
    } else {
      HalfFits(low, k);
      DoubleShift(data, k);
      XorDisjoint(data, low / 2, k - 1);
      XorParts(data * Pow2(k), low);
    }
  }

  lemma WordIsMultiple(data: nat, k: nat, poly: nat)
    requires Bch(data, k, poly, k + 1) < Pow2(k + 1)
    ensures data * Pow2(k + 1) + Bch(data, k, poly, k + 1) == CarrylessMul(BchQuotient(data, k, poly, k + 1), poly)
  {
    hide Xor, Bch, BchQuotient, CarrylessMul, Pow2;
    var shifted, rem, product := data * Pow2(k + 1), Bch(data, k, poly, k + 1),
      CarrylessMul(BchQuotient(data, k, poly, k + 1), poly);
    BchIsRemainder(data, k, poly, k + 1);
    XorDisjoint(data, rem, k + 1);
    XorAssociates(shifted, shifted, product);
    XorCancels(shifted, shifted);
    XorZero(product);
  }

  /** The plain format word and the version word are multiples of their polynomials: codewords of the BCH codes. */
  lemma WordsAreCodewords(ecl: Ecc, mask: Mask, ver: Version)
    ensures exists q: nat :: Xor(FormatBits(ecl, mask), 0x5412) == CarrylessMul(q, 0x537)
    ensures exists q: nat :: VersionBits(ver) == CarrylessMul(q, 0x1F25)
  {
    hide Xor, Bch, Pow2, CarrylessMul, BchQuotient;
    Sizes();
    var data := LevelBits(ecl) * 8 + mask;
    BchFits(data, 9, 0x537, 10);
    WordIsMultiple(data, 9, 0x537);
    var plain := data * 1024 + Bch(data, 9, 0x537, 10);
    XorAssociates(plain, 0x5412, 0x5412);
    XorCancels(0x5412, 0x5412);
    XorZero(plain);
    BchFits(ver, 11, 0x1F25, 12);
    WordIsMultiple(ver, 11, 0x1F25);
  }

  /** The step as the source writes it, for a remainder of k + 1 bits. */
  lemma BchStepShifts(rem: nat, k: nat, poly: nat)
    requires rem < Pow2(k + 1)
    ensures BchStep(rem, k, poly) == Xor(2 * rem, ShiftRight(rem, k) * poly)
  {
    hide Xor;
    ShiftRightIsZero(rem, k);
    if rem >= Pow2(k) {
      ShiftRightIsOne(rem, k);
    }
  }

  /** The word that `drawFormatBits` draws. */
  method ComputeFormatBits(ecl: Ecc, msk: Mask) returns (bits: nat)
    ensures bits == FormatBits(ecl, msk)
  {
    hide Xor, BchStep, Pow2, ShiftRight;
    Sizes();
    var data := LevelBits(ecl) * 8 + msk;
    var rem := data;
    for i := 0 to 10
      invariant rem == Bch(data, 9, 0x537, i) && rem < 1024
    {
      BchStepShifts(rem, 9, 0x537);
      BchFits(data, 9, 0x537, i + 1);
      rem := Xor(2 * rem, ShiftRight(rem, 9) * 0x537);
    }
    bits := Xor(data * 1024 + rem, 0x5412);
    WordsFit(ecl, msk, MIN_VERSION);
    ShiftRightIsZero(bits, 15);
    if ShiftRight(bits, 15) != 0 {
      assert false;
    }
  }

  /** The word that `drawVersion` draws. */
  method ComputeVersionBits(ver: Version) returns (bits: nat)
    ensures bits == VersionBits(ver)
  {
    hide Xor, BchStep, Pow2, ShiftRight;
    Sizes();
    var rem := ver;
    for i := 0 to 12
      invariant rem == Bch(ver, 11, 0x1F25, i) && 0 <= rem < 4096
    {
      BchStepShifts(rem, 11, 0x1F25);
      BchFits(ver, 11, 0x1F25, i + 1);
      rem := Xor(2 * rem, ShiftRight(rem, 11) * 0x1F25);
    }
    bits := ver * 4096 + rem;
    WordsFit(Low, 0, ver);
    ShiftRightIsZero(bits, 18);
    if ShiftRight(bits, 18) != 0 {
      assert false;
    }
  }
}
