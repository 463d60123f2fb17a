/** Bits packed into bytes, eight at a time, most significant first. */
module BytePacking {
  import opened BinaryNumbers
  import opened BitStrings
  import opened GaloisField

  /** The bits of a byte string. */
  function BytesToBits(bytes: seq<Byte>): (bits: seq<bool>)
    ensures |bits| == 8 * |bytes|
  {
    if |bytes| == 0 then [] else BytesToBits(bytes[..|bytes| - 1]) + ToBits(bytes[|bytes| - 1], 8)
  }

  /** Bit `i` of a byte string is bit 7 - i % 8 of byte i / 8. */
  lemma {:induction false} BytesToBitsAt(bytes: seq<Byte>, j: nat, k: nat)
    requires j < |bytes| && k < 8
    ensures BytesToBits(bytes)[8 * j + k] == ToBits(bytes[j], 8)[k]
  {
    hide ToBits;
    if j < |bytes| - 1 {
      BytesToBitsAt(bytes[..|bytes| - 1], j, k);
    }
  }

  /** Bitwise or. */
  function Or(a: nat, b: nat): nat
    decreases a, b
  {
    if a == 0 && b == 0 then 0 else 2 * Or(a / 2, b / 2) + (if a % 2 == 1 || b % 2 == 1 then 1 else 0)
  }

  lemma {:induction false} OrZero(a: nat)
    ensures Or(a, 0) == a
  {
    if a > 0 {
      OrZero(a / 2);
    }
  }

  /** Setting a clear bit whose lower bits are clear. */
  lemma {:induction false} OrSetsBit(h: nat, bit: nat, k: nat)
    requires bit < 2
    ensures Or(ShiftLeft(2 * h, k), ShiftLeft(bit, k)) == ShiftLeft(2 * h + bit, k)
  {
    if k == 0 {
      OrLowBit(h, bit);
    } else {
      OrSetsBit(h, bit, k - 1);
      OrEven(ShiftLeft(2 * h, k - 1), ShiftLeft(bit, k - 1));
    }
  }

  lemma OrLowBit(h: nat, bit: nat)
    requires bit < 2
    ensures Or(2 * h, bit) == 2 * h + bit
  {
    OrZero(h);
    assert 2 * h / 2 == h && bit / 2 == 0;
  }

  lemma OrEven(a: nat, b: nat)
    ensures Or(2 * a, 2 * b) == 2 * Or(a, b)
  {
    assert 2 * a / 2 == a && 2 * b / 2 == b;
  }

  /** Byte j once the first `i` bits have been packed: its bits so far, in their final places. */
  ghost function Packed(bits: seq<bool>, i: nat, j: nat): nat
    requires i <= |bits|
  {
    if i <= 8 * j then 0
    else if i >= 8 * j + 8 then FromBits(bits[8 * j..8 * j + 8])
    else ShiftLeft(FromBits(bits[8 * j..i]), 8 * j + 8 - i)
  }

  /** Packing bit `i` changes byte i / 8 by an or, and no other byte. */
  lemma PackStep(bits: seq<bool>, i: nat, j: nat)
    requires i < |bits|
    ensures Packed(bits, i + 1, j) ==
            if 8 * j <= i < 8 * j + 8 then Or(Packed(bits, i, j), ShiftLeft(if bits[i] then 1 else 0, 8 * j + 7 - i))
            else Packed(bits, i, j)
  {
    hide Or;
    if 8 * j <= i < 8 * j + 8 {
      var done, all, k := bits[8 * j..i], bits[8 * j..i + 1], 8 * j + 7 - i;
      var bit := if bits[i] then 1 else 0;
      assert all == done + [bits[i]] && all[..|done|] == done;
      assert Packed(bits, i, j) == ShiftLeft(FromBits(done), k + 1) by {
        if |done| == 0 {
          ShiftLeftZero(k + 1);
        }
      }
      OrSetsBit(FromBits(done), bit, k);
      ShiftLeftDouble(FromBits(done), k);
    }
  }

  lemma {:induction false} ShiftLeftZero(n: nat)
    ensures ShiftLeft(0, n) == 0
  {
    if n > 0 {
      ShiftLeftZero(n - 1);
    }
  }

  lemma {:induction false} ShiftLeftDouble(x: nat, n: nat)
    ensures ShiftLeft(x, n + 1) == ShiftLeft(2 * x, n)
  {
    if n > 0 {
      ShiftLeftDouble(x, n - 1);
    }
  }

  lemma {:induction false} ShiftLeftBound(x: nat, m: nat, n: nat)
    requires x < Pow2(m)
    ensures ShiftLeft(x, n) < Pow2(m + n)
  {
    if n > 0 {
      ShiftLeftBound(x, m, n - 1);
    }
  }

  lemma PackedBound(bits: seq<bool>, i: nat, j: nat)
    requires i <= |bits|
    ensures Packed(bits, i, j) < 256
  {
    assert Pow2(8) == 256;
    if i >= 8 * j + 8 {
      FromBitsBound(bits[8 * j..8 * j + 8]);
    } else if i > 8 * j {
      FromBitsBound(bits[8 * j..i]);
      ShiftLeftBound(FromBits(bits[8 * j..i]), i - 8 * j, 8 * j + 8 - i);
    }
  }

  /** A byte string read bit by bit is the bits it was packed from. */
  lemma PackedRoundTrip(bits: seq<bool>, bytes: seq<Byte>)
    requires |bits| == 8 * |bytes|
    requires forall j | 0 <= j < |bytes| :: bytes[j] == FromBits(bits[8 * j..8 * j + 8])
    ensures BytesToBits(bytes) == bits
  {
    hide FromBits, ToBits, BytesToBits;
    forall i | 0 <= i < |bits|
      ensures BytesToBits(bytes)[i] == bits[i]
    {
      var j, k := i / 8, i % 8;
      BytesToBitsAt(bytes, j, k);
      ToFromBits(bits[8 * j..8 * j + 8]);
    }
  }

  /** Packs bits into bytes in big endian. */
  method PackBits(bits: seq<bool>) returns (bytes: seq<Byte>)
    requires |bits| % 8 == 0
    ensures |bytes| == |bits| / 8
    ensures BytesToBits(bytes) == bits
  {
    hide Or, ShiftLeft, Packed, BytesToBits;
    var codewords := new Byte[|bits| / 8](_ => 0);
    NothingPacked(bits);
    for i := 0 to |bits|
      invariant forall j | 0 <= j < codewords.Length :: codewords[j] == Packed(bits, i, j)
    {
      forall j | 0 <= j < codewords.Length
        ensures Packed(bits, i + 1, j) < 256
        ensures j != i / 8 ==> Packed(bits, i + 1, j) == codewords[j]
      {
        PackStep(bits, i, j);
        PackedBound(bits, i + 1, j);
      }
      PackStep(bits, i, i / 8);
      codewords[i / 8] := Or(codewords[i / 8], ShiftLeft(if bits[i] then 1 else 0, 7 - i % 8));
    }
    bytes := codewords[..];
    AllPacked(bits, bytes);
    PackedRoundTrip(bits, bytes);
  }

  lemma NothingPacked(bits: seq<bool>)
    ensures forall j: nat :: Packed(bits, 0, j) == 0
  {}

  lemma AllPacked(bits: seq<bool>, bytes: seq<Byte>)
    requires |bits| == 8 * |bytes|
    requires forall j | 0 <= j < |bytes| :: bytes[j] == Packed(bits, |bits|, j)
    ensures forall j | 0 <= j < |bytes| :: bytes[j] == FromBits(bits[8 * j..8 * j + 8])
  {}
}
