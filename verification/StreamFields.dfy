/** The fields of the data stream as numbers: what a symbol of a given text has to contain, bit by bit. */
module StreamFields {
  import opened BinaryNumbers
  import opened BitStrings
  import opened BytePacking
  import opened DataCodewords
  import opened DigitGroups
  import opened GaloisField
  import opened Segments

  // Characters

  const DIGITS := "0123456789"
  const LETTERS := "ABCDEFGHIJKLMNOPQRSTUVWXYZ"
  const SIGNS := " $%*+-./:"
  const CHARSET := DIGITS + LETTERS + SIGNS

  lemma DigitsInOrder(i: nat)
    requires i < 10
    ensures DIGITS[i] as int == CharsetChar(i)
  {}

  lemma LettersInOrder(i: nat)
    requires i < 26
    ensures LETTERS[i] as int == CharsetChar(10 + i)
  {}

  lemma SignsInOrder(i: nat)
    requires i < 9
    ensures SIGNS[i] as int == CharsetChar(36 + i)
  {}

  /** The number of a character is its place in the alphabet, and no other character has one. */
  lemma CharsetIs(c: CChar, i: nat)
    requires i < 45
    ensures |CHARSET| == 45 && (CharsetIndex(c) == i <==> c == CHARSET[i] as int)
  {
    if i < 10 {
      DigitsInOrder(i);
    } else if i < 36 {
      LettersInOrder(i - 10);
    } else {
      SignsInOrder(i - 36);
    }
    if CharsetIndex(c) != -1 {
      CharsetInverse(c);
    }
  }

  // Headers

  lemma ModeIndicators()
    ensures ToBits(Numeric.ModeBits(), 4) == [false, false, false, true]
    ensures ToBits(Alphanumeric.ModeBits(), 4) == [false, false, true, false]
    ensures ToBits(Mode.Byte.ModeBits(), 4) == [false, true, false, false]
    ensures ToBits(Kanji.ModeBits(), 4) == [true, false, false, false]
    ensures ToBits(Eci.ModeBits(), 4) == [false, true, true, true]
  {
    NibbleBits(1);
    NibbleBits(2);
    NibbleBits(4);
    NibbleBits(8);
    NibbleBits(7);
  }

  lemma NibbleBits(v: nat)
    ensures ToBits(v, 4) == [v / 8 % 2 == 1, v / 4 % 2 == 1, v / 2 % 2 == 1, v % 2 == 1]
  {
    assert v / 2 / 2 == v / 4 && v / 4 / 2 == v / 8;
    assert ToBits(v / 8, 1) == [v / 8 % 2 == 1];
    assert ToBits(v / 4, 2) == ToBits(v / 8, 1) + [v / 4 % 2 == 1];
    assert ToBits(v / 2, 3) == ToBits(v / 4, 2) + [v / 2 % 2 == 1];
  }

  // Payloads

  lemma ValueOfOne(a: nat, base: nat)
    ensures Value([a], base) == a
  {
    assert [a][..0] == [];
  }

  lemma ValueOfTwo(a: nat, b: nat, base: nat)
    ensures Value([a, b], base) == base * a + b
  {
    assert [a, b][..1] == [a];
    ValueOfOne(a, base);
  }

  lemma ValueOfThree(a: nat, b: nat, c: nat)
    ensures Value([a, b, c], 10) == 100 * a + 10 * b + c
  {
    assert [a, b, c][..2] == [a, b];
    ValueOfTwo(a, b, 10);
  }

  /** Digits go in threes into ten bits; two left over take seven bits and one takes four. */
  lemma NumericFields(a: nat, b: nat, c: nat, rest: Digits)
    ensures Encode([a, b, c] + rest, NUMERIC) == ToBits(100 * a + 10 * b + c, 10) + Encode(rest, NUMERIC)
    ensures Encode([a, b], NUMERIC) == ToBits(10 * a + b, 7)
    ensures Encode([a], NUMERIC) == ToBits(a, 4)
  {
    hide ToBits, Value;
    var all := [a, b, c] + rest;
    assert all[..3] == [a, b, c] && all[3..] == rest;
    ValueOfThree(a, b, c);
    assert [a, b][..2] == [a, b] && [a, b][2..] == [];
    ValueOfTwo(a, b, 10);
    assert [a][..1] == [a] && [a][1..] == [];
    ValueOfOne(a, 10);
  }

  /** Alphanumeric characters go in pairs into eleven bits; one left over takes six. */
  lemma AlphanumericFields(a: nat, b: nat, rest: Digits)
    ensures Encode([a, b] + rest, ALPHANUMERIC) == ToBits(45 * a + b, 11) + Encode(rest, ALPHANUMERIC)
    ensures Encode([a], ALPHANUMERIC) == ToBits(a, 6)
  {
    hide ToBits, Value;
    var all := [a, b] + rest;
    assert all[..2] == [a, b] && all[2..] == rest;
    ValueOfTwo(a, b, 45);
    assert [a][..1] == [a] && [a][1..] == [];
    ValueOfOne(a, 45);
  }

  // Padding

  /** The zero bits reach to the byte that ends the terminator, or to the end. */
  lemma FillReaches(n: nat, capacity: nat)
    requires n <= capacity && capacity % 8 == 0
    ensures n + FillLength(n, capacity) == if capacity < 8 * ((n + 11) / 8) then capacity else 8 * ((n + 11) / 8)
  {}

  lemma {:induction false} PadBitsAt(n: nat, j: nat, k: nat)
    requires j < n && k < 8
    ensures PadBits(n)[8 * j + k] == ToBits(if j % 2 == 0 then 0xEC else 0x11, 8)[k]
  {
    hide ToBits;
    if j < n - 1 {
      PadBitsAt(n - 1, j, k);
    }
  }

  lemma SameByte(a: nat, b: nat)
    requires a < 256 && b < 256 && forall k | 0 <= k < 8 :: ToBits(a, 8)[k] == ToBits(b, 8)[k]
    ensures a == b
  {
    hide ToBits;
    EightBits();
    FromToBits(a, 8);
    FromToBits(b, 8);
    assert ToBits(a, 8) == ToBits(b, 8);
  }

  lemma PaddedAt(bits: seq<bool>, capacity: nat, i: nat, k: nat)
    requires |bits| <= capacity && capacity % 8 == 0 && k < 8 && 8 * ((|bits| + 11) / 8 + i) + 8 <= capacity
    ensures Padded(bits, capacity)[8 * ((|bits| + 11) / 8 + i) + k] == ToBits(if i % 2 == 0 then 0xEC else 0x11, 8)[k]
  {
    hide ToBits, PadBits, FillLength, PadCount;
    FillReaches(|bits|, capacity);
    PadBitsAt(PadCount(|bits|, capacity), i, k);
  }

  /** After the zero bits the codewords are 0xEC and 0x11 in turn, to the end. */
  lemma PaddingCodewords(bits: seq<bool>, bytes: seq<Byte>, i: nat)
    requires |bits| <= 8 * |bytes| && BytesToBits(bytes) == Padded(bits, 8 * |bytes|)
    requires (|bits| + 11) / 8 + i < |bytes|
    ensures bytes[(|bits| + 11) / 8 + i] == if i % 2 == 0 then 0xEC else 0x11
  {
    hide ToBits, Padded, BytesToBits;
    var at, pad := (|bits| + 11) / 8 + i, if i % 2 == 0 then 0xEC else 0x11;
    forall k | 0 <= k < 8
      ensures ToBits(bytes[at], 8)[k] == ToBits(pad, 8)[k]
    {
      BytesToBitsAt(bytes, at, k);
      PaddedAt(bits, 8 * |bytes|, i, k);
    }
    SameByte(bytes[at], pad);
  }
}
