/**
 Segments: a text encoded in one of the modes. The factories reject exactly the texts outside their
 mode's alphabet, every accumulated group fits its field, and every segment made from a text decodes
 back to it.
 */
module Segments {
  import opened BinaryNumbers
  import opened BitStrings
  import opened DigitGroups
  import opened Outcomes

  const INT_MAX := 0x7FFF_FFFF

  /** A char of a C string before its terminating zero, as an unsigned byte. */
  type CChar = c: int | 1 <= c < 256 witness 1

  type Uint8 = b: int | 0 <= b < 256

  datatype Mode = Numeric | Alphanumeric | Byte | Kanji | Eci {

    function ModeBits(): nat {
      match this
      case Numeric => 1
      case Alphanumeric => 2
      case Byte => 4
      case Kanji => 8
      case Eci => 7
    }

    /** The width of the character count field at version `ver`. */
    function CharCountBits(ver: int): nat
      requires 1 <= ver <= 40
    {
      var i := (ver + 7) / 17;
      match this
      case Numeric => if i == 0 then 10 else if i == 1 then 12 else 14
      case Alphanumeric => if i == 0 then 9 else if i == 1 then 11 else 13
      case Byte => if i == 0 then 8 else 16
      case Kanji => if i == 0 then 8 else if i == 1 then 10 else 12
      case Eci => 0
    }
  }

  /** The count fields by ranges of versions. */
  lemma CountFieldWidths(ver: int)
    requires 1 <= ver <= 40
    ensures Numeric.CharCountBits(ver) == if ver <= 9 then 10 else if ver <= 26 then 12 else 14
    ensures Alphanumeric.CharCountBits(ver) == if ver <= 9 then 9 else if ver <= 26 then 11 else 13
    ensures Mode.Byte.CharCountBits(ver) == if ver <= 9 then 8 else 16
    ensures Kanji.CharCountBits(ver) == if ver <= 9 then 8 else if ver <= 26 then 10 else 12
    ensures Eci.CharCountBits(ver) == 0
  {}

  datatype Segment = Segment(mode: Mode, numChars: nat, data: seq<bool>)

  // The alphabets and field widths of the three text modes

  const NUMERIC := Grouping(10, [4, 7, 10])
  const ALPHANUMERIC := Grouping(45, [6, 11])
  const BYTES := Grouping(256, [8])

  lemma GroupingsValid()
    ensures NUMERIC.Valid() && ALPHANUMERIC.Valid() && BYTES.Valid()
  {
    assert Pow2(4) == 16 && Pow2(7) == 128;
    assert Pow2(10) == 8 * Pow2(7);
    assert Pow2(6) == 64 && Pow2(8) == 256 && Pow2(11) == 8 * Pow2(8);
    assert Power(10, 1) == 10 && Power(10, 2) == 100 && Power(10, 3) == 1000;
    assert Power(45, 1) == 45 && Power(45, 2) == 2025;
    assert Power(256, 1) == 256;
  }

  predicate IsDigit(c: CChar) {
    '0' as int <= c <= '9' as int
  }

  /** The position of `c` in "0123456789ABCDEFGHIJKLMNOPQRSTUVWXYZ $%*+-./:", or -1. */
  function CharsetIndex(c: CChar): (i: int)
    ensures -1 <= i < 45
  {
    if IsDigit(c) then c - '0' as int
    else if 'A' as int <= c <= 'Z' as int then c - 'A' as int + 10
    else if c == ' ' as int then 36
    else if c == '$' as int then 37
    else if c == '%' as int then 38
    else if c == '*' as int then 39
    else if c == '+' as int then 40
    else if c == '-' as int then 41
    else if c == '.' as int then 42
    else if c == '/' as int then 43
    else if c == ':' as int then 44
    else -1
  }

  /** The character at position `i` of the same alphabet. */
  function CharsetChar(i: nat): CChar
    requires i < 45
  {
    if i < 10 then '0' as int + i
    else if i < 36 then 'A' as int + (i - 10)
    else if i == 36 then ' ' as int
    else if i == 37 then '$' as int
    else if i == 38 then '%' as int
    else if i == 39 then '*' as int
    else if i == 40 then '+' as int
    else if i == 41 then '-' as int
    else if i == 42 then '.' as int
    else if i == 43 then '/' as int
    else ':' as int
  }

  lemma CharsetInverse(c: CChar)
    requires CharsetIndex(c) != -1
    ensures CharsetChar(CharsetIndex(c)) == c
  {}

  ghost predicate AllNumeric(text: seq<CChar>) {
    forall i | 0 <= i < |text| :: IsDigit(text[i])
  }

  ghost predicate AllAlphanumeric(text: seq<CChar>) {
    forall i | 0 <= i < |text| :: CharsetIndex(text[i]) != -1
  }

  ghost function NumericDigits(text: seq<CChar>): (ds: Digits)
    requires AllNumeric(text)
    ensures |ds| == |text| && Below(ds, 10)
  {
    seq(|text|, i requires 0 <= i < |text| => text[i] - '0' as int)
  }

  ghost function AlphanumericDigits(text: seq<CChar>): (ds: Digits)
    requires AllAlphanumeric(text)
    ensures |ds| == |text| && Below(ds, 45)
  {
    seq(|text|, i requires 0 <= i < |text| => CharsetIndex(text[i]))
  }

  ghost function ByteDigits(bytes: seq<Uint8>): (ds: Digits)
    ensures |ds| == |bytes| && Below(ds, 256)
  {
    seq(|bytes|, i requires 0 <= i < |bytes| => bytes[i])
  }

  // The segments that encode a text

  ghost function NumericSegment(text: seq<CChar>): Segment
    requires AllNumeric(text)
  {
    Segment(Numeric, |text|, Encode(NumericDigits(text), NUMERIC))
  }

  ghost function AlphanumericSegment(text: seq<CChar>): Segment
    requires AllAlphanumeric(text)
  {
    Segment(Alphanumeric, |text|, Encode(AlphanumericDigits(text), ALPHANUMERIC))
  }

  ghost function ByteSegment(bytes: seq<Uint8>): Segment {
    Segment(Byte, |bytes|, Encode(ByteDigits(bytes), BYTES))
  }

  /** The state of a factory's loop: whole groups of `ds` are in `bits`, the rest in the accumulator. */
  ghost predicate Accumulated(ds: Digits, g: Grouping, bits: seq<bool>, accumData: int, accumCount: int)
    requires g.Size() >= 1
  {
    var done := |ds| - accumCount;
    && 0 <= accumCount < g.Size()
    && done >= 0 && FullGroups(done, g)
    && bits == Encode(ds[..done], g)
    && accumData == Value(ds[done..], g.base)
  }

  lemma NothingAccumulated(g: Grouping)
    requires g.Size() >= 1
    ensures Accumulated([], g, [], 0, 0)
  {}

  lemma ValueSnoc(ds: Digits, d: nat, base: nat)
    ensures Value(ds + [d], base) == base * Value(ds, base) + d
  {
    assert (ds + [d])[..|ds|] == ds;
  }

  /** One more digit: the accumulator takes it, and its full group fits the field. */
  lemma AccumulateDigit(ds: Digits, g: Grouping, bits: seq<bool>, accumData: int, accumCount: int, d: nat)
    requires g.Valid() && Below(ds, g.base) && d < g.base
    requires Accumulated(ds, g, bits, accumData, accumCount)
    ensures var v := accumData * g.base + d;
            if accumCount + 1 < g.Size() then Accumulated(ds + [d], g, bits, v, accumCount + 1)
            else var w := g.widths[accumCount];
                 0 <= v < Pow2(w) && Accumulated(ds + [d], g, bits + ToBits(v, w), 0, 0)
  {
    hide Encode, Value, Pow2, ToBits;
    var done := |ds| - accumCount;
    var before, group := ds[..done], ds[done..];
    var es := ds + [d];
    ValueSnoc(group, d, g.base);
    assert g.base * accumData == accumData * g.base;
    assert es[done..] == group + [d] && es[..done] == before;
    if accumCount + 1 == g.Size() {
      AppendGroup(before, group + [d], g);
      assert es == before + (group + [d]);
      assert es[..|es|] == es && es[|es|..] == [];
      EncodeNothing(g);
    }
  }

  /** Appending a group to earlier full groups. */
  lemma AppendGroup(before: Digits, group: Digits, g: Grouping)
    requires g.Valid() && Below(group, g.base) && 1 <= |group| <= g.Size() && FullGroups(|before|, g)
    ensures var v, w := Value(group, g.base), g.widths[|group| - 1];
            v < Pow2(w) && Encode(before + group, g) == Encode(before, g) + ToBits(v, w)
  {
    hide Encode, Value, Pow2, ToBits;
    GroupFits(group, g);
    EncodeAppend(before, group, g);
    EncodeGroup(group, g);
  }

  /** The end of the text: what is left in the accumulator fits the field for its number of digits. */
  lemma AccumulateRest(ds: Digits, g: Grouping, bits: seq<bool>, accumData: int, accumCount: int)
    requires g.Valid() && Below(ds, g.base)
    requires Accumulated(ds, g, bits, accumData, accumCount)
    ensures if accumCount == 0 then Encode(ds, g) == bits
            else var w := g.widths[accumCount - 1];
                 0 <= accumData < Pow2(w) && Encode(ds, g) == bits + ToBits(accumData, w)
  {
    hide Encode, Value, Pow2, ToBits;
    var done := |ds| - accumCount;
    if accumCount == 0 {
      assert ds[..|ds|] == ds;
    } else {
      AppendGroup(ds[..done], ds[done..], g);
      assert ds == ds[..done] + ds[done..];
    }
  }

  lemma EncodeNothing(g: Grouping)
    requires g.Size() >= 1
    ensures Encode([], g) == [] && FullGroups(0, g) && Value([], g.base) == 0
  {}

  lemma SmallFields(w: nat)
    requires w <= 11
    ensures Pow2(w) <= 2048
  {
    assert Pow2(11) == 2048 by { assert Pow2(6) == 64 && Pow2(11) == 32 * Pow2(6); }
    Pow2Monotone(w, 11);
  }

  /** `makeBytes` */
  method MakeBytes(data: seq<Uint8>) returns (r: Result<Segment>)
    ensures r.Success? <==> |data| <= INT_MAX
    ensures r.Success? ==> r.value == ByteSegment(data)
  {
    hide Accumulated, Encode, Pow2, ToBits;
    if |data| > INT_MAX {
      return Failure(DataTooLong);
    }
    GroupingsValid();
    NothingAccumulated(BYTES);
    ghost var ds := ByteDigits(data);
    var bb := new BitBuffer();
    for i := 0 to |data|
      invariant Accumulated(ds[..i], BYTES, bb.bits, 0, 0)
    {
      AccumulateDigit(ds[..i], BYTES, bb.bits, 0, 0, data[i]);
      assert ds[..i] + [ds[i]] == ds[..i + 1];
      var ok := bb.AppendBits(data[i], 8);
      assert ok;
    }
    assert ds[..|data|] == ds;
    AccumulateRest(ds, BYTES, bb.bits, 0, 0);
    r := Success(Segment(Byte, |data|, bb.bits));
  }

  /** `makeNumeric` */
  method MakeNumeric(text: seq<CChar>) returns (r: Result<Segment>)
    ensures r.Success? <==> AllNumeric(text)
    ensures r.Success? ==> r.value == NumericSegment(text)
  {
    hide Accumulated, Encode, Pow2, ToBits;
    GroupingsValid();
    NothingAccumulated(NUMERIC);
    var bb := new BitBuffer();
    var accumData, accumCount, charCount := 0, 0, 0;
    ghost var ds: Digits := [];
    while charCount < |text|
      invariant 0 <= charCount <= |text| && AllNumeric(text[..charCount])
      invariant ds == NumericDigits(text[..charCount])
      invariant 0 <= accumCount < 3
      invariant Accumulated(ds, NUMERIC, bb.bits, accumData, accumCount)
    {
      var c := text[charCount];
      if !IsDigit(c) {
        return Failure(NotNumeric);
      }
      AccumulateDigit(ds, NUMERIC, bb.bits, accumData, accumCount, c - '0' as int);
      assert text[..charCount + 1] == text[..charCount] + [c];
      ds := ds + [c - '0' as int];
      accumData := accumData * 10 + (c - '0' as int);
      accumCount := accumCount + 1;
      charCount := charCount + 1;
      assert ds == NumericDigits(text[..charCount]);
      if accumCount == 3 {
        SmallFields(10);
        var ok := bb.AppendBits(accumData, 10);
        assert ok;
        accumData := 0;
        accumCount := 0;
      }
    }
    assert text[..|text|] == text;
    AccumulateRest(ds, NUMERIC, bb.bits, accumData, accumCount);
    if accumCount > 0 {
      SmallFields(accumCount * 3 + 1);
      var ok := bb.AppendBits(accumData, accumCount * 3 + 1);
      assert ok;
    }
    r := Success(Segment(Numeric, charCount, bb.bits));
  }

  /** `makeAlphanumeric` */
  method MakeAlphanumeric(text: seq<CChar>) returns (r: Result<Segment>)
    ensures r.Success? <==> AllAlphanumeric(text)
    ensures r.Success? ==> r.value == AlphanumericSegment(text)
  {
    hide Accumulated, Encode, Pow2, ToBits, CharsetIndex;
    GroupingsValid();
    NothingAccumulated(ALPHANUMERIC);
    var bb := new BitBuffer();
    var accumData, accumCount, charCount := 0, 0, 0;
    ghost var ds: Digits := [];
    while charCount < |text|
      invariant 0 <= charCount <= |text| && AllAlphanumeric(text[..charCount])
      invariant ds == AlphanumericDigits(text[..charCount])
      invariant 0 <= accumCount < 2
      invariant Accumulated(ds, ALPHANUMERIC, bb.bits, accumData, accumCount)
    {
      var index := CharsetIndex(text[charCount]);
      if index == -1 {
        return Failure(NotAlphanumeric);
      }
      AccumulateDigit(ds, ALPHANUMERIC, bb.bits, accumData, accumCount, index);
      assert text[..charCount + 1] == text[..charCount] + [text[charCount]];
      ds := ds + [index];
      accumData := accumData * 45 + index;
      accumCount := accumCount + 1;
      charCount := charCount + 1;
      assert ds == AlphanumericDigits(text[..charCount]);
      if accumCount == 2 {
        SmallFields(11);
        var ok := bb.AppendBits(accumData, 11);
        assert ok;
        accumData := 0;
        accumCount := 0;
      }
    }
    assert text[..|text|] == text;
    AccumulateRest(ds, ALPHANUMERIC, bb.bits, accumData, accumCount);
    if accumCount > 0 {
      SmallFields(6);
      var ok := bb.AppendBits(accumData, 6);
      assert ok;
    }
    r := Success(Segment(Alphanumeric, charCount, bb.bits));
  }

  /** `isNumeric` */
  method IsNumeric(text: seq<CChar>) returns (b: bool)
    ensures b <==> AllNumeric(text)
  {
    for i := 0 to |text|
      invariant AllNumeric(text[..i])
    {
      if !IsDigit(text[i]) {
        return false;
      }
    }
    assert text[..|text|] == text;
    return true;
  }

  /** `isAlphanumeric` */
  method IsAlphanumeric(text: seq<CChar>) returns (b: bool)
    ensures b <==> AllAlphanumeric(text)
  {
    hide CharsetIndex;
    for i := 0 to |text|
      invariant AllAlphanumeric(text[..i])
    {
      if CharsetIndex(text[i]) == -1 {
        return false;
      }
    }
    assert text[..|text|] == text;
    return true;
  }

  // Reading a text back

  /** The grouping of a text mode. */
  function GroupingOf(mode: Mode): Grouping {
    match mode
    case Numeric => NUMERIC
    case Alphanumeric => ALPHANUMERIC
    case _ => BYTES
  }

  predicate IsTextMode(mode: Mode) {
    mode.Numeric? || mode.Alphanumeric? || mode.Byte?
  }

  /** A text segment whose payload has the length its mode and count call for. */
  predicate IsTextSegment(seg: Segment) {
    IsTextMode(seg.mode) && |seg.data| == BitLength(seg.numChars, GroupingOf(seg.mode))
  }

  function CharOf(mode: Mode, d: nat): Uint8
    requires IsTextMode(mode) && d < GroupingOf(mode).base
  {
    match mode
    case Numeric => '0' as int + d
    case Alphanumeric => CharsetChar(d)
    case Byte => d
  }

  /** The text a segment stands for. */
  function TextOf(seg: Segment): (text: seq<Uint8>)
    requires IsTextSegment(seg)
    ensures |text| == seg.numChars
  {
    var ds := Decode(seg.data, seg.numChars, GroupingOf(seg.mode));
    seq(|ds|, i requires 0 <= i < |ds| => CharOf(seg.mode, ds[i]))
  }

  lemma NumericRoundTrip(text: seq<CChar>)
    requires AllNumeric(text)
    ensures IsTextSegment(NumericSegment(text)) && TextOf(NumericSegment(text)) == text
  {
    hide Encode, Decode, BitLength;
    GroupingsValid();
    DecodeEncode(NumericDigits(text), NUMERIC);
  }

  lemma AlphanumericRoundTrip(text: seq<CChar>)
    requires AllAlphanumeric(text)
    ensures IsTextSegment(AlphanumericSegment(text)) && TextOf(AlphanumericSegment(text)) == text
  {
    hide Encode, Decode, BitLength, CharsetIndex, CharsetChar;
    GroupingsValid();
    DecodeEncode(AlphanumericDigits(text), ALPHANUMERIC);
    forall i | 0 <= i < |text|
      ensures CharsetChar(CharsetIndex(text[i])) == text[i]
    {
      CharsetInverse(text[i]);
    }
  }

  lemma ByteRoundTrip(bytes: seq<Uint8>)
    ensures IsTextSegment(ByteSegment(bytes)) && TextOf(ByteSegment(bytes)) == bytes
  {
    hide Encode, Decode, BitLength;
    GroupingsValid();
    DecodeEncode(ByteDigits(bytes), BYTES);
  }

  // The payload lengths in closed form

  lemma {:induction false} NumericBitLength(n: nat)
    ensures BitLength(n, NUMERIC) == 10 * (n / 3) + (if n % 3 == 0 then 0 else if n % 3 == 1 then 4 else 7)
  {
    if n >= 3 {
      NumericBitLength(n - 3);
    } else {
      assert BitLength(0, NUMERIC) == 0;
    }
  }

  lemma {:induction false} AlphanumericBitLength(n: nat)
    ensures BitLength(n, ALPHANUMERIC) == 11 * (n / 2) + 6 * (n % 2)
  {
    if n >= 2 {
      AlphanumericBitLength(n - 2);
    } else {
      assert BitLength(0, ALPHANUMERIC) == 0;
    }
  }

  lemma {:induction false} ByteBitLength(n: nat)
    ensures BitLength(n, BYTES) == 8 * n
  {
    if n >= 1 {
      ByteBitLength(n - 1);
    }
  }

  // makeSegments

  /** The texts of the segments, one after the other. */
  function TextOfAll(segs: seq<Segment>): seq<Uint8>
    requires forall i | 0 <= i < |segs| :: IsTextSegment(segs[i])
  {
    if |segs| == 0 then [] else TextOf(segs[0]) + TextOfAll(segs[1..])
  }

  /** The mode `makeSegments` picks. */
  ghost function BestMode(text: seq<CChar>): Mode {
    if AllNumeric(text) then Numeric else if AllAlphanumeric(text) then Alphanumeric else Byte
  }

  /** The segments of a text. */
  ghost function SegmentsOf(text: seq<CChar>): seq<Segment> {
    if |text| == 0 then []
    else if AllNumeric(text) then [NumericSegment(text)]
    else if AllAlphanumeric(text) then [AlphanumericSegment(text)]
    else [ByteSegment(text)]
  }

  /** The length of a segment with its header. */
  function FullLength(seg: Segment, ver: int): nat
    requires 1 <= ver <= 40
  {
    4 + seg.mode.CharCountBits(ver) + |seg.data|
  }

  /** In every version no segment that stands for the text is shorter. */
  ghost predicate IsMostCompact(seg: Segment, text: seq<CChar>) {
    forall other: Segment, ver | 1 <= ver <= 40 && IsTextSegment(other) && TextOf(other) == text ::
      FullLength(seg, ver) <= FullLength(other, ver)
  }

  /**
   With their headers too, numeric segments are no longer than alphanumeric ones, and those no longer than
   byte ones.
   */
  lemma ModesInOrder(n: nat, ver: int)
    requires n >= 1 && 1 <= ver <= 40
    ensures Numeric.CharCountBits(ver) + BitLength(n, NUMERIC)
            <= Alphanumeric.CharCountBits(ver) + BitLength(n, ALPHANUMERIC)
    ensures Alphanumeric.CharCountBits(ver) + BitLength(n, ALPHANUMERIC)
            <= Mode.Byte.CharCountBits(ver) + BitLength(n, BYTES)
  {
    hide BitLength;
    NumericBitLength(n);
    AlphanumericBitLength(n);
    ByteBitLength(n);
  }

  /** A segment holds only characters of its mode. */
  lemma TextInMode(seg: Segment, text: seq<CChar>)
    requires IsTextSegment(seg) && TextOf(seg) == text
    ensures seg.mode.Numeric? ==> AllNumeric(text)
    ensures seg.mode.Alphanumeric? ==> AllAlphanumeric(text)
  {
    hide Decode, BitLength;
    var ds := Decode(seg.data, seg.numChars, GroupingOf(seg.mode));
    forall i | 0 <= i < |text|
      ensures text[i] == CharOf(seg.mode, ds[i])
      ensures seg.mode.Alphanumeric? ==> CharsetIndex(text[i]) != -1
    {}
  }

  lemma BestModeIsMostCompact(seg: Segment, text: seq<CChar>)
    requires |text| > 0 && IsTextSegment(seg) && seg.mode == BestMode(text) && seg.numChars == |text|
    ensures IsMostCompact(seg, text)
  {
    hide TextOf, AllNumeric, AllAlphanumeric, BitLength;
    forall other: Segment, ver | 1 <= ver <= 40 && IsTextSegment(other) && TextOf(other) == text
      ensures FullLength(seg, ver) <= FullLength(other, ver)
    {
      TextInMode(other, text);
      ModesInOrder(|text|, ver);
    }
  }

  /** `makeSegments`: the most compact segment for the text, none for the empty text. */
  method MakeSegments(text: seq<CChar>) returns (r: Result<seq<Segment>>)
    ensures r.Success? <==> BestMode(text) != Byte || |text| <= INT_MAX
    ensures r.Success? ==> r.value == SegmentsOf(text)
    ensures r.Success? ==> forall i | 0 <= i < |r.value| :: IsTextSegment(r.value[i])
    ensures r.Success? ==> TextOfAll(r.value) == text
    ensures r.Success? ==> |r.value| == if text == [] then 0 else 1
    ensures r.Success? && text != [] ==> r.value[0].mode == BestMode(text) && r.value[0].numChars == |text|
    ensures r.Success? && text != [] ==> IsMostCompact(r.value[0], text)
    ensures r.Failure? ==> SegmentsOf(text) == [ByteSegment(text)]
  {
    hide TextOf, IsTextSegment, AllAlphanumeric, AllNumeric, Encode, NumericDigits, AlphanumericDigits, ByteDigits,
      IsMostCompact;
    if |text| == 0 {
      assert AllNumeric(text) by { EmptyIsNumeric(text); }
      return Success([]);
    }
    var numeric := IsNumeric(text);
    if numeric {
      NumericRoundTrip(text);
      var seg := MakeNumeric(text);
      TextOfOne(seg.value);
      BestModeIsMostCompact(seg.value, text);
      return Success([seg.value]);
    }
    var alphanumeric := IsAlphanumeric(text);
    if alphanumeric {
      AlphanumericRoundTrip(text);
      var seg := MakeAlphanumeric(text);
      TextOfOne(seg.value);
      BestModeIsMostCompact(seg.value, text);
      return Success([seg.value]);
    }
    var bytes: seq<Uint8> := [];
    for i := 0 to |text|
      invariant bytes == text[..i]
    {
      bytes := bytes + [text[i]];
    }
    assert bytes == text;
    ByteRoundTrip(bytes);
    var seg := MakeBytes(bytes);
    if seg.Failure? {
      return Failure(seg.error);
    }
    TextOfOne(seg.value);
    BestModeIsMostCompact(seg.value, text);
    r := Success([seg.value]);
  }

  lemma EmptyIsNumeric(text: seq<CChar>)
    requires |text| == 0
    ensures AllNumeric(text)
  {}

  lemma TextOfOne(seg: Segment)
    requires IsTextSegment(seg)
    ensures TextOfAll([seg]) == TextOf(seg)
  {
    assert [seg][1..] == [];
  }

  // makeEci

  /** The designator of an assignment value: a prefix 0, 10 or 110 and 7, 14 or 21 bits. */
  function EciBits(assignVal: nat): seq<bool>
    requires assignVal < 1000000
  {
    if assignVal < 128 then ToBits(assignVal, 8)
    else if assignVal < 16384 then ToBits(2, 2) + ToBits(assignVal, 14)
    else ToBits(6, 3) + ToBits(assignVal, 21)
  }

  lemma EciFields()
    ensures Pow2(2) == 4 && Pow2(3) == 8 && Pow2(7) == 128 && Pow2(8) == 256 && Pow2(14) == 16384 && Pow2(21) == 2097152
  {
    assert Pow2(3) == 8 && Pow2(7) == 16 * Pow2(3);
    assert Pow2(14) == 128 * Pow2(7);
    assert Pow2(21) == 128 * Pow2(14);
  }

  /** `makeEci` */
  method MakeEci(assignVal: int) returns (r: Result<Segment>)
    ensures r.Success? <==> 0 <= assignVal < 1000000
    ensures r.Success? ==> r.value == Segment(Eci, 0, EciBits(assignVal))
  {
    hide Pow2, ToBits;
    EciFields();
    var bb := new BitBuffer();
    var ok;
    if assignVal < 0 {
      return Failure(EciOutOfRange);
    } else if assignVal < 128 {
      ok := bb.AppendBits(assignVal, 8);
    } else if assignVal < 16384 {
      ok := bb.AppendBits(2, 2);
      assert ok;
      ok := bb.AppendBits(assignVal, 14);
    } else if assignVal < 1000000 {
      ok := bb.AppendBits(6, 3);
      assert ok;
      ok := bb.AppendBits(assignVal, 21);
    } else {
      return Failure(EciOutOfRange);
    }
    assert ok;
    r := Success(Segment(Eci, 0, bb.bits));
  }
}
