/** Text, bytes or segments in, a finished symbol out; a reader of the symbol gets back what went in. */
module Encoder {
  import opened BinaryNumbers
  import opened BytePacking
  import opened CapacityColumns
  import opened CapacityTables
  import opened DataCodewords
  import DigitGroups
  import opened FinishedSymbol
  import FormatInfo
  import opened GaloisField
  import Grids
  import Interleaving
  import opened Options
  import opened Outcomes
  import opened QrSymbol
  import opened Segments
  import opened SegmentStream
  import opened SymbolReader

  ghost predicate SomeVersionFits(segs: seq<Segment>, ecl: Ecc, minVersion: int, maxVersion: int) {
    exists v: Version | minVersion <= v <= maxVersion :: Fits(segs, v, ecl)
  }

  /** Both copies of the format bits lead a reader to these segments. */
  ghost predicate Reads(qr: QrCode, segs: seq<Segment>)
    reads qr
  {
    && Grids.IsSquare(qr.modules, |qr.modules|)
    && forall second: bool :: Decode(qr.modules, second) == Some(segs)
  }

  /** The choices of version, level and mask, and the contents. */
  ghost predicate IsEncoding(qr: QrCode, segs: seq<Segment>, ecl: Ecc, minVersion: int, maxVersion: int, mask: int,
                             boostEcl: bool, codewords: seq<Byte>)
    reads qr
  {
    && IsSmallestVersion(segs, ecl, minVersion, maxVersion, qr.version)
    && (if boostEcl then IsBestLevel(TotalLength(segs, qr.version), qr.version, ecl, qr.errorCorrectionLevel)
        else qr.errorCorrectionLevel == ecl)
    && 0 <= qr.mask <= 7 && qr.modules == Symbol(qr.version, qr.errorCorrectionLevel, codewords, qr.mask)
    && (if mask == -1 then IsBestMask(qr.version, qr.errorCorrectionLevel, codewords, qr.mask, 8) else qr.mask == mask)
    && ((forall i | 0 <= i < |segs| :: WellFormed(segs[i])) ==> Reads(qr, segs))
  }

  lemma SymbolReads(ver: Version, ecl: Ecc, data: seq<Byte>, codewords: seq<Byte>, msk: FormatInfo.Mask,
                    segs: seq<Segment>, second: bool)
    requires HoldsSegments(Encoded(ver, ecl, data), segs)
    requires forall i | 0 <= i < |segs| :: WellFormed(segs[i])
    requires |codewords| == RawCodewords(ver)
    requires Interleaving.Holds(codewords, Interleaving.LayoutOf(ver, ecl), data)
    ensures Decode(Symbol(ver, ecl, codewords, msk), second) == Some(segs)
  {
    hide Symbol, Decode, HoldsSegments, Parse, BytesToBits, WellFormed, RawCodewords, Interleaving.LayoutOf,
      Interleaving.Holds;
    ReadBack(Encoded(ver, ecl, data), segs);
    DecodeData(ver, ecl, data, codewords, msk, second);
  }

  /** `encodeSegments` */
  method EncodeSegments(segs: seq<Segment>, ecl: Ecc, minVersion: int, maxVersion: int, mask: int, boostEcl: bool)
      returns (r: Result<QrCode>, ghost codewords: seq<Byte>)
    ensures r.Success? <==>
              ValidArguments(minVersion, maxVersion, mask) && SomeVersionFits(segs, ecl, minVersion, maxVersion)
    ensures r.Failure? ==>
            r.error == if ValidArguments(minVersion, maxVersion, mask) then DataTooLong else InvalidArgument
    ensures r.Success? ==>
              fresh(r.value) && IsEncoding(r.value, segs, ecl, minVersion, maxVersion, mask, boostEcl, codewords)
  {
    hide Symbol, Decode, HoldsSegments, WellFormed, RawCodewords, NumDataCodewords, IsBestMask, IsBestLevel,
      TotalLength, CountsFit, CapacityBits, Interleaving.LayoutOf, Interleaving.Holds;
    var encoded := EncodeData(segs, ecl, minVersion, maxVersion, mask, boostEcl);
    if encoded.Failure? {
      return Failure(encoded.error), [];
    }
    var e := encoded.value;
    HeldLength(e, segs);
    r, codewords := QrCode.Create(e.version, e.ecl, e.codewords, mask);
    var qr := r.value;
    if forall i | 0 <= i < |segs| :: WellFormed(segs[i]) {
      forall second: bool
        ensures Decode(qr.modules, second) == Some(segs)
      {
        SymbolReads(e.version, e.ecl, e.codewords, codewords, qr.mask, segs, second);
      }
    }
  }

  lemma HeldLength(e: Encoded, segs: seq<Segment>)
    requires HoldsSegments(e, segs)
    ensures |e.codewords| == NumDataCodewords(e.version, e.ecl) && e == Encoded(e.version, e.ecl, e.codewords)
  {}

  // How much fits

  const MAX_BYTES := 2953

  /** No version and level holds more data codewords than version 40 at the low level. */
  lemma MostCodewords(ver: Version, ecl: Ecc)
    ensures NumDataCodewords(ver, ecl) <= NumDataCodewords(40, Low) == 2956
  {
    hide RawCodewords, BlocksOf, NumDataCodewords;
    ColumnHolds(40);
    LowBounds(ver);
    EveryVersionSound(ver);
  }

  lemma OneSegmentLength(seg: Segment, ver: Version)
    ensures TotalLength([seg], ver) == HeaderLength(seg, ver) + |seg.data|
    ensures CountsFit([seg], ver) <==> CountFits(seg, ver)
  {
    assert [seg][..0] == [];
    assert TotalLength([], ver) == 0;
    if CountsFit([seg], ver) {
      assert CountFits([seg][0], ver);
    }
  }

  lemma CountRanges()
    ensures Pow2(8) == 256 && Pow2(9) == 512 && Pow2(10) == 1024 && Pow2(11) == 2048 && Pow2(12) == 4096
    ensures Pow2(13) == 8192 && Pow2(14) == 16384 && Pow2(16) == 65536
  {
    assert Pow2(8) == 256;
    assert Pow2(12) == 16 * Pow2(8);
    assert Pow2(16) == 16 * Pow2(12);
  }

  /** The count field never limits a text: in every version what fits the capacity can also be counted. */
  lemma CountNeverLimits(seg: Segment, ver: Version)
    requires IsTextSegment(seg) && FullLength(seg, ver) <= CapacityBits(ver, Low)
    ensures CountFits(seg, ver)
  {
    hide NumDataCodewords, Pow2, DigitGroups.BitLength;
    LowBounds(ver);
    CountRanges();
    CountFieldWidths(ver);
    var n := seg.numChars;
    NumericBitLength(n);
    AlphanumericBitLength(n);
    ByteBitLength(n);
  }

  /** A byte segment fits some version at the low level exactly up to 2953 bytes, and no more at any level. */
  lemma BytesFit(seg: Segment, ver: Version, ecl: Ecc)
    requires seg.mode == Mode.Byte && |seg.data| == 8 * seg.numChars
    ensures Fits([seg], ver, ecl) ==> seg.numChars <= MAX_BYTES
    ensures seg.numChars <= MAX_BYTES ==> Fits([seg], 40, Low)
  {
    hide NumDataCodewords, TotalLength, CountsFit, Pow2;
    OneSegmentLength(seg, ver);
    OneSegmentLength(seg, 40);
    MostCodewords(ver, ecl);
    CountRanges();
  }

  /** A text of up to 2953 bytes fits version 40 at the low level, whatever its mode. */
  lemma TextFits(seg: Segment)
    requires IsTextSegment(seg) && seg.numChars <= MAX_BYTES
    ensures Fits([seg], 40, Low)
  {
    hide NumDataCodewords, TotalLength, CountsFit, Pow2, DigitGroups.BitLength;
    OneSegmentLength(seg, 40);
    MostCodewords(40, Low);
    CountRanges();
    var n := seg.numChars;
    NumericBitLength(n);
    AlphanumericBitLength(n);
    ByteBitLength(n);
  }

  lemma NothingFits(ver: Version, ecl: Ecc)
    ensures Fits([], ver, ecl)
  {
    CapacityRange(ver, ecl);
  }

  lemma ByteSegmentFits(data: seq<Uint8>, ecl: Ecc)
    ensures SomeVersionFits([ByteSegment(data)], ecl, 1, 40) ==> |data| <= MAX_BYTES
    ensures |data| <= MAX_BYTES ==> Fits([ByteSegment(data)], 40, Low)
    ensures IsTextSegment(ByteSegment(data)) && TextOf(ByteSegment(data)) == data
  {
    hide TextOf, Fits, DigitGroups.Encode, DigitGroups.BitLength;
    var seg := ByteSegment(data);
    ByteRoundTrip(data);
    ByteBitLength(|data|);
    forall v: Version {
      BytesFit(seg, v, ecl);
    }
    BytesFit(seg, 40, Low);
  }

  /**
   `encodeText`: the symbol of the most compact segment of the text, in the smallest version, at the best level and
   with the best mask; a reader gets the text. It succeeds exactly if some version fits, which at the low level is so
   for every text of up to 2953 bytes.
   */
  method EncodeText(text: seq<CChar>, ecl: Ecc) returns (r: Result<QrCode>, ghost codewords: seq<Byte>)
    ensures r.Success? <==> SomeVersionFits(SegmentsOf(text), ecl, 1, 40)
    ensures r.Failure? ==> r.error == DataTooLong
    ensures ecl == Low && |text| <= MAX_BYTES ==> r.Success?
    ensures r.Success? ==> fresh(r.value) && IsEncoding(r.value, SegmentsOf(text), ecl, 1, 40, -1, true, codewords)
    ensures r.Success? ==>
              && Reads(r.value, SegmentsOf(text))
              && (forall i | 0 <= i < |SegmentsOf(text)| :: IsTextSegment(SegmentsOf(text)[i]))
              && TextOfAll(SegmentsOf(text)) == text
  {
    hide Decode, TextOfAll, IsTextSegment, WellFormed, IsBestMask, IsBestLevel, IsSmallestVersion, Symbol, Fits,
      SegmentsOf, IsMostCompact, ByteSegment;
    var made := MakeSegments(text);
    if made.Failure? {
      ByteSegmentFits(text, ecl);
      return Failure(DataTooLong), [];
    }
    var segs := made.value;
    forall i | 0 <= i < |segs|
      ensures WellFormed(segs[i])
    {
      TextSegmentWellFormed(segs[i]);
    }
    if |text| <= MAX_BYTES {
      if text == [] {
        NothingFits(40, Low);
        assert segs == [];
      } else {
        TextFits(segs[0]);
        assert segs == [segs[0]];
      }
    }
    r, codewords := EncodeSegments(segs, ecl, 1, 40, -1, true);
  }

  /**
   `encodeBinary`: the symbol of the byte segment, in the smallest version, at the best level and with the best mask; a
   reader gets the bytes. It succeeds exactly if some version fits: at the low level for up to 2953 bytes, never
   for more.
   */
  method EncodeBinary(data: seq<Uint8>, ecl: Ecc) returns (r: Result<QrCode>, ghost codewords: seq<Byte>)
    ensures r.Success? <==> SomeVersionFits([ByteSegment(data)], ecl, 1, 40)
    ensures r.Failure? ==> r.error == DataTooLong
    ensures r.Success? ==> |data| <= MAX_BYTES
    ensures ecl == Low && |data| <= MAX_BYTES ==> r.Success?
    ensures r.Success? ==> fresh(r.value) && IsEncoding(r.value, [ByteSegment(data)], ecl, 1, 40, -1, true, codewords)
    ensures r.Success? ==>
              && Reads(r.value, [ByteSegment(data)])
              && IsTextSegment(ByteSegment(data)) && TextOf(ByteSegment(data)) == data
  {
    hide Decode, TextOf, IsTextSegment, WellFormed, IsBestMask, IsBestLevel, IsSmallestVersion, Symbol, Fits,
      ByteSegment;
    ByteSegmentFits(data, ecl);
    var made := MakeBytes(data);
    if made.Failure? {
      return Failure(DataTooLong), [];
    }
    TextSegmentWellFormed(made.value);
    r, codewords := EncodeSegments([made.value], ecl, 1, 40, -1, true);
  }
}
