/**
 A reader of finished symbols that is given nothing but the modules. It finds the version in the size,
 the level and the mask in the format bits, takes off the mask, follows the scan and undoes the interleaving.
 */
module SymbolReader {
  import opened BinaryNumbers
  import opened BitStrings
  import opened BytePacking
  import opened CapacityTables
  import opened CodewordArea
  import opened FinishedSymbol
  import opened FormatInfo
  import opened GaloisField
  import opened Grids
  import Interleaving
  import opened Masking
  import MinimumDistance
  import opened Options
  import opened PatternColors
  import opened SegmentStream
  import opened Segments
  import opened SymbolGeometry
  import opened Zigzag

  // Format bits

  /** The cell of format bit i in the first copy. */
  function FirstCopyCell(i: nat): Cell
    requires i < 15
  {
    if i <= 5 then Cell(8, i) else if i <= 7 then Cell(8, i + 1) else if i == 8 then Cell(7, 8) else Cell(14 - i, 8)
  }

  /** The cell of format bit i in the second copy. */
  function SecondCopyCell(ver: Version, i: nat): Cell
    requires i < 15
  {
    if i < 8 then Cell(SizeOf(ver) - 1 - i, 8) else Cell(8, SizeOf(ver) - 15 + i)
  }

  /** The cells of one copy of the format bits, highest bit first. */
  function FormatCells(ver: Version, second: bool): (cells: seq<Cell>)
    ensures |cells| == 15 && AllInGrid(cells, SizeOf(ver))
  {
    seq(15, k requires 0 <= k < 15 => if second then SecondCopyCell(ver, 14 - k) else FirstCopyCell(14 - k))
  }

  function LevelOf(bits: nat): Ecc {
    if bits == 0 then Medium else if bits == 1 then Low else if bits == 2 then High else Quartile
  }

  function FormatData(word: nat): nat {
    Xor(word, 0x5412) / 1024
  }

  function WordLevel(word: nat): Ecc {
    LevelOf(FormatData(word) / 8)
  }

  function WordMask(word: nat): Mask {
    FormatData(word) % 8
  }

  lemma FormatDataIs(ecl: Ecc, msk: Mask)
    ensures FormatData(FormatBits(ecl, msk)) == LevelBits(ecl) * 8 + msk
  {
    hide Xor, Bch, LevelBits;
    Sizes();
    var data := LevelBits(ecl) * 8 + msk;
    var rem := Bch(data, 9, 0x537, 10);
    BchFits(data, 9, 0x537, 10);
    var plain := data * 1024 + rem;
    XorAssociates(plain, 0x5412, 0x5412);
    XorCancels(0x5412, 0x5412);
    XorZero(plain);
  }

  /** The format word determines the level and the mask. */
  lemma FormatRoundTrip(ecl: Ecc, msk: Mask)
    ensures WordLevel(FormatBits(ecl, msk)) == ecl && WordMask(FormatBits(ecl, msk)) == msk
  {
    hide FormatData, FormatBits;
    FormatDataIs(ecl, msk);
  }

  ghost function ReadWord(m: Grid, ver: Version, second: bool): nat
    requires |m| == SizeOf(ver) && IsSquare(m, |m|)
  {
    FromBits(Read(m, FormatCells(ver, second)))
  }

  lemma FormatCellColor(ver: Version, word: nat, second: bool, i: nat)
    requires i < 15
    ensures var c := FormatCells(ver, second)[14 - i];
            InGrid(c, SizeOf(ver)) && FormatCell(ver, c) && FormatColor(ver, word, c) == Bit(word, i)
  {
    hide Bit;
  }

  /** At a function cell the finished symbol has the colour of the pattern. */
  lemma SymbolFunctionCell(ver: Version, ecl: Ecc, codewords: seq<Byte>, msk: Mask, c: Cell)
    requires InGrid(c, SizeOf(ver)) && FunctionCell(ver, c)
    ensures At(Symbol(ver, ecl, codewords, msk), c) == PatternColor(ver, ecl, msk, c)
  {
    hide FunctionGrid, Unmasked, At, Masked, FunctionCell, PatternColor;
    UnmaskedFunctionCell(ver, ecl, codewords, msk, c);
    MaskKeepsFunctionCells(Unmasked(ver, ecl, codewords, msk), FunctionGrid(ver), msk, c);
  }

  /** Both copies of the format bits hold the format word. */
  lemma WordReadable(ver: Version, ecl: Ecc, codewords: seq<Byte>, msk: Mask, second: bool)
    ensures ReadWord(Symbol(ver, ecl, codewords, msk), ver, second) == FormatBits(ecl, msk)
  {
    hide Symbol, At, FormatBits, FormatCells, FormatColor, FormatCell, FunctionCell, PatternColor, FromBits, ToBits,
      Bit;
    var word, m, cells := FormatBits(ecl, msk), Symbol(ver, ecl, codewords, msk), FormatCells(ver, second);
    forall k | 0 <= k < 15
      ensures Read(m, cells)[k] == ToBits(word, 15)[k]
    {
      FormatCellColor(ver, word, second, 14 - k);
      OtherPatternColor(ver, ecl, msk, msk, cells[k]);
      SymbolFunctionCell(ver, ecl, codewords, msk, cells[k]);
      BitIsToBits(word, 15, k);
    }
    assert Read(m, cells) == ToBits(word, 15);
    WordsFit(ecl, msk, ver);
    FromToBits(word, 15);
  }

  lemma BitIsToBits(word: nat, len: nat, k: nat)
    requires k < len
    ensures ToBits(word, len)[k] == Bit(word, len - 1 - k)
  {
    hide ToBits;
    ToBitsAt(word, len, k);
  }

  // Version bits

  /** The cell of version bit i; the second copy is the first one mirrored. */
  function VersionCellOf(ver: Version, second: bool, i: nat): Cell
    requires i < 18
  {
    if second then Cell(i / 3, SizeOf(ver) - 11 + i % 3) else Cell(SizeOf(ver) - 11 + i % 3, i / 3)
  }

  /** The cells of one copy of the version bits, highest bit first. */
  function VersionCells(ver: Version, second: bool): (cells: seq<Cell>)
    ensures |cells| == 18 && AllInGrid(cells, SizeOf(ver))
  {
    seq(18, k requires 0 <= k < 18 => VersionCellOf(ver, second, 17 - k))
  }

  lemma VersionCellColor(ver: Version, ecl: Ecc, msk: Mask, second: bool, i: nat)
    requires ver >= 7 && i < 18
    ensures var c := VersionCellOf(ver, second, i);
            && InGrid(c, SizeOf(ver)) && FunctionCell(ver, c)
            && PatternColor(ver, ecl, msk, c) == Bit(VersionBits(ver), i)
  {
    hide Bit, VersionBits, AlignCell;
  }

  /** From version 7 on both copies of the version bits hold the version. */
  lemma VersionReadable(ver: Version, ecl: Ecc, codewords: seq<Byte>, msk: Mask, second: bool)
    requires ver >= 7
    ensures FromBits(Read(Symbol(ver, ecl, codewords, msk), VersionCells(ver, second))) / 4096 == ver
  {
    hide Symbol, At, VersionBits, VersionCellOf, FunctionCell, PatternColor, FromBits, ToBits, Bit;
    var word, m, cells := VersionBits(ver), Symbol(ver, ecl, codewords, msk), VersionCells(ver, second);
    forall k | 0 <= k < 18
      ensures Read(m, cells)[k] == ToBits(word, 18)[k]
    {
      VersionCellColor(ver, ecl, msk, second, 17 - k);
      SymbolFunctionCell(ver, ecl, codewords, msk, cells[k]);
      BitIsToBits(word, 18, k);
    }
    assert Read(m, cells) == ToBits(word, 18);
    WordsFit(ecl, msk, ver);
    FromToBits(word, 18);
    VersionRoundTrip(ver);
  }

  lemma VersionRoundTrip(ver: Version)
    ensures VersionBits(ver) / 4096 == ver
  {
    hide Bch;
    Sizes();
    BchFits(ver, 11, 0x1F25, 12);
  }

  // Codewords

  /** The bytes of a string of bits. */
  function BitsToBytes(bits: seq<bool>): (bytes: seq<Byte>)
    ensures |bytes| == |bits| / 8
  {
    seq<Byte>(|bits| / 8, j requires 0 <= j < |bits| / 8 => ByteAt(bits, j))
  }

  function ByteAt(bits: seq<bool>, j: nat): Byte
    requires 8 * j + 8 <= |bits|
  {
    FromBitsBound(bits[8 * j..8 * j + 8]);
    EightBits();
    FromBits(bits[8 * j..8 * j + 8])
  }

  lemma BytesRoundTrip(bytes: seq<Byte>)
    ensures BitsToBytes(BytesToBits(bytes)) == bytes
  {
    hide BytesToBits, FromBits, ToBits;
    var bits := BytesToBits(bytes);
    forall j | 0 <= j < |bytes|
      ensures ByteAt(bits, j) == bytes[j]
    {
      forall k | 0 <= k < 8
        ensures bits[8 * j..8 * j + 8][k] == ToBits(bytes[j], 8)[k]
      {
        BytesToBitsAt(bytes, j, k);
      }
      assert bits[8 * j..8 * j + 8] == ToBits(bytes[j], 8);
      EightBits();
      FromToBits(bytes[j], 8);
    }
  }

  /** The codewords along the scan, once the mask is off. */
  ghost function ReadCodewords(m: Grid, ver: Version, msk: Mask): seq<Byte>
    requires |m| == SizeOf(ver) && IsSquare(m, |m|)
  {
    hide FunctionGrid, Scan, Masked, MarksFunctionCells, IsSquare, FreeCells;
    ScanFits(ver);
    var free := FreeCells(FunctionGrid(ver), Scan(SizeOf(ver)));
    var n := 8 * RawCodewords(ver);
    if 0 <= n <= |free| then
      PrefixInGrid(free, n, |m|);
      BitsToBytes(Read(Masked(m, FunctionGrid(ver), msk), free[..n]))
    else []
  }

  lemma PrefixInGrid(cells: seq<Cell>, n: nat, size: nat)
    requires AllInGrid(cells, size) && n <= |cells|
    ensures AllInGrid(cells[..n], size)
  {}

  lemma CodewordsReadable(ver: Version, ecl: Ecc, codewords: seq<Byte>, msk: Mask)
    requires |codewords| == RawCodewords(ver)
    ensures ReadCodewords(Symbol(ver, ecl, codewords, msk), ver, msk) == codewords
  {
    hide FunctionGrid, PatternGrid, Scan, Masked, At, Read, FreeCells, Placed, BytesToBits, BitsToBytes,
      NumRawDataModules,
      MarksFunctionCells, IsSquare, Unmasked;
    ScanFits(ver);
    var f, scan, bits := FunctionGrid(ver), Scan(SizeOf(ver)), BytesToBits(codewords);
    FreeCellCount(f, ver);
    MaskTwice(Unmasked(ver, ecl, codewords, msk), f, msk);
    UnmaskedIsPlaced(ver, ecl, codewords, msk);
    PlacedReadable(PatternGrid(ver, ecl, msk), f, scan, bits);
    BytesRoundTrip(codewords);
  }

  // The whole symbol

  /** The version of a grid, from its size. */
  function GridVersion(m: Grid): Option<Version> {
    var v := (|m| - 17) / 4;
    if 1 <= v <= 40 && |m| == SizeOf(v) then Some(v) else None
  }

  /** The segments in a symbol, from its modules alone. */
  ghost function Decode(m: Grid, second: bool): Option<seq<Segment>>
    requires IsSquare(m, |m|)
  {
    hide FromBits, BytesToBits, Parse, RawCodewords, FunctionGrid, FunctionCell, Interleaving.LayoutOf,
      Interleaving.ReadData;
    match GridVersion(m)
    case None => None
    case Some(ver) =>
      var word := ReadWord(m, ver, second);
      var codewords := ReadCodewords(m, ver, WordMask(word));
      var l := Interleaving.LayoutOf(ver, WordLevel(word));
      if Interleaving.Readable(codewords, l)
      then Parse(BytesToBits(Interleaving.ReadData(codewords, l, l.numBlocks)), ver)
      else None
  }

  lemma DecodeData(ver: Version, ecl: Ecc, data: seq<Byte>, codewords: seq<Byte>, msk: Mask, second: bool)
    requires |codewords| == RawCodewords(ver)
    requires Interleaving.Holds(codewords, Interleaving.LayoutOf(ver, ecl), data)
    ensures Decode(Symbol(ver, ecl, codewords, msk), second) == Parse(BytesToBits(data), ver)
  {
    hide Symbol, FormatBits, Parse, BytesToBits, ReadWord, ReadCodewords, WordMask, WordLevel, RawCodewords,
      Interleaving.LayoutOf, Interleaving.ReadData, Interleaving.Readable;
    WordReadable(ver, ecl, codewords, msk, second);
    FormatRoundTrip(ecl, msk);
    CodewordsReadable(ver, ecl, codewords, msk);
  }

  // Damaged symbols

  /** The blocks found in the modules of a grid. */
  ghost function ReadBlocks(g: Grid, ver: Version, ecl: Ecc, msk: Mask): (blocks: seq<seq<Byte>>)
    requires |g| == SizeOf(ver) && IsSquare(g, |g|)
    requires Interleaving.Readable(ReadCodewords(g, ver, msk), Interleaving.LayoutOf(ver, ecl))
    ensures |blocks| == Interleaving.LayoutOf(ver, ecl).numBlocks
  {
    hide ReadCodewords, Interleaving.LayoutOf, Interleaving.Readable;
    var l, codewords := Interleaving.LayoutOf(ver, ecl), ReadCodewords(g, ver, msk);
    seq(l.numBlocks, j requires 0 <= j < l.numBlocks => Interleaving.Block(codewords, l, j))
  }

  /**
   The grid could be a damaged symbol with this data: in every block at most half as many bytes are wrong as it
   has error correction bytes.
   */
  ghost predicate Explains(data: seq<Byte>, g: Grid, ver: Version, ecl: Ecc, msk: Mask)
    requires |g| == SizeOf(ver) && IsSquare(g, |g|)
    requires Interleaving.Readable(ReadCodewords(g, ver, msk), Interleaving.LayoutOf(ver, ecl))
  {
    exists codewords: seq<Byte> ::
      IsNearBy(codewords, data, ReadBlocks(g, ver, ecl, msk), Interleaving.LayoutOf(ver, ecl))
  }

  ghost predicate IsNearBy(codewords: seq<Byte>, data: seq<Byte>, blocks: seq<seq<Byte>>, l: Interleaving.Layout)
    requires |blocks| == l.numBlocks
  {
    && Interleaving.Holds(codewords, l, data)
    && forall j | 0 <= j < l.numBlocks :: Interleaving.Near(codewords, blocks, l, j)
  }

  /** At most one data sequence explains a grid, however damaged it is. */
  lemma DamageCorrectable(g: Grid, ver: Version, ecl: Ecc, msk: Mask, data: seq<Byte>, other: seq<Byte>)
    requires |g| == SizeOf(ver) && IsSquare(g, |g|)
    requires Interleaving.Readable(ReadCodewords(g, ver, msk), Interleaving.LayoutOf(ver, ecl))
    requires Explains(data, g, ver, ecl, msk) && Explains(other, g, ver, ecl, msk)
    ensures data == other
  {
    hide ReadCodewords, ReadBlocks, Interleaving.LayoutOf, Interleaving.Readable, Interleaving.Holds, Interleaving.Near;
    var l, blocks := Interleaving.LayoutOf(ver, ecl), ReadBlocks(g, ver, ecl, msk);
    var a: seq<Byte> :| IsNearBy(a, data, blocks, l);
    var b: seq<Byte> :| IsNearBy(b, other, blocks, l);
    Interleaving.DataDetermined(a, b, blocks, l, data, other);
  }

  /** An undamaged symbol is explained by its data, so no tolerable damage can make it look like other data. */
  lemma SymbolExplained(ver: Version, ecl: Ecc, data: seq<Byte>, codewords: seq<Byte>, msk: Mask)
    requires |codewords| == RawCodewords(ver)
    requires Interleaving.Holds(codewords, Interleaving.LayoutOf(ver, ecl), data)
    ensures Interleaving.Readable(ReadCodewords(Symbol(ver, ecl, codewords, msk), ver, msk),
            Interleaving.LayoutOf(ver, ecl))
    ensures Explains(data, Symbol(ver, ecl, codewords, msk), ver, ecl, msk)
  {
    hide Symbol, ReadCodewords, RawCodewords, Interleaving.LayoutOf, Interleaving.ReadData, Interleaving.Readable,
      Interleaving.Block, MinimumDistance.Distance;
    CodewordsReadable(ver, ecl, codewords, msk);
    var l, blocks := Interleaving.LayoutOf(ver, ecl), ReadBlocks(Symbol(ver, ecl, codewords, msk), ver, ecl, msk);
    forall j | 0 <= j < l.numBlocks
      ensures Interleaving.Near(codewords, blocks, l, j)
    {
      MinimumDistance.NoDistance(blocks[j]);
    }
    assert IsNearBy(codewords, data, blocks, l);
  }
}
