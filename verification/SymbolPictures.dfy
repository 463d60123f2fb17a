/** How a finished symbol looks: its function patterns as pictures, whatever data it holds. */
module SymbolPictures {
  import opened Arithmetic
  import opened BytePacking
  import opened CapacityTables
  import opened CodewordArea
  import opened FinderLookalikes
  import opened FinishedSymbol
  import opened FormatInfo
  import opened GaloisField
  import opened GridPenalty
  import opened Grids
  import opened Masking
  import opened MaskTiles
  import opened PatternColors
  import opened QrSymbol
  import opened SymbolGeometry
  import opened SymbolReader
  import opened Zigzag

  /** A finder pattern with its separator. */
  const FINDER := [
    ".........",
    ".#######.",
    ".#.....#.",
    ".#.###.#.",
    ".#.###.#.",
    ".#.###.#.",
    ".#.....#.",
    ".#######.",
    "........."]

  const ALIGNMENT := [
    "#####",
    "#...#",
    "#.#.#",
    "#...#",
    "#####"]

  /** The module at (x, y) of a picture. */
  predicate Shows(picture: seq<string>, x: int, y: int) {
    0 <= y < |picture| && 0 <= x < |picture[y]| && picture[y][x] == '#'
  }

  lemma FinderPicture(x: int, y: int, c: Cell)
    requires InSquare(x, y, 4, c)
    ensures FinderColor(x, y, c) == Shows(FINDER, c.x - (x - 4), c.y - (y - 4))
  {
    var i, j := c.x - (x - 4), c.y - (y - 4);
    assert Distance(x, y, c) == if Abs(i - 4) > Abs(j - 4) then Abs(i - 4) else Abs(j - 4);
    if j == 0 || j == 8 {
      assert Distance(x, y, c) == 4;
    } else if j == 1 || j == 7 {
    } else if j == 2 || j == 6 {
    } else {
    }
  }

  lemma AlignmentPicture(x: int, y: int, c: Cell)
    requires InSquare(x, y, 2, c)
    ensures AlignColor(x, y, c) == Shows(ALIGNMENT, c.x - (x - 2), c.y - (y - 2))
  {}

  /** No alignment pattern reaches into a corner with a finder. */
  lemma FinderNotAlign(ver: Version, c: Cell)
    requires FinderCell(ver, c) && InGrid(c, SizeOf(ver))
    ensures !AlignCell(ver, c)
  {
    hide AlignPosition, NumAlign, AlignStep;
    forall i: nat, j: nat | IsAlignPair(ver, i, j)
      ensures !(NearAlign(ver, i, c.x) && NearAlign(ver, j, c.y))
    {
      FirstPosition(ver);
      if i > 0 {
        AlignPositionRange(ver, i);
      }
      if j > 0 {
        AlignPositionRange(ver, j);
      }
    }
  }

  /** The three corners of a symbol with a finder in them. */
  lemma FindersShown(ver: Version, ecl: Ecc, codewords: seq<Byte>, msk: Mask, c: Cell)
    requires InGrid(c, SizeOf(ver)) && FinderCell(ver, c)
    ensures var size, dark := SizeOf(ver), At(Symbol(ver, ecl, codewords, msk), c);
            && (c.x <= 7 && c.y <= 7 ==> dark == Shows(FINDER, c.x + 1, c.y + 1))
            && (c.x >= size - 8 && c.y <= 7 ==> dark == Shows(FINDER, c.x - (size - 8), c.y + 1))
            && (c.x <= 7 && c.y >= size - 8 ==> dark == Shows(FINDER, c.x + 1, c.y - (size - 8)))
  {
    hide Symbol, At, AlignCell, AlignCellColor, Shows, FinderColor, VersionColor, FormatColor;
    var size := SizeOf(ver);
    FinderNotAlign(ver, c);
    SymbolFunctionCell(ver, ecl, codewords, msk, c);
    if c.x <= 7 && c.y <= 7 {
      FinderPicture(3, 3, c);
    } else if c.x <= 7 {
      FinderPicture(3, size - 4, c);
    } else {
      FinderPicture(size - 4, 3, c);
    }
  }

  /** An alignment pattern is clear of the version and format bits. */
  lemma AlignCellsClear(ver: Version, i: nat, j: nat, c: Cell)
    requires InAlign(ver, i, j, c)
    ensures InGrid(c, SizeOf(ver)) && !VersionCell(ver, c) && !FormatCell(ver, c)
  {
    hide AlignPosition, NumAlign, AlignStep;
    FirstPosition(ver);
    if i > 0 {
      AlignPositionRange(ver, i);
    }
    if j > 0 {
      AlignPositionRange(ver, j);
    }
  }

  lemma AlignmentsShown(ver: Version, ecl: Ecc, codewords: seq<Byte>, msk: Mask, i: nat, j: nat, c: Cell)
    requires InAlign(ver, i, j, c)
    ensures InGrid(c, SizeOf(ver))
    ensures At(Symbol(ver, ecl, codewords, msk), c) ==
            Shows(ALIGNMENT, c.x - (AlignPosition(ver, i) - 2), c.y - (AlignPosition(ver, j) - 2))
  {
    hide Symbol, At, AlignCell, AlignCellColor, AlignPosition, Shows, AlignColor, VersionCell, FormatCell, SizeOf;
    AlignCellsClear(ver, i, j, c);
    AlignColorUnique(ver, i, j, c);
    SymbolFunctionCell(ver, ecl, codewords, msk, c);
    AlignmentPicture(AlignPosition(ver, i), AlignPosition(ver, j), c);
  }

  lemma AlignKeepsTiming(p: int, k: int)
    requires p % 2 == 0 && p - 2 <= k <= p + 2
    ensures AlignColor(6, p, Cell(6, k)) == AlignColor(p, 6, Cell(k, 6)) == (k % 2 == 0)
  {}

  lemma TimingColorAt(ver: Version, ecl: Ecc, msk: Mask, c: Cell, k: nat)
    requires 8 <= k <= SizeOf(ver) - 9 && (c == Cell(6, k) || c == Cell(k, 6))
    ensures InGrid(c, SizeOf(ver)) && PatternColor(ver, ecl, msk, c) == (k % 2 == 0)
  {
    hide AlignPosition, NumAlign, AlignStep, AlignColor;
    if AlignCell(ver, c) {
      var i: nat, j: nat :| IsAlignPair(ver, i, j) && NearAlign(ver, i, c.x) && NearAlign(ver, j, c.y);
      AlignColorUnique(ver, i, j, c);
      AlignCellsClear(ver, i, j, c);
      FirstPosition(ver);
      if i > 0 {
        AlignPositionRange(ver, i);
      }
      if j > 0 {
        AlignPositionRange(ver, j);
      }
      AlignPositionEven(ver, i);
      AlignPositionEven(ver, j);
      AlignKeepsTiming(AlignPosition(ver, if c.x == 6 then j else i), k);
    }
  }

  /** Between the finders row 6 and column 6 alternate from dark, also where an alignment pattern lies across them. */
  lemma TimingShown(ver: Version, ecl: Ecc, codewords: seq<Byte>, msk: Mask, k: nat)
    requires 8 <= k <= SizeOf(ver) - 9
    ensures At(Symbol(ver, ecl, codewords, msk), Cell(6, k)) == (k % 2 == 0)
    ensures At(Symbol(ver, ecl, codewords, msk), Cell(k, 6)) == (k % 2 == 0)
  {
    hide Symbol, At, AlignCell, PatternColor, SizeOf;
    TimingColorAt(ver, ecl, msk, Cell(6, k), k);
    TimingColorAt(ver, ecl, msk, Cell(k, 6), k);
    SymbolFunctionCell(ver, ecl, codewords, msk, Cell(6, k));
    SymbolFunctionCell(ver, ecl, codewords, msk, Cell(k, 6));
  }

  /** The module next to the lower left finder is dark in every symbol. */
  lemma DarkModuleShown(ver: Version, ecl: Ecc, codewords: seq<Byte>, msk: Mask)
    ensures At(Symbol(ver, ecl, codewords, msk), Cell(8, SizeOf(ver) - 8))
  {
    hide Symbol, At, AlignCell, AlignCellColor, Bit, FormatBits;
    SymbolFunctionCell(ver, ecl, codewords, msk, Cell(8, SizeOf(ver) - 8));
  }

  /** A finder reads the same in rows and in columns. */
  lemma FinderSymmetric(x: int, y: int, c: Cell)
    ensures FinderColor(x, y, c) == FinderColor(x, y, Cell(x + c.y - y, y + c.x - x))
  {}

  /** One dark, one light, three dark, one light and one dark module, then a light one. */
  predicate Ratio(k: nat) {
    k == 0 || 2 <= k <= 4 || k == 6
  }

  ghost predicate StartsLikeFinder(line: seq<bool>) {
    |line| >= 8 && forall k | 0 <= k < 8 :: line[k] == Ratio(k)
  }

  ghost predicate EndsLikeFinder(line: seq<bool>) {
    |line| >= 8 && forall k | 0 <= k < 8 :: line[|line| - 1 - k] == Ratio(k)
  }

  lemma LooksAtStart(line: seq<bool>)
    requires StartsLikeFinder(line)
    ensures Looks(Framed(line), Lookalike(|line|, 1, true))
  {
    var n, framed := |line|, Framed(line);
    forall i | n - 4 <= i < n + 8
      ensures framed[i] == (i >= n && Ratio(i - n))
    {
      if i >= n {
        assert framed[i] == line[i - n];
      }
    }
  }

  lemma LooksAtEnd(line: seq<bool>)
    requires EndsLikeFinder(line)
    ensures Looks(Framed(line), Lookalike(2 * |line| - 7, 1, false))
  {
    var n, framed := |line|, Framed(line);
    forall i | 2 * n - 8 <= i < 2 * n + 4
      ensures framed[i] == (i < 2 * n && Ratio(2 * n - 1 - i))
    {
      if i < 2 * n {
        assert framed[i] == line[i - n] == line[n - 1 - (2 * n - 1 - i)];
      }
    }
  }

  lemma PictureRatio(k: nat)
    requires k < 8
    ensures Shows(FINDER, k + 1, 4) == Shows(FINDER, 7 - k, 4) == Ratio(k)
    ensures Shows(FINDER, 4, k + 1) == Shows(FINDER, 4, 7 - k) == Ratio(k)
  {}

  lemma FinderLineModules(ver: Version, ecl: Ecc, codewords: seq<Byte>, msk: Mask, k: nat)
    requires k < 8
    ensures var m, size := Symbol(ver, ecl, codewords, msk), SizeOf(ver);
            && m[3][k] == m[3][size - 1 - k] == Ratio(k)
            && m[k][3] == m[size - 1 - k][3] == Ratio(k)
  {
    hide Symbol, Shows, Ratio;
    var size := SizeOf(ver);
    PictureRatio(k);
    FindersShown(ver, ecl, codewords, msk, Cell(k, 3));
    FindersShown(ver, ecl, codewords, msk, Cell(3, k));
    FindersShown(ver, ecl, codewords, msk, Cell(size - 1 - k, 3));
    FindersShown(ver, ecl, codewords, msk, Cell(3, size - 1 - k));
  }

  /** The row and the column through the centre of the upper left finder look like finders at both ends. */
  lemma FinderLinesLook(ver: Version, ecl: Ecc, codewords: seq<Byte>, msk: Mask)
    ensures var m, size := Symbol(ver, ecl, codewords, msk), SizeOf(ver);
            && Looks(Framed(m[3]), Lookalike(size, 1, true))
            && Looks(Framed(m[3]), Lookalike(2 * size - 7, 1, false))
            && Looks(Framed(Column(m, 3)), Lookalike(size, 1, true))
            && Looks(Framed(Column(m, 3)), Lookalike(2 * size - 7, 1, false))
  {
    hide Symbol, Looks, Framed, Ratio;
    var m, size := Symbol(ver, ecl, codewords, msk), SizeOf(ver);
    var row, column := m[3], Column(m, 3);
    assert StartsLikeFinder(row) && StartsLikeFinder(column) by {
      forall k | 0 <= k < 8
        ensures row[k] == column[k] == Ratio(k)
      {
        FinderLineModules(ver, ecl, codewords, msk, k);
      }
    }
    assert EndsLikeFinder(row) && EndsLikeFinder(column) by {
      forall k | 0 <= k < 8
        ensures row[size - 1 - k] == column[size - 1 - k] == Ratio(k)
      {
        FinderLineModules(ver, ecl, codewords, msk, k);
      }
    }
    LooksAtStart(row);
    LooksAtEnd(row);
    LooksAtStart(column);
    LooksAtEnd(column);
  }

  // The words

  /** Two data bits for the level, then the mask: the first five bits of the format word before it is masked. */
  lemma FormatWordData(ecl: Ecc, msk: Mask)
    ensures Xor(FormatBits(ecl, msk), 0x5412) / 1024 ==
            (match ecl case Low => 8 case Medium => 0 case Quartile => 24 case High => 16) + msk
  {
    hide Xor, FormatBits;
    FormatDataIs(ecl, msk);
  }

  /**
   The first copy of the format bits runs down column 8 from the top and then left along row 8, past the timing
   patterns.
   */
  lemma FirstCopyPath(i: nat)
    requires i < 14
    ensures FirstCopyCell(0) == Cell(8, 0) && FirstCopyCell(7) == Cell(8, 8) && FirstCopyCell(14) == Cell(0, 8)
    ensures var a, b := FirstCopyCell(i), FirstCopyCell(i + 1);
            if i < 7 then b == Cell(8, if a.y == 5 then 7 else a.y + 1)
            else b == Cell(if a.x == 7 then 5 else a.x - 1, 8)
  {}

  /** The second copy runs left along row 8 from the right edge and then down column 8 to the lower edge. */
  lemma SecondCopyPath(ver: Version, i: nat)
    requires i < 14 && i != 7
    ensures SecondCopyCell(ver, 0) == Cell(SizeOf(ver) - 1, 8) && SecondCopyCell(ver, 14) == Cell(8, SizeOf(ver) - 1)
    ensures var a, b := SecondCopyCell(ver, i), SecondCopyCell(ver, i + 1);
            b == if i < 7 then Cell(a.x - 1, 8) else Cell(8, a.y + 1)
  {}

  /** The version bits fill six rows of three from left to right; the other copy is the same, mirrored. */
  lemma VersionPath(ver: Version, i: nat)
    requires i < 17
    ensures VersionCellOf(ver, false, 0) == Cell(SizeOf(ver) - 11, 0)
    ensures var a, b := VersionCellOf(ver, false, i), VersionCellOf(ver, false, i + 1);
            b == if a.x == SizeOf(ver) - 9 then Cell(SizeOf(ver) - 11, a.y + 1) else Cell(a.x + 1, a.y)
    ensures var a, b := VersionCellOf(ver, false, i), VersionCellOf(ver, true, i); a.x == b.y && a.y == b.x
  {}

  // The data

  /** The cells that hold codeword bits, in the order of the scan. */
  ghost function DataCells(ver: Version): (cells: seq<Cell>)
    ensures AllInGrid(cells, SizeOf(ver))
  {
    hide FunctionGrid, Scan;
    ScanFits(ver);
    FreeCells(FunctionGrid(ver), Scan(SizeOf(ver)))
  }

  lemma DataCellIsFree(ver: Version, n: nat)
    requires n < |DataCells(ver)|
    ensures InGrid(DataCells(ver)[n], SizeOf(ver)) && !At(FunctionGrid(ver), DataCells(ver)[n])
    ensures !FunctionCell(ver, DataCells(ver)[n])
  {
    hide FunctionGrid, Scan, FreeCells, FunctionCell;
    ScanFits(ver);
    FreeCellsMembers(FunctionGrid(ver), Scan(SizeOf(ver)), DataCells(ver)[n]);
  }

  lemma UnmaskedDataModule(ver: Version, ecl: Ecc, codewords: seq<Byte>, msk: Mask, n: nat)
    requires |codewords| == RawCodewords(ver) && n < |DataCells(ver)|
    ensures InGrid(DataCells(ver)[n], SizeOf(ver))
    ensures At(Unmasked(ver, ecl, codewords, msk), DataCells(ver)[n]) ==
            (n < 8 * |codewords| && BytesToBits(codewords)[n])
  {
    hide FunctionGrid, PatternGrid, Scan, FreeCells, FunctionCell, PatternColor, Placed, BytesToBits,
      NumRawDataModules, At, Unmasked;
    DataCellIsFree(ver, n);
    UnmaskedIsPlaced(ver, ecl, codewords, msk);
    var f, scan, bits, free := FunctionGrid(ver), Scan(SizeOf(ver)), BytesToBits(codewords), DataCells(ver);
    FreeCellCount(f, ver);
    ScanFits(ver);
    FreeCellsDistinct(f, scan);
    PlacedReadable(PatternGrid(ver, ecl, msk), f, scan, bits);
    if n < |bits| {
      assert Read(Unmasked(ver, ecl, codewords, msk), free[..|bits|])[n] == bits[n];
    } else {
      assert free[n] !in free[..|bits|];
    }
  }

  /**
   The module of every data cell: along the scan the bits of the codewords, the highest of each first, and after the
   last of them light modules, all inverted where the tile of the mask says so.
   */
  lemma DataModuleShown(ver: Version, ecl: Ecc, codewords: seq<Byte>, msk: Mask, n: nat)
    requires |codewords| == RawCodewords(ver) && n < |DataCells(ver)|
    ensures InGrid(DataCells(ver)[n], SizeOf(ver))
    ensures var c := DataCells(ver)[n];
            At(Symbol(ver, ecl, codewords, msk), c) ==
            ((n < 8 * |codewords| && Bit(codewords[n / 8], 7 - n % 8)) != (Tile(msk)[c.y % 12][c.x % 6] == '#'))
  {
    hide FunctionGrid, FreeCells, FunctionCell, RawCodewords, At, Unmasked, Tile, Bit, BytesToBits, DataCells, Masked;
    DataCellIsFree(ver, n);
    UnmaskedDataModule(ver, ecl, codewords, msk, n);
    MaskedByTile(Unmasked(ver, ecl, codewords, msk), FunctionGrid(ver), msk, DataCells(ver)[n]);
    if n < 8 * |codewords| {
      CodewordBit(codewords, n);
    }
  }
}
