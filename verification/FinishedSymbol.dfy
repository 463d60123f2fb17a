/** What a finished symbol looks like, as a function of its version, level, codewords and mask. */
module FinishedSymbol {
  import opened BytePacking
  import opened CapacityTables
  import opened CodewordArea
  import opened FormatInfo
  import opened GaloisField
  import opened Grids
  import opened Masking
  import opened PatternColors
  import opened SymbolGeometry
  import opened Zigzag

  /** The marks of the function cells. */
  ghost function FunctionGrid(ver: Version): (f: Grid)
    ensures MarksFunctionCells(f, ver)
  {
    var n := SizeOf(ver);
    seq(n, y requires 0 <= y < n => seq(n, x requires 0 <= x < n => FunctionCell(ver, Cell(x, y))))
  }

  /** The function patterns on white ground. */
  ghost function PatternGrid(ver: Version, ecl: Ecc, msk: Mask): (m: Grid)
    ensures |m| == SizeOf(ver) && IsSquare(m, |m|)
    ensures forall c: Cell | InGrid(c, |m|) :: At(m, c) <==> FunctionCell(ver, c) && PatternColor(ver, ecl, msk, c)
  {
    hide FunctionCell, PatternColor;
    var n := SizeOf(ver);
    seq(n, y requires 0 <= y < n => seq(n, x requires 0 <= x < n =>
      FunctionCell(ver, Cell(x, y)) && PatternColor(ver, ecl, msk, Cell(x, y))))
  }

  /** The patterns and the codewords along the scan. */
  ghost function Unmasked(ver: Version, ecl: Ecc, codewords: seq<Byte>, msk: Mask): (m: Grid)
    ensures |m| == SizeOf(ver) && IsSquare(m, |m|)
  {
    hide FunctionGrid, PatternGrid, Scan, MarksFunctionCells, Placed, IsSquare;
    ScanFits(ver);
    Placed(PatternGrid(ver, ecl, msk), FunctionGrid(ver), Scan(SizeOf(ver)), BytesToBits(codewords))
  }

  ghost function Symbol(ver: Version, ecl: Ecc, codewords: seq<Byte>, msk: Mask): (m: Grid)
    ensures |m| == SizeOf(ver) && IsSquare(m, |m|)
  {
    hide FunctionGrid, Unmasked;
    Masked(Unmasked(ver, ecl, codewords, msk), FunctionGrid(ver), msk)
  }

  lemma ScanFits(ver: Version)
    ensures AllInGrid(Scan(SizeOf(ver)), SizeOf(ver)) && NoRepeats(Scan(SizeOf(ver)))
    ensures |FunctionGrid(ver)| == SizeOf(ver) && IsSquare(FunctionGrid(ver), SizeOf(ver))
  {
    hide Scan, FunctionGrid;
    ScanExact(SizeOf(ver));
  }

  lemma UnmaskedIsPlaced(ver: Version, ecl: Ecc, codewords: seq<Byte>, msk: Mask)
    ensures |FunctionGrid(ver)| == SizeOf(ver) && IsSquare(FunctionGrid(ver), SizeOf(ver))
    ensures AllInGrid(Scan(SizeOf(ver)), SizeOf(ver))
    ensures Unmasked(ver, ecl, codewords, msk) ==
            Placed(PatternGrid(ver, ecl, msk), FunctionGrid(ver), Scan(SizeOf(ver)), BytesToBits(codewords))
  {
    hide FunctionGrid, PatternGrid, Scan, Placed, BytesToBits;
    ScanFits(ver);
  }

  /** There is one way to mark the function cells. */
  lemma MarksAreUnique(f: Grid, ver: Version)
    requires MarksFunctionCells(f, ver)
    ensures f == FunctionGrid(ver)
  {
    hide FunctionGrid, FunctionCell, At;
    SameCells(f, FunctionGrid(ver));
  }

  /** Drawing the function patterns on a blank symbol gives the pattern grid. */
  lemma PatternsDrawn(blank: Grid, m: Grid, f: Grid, ver: Version, ecl: Ecc)
    requires |blank| == |m| == |f| == SizeOf(ver)
    requires IsSquare(blank, |blank|) && IsSquare(m, |m|) && IsSquare(f, |f|)
    requires forall c: Cell | InGrid(c, |blank|) :: !At(blank, c)
    requires forall c: Cell | InGrid(c, |blank|) ::
               Drawn(blank, blank, m, f, c, FunctionCell(ver, c), PatternColor(ver, ecl, 0, c))
    ensures m == PatternGrid(ver, ecl, 0) && f == FunctionGrid(ver)
  {
    hide FunctionGrid, PatternGrid, FunctionCell, PatternColor, At;
    MarksAreUnique(f, ver);
    SameCells(m, PatternGrid(ver, ecl, 0));
  }

  // Redrawing the format bits

  /** What placing writes to a cell does not depend on the rest of the grid. */
  lemma {:induction false} WriteSame(g: Grid, h: Grid, cells: seq<Cell>, bits: seq<bool>, d: Cell)
    requires |cells| == |bits| && |g| == |h| && IsSquare(g, |g|) && IsSquare(h, |h|)
    requires AllInGrid(cells, |g|) && InGrid(d, |g|) && At(g, d) == At(h, d)
    ensures At(Write(g, cells, bits), d) == At(Write(h, cells, bits), d)
  {
    hide At, Set;
    if |cells| > 0 {
      var n := |cells| - 1;
      WriteSame(g, h, cells[..n], bits[..n], d);
      SetAt(Write(g, cells[..n], bits[..n]), cells[n], bits[n], d);
      SetAt(Write(h, cells[..n], bits[..n]), cells[n], bits[n], d);
    }
  }

  lemma UnmaskedFunctionCell(ver: Version, ecl: Ecc, codewords: seq<Byte>, msk: Mask, c: Cell)
    requires InGrid(c, SizeOf(ver)) && FunctionCell(ver, c)
    ensures At(Unmasked(ver, ecl, codewords, msk), c) == PatternColor(ver, ecl, msk, c)
  {
    hide FunctionGrid, PatternGrid, Scan, FunctionCell, PatternColor, At, FreeCells, Write, BytesToBits;
    ScanFits(ver);
    var f, scan, bits := FunctionGrid(ver), Scan(SizeOf(ver)), BytesToBits(codewords);
    var free := FreeCells(f, scan);
    FreeCellsMembers(f, scan, c);
    var k := if |free| < |bits| then |free| else |bits|;
    WriteElsewhere(PatternGrid(ver, ecl, msk), free[..k], bits[..k], c);
  }

  lemma UnmaskedFreeCell(ver: Version, ecl: Ecc, codewords: seq<Byte>, a: Mask, b: Mask, c: Cell)
    requires InGrid(c, SizeOf(ver)) && !FunctionCell(ver, c)
    ensures At(Unmasked(ver, ecl, codewords, a), c) == At(Unmasked(ver, ecl, codewords, b), c)
  {
    hide FunctionGrid, PatternGrid, Scan, FunctionCell, PatternColor, At, FreeCells, Write, BytesToBits;
    ScanFits(ver);
    var free, bits := FreeCells(FunctionGrid(ver), Scan(SizeOf(ver))), BytesToBits(codewords);
    var k := if |free| < |bits| then |free| else |bits|;
    WriteSame(PatternGrid(ver, ecl, a), PatternGrid(ver, ecl, b), free[..k], bits[..k], c);
  }

  lemma OtherPatternColor(ver: Version, ecl: Ecc, a: Mask, b: Mask, c: Cell)
    requires InGrid(c, SizeOf(ver))
    ensures FormatCell(ver, c) ==> !VersionCell(ver, c) && FunctionCell(ver, c)
    ensures FormatCell(ver, c) ==> PatternColor(ver, ecl, b, c) == FormatColor(ver, FormatBits(ecl, b), c)
    ensures !FormatCell(ver, c) ==> PatternColor(ver, ecl, a, c) == PatternColor(ver, ecl, b, c)
  {
    hide AlignCell, AlignCellColor, VersionColor, FormatColor, FinderColor, TimingColor;
  }

  /** Masking with `b` and redrawing the format bits gives the finished symbol, whatever the bits before. */
  lemma FormatRedrawn(ver: Version, ecl: Ecc, codewords: seq<Byte>, a: Mask, b: Mask, m: Grid, f': Grid)
    requires |m| == |f'| == SizeOf(ver) && IsSquare(m, |m|) && IsSquare(f', |f'|)
    requires forall c: Cell | InGrid(c, |m|) ::
               Drawn(Masked(Unmasked(ver, ecl, codewords, a), FunctionGrid(ver), b), FunctionGrid(ver), m, f', c,
                     FormatCell(ver, c), FormatCell(ver, c) && FormatColor(ver, FormatBits(ecl, b), c))
    ensures m == Symbol(ver, ecl, codewords, b) && f' == FunctionGrid(ver)
  {
    hide FunctionGrid, Unmasked, Masked, At, FunctionCell, PatternColor, FormatColor, FormatCell, Inverts;
    var f, s := FunctionGrid(ver), Symbol(ver, ecl, codewords, b);
    forall c: Cell | InGrid(c, |m|)
      ensures At(m, c) == At(s, c)
      ensures At(f', c) == FunctionCell(ver, c)
    {
      OtherPatternColor(ver, ecl, a, b, c);
      assert At(s, c) == MaskedAt(Unmasked(ver, ecl, codewords, b), f, b, c);
      if FunctionCell(ver, c) {
        UnmaskedFunctionCell(ver, ecl, codewords, a, c);
        UnmaskedFunctionCell(ver, ecl, codewords, b, c);
      } else {
        UnmaskedFreeCell(ver, ecl, codewords, a, b, c);
      }
    }
    SameCells(m, s);
    MarksAreUnique(f', ver);
  }
}
