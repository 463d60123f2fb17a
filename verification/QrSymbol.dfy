/** The symbol under construction: a grid of modules and the marks of its function cells. */
module QrSymbol {
  import opened Arithmetic
  import opened BitStrings
  import opened BytePacking
  import opened CapacityTables
  import opened CodewordArea
  import opened FinishedSymbol
  import opened FormatInfo
  import opened GaloisField
  import opened GridPenalty
  import opened Grids
  import Interleaving
  import opened Masking
  import opened Outcomes
  import opened PatternColors
  import opened SymbolGeometry
  import opened Zigzag

  class QrCode {
    const version: Version
    const size: nat
    const errorCorrectionLevel: Ecc
    var mask: int
    var modules: Grid
    var isFunction: Grid

    ghost predicate Valid()
      reads this
    {
      && size == SizeOf(version)
      && |modules| == size && IsSquare(modules, size)
      && |isFunction| == size && IsSquare(isFunction, size)
    }

    constructor Blank(ver: Version, ecl: Ecc)
      ensures Valid() && version == ver && errorCorrectionLevel == ecl
      ensures modules == isFunction
      ensures forall c: Cell | InGrid(c, size) :: !At(modules, c)
    {
      version := ver;
      errorCorrectionLevel := ecl;
      size := SizeOf(ver);
      mask := -1;
      modules := White(SizeOf(ver));
      isFunction := White(SizeOf(ver));
    }

    /** `setFunctionModule` */
    method SetFunctionModule(x: int, y: int, isBlack: bool)
      requires Valid() && InGrid(Cell(x, y), size)
      modifies `modules, `isFunction
      ensures Valid()
      ensures forall c: Cell | InGrid(c, size) ::
                Drawn(old(modules), old(isFunction), modules, isFunction, c, c == Cell(x, y), isBlack)
    {
      modules := Set(modules, Cell(x, y), isBlack);
      isFunction := Set(isFunction, Cell(x, y), true);
    }

    /** `drawFinderPattern` */
    method DrawFinderPattern(x: int, y: int)
      requires Valid()
      modifies `modules, `isFunction
      ensures Valid()
      ensures forall c: Cell | InGrid(c, size) ::
                Drawn(old(modules), old(isFunction), modules, isFunction, c, InSquare(x, y, 4, c), FinderColor(x, y, c))
    {
      hide At, Set;
      for dy := -4 to 5
        invariant Valid()
        invariant forall c: Cell | InGrid(c, size) ::
                    Drawn(old(modules), old(isFunction), modules, isFunction, c,
                          InSquare(x, y, 4, c) && c.y < y + dy, FinderColor(x, y, c))
      {
        for dx := -4 to 5
          invariant Valid()
          invariant forall c: Cell | InGrid(c, size) ::
                      Drawn(old(modules), old(isFunction), modules, isFunction, c,
                            InSquare(x, y, 4, c) && (c.y < y + dy || (c.y == y + dy && c.x < x + dx)),
                            FinderColor(x, y, c))
        {
          var dist := if Abs(dx) > Abs(dy) then Abs(dx) else Abs(dy);
          var xx, yy := x + dx, y + dy;
          if 0 <= xx < size && 0 <= yy < size {
            SetFunctionModule(xx, yy, dist != 2 && dist != 4);
          }
        }
      }
    }

    /** `drawAlignmentPattern` */
    method DrawAlignmentPattern(x: int, y: int)
      requires Valid() && 2 <= x < size - 2 && 2 <= y < size - 2
      modifies `modules, `isFunction
      ensures Valid()
      ensures forall c: Cell | InGrid(c, size) ::
                Drawn(old(modules), old(isFunction), modules, isFunction, c, InSquare(x, y, 2, c), AlignColor(x, y, c))
    {
      hide At, Set;
      for dy := -2 to 3
        invariant Valid()
        invariant forall c: Cell | InGrid(c, size) ::
                    Drawn(old(modules), old(isFunction), modules, isFunction, c,
                          InSquare(x, y, 2, c) && c.y < y + dy, AlignColor(x, y, c))
      {
        for dx := -2 to 3
          invariant Valid()
          invariant forall c: Cell | InGrid(c, size) ::
                      Drawn(old(modules), old(isFunction), modules, isFunction, c,
                            InSquare(x, y, 2, c) && (c.y < y + dy || (c.y == y + dy && c.x < x + dx)),
                            AlignColor(x, y, c))
        {
          SetFunctionModule(x + dx, y + dy, (if Abs(dx) > Abs(dy) then Abs(dx) else Abs(dy)) != 1);
        }
      }
    }

    /** The timing patterns of `drawFunctionPatterns`. */
    method DrawTimingPatterns()
      requires Valid()
      modifies `modules, `isFunction
      ensures Valid()
      ensures forall c: Cell | InGrid(c, size) ::
                Drawn(old(modules), old(isFunction), modules, isFunction, c, TimingCell(c), TimingColor(c))
    {
      hide At, Set;
      for i := 0 to size
        invariant Valid()
        invariant forall c: Cell | InGrid(c, size) ::
                    Drawn(old(modules), old(isFunction), modules, isFunction, c,
                          (c.x == 6 && c.y < i) || (c.y == 6 && c.x < i), TimingColor(c))
      {
        SetFunctionModule(6, i, i % 2 == 0);
        SetFunctionModule(i, 6, i % 2 == 0);
      }
    }

    /** The first copy of the format bits. */
    method DrawFirstFormatCopy(bits: nat)
      requires Valid()
      modifies `modules, `isFunction
      ensures Valid()
      ensures forall c: Cell | InGrid(c, size) ::
                Drawn(old(modules), old(isFunction), modules, isFunction, c, FirstFormatCell(c),
                      FirstFormatCell(c) && FormatColor(version, bits, c))
    {
      hide At, Set, Bit;
      for i := 0 to 6
        invariant Valid()
        invariant forall c: Cell | InGrid(c, size) ::
                    Drawn(old(modules), old(isFunction), modules, isFunction, c, c.x == 8 && c.y < i,
                          FirstFormatCell(c) && FormatColor(version, bits, c))
      {
        SetFunctionModule(8, i, Bit(bits, i));
      }
      SetFunctionModule(8, 7, Bit(bits, 6));
      SetFunctionModule(8, 8, Bit(bits, 7));
      SetFunctionModule(7, 8, Bit(bits, 8));
      for i := 9 to 15
        invariant Valid()
        invariant forall c: Cell | InGrid(c, size) ::
                    Drawn(old(modules), old(isFunction), modules, isFunction, c,
                          FirstFormatCell(c) && (c.x <= 5 ==> 14 - c.x < i),
                          FirstFormatCell(c) && FormatColor(version, bits, c))
      {
        SetFunctionModule(14 - i, 8, Bit(bits, i));
      }
    }

    /** The second copy of the format bits and the dark module. */
    method DrawSecondFormatCopy(bits: nat)
      requires Valid()
      modifies `modules, `isFunction
      ensures Valid()
      ensures forall c: Cell | InGrid(c, size) ::
                Drawn(old(modules), old(isFunction), modules, isFunction, c, SecondFormatCell(version, c),
                      SecondFormatCell(version, c) && FormatColor(version, bits, c))
    {
      hide At, Set, Bit;
      for i := 0 to 8
        invariant Valid()
        invariant forall c: Cell | InGrid(c, size) ::
                    Drawn(old(modules), old(isFunction), modules, isFunction, c, c.y == 8 && c.x > size - 1 - i,
                          SecondFormatCell(version, c) && FormatColor(version, bits, c))
      {
        SetFunctionModule(size - 1 - i, 8, Bit(bits, i));
      }
      for i := 8 to 15
        invariant Valid()
        invariant forall c: Cell | InGrid(c, size) ::
                    Drawn(old(modules), old(isFunction), modules, isFunction, c,
                          (c.y == 8 && c.x >= size - 8) || (c.x == 8 && size - 7 <= c.y < size - 15 + i),
                          SecondFormatCell(version, c) && FormatColor(version, bits, c))
      {
        SetFunctionModule(8, size - 15 + i, Bit(bits, i));
      }
      SetFunctionModule(8, size - 8, true);
    }

    /** `drawFormatBits`: exactly the format cells change, whatever the mask. */
    method DrawFormatBits(msk: Mask)
      requires Valid()
      modifies `modules, `isFunction
      ensures Valid()
      ensures forall c: Cell | InGrid(c, size) ::
                Drawn(old(modules), old(isFunction), modules, isFunction, c, FormatCell(version, c),
                      FormatCell(version, c) && FormatColor(version, FormatBits(errorCorrectionLevel, msk), c))
    {
      hide At, Bit, FormatBits;
      var bits := ComputeFormatBits(errorCorrectionLevel, msk);
      DrawFirstFormatCopy(bits);
      DrawSecondFormatCopy(bits);
    }

    /** `drawVersion` */
    method DrawVersion()
      requires Valid()
      modifies `modules, `isFunction
      ensures Valid()
      ensures forall c: Cell | InGrid(c, size) ::
                Drawn(old(modules), old(isFunction), modules, isFunction, c, VersionCell(version, c),
                      VersionCell(version, c) && VersionColor(version, VersionBits(version), c))
    {
      hide At, Set, Bit, VersionBits;
      if version < 7 {
        return;
      }
      var bits := ComputeVersionBits(version);
      for i := 0 to 18
        invariant Valid()
        invariant forall c: Cell | InGrid(c, size) ::
                    Drawn(old(modules), old(isFunction), modules, isFunction, c,
                          VersionCell(version, c) && VersionIndex(version, c) < i,
                          VersionCell(version, c) && VersionColor(version, bits, c))
      {
        var bit := Bit(bits, i);
        var a := size - 11 + i % 3;
        var b := i / 3;
        SetFunctionModule(a, b, bit);
        SetFunctionModule(b, a, bit);
      }
    }

    /** The alignment patterns of `drawFunctionPatterns`. */
    method DrawAlignmentPatterns()
      requires Valid()
      modifies `modules, `isFunction
      ensures Valid()
      ensures forall c: Cell | InGrid(c, size) ::
                Drawn(old(modules), old(isFunction), modules, isFunction, c,
                      AlignCell(version, c), AlignCellColor(version, c))
    {
      hide At, AlignPosition, AlignCellColor, AlignBefore, AlignColor, AlignCell;
      var alignPatPos := GetAlignmentPatternPositions(version);
      var numAlign := |alignPatPos|;
      NothingBefore(version);
      for i := 0 to numAlign
        invariant Valid()
        invariant forall c: Cell | InGrid(c, size) ::
                    Drawn(old(modules), old(isFunction), modules, isFunction, c,
                          AlignBefore(version, i, 0, c), AlignCellColor(version, c))
      {
        for j := 0 to numAlign
          invariant Valid()
          invariant forall c: Cell | InGrid(c, size) ::
                      Drawn(old(modules), old(isFunction), modules, isFunction, c,
                            AlignBefore(version, i, j, c), AlignCellColor(version, c))
        {
          if !((i == 0 && j == 0) || (i == 0 && j == numAlign - 1) || (i == numAlign - 1 && j == 0)) {
            AlignPositionInside(version, i);
            AlignPositionInside(version, j);
            DrawAlignmentPattern(alignPatPos[i], alignPatPos[j]);
          }
          NextPattern(version, i, j);
        }
        forall c: Cell {
          AlignBeforeRow(version, i, c);
        }
      }
      forall c: Cell {
        AlignBeforeAll(version, c);
      }
    }

    /** `drawFunctionPatterns`: every function cell, and no other, is marked and coloured. */
    method DrawFunctionPatterns()
      requires Valid()
      modifies `modules, `isFunction
      ensures Valid()
      ensures forall c: Cell | InGrid(c, size) ::
                Drawn(old(modules), old(isFunction), modules, isFunction, c,
                      FunctionCell(version, c), PatternColor(version, errorCorrectionLevel, 0, c))
    {
      hide At, AlignCell, AlignCellColor, FinderColor, TimingColor, FormatColor, VersionColor, FormatBits, VersionBits;
      DrawTimingPatterns();
      DrawFinderPattern(3, 3);
      DrawFinderPattern(size - 4, 3);
      DrawFinderPattern(3, size - 4);
      DrawAlignmentPatterns();
      DrawFormatBits(0);
      DrawVersion();
    }

    /** The first i bits of the data are drawn, as many as there are free cells among these. */
    ghost predicate HasDrawn(start: Grid, cells: seq<Cell>, bits: seq<bool>, i: nat)
      reads this
    {
      && Valid() && |start| == size && IsSquare(start, size) && AllInGrid(cells, size)
      && modules == Placed(start, isFunction, cells, bits)
      && i == Min(|FreeCells(isFunction, cells)|, |bits|)
    }

    /** The innermost step of `drawCodewords`: the next bit, unless the cell is not free. */
    method DrawNextBit(c: Cell, data: seq<Byte>, i: nat, ghost start: Grid, ghost cells: seq<Cell>) returns (next: nat)
      requires HasDrawn(start, cells, BytesToBits(data), i) && InGrid(c, size)
      modifies `modules
      ensures HasDrawn(start, cells + [c], BytesToBits(data), next)
    {
      hide At, Set, Placed, FreeCells, BytesToBits, Bit;
      next := i;
      PlaceNext(start, isFunction, cells, c, BytesToBits(data));
      if !At(isFunction, c) && i < 8 * |data| {
        CodewordBit(data, i);
        modules := Set(modules, c, Bit(data[i / 8], 7 - i % 8));
        next := i + 1;
      }
    }

    /** One pair of columns, up or down. */
    method DrawColumnPair(right: int, data: seq<Byte>, i: nat, ghost start: Grid, ghost cells: seq<Cell>)
        returns (next: nat)
      requires HasDrawn(start, cells, BytesToBits(data), i) && AllInGrid(PairCells(size, right), size)
      modifies `modules
      ensures HasDrawn(start, cells + PairCells(size, right), BytesToBits(data), next)
    {
      hide HasDrawn, PairCells, BytesToBits, RowOf;
      next := i;
      ghost var pair := PairCells(size, right);
      assert cells + pair[..0] == cells;
      for vert := 0 to size
        invariant HasDrawn(start, cells + pair[..2 * vert], BytesToBits(data), next)
      {
        for j := 0 to 2
          invariant HasDrawn(start, cells + pair[..2 * vert + j], BytesToBits(data), next)
        {
          NextOfPair(cells, size, right, vert, j);
          var c := Cell(right - j, RowOf(size, right, vert));
          next := DrawNextBit(c, data, next, start, cells + pair[..2 * vert + j]);
        }
      }
      assert pair[..2 * size] == pair;
    }

    /**
     `drawCodewords`: the bits of the codewords lie along the zigzag scan. The size check fails only
     for a wrong number of codewords, the final check only if there is not enough room.
     */
    method DrawCodewords(data: seq<Byte>) returns (r: Result<()>)
      requires Valid()
      modifies `modules
      ensures Valid() && AllInGrid(Scan(size), size)
      ensures |data| != RawCodewords(version) ==> r == Failure(InvalidArgument) && modules == old(modules)
      ensures |data| == RawCodewords(version) ==>
                && modules == Placed(old(modules), isFunction, Scan(size), BytesToBits(data))
                && var room := |FreeCells(isFunction, Scan(size))|;
                   r == if room >= 8 * |data| then Success(()) else Failure(AssertionError)
    {
      hide At, Placed, FreeCells, BytesToBits, PairCells, ScanFrom, RawCodewords;
      ScanInGrid(size);
      if |data| != RawCodewords(version) {
        return Failure(InvalidArgument);
      }
      ghost var done: seq<Cell> := [];
      PlacedNothing(modules, isFunction, BytesToBits(data));
      var i := 0;
      var right := size - 1;
      while right >= 1
        invariant done + ScanFrom(size, right) == Scan(size)
        invariant HasDrawn(old(modules), done, BytesToBits(data), i)
      {
        ScanNext(size, right);
        if right == 6 {
          right := 5;
        }
        ScanSplit(done, PairCells(size, right), ScanFrom(size, right - 2), size);
        i := DrawColumnPair(right, data, i, old(modules), done);
        done := done + PairCells(size, right);
        right := right - 2;
      }
      ScanEnd(size, right, done);
      if i != 8 * |data| {
        return Failure(AssertionError);
      }
      return Success(());
    }

    /** `applyMask` */
    method ApplyMask(msk: int) returns (r: Result<()>)
      requires Valid()
      modifies `modules
      ensures Valid()
      ensures r == if 0 <= msk <= 7 then Success(()) else Failure(MaskOutOfRange)
      ensures modules == if 0 <= msk <= 7 then Masked(old(modules), isFunction, msk) else old(modules)
    {
      hide At, Set, Inverts, Masked;
      if msk < 0 || msk > 7 {
        return Failure(MaskOutOfRange);
      }
      for y := 0 to size
        invariant Valid()
        invariant forall c: Cell | InGrid(c, size) ::
                    At(modules, c)
                    == if c.y < y then MaskedAt(old(modules), isFunction, msk, c) else At(old(modules), c)
      {
        for x := 0 to size
          invariant Valid()
          invariant forall c: Cell | InGrid(c, size) ::
                      At(modules, c)
                      == if c.y < y || (c.y == y && c.x < x) then MaskedAt(old(modules), isFunction, msk, c)
                      else At(old(modules), c)
        {
          var c := Cell(x, y);
          var invert := Inverts(msk, x, y);
          ghost var before := modules;
          modules := Set(modules, c, At(modules, c) != (invert && !At(isFunction, c)));
          forall d: Cell | InGrid(d, size) {
            SetAt(before, c, MaskedAt(old(modules), isFunction, msk, c), d);
          }
        }
      }
      SameCells(modules, Masked(old(modules), isFunction, msk));
      return Success(());
    }

    /** One step of the masking: mask and redraw the format bits. */
    method ApplyMaskAndFormat(msk: Mask, ghost codewords: seq<Byte>, ghost was: Mask)
      requires Valid() && isFunction == FunctionGrid(version)
      requires modules == Unmasked(version, errorCorrectionLevel, codewords, was)
      modifies `modules, `isFunction
      ensures Valid() && isFunction == FunctionGrid(version)
      ensures modules == Symbol(version, errorCorrectionLevel, codewords, msk)
    {
      hide FunctionGrid, Unmasked, Symbol, At, FormatCell, FormatColor, FormatBits;
      var masked := ApplyMask(msk);
      DrawFormatBits(msk);
      FormatRedrawn(version, errorCorrectionLevel, codewords, was, msk, modules, isFunction);
    }

    /** The search for the best mask; it leaves the symbol unmasked. */
    method ChooseMask(ghost codewords: seq<Byte>) returns (msk: int)
      requires Valid() && isFunction == FunctionGrid(version)
      requires modules == Unmasked(version, errorCorrectionLevel, codewords, 0)
      modifies `modules, `isFunction
      ensures Valid() && isFunction == FunctionGrid(version)
      ensures modules == Unmasked(version, errorCorrectionLevel, codewords, 7)
      ensures IsBestMask(version, errorCorrectionLevel, codewords, msk, 8)
    {
      hide FunctionGrid, Unmasked, Symbol, Penalty;
      msk := -1;
      var minPenalty := LONG_MAX;
      ghost var was: Mask := 0;
      for i := 0 to 8
        invariant Valid() && isFunction == FunctionGrid(version)
        invariant was == if i == 0 then 0 else i - 1
        invariant modules == Unmasked(version, errorCorrectionLevel, codewords, was)
        invariant i == 0 ==> minPenalty == LONG_MAX
        invariant i > 0 ==>
                    && IsBestMask(version, errorCorrectionLevel, codewords, msk, i)
                    && minPenalty == Penalty(Symbol(version, errorCorrectionLevel, codewords, msk))
      {
        ApplyMaskAndFormat(i, codewords, was);
        var penalty := GetPenaltyScore(modules);
        PenaltyBound(modules);
        if penalty < minPenalty {
          msk := i;
          minPenalty := penalty;
        }
        SymbolUnmasked(version, errorCorrectionLevel, codewords, i);
        var undone := ApplyMask(i);
        was := i;
      }
    }

    /** The first half of the constructor: function patterns, error correction and codewords. */
    method DrawSymbol(dataCodewords: seq<Byte>) returns (r: Result<()>, ghost codewords: seq<Byte>)
      requires Valid() && modules == isFunction && forall c: Cell | InGrid(c, size) :: !At(modules, c)
      modifies `modules, `isFunction
      ensures Valid()
      ensures r.Failure? ==> r.error == InvalidArgument
      ensures r.Success? <==> |dataCodewords| == NumDataCodewords(version, errorCorrectionLevel)
      ensures r.Success? ==>
                && |codewords| == RawCodewords(version)
                && Interleaving.Holds(codewords, Interleaving.LayoutOf(version, errorCorrectionLevel), dataCodewords)
                && isFunction == FunctionGrid(version)
                && modules == Unmasked(version, errorCorrectionLevel, codewords, 0)
    {
      hide FunctionGrid, PatternGrid, Unmasked, NumDataCodewords, RawCodewords, At, FunctionCell, PatternColor, Scan,
        Placed, FreeCells, BytesToBits, Interleaving.Holds, Interleaving.LayoutOf;
      DrawFunctionPatterns();
      PatternsDrawn(old(modules), modules, isFunction, version, errorCorrectionLevel);
      var all := Interleaving.AddEccAndInterleave(dataCodewords, version, errorCorrectionLevel);
      if all.Failure? {
        return Failure(all.error), [];
      }
      RoomForCodewords(version);
      r := DrawCodewords(all.value);
      codewords := all.value;
      UnmaskedIsPlaced(version, errorCorrectionLevel, codewords, 0);
    }

    /** The second half of the constructor: masking. */
    method FinishMasking(msk: int, ghost codewords: seq<Byte>) returns (r: Result<()>)
      requires Valid() && isFunction == FunctionGrid(version) && -1 <= msk <= 7
      requires modules == Unmasked(version, errorCorrectionLevel, codewords, 0)
      modifies this
      ensures r.Success? && 0 <= mask <= 7
      ensures modules == Symbol(version, errorCorrectionLevel, codewords, mask) && isFunction == []
      ensures if msk == -1 then IsBestMask(version, errorCorrectionLevel, codewords, mask, 8) else mask == msk
    {
      hide FunctionGrid, Unmasked, Symbol, IsBestMask;
      var chosen := msk;
      ghost var was := 0;
      if chosen == -1 {
        chosen := ChooseMask(codewords);
        BestMaskRange(version, errorCorrectionLevel, codewords, chosen);
        was := 7;
      }
      if chosen < 0 || chosen > 7 {
        return Failure(AssertionError);
      }
      mask := chosen;
      ApplyMaskAndFormat(chosen, codewords, was);
      isFunction := [];
      return Success(());
    }

    /**
     The constructor. Its only failures are the argument checks. The symbol is determined by the
     version, the level, the codewords and the mask; an automatic mask has the least penalty, and the
     lowest number of those. The codewords hold the data, with error correction for every block.
     */
    static method Create(ver: int, ecl: Ecc, dataCodewords: seq<Byte>, msk: int)
        returns (r: Result<QrCode>, ghost codewords: seq<Byte>)
      ensures r.Failure? ==> r.error == ConstructorError(ver, msk)
      ensures r.Success?
              <==> MIN_VERSION <= ver <= MAX_VERSION && -1 <= msk <= 7 && |dataCodewords| == NumDataCodewords(ver, ecl)
      ensures r.Success? ==> fresh(r.value) && IsSymbolOf(r.value, ver, ecl, dataCodewords, msk, codewords)
    {
      if ver < MIN_VERSION || ver > MAX_VERSION {
        return Failure(VersionOutOfRange), [];
      }
      if msk < -1 || msk > 7 {
        return Failure(MaskOutOfRange), [];
      }
      hide FunctionGrid, Unmasked, Symbol, IsBestMask, NumDataCodewords, RawCodewords, At,
        Interleaving.Holds, Interleaving.LayoutOf;
      var qr := new QrCode.Blank(ver, ecl);
      var drawn;
      drawn, codewords := qr.DrawSymbol(dataCodewords);
      if drawn.Failure? {
        return Failure(drawn.error), codewords;
      }
      var finished := qr.FinishMasking(msk, codewords);
      r := Success(qr);
    }
  }

  lemma AlignPositionInside(ver: Version, i: nat)
    requires i < NumAlign(ver)
    ensures 2 <= AlignPosition(ver, i) < SizeOf(ver) - 2
  {
    if i > 0 {
      AlignPositionRange(ver, i);
    }
  }

  lemma NothingBefore(ver: Version)
    ensures forall c: Cell :: !AlignBefore(ver, 0, 0, c)
  {}

  lemma NextPattern(ver: Version, i: nat, j: nat)
    requires i < NumAlign(ver) && j < NumAlign(ver)
    ensures forall c: Cell :: AlignBefore(ver, i, j + 1, c) <==> AlignBefore(ver, i, j, c) || InAlign(ver, i, j, c)
    ensures forall c: Cell | InAlign(ver, i, j, c) ::
              AlignCellColor(ver, c) == AlignColor(AlignPosition(ver, i), AlignPosition(ver, j), c)
  {
    forall c: Cell
      ensures AlignBefore(ver, i, j + 1, c) <==> AlignBefore(ver, i, j, c) || InAlign(ver, i, j, c)
      ensures InAlign(ver, i, j, c) ==>
                AlignCellColor(ver, c) == AlignColor(AlignPosition(ver, i), AlignPosition(ver, j), c)
    {
      hide AlignBefore, InAlign, AlignCellColor, AlignColor;
      AlignBeforeNext(ver, i, j, c);
      if InAlign(ver, i, j, c) {
        AlignColorUnique(ver, i, j, c);
      }
    }
  }

  function Min(a: int, b: int): int {
    if a < b then a else b
  }

  lemma ScanInGrid(size: nat)
    requires size % 4 == 1 && size >= 21
    ensures AllInGrid(Scan(size), size)
  {
    ScanExact(size);
  }

  lemma PlacedNothing(m: Grid, f: Grid, bits: seq<bool>)
    requires |m| == |f| && IsSquare(m, |m|) && IsSquare(f, |f|)
    ensures FreeCells(f, []) == [] && Placed(m, f, [], bits) == m
  {}

  lemma ScanNext(size: nat, right: int)
    requires right >= 1
    ensures ScanFrom(size, right) == PairCells(size, SkipTiming(right)) + ScanFrom(size, SkipTiming(right) - 2)
  {}

  lemma ScanEnd(size: nat, right: int, done: seq<Cell>)
    requires right < 1
    ensures done + ScanFrom(size, right) == done
  {}

  lemma ScanSplit(done: seq<Cell>, pair: seq<Cell>, rest: seq<Cell>, size: nat)
    requires AllInGrid(done + (pair + rest), size)
    ensures done + (pair + rest) == done + pair + rest
    ensures AllInGrid(done + pair, size) && AllInGrid(pair, size) && done + pair[..0] == done && pair[..|pair|] == pair
  {
    var all := done + (pair + rest);
    assert all == done + pair + rest;
    forall i | 0 <= i < |pair|
      ensures InGrid(pair[i], size)
    {
      assert pair[i] == all[|done| + i];
    }
    forall i | 0 <= i < |done + pair|
      ensures InGrid((done + pair)[i], size)
    {
      assert (done + pair)[i] == all[i];
    }
  }

  lemma NextOfPair(done: seq<Cell>, size: nat, right: int, vert: nat, j: nat)
    requires vert < size && j < 2
    ensures var pair, k := PairCells(size, right), 2 * vert + j;
            && pair[k] == Cell(right - j, RowOf(size, right, vert))
            && done + pair[..k + 1] == done + pair[..k] + [pair[k]]
  {
    var pair, k := PairCells(size, right), 2 * vert + j;
    assert k % 2 == j && k / 2 == vert;
    assert pair[..k + 1] == pair[..k] + [pair[k]];
  }

  lemma CodewordBit(data: seq<Byte>, i: nat)
    requires i < 8 * |data|
    ensures BytesToBits(data)[i] == Bit(data[i / 8], 7 - i % 8)
  {
    hide BytesToBits, ToBits;
    BytesToBitsAt(data, i / 8, i % 8);
    ToBitsAt(data[i / 8], 8, i % 8);
  }

  function White(n: nat): (g: Grid)
    ensures |g| == n && IsSquare(g, n)
    ensures forall c: Cell | InGrid(c, n) :: !At(g, c)
  {
    seq(n, _ => seq(n, _ => false))
  }

  /** Of the first n masks, this one has the least penalty, and the lower ones have more. */
  ghost predicate IsBestMask(ver: Version, ecl: Ecc, codewords: seq<Byte>, msk: int, n: nat)
    requires n <= 8
  {
    && 0 <= msk < n
    && forall k: Mask | k < n ::
         && Penalty(Symbol(ver, ecl, codewords, msk)) <= Penalty(Symbol(ver, ecl, codewords, k))
         && (k < msk ==> Penalty(Symbol(ver, ecl, codewords, msk)) < Penalty(Symbol(ver, ecl, codewords, k)))
  }

  /** The exception of the constructor for unusable arguments. */
  function ConstructorError(ver: int, msk: int): Error {
    if ver < MIN_VERSION || ver > MAX_VERSION then VersionOutOfRange
    else if msk < -1 || msk > 7 then MaskOutOfRange
    else InvalidArgument
  }

  /** The finished object: fields, modules, choice of the mask, and the codewords in the modules. */
  ghost predicate IsSymbolOf(qr: QrCode, ver: Version, ecl: Ecc, data: seq<Byte>, msk: int, codewords: seq<Byte>)
    reads qr
  {
    && qr.version == ver && qr.errorCorrectionLevel == ecl && 0 <= qr.mask <= 7
    && |codewords| == RawCodewords(ver)
    && Interleaving.Holds(codewords, Interleaving.LayoutOf(ver, ecl), data)
    && qr.modules == Symbol(ver, ecl, codewords, qr.mask)
    && (if msk == -1 then IsBestMask(ver, ecl, codewords, qr.mask, 8) else qr.mask == msk)
  }

  lemma BestMaskRange(ver: Version, ecl: Ecc, codewords: seq<Byte>, msk: int)
    requires IsBestMask(ver, ecl, codewords, msk, 8)
    ensures 0 <= msk <= 7
  {}

  /** Masking the finished symbol again takes the mask off. */
  lemma SymbolUnmasked(ver: Version, ecl: Ecc, codewords: seq<Byte>, msk: Mask)
    ensures Masked(Symbol(ver, ecl, codewords, msk), FunctionGrid(ver), msk) == Unmasked(ver, ecl, codewords, msk)
  {
    hide FunctionGrid, Unmasked, Masked;
    MaskTwice(Unmasked(ver, ecl, codewords, msk), FunctionGrid(ver), msk);
  }

  lemma RoomForCodewords(ver: Version)
    ensures AllInGrid(Scan(SizeOf(ver)), SizeOf(ver))
    ensures |FreeCells(FunctionGrid(ver), Scan(SizeOf(ver)))| >= 8 * RawCodewords(ver)
  {
    hide FunctionGrid, FreeCells, Scan, NumRawDataModules, MarksFunctionCells;
    ScanFits(ver);
    FreeCellCount(FunctionGrid(ver), ver);
  }
}
