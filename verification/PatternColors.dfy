/** The cells that the function patterns of a symbol cover, pattern by pattern, and their colours. */
module PatternColors {
  import opened Arithmetic
  import opened BinaryNumbers
  import opened CapacityTables
  import opened FormatInfo
  import opened Grids
  import opened SymbolGeometry

  /** The Chebyshev distance of a cell from a centre. */
  function Distance(x: int, y: int, c: Cell): nat {
    if Abs(c.x - x) > Abs(c.y - y) then Abs(c.x - x) else Abs(c.y - y)
  }

  predicate InSquare(x: int, y: int, radius: nat, c: Cell) {
    x - radius <= c.x <= x + radius && y - radius <= c.y <= y + radius
  }

  predicate TimingColor(c: Cell) {
    if c.x == 6 then c.y % 2 == 0 else c.x % 2 == 0
  }

  predicate FinderColor(x: int, y: int, c: Cell) {
    Distance(x, y, c) != 2 && Distance(x, y, c) != 4
  }

  predicate AlignColor(x: int, y: int, c: Cell) {
    Distance(x, y, c) != 1
  }

  /** `getBit` */
  predicate Bit(word: nat, i: nat) {
    ShiftRight(word, i) % 2 == 1
  }

  /** The module at a format cell: a bit of the word, or the dark module. */
  predicate FormatColor(ver: Version, word: nat, c: Cell)
    requires FormatCell(ver, c) && InGrid(c, SizeOf(ver))
  {
    var size := SizeOf(ver);
    if c.x == 8 then
      if c.y <= 5 then Bit(word, c.y)
      else if c.y <= 8 then Bit(word, c.y - 1)
      else c.y == size - 8 || Bit(word, c.y - (size - 15))
    else
      if c.x <= 5 then Bit(word, 14 - c.x)
      else if c.x == 7 then Bit(word, 8)
      else Bit(word, size - 1 - c.x)
  }

  predicate FirstFormatCell(c: Cell) {
    (c.x == 8 && c.y <= 8 && c.y != 6) || (c.y == 8 && c.x <= 8 && c.x != 6)
  }

  predicate SecondFormatCell(ver: Version, c: Cell) {
    (c.x == 8 && c.y >= SizeOf(ver) - 8) || (c.y == 8 && c.x >= SizeOf(ver) - 8)
  }

  /** The number of the version bit at a version cell. */
  function VersionIndex(ver: Version, c: Cell): nat
    requires VersionCell(ver, c) && InGrid(c, SizeOf(ver))
  {
    if c.y <= 5 then c.y * 3 + (c.x - (SizeOf(ver) - 11)) else c.x * 3 + (c.y - (SizeOf(ver) - 11))
  }

  /** The module at a version cell. */
  predicate VersionColor(ver: Version, word: nat, c: Cell)
    requires VersionCell(ver, c) && InGrid(c, SizeOf(ver))
  {
    Bit(word, VersionIndex(ver, c))
  }

  /** What drawing does to one cell: inside the region it is coloured and marked, elsewhere it is kept. */
  ghost predicate Drawn(m: Grid, f: Grid, m': Grid, f': Grid, c: Cell, region: bool, color: bool)
    requires |m| == |f| == |m'| == |f'| && InGrid(c, |m|)
    requires IsSquare(m, |m|) && IsSquare(f, |f|) && IsSquare(m', |m'|) && IsSquare(f', |f'|)
  {
    && (At(f', c) <==> At(f, c) || region)
    && (At(m', c) <==> if region then color else At(m, c))
  }

  // Alignment patterns do not overlap, so each of their cells has one colour

  predicate InAlign(ver: Version, i: nat, j: nat, c: Cell) {
    IsAlignPair(ver, i, j) && NearAlign(ver, i, c.x) && NearAlign(ver, j, c.y)
  }

  ghost predicate AlignCellColor(ver: Version, c: Cell) {
    exists i: nat, j: nat | InAlign(ver, i, j, c) :: AlignColor(AlignPosition(ver, i), AlignPosition(ver, j), c)
  }

  lemma NearOneAlign(ver: Version, i: nat, j: nat, v: int)
    requires i < NumAlign(ver) && j < NumAlign(ver) && NearAlign(ver, i, v) && NearAlign(ver, j, v)
    ensures i == j
  {
    hide AlignStep, SizeOf, NumAlign;
    if 0 < i {
      AlignPositionRange(ver, i);
    }
    if 0 < j {
      AlignPositionRange(ver, j);
    }
    if 0 < i < j {
      AlignPositionsApart(ver, i, j);
    } else if 0 < j < i {
      AlignPositionsApart(ver, j, i);
    }
  }

  lemma AlignColorUnique(ver: Version, i: nat, j: nat, c: Cell)
    requires InAlign(ver, i, j, c)
    ensures AlignCell(ver, c)
    ensures AlignCellColor(ver, c) == AlignColor(AlignPosition(ver, i), AlignPosition(ver, j), c)
  {
    hide AlignPosition, NumAlign, NearAlign, AlignColor;
    forall k: nat, l: nat | InAlign(ver, k, l, c)
      ensures k == i && l == j
    {
      NearOneAlign(ver, i, k, c.x);
      NearOneAlign(ver, j, l, c.y);
    }
  }

  /** A cell of one of the alignment patterns drawn before the one at (i, j). */
  ghost predicate AlignBefore(ver: Version, i: nat, j: nat, c: Cell) {
    exists a: nat, b: nat | a < i || (a == i && b < j) :: InAlign(ver, a, b, c)
  }

  lemma AlignBeforeNext(ver: Version, i: nat, j: nat, c: Cell)
    ensures AlignBefore(ver, i, j + 1, c) <==> AlignBefore(ver, i, j, c) || InAlign(ver, i, j, c)
  {
    hide InAlign;
  }

  lemma AlignBeforeRow(ver: Version, i: nat, c: Cell)
    ensures AlignBefore(ver, i, NumAlign(ver), c) <==> AlignBefore(ver, i + 1, 0, c)
  {}

  lemma AlignBeforeAll(ver: Version, c: Cell)
    ensures AlignBefore(ver, NumAlign(ver), 0, c) <==> AlignCell(ver, c)
  {
    hide AlignPosition, NearAlign, NumAlign;
    if AlignCell(ver, c) {
      var i: nat, j: nat :| IsAlignPair(ver, i, j) && NearAlign(ver, i, c.x) && NearAlign(ver, j, c.y);
      assert InAlign(ver, i, j, c);
    }
  }

  /** The colour of every function cell, with the format bits of a level and a mask. */
  ghost predicate PatternColor(ver: Version, ecl: Ecc, msk: Mask, c: Cell)
    requires InGrid(c, SizeOf(ver))
  {
    var size := SizeOf(ver);
    if VersionCell(ver, c) then VersionColor(ver, VersionBits(ver), c)
    else if FormatCell(ver, c) then FormatColor(ver, FormatBits(ecl, msk), c)
    else if AlignCell(ver, c) then AlignCellColor(ver, c)
    else if InSquare(3, size - 4, 4, c) then FinderColor(3, size - 4, c)
    else if InSquare(size - 4, 3, 4, c) then FinderColor(size - 4, 3, c)
    else if InSquare(3, 3, 4, c) then FinderColor(3, 3, c)
    else TimingColor(c)
  }
}
