/**
 Placing codeword bits along the zigzag scan, skipping function cells. Reading the same way recovers
 the bits, and in a symbol of any version there are exactly as many free cells as the capacity formula says.
 */
module CodewordArea {
  import opened CapacityTables
  import opened FiniteSets
  import opened FunctionCount
  import opened Grids
  import opened Sequences
  import opened SymbolGeometry
  import opened Zigzag

  /** The cells that are not function cells, in order. */
  function FreeCells(f: Grid, cells: seq<Cell>): (free: seq<Cell>)
    requires IsSquare(f, |f|) && AllInGrid(cells, |f|)
    ensures AllInGrid(free, |f|) && |free| <= |cells|
  {
    if |cells| == 0 then []
    else
      var n := |cells| - 1;
      FreeCells(f, cells[..n]) + (if At(f, cells[n]) then [] else [cells[n]])
  }

  lemma {:induction false} FreeCellsMembers(f: Grid, cells: seq<Cell>, c: Cell)
    requires IsSquare(f, |f|) && AllInGrid(cells, |f|) && InGrid(c, |f|)
    ensures c in FreeCells(f, cells) <==> c in cells && !At(f, c)
  {
    hide At;
    if |cells| > 0 {
      var n := |cells| - 1;
      FreeCellsMembers(f, cells[..n], c);
      assert cells == cells[..n] + [cells[n]];
    }
  }

  lemma {:induction false} FreeCellsDistinct(f: Grid, cells: seq<Cell>)
    requires IsSquare(f, |f|) && AllInGrid(cells, |f|) && NoRepeats(cells)
    ensures NoRepeats(FreeCells(f, cells))
  {
    hide At;
    if |cells| > 0 {
      var n := |cells| - 1;
      var before := FreeCells(f, cells[..n]);
      FreeCellsDistinct(f, cells[..n]);
      forall i | 0 <= i < |before|
        ensures before[i] != cells[n]
      {
        FreeCellsMembers(f, cells[..n], before[i]);
      }
    }
  }

  // Placing bits

  /** The first bits written to the first free cells, as many as both allow. */
  function Placed(m: Grid, f: Grid, cells: seq<Cell>, bits: seq<bool>): (h: Grid)
    requires |m| == |f| && IsSquare(m, |m|) && IsSquare(f, |f|) && AllInGrid(cells, |f|)
    ensures |h| == |m| && IsSquare(h, |h|)
  {
    var free := FreeCells(f, cells);
    var k := if |free| < |bits| then |free| else |bits|;
    Write(m, free[..k], bits[..k])
  }

  lemma PlaceNext(m: Grid, f: Grid, cells: seq<Cell>, c: Cell, bits: seq<bool>)
    requires |m| == |f| && IsSquare(m, |m|) && IsSquare(f, |f|) && AllInGrid(cells, |f|) && InGrid(c, |f|)
    ensures AllInGrid(cells + [c], |f|)
    ensures var before, i := Placed(m, f, cells, bits), |FreeCells(f, cells)|;
            && FreeCells(f, cells + [c]) == FreeCells(f, cells) + (if At(f, c) then [] else [c])
            && Placed(m, f, cells + [c], bits) == if !At(f, c) && i < |bits| then Set(before, c, bits[i]) else before
  {
    hide At, Set, FreeCells, Write, IsSquare, AllInGrid;
    FreeCellsSnoc(f, cells, c);
    var free, i := FreeCells(f, cells), |FreeCells(f, cells)|;
    if !At(f, c) && i < |bits| {
      WriteSnoc(m, free, bits[..i], c, bits[i]);
      PrefixNext(free, c);
      PrefixSplit(bits, i);
    } else if !At(f, c) {
      SliceAppend(free, [c], |bits|);
    } else {
      AppendNothing(free);
    }
  }

  lemma FreeCellsSnoc(f: Grid, cells: seq<Cell>, c: Cell)
    requires IsSquare(f, |f|) && AllInGrid(cells, |f|) && InGrid(c, |f|)
    ensures AllInGrid(cells + [c], |f|)
    ensures FreeCells(f, cells + [c]) == FreeCells(f, cells) + (if At(f, c) then [] else [c])
  {
    assert (cells + [c])[..|cells|] == cells;
  }

  /** Reading along the scan gives the bits back; every other cell keeps its value. */
  lemma PlacedReadable(m: Grid, f: Grid, cells: seq<Cell>, bits: seq<bool>)
    requires |m| == |f| && IsSquare(m, |m|) && IsSquare(f, |f|) && AllInGrid(cells, |f|) && NoRepeats(cells)
    requires |bits| <= |FreeCells(f, cells)|
    ensures Read(Placed(m, f, cells, bits), FreeCells(f, cells)[..|bits|]) == bits
    ensures forall c: Cell | InGrid(c, |m|) && c !in FreeCells(f, cells)[..|bits|] ::
              At(Placed(m, f, cells, bits), c) == At(m, c)
  {
    hide At, Write, Read, FreeCells;
    var free := FreeCells(f, cells)[..|bits|];
    FreeCellsDistinct(f, cells);
    ReadWrite(m, free, bits);
    assert bits[..|bits|] == bits;
    forall c: Cell | InGrid(c, |m|) && c !in free
      ensures At(Placed(m, f, cells, bits), c) == At(m, c)
    {
      WriteElsewhere(m, free, bits, c);
    }
  }

  // Counting the free cells of a symbol

  ghost predicate MarksFunctionCells(f: Grid, ver: Version) {
    && |f| == SizeOf(ver) && IsSquare(f, |f|)
    && forall c: Cell | InGrid(c, |f|) :: At(f, c) <==> FunctionCell(ver, c)
  }

  ghost function Elements(cells: seq<Cell>): set<Cell> {
    set c | c in cells
  }

  lemma {:induction false} ElementsSize(cells: seq<Cell>)
    requires NoRepeats(cells)
    ensures |Elements(cells)| == |cells|
  {
    if |cells| > 0 {
      var n := |cells| - 1;
      ElementsSize(cells[..n]);
      assert Elements(cells) == Elements(cells[..n]) + {cells[n]};
    }
  }

  lemma DifferenceSize(a: set<Cell>, b: set<Cell>)
    requires b <= a
    ensures |a - b| == |a| - |b|
  {}

  /** The scan of every version has exactly `getNumRawDataModules` free cells. */
  lemma FreeCellCount(f: Grid, ver: Version)
    requires MarksFunctionCells(f, ver)
    ensures AllInGrid(Scan(SizeOf(ver)), |f|)
    ensures |FreeCells(f, Scan(SizeOf(ver)))| == NumRawDataModules(ver)
  {
    hide At, FreeCells, Scan, Pieces, FunctionCell, NumRawDataModules, Rect;
    var s := SizeOf(ver);
    ScanExact(s);
    var free := FreeCells(f, Scan(s));
    FreeCellsDistinct(f, Scan(s));
    ElementsSize(free);
    var grid := Rect(Interval(0, s), Interval(0, s));
    IntervalRectSize(0, s, 0, s);
    forall c: Cell
      ensures c in grid <==> InGrid(c, s)
      ensures c in Pieces(ver) ==> c in grid
      ensures c in Elements(free) <==> c in grid - Pieces(ver)
    {
      IntervalRectMembers(0, s, 0, s, c);
      PiecesAreFunctionCells(ver, c);
      if InGrid(c, s) {
        FreeCellsMembers(f, Scan(s), c);
        Column6IsFunction(ver, c);
      }
    }
    assert Elements(free) == grid - Pieces(ver);
    DifferenceSize(grid, Pieces(ver));
    PiecesMatchFormula(ver);
  }

  lemma Column6IsFunction(ver: Version, c: Cell)
    ensures c.x == 6 ==> FunctionCell(ver, c)
  {}
}
