/**
 The number of cells that hold codeword bits. The function patterns are cut into disjoint rectangles;
 their sizes add up to the formula of `getNumRawDataModules` for every version.
 */
module FunctionCount {
  import opened CapacityTables
  import opened FiniteSets
  import opened Grids
  import opened SymbolGeometry

  // Rectangles

  ghost function Rect(xs: set<int>, ys: set<int>): set<Cell> {
    set x, y | x in xs && y in ys :: Cell(x, y)
  }

  lemma {:induction false} ColumnSize(x: int, ys: set<int>)
    ensures |Rect({x}, ys)| == |ys|
  {
    if ys == {} {
      assert Rect({x}, ys) == {};
    } else {
      var y := Pick(ys);
      ColumnSize(x, ys - {y});
      assert Rect({x}, ys) == Rect({x}, ys - {y}) + {Cell(x, y)};
    }
  }

  lemma Distribute(m: int, n: int)
    ensures (m - 1) * n + n == m * n
  {}

  lemma {:induction false} RectSize(xs: set<int>, ys: set<int>)
    ensures |Rect(xs, ys)| == |xs| * |ys|
  {
    if xs == {} {
      assert Rect(xs, ys) == {};
    } else {
      var x := Pick(xs);
      RectSize(xs - {x}, ys);
      ColumnSize(x, ys);
      assert Rect(xs, ys) == Rect(xs - {x}, ys) + Rect({x}, ys) && Rect(xs - {x}, ys) !! Rect({x}, ys);
      assert |xs - {x}| == |xs| - 1;
      Distribute(|xs|, |ys|);
    }
  }

  lemma IntervalRectSize(x0: int, x1: int, y0: int, y1: int)
    requires x0 <= x1 && y0 <= y1
    ensures |Rect(Interval(x0, x1), Interval(y0, y1))| == (x1 - x0) * (y1 - y0)
  {
    hide Rect, Interval;
    RectSize(Interval(x0, x1), Interval(y0, y1));
    IntervalSize(x0, x1);
    IntervalSize(y0, y1);
  }

  /** A rectangle given by its corner and its sides. */
  lemma BoxSize(x: int, y: int, w: nat, h: nat)
    ensures |Rect(Interval(x, x + w), Interval(y, y + h))| == w * h
  {
    hide Rect, Interval;
    IntervalRectSize(x, x + w, y, y + h);
  }

  // The coordinates covered by alignment patterns 1 .. k

  ghost function AlignSpan(ver: Version, k: nat): set<int>
    requires k < NumAlign(ver) || k == 0
  {
    if k == 0 then {} else AlignSpan(ver, k - 1) + Interval(AlignPosition(ver, k) - 2, AlignPosition(ver, k) + 3)
  }

  ghost predicate NearSome(ver: Version, k: nat, v: int)
    requires k < NumAlign(ver) || k == 0
  {
    exists i: nat | 1 <= i <= k :: NearAlign(ver, i, v)
  }

  lemma {:induction false} AlignSpanMembers(ver: Version, k: nat, v: int)
    requires k < NumAlign(ver) || k == 0
    ensures v in AlignSpan(ver, k) <==> NearSome(ver, k, v)
  {
    hide AlignPosition, NumAlign;
    if k > 0 {
      AlignSpanMembers(ver, k - 1, v);
      if NearSome(ver, k, v) {
        var i: nat :| 1 <= i <= k && NearAlign(ver, i, v);
        if i < k {
          assert NearSome(ver, k - 1, v);
        }
      }
      if NearSome(ver, k - 1, v) {
        var i: nat :| 1 <= i <= k - 1 && NearAlign(ver, i, v);
        assert NearSome(ver, k, v);
      }
      if NearAlign(ver, k, v) {
        assert NearSome(ver, k, v);
      }
    }
  }

  lemma SpanBelow(ver: Version, k: nat, v: int)
    requires 1 <= k < NumAlign(ver) && v in AlignSpan(ver, k - 1)
    ensures v < AlignPosition(ver, k) - 2
  {
    hide AlignPosition, NumAlign, AlignSpan;
    AlignSpanMembers(ver, k - 1, v);
    var i: nat :| 1 <= i <= k - 1 && NearAlign(ver, i, v);
    AlignPositionsApart(ver, i, k);
  }

  lemma AlignSpanNext(ver: Version, k: nat)
    requires k < NumAlign(ver) || k == 0
    ensures k == 0 ==> AlignSpan(ver, k) == {}
    ensures k > 0 ==>
              AlignSpan(ver, k)
              == AlignSpan(ver, k - 1) + Interval(AlignPosition(ver, k) - 2, AlignPosition(ver, k) + 3)
  {}

  lemma {:induction false} AlignSpanSize(ver: Version, k: nat)
    requires k < NumAlign(ver) || k == 0
    ensures |AlignSpan(ver, k)| == 5 * k
  {
    hide AlignSpan, AlignPosition, NumAlign, Interval;
    AlignSpanNext(ver, k);
    if k > 0 {
      var p := AlignPosition(ver, k);
      AlignSpanSize(ver, k - 1);
      IntervalSize(p - 2, p + 3);
      var before := AlignSpan(ver, k - 1);
      forall v | v in before
        ensures v < p - 2
      {
        SpanBelow(ver, k, v);
      }
      SplitByBound(before, Interval(p - 2, p + 3), p - 2);
    }
  }

  /** Spans keep away from the corners; all but the last also from the version bits. */
  lemma AlignSpanRange(ver: Version, k: nat, v: int)
    requires k < NumAlign(ver) && v in AlignSpan(ver, k)
    ensures 16 <= v <= SizeOf(ver) - 5
    ensures k < NumAlign(ver) - 1 ==> v <= SizeOf(ver) - 21
  {
    hide AlignPosition, NumAlign;
    AlignSpanMembers(ver, k, v);
    var i: nat :| 1 <= i <= k && NearAlign(ver, i, v);
    AlignPositionRange(ver, i);
  }

  // The pieces

  ghost function Corners(ver: Version): set<Cell> {
    var s := SizeOf(ver);
    Rect(Interval(0, 9), Interval(0, 9)) + Rect(Interval(s - 8, s), Interval(0, 9))
    + Rect(Interval(0, 9), Interval(s - 8, s))
  }

  ghost predicate InCorners(ver: Version, c: Cell) {
    var s := SizeOf(ver);
    || (0 <= c.x < 9 && 0 <= c.y < 9)
    || (s - 8 <= c.x < s && 0 <= c.y < 9)
    || (0 <= c.x < 9 && s - 8 <= c.y < s)
  }

  lemma RectMembers(xs: set<int>, ys: set<int>, c: Cell)
    ensures c in Rect(xs, ys) <==> c.x in xs && c.y in ys
  {
    assert c == Cell(c.x, c.y);
  }

  lemma IntervalRectMembers(x0: int, x1: int, y0: int, y1: int, c: Cell)
    ensures c in Rect(Interval(x0, x1), Interval(y0, y1)) <==> x0 <= c.x < x1 && y0 <= c.y < y1
  {
    hide Rect;
    RectMembers(Interval(x0, x1), Interval(y0, y1), c);
  }

  lemma CornersMembers(ver: Version, c: Cell)
    ensures c in Corners(ver) <==> InCorners(ver, c)
  {
    hide Rect, Interval;
    var s := SizeOf(ver);
    IntervalRectMembers(0, 9, 0, 9, c);
    IntervalRectMembers(s - 8, s, 0, 9, c);
    IntervalRectMembers(0, 9, s - 8, s, c);
  }

  /** Two pieces without a common cell. */
  lemma PiecesAdd(a: set<Cell>, b: set<Cell>)
    requires forall c :: c in a ==> c !in b
    ensures |a + b| == |a| + |b|
  {
    forall c: Cell | c in a
      ensures c !in b
    {
    }
    UnionSize(a, b);
  }

  lemma CornersSize(ver: Version)
    ensures |Corners(ver)| == 225
  {
    hide Rect, Interval;
    var s := SizeOf(ver);
    var a, b := Rect(Interval(0, 9), Interval(0, 9)), Rect(Interval(s - 8, s), Interval(0, 9));
    var d := Rect(Interval(0, 9), Interval(s - 8, s));
    BoxSize(0, 0, 9, 9);
    BoxSize(s - 8, 0, 8, 9);
    BoxSize(0, s - 8, 9, 8);
    forall c: Cell
      ensures c in a ==> c !in b
      ensures c in a + b ==> c !in d
    {
      IntervalRectMembers(0, 9, 0, 9, c);
      IntervalRectMembers(s - 8, s, 0, 9, c);
      IntervalRectMembers(0, 9, s - 8, s, c);
    }
    PiecesAdd(a, b);
    PiecesAdd(a + b, d);
  }

  /** The timing patterns between the corners. */
  ghost function TimingPart(ver: Version): set<Cell> {
    var s := SizeOf(ver);
    Rect(Interval(9, s - 8), Interval(6, 7)) + Rect(Interval(6, 7), Interval(9, s - 8))
  }

  lemma TimingMembers(ver: Version, c: Cell)
    ensures c in TimingPart(ver) <==>
            (9 <= c.x < SizeOf(ver) - 8 && c.y == 6) || (c.x == 6 && 9 <= c.y < SizeOf(ver) - 8)
  {
    hide Rect, Interval;
    var s := SizeOf(ver);
    IntervalRectMembers(9, s - 8, 6, 7, c);
    IntervalRectMembers(6, 7, 9, s - 8, c);
  }

  lemma TimingSize(ver: Version)
    ensures |TimingPart(ver)| == 2 * (SizeOf(ver) - 17)
  {
    hide Rect, Interval;
    var s := SizeOf(ver);
    var a, b := Rect(Interval(9, s - 8), Interval(6, 7)), Rect(Interval(6, 7), Interval(9, s - 8));
    BoxSize(9, 6, s - 17, 1);
    BoxSize(6, 9, 1, s - 17);
    forall c: Cell
      ensures c in a ==> c !in b
    {
      IntervalRectMembers(9, s - 8, 6, 7, c);
      IntervalRectMembers(6, 7, 9, s - 8, c);
    }
    PiecesAdd(a, b);
  }

  ghost function VersionPart(ver: Version): set<Cell> {
    var s := SizeOf(ver);
    if ver < 7 then {}
    else Rect(Interval(s - 11, s - 8), Interval(0, 6)) + Rect(Interval(0, 6), Interval(s - 11, s - 8))
  }

  lemma VersionMembers(ver: Version, c: Cell)
    ensures c in VersionPart(ver) <==> c.x >= 0 && c.y >= 0 && VersionCell(ver, c)
  {
    hide Rect, Interval;
    var s := SizeOf(ver);
    IntervalRectMembers(s - 11, s - 8, 0, 6, c);
    IntervalRectMembers(0, 6, s - 11, s - 8, c);
  }

  lemma VersionSize(ver: Version)
    ensures |VersionPart(ver)| == if ver < 7 then 0 else 36
  {
    hide Rect, Interval;
    if ver >= 7 {
      var s := SizeOf(ver);
      var a, b := Rect(Interval(s - 11, s - 8), Interval(0, 6)), Rect(Interval(0, 6), Interval(s - 11, s - 8));
      IntervalRectSize(s - 11, s - 8, 0, 6);
      IntervalRectSize(0, 6, s - 11, s - 8);
      forall c: Cell
        ensures c in a ==> c !in b
      {
        IntervalRectMembers(s - 11, s - 8, 0, 6, c);
        IntervalRectMembers(0, 6, s - 11, s - 8, c);
      }
      PiecesAdd(a, b);
    }
  }

  // The alignment patterns: those away from the timing patterns, then the two families across them

  /** The last alignment index, and the last one drawn across a timing pattern. */
  function LastAlign(ver: Version): nat {
    if ver == 1 then 0 else NumAlign(ver) - 1
  }

  function LastCrossing(ver: Version): nat {
    if ver == 1 then 0 else NumAlign(ver) - 2
  }

  ghost function Beside6(): set<int> {
    {4, 5, 7, 8}
  }

  ghost function InnerAlign(ver: Version): set<Cell> {
    Rect(AlignSpan(ver, LastAlign(ver)), AlignSpan(ver, LastAlign(ver)))
  }

  ghost function AlignPart(ver: Version): set<Cell> {
    var across := AlignSpan(ver, LastCrossing(ver));
    InnerAlign(ver) + Rect(across, Beside6()) + Rect(Beside6(), across)
  }

  lemma InnerSize(ver: Version)
    ensures |InnerAlign(ver)| == 25 * LastAlign(ver) * LastAlign(ver)
  {
    hide Rect, AlignSpan, NumAlign;
    var n := LastAlign(ver);
    AlignSpanSize(ver, n);
    RectSize(AlignSpan(ver, n), AlignSpan(ver, n));
    assert (5 * n) * (5 * n) == 25 * n * n;
  }

  lemma CrossingSize(ver: Version)
    ensures |Rect(AlignSpan(ver, LastCrossing(ver)), Beside6())| == 20 * LastCrossing(ver)
    ensures |Rect(Beside6(), AlignSpan(ver, LastCrossing(ver)))| == 20 * LastCrossing(ver)
  {
    hide Rect, AlignSpan, NumAlign;
    var across := AlignSpan(ver, LastCrossing(ver));
    AlignSpanSize(ver, LastCrossing(ver));
    RectSize(across, Beside6());
    RectSize(Beside6(), across);
    assert |Beside6()| == 4;
  }

  lemma AlignSize(ver: Version)
    ensures |AlignPart(ver)| == 25 * LastAlign(ver) * LastAlign(ver) + 40 * LastCrossing(ver)
  {
    hide Rect, AlignSpan, NumAlign;
    var inner, across := AlignSpan(ver, LastAlign(ver)), AlignSpan(ver, LastCrossing(ver));
    InnerSize(ver);
    CrossingSize(ver);
    var a, b, d := InnerAlign(ver), Rect(across, Beside6()), Rect(Beside6(), across);
    forall c: Cell
      ensures c in a ==> c !in b
      ensures c in a + b ==> c !in d
    {
      RectMembers(inner, inner, c);
      RectMembers(across, Beside6(), c);
      RectMembers(Beside6(), across, c);
      SpanRanges(ver, c.x);
      SpanRanges(ver, c.y);
    }
    PiecesAdd(a, b);
    PiecesAdd(a + b, d);
  }

  lemma SpanRanges(ver: Version, v: int)
    ensures v in AlignSpan(ver, LastAlign(ver)) ==> 16 <= v <= SizeOf(ver) - 5
    ensures v in AlignSpan(ver, LastCrossing(ver)) ==> 16 <= v <= SizeOf(ver) - 21
  {
    if ver == 1 {
      assert AlignSpan(ver, 0) == {};
    } else {
      hide NumAlign, AlignSpan;
      AlignStepSound(ver);
      if v in AlignSpan(ver, LastAlign(ver)) {
        AlignSpanRange(ver, LastAlign(ver), v);
      }
      if v in AlignSpan(ver, LastCrossing(ver)) {
        AlignSpanRange(ver, LastCrossing(ver), v);
      }
    }
  }

  ghost function Pieces(ver: Version): set<Cell> {
    Corners(ver) + TimingPart(ver) + VersionPart(ver) + AlignPart(ver)
  }

  lemma AlignPartMembers(ver: Version, c: Cell)
    ensures var inner, across := AlignSpan(ver, LastAlign(ver)), AlignSpan(ver, LastCrossing(ver));
            c in AlignPart(ver) <==>
            (c.x in inner && c.y in inner) || (c.x in across && c.y in Beside6()) || (c.x in Beside6() && c.y in across)
  {
    hide Rect, AlignSpan, Beside6;
    var inner, across := AlignSpan(ver, LastAlign(ver)), AlignSpan(ver, LastCrossing(ver));
    RectMembers(inner, inner, c);
    RectMembers(across, Beside6(), c);
    RectMembers(Beside6(), across, c);
  }

  lemma PiecesDisjoint(ver: Version, c: Cell)
    ensures c in Corners(ver) ==> c !in TimingPart(ver)
    ensures c in Corners(ver) + TimingPart(ver) ==> c !in VersionPart(ver)
    ensures c in Corners(ver) + TimingPart(ver) + VersionPart(ver) ==> c !in AlignPart(ver)
  {
    hide Corners, TimingPart, VersionPart, AlignPart, AlignSpan, NumAlign;
    CornersMembers(ver, c);
    TimingMembers(ver, c);
    VersionMembers(ver, c);
    AlignPartMembers(ver, c);
    SpanRanges(ver, c.x);
    SpanRanges(ver, c.y);
  }

  lemma PiecesSize(ver: Version)
    ensures |Pieces(ver)| == 225 + 2 * (SizeOf(ver) - 17) + (if ver < 7 then 0 else 36)
                             + 25 * LastAlign(ver) * LastAlign(ver) + 40 * LastCrossing(ver)
  {
    hide Corners, TimingPart, VersionPart, AlignPart, LastAlign, LastCrossing;
    CornersSize(ver);
    TimingSize(ver);
    VersionSize(ver);
    AlignSize(ver);
    forall c: Cell
      ensures c in Corners(ver) ==> c !in TimingPart(ver)
      ensures c in Corners(ver) + TimingPart(ver) ==> c !in VersionPart(ver)
      ensures c in Corners(ver) + TimingPart(ver) + VersionPart(ver) ==> c !in AlignPart(ver)
    {
      PiecesDisjoint(ver, c);
    }
    PiecesAdd(Corners(ver), TimingPart(ver));
    PiecesAdd(Corners(ver) + TimingPart(ver), VersionPart(ver));
    PiecesAdd(Corners(ver) + TimingPart(ver) + VersionPart(ver), AlignPart(ver));
  }

  // The pieces are the function cells

  lemma AlignCellIsPiece(ver: Version, c: Cell)
    requires InGrid(c, SizeOf(ver)) && AlignCell(ver, c)
    ensures c in Pieces(ver)
  {
    hide Corners, TimingPart, VersionPart, AlignPart, AlignSpan, NumAlign, AlignPosition;
    var i: nat, j: nat :| IsAlignPair(ver, i, j) && NearAlign(ver, i, c.x) && NearAlign(ver, j, c.y);
    AlignPartMembers(ver, c);
    TimingMembers(ver, c);
    PairSpans(ver, i, j, c);
    SpanRanges(ver, c.x);
    SpanRanges(ver, c.y);
  }

  /** An alignment pattern is inside, or crosses a timing pattern at 6. */
  lemma PairSpans(ver: Version, i: nat, j: nat, c: Cell)
    requires IsAlignPair(ver, i, j) && NearAlign(ver, i, c.x) && NearAlign(ver, j, c.y)
    ensures || (c.x in AlignSpan(ver, LastAlign(ver)) && c.y in AlignSpan(ver, LastAlign(ver)))
            || (c.x in AlignSpan(ver, LastCrossing(ver)) && 4 <= c.y <= 8)
            || (4 <= c.x <= 8 && c.y in AlignSpan(ver, LastCrossing(ver)))
  {
    hide AlignSpan, AlignStep;
    AlignSpanMembers(ver, LastAlign(ver), c.x);
    AlignSpanMembers(ver, LastAlign(ver), c.y);
    AlignSpanMembers(ver, LastCrossing(ver), c.x);
    AlignSpanMembers(ver, LastCrossing(ver), c.y);
    if i >= 1 && j >= 1 {
      assert NearSome(ver, LastAlign(ver), c.x) && NearSome(ver, LastAlign(ver), c.y);
    } else if j == 0 {
      assert NearSome(ver, LastCrossing(ver), c.x);
    } else {
      assert NearSome(ver, LastCrossing(ver), c.y);
    }
  }

  lemma AlignPieceIsCell(ver: Version, c: Cell)
    requires c in AlignPart(ver)
    ensures AlignCell(ver, c) && InGrid(c, SizeOf(ver))
  {
    hide AlignSpan, AlignStep, AlignPart;
    AlignPartMembers(ver, c);
    SpanRanges(ver, c.x);
    SpanRanges(ver, c.y);
    AlignSpanMembers(ver, LastAlign(ver), c.x);
    AlignSpanMembers(ver, LastAlign(ver), c.y);
    AlignSpanMembers(ver, LastCrossing(ver), c.x);
    AlignSpanMembers(ver, LastCrossing(ver), c.y);
    if c.x in AlignSpan(ver, LastAlign(ver)) && c.y in AlignSpan(ver, LastAlign(ver)) {
      var i: nat :| 1 <= i <= LastAlign(ver) && NearAlign(ver, i, c.x);
      var j: nat :| 1 <= j <= LastAlign(ver) && NearAlign(ver, j, c.y);
      assert IsAlignPair(ver, i, j);
    } else if c.y in Beside6() {
      var i: nat :| 1 <= i <= LastCrossing(ver) && NearAlign(ver, i, c.x);
      assert IsAlignPair(ver, i, 0) && NearAlign(ver, 0, c.y);
    } else {
      var j: nat :| 1 <= j <= LastCrossing(ver) && NearAlign(ver, j, c.y);
      assert IsAlignPair(ver, 0, j) && NearAlign(ver, 0, c.x);
    }
  }

  lemma PiecesAreFunctionCells(ver: Version, c: Cell)
    ensures c in Pieces(ver) <==> InGrid(c, SizeOf(ver)) && FunctionCell(ver, c)
  {
    hide Corners, TimingPart, VersionPart, AlignPart, AlignCell;
    CornersMembers(ver, c);
    TimingMembers(ver, c);
    VersionMembers(ver, c);
    if c in AlignPart(ver) {
      AlignPieceIsCell(ver, c);
    }
    if InGrid(c, SizeOf(ver)) && AlignCell(ver, c) {
      AlignCellIsPiece(ver, c);
    }
  }

  lemma AlignFormula(n: int)
    ensures 25 * (n - 1) * (n - 1) + 40 * (n - 2) == (25 * n - 10) * n - 55
  {}

  lemma SizeFormula(v: int)
    ensures (v * 4 + 17) * (v * 4 + 17) == (16 * v + 128) * v + 64 + 225 + 2 * (v * 4)
  {}

  /** The formula of `getNumRawDataModules` is what the function patterns leave free. */
  lemma PiecesMatchFormula(ver: Version)
    ensures |Pieces(ver)| == SizeOf(ver) * SizeOf(ver) - NumRawDataModules(ver)
  {
    hide Pieces;
    PiecesSize(ver);
    SizeFormula(ver);
    AlignFormula(NumAlign(ver));
  }
}
