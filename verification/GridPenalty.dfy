/** The penalty score of a symbol. */
module GridPenalty {
  import opened Arithmetic
  import opened FiniteSets
  import opened FunctionCount
  import opened Grids
  import opened LinePenalty
  import opened RunLengths

  const PENALTY_N2 := 3
  const PENALTY_N4 := 10
  /** The least value of LONG_MAX that C++ allows. */
  const LONG_MAX := 0x7FFF_FFFF

  function Column(m: Grid, x: nat): (line: seq<bool>)
    requires IsSquare(m, |m|) && x < |m|
    ensures |line| == |m|
  {
    seq(|m|, y requires 0 <= y < |m| => m[y][x])
  }

  function RowScore(m: Grid, n: nat): nat
    requires n <= |m|
  {
    if n == 0 then 0 else RowScore(m, n - 1) + LineScore(m[n - 1])
  }

  function ColumnScore(m: Grid, n: nat): nat
    requires IsSquare(m, |m|) && n <= |m|
  {
    if n == 0 then 0 else ColumnScore(m, n - 1) + LineScore(Column(m, n - 1))
  }

  predicate SameColors(m: Grid, c: Cell)
    requires IsSquare(m, |m|) && |m| > 0 && InGrid(c, |m| - 1)
  {
    m[c.y][c.x] == m[c.y][c.x + 1] == m[c.y + 1][c.x] == m[c.y + 1][c.x + 1]
  }

  /** The cell is the top left corner of four modules of one colour. */
  predicate IsUniform(m: Grid, c: Cell)
    requires IsSquare(m, |m|) && |m| > 0
  {
    InGrid(c, |m| - 1) && SameColors(m, c)
  }

  ghost function UniformSquares(m: Grid): set<Cell>
    requires IsSquare(m, |m|) && |m| > 0
  {
    set x, y | 0 <= x < |m| && 0 <= y < |m| && IsUniform(m, Cell(x, y)) :: Cell(x, y)
  }

  ghost function BlackCells(m: Grid): set<Cell>
    requires IsSquare(m, |m|)
  {
    set x, y | 0 <= x < |m| && 0 <= y < |m| && At(m, Cell(x, y)) :: Cell(x, y)
  }

  // Balance of black and white

  /** The share of black modules is between (45 - 5k)% and (55 + 5k)%. */
  predicate InBand(black: nat, total: nat, k: int) {
    (45 - 5 * k) * total <= 100 * black <= (55 + 5 * k) * total
  }

  function Balance(black: nat, total: nat): int
    requires total > 0
  {
    (Abs(black * 20 - total * 10) + total - 1) / total - 1
  }

  lemma DividedUp(d: nat, t: nat, q: int)
    requires t > 0 && q == (d + t - 1) / t
    ensures (q - 1) * t < d <= q * t
  {
    var a := d + t - 1;
    assert a == a / t * t + a % t;
    assert (q - 1) * t == q * t - t;
  }

  lemma BandMeans(black: nat, total: nat, k: int)
    ensures InBand(black, total, k) <==> Abs(black * 20 - total * 10) <= (k + 1) * total
  {
    assert (45 - 5 * k) * total == 50 * total - 5 * ((k + 1) * total);
    assert (55 + 5 * k) * total == 50 * total + 5 * ((k + 1) * total);
  }

  /** The level is the least k >= 0 whose band holds the share of black modules, as the total is odd. */
  lemma BalanceIsLeast(black: nat, total: nat)
    requires total % 2 == 1 && black <= total
    ensures 0 <= Balance(black, total) <= 9
    ensures InBand(black, total, Balance(black, total))
    ensures forall k | 0 <= k < Balance(black, total) :: !InBand(black, total, k)
  {
    var d := Abs(black * 20 - total * 10);
    assert d > 0 by {
      assert black * 20 - total * 10 == 10 * (2 * black - total);
    }
    var level := Balance(black, total);
    assert level + 1 == (d + total - 1) / total;
    DividedUp(d, total, level + 1);
    BandMeans(black, total, level);
    if level < 0 {
      ProductAtMost(level + 1, 0, total);
    }
    if level > 9 {
      ProductAtMost(10, level, total);
    }
    forall k | 0 <= k < level
      ensures !InBand(black, total, k)
    {
      BandMeans(black, total, k);
      ProductAtMost(k + 1, level, total);
    }
  }

  ghost function Penalty(m: Grid): int
    requires IsSquare(m, |m|) && |m| > 0
  {
    RowScore(m, |m|) + ColumnScore(m, |m|) + PENALTY_N2 * |UniformSquares(m)|
    + PENALTY_N4 * Balance(|BlackCells(m)|, |m| * |m|)
  }

  // Computing it

  method CountUniformSquares(m: Grid) returns (count: nat)
    requires IsSquare(m, |m|) && |m| > 0
    ensures count == |UniformSquares(m)|
  {
    hide SameColors;
    ghost var found: set<Cell> := {};
    count := 0;
    for y := 0 to |m| - 1
      invariant count == |found|
      invariant forall c: Cell :: c in found <==> IsUniform(m, c) && c.y < y
    {
      for x := 0 to |m| - 1
        invariant count == |found|
        invariant forall c: Cell :: c in found <==> IsUniform(m, c) && (c.y < y || (c.y == y && c.x < x))
      {
        SameColorsMeans(m, x, y);
        if m[y][x] == m[y][x + 1] && m[y][x] == m[y + 1][x] && m[y][x] == m[y + 1][x + 1] {
          found := found + {Cell(x, y)};
          count := count + 1;
        }
      }
    }
    assert found == UniformSquares(m);
  }

  lemma SameColorsMeans(m: Grid, x: nat, y: nat)
    requires IsSquare(m, |m|) && x < |m| - 1 && y < |m| - 1
    ensures SameColors(m, Cell(x, y))
            <==> m[y][x] == m[y][x + 1] && m[y][x] == m[y + 1][x] && m[y][x] == m[y + 1][x + 1]
  {}

  method CountBlack(m: Grid) returns (black: nat)
    requires IsSquare(m, |m|)
    ensures black == |BlackCells(m)|
  {
    ghost var found: set<Cell> := {};
    black := 0;
    for y := 0 to |m|
      invariant black == |found|
      invariant forall c: Cell :: c in found <==> InGrid(c, |m|) && At(m, c) && c.y < y
    {
      for x := 0 to |m|
        invariant black == |found|
        invariant forall c: Cell :: c in found <==> InGrid(c, |m|) && At(m, c) && (c.y < y || (c.y == y && c.x < x))
      {
        if m[y][x] {
          found := found + {Cell(x, y)};
          black := black + 1;
        }
      }
    }
    assert found == BlackCells(m);
  }

  /** `getPenaltyScore` */
  method GetPenaltyScore(m: Grid) returns (result: int)
    requires IsSquare(m, |m|) && |m| > 0
    ensures result == Penalty(m)
  {
    hide LineScore, IsSquare;
    var size := |m|;
    result := 0;
    for y := 0 to size
      invariant result == RowScore(m, y)
    {
      RowIsLine(m, y);
      var score := ScoreLine(m[y]);
      result := result + score;
    }
    for x := 0 to size
      invariant result == RowScore(m, size) + ColumnScore(m, x)
    {
      var score := ScoreLine(Column(m, x));
      result := result + score;
    }
    var squares := CountUniformSquares(m);
    result := result + squares * PENALTY_N2;
    var black := CountBlack(m);
    var total := size * size;
    TotalPositive(size);
    var k := (Abs(black * 20 - total * 10) + total - 1) / total - 1;
    result := result + k * PENALTY_N4;
  }

  lemma RowIsLine(m: Grid, y: nat)
    requires IsSquare(m, |m|) && y < |m|
    ensures |m[y]| == |m|
  {}

  lemma TotalPositive(n: nat)
    requires n > 0
    ensures n * n > 0
  {}

  // It is small enough to be compared with LONG_MAX

  lemma {:induction false} FinderCountBound(runs: seq<nat>)
    ensures FinderCount(runs) <= 2 * |runs|
  {
    hide Patterns, ColorOf, FinderCount;
    FinderCountUnfold(runs);
    if |runs| >= 7 {
      FinderCountBound(runs[..|runs| - 1]);
    }
  }

  lemma {:induction false} RunScoreBound(line: seq<bool>)
    ensures RunScore(Runs(line)) <= 3 * |line|
  {
    hide ColorOf, RunScore;
    if |line| == 0 {
      NoRunScore();
    } else {
      RunScoreBound(line[..|line| - 1]);
      RunScoreExtend(Runs(line[..|line| - 1]), line[|line| - 1]);
    }
  }

  lemma NoRunScore()
    ensures RunScore(Runs([])) == 0
  {
    assert RunScore([0]) == 0;
  }

  lemma LineScoreBound(line: seq<bool>)
    requires 0 < |line| <= 177
    ensures LineScore(line) <= 15000
  {
    hide Runs, RunScore, FinderCount;
    RunScoreBound(line);
    FinderCountBound(Bordered(Runs(line), |line|));
  }

  lemma {:induction false} LinesBound(m: Grid, n: nat)
    requires IsSquare(m, |m|) && n <= |m| <= 177
    ensures RowScore(m, n) <= 15000 * n && ColumnScore(m, n) <= 15000 * n
  {
    hide LineScore;
    if n > 0 {
      LinesBound(m, n - 1);
      LineScoreBound(m[n - 1]);
      LineScoreBound(Column(m, n - 1));
    }
  }

  lemma CellsBound(m: Grid)
    requires IsSquare(m, |m|) && |m| > 0
    ensures |UniformSquares(m)| <= |m| * |m| && |BlackCells(m)| <= |m| * |m|
  {
    hide Rect;
    var n := |m|;
    var grid := Rect(Interval(0, n), Interval(0, n));
    IntervalRectSize(0, n, 0, n);
    forall c: Cell
      ensures c in UniformSquares(m) ==> c in grid
      ensures c in BlackCells(m) ==> c in grid
    {
      IntervalRectMembers(0, n, 0, n, c);
    }
    SubsetSize(UniformSquares(m), grid);
    SubsetSize(BlackCells(m), grid);
  }

  lemma TotalOdd(n: nat)
    requires n % 2 == 1
    ensures n * n % 2 == 1 && (n <= 177 ==> n * n <= 31329)
  {
    var h := n / 2;
    assert n * n == 2 * (2 * h * h + 2 * h) + 1;
    if n <= 177 {
      ProductAtMost(n, 177, n);
      ProductAtMost(n, 177, 177);
    }
  }

  lemma PenaltyBound(m: Grid)
    requires IsSquare(m, |m|) && |m| % 2 == 1 && |m| <= 177
    ensures 0 <= Penalty(m) < LONG_MAX
  {
    hide UniformSquares, BlackCells, RowScore, ColumnScore, Balance;
    TotalOdd(|m|);
    LinesBound(m, |m|);
    CellsBound(m);
    BalanceIsLeast(|BlackCells(m)|, |m| * |m|);
  }
}
