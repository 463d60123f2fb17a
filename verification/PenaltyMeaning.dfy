/** The penalty of a symbol said of its modules: nothing here mentions runs, histories or how the score is added up. */
module PenaltyMeaning {
  import opened FinderLookalikes
  import opened FiniteSets
  import opened GridPenalty
  import opened Grids
  import opened LinePenalty
  import opened RunLengths

  // Long runs

  /** Five modules of one colour from `p` on. */
  ghost predicate FiveAlike(line: seq<bool>, p: nat) {
    p + 5 <= |line| && Uniform(line, p, p + 5, line[p])
  }

  ghost predicate FiveBegin(line: seq<bool>, p: nat) {
    FiveAlike(line, p) && (p > 0 ==> line[p - 1] != line[p])
  }

  /** Where five modules of one colour stand. */
  ghost function Fives(line: seq<bool>): set<nat> {
    set p: nat | 0 <= p <= |line| && FiveAlike(line, p)
  }

  /** Where five modules of one colour stand after another colour or at the start. */
  ghost function FirstFives(line: seq<bool>): set<nat> {
    set p: nat | 0 <= p <= |line| && FiveBegin(line, p)
  }

  /** The last run of a line is as long as the colour at its end goes back. */
  lemma LastRun(line: seq<bool>)
    requires |line| > 0
    ensures var runs := Runs(line); var k := |runs| - 1; var n := runs[k];
            && 1 <= n <= |line| && ColorOf(k) == line[|line| - 1]
            && Uniform(line, |line| - n, |line|, ColorOf(k))
            && (n < |line| ==> line[|line| - n - 1] != ColorOf(k))
  {
    hide Runs, Expand, ColorOf, Offset;
    var runs, k := Runs(line), |Runs(line)| - 1;
    ExpandRuns(line);
    WholeLine(runs);
    NoRuns(runs);
    OffsetNext(runs, k);
    RunIsUniform(runs, k);
    if k > 0 {
      OffsetNext(runs, k - 1);
      ColorsAlternate(k - 1);
      if Offset(runs, k) > 0 {
        if k > 1 || runs[0] > 0 {
          ModuleInRun(runs, k - 1, Offset(runs, k) - 1);
        }
      }
    }
  }

  lemma LastRunOfFive(line: seq<bool>)
    requires |line| > 0
    ensures var n := Runs(line)[|Runs(line)| - 1];
            && (n >= 5 <==> |line| >= 5 && FiveAlike(line, |line| - 5))
            && (n == 5 <==> |line| >= 5 && FiveBegin(line, |line| - 5))
  {
    hide Runs, ColorOf;
    LastRun(line);
    var n := Runs(line)[|Runs(line)| - 1];
    if n < 5 && |line| >= 5 {
      assert line[|line| - n - 1] != line[|line| - 1];
    }
    if n > 5 {
      assert line[|line| - 6] == line[|line| - 1];
    }
  }

  lemma RunScoreGrows(line: seq<bool>, color: bool)
    ensures var n := Runs(line + [color])[|Runs(line + [color])| - 1];
            RunScore(Runs(line + [color])) == RunScore(Runs(line)) + if n == 5 then 3 else if n > 5 then 1 else 0
  {
    hide Runs, RunScore, ColorOf, Extend;
    RunsSnoc(line, color);
    ExtendIs(Runs(line), color);
    RunScoreExtend(Runs(line), color);
  }

  lemma FiveAlikePrefix(line: seq<bool>, color: bool, p: nat)
    requires p + 5 <= |line|
    ensures FiveAlike(line + [color], p) <==> FiveAlike(line, p)
    ensures FiveBegin(line + [color], p) <==> FiveBegin(line, p)
  {
    hide Uniform;
    UniformPrefix(line, [color], p, p + 5, line[p]);
  }

  lemma FivesGrow(line: seq<bool>, color: bool)
    ensures var all := line + [color]; var q := |all| - 5;
            && |Fives(all)| == |Fives(line)| + (if q >= 0 && FiveAlike(all, q) then 1 else 0)
            && |FirstFives(all)| == |FirstFives(line)| + (if q >= 0 && FiveBegin(all, q) then 1 else 0)
  {
    hide Uniform;
    var all := line + [color];
    var q := |all| - 5;
    forall p: nat
      ensures p in Fives(all) <==> p in Fives(line) || (p == q && FiveAlike(all, p))
      ensures p in FirstFives(all) <==> p in FirstFives(line) || (p == q && FiveBegin(all, p))
    {
      if p + 5 <= |line| {
        FiveAlikePrefix(line, color, p);
      }
    }
    if q >= 0 && FiveAlike(all, q) {
      assert Fives(all) == Fives(line) + {q};
    } else {
      assert Fives(all) == Fives(line);
    }
    if q >= 0 && FiveBegin(all, q) {
      assert FirstFives(all) == FirstFives(line) + {q};
    } else {
      assert FirstFives(all) == FirstFives(line);
    }
  }

  /** One point for every five alike, and two more for the first five of a run. */
  lemma {:induction false} RunScoreMeans(line: seq<bool>)
    ensures RunScore(Runs(line)) == |Fives(line)| + 2 * |FirstFives(line)|
  {
    hide Runs, RunScore, Fives, FirstFives, FiveAlike, FiveBegin;
    if |line| == 0 {
      NoFives();
    } else {
      var n := |line| - 1;
      assert line == line[..n] + [line[n]];
      RunScoreMeans(line[..n]);
      RunScoreGrows(line[..n], line[n]);
      LastRunOfFive(line);
      FivesGrow(line[..n], line[n]);
    }
  }

  lemma NoFives()
    ensures RunScore(Runs([])) == 0 && Fives([]) == {} && FirstFives([]) == {}
  {
    ExpandNothing();
    assert [0][..0] == [];
  }

  // Lines and symbols

  /** The penalty of a line of modules. */
  ghost function LinePoints(line: seq<bool>): nat {
    |Fives(line)| + 2 * |FirstFives(line)| + 40 * |Lookalikes(Framed(line))|
  }

  lemma LineScoreMeans(line: seq<bool>)
    requires |line| > 0
    ensures LineScore(line) == LinePoints(line)
  {
    hide Runs, RunScore, Fives, FirstFives, Lookalikes, FinderCount, Bordered;
    RunScoreMeans(line);
    FinderCountMeans(line);
  }

  /** The points of the first `n` rows and columns. */
  ghost function LinesPoints(m: Grid, n: nat): nat
    requires IsSquare(m, |m|) && n <= |m|
  {
    if n == 0 then 0 else LinesPoints(m, n - 1) + LinePoints(m[n - 1]) + LinePoints(Column(m, n - 1))
  }

  lemma {:induction false} LinesPointsAre(m: Grid, n: nat)
    requires IsSquare(m, |m|) && n <= |m|
    ensures RowScore(m, n) + ColumnScore(m, n) == LinesPoints(m, n)
  {
    hide LineScore, LinePoints;
    if n > 0 {
      LinesPointsAre(m, n - 1);
      LineScoreMeans(m[n - 1]);
      LineScoreMeans(Column(m, n - 1));
    }
  }

  /**
   The penalty of a symbol: its rows and columns, three points for every square of four modules of one colour, and ten
   for every step of five percent by which the black share is off the middle band.
   */
  lemma PenaltyMeans(m: Grid, level: nat)
    requires IsSquare(m, |m|) && |m| % 2 == 1
    requires InBand(|BlackCells(m)|, |m| * |m|, level)
    requires forall k | 0 <= k < level :: !InBand(|BlackCells(m)|, |m| * |m|, k)
    ensures Penalty(m) == LinesPoints(m, |m|) + 3 * |UniformSquares(m)| + 10 * level
  {
    hide LinesPoints, UniformSquares, RowScore, ColumnScore, Balance, InBand;
    LinesPointsAre(m, |m|);
    TotalOdd(|m|);
    CellsBound(m);
    var best := Balance(|BlackCells(m)|, |m| * |m|);
    BalanceIsLeast(|BlackCells(m)|, |m| * |m|);
    assert level <= best;
  }

  /** A square counts if its four modules have the colour of its corner. */
  lemma UniformSquaresAre(m: Grid, c: Cell)
    requires IsSquare(m, |m|) && |m| > 0
    ensures c in UniformSquares(m) <==>
            && InGrid(c, |m| - 1)
            && forall d: Cell | c.x <= d.x <= c.x + 1 && c.y <= d.y <= c.y + 1 :: At(m, d) == At(m, c)
  {
    if InGrid(c, |m| - 1) {
      var right, below, both := Cell(c.x + 1, c.y), Cell(c.x, c.y + 1), Cell(c.x + 1, c.y + 1);
      assert c in UniformSquares(m) <==> At(m, c) == At(m, right) == At(m, below) == At(m, both);
    }
  }

  // Rows and columns count alike

  function Transposed(m: Grid): (t: Grid)
    requires IsSquare(m, |m|)
    ensures |t| == |m| && IsSquare(t, |t|)
    ensures forall c: Cell | InGrid(c, |m|) :: At(t, c) == At(m, Cell(c.y, c.x))
  {
    seq(|m|, y requires 0 <= y < |m| => seq(|m|, x requires 0 <= x < |m| => m[x][y]))
  }

  lemma TransposedLines(m: Grid, i: nat)
    requires IsSquare(m, |m|) && i < |m|
    ensures Transposed(m)[i] == Column(m, i) && Column(Transposed(m), i) == m[i]
  {}

  lemma {:induction false} TransposedPoints(m: Grid, n: nat)
    requires IsSquare(m, |m|) && n <= |m|
    ensures LinesPoints(Transposed(m), n) == LinesPoints(m, n)
  {
    hide LinePoints;
    if n > 0 {
      TransposedPoints(m, n - 1);
      TransposedLines(m, n - 1);
    }
  }

  function Swapped(c: Cell): Cell {
    Cell(c.y, c.x)
  }

  /** Swapping the coordinates of all cells keeps their number. */
  lemma {:induction false} SwappedSize(a: set<Cell>, b: set<Cell>)
    requires forall c: Cell :: c in a <==> Swapped(c) in b
    ensures |a| == |b|
    decreases |a|
  {
    if a == {} {
      forall c: Cell
        ensures c !in b
      {
        assert Swapped(Swapped(c)) == c;
        assert Swapped(c) !in a;
      }
      assert b == {};
    } else {
      var c := Pick(a);
      SwappedSize(a - {c}, b - {Swapped(c)});
    }
  }

  /** The penalty does not change if rows and columns are exchanged. */
  lemma PenaltyTransposed(m: Grid)
    requires IsSquare(m, |m|) && |m| > 0
    ensures Penalty(Transposed(m)) == Penalty(m)
  {
    hide LinesPoints, RowScore, ColumnScore, Balance;
    var t := Transposed(m);
    LinesPointsAre(m, |m|);
    LinesPointsAre(t, |t|);
    TransposedPoints(m, |m|);
    SwappedSize(UniformSquares(m), UniformSquares(t));
    SwappedSize(BlackCells(m), BlackCells(t));
  }
}
