/**
 The zigzag scan of the codeword area: pairs of columns from right to left, each pair up or down. It
 visits every cell outside column 6 exactly once and column 6 never.
 */
module Zigzag {
  import opened Grids

  /** The y coordinate at step `vert` of the column pair whose right column is `right`. */
  function RowOf(size: nat, right: int, vert: int): int {
    if (right + 1) / 2 % 2 == 0 then size - 1 - vert else vert
  }

  /** The cells of a column pair in scan order. */
  function PairCells(size: nat, right: int): (cells: seq<Cell>)
    ensures |cells| == 2 * size
  {
    seq(2 * size, k requires 0 <= k < 2 * size => Cell(right - k % 2, RowOf(size, right, k / 2)))
  }

  /** Column 6 belongs to the vertical timing pattern: the pair that would start there starts at 5. */
  function SkipTiming(right: int): int {
    if right == 6 then 5 else right
  }

  /** The scan from the pair at `right` on. */
  function ScanFrom(size: nat, right: int): seq<Cell>
    decreases right
  {
    if right < 1 then [] else PairCells(size, SkipTiming(right)) + ScanFrom(size, SkipTiming(right) - 2)
  }

  function Scan(size: nat): seq<Cell> {
    ScanFrom(size, size - 1)
  }

  /** The values `right` takes: even down to 6, then 3 and 1 (and -1 at the end). */
  predicate OnTrack(right: int) {
    if right >= 6 then right % 2 == 0 else right in {3, 1, -1}
  }

  lemma PairCellAt(size: nat, right: int, x: int, y: int)
    requires 0 <= y < size && right - 1 <= x <= right
    ensures Cell(x, y) in PairCells(size, right)
  {
    var vert := if (right + 1) / 2 % 2 == 0 then size - 1 - y else y;
    var k := 2 * vert + (right - x);
    assert k / 2 == vert && k % 2 == right - x;
    assert PairCells(size, right)[k] == Cell(x, y);
  }

  lemma PairCellsDistinct(size: nat, right: int)
    ensures NoRepeats(PairCells(size, right))
  {
    var cells := PairCells(size, right);
    forall i, j | 0 <= i < j < |cells|
      ensures cells[i] != cells[j]
    {
      assert i % 2 != j % 2 || i / 2 != j / 2;
    }
  }

  /** From `right` on, the scan has every cell of the columns up to `right`, except column 6. */
  lemma {:induction false} ScanCovers(size: nat, right: int, x: int, y: int)
    requires OnTrack(right) && 0 <= x <= right && x != 6 && 0 <= y < size
    ensures Cell(x, y) in ScanFrom(size, right)
    decreases right
  {
    hide PairCells;
    var r := SkipTiming(right);
    if x >= r - 1 {
      PairCellAt(size, r, x, y);
    } else {
      ScanCovers(size, r - 2, x, y);
    }
  }

  /** Nothing else is in it. */
  lemma {:induction false} ScanWithin(size: nat, right: int)
    requires OnTrack(right)
    ensures forall i | 0 <= i < |ScanFrom(size, right)| ::
              var c := ScanFrom(size, right)[i];
              0 <= c.x <= right && c.x != 6 && 0 <= c.y < size
    decreases right
  {
    if right >= 1 {
      ScanWithin(size, SkipTiming(right) - 2);
    }
  }

  lemma {:induction false} ScanDistinct(size: nat, right: int)
    requires OnTrack(right)
    ensures NoRepeats(ScanFrom(size, right))
    decreases right
  {
    if right >= 1 {
      var r := SkipTiming(right);
      var pair, rest := PairCells(size, r), ScanFrom(size, r - 2);
      PairCellsDistinct(size, r);
      ScanDistinct(size, r - 2);
      ScanWithin(size, r - 2);
      forall i, j | 0 <= i < |pair| && 0 <= j < |rest|
        ensures pair[i] != rest[j]
      {
        assert pair[i].x >= r - 1 && rest[j].x <= r - 2;
      }
    }
  }

  lemma SizeOnTrack(size: nat)
    requires size >= 21 && size % 4 == 1
    ensures OnTrack(size - 1)
  {
    var k := size / 4;
    assert size - 1 == 2 * (2 * k);
    EvenDouble(2 * k);
  }

  lemma EvenDouble(m: int)
    ensures 2 * m % 2 == 0
  {}

  lemma CellWithin(size: nat, right: int, c: Cell)
    requires OnTrack(right) && c in ScanFrom(size, right)
    ensures 0 <= c.x <= right && c.x != 6 && 0 <= c.y < size
  {
    hide ScanFrom;
    ScanWithin(size, right);
  }

  /** Every cell outside column 6 exactly once, column 6 never, for every size congruent to 1 modulo 4. */
  lemma ScanExact(size: nat)
    requires size >= 21 && size % 4 == 1
    ensures NoRepeats(Scan(size))
    ensures forall c: Cell :: c in Scan(size) <==> InGrid(c, size) && c.x != 6
  {
    hide ScanFrom, OnTrack;
    SizeOnTrack(size);
    ScanDistinct(size, size - 1);
    forall c: Cell
      ensures c in Scan(size) <==> InGrid(c, size) && c.x != 6
    {
      if c in Scan(size) {
        CellWithin(size, size - 1, c);
      } else if InGrid(c, size) && c.x != 6 {
        ScanCovers(size, size - 1, c.x, c.y);
      }
    }
  }

  /** The right column of the `pair`-th pair: every second column from the right edge, column 6 left out. */
  function RightOf(size: nat, pair: nat): int {
    if size - 1 - 2 * pair > 6 then size - 1 - 2 * pair else size - 2 - 2 * pair
  }

  /** Where step `k` of the `pair`-th pair lies if the pairs go up and down in turn, the first one up. */
  function TurningCell(size: nat, pair: nat, k: nat): Cell {
    Cell(RightOf(size, pair) - k % 2, if pair % 2 == 0 then size - 1 - k / 2 else k / 2)
  }

  /** The value `right` has when the source's loop reaches the `pair`-th pair. */
  function LoopValue(size: nat, pair: nat): int {
    if size - 1 - 2 * pair >= 6 then size - 1 - 2 * pair else size - 2 - 2 * pair
  }

  lemma LoopValueNext(size: nat, pair: nat)
    requires size >= 21 && size % 4 == 1 && 2 * pair < size - 1
    ensures LoopValue(size, pair) >= 1 && SkipTiming(LoopValue(size, pair)) == RightOf(size, pair)
    ensures RightOf(size, pair) - 2 == LoopValue(size, pair + 1)
    ensures (RightOf(size, pair) + 1) / 2 % 2 == pair % 2
  {
    var m := size / 4;
    assert size == 4 * m + 1;
    assert (RightOf(size, pair) + 1) / 2 == 2 * m - pair;
  }

  lemma PairTurns(size: nat, pair: nat, k: nat)
    requires size >= 21 && size % 4 == 1 && 2 * pair < size - 1 && k < 2 * size
    ensures PairCells(size, RightOf(size, pair))[k] == TurningCell(size, pair, k)
  {
    LoopValueNext(size, pair);
  }

  /** The number of cells in that many pairs. */
  function CellsIn(size: nat, pairs: nat): nat {
    if pairs == 0 then 0 else 2 * size + CellsIn(size, pairs - 1)
  }

  lemma {:induction false} CellsInIs(size: nat, pairs: nat)
    ensures CellsIn(size, pairs) == 2 * size * pairs
  {
    if pairs > 0 {
      CellsInIs(size, pairs - 1);
      assert 2 * size * pairs == 2 * size + 2 * size * (pairs - 1);
    }
  }

  lemma ScanFromNext(size: nat, first: nat)
    requires size >= 21 && size % 4 == 1 && 2 * first < size - 1
    ensures ScanFrom(size, LoopValue(size, first))
         == PairCells(size, RightOf(size, first)) + ScanFrom(size, LoopValue(size, first + 1))
  {
    hide RightOf, LoopValue, PairCells, SkipTiming;
    LoopValueNext(size, first);
  }

  lemma {:induction false} ScanTurnsFrom(size: nat, first: nat, pair: nat, k: nat)
    requires size >= 21 && size % 4 == 1 && first <= pair && 2 * pair < size - 1 && k < 2 * size
    ensures CellsIn(size, pair - first) + k < |ScanFrom(size, LoopValue(size, first))|
    ensures ScanFrom(size, LoopValue(size, first))[CellsIn(size, pair - first) + k] == TurningCell(size, pair, k)
    decreases pair - first
  {
    hide RightOf, LoopValue, TurningCell, PairCells, SkipTiming, ScanFrom;
    ScanFromNext(size, first);
    if first == pair {
      PairTurns(size, pair, k);
    } else {
      ScanTurnsFrom(size, first + 1, pair, k);
    }
  }

  /**
   The exact order of the scan: (size - 1) / 2 pairs of columns from the right, two cells a row with the right one
   first, the pairs going up and down in turn and the first one up.
   */
  lemma ScanTurns(size: nat, pair: nat, k: nat, i: nat)
    requires size >= 21 && size % 4 == 1 && 2 * pair < size - 1 && k < 2 * size && i == 2 * size * pair + k
    ensures i < |Scan(size)| && Scan(size)[i] == TurningCell(size, pair, k)
  {
    hide TurningCell, ScanFrom;
    ScanTurnsFrom(size, 0, pair, k);
    CellsInIs(size, pair);
  }

  /** Where the scan starts: up from the lower right corner. */
  lemma ScanStarts(size: nat)
    requires size >= 21 && size % 4 == 1
    ensures |Scan(size)| > 2
    ensures Scan(size)[0] == Cell(size - 1, size - 1) && Scan(size)[1] == Cell(size - 2, size - 1)
    ensures Scan(size)[2] == Cell(size - 1, size - 2)
  {
    hide Scan;
    ScanTurns(size, 0, 0, 0);
    ScanTurns(size, 0, 1, 1);
    ScanTurns(size, 0, 2, 2);
  }

  /** Inside a pair: to the left in the row, then back to the right one row on, up in every second pair. */
  lemma ScanSteps(size: nat, pair: nat, k: nat, i: nat)
    requires size >= 21 && size % 4 == 1 && 2 * pair < size - 1 && k + 1 < 2 * size && i == 2 * size * pair + k
    ensures i + 1 < |Scan(size)|
    ensures var a, b := Scan(size)[i], Scan(size)[i + 1];
            if k % 2 == 0 then
              b == Cell(a.x - 1, a.y)
            else
              b == Cell(a.x + 1, if pair % 2 == 0 then a.y - 1 else a.y + 1)
  {
    hide Scan, RightOf;
    ScanTurns(size, pair, k, i);
    ScanTurns(size, pair, k + 1, i + 1);
  }

  lemma LastOfPair(size: nat)
    requires size > 0
    ensures (2 * size - 1) % 2 == 1 && (2 * size - 1) / 2 == size - 1
  {}

  /** Between pairs: on in the row where the last pair ended, past column 6. */
  lemma ScanTurnsAround(size: nat, pair: nat, i: nat)
    requires size >= 21 && size % 4 == 1 && 2 * (pair + 1) < size - 1 && i == 2 * size * pair + 2 * size - 1
    ensures i + 1 < |Scan(size)|
    ensures var a, b := Scan(size)[i], Scan(size)[i + 1];
            a.y == (if pair % 2 == 0 then 0 else size - 1) && b == Cell(if a.x == 7 then 5 else a.x - 1, a.y)
  {
    hide Scan;
    ScanTurns(size, pair, 2 * size - 1, i);
    assert i + 1 == 2 * size * (pair + 1);
    ScanTurns(size, pair + 1, 0, i + 1);
    LastOfPair(size);
  }
}
