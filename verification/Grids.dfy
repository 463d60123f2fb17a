/** Square grids of modules, and writing and reading a list of their cells. */
module Grids {

  /** Rows from top to bottom, each from left to right. */
  type Grid = seq<seq<bool>>

  datatype Cell = Cell(x: int, y: int)

  predicate IsSquare(g: Grid, n: nat) {
    |g| == n && forall y | 0 <= y < n :: |g[y]| == n
  }

  predicate InGrid(c: Cell, n: nat) {
    0 <= c.x < n && 0 <= c.y < n
  }

  function At(g: Grid, c: Cell): bool
    requires InGrid(c, |g|) && IsSquare(g, |g|)
  {
    g[c.y][c.x]
  }

  function Set(g: Grid, c: Cell, b: bool): (h: Grid)
    requires InGrid(c, |g|) && IsSquare(g, |g|)
    ensures |h| == |g| && IsSquare(h, |h|)
  {
    g[c.y := g[c.y][c.x := b]]
  }

  lemma SetAt(g: Grid, c: Cell, b: bool, d: Cell)
    requires IsSquare(g, |g|) && InGrid(c, |g|) && InGrid(d, |g|)
    ensures At(Set(g, c, b), d) == if d == c then b else At(g, d)
  {}

  /** Grids that agree on every cell are equal. */
  lemma SameCells(g: Grid, h: Grid)
    requires |g| == |h| && IsSquare(g, |g|) && IsSquare(h, |h|)
    requires forall x, y | 0 <= x < |g| && 0 <= y < |g| :: At(g, Cell(x, y)) == At(h, Cell(x, y))
    ensures g == h
  {
    forall y | 0 <= y < |g|
      ensures g[y] == h[y]
    {
      forall x | 0 <= x < |g|
        ensures g[y][x] == h[y][x]
      {
        assert At(g, Cell(x, y)) == At(h, Cell(x, y));
      }
    }
  }

  ghost predicate AllInGrid(cells: seq<Cell>, n: nat) {
    forall i | 0 <= i < |cells| :: InGrid(cells[i], n)
  }

  ghost predicate NoRepeats(cells: seq<Cell>) {
    forall i, j | 0 <= i < j < |cells| :: cells[i] != cells[j]
  }

  /** Writes `bits` to `cells`, in order. */
  function Write(g: Grid, cells: seq<Cell>, bits: seq<bool>): (h: Grid)
    requires |cells| == |bits| && IsSquare(g, |g|) && AllInGrid(cells, |g|)
    ensures |h| == |g| && IsSquare(h, |h|)
  {
    if |cells| == 0 then g
    else var n := |cells| - 1; Set(Write(g, cells[..n], bits[..n]), cells[n], bits[n])
  }

  lemma WriteSnoc(g: Grid, cells: seq<Cell>, bits: seq<bool>, c: Cell, b: bool)
    requires |cells| == |bits| && IsSquare(g, |g|) && AllInGrid(cells, |g|) && InGrid(c, |g|)
    ensures AllInGrid(cells + [c], |g|)
    ensures Write(g, cells + [c], bits + [b]) == Set(Write(g, cells, bits), c, b)
  {
    assert (cells + [c])[..|cells|] == cells && (bits + [b])[..|bits|] == bits;
  }

  /** The values of `cells`, in order. */
  function Read(g: Grid, cells: seq<Cell>): (bits: seq<bool>)
    requires IsSquare(g, |g|) && AllInGrid(cells, |g|)
    ensures |bits| == |cells|
  {
    seq(|cells|, i requires 0 <= i < |cells| => At(g, cells[i]))
  }

  lemma {:induction false} WriteElsewhere(g: Grid, cells: seq<Cell>, bits: seq<bool>, d: Cell)
    requires |cells| == |bits| && IsSquare(g, |g|) && AllInGrid(cells, |g|) && InGrid(d, |g|)
    requires d !in cells
    ensures At(Write(g, cells, bits), d) == At(g, d)
  {
    hide At, Set;
    if |cells| > 0 {
      var n := |cells| - 1;
      WriteElsewhere(g, cells[..n], bits[..n], d);
      SetAt(Write(g, cells[..n], bits[..n]), cells[n], bits[n], d);
    }
  }

  /** What was written can be read. */
  lemma {:induction false} ReadWrite(g: Grid, cells: seq<Cell>, bits: seq<bool>)
    requires |cells| == |bits| && IsSquare(g, |g|) && AllInGrid(cells, |g|) && NoRepeats(cells)
    ensures Read(Write(g, cells, bits), cells) == bits
  {
    hide At, Set;
    if |cells| > 0 {
      var n := |cells| - 1;
      var h := Write(g, cells[..n], bits[..n]);
      ReadWrite(g, cells[..n], bits[..n]);
      forall i | 0 <= i < |cells|
        ensures At(Set(h, cells[n], bits[n]), cells[i]) == bits[i]
      {
        SetAt(h, cells[n], bits[n], cells[i]);
        if i < n {
          assert Read(h, cells[..n])[i] == bits[..n][i];
        }
      }
    }
  }
}
