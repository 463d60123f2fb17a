/** The eight data masks. Masking twice with the same mask changes nothing, and no mask touches a function cell. */
module Masking {
  import opened FormatInfo
  import opened Grids

  predicate Inverts(msk: Mask, x: nat, y: nat) {
    match msk
    case 0 => (x + y) % 2 == 0
    case 1 => y % 2 == 0
    case 2 => x % 3 == 0
    case 3 => (x + y) % 3 == 0
    case 4 => (x / 3 + y / 2) % 2 == 0
    case 5 => x * y % 2 + x * y % 3 == 0
    case 6 => (x * y % 2 + x * y % 3) % 2 == 0
    case _ => ((x + y) % 2 + x * y % 3) % 2 == 0
  }

  /** The module of the masked grid at a cell. */
  predicate MaskedAt(m: Grid, f: Grid, msk: Mask, c: Cell)
    requires |m| == |f| && IsSquare(m, |m|) && IsSquare(f, |f|) && InGrid(c, |m|)
  {
    At(m, c) != (Inverts(msk, c.x, c.y) && !At(f, c))
  }

  function Masked(m: Grid, f: Grid, msk: Mask): (h: Grid)
    requires |m| == |f| && IsSquare(m, |m|) && IsSquare(f, |f|)
    ensures |h| == |m| && IsSquare(h, |h|)
    ensures forall c: Cell | InGrid(c, |m|) :: At(h, c) == MaskedAt(m, f, msk, c)
  {
    seq(|m|, y requires 0 <= y < |m| => seq(|m|, x requires 0 <= x < |m| => MaskedAt(m, f, msk, Cell(x, y))))
  }

  lemma MaskTwice(m: Grid, f: Grid, msk: Mask)
    requires |m| == |f| && IsSquare(m, |m|) && IsSquare(f, |f|)
    ensures Masked(Masked(m, f, msk), f, msk) == m
  {
    hide Inverts, At, Masked;
    SameCells(Masked(Masked(m, f, msk), f, msk), m);
  }

  lemma MaskKeepsFunctionCells(m: Grid, f: Grid, msk: Mask, c: Cell)
    requires |m| == |f| && IsSquare(m, |m|) && IsSquare(f, |f|) && InGrid(c, |m|) && At(f, c)
    ensures At(Masked(m, f, msk), c) == At(m, c)
  {
    hide Inverts, At, Masked;
    assert At(Masked(m, f, msk), c) == MaskedAt(m, f, msk, c);
  }
}
