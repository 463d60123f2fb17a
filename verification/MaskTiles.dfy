/**
 The eight masks as pictures. Every mask repeats after 6 columns and 12 rows, so one tile of that size says which
 cells it inverts in a grid of any size.
 */
module MaskTiles {
  import opened FormatInfo
  import opened Grids
  import opened Masking

  /** The tile of a mask, row by row; '#' marks the cells that are inverted. */
  function Tile(msk: Mask): (rows: seq<string>)
    ensures |rows| == 12 && forall y | 0 <= y < 12 :: |rows[y]| == 6
  {
    match msk
    case 0 =>
      ["#.#.#.", ".#.#.#", "#.#.#.", ".#.#.#", "#.#.#.", ".#.#.#",
       "#.#.#.", ".#.#.#", "#.#.#.", ".#.#.#", "#.#.#.", ".#.#.#"]
    case 1 =>
      ["######", "......", "######", "......", "######", "......",
       "######", "......", "######", "......", "######", "......"]
    case 2 =>
      ["#..#..", "#..#..", "#..#..", "#..#..", "#..#..", "#..#..",
       "#..#..", "#..#..", "#..#..", "#..#..", "#..#..", "#..#.."]
    case 3 =>
      ["#..#..", "..#..#", ".#..#.", "#..#..", "..#..#", ".#..#.",
       "#..#..", "..#..#", ".#..#.", "#..#..", "..#..#", ".#..#."]
    case 4 =>
      ["###...", "###...", "...###", "...###", "###...", "###...",
       "...###", "...###", "###...", "###...", "...###", "...###"]
    case 5 =>
      ["######", "#.....", "#..#..", "#.#.#.", "#..#..", "#.....",
       "######", "#.....", "#..#..", "#.#.#.", "#..#..", "#....."]
    case 6 =>
      ["######", "###...", "##.##.", "#.#.#.", "#.##.#", "#...##",
       "######", "###...", "##.##.", "#.#.#.", "#.##.#", "#...##"]
    case _ =>
      ["#.#.#.", "...###", "#...##", ".#.#.#", "###...", ".###..",
       "#.#.#.", "...###", "#...##", ".#.#.#", "###...", ".###.."]
  }

  lemma MultiplesDrop(m: nat, q: nat, r: nat)
    requires 1 <= m <= 3
    ensures (m * q + r) % m == r % m
  {
    if m == 1 {
    } else if m == 2 {
    } else {
    }
  }

  lemma ProductModTwo(x: nat, y: nat)
    ensures x * y % 2 == if x % 2 == 1 && y % 2 == 1 then 1 else 0
  {
    var a, b := x / 2, y / 2;
    if x % 2 == 0 {
      assert x * y == 2 * (a * y);
    } else if y % 2 == 0 {
      assert x * y == 2 * (x * b);
    } else {
      assert x * y == (2 * a + 1) * (2 * b + 1) == 2 * (2 * a * b + a + b) + 1;
    }
  }

  lemma SplitProduct(a: nat, r: nat, b: nat, s: nat)
    ensures (3 * a + r) * (3 * b + s) == 3 * (3 * a * b + a * s + b * r) + r * s
  {}

  lemma SmallProduct(r: nat, s: nat)
    requires r < 3 && s < 3
    ensures r * s % 3 == if r == 0 || s == 0 then 0 else if r == s then 1 else 2
  {
    if r == 0 {
    } else if r == 1 {
    } else {
    }
  }

  lemma ProductModThree(x: nat, y: nat)
    ensures x * y % 3 == if x % 3 == 0 || y % 3 == 0 then 0 else if x % 3 == y % 3 then 1 else 2
  {
    var a, b, r, s := x / 3, y / 3, x % 3, y % 3;
    SplitProduct(a, r, b, s);
    MultiplesDrop(3, 3 * a * b + a * s + b * r, r * s);
    SmallProduct(r, s);
  }

  lemma SumModTwo(a: nat, b: nat)
    ensures (a + b) % 2 == 0 <==> a % 2 == b % 2
  {}

  lemma SumModThree(a: nat, b: nat)
    ensures (a + b) % 3 == 0 <==> a % 3 + b % 3 == 0 || a % 3 + b % 3 == 3
  {}

  /** What a mask needs to know of a column or a row: its remainders, and the parity of its third or its half. */
  datatype Residues = Residues(two: nat, three: nat, part: nat)

  function ColumnResidues(x: nat): Residues
    requires x < 6
  {
    match x
    case 0 => Residues(0, 0, 0)
    case 1 => Residues(1, 1, 0)
    case 2 => Residues(0, 2, 0)
    case 3 => Residues(1, 0, 1)
    case 4 => Residues(0, 1, 1)
    case _ => Residues(1, 2, 1)
  }

  function RowResidues(y: nat): Residues
    requires y < 12
  {
    match y
    case 0 => Residues(0, 0, 0)
    case 1 => Residues(1, 1, 0)
    case 2 => Residues(0, 2, 1)
    case 3 => Residues(1, 0, 1)
    case 4 => Residues(0, 1, 0)
    case 5 => Residues(1, 2, 0)
    case 6 => Residues(0, 0, 1)
    case 7 => Residues(1, 1, 1)
    case 8 => Residues(0, 2, 0)
    case 9 => Residues(1, 0, 0)
    case 10 => Residues(0, 1, 1)
    case _ => Residues(1, 2, 1)
  }

  lemma SmallColumn(r: nat)
    requires r < 6
    ensures ColumnResidues(r) == Residues(r % 2, r % 3, r / 3 % 2)
  {}

  lemma SmallRow(r: nat)
    requires r < 12
    ensures RowResidues(r) == Residues(r % 2, r % 3, r / 2 % 2)
  {}

  lemma ColumnIs(x: nat)
    ensures ColumnResidues(x % 6) == Residues(x % 2, x % 3, x / 3 % 2)
  {
    hide ColumnResidues;
    var q, r := x / 6, x % 6;
    SmallColumn(r);
    MultiplesDrop(2, 3 * q, r);
    MultiplesDrop(3, 2 * q, r);
    MultiplesDrop(2, q, r / 3);
    assert x == 2 * (3 * q) + r == 3 * (2 * q) + r && x / 3 == 2 * q + r / 3;
  }

  lemma RowIs(y: nat)
    ensures RowResidues(y % 12) == Residues(y % 2, y % 3, y / 2 % 2)
  {
    hide RowResidues;
    var q, r := y / 12, y % 12;
    SmallRow(r);
    MultiplesDrop(2, 6 * q, r);
    MultiplesDrop(3, 4 * q, r);
    MultiplesDrop(2, 3 * q, r / 2);
    assert y == 2 * (6 * q) + r == 3 * (4 * q) + r && y / 2 == 2 * (3 * q) + r / 2;
  }

  /** The remainder modulo 3 of a product whose factors have these remainders. */
  function TimesModThree(a: nat, b: nat): nat {
    if a == 0 || b == 0 then 0 else if a == b then 1 else 2
  }

  predicate InvertsResidues(msk: Mask, x: Residues, y: Residues) {
    var even, three := x.two == 0 || y.two == 0, TimesModThree(x.three, y.three);
    match msk
    case 0 => x.two == y.two
    case 1 => y.two == 0
    case 2 => x.three == 0
    case 3 => x.three + y.three == 0 || x.three + y.three == 3
    case 4 => x.part == y.part
    case 5 => even && three == 0
    case 6 => even == (three != 1)
    case _ => (x.two == y.two) == (three != 1)
  }

  lemma Residues0(x: nat, y: nat)
    ensures Inverts(0, x, y) <==>
            InvertsResidues(0, Residues(x % 2, x % 3, x / 3 % 2), Residues(y % 2, y % 3, y / 2 % 2))
  {
    SumModTwo(x, y);
  }

  lemma Residues1(x: nat, y: nat)
    ensures Inverts(1, x, y) <==>
            InvertsResidues(1, Residues(x % 2, x % 3, x / 3 % 2), Residues(y % 2, y % 3, y / 2 % 2))
  {}

  lemma Residues2(x: nat, y: nat)
    ensures Inverts(2, x, y) <==>
            InvertsResidues(2, Residues(x % 2, x % 3, x / 3 % 2), Residues(y % 2, y % 3, y / 2 % 2))
  {}

  lemma Residues3(x: nat, y: nat)
    ensures Inverts(3, x, y) <==>
            InvertsResidues(3, Residues(x % 2, x % 3, x / 3 % 2), Residues(y % 2, y % 3, y / 2 % 2))
  {
    SumModThree(x, y);
  }

  lemma Residues4(x: nat, y: nat)
    ensures Inverts(4, x, y) <==>
            InvertsResidues(4, Residues(x % 2, x % 3, x / 3 % 2), Residues(y % 2, y % 3, y / 2 % 2))
  {
    SumModTwo(x / 3, y / 2);
  }

  lemma Residues5(x: nat, y: nat)
    ensures Inverts(5, x, y) <==>
            InvertsResidues(5, Residues(x % 2, x % 3, x / 3 % 2), Residues(y % 2, y % 3, y / 2 % 2))
  {
    ProductModTwo(x, y);
    ProductModThree(x, y);
  }

  lemma Residues6(x: nat, y: nat)
    ensures Inverts(6, x, y) <==>
            InvertsResidues(6, Residues(x % 2, x % 3, x / 3 % 2), Residues(y % 2, y % 3, y / 2 % 2))
  {
    ProductModTwo(x, y);
    ProductModThree(x, y);
  }

  lemma Residues7(x: nat, y: nat)
    ensures Inverts(7, x, y) <==>
            InvertsResidues(7, Residues(x % 2, x % 3, x / 3 % 2), Residues(y % 2, y % 3, y / 2 % 2))
  {
    SumModTwo(x, y);
    ProductModThree(x, y);
  }

  lemma Tile0(x: nat, y: nat)
    requires x < 6 && y < 12
    ensures InvertsResidues(0, ColumnResidues(x), RowResidues(y)) <==> Tile(0)[y][x] == '#'
  {}

  lemma Tile1(x: nat, y: nat)
    requires x < 6 && y < 12
    ensures InvertsResidues(1, ColumnResidues(x), RowResidues(y)) <==> Tile(1)[y][x] == '#'
  {}

  lemma Tile2(x: nat, y: nat)
    requires x < 6 && y < 12
    ensures InvertsResidues(2, ColumnResidues(x), RowResidues(y)) <==> Tile(2)[y][x] == '#'
  {}

  lemma Tile3(x: nat, y: nat)
    requires x < 6 && y < 12
    ensures InvertsResidues(3, ColumnResidues(x), RowResidues(y)) <==> Tile(3)[y][x] == '#'
  {}

  lemma Tile4(x: nat, y: nat)
    requires x < 6 && y < 12
    ensures InvertsResidues(4, ColumnResidues(x), RowResidues(y)) <==> Tile(4)[y][x] == '#'
  {}

  lemma Tile5(x: nat, y: nat)
    requires x < 6 && y < 12
    ensures InvertsResidues(5, ColumnResidues(x), RowResidues(y)) <==> Tile(5)[y][x] == '#'
  {}

  lemma Tile6(x: nat, y: nat)
    requires x < 6 && y < 12
    ensures InvertsResidues(6, ColumnResidues(x), RowResidues(y)) <==> Tile(6)[y][x] == '#'
  {}

  lemma Tile7(x: nat, y: nat)
    requires x < 6 && y < 12
    ensures InvertsResidues(7, ColumnResidues(x), RowResidues(y)) <==> Tile(7)[y][x] == '#'
  {}

  /** A mask inverts exactly the cells that its tile, laid out over the plane, marks. */
  lemma InvertsTile(msk: Mask, x: nat, y: nat)
    ensures Inverts(msk, x, y) <==> Tile(msk)[y % 12][x % 6] == '#'
  {
    hide Inverts, InvertsResidues, ColumnResidues, RowResidues, Tile;
    ColumnIs(x);
    RowIs(y);
    match msk
    case 0 =>
      Residues0(x, y);
      Tile0(x % 6, y % 12);
    case 1 =>
      Residues1(x, y);
      Tile1(x % 6, y % 12);
    case 2 =>
      Residues2(x, y);
      Tile2(x % 6, y % 12);
    case 3 =>
      Residues3(x, y);
      Tile3(x % 6, y % 12);
    case 4 =>
      Residues4(x, y);
      Tile4(x % 6, y % 12);
    case 5 =>
      Residues5(x, y);
      Tile5(x % 6, y % 12);
    case 6 =>
      Residues6(x, y);
      Tile6(x % 6, y % 12);
    case _ =>
      Residues7(x, y);
      Tile7(x % 6, y % 12);
  }

  /** Mask 1 marks whole rows and mask 2 whole columns. */
  lemma StripedMasks(x: nat, y: nat, other: nat)
    ensures Inverts(1, x, y) == Inverts(1, other, y) && Inverts(2, x, y) == Inverts(2, x, other)
  {}

  /** Masking inverts the cells that the tile marks, except function cells. */
  lemma MaskedByTile(m: Grid, f: Grid, msk: Mask, c: Cell)
    requires |m| == |f| && IsSquare(m, |m|) && IsSquare(f, |f|) && InGrid(c, |m|)
    ensures At(Masked(m, f, msk), c) == if At(f, c) then At(m, c) else At(m, c) != (Tile(msk)[c.y % 12][c.x % 6] == '#')
  {
    hide Inverts, Tile, At, Masked;
    InvertsTile(msk, c.x, c.y);
    assert At(Masked(m, f, msk), c) == MaskedAt(m, f, msk, c);
  }
}
