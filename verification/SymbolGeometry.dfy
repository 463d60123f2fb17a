/** Where the function patterns of a symbol lie. */
module SymbolGeometry {
  import opened CapacityTables
  import opened Grids

  function SizeOf(ver: Version): nat {
    ver * 4 + 17
  }

  // Alignment patterns

  function NumAlign(ver: Version): nat {
    if ver == 1 then 0 else ver / 7 + 2
  }

  function AlignStep(ver: Version): int
    requires ver >= 2
  {
    var numAlign := ver / 7 + 2;
    if ver == 32 then 26 else (ver * 4 + numAlign * 2 + 1) / (numAlign * 2 - 2) * 2
  }

  function AlignPosition(ver: Version, i: nat): int
    requires i < NumAlign(ver)
  {
    if i == 0 then 6 else SizeOf(ver) - 7 - (NumAlign(ver) - 1 - i) * AlignStep(ver)
  }

  /** Neighbouring positions are at least 16 apart and all but the first lie beyond the finder patterns. */
  lemma AlignStepSound(ver: Version)
    requires ver >= 2
    ensures NumAlign(ver) >= 2 && (NumAlign(ver) >= 3 ==> AlignStep(ver) >= 16)
    ensures SizeOf(ver) - 7 - (NumAlign(ver) - 2) * AlignStep(ver) >= 18
  {
    var n := NumAlign(ver);
    if n == 2 {
    } else if n == 3 {
    } else if n == 4 {
    } else if n == 5 {
    } else if n == 6 {
    } else {
    }
  }

  lemma AlignPositionNext(ver: Version, i: nat)
    requires 1 <= i && i + 1 < NumAlign(ver)
    ensures AlignPosition(ver, i + 1) == AlignPosition(ver, i) + AlignStep(ver)
  {
    var n, s := NumAlign(ver), AlignStep(ver);
    assert (n - 1 - i) * s == (n - 2 - i) * s + s;
  }

  lemma {:induction false} AlignPositionsApart(ver: Version, i: nat, j: nat)
    requires 1 <= i < j < NumAlign(ver)
    ensures AlignPosition(ver, i) + 16 <= AlignPosition(ver, j)
    decreases j
  {
    AlignStepSound(ver);
    AlignPositionNext(ver, j - 1);
    if i < j - 1 {
      AlignPositionsApart(ver, i, j - 1);
    }
  }

  /** Every position but the first is between 18 and the last one, size - 7. */
  lemma AlignPositionRange(ver: Version, i: nat)
    requires 1 <= i < NumAlign(ver)
    ensures 18 <= AlignPosition(ver, i) <= SizeOf(ver) - 7
    ensures i < NumAlign(ver) - 1 ==> AlignPosition(ver, i) <= SizeOf(ver) - 23
  {
    hide AlignStep;
    AlignStepSound(ver);
    var last := NumAlign(ver) - 1;
    if i > 1 {
      AlignPositionsApart(ver, 1, i);
    }
    if i < last {
      AlignPositionsApart(ver, i, last);
    }
  }

  lemma FirstPosition(ver: Version)
    ensures NumAlign(ver) > 0 ==> NumAlign(ver) >= 2 && AlignPosition(ver, 0) == 6
  {}

  /**
   The step is the least even number with which the positions reach back to 6 or further, so the first gap is the only
   one that can be smaller; in version 32 it is one less, and the first gap is larger.
   */
  lemma AlignStepLeast(ver: Version)
    requires ver >= 2
    ensures AlignStep(ver) % 2 == 0
    ensures var gaps, span := NumAlign(ver) - 1, SizeOf(ver) - 7 - 6;
            if ver == 32 then AlignStep(ver) == 26 && gaps * 26 < span <= gaps * 28
            else gaps * (AlignStep(ver) - 2) < span <= gaps * AlignStep(ver)
  {
    var n := NumAlign(ver);
    if n == 2 {
    } else if n == 3 {
    } else if n == 4 {
    } else if n == 5 {
    } else if n == 6 {
    } else {
    }
  }

  lemma AlignStepEven(ver: Version)
    requires ver >= 2
    ensures AlignStep(ver) % 2 == 0
  {
    hide NumAlign;
    AlignStepLeast(ver);
  }

  lemma EvenMultiple(n: int, step: int)
    requires step % 2 == 0
    ensures n * step % 2 == 0
  {
    assert n * step == 2 * (n * (step / 2));
  }

  lemma EvenDifference(a: int, b: int)
    requires a % 2 == 0 && b % 2 == 0
    ensures (a - b) % 2 == 0
  {}

  lemma AlignPositionFromEnd(ver: Version, i: nat)
    requires 0 < i < NumAlign(ver)
    ensures ver >= 2
    ensures AlignPosition(ver, i) == 4 * ver + 10 - (NumAlign(ver) - 1 - i) * AlignStep(ver)
  {
    hide AlignStep;
  }

  lemma AlignPositionEven(ver: Version, i: nat)
    requires i < NumAlign(ver)
    ensures AlignPosition(ver, i) % 2 == 0
  {
    if i > 0 {
      hide AlignStep, NumAlign, AlignPosition;
      AlignPositionFromEnd(ver, i);
      AlignStepEven(ver);
      EvenMultiple(NumAlign(ver) - 1 - i, AlignStep(ver));
      EvenDifference(4 * ver + 10, (NumAlign(ver) - 1 - i) * AlignStep(ver));
    }
  }

  ghost predicate Ascending(s: seq<int>) {
    forall i, j | 0 <= i < j < |s| :: s[i] < s[j]
  }

  /** `getAlignmentPatternPositions` */
  method GetAlignmentPatternPositions(ver: Version) returns (result: seq<int>)
    ensures |result| == NumAlign(ver)
    ensures forall i | 0 <= i < |result| :: result[i] == AlignPosition(ver, i)
    ensures Ascending(result)
  {
    result := [];
    if ver == 1 {
      return;
    }
    var numAlign := ver / 7 + 2;
    var step := AlignStep(ver);
    var pos := SizeOf(ver) - 7;
    for i := 0 to numAlign - 1
      invariant pos == SizeOf(ver) - 7 - i * step
      invariant |result| == i
      invariant forall k | 0 <= k < i :: result[k] == AlignPosition(ver, numAlign - i + k)
    {
      result := [pos] + result;
      pos := pos - step;
      assert (i + 1) * step == i * step + step;
    }
    result := [6] + result;
    forall i, j | 0 <= i < j < |result|
      ensures result[i] < result[j]
    {
      AlignPositionRange(ver, j);
      if i > 0 {
        AlignPositionsApart(ver, i, j);
      }
    }
  }

  // The regions, within the grid

  predicate TimingCell(c: Cell) {
    c.x == 6 || c.y == 6
  }

  /** The three finder patterns with their separators. */
  predicate FinderCell(ver: Version, c: Cell) {
    || (c.x <= 7 && c.y <= 7)
    || (c.x >= SizeOf(ver) - 8 && c.y <= 7)
    || (c.x <= 7 && c.y >= SizeOf(ver) - 8)
  }

  /** The two copies of the format bits and the dark module. */
  predicate FormatCell(ver: Version, c: Cell) {
    || (c.x == 8 && ((c.y <= 8 && c.y != 6) || c.y >= SizeOf(ver) - 8))
    || (c.y == 8 && ((c.x <= 8 && c.x != 6) || c.x >= SizeOf(ver) - 8))
  }

  /** The two copies of the version bits. */
  predicate VersionCell(ver: Version, c: Cell) {
    && ver >= 7
    && (|| (SizeOf(ver) - 11 <= c.x <= SizeOf(ver) - 9 && c.y <= 5)
        || (SizeOf(ver) - 11 <= c.y <= SizeOf(ver) - 9 && c.x <= 5))
  }

  predicate NearAlign(ver: Version, i: nat, v: int)
    requires i < NumAlign(ver)
  {
    AlignPosition(ver, i) - 2 <= v <= AlignPosition(ver, i) + 2
  }

  /** Not one of the three finder corners. */
  predicate IsAlignPair(ver: Version, i: nat, j: nat) {
    && i < NumAlign(ver) && j < NumAlign(ver)
    && !(i == 0 && j == 0) && !(i == 0 && j == NumAlign(ver) - 1) && !(i == NumAlign(ver) - 1 && j == 0)
  }

  ghost predicate AlignCell(ver: Version, c: Cell) {
    exists i: nat, j: nat | IsAlignPair(ver, i, j) :: NearAlign(ver, i, c.x) && NearAlign(ver, j, c.y)
  }

  /** The cells that `drawFunctionPatterns` marks. */
  ghost predicate FunctionCell(ver: Version, c: Cell) {
    TimingCell(c) || FinderCell(ver, c) || FormatCell(ver, c) || VersionCell(ver, c) || AlignCell(ver, c)
  }
}
