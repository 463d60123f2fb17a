/**
 Versions, error correction levels and the capacity tables. The checks that the code makes on them at
 run time are facts about all forty versions and four levels.
 */
module CapacityTables {

  const MIN_VERSION := 1
  const MAX_VERSION := 40

  type Version = v: int | 1 <= v <= 40 witness 1

  datatype Ecc = Low | Medium | Quartile | High {

    function Ordinal(): int {
      match this
      case Low => 0
      case Medium => 1
      case Quartile => 2
      case High => 3
    }
  }

  /** The error correction codewords per block and the number of blocks at each level. */
  datatype Blocks = Blocks(eccLow: int, numLow: int, eccMedium: int, numMedium: int,
                           eccQuartile: int, numQuartile: int, eccHigh: int, numHigh: int)

  // ECC_CODEWORDS_PER_BLOCK and NUM_ERROR_CORRECTION_BLOCKS, column by column

  function BlocksOf(ver: Version): Blocks {
    if ver <= 10 then BlocksTo10(ver) else if ver <= 20 then BlocksTo20(ver)
    else if ver <= 30 then BlocksTo30(ver) else BlocksTo40(ver)
  }

  function BlocksTo10(ver: Version): Blocks
    requires 1 <= ver <= 10
  {
    match ver
    case 1 => Blocks(7, 1, 10, 1, 13, 1, 17, 1)
    case 2 => Blocks(10, 1, 16, 1, 22, 1, 28, 1)
    case 3 => Blocks(15, 1, 26, 1, 18, 2, 22, 2)
    case 4 => Blocks(20, 1, 18, 2, 26, 2, 16, 4)
    case 5 => Blocks(26, 1, 24, 2, 18, 4, 22, 4)
    case 6 => Blocks(18, 2, 16, 4, 24, 4, 28, 4)
    case 7 => Blocks(20, 2, 18, 4, 18, 6, 26, 5)
    case 8 => Blocks(24, 2, 22, 4, 22, 6, 26, 6)
    case 9 => Blocks(30, 2, 22, 5, 20, 8, 24, 8)
    case 10 => Blocks(18, 4, 26, 5, 24, 8, 28, 8)
  }

  function BlocksTo20(ver: Version): Blocks
    requires 11 <= ver <= 20
  {
    match ver
    case 11 => Blocks(20, 4, 30, 5, 28, 8, 24, 11)
    case 12 => Blocks(24, 4, 22, 8, 26, 10, 28, 11)
    case 13 => Blocks(26, 4, 22, 9, 24, 12, 22, 16)
    case 14 => Blocks(30, 4, 24, 9, 20, 16, 24, 16)
    case 15 => Blocks(22, 6, 24, 10, 30, 12, 24, 18)
    case 16 => Blocks(24, 6, 28, 10, 24, 17, 30, 16)
    case 17 => Blocks(28, 6, 28, 11, 28, 16, 28, 19)
    case 18 => Blocks(30, 6, 26, 13, 28, 18, 28, 21)
    case 19 => Blocks(28, 7, 26, 14, 26, 21, 26, 25)
    case 20 => Blocks(28, 8, 26, 16, 30, 20, 28, 25)
  }

  function BlocksTo30(ver: Version): Blocks
    requires 21 <= ver <= 30
  {
    match ver
    case 21 => Blocks(28, 8, 26, 17, 28, 23, 30, 25)
    case 22 => Blocks(28, 9, 28, 17, 30, 23, 24, 34)
    case 23 => Blocks(30, 9, 28, 18, 30, 25, 30, 30)
    case 24 => Blocks(30, 10, 28, 20, 30, 27, 30, 32)
    case 25 => Blocks(26, 12, 28, 21, 30, 29, 30, 35)
    case 26 => Blocks(28, 12, 28, 23, 28, 34, 30, 37)
    case 27 => Blocks(30, 12, 28, 25, 30, 34, 30, 40)
    case 28 => Blocks(30, 13, 28, 26, 30, 35, 30, 42)
    case 29 => Blocks(30, 14, 28, 28, 30, 38, 30, 45)
    case 30 => Blocks(30, 15, 28, 29, 30, 40, 30, 48)
  }

  function BlocksTo40(ver: Version): Blocks
    requires 31 <= ver <= 40
  {
    match ver
    case 31 => Blocks(30, 16, 28, 31, 30, 43, 30, 51)
    case 32 => Blocks(30, 17, 28, 33, 30, 45, 30, 54)
    case 33 => Blocks(30, 18, 28, 35, 30, 48, 30, 57)
    case 34 => Blocks(30, 19, 28, 37, 30, 51, 30, 60)
    case 35 => Blocks(30, 19, 28, 38, 30, 53, 30, 63)
    case 36 => Blocks(30, 20, 28, 40, 30, 56, 30, 66)
    case 37 => Blocks(30, 21, 28, 43, 30, 59, 30, 70)
    case 38 => Blocks(30, 22, 28, 45, 30, 62, 30, 74)
    case 39 => Blocks(30, 24, 28, 47, 30, 65, 30, 77)
    case 40 => Blocks(30, 25, 28, 49, 30, 68, 30, 81)
  }

  function EccPerBlock(ver: Version, ecl: Ecc): int {
    match ecl
    case Low => BlocksOf(ver).eccLow
    case Medium => BlocksOf(ver).eccMedium
    case Quartile => BlocksOf(ver).eccQuartile
    case High => BlocksOf(ver).eccHigh
  }

  function NumBlocks(ver: Version, ecl: Ecc): int {
    match ecl
    case Low => BlocksOf(ver).numLow
    case Medium => BlocksOf(ver).numMedium
    case Quartile => BlocksOf(ver).numQuartile
    case High => BlocksOf(ver).numHigh
  }

  /** `getNumRawDataModules` without its final check. */
  function NumRawDataModules(ver: Version): int {
    var result := (16 * ver + 128) * ver + 64;
    if ver < 2 then result
    else
      var numAlign := ver / 7 + 2;
      result - ((25 * numAlign - 10) * numAlign - 55) - (if ver >= 7 then 36 else 0)
  }

  function RawCodewords(ver: Version): int {
    NumRawDataModules(ver) / 8
  }

  /** `getNumDataCodewords` */
  function NumDataCodewords(ver: Version, ecl: Ecc): int {
    RawCodewords(ver) - EccPerBlock(ver, ecl) * NumBlocks(ver, ecl)
  }

  // The facts the encoder relies on

  /** Every block has data, error correction bytes and at most 255 bytes in all. */
  ghost predicate BlocksSound(ver: Version, ecl: Ecc) {
    var b, e, raw := NumBlocks(ver, ecl), EccPerBlock(ver, ecl), RawCodewords(ver);
    1 <= b && 1 <= e && (e + 1) * b <= raw < 255 * b
  }

  ghost predicate VersionSound(ver: Version) {
    && BlocksSound(ver, Low) && BlocksSound(ver, Medium) && BlocksSound(ver, Quartile) && BlocksSound(ver, High)
    && NumDataCodewords(ver, Low) > NumDataCodewords(ver, Medium) > NumDataCodewords(ver, Quartile)
    && NumDataCodewords(ver, Quartile) > NumDataCodewords(ver, High)
  }

  /** The check in `getNumRawDataModules` never fails. */
  lemma RawModulesInRange(ver: Version)
    ensures 208 <= NumRawDataModules(ver) <= 29648
  {
    var n := ver / 7 + 2;
    if n == 2 {
    } else if n == 3 {
    } else if n == 4 {
    } else if n == 5 {
    } else if n == 6 {
    } else {
    }
  }

  /** The facts of a version, from its raw codewords and its table column. */
  ghost predicate ColumnSound(raw: int, c: Blocks) {
    && 1 <= c.numLow && 1 <= c.eccLow && (c.eccLow + 1) * c.numLow <= raw < 255 * c.numLow
    && 1 <= c.numMedium && 1 <= c.eccMedium && (c.eccMedium + 1) * c.numMedium <= raw < 255 * c.numMedium
    && 1 <= c.numQuartile && 1 <= c.eccQuartile && (c.eccQuartile + 1) * c.numQuartile <= raw < 255 * c.numQuartile
    && 1 <= c.numHigh && 1 <= c.eccHigh && (c.eccHigh + 1) * c.numHigh <= raw < 255 * c.numHigh
    && c.eccLow * c.numLow < c.eccMedium * c.numMedium < c.eccQuartile * c.numQuartile < c.eccHigh * c.numHigh
  }

  /** Evaluates the facts of one column; the arguments are constants. */
  lemma ColumnIsSound(raw: int, e0: int, n0: int, e1: int, n1: int, e2: int, n2: int, e3: int, n3: int)
    requires 1 <= n0 && 1 <= e0 && (e0 + 1) * n0 <= raw < 255 * n0
    requires 1 <= n1 && 1 <= e1 && (e1 + 1) * n1 <= raw < 255 * n1
    requires 1 <= n2 && 1 <= e2 && (e2 + 1) * n2 <= raw < 255 * n2
    requires 1 <= n3 && 1 <= e3 && (e3 + 1) * n3 <= raw < 255 * n3
    requires e0 * n0 < e1 * n1 < e2 * n2 < e3 * n3
    ensures ColumnSound(raw, Blocks(e0, n0, e1, n1, e2, n2, e3, n3))
  {}

  lemma Versions1To5(ver: Version)
    requires 1 <= ver <= 5
    ensures ColumnSound(RawCodewords(ver), BlocksOf(ver))
  {
    hide ColumnSound;
    match ver
    case 1 => ColumnIsSound(26, 7, 1, 10, 1, 13, 1, 17, 1);
    case 2 => ColumnIsSound(44, 10, 1, 16, 1, 22, 1, 28, 1);
    case 3 => ColumnIsSound(70, 15, 1, 26, 1, 18, 2, 22, 2);
    case 4 => ColumnIsSound(100, 20, 1, 18, 2, 26, 2, 16, 4);
    case 5 => ColumnIsSound(134, 26, 1, 24, 2, 18, 4, 22, 4);
  }

  lemma Versions6To10(ver: Version)
    requires 6 <= ver <= 10
    ensures ColumnSound(RawCodewords(ver), BlocksOf(ver))
  {
    hide ColumnSound;
    match ver
    case 6 => ColumnIsSound(172, 18, 2, 16, 4, 24, 4, 28, 4);
    case 7 => ColumnIsSound(196, 20, 2, 18, 4, 18, 6, 26, 5);
    case 8 => ColumnIsSound(242, 24, 2, 22, 4, 22, 6, 26, 6);
    case 9 => ColumnIsSound(292, 30, 2, 22, 5, 20, 8, 24, 8);
    case 10 => ColumnIsSound(346, 18, 4, 26, 5, 24, 8, 28, 8);
  }

  lemma Versions11To15(ver: Version)
    requires 11 <= ver <= 15
    ensures ColumnSound(RawCodewords(ver), BlocksOf(ver))
  {
    hide ColumnSound;
    match ver
    case 11 => ColumnIsSound(404, 20, 4, 30, 5, 28, 8, 24, 11);
    case 12 => ColumnIsSound(466, 24, 4, 22, 8, 26, 10, 28, 11);
    case 13 => ColumnIsSound(532, 26, 4, 22, 9, 24, 12, 22, 16);
    case 14 => ColumnIsSound(581, 30, 4, 24, 9, 20, 16, 24, 16);
    case 15 => ColumnIsSound(655, 22, 6, 24, 10, 30, 12, 24, 18);
  }

  lemma Versions16To20(ver: Version)
    requires 16 <= ver <= 20
    ensures ColumnSound(RawCodewords(ver), BlocksOf(ver))
  {
    hide ColumnSound;
    match ver
    case 16 => ColumnIsSound(733, 24, 6, 28, 10, 24, 17, 30, 16);
    case 17 => ColumnIsSound(815, 28, 6, 28, 11, 28, 16, 28, 19);
    case 18 => ColumnIsSound(901, 30, 6, 26, 13, 28, 18, 28, 21);
    case 19 => ColumnIsSound(991, 28, 7, 26, 14, 26, 21, 26, 25);
    case 20 => ColumnIsSound(1085, 28, 8, 26, 16, 30, 20, 28, 25);
  }

  lemma Versions21To25(ver: Version)
    requires 21 <= ver <= 25
    ensures ColumnSound(RawCodewords(ver), BlocksOf(ver))
  {
    hide ColumnSound;
    match ver
    case 21 => ColumnIsSound(1156, 28, 8, 26, 17, 28, 23, 30, 25);
    case 22 => ColumnIsSound(1258, 28, 9, 28, 17, 30, 23, 24, 34);
    case 23 => ColumnIsSound(1364, 30, 9, 28, 18, 30, 25, 30, 30);
    case 24 => ColumnIsSound(1474, 30, 10, 28, 20, 30, 27, 30, 32);
    case 25 => ColumnIsSound(1588, 26, 12, 28, 21, 30, 29, 30, 35);
  }

  lemma Versions26To30(ver: Version)
    requires 26 <= ver <= 30
    ensures ColumnSound(RawCodewords(ver), BlocksOf(ver))
  {
    hide ColumnSound;
    match ver
    case 26 => ColumnIsSound(1706, 28, 12, 28, 23, 28, 34, 30, 37);
    case 27 => ColumnIsSound(1828, 30, 12, 28, 25, 30, 34, 30, 40);
    case 28 => ColumnIsSound(1921, 30, 13, 28, 26, 30, 35, 30, 42);
    case 29 => ColumnIsSound(2051, 30, 14, 28, 28, 30, 38, 30, 45);
    case 30 => ColumnIsSound(2185, 30, 15, 28, 29, 30, 40, 30, 48);
  }

  lemma Versions31To35(ver: Version)
    requires 31 <= ver <= 35
    ensures ColumnSound(RawCodewords(ver), BlocksOf(ver))
  {
    hide ColumnSound;
    match ver
    case 31 => ColumnIsSound(2323, 30, 16, 28, 31, 30, 43, 30, 51);
    case 32 => ColumnIsSound(2465, 30, 17, 28, 33, 30, 45, 30, 54);
    case 33 => ColumnIsSound(2611, 30, 18, 28, 35, 30, 48, 30, 57);
    case 34 => ColumnIsSound(2761, 30, 19, 28, 37, 30, 51, 30, 60);
    case 35 => ColumnIsSound(2876, 30, 19, 28, 38, 30, 53, 30, 63);
  }

  lemma Versions36To40(ver: Version)
    requires 36 <= ver <= 40
    ensures ColumnSound(RawCodewords(ver), BlocksOf(ver))
  {
    hide ColumnSound;
    match ver
    case 36 => ColumnIsSound(3034, 30, 20, 28, 40, 30, 56, 30, 66);
    case 37 => ColumnIsSound(3196, 30, 21, 28, 43, 30, 59, 30, 70);
    case 38 => ColumnIsSound(3362, 30, 22, 28, 45, 30, 62, 30, 74);
    case 39 => ColumnIsSound(3532, 30, 24, 28, 47, 30, 65, 30, 77);
    case 40 => ColumnIsSound(3706, 30, 25, 28, 49, 30, 68, 30, 81);
  }

  lemma EveryVersionSound(ver: Version)
    ensures VersionSound(ver)
  {
    assert ColumnSound(RawCodewords(ver), BlocksOf(ver)) by {
      hide ColumnSound, RawCodewords, BlocksOf;
      if ver <= 5 {
        Versions1To5(ver);
      } else if ver <= 10 {
        Versions6To10(ver);
      } else if ver <= 15 {
        Versions11To15(ver);
      } else if ver <= 20 {
        Versions16To20(ver);
      } else if ver <= 25 {
        Versions21To25(ver);
      } else if ver <= 30 {
        Versions26To30(ver);
      } else if ver <= 35 {
        Versions31To35(ver);
      } else {
        Versions36To40(ver);
      }
    }
    hide RawCodewords, BlocksOf;
  }
}
