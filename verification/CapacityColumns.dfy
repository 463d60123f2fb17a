/** What each version holds, as numbers, and how many errors it tolerates. */
module CapacityColumns {
  import opened CapacityTables

  /** All codewords of a version, and its data codewords at each level. */
  datatype Column = Column(raw: int, low: int, medium: int, quartile: int, high: int)

  function ColumnOf(ver: Version): Column {
    if ver <= 10 then ColumnTo10(ver) else if ver <= 20 then ColumnTo20(ver)
    else if ver <= 30 then ColumnTo30(ver) else ColumnTo40(ver)
  }

  function ColumnTo10(ver: Version): Column
    requires 1 <= ver <= 10
  {
    match ver
    case 1 => Column(26, 19, 16, 13, 9)
    case 2 => Column(44, 34, 28, 22, 16)
    case 3 => Column(70, 55, 44, 34, 26)
    case 4 => Column(100, 80, 64, 48, 36)
    case 5 => Column(134, 108, 86, 62, 46)
    case 6 => Column(172, 136, 108, 76, 60)
    case 7 => Column(196, 156, 124, 88, 66)
    case 8 => Column(242, 194, 154, 110, 86)
    case 9 => Column(292, 232, 182, 132, 100)
    case 10 => Column(346, 274, 216, 154, 122)
  }

  function ColumnTo20(ver: Version): Column
    requires 11 <= ver <= 20
  {
    match ver
    case 11 => Column(404, 324, 254, 180, 140)
    case 12 => Column(466, 370, 290, 206, 158)
    case 13 => Column(532, 428, 334, 244, 180)
    case 14 => Column(581, 461, 365, 261, 197)
    case 15 => Column(655, 523, 415, 295, 223)
    case 16 => Column(733, 589, 453, 325, 253)
    case 17 => Column(815, 647, 507, 367, 283)
    case 18 => Column(901, 721, 563, 397, 313)
    case 19 => Column(991, 795, 627, 445, 341)
    case 20 => Column(1085, 861, 669, 485, 385)
  }

  function ColumnTo30(ver: Version): Column
    requires 21 <= ver <= 30
  {
    match ver
    case 21 => Column(1156, 932, 714, 512, 406)
    case 22 => Column(1258, 1006, 782, 568, 442)
    case 23 => Column(1364, 1094, 860, 614, 464)
    case 24 => Column(1474, 1174, 914, 664, 514)
    case 25 => Column(1588, 1276, 1000, 718, 538)
    case 26 => Column(1706, 1370, 1062, 754, 596)
    case 27 => Column(1828, 1468, 1128, 808, 628)
    case 28 => Column(1921, 1531, 1193, 871, 661)
    case 29 => Column(2051, 1631, 1267, 911, 701)
    case 30 => Column(2185, 1735, 1373, 985, 745)
  }

  function ColumnTo40(ver: Version): Column
    requires 31 <= ver <= 40
  {
    match ver
    case 31 => Column(2323, 1843, 1455, 1033, 793)
    case 32 => Column(2465, 1955, 1541, 1115, 845)
    case 33 => Column(2611, 2071, 1631, 1171, 901)
    case 34 => Column(2761, 2191, 1725, 1231, 961)
    case 35 => Column(2876, 2306, 1812, 1286, 986)
    case 36 => Column(3034, 2434, 1914, 1354, 1054)
    case 37 => Column(3196, 2566, 1992, 1426, 1096)
    case 38 => Column(3362, 2702, 2102, 1502, 1142)
    case 39 => Column(3532, 2812, 2216, 1582, 1222)
    case 40 => Column(3706, 2956, 2334, 1666, 1276)
  }

  ghost predicate Holds(ver: Version, c: Column) {
    && RawCodewords(ver) == c.raw
    && NumDataCodewords(ver, Low) == c.low && NumDataCodewords(ver, Medium) == c.medium
    && NumDataCodewords(ver, Quartile) == c.quartile && NumDataCodewords(ver, High) == c.high
  }

  lemma Columns1To5(ver: Version)
    requires 1 <= ver <= 5
    ensures Holds(ver, ColumnOf(ver))
  {
    match ver
    case 1 =>
    case 2 =>
    case 3 =>
    case 4 =>
    case 5 =>
  }

  lemma Columns6To10(ver: Version)
    requires 6 <= ver <= 10
    ensures Holds(ver, ColumnOf(ver))
  {
    match ver
    case 6 =>
    case 7 =>
    case 8 =>
    case 9 =>
    case 10 =>
  }

  lemma Columns11To15(ver: Version)
    requires 11 <= ver <= 15
    ensures Holds(ver, ColumnOf(ver))
  {
    match ver
    case 11 =>
    case 12 =>
    case 13 =>
    case 14 =>
    case 15 =>
  }

  lemma Columns16To20(ver: Version)
    requires 16 <= ver <= 20
    ensures Holds(ver, ColumnOf(ver))
  {
    match ver
    case 16 =>
    case 17 =>
    case 18 =>
    case 19 =>
    case 20 =>
  }

  lemma Columns21To25(ver: Version)
    requires 21 <= ver <= 25
    ensures Holds(ver, ColumnOf(ver))
  {
    match ver
    case 21 =>
    case 22 =>
    case 23 =>
    case 24 =>
    case 25 =>
  }

  lemma Columns26To30(ver: Version)
    requires 26 <= ver <= 30
    ensures Holds(ver, ColumnOf(ver))
  {
    match ver
    case 26 =>
    case 27 =>
    case 28 =>
    case 29 =>
    case 30 =>
  }

  lemma Columns31To35(ver: Version)
    requires 31 <= ver <= 35
    ensures Holds(ver, ColumnOf(ver))
  {
    match ver
    case 31 =>
    case 32 =>
    case 33 =>
    case 34 =>
    case 35 =>
  }

  lemma Columns36To40(ver: Version)
    requires 36 <= ver <= 40
    ensures Holds(ver, ColumnOf(ver))
  {
    match ver
    case 36 =>
    case 37 =>
    case 38 =>
    case 39 =>
    case 40 =>
  }

  /** Every version holds the codewords of its column. */
  lemma ColumnHolds(ver: Version)
    ensures Holds(ver, ColumnOf(ver))
  {
    hide Holds, ColumnOf;
    if ver <= 5 {
      Columns1To5(ver);
    } else if ver <= 10 {
      Columns6To10(ver);
    } else if ver <= 15 {
      Columns11To15(ver);
    } else if ver <= 20 {
      Columns16To20(ver);
    } else if ver <= 25 {
      Columns21To25(ver);
    } else if ver <= 30 {
      Columns26To30(ver);
    } else if ver <= 35 {
      Columns31To35(ver);
    } else {
      Columns36To40(ver);
    }
  }

  /** How far the low level reaches in each range of versions that shares its count fields. */
  lemma LowBounds(ver: Version)
    ensures NumDataCodewords(ver, Low) <= if ver <= 9 then 232 else if ver <= 26 then 1370 else 2956
  {
    hide NumDataCodewords, RawCodewords;
    ColumnHolds(ver);
  }

  // Errors tolerated

  /** The share of wrong codewords, in percent, that a level is meant to tolerate. */
  function Percent(ecl: Ecc): int {
    match ecl
    case Low => 7
    case Medium => 15
    case Quartile => 25
    case High => 30
  }

  /** The wrong codewords a symbol tolerates: half the check codewords of every block. */
  function Tolerated(ver: Version, ecl: Ecc): int {
    EccPerBlock(ver, ecl) / 2 * NumBlocks(ver, ecl)
  }

  /** As many as promised, but not five percent more, except that version 1 tolerates 6 of 26 at the quartile level. */
  ghost predicate Tolerant(ver: Version, ecl: Ecc) {
    var percent := if ver == 1 && ecl == Quartile then 23 else Percent(ecl);
    percent * RawCodewords(ver) <= 100 * Tolerated(ver, ecl) < (percent + 5) * RawCodewords(ver)
  }

  ghost predicate AllTolerant(ver: Version) {
    Tolerant(ver, Low) && Tolerant(ver, Medium) && Tolerant(ver, Quartile) && Tolerant(ver, High)
  }

  /** Evaluates the shares of one version; all arguments but the version are constants. */
  lemma TolerantColumn(ver: Version, raw: int, low: int, medium: int, quartile: int, high: int)
    requires ver > 1 && RawCodewords(ver) == raw
    requires Tolerated(ver, Low) == low && Tolerated(ver, Medium) == medium
    requires Tolerated(ver, Quartile) == quartile && Tolerated(ver, High) == high
    requires 7 * raw <= 100 * low < 12 * raw && 15 * raw <= 100 * medium < 20 * raw
    requires 25 * raw <= 100 * quartile < 30 * raw && 30 * raw <= 100 * high < 35 * raw
    ensures AllTolerant(ver)
  {
    hide RawCodewords, Tolerated;
  }

  lemma TolerantFirst()
    ensures AllTolerant(1)
  {
    ColumnHolds(1);
    hide RawCodewords;
  }

  lemma Tolerant2To5(ver: Version)
    requires 2 <= ver <= 5
    ensures AllTolerant(ver)
  {
    hide AllTolerant;
    match ver
    case 2 => TolerantColumn(ver, 44, 5, 8, 11, 14);
    case 3 => TolerantColumn(ver, 70, 7, 13, 18, 22);
    case 4 => TolerantColumn(ver, 100, 10, 18, 26, 32);
    case 5 => TolerantColumn(ver, 134, 13, 24, 36, 44);
  }

  lemma Tolerant6To10(ver: Version)
    requires 6 <= ver <= 10
    ensures AllTolerant(ver)
  {
    hide AllTolerant;
    match ver
    case 6 => TolerantColumn(ver, 172, 18, 32, 48, 56);
    case 7 => TolerantColumn(ver, 196, 20, 36, 54, 65);
    case 8 => TolerantColumn(ver, 242, 24, 44, 66, 78);
    case 9 => TolerantColumn(ver, 292, 30, 55, 80, 96);
    case 10 => TolerantColumn(ver, 346, 36, 65, 96, 112);
  }

  lemma Tolerant11To15(ver: Version)
    requires 11 <= ver <= 15
    ensures AllTolerant(ver)
  {
    hide AllTolerant;
    match ver
    case 11 => TolerantColumn(ver, 404, 40, 75, 112, 132);
    case 12 => TolerantColumn(ver, 466, 48, 88, 130, 154);
    case 13 => TolerantColumn(ver, 532, 52, 99, 144, 176);
    case 14 => TolerantColumn(ver, 581, 60, 108, 160, 192);
    case 15 => TolerantColumn(ver, 655, 66, 120, 180, 216);
  }

  lemma Tolerant16To20(ver: Version)
    requires 16 <= ver <= 20
    ensures AllTolerant(ver)
  {
    hide AllTolerant;
    match ver
    case 16 => TolerantColumn(ver, 733, 72, 140, 204, 240);
    case 17 => TolerantColumn(ver, 815, 84, 154, 224, 266);
    case 18 => TolerantColumn(ver, 901, 90, 169, 252, 294);
    case 19 => TolerantColumn(ver, 991, 98, 182, 273, 325);
    case 20 => TolerantColumn(ver, 1085, 112, 208, 300, 350);
  }

  lemma Tolerant21To25(ver: Version)
    requires 21 <= ver <= 25
    ensures AllTolerant(ver)
  {
    hide AllTolerant;
    match ver
    case 21 => TolerantColumn(ver, 1156, 112, 221, 322, 375);
    case 22 => TolerantColumn(ver, 1258, 126, 238, 345, 408);
    case 23 => TolerantColumn(ver, 1364, 135, 252, 375, 450);
    case 24 => TolerantColumn(ver, 1474, 150, 280, 405, 480);
    case 25 => TolerantColumn(ver, 1588, 156, 294, 435, 525);
  }

  lemma Tolerant26To30(ver: Version)
    requires 26 <= ver <= 30
    ensures AllTolerant(ver)
  {
    hide AllTolerant;
    match ver
    case 26 => TolerantColumn(ver, 1706, 168, 322, 476, 555);
    case 27 => TolerantColumn(ver, 1828, 180, 350, 510, 600);
    case 28 => TolerantColumn(ver, 1921, 195, 364, 525, 630);
    case 29 => TolerantColumn(ver, 2051, 210, 392, 570, 675);
    case 30 => TolerantColumn(ver, 2185, 225, 406, 600, 720);
  }

  lemma Tolerant31To35(ver: Version)
    requires 31 <= ver <= 35
    ensures AllTolerant(ver)
  {
    hide AllTolerant;
    match ver
    case 31 => TolerantColumn(ver, 2323, 240, 434, 645, 765);
    case 32 => TolerantColumn(ver, 2465, 255, 462, 675, 810);
    case 33 => TolerantColumn(ver, 2611, 270, 490, 720, 855);
    case 34 => TolerantColumn(ver, 2761, 285, 518, 765, 900);
    case 35 => TolerantColumn(ver, 2876, 285, 532, 795, 945);
  }

  lemma Tolerant36To40(ver: Version)
    requires 36 <= ver <= 40
    ensures AllTolerant(ver)
  {
    hide AllTolerant;
    match ver
    case 36 => TolerantColumn(ver, 3034, 300, 560, 840, 990);
    case 37 => TolerantColumn(ver, 3196, 315, 602, 885, 1050);
    case 38 => TolerantColumn(ver, 3362, 330, 630, 930, 1110);
    case 39 => TolerantColumn(ver, 3532, 360, 658, 975, 1155);
    case 40 => TolerantColumn(ver, 3706, 375, 686, 1020, 1215);
  }

  lemma EveryLevelTolerant(ver: Version, ecl: Ecc)
    ensures Tolerant(ver, ecl)
  {
    hide Tolerant;
    if ver == 1 {
      TolerantFirst();
    } else if ver <= 5 {
      Tolerant2To5(ver);
    } else if ver <= 10 {
      Tolerant6To10(ver);
    } else if ver <= 15 {
      Tolerant11To15(ver);
    } else if ver <= 20 {
      Tolerant16To20(ver);
    } else if ver <= 25 {
      Tolerant21To25(ver);
    } else if ver <= 30 {
      Tolerant26To30(ver);
    } else if ver <= 35 {
      Tolerant31To35(ver);
    } else {
      Tolerant36To40(ver);
    }
  }

  lemma FirstQuartile()
    ensures Tolerated(1, Quartile) == 6
  {}

  /** Every level tolerates its share of wrong codewords, but for the quartile level of version 1. */
  lemma TolerantIff(ver: Version, ecl: Ecc)
    ensures 100 * Tolerated(ver, ecl) >= Percent(ecl) * RawCodewords(ver) <==> !(ver == 1 && ecl == Quartile)
  {
    hide Tolerated, RawCodewords;
    EveryLevelTolerant(ver, ecl);
    ColumnHolds(1);
    if ver == 1 && ecl == Quartile {
      FirstQuartile();
    }
  }
}
