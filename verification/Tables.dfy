/** Error correction levels, the two block tables, and the capacities derived from them. */
module Tables {

  datatype Ecc = Low | Medium | Quartile | High

  const MIN_VERSION := 1
  const MAX_VERSION := 40

  predicate IsVersion(ver: int) { MIN_VERSION <= ver <= MAX_VERSION }

  /** One column of the two tables: error correction codewords per block, then numbers of blocks,
      each for the levels from low to high. */
  datatype Levels = Levels(
    eccLow: int, eccMedium: int, eccQuartile: int, eccHigh: int,
    blocksLow: int, blocksMedium: int, blocksQuartile: int, blocksHigh: int)

  function Column(ver: int): Levels
    requires IsVersion(ver)
  {
    if ver <= 10 then Columns1(ver)
    else if ver <= 20 then Columns11(ver)
    else if ver <= 30 then Columns21(ver)
    else Columns31(ver)
  }

  function Columns1(ver: int): Levels
    requires 1 <= ver <= 10
  {
    match ver
    case 1 => Levels( 7, 10, 13, 17,  1,  1,  1,  1)
    case 2 => Levels(10, 16, 22, 28,  1,  1,  1,  1)
    case 3 => Levels(15, 26, 18, 22,  1,  1,  2,  2)
    case 4 => Levels(20, 18, 26, 16,  1,  2,  2,  4)
    case 5 => Levels(26, 24, 18, 22,  1,  2,  4,  4)
    case 6 => Levels(18, 16, 24, 28,  2,  4,  4,  4)
    case 7 => Levels(20, 18, 18, 26,  2,  4,  6,  5)
    case 8 => Levels(24, 22, 22, 26,  2,  4,  6,  6)
    case 9 => Levels(30, 22, 20, 24,  2,  5,  8,  8)
    case _ => Levels(18, 26, 24, 28,  4,  5,  8,  8)
  }

  function Columns11(ver: int): Levels
    requires 11 <= ver <= 20
  {
    match ver
    case 11 => Levels(20, 30, 28, 24,  4,  5,  8, 11)
    case 12 => Levels(24, 22, 26, 28,  4,  8, 10, 11)
    case 13 => Levels(26, 22, 24, 22,  4,  9, 12, 16)
    case 14 => Levels(30, 24, 20, 24,  4,  9, 16, 16)
    case 15 => Levels(22, 24, 30, 24,  6, 10, 12, 18)
    case 16 => Levels(24, 28, 24, 30,  6, 10, 17, 16)
    case 17 => Levels(28, 28, 28, 28,  6, 11, 16, 19)
    case 18 => Levels(30, 26, 28, 28,  6, 13, 18, 21)
    case 19 => Levels(28, 26, 26, 26,  7, 14, 21, 25)
    case _ => Levels(28, 26, 30, 28,  8, 16, 20, 25)
  }

  function Columns21(ver: int): Levels
    requires 21 <= ver <= 30
  {
    match ver
    case 21 => Levels(28, 26, 28, 30,  8, 17, 23, 25)
    case 22 => Levels(28, 28, 30, 24,  9, 17, 23, 34)
    case 23 => Levels(30, 28, 30, 30,  9, 18, 25, 30)
    case 24 => Levels(30, 28, 30, 30, 10, 20, 27, 32)
    case 25 => Levels(26, 28, 30, 30, 12, 21, 29, 35)
    case 26 => Levels(28, 28, 28, 30, 12, 23, 34, 37)
    case 27 => Levels(30, 28, 30, 30, 12, 25, 34, 40)
    case 28 => Levels(30, 28, 30, 30, 13, 26, 35, 42)
    case 29 => Levels(30, 28, 30, 30, 14, 28, 38, 45)
    case _ => Levels(30, 28, 30, 30, 15, 29, 40, 48)
  }

  function Columns31(ver: int): Levels
    requires 31 <= ver <= 40
  {
    match ver
    case 31 => Levels(30, 28, 30, 30, 16, 31, 43, 51)
    case 32 => Levels(30, 28, 30, 30, 17, 33, 45, 54)
    case 33 => Levels(30, 28, 30, 30, 18, 35, 48, 57)
    case 34 => Levels(30, 28, 30, 30, 19, 37, 51, 60)
    case 35 => Levels(30, 28, 30, 30, 19, 38, 53, 63)
    case 36 => Levels(30, 28, 30, 30, 20, 40, 56, 66)
    case 37 => Levels(30, 28, 30, 30, 21, 43, 59, 70)
    case 38 => Levels(30, 28, 30, 30, 22, 45, 62, 74)
    case 39 => Levels(30, 28, 30, 30, 24, 47, 65, 77)
    case _ => Levels(30, 28, 30, 30, 25, 49, 68, 81)
  }

  function EccPerBlock(ver: int, ecl: Ecc): int
    requires IsVersion(ver)
  {
    match ecl
    case Low => Column(ver).eccLow
    case Medium => Column(ver).eccMedium
    case Quartile => Column(ver).eccQuartile
    case High => Column(ver).eccHigh
  }

  function NumBlocks(ver: int, ecl: Ecc): int
    requires IsVersion(ver)
  {
    match ecl
    case Low => Column(ver).blocksLow
    case Medium => Column(ver).blocksMedium
    case Quartile => Column(ver).blocksQuartile
    case High => Column(ver).blocksHigh
  }

  // ----- the tables by level -----

  /** Error correction codewords per block, one row per level; entry 0 is padding. */
  function EccRow(ecl: Ecc): (row: seq<int>)
    ensures |row| == 41
  {
    match ecl
    case Low =>
      [-1]
      + [7, 10, 15, 20, 26, 18, 20, 24, 30, 18]
      + [20, 24, 26, 30, 22, 24, 28, 30, 28, 28]
      + [28, 28, 30, 30, 26, 28, 30, 30, 30, 30]
      + [30, 30, 30, 30, 30, 30, 30, 30, 30, 30]
    case Medium =>
      [-1]
      + [10, 16, 26, 18, 24, 16, 18, 22, 22, 26]
      + [30, 22, 22, 24, 24, 28, 28, 26, 26, 26]
      + [26, 28, 28, 28, 28, 28, 28, 28, 28, 28]
      + [28, 28, 28, 28, 28, 28, 28, 28, 28, 28]
    case Quartile =>
      [-1]
      + [13, 22, 18, 26, 18, 24, 18, 22, 20, 24]
      + [28, 26, 24, 20, 30, 24, 28, 28, 26, 30]
      + [28, 30, 30, 30, 30, 28, 30, 30, 30, 30]
      + [30, 30, 30, 30, 30, 30, 30, 30, 30, 30]
    case High =>
      [-1]
      + [17, 28, 22, 16, 22, 28, 26, 26, 24, 28]
      + [24, 28, 22, 24, 24, 30, 28, 28, 26, 28]
      + [30, 24, 30, 30, 30, 30, 30, 30, 30, 30]
      + [30, 30, 30, 30, 30, 30, 30, 30, 30, 30]
  }

  /** Numbers of blocks, one row per level; entry 0 is padding. */
  function BlocksRow(ecl: Ecc): (row: seq<int>)
    ensures |row| == 41
  {
    match ecl
    case Low =>
      [-1]
      + [1, 1, 1, 1, 1, 2, 2, 2, 2, 4]
      + [4, 4, 4, 4, 6, 6, 6, 6, 7, 8]
      + [8, 9, 9, 10, 12, 12, 12, 13, 14, 15]
      + [16, 17, 18, 19, 19, 20, 21, 22, 24, 25]
    case Medium =>
      [-1]
      + [1, 1, 1, 2, 2, 4, 4, 4, 5, 5]
      + [5, 8, 9, 9, 10, 10, 11, 13, 14, 16]
      + [17, 17, 18, 20, 21, 23, 25, 26, 28, 29]
      + [31, 33, 35, 37, 38, 40, 43, 45, 47, 49]
    case Quartile =>
      [-1]
      + [1, 1, 2, 2, 4, 4, 6, 6, 8, 8]
      + [8, 10, 12, 16, 12, 17, 16, 18, 21, 20]
      + [23, 23, 25, 27, 29, 34, 34, 35, 38, 40]
      + [43, 45, 48, 51, 53, 56, 59, 62, 65, 68]
    case High =>
      [-1]
      + [1, 1, 2, 4, 4, 4, 5, 6, 8, 8]
      + [11, 11, 16, 16, 18, 16, 19, 21, 25, 25]
      + [25, 34, 30, 32, 35, 37, 40, 42, 45, 48]
      + [51, 54, 57, 60, 63, 66, 70, 74, 77, 81]
  }

  lemma LowRows1(ver: int)
    requires 1 <= ver <= 10
    ensures EccRow(Low)[ver] == Columns1(ver).eccLow && BlocksRow(Low)[ver] == Columns1(ver).blocksLow
  {}

  lemma LowRows11(ver: int)
    requires 11 <= ver <= 20
    ensures EccRow(Low)[ver] == Columns11(ver).eccLow && BlocksRow(Low)[ver] == Columns11(ver).blocksLow
  {}

  lemma LowRows21(ver: int)
    requires 21 <= ver <= 30
    ensures EccRow(Low)[ver] == Columns21(ver).eccLow && BlocksRow(Low)[ver] == Columns21(ver).blocksLow
  {}

  lemma LowRows31(ver: int)
    requires 31 <= ver <= 40
    ensures EccRow(Low)[ver] == Columns31(ver).eccLow && BlocksRow(Low)[ver] == Columns31(ver).blocksLow
  {}

  lemma MediumRows1(ver: int)
    requires 1 <= ver <= 10
    ensures EccRow(Medium)[ver] == Columns1(ver).eccMedium && BlocksRow(Medium)[ver] == Columns1(ver).blocksMedium
  {}

  lemma MediumRows11(ver: int)
    requires 11 <= ver <= 20
    ensures EccRow(Medium)[ver] == Columns11(ver).eccMedium && BlocksRow(Medium)[ver] == Columns11(ver).blocksMedium
  {}

  lemma MediumRows21(ver: int)
    requires 21 <= ver <= 30
    ensures EccRow(Medium)[ver] == Columns21(ver).eccMedium && BlocksRow(Medium)[ver] == Columns21(ver).blocksMedium
  {}

  lemma MediumRows31(ver: int)
    requires 31 <= ver <= 40
    ensures EccRow(Medium)[ver] == Columns31(ver).eccMedium && BlocksRow(Medium)[ver] == Columns31(ver).blocksMedium
  {}

  lemma QuartileRows1(ver: int)
    requires 1 <= ver <= 10
    ensures EccRow(Quartile)[ver] == Columns1(ver).eccQuartile && BlocksRow(Quartile)[ver] == Columns1(ver).blocksQuartile
  {}

  lemma QuartileRows11(ver: int)
    requires 11 <= ver <= 20
    ensures EccRow(Quartile)[ver] == Columns11(ver).eccQuartile && BlocksRow(Quartile)[ver] == Columns11(ver).blocksQuartile
  {}

  lemma QuartileRows21(ver: int)
    requires 21 <= ver <= 30
    ensures EccRow(Quartile)[ver] == Columns21(ver).eccQuartile && BlocksRow(Quartile)[ver] == Columns21(ver).blocksQuartile
  {}

  lemma QuartileRows31(ver: int)
    requires 31 <= ver <= 40
    ensures EccRow(Quartile)[ver] == Columns31(ver).eccQuartile && BlocksRow(Quartile)[ver] == Columns31(ver).blocksQuartile
  {}

  lemma HighRows1(ver: int)
    requires 1 <= ver <= 10
    ensures EccRow(High)[ver] == Columns1(ver).eccHigh && BlocksRow(High)[ver] == Columns1(ver).blocksHigh
  {}

  lemma HighRows11(ver: int)
    requires 11 <= ver <= 20
    ensures EccRow(High)[ver] == Columns11(ver).eccHigh && BlocksRow(High)[ver] == Columns11(ver).blocksHigh
  {}

  lemma HighRows21(ver: int)
    requires 21 <= ver <= 30
    ensures EccRow(High)[ver] == Columns21(ver).eccHigh && BlocksRow(High)[ver] == Columns21(ver).blocksHigh
  {}

  lemma HighRows31(ver: int)
    requires 31 <= ver <= 40
    ensures EccRow(High)[ver] == Columns31(ver).eccHigh && BlocksRow(High)[ver] == Columns31(ver).blocksHigh
  {}

  /** Every entry of the tables, version by version, is the entry of the level's row. */
  lemma TableRows(ver: int, ecl: Ecc)
    requires IsVersion(ver)
    ensures EccPerBlock(ver, ecl) == EccRow(ecl)[ver] && NumBlocks(ver, ecl) == BlocksRow(ecl)[ver]
  {
    hide EccRow, BlocksRow, Columns1, Columns11, Columns21, Columns31;
    if ver <= 10 {
      LowRows1(ver);
      MediumRows1(ver);
      QuartileRows1(ver);
      HighRows1(ver);
    } else if ver <= 20 {
      LowRows11(ver);
      MediumRows11(ver);
      QuartileRows11(ver);
      HighRows11(ver);
    } else if ver <= 30 {
      LowRows21(ver);
      MediumRows21(ver);
      QuartileRows21(ver);
      HighRows21(ver);
    } else {
      LowRows31(ver);
      MediumRows31(ver);
      QuartileRows31(ver);
      HighRows31(ver);
    }
  }

  /** The closed form for the number of modules left for codewords. */
  function NumRawDataModules(ver: int): int
    requires IsVersion(ver)
  {
    var result := (16 * ver + 128) * ver + 64;
    if ver >= 2 then
      var numAlign := ver / 7 + 2;
      result - ((25 * numAlign - 10) * numAlign - 55) - (if ver >= 7 then 36 else 0)
    else
      result
  }

  function RawCodewords(ver: int): int
    requires IsVersion(ver)
  {
    NumRawDataModules(ver) / 8
  }

  function NumDataCodewords(ver: int, ecl: Ecc): int
    requires IsVersion(ver)
  {
    RawCodewords(ver) - EccPerBlock(ver, ecl) * NumBlocks(ver, ecl)
  }

  /** The number of raw modules stays in the documented range. */
  lemma RawRange(ver: int)
    requires IsVersion(ver)
    ensures 208 <= NumRawDataModules(ver) <= 29648
    ensures 26 <= RawCodewords(ver) <= 3706
  {
    hide NumRawDataModules;
    RawValues1();
    RawValues11();
    RawValues21();
    RawValues31();
  }

  ghost predicate SoundBlocks(raw: int, ecc: int, blocks: int) {
    7 <= ecc <= 30 && 1 <= blocks <= 81 && (ecc + 1) * blocks <= raw < 254 * blocks
  }

  ghost predicate SoundColumn(ver: int)
    requires IsVersion(ver)
  {
    var c, raw := Column(ver), RawCodewords(ver);
    && SoundBlocks(raw, c.eccLow, c.blocksLow)
    && SoundBlocks(raw, c.eccMedium, c.blocksMedium)
    && SoundBlocks(raw, c.eccQuartile, c.blocksQuartile)
    && SoundBlocks(raw, c.eccHigh, c.blocksHigh)
    && raw - c.eccLow * c.blocksLow <= 2956
    && c.eccLow * c.blocksLow < c.eccMedium * c.blocksMedium
                              < c.eccQuartile * c.blocksQuartile < c.eccHigh * c.blocksHigh
  }

  lemma RawValues1()
    ensures NumRawDataModules(1) == 208 && NumRawDataModules(2) == 359 && NumRawDataModules(3) == 567 && NumRawDataModules(4) == 807 && NumRawDataModules(5) == 1079
    ensures NumRawDataModules(6) == 1383 && NumRawDataModules(7) == 1568 && NumRawDataModules(8) == 1936 && NumRawDataModules(9) == 2336 && NumRawDataModules(10) == 2768
  {}

  lemma RawValues11()
    ensures NumRawDataModules(11) == 3232 && NumRawDataModules(12) == 3728 && NumRawDataModules(13) == 4256 && NumRawDataModules(14) == 4651 && NumRawDataModules(15) == 5243
    ensures NumRawDataModules(16) == 5867 && NumRawDataModules(17) == 6523 && NumRawDataModules(18) == 7211 && NumRawDataModules(19) == 7931 && NumRawDataModules(20) == 8683
  {}

  lemma RawValues21()
    ensures NumRawDataModules(21) == 9252 && NumRawDataModules(22) == 10068 && NumRawDataModules(23) == 10916 && NumRawDataModules(24) == 11796 && NumRawDataModules(25) == 12708
    ensures NumRawDataModules(26) == 13652 && NumRawDataModules(27) == 14628 && NumRawDataModules(28) == 15371 && NumRawDataModules(29) == 16411 && NumRawDataModules(30) == 17483
  {}

  lemma RawValues31()
    ensures NumRawDataModules(31) == 18587 && NumRawDataModules(32) == 19723 && NumRawDataModules(33) == 20891 && NumRawDataModules(34) == 22091 && NumRawDataModules(35) == 23008
    ensures NumRawDataModules(36) == 24272 && NumRawDataModules(37) == 25568 && NumRawDataModules(38) == 26896 && NumRawDataModules(39) == 28256 && NumRawDataModules(40) == 29648
  {}

  lemma SoundColumns1()
    ensures SoundColumn(1) && SoundColumn(2) && SoundColumn(3) && SoundColumn(4) && SoundColumn(5)
  {
    hide NumRawDataModules;
    RawValues1();
  }

  lemma SoundColumns6()
    ensures SoundColumn(6) && SoundColumn(7) && SoundColumn(8) && SoundColumn(9) && SoundColumn(10)
  {
    hide NumRawDataModules;
    RawValues1();
  }

  lemma SoundColumns11()
    ensures SoundColumn(11) && SoundColumn(12) && SoundColumn(13) && SoundColumn(14) && SoundColumn(15)
  {
    hide NumRawDataModules;
    RawValues11();
  }

  lemma SoundColumns16()
    ensures SoundColumn(16) && SoundColumn(17) && SoundColumn(18) && SoundColumn(19) && SoundColumn(20)
  {
    hide NumRawDataModules;
    RawValues11();
  }

  lemma SoundColumns21()
    ensures SoundColumn(21) && SoundColumn(22) && SoundColumn(23) && SoundColumn(24) && SoundColumn(25)
  {
    hide NumRawDataModules;
    RawValues21();
  }

  lemma SoundColumns26()
    ensures SoundColumn(26) && SoundColumn(27) && SoundColumn(28) && SoundColumn(29) && SoundColumn(30)
  {
    hide NumRawDataModules;
    RawValues21();
  }

  lemma SoundColumns31()
    ensures SoundColumn(31) && SoundColumn(32) && SoundColumn(33) && SoundColumn(34) && SoundColumn(35)
  {
    hide NumRawDataModules;
    RawValues31();
  }

  lemma SoundColumns36()
    ensures SoundColumn(36) && SoundColumn(37) && SoundColumn(38) && SoundColumn(39) && SoundColumn(40)
  {
    hide NumRawDataModules;
    RawValues31();
  }

  lemma EveryColumnSound(ver: int)
    requires IsVersion(ver)
    ensures SoundColumn(ver)
  {
    hide SoundColumn;
    SoundColumns1();
    SoundColumns6();
    SoundColumns11();
    SoundColumns16();
    SoundColumns21();
    SoundColumns26();
    SoundColumns31();
    SoundColumns36();
  }

  /** Every block holds some data, is short enough for distinct locators, and its parameters are in range. */
  lemma BlockParameters(ver: int, ecl: Ecc)
    requires IsVersion(ver)
    ensures SoundBlocks(RawCodewords(ver), EccPerBlock(ver, ecl), NumBlocks(ver, ecl))
    ensures EccPerBlock(ver, ecl) == EccRow(ecl)[ver] && NumBlocks(ver, ecl) == BlocksRow(ecl)[ver]
  {
    TableRows(ver, ecl);
    hide Column, RawCodewords, EccRow, BlocksRow;
    EveryColumnSound(ver);
  }

  /** Raising the level lowers the data capacity, at every version. */
  lemma CapacityFalls(ver: int)
    requires IsVersion(ver)
    ensures NumDataCodewords(ver, Low) > NumDataCodewords(ver, Medium)
    ensures NumDataCodewords(ver, Medium) > NumDataCodewords(ver, Quartile)
    ensures NumDataCodewords(ver, Quartile) > NumDataCodewords(ver, High) > 0
  {
    hide Column, RawCodewords;
    EveryColumnSound(ver);
  }

  /** No symbol holds more data than the largest one at the lowest level. */
  lemma CapacityLimit(ver: int, ecl: Ecc)
    requires IsVersion(ver)
    ensures NumDataCodewords(ver, ecl) <= 2956
    ensures ver <= 26 ==> NumDataCodewords(ver, ecl) <= 1800
  {
    hide NumDataCodewords;
    LowLimit(ver);
    CapacityFalls(ver);
  }

  lemma LowLimit(ver: int)
    requires IsVersion(ver)
    ensures NumDataCodewords(ver, Low) <= 2956
    ensures ver <= 26 ==> NumDataCodewords(ver, Low) <= 1800
  {
    hide Column, RawCodewords;
    EveryColumnSound(ver);
    RawLimit(ver);
    NonNegative(Column(ver).eccLow, Column(ver).blocksLow);
  }

  lemma NonNegative(a: int, b: int)
    requires a >= 0 && b >= 0
    ensures a * b >= 0
  {}

  lemma RawLimit(ver: int)
    requires 1 <= ver <= MAX_VERSION
    ensures ver <= 26 ==> RawCodewords(ver) <= 1800
  {
    hide NumRawDataModules;
    RawValues1();
    RawValues11();
    RawValues21();
  }

  lemma LargestCapacity()
    ensures NumDataCodewords(40, Low) == 2956
  {}

  // ----- what the levels tolerate -----

  /** The documented share of codewords, in percent, that each level can lose. */
  function Tolerated(ecl: Ecc): int {
    match ecl case Low => 7 case Medium => 15 case Quartile => 25 case High => 30
  }

  /** Correcting half the error correction codewords of every block corrects at least this share. */
  predicate Corrects(raw: int, ecc: int, blocks: int, percent: int) {
    100 * (ecc / 2 * blocks) >= percent * raw
  }

  predicate CorrectsColumn(ver: int)
    requires IsVersion(ver)
  {
    var c, raw := Column(ver), RawCodewords(ver);
    && Corrects(raw, c.eccLow, c.blocksLow, 7)
    && Corrects(raw, c.eccMedium, c.blocksMedium, 15)
    && (Corrects(raw, c.eccQuartile, c.blocksQuartile, 25) <==> ver != 1)
    && Corrects(raw, c.eccHigh, c.blocksHigh, 30)
  }

  lemma CorrectsColumns1()
    ensures CorrectsColumn(1) && CorrectsColumn(2) && CorrectsColumn(3) && CorrectsColumn(4) && CorrectsColumn(5)
  {
    hide NumRawDataModules;
    RawValues1();
  }

  lemma CorrectsColumns6()
    ensures CorrectsColumn(6) && CorrectsColumn(7) && CorrectsColumn(8) && CorrectsColumn(9) && CorrectsColumn(10)
  {
    hide NumRawDataModules;
    RawValues1();
  }

  lemma CorrectsColumns11()
    ensures CorrectsColumn(11) && CorrectsColumn(12) && CorrectsColumn(13) && CorrectsColumn(14) && CorrectsColumn(15)
  {
    hide NumRawDataModules;
    RawValues11();
  }

  lemma CorrectsColumns16()
    ensures CorrectsColumn(16) && CorrectsColumn(17) && CorrectsColumn(18) && CorrectsColumn(19) && CorrectsColumn(20)
  {
    hide NumRawDataModules;
    RawValues11();
  }

  lemma CorrectsColumns21()
    ensures CorrectsColumn(21) && CorrectsColumn(22) && CorrectsColumn(23) && CorrectsColumn(24) && CorrectsColumn(25)
  {
    hide NumRawDataModules;
    RawValues21();
  }

  lemma CorrectsColumns26()
    ensures CorrectsColumn(26) && CorrectsColumn(27) && CorrectsColumn(28) && CorrectsColumn(29) && CorrectsColumn(30)
  {
    hide NumRawDataModules;
    RawValues21();
  }

  lemma CorrectsColumns31()
    ensures CorrectsColumn(31) && CorrectsColumn(32) && CorrectsColumn(33) && CorrectsColumn(34) && CorrectsColumn(35)
  {
    hide NumRawDataModules;
    RawValues31();
  }

  lemma CorrectsColumns36()
    ensures CorrectsColumn(36) && CorrectsColumn(37) && CorrectsColumn(38) && CorrectsColumn(39) && CorrectsColumn(40)
  {
    hide NumRawDataModules;
    RawValues31();
  }

  /** Every version and level corrects the documented share of its codewords, version 1 at the quartile
      level excepted: it corrects 6 of 26. */
  lemma ToleratedShare(ver: int, ecl: Ecc)
    requires IsVersion(ver)
    ensures Corrects(RawCodewords(ver), EccPerBlock(ver, ecl), NumBlocks(ver, ecl), Tolerated(ecl))
            <==> !(ver == 1 && ecl == Quartile)
  {
    hide Column, RawCodewords, Corrects;
    EveryColumnCorrects(ver);
  }

  lemma EveryColumnCorrects(ver: int)
    requires IsVersion(ver)
    ensures CorrectsColumn(ver)
  {
    hide CorrectsColumn;
    CorrectsColumns1();
    CorrectsColumns6();
    CorrectsColumns11();
    CorrectsColumns16();
    CorrectsColumns21();
    CorrectsColumns26();
    CorrectsColumns31();
    CorrectsColumns36();
  }

  /** The exception, in numbers. */
  lemma QuartileShortfall()
    ensures EccPerBlock(1, Quartile) / 2 * NumBlocks(1, Quartile) == 6 && RawCodewords(1) == 26
  {
    hide NumRawDataModules;
    RawValues1();
  }
}
