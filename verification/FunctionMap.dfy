/** Which modules are function modules: the layers that the encoder draws for a version, their
    union in closed form, and how many modules they leave. */
module FunctionMap {
  import opened Grids
  import opened Tables
  import opened Patterns
  import opened Counting

  // ----- alignment pattern positions -----

  function NumAlign(ver: int): nat
    requires IsVersion(ver)
  {
    if ver == 1 then 0 else ver / 7 + 2
  }

  function AlignStep(ver: int): int
    requires 2 <= ver <= MAX_VERSION
  {
    (ver * 8 + NumAlign(ver) * 3 + 5) / (NumAlign(ver) * 4 - 4) * 2
  }

  /** The centre coordinates, in ascending order. */
  function AlignPos(ver: int, i: int): int
    requires 2 <= ver <= MAX_VERSION
  {
    if i == 0 then 6 else Size(ver) - 7 - (NumAlign(ver) - 1 - i) * AlignStep(ver)
  }

  lemma StepValue(ver: int)
    requires 2 <= ver <= MAX_VERSION
    ensures ver <= 6 ==> NumAlign(ver) == 2 && AlignStep(ver) == (ver * 8 + 11) / 4 * 2
    ensures 7 <= ver <= 13 ==> NumAlign(ver) == 3 && AlignStep(ver) == (ver * 8 + 14) / 8 * 2
    ensures 14 <= ver <= 20 ==> NumAlign(ver) == 4 && AlignStep(ver) == (ver * 8 + 17) / 12 * 2
    ensures 21 <= ver <= 27 ==> NumAlign(ver) == 5 && AlignStep(ver) == (ver * 8 + 20) / 16 * 2
    ensures 28 <= ver <= 34 ==> NumAlign(ver) == 6 && AlignStep(ver) == (ver * 8 + 23) / 20 * 2
    ensures 35 <= ver ==> NumAlign(ver) == 7 && AlignStep(ver) == (ver * 8 + 26) / 24 * 2
  {}

  lemma StepEven(ver: int)
    requires 2 <= ver <= MAX_VERSION
    ensures AlignStep(ver) % 2 == 0
  {
    var e := (ver * 8 + NumAlign(ver) * 3 + 5) / (NumAlign(ver) * 4 - 4);
    assert AlignStep(ver) == e * 2;
  }

  lemma StepRange(ver: int)
    requires 2 <= ver <= MAX_VERSION
    ensures 2 <= NumAlign(ver) <= 7
    ensures AlignStep(ver) >= 12 && (ver >= 7 ==> AlignStep(ver) >= 16)
    ensures ver < 7 <==> NumAlign(ver) == 2
  {
    hide NumAlign, AlignStep;
    StepValue(ver);
  }

  /** The first free-standing centre keeps clear of the finder patterns. */
  lemma StepTotal(ver: int)
    requires 2 <= ver <= MAX_VERSION
    ensures (NumAlign(ver) - 2) * AlignStep(ver) <= Size(ver) - 25
  {
    hide NumAlign, AlignStep;
    StepValue(ver);
    var q := AlignStep(ver) / 2;
    if ver <= 6 {
    } else if ver <= 13 {
      assert 8 * q <= ver * 8 + 14;
    } else if ver <= 20 {
      assert 12 * q <= ver * 8 + 17;
    } else if ver <= 27 {
      assert 16 * q <= ver * 8 + 20;
    } else if ver <= 34 {
      assert 20 * q <= ver * 8 + 23;
    } else {
      assert 24 * q <= ver * 8 + 26;
    }
  }

  lemma AlignFacts(ver: int)
    requires 2 <= ver <= MAX_VERSION
    ensures 2 <= NumAlign(ver) <= 7
    ensures AlignStep(ver) % 2 == 0 && AlignStep(ver) >= 12 && (ver >= 7 ==> AlignStep(ver) >= 16)
    ensures AlignPos(ver, 1) >= 18
    ensures ver < 7 <==> NumAlign(ver) == 2
  {
    hide NumAlign, AlignStep;
    StepEven(ver);
    StepRange(ver);
    StepTotal(ver);
  }

  lemma AlignNext(ver: int, i: int)
    requires 2 <= ver <= MAX_VERSION && 1 <= i
    ensures AlignPos(ver, i + 1) == AlignPos(ver, i) + AlignStep(ver)
    ensures AlignPos(ver, NumAlign(ver) - 1) == Size(ver) - 7
  {
    var a, s := NumAlign(ver), AlignStep(ver);
    hide AlignStep;
    assert (a - 1 - i) * s == (a - 2 - i) * s + s;
  }

  /** Centres are at least twelve modules apart, sixteen from version 7 on. */
  lemma {:induction false} AlignApart(ver: int, i: int, j: int)
    requires 2 <= ver <= MAX_VERSION && 0 <= i < j
    ensures AlignPos(ver, j) >= AlignPos(ver, i) + 12
    ensures ver >= 7 && 1 <= i ==> AlignPos(ver, j) >= AlignPos(ver, i) + 16
    decreases j - i
  {
    AlignFacts(ver);
    hide AlignStep, NumAlign, AlignPos;
    if i == 0 {
      AlignZero(ver);
      if j > 1 {
        AlignApart(ver, 1, j);
      }
    } else {
      AlignNext(ver, j - 1);
      if i < j - 1 {
        AlignApart(ver, i, j - 1);
      }
    }
  }

  lemma AlignZero(ver: int)
    requires 2 <= ver <= MAX_VERSION
    ensures AlignPos(ver, 0) == 6
  {}

  // ----- the table of positions -----

  /** The row and column coordinates of alignment pattern centres, as annex E of ISO/IEC 18004 lists them. */
  function StandardPositions(ver: int): seq<int>
    requires IsVersion(ver)
  {
    if ver <= 13 then SmallPositions(ver) else if ver <= 27 then MiddlePositions(ver) else LargePositions(ver)
  }

  function SmallPositions(ver: int): seq<int>
    requires 1 <= ver <= 13
  {
    match ver
    case 1 => []
    case 2 => [6, 18]
    case 3 => [6, 22]
    case 4 => [6, 26]
    case 5 => [6, 30]
    case 6 => [6, 34]
    case 7 => [6, 22, 38]
    case 8 => [6, 24, 42]
    case 9 => [6, 26, 46]
    case 10 => [6, 28, 50]
    case 11 => [6, 30, 54]
    case 12 => [6, 32, 58]
    case _ => [6, 34, 62]
  }

  function MiddlePositions(ver: int): seq<int>
    requires 14 <= ver <= 27
  {
    match ver
    case 14 => [6, 26, 46, 66]
    case 15 => [6, 26, 48, 70]
    case 16 => [6, 26, 50, 74]
    case 17 => [6, 30, 54, 78]
    case 18 => [6, 30, 56, 82]
    case 19 => [6, 30, 58, 86]
    case 20 => [6, 34, 62, 90]
    case 21 => [6, 28, 50, 72, 94]
    case 22 => [6, 26, 50, 74, 98]
    case 23 => [6, 30, 54, 78, 102]
    case 24 => [6, 28, 54, 80, 106]
    case 25 => [6, 32, 58, 84, 110]
    case 26 => [6, 30, 58, 86, 114]
    case _ => [6, 34, 62, 90, 118]
  }

  function LargePositions(ver: int): seq<int>
    requires 28 <= ver <= 40
  {
    match ver
    case 28 => [6, 26, 50, 74, 98, 122]
    case 29 => [6, 30, 54, 78, 102, 126]
    case 30 => [6, 26, 52, 78, 104, 130]
    case 31 => [6, 30, 56, 82, 108, 134]
    case 32 => [6, 34, 60, 86, 112, 138]
    case 33 => [6, 30, 58, 86, 114, 142]
    case 34 => [6, 34, 62, 90, 118, 146]
    case 35 => [6, 30, 54, 78, 102, 126, 150]
    case 36 => [6, 24, 50, 76, 102, 128, 154]
    case 37 => [6, 28, 54, 80, 106, 132, 158]
    case 38 => [6, 32, 58, 84, 110, 136, 162]
    case 39 => [6, 26, 54, 82, 110, 138, 166]
    case _ => [6, 30, 58, 86, 114, 142, 170]
  }

  lemma Positions2(ver: int)
    requires 2 <= ver <= 6
    ensures NumAlign(ver) == |SmallPositions(ver)| == 2
    ensures AlignPos(ver, 0) == SmallPositions(ver)[0] && AlignPos(ver, 1) == SmallPositions(ver)[1]
  {
    StepValue(ver);
    hide AlignStep, NumAlign;
  }

  lemma Positions7(ver: int)
    requires 7 <= ver <= 13
    ensures NumAlign(ver) == |SmallPositions(ver)| == 3
    ensures AlignPos(ver, 0) == SmallPositions(ver)[0] && AlignPos(ver, 1) == SmallPositions(ver)[1] && AlignPos(ver, 2) == SmallPositions(ver)[2]
  {
    StepValue(ver);
    hide AlignStep, NumAlign;
  }

  lemma Positions14(ver: int)
    requires 14 <= ver <= 20
    ensures NumAlign(ver) == |MiddlePositions(ver)| == 4
    ensures AlignPos(ver, 0) == MiddlePositions(ver)[0] && AlignPos(ver, 1) == MiddlePositions(ver)[1] && AlignPos(ver, 2) == MiddlePositions(ver)[2] && AlignPos(ver, 3) == MiddlePositions(ver)[3]
  {
    StepValue(ver);
    hide AlignStep, NumAlign;
  }

  lemma Positions21(ver: int)
    requires 21 <= ver <= 27
    ensures NumAlign(ver) == |MiddlePositions(ver)| == 5
    ensures AlignPos(ver, 0) == MiddlePositions(ver)[0] && AlignPos(ver, 1) == MiddlePositions(ver)[1] && AlignPos(ver, 2) == MiddlePositions(ver)[2] && AlignPos(ver, 3) == MiddlePositions(ver)[3] && AlignPos(ver, 4) == MiddlePositions(ver)[4]
  {
    StepValue(ver);
    hide AlignStep, NumAlign;
  }

  lemma Positions28(ver: int)
    requires 28 <= ver <= 34
    ensures NumAlign(ver) == |LargePositions(ver)| == 6
    ensures AlignPos(ver, 0) == LargePositions(ver)[0] && AlignPos(ver, 1) == LargePositions(ver)[1] && AlignPos(ver, 2) == LargePositions(ver)[2] && AlignPos(ver, 3) == LargePositions(ver)[3] && AlignPos(ver, 4) == LargePositions(ver)[4] && AlignPos(ver, 5) == LargePositions(ver)[5]
  {
    StepValue(ver);
    hide AlignStep, NumAlign;
  }

  lemma Positions35(ver: int)
    requires 35 <= ver <= 40
    ensures NumAlign(ver) == |LargePositions(ver)| == 7
    ensures AlignPos(ver, 0) == LargePositions(ver)[0] && AlignPos(ver, 1) == LargePositions(ver)[1] && AlignPos(ver, 2) == LargePositions(ver)[2] && AlignPos(ver, 3) == LargePositions(ver)[3] && AlignPos(ver, 4) == LargePositions(ver)[4] && AlignPos(ver, 5) == LargePositions(ver)[5] && AlignPos(ver, 6) == LargePositions(ver)[6]
  {
    StepValue(ver);
    hide AlignStep, NumAlign;
  }

  /** The closed form gives the standard's table. */
  lemma AlignmentTable(ver: int)
    requires IsVersion(ver)
    ensures |StandardPositions(ver)| == NumAlign(ver)
    ensures forall i :: 0 <= i < NumAlign(ver) ==> AlignPos(ver, i) == StandardPositions(ver)[i]
  {
    if ver == 1 {
      assert NumAlign(ver) == 0;
    } else {
      hide AlignPos, NumAlign, SmallPositions, MiddlePositions, LargePositions;
      if ver <= 6 { Positions2(ver); }
      else if ver <= 13 { Positions7(ver); }
      else if ver <= 20 { Positions14(ver); }
      else if ver <= 27 { Positions21(ver); }
      else if ver <= 34 { Positions28(ver); }
      else { Positions35(ver); }
    }
  }

  /** The alignment positions, inserted at the front from the largest down. */
  method GetAlignmentPatternPositions(ver: int) returns (result: seq<int>)
    requires IsVersion(ver)
    ensures |result| == NumAlign(ver)
    ensures forall i :: 0 <= i < |result| ==> result[i] == AlignPos(ver, i)
    ensures result == StandardPositions(ver)
  {
    hide StandardPositions;
    if ver == 1 {
      PositionsAre(ver, []);
      return [];
    }
    AlignFacts(ver);
    var numAlign, step := ver / 7 + 2, AlignStep(ver);
    hide AlignStep;
    result := [];
    var pos := Size(ver) - 7;
    for i := 0 to numAlign - 1
      invariant |result| == i && pos == Size(ver) - 7 - i * step
      invariant forall k :: 0 <= k < i ==> result[k] == AlignPos(ver, numAlign - i + k)
    {
      result := [pos] + result;
      assert (i + 1) * step == i * step + step;
      pos := pos - step;
    }
    result := [6] + result;
    PositionsAre(ver, result);
  }

  lemma PositionsAre(ver: int, positions: seq<int>)
    requires IsVersion(ver) && |positions| == NumAlign(ver)
    requires forall i :: 0 <= i < |positions| ==> positions[i] == AlignPos(ver, i)
    ensures positions == StandardPositions(ver)
  {
    hide StandardPositions, AlignPos, NumAlign;
    AlignmentTable(ver);
  }

  // ----- the list of layers -----

  predicate IsCorner(a: int, i: int, j: int) {
    (i == 0 && j == 0) || (i == 0 && j == a - 1) || (i == a - 1 && j == 0)
  }

  /** The alignment patterns of row i, columns below j, in drawing order. */
  function AlignRow(ver: int, i: int, j: nat): seq<Layer>
    requires IsVersion(ver)
  {
    if j == 0 || ver == 1 then []
    else AlignRow(ver, i, j - 1) +
         if IsCorner(NumAlign(ver), i, j - 1) then [] else [AlignmentLayer(AlignPos(ver, i), AlignPos(ver, j - 1))]
  }

  function AlignRows(ver: int, i: nat): seq<Layer>
    requires IsVersion(ver)
  {
    if i == 0 || ver == 1 then [] else AlignRows(ver, i - 1) + AlignRow(ver, i - 1, NumAlign(ver))
  }

  function BaseLayers(ver: int): seq<Layer> {
    var n := Size(ver);
    [TimingLayer, FinderLayer(3, 3), FinderLayer(n - 4, 3), FinderLayer(3, n - 4)]
  }

  /** Everything the encoder draws before the codewords. */
  function FunctionLayers(ver: int, ecl: Ecc, mask: int): seq<Layer>
    requires IsVersion(ver)
  {
    BaseLayers(ver) + AlignRows(ver, NumAlign(ver)) + [FormatLayer(ecl, mask), VersionLayer(ver)]
  }

  ghost predicate IsAlignment(ver: int, l: Layer, i: int, j: int)
    requires IsVersion(ver)
  {
    ver >= 2 && 0 <= i && 0 <= j && !IsCorner(NumAlign(ver), i, j)
    && l == AlignmentLayer(AlignPos(ver, i), AlignPos(ver, j))
  }

  lemma {:induction false} AlignRowHas(ver: int, i: int, j: nat, l: Layer)
    requires IsVersion(ver) && 0 <= i
    ensures l in AlignRow(ver, i, j) <==> exists b :: 0 <= b < j && IsAlignment(ver, l, i, b)
  {
    hide AlignPos, NumAlign, IsCorner;
    if j > 0 && ver > 1 {
      AlignRowHas(ver, i, j - 1, l);
      assert (exists b :: 0 <= b < j && IsAlignment(ver, l, i, b)) <==>
             (exists b :: 0 <= b < j - 1 && IsAlignment(ver, l, i, b)) || IsAlignment(ver, l, i, j - 1);
    }
  }

  lemma {:induction false} AlignRowsHave(ver: int, i: nat, l: Layer)
    requires IsVersion(ver)
    ensures l in AlignRows(ver, i) <==>
            exists a, b :: 0 <= a < i && 0 <= b < NumAlign(ver) && IsAlignment(ver, l, a, b)
  {
    hide AlignPos, IsCorner, AlignRow;
    if i > 0 && ver > 1 {
      AlignRowsHave(ver, i - 1, l);
      AlignRowHas(ver, i - 1, NumAlign(ver), l);
    }
  }

  lemma LayersAllValid(ver: int, ecl: Ecc, mask: int)
    requires IsVersion(ver) && 0 <= mask < 8
    ensures LayersValid(FunctionLayers(ver, ecl, mask))
  {
    hide AlignPos, NumAlign, AlignRows;
    var rows := AlignRows(ver, NumAlign(ver));
    forall k | 0 <= k < |rows|
      ensures LayerValid(rows[k])
    {
      AlignRowsHave(ver, NumAlign(ver), rows[k]);
    }
  }

  // ----- the union of the layers in closed form -----

  /** The coordinates within two modules of the centres lo, ..., hi - 1. */
  function Band(ver: int, lo: int, hi: int): (s: seq<int>)
    requires IsVersion(ver)
    decreases hi - lo
  {
    if ver == 1 || hi <= lo then []
    else Band(ver, lo, hi - 1) + Interval(AlignPos(ver, hi - 1) - 2, AlignPos(ver, hi - 1) + 3)
  }

  ghost predicate NearCentre(ver: int, c: int, a: int)
    requires IsVersion(ver)
  {
    ver >= 2 && Abs(c - AlignPos(ver, a)) <= 2
  }

  lemma {:induction false} BandHas(ver: int, lo: int, hi: int, c: int)
    requires IsVersion(ver)
    ensures c in Band(ver, lo, hi) <==> exists a :: lo <= a < hi && NearCentre(ver, c, a)
    decreases hi - lo
  {
    hide AlignPos, Interval;
    if ver >= 2 && lo < hi {
      BandHas(ver, lo, hi - 1, c);
      assert c in Interval(AlignPos(ver, hi - 1) - 2, AlignPos(ver, hi - 1) + 3) <==> NearCentre(ver, c, hi - 1);
      assert (exists a :: lo <= a < hi && NearCentre(ver, c, a)) <==>
             (exists a :: lo <= a < hi - 1 && NearCentre(ver, c, a)) || NearCentre(ver, c, hi - 1);
    }
  }

  /** Free-standing bands stay between the corner regions. */
  lemma BandRange(ver: int, hi: int, c: int)
    requires IsVersion(ver) && hi <= NumAlign(ver) && c in Band(ver, 1, hi)
    ensures ver >= 2 && 16 <= c <= Size(ver) - 5
    ensures hi < NumAlign(ver) ==> ver >= 7 && c <= Size(ver) - 21
  {
    hide AlignPos, Band, NumAlign, AlignStep;
    BandHas(ver, 1, hi, c);
    var a :| 1 <= a < hi && NearCentre(ver, c, a);
    AlignFacts(ver);
    AlignNext(ver, 1);
    if a > 1 {
      AlignApart(ver, 1, a);
    }
    if a < NumAlign(ver) - 1 {
      AlignApart(ver, a, NumAlign(ver) - 1);
    }
  }

  lemma {:induction false} BandSize(ver: int, hi: int)
    requires 2 <= ver <= MAX_VERSION && 1 <= hi <= NumAlign(ver)
    ensures |Band(ver, 1, hi)| == 5 * (hi - 1) && Distinct(Band(ver, 1, hi))
  {
    hide AlignPos, NumAlign, Interval;
    if hi > 1 {
      BandSize(ver, hi - 1);
      var b, s := Band(ver, 1, hi - 1), Interval(AlignPos(ver, hi - 1) - 2, AlignPos(ver, hi - 1) + 3);
      forall i, j | 0 <= i < |b| && 0 <= j < |s|
        ensures b[i] != s[j]
      {
        BandHas(ver, 1, hi - 1, b[i]);
        var a :| 1 <= a < hi - 1 && NearCentre(ver, b[i], a);
        AlignApart(ver, a, hi - 1);
        assert s[j] in s;
      }
    }
  }

  /** The modules of the alignment patterns: free-standing ones, and those that sit on a timing pattern. */
  predicate InAlignment(ver: int, x: int, y: int)
    requires IsVersion(ver)
  {
    var a := NumAlign(ver);
    || (x in Band(ver, 1, a) && y in Band(ver, 1, a))
    || (x in Band(ver, 1, a - 1) && 4 <= y <= 8)
    || (y in Band(ver, 1, a - 1) && 4 <= x <= 8)
  }

  predicate IsFunction(ver: int, x: int, y: int)
    requires IsVersion(ver)
  {
    var n := Size(ver);
    || (x <= 8 && y <= 8) || (x >= n - 8 && y <= 8) || (x <= 8 && y >= n - 8)
    || x == 6 || y == 6
    || VersionIndex(ver, n, x, y) >= 0
    || InAlignment(ver, x, y)
  }

  /** What an alignment layer covers, in terms of the bands. */
  lemma AlignmentCovers(ver: int, x: int, y: int, l: Layer)
    requires IsVersion(ver)
    requires l in AlignRows(ver, NumAlign(ver)) && Covers(l, Size(ver), x, y)
    ensures InAlignment(ver, x, y)
  {
    hide AlignPos, Band, AlignRows, AlignStep;
    AlignRowsHave(ver, NumAlign(ver), l);
    var i, j :| 0 <= i < NumAlign(ver) && 0 <= j < NumAlign(ver) && IsAlignment(ver, l, i, j);
    AlignZero(ver);
    var a := NumAlign(ver);
    hide NumAlign;
    assert NearCentre(ver, x, i) && NearCentre(ver, y, j);
    BandHas(ver, 1, a, x);
    BandHas(ver, 1, a, y);
    BandHas(ver, 1, a - 1, x);
    BandHas(ver, 1, a - 1, y);
  }

  lemma BandCovered(ver: int, x: int, y: int, i: int, j: int)
    requires IsVersion(ver) && 0 <= i < NumAlign(ver) && 0 <= j < NumAlign(ver)
    requires NearCentre(ver, x, i) && NearCentre(ver, y, j) && !IsCorner(NumAlign(ver), i, j)
    ensures Covered(AlignRows(ver, NumAlign(ver)), Size(ver), x, y)
  {
    hide AlignPos, AlignRows, AlignStep;
    var l := AlignmentLayer(AlignPos(ver, i), AlignPos(ver, j));
    assert IsAlignment(ver, l, i, j);
    AlignRowsHave(ver, NumAlign(ver), l);
    var rows := AlignRows(ver, NumAlign(ver));
    var k :| 0 <= k < |rows| && rows[k] == l;
    assert Covers(rows[k], Size(ver), x, y);
  }

  lemma CoveredParts(ver: int, ecl: Ecc, mask: int, x: int, y: int)
    requires IsVersion(ver)
    ensures Covered(FunctionLayers(ver, ecl, mask), Size(ver), x, y) <==>
            || Covered(BaseLayers(ver), Size(ver), x, y)
            || Covered(AlignRows(ver, NumAlign(ver)), Size(ver), x, y)
            || FormatIndex(Size(ver), x, y) >= 0
            || VersionIndex(ver, Size(ver), x, y) >= 0
  {
    hide AlignRows, BaseLayers, FormatIndex, VersionIndex, NumAlign;
    var n := Size(ver);
    var a, b, c := BaseLayers(ver), AlignRows(ver, NumAlign(ver)), [FormatLayer(ecl, mask), VersionLayer(ver)];
    CoveredConcat(a + b, c, n, x, y);
    CoveredConcat(a, b, n, x, y);
    assert Covers(c[0], n, x, y) <==> FormatIndex(n, x, y) >= 0;
    assert Covers(c[1], n, x, y) <==> VersionIndex(ver, n, x, y) >= 0;
  }

  lemma CoveredConcat(a: seq<Layer>, b: seq<Layer>, n: int, x: int, y: int)
    ensures Covered(a + b, n, x, y) <==> Covered(a, n, x, y) || Covered(b, n, x, y)
  {
    hide Covers;
    if i :| 0 <= i < |a| && Covers(a[i], n, x, y) {
      assert (a + b)[i] == a[i];
    }
    if i :| 0 <= i < |b| && Covers(b[i], n, x, y) {
      assert (a + b)[|a| + i] == b[i];
    }
    if i :| 0 <= i < |a + b| && Covers((a + b)[i], n, x, y) {
      if i < |a| {
        assert Covers(a[i], n, x, y);
      } else {
        assert Covers(b[i - |a|], n, x, y);
      }
    }
  }

  lemma BaseCovered(ver: int, x: int, y: int)
    requires IsVersion(ver)
    ensures Covered(BaseLayers(ver), Size(ver), x, y) <==>
            || x == 6 || y == 6
            || Dist(x, y, 3, 3) <= 4 || Dist(x, y, Size(ver) - 4, 3) <= 4 || Dist(x, y, 3, Size(ver) - 4) <= 4
  {
    hide Dist;
    var n, ls := Size(ver), BaseLayers(ver);
    assert Covers(ls[0], n, x, y) <==> x == 6 || y == 6;
    assert Covers(ls[1], n, x, y) <==> Dist(x, y, 3, 3) <= 4;
    assert Covers(ls[2], n, x, y) <==> Dist(x, y, n - 4, 3) <= 4;
    assert Covers(ls[3], n, x, y) <==> Dist(x, y, 3, n - 4) <= 4;
  }

  /** The closed form is exactly the union of everything that is drawn. */
  lemma FunctionMapIs(ver: int, ecl: Ecc, mask: int, x: int, y: int)
    requires IsVersion(ver) && In(Size(ver), x, y)
    ensures Covered(FunctionLayers(ver, ecl, mask), Size(ver), x, y) <==> IsFunction(ver, x, y)
  {
    hide FunctionLayers, BaseLayers, AlignRows, InAlignment, NumAlign;
    CoveredParts(ver, ecl, mask, x, y);
    BaseCovered(ver, x, y);
    if Covered(AlignRows(ver, NumAlign(ver)), Size(ver), x, y) {
      var rows := AlignRows(ver, NumAlign(ver));
      var i :| 0 <= i < |rows| && Covers(rows[i], Size(ver), x, y);
      AlignmentCovers(ver, x, y, rows[i]);
    }
    if InAlignment(ver, x, y) {
      AlignedIsCovered(ver, x, y);
    }
  }

  lemma AlignedIsCovered(ver: int, x: int, y: int)
    requires IsVersion(ver) && InAlignment(ver, x, y)
    ensures Covered(AlignRows(ver, NumAlign(ver)), Size(ver), x, y)
  {
    hide Band, AlignPos, AlignStep, NumAlign, AlignRows, Covered;
    var a: int := NumAlign(ver);
    if x in Band(ver, 1, a) && y in Band(ver, 1, a) {
      BandHas(ver, 1, a, x);
      BandHas(ver, 1, a, y);
      var i :| 1 <= i < a && NearCentre(ver, x, i);
      var j :| 1 <= j < a && NearCentre(ver, y, j);
      BandCovered(ver, x, y, i, j);
    } else if x in Band(ver, 1, a - 1) && 4 <= y <= 8 {
      BandHas(ver, 1, a - 1, x);
      var i :| 1 <= i < a - 1 && NearCentre(ver, x, i);
      AlignZero(ver);
      BandCovered(ver, x, y, i, 0);
    } else {
      BandHas(ver, 1, a - 1, y);
      var j :| 1 <= j < a - 1 && NearCentre(ver, y, j);
      AlignZero(ver);
      BandCovered(ver, x, y, 0, j);
    }
  }

  /** Alignment patterns keep clear of the corners, the format information and the version information. */
  lemma AlignmentRange(ver: int, x: int, y: int)
    requires IsVersion(ver) && InAlignment(ver, x, y)
    ensures
      var n := Size(ver);
      && ver >= 2 && 4 <= x <= n - 5 && 4 <= y <= n - 5
      && (x <= 8 ==> ver >= 7 && 16 <= y <= n - 21)
      && (y <= 8 ==> ver >= 7 && 16 <= x <= n - 21)
      && (x > 8 ==> x >= 16) && (y > 8 ==> y >= 16)
  {
    hide Band, NumAlign;
    var a: int := NumAlign(ver);
    if x in Band(ver, 1, a) { BandRange(ver, a, x); }
    if y in Band(ver, 1, a) { BandRange(ver, a, y); }
    if x in Band(ver, 1, a - 1) { BandRange(ver, a - 1, x); }
    if y in Band(ver, 1, a - 1) { BandRange(ver, a - 1, y); }
  }
}
