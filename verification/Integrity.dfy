/** Every function pattern is complete and intact in every finished symbol, whatever the data,
    the level and the mask. */
module Integrity {
  import opened Tables
  import opened GaloisField
  import opened Grids
  import opened Patterns
  import opened FunctionMap
  import opened Zigzag
  import opened Masking
  import opened SymbolSpec
  import opened Finder
  import opened Penalty

  // ----- the frame: nothing touches a function module after it is drawn, but the format information -----

  lemma FunctionModuleKept(ver: int, ecl: Ecc, data: seq<Byte>, mask: int, x: int, y: int)
    requires IsVersion(ver) && |data| == NumDataCodewords(ver, ecl) && 0 <= mask < 8
    requires In(Size(ver), x, y) && IsFunction(ver, x, y) && FormatIndex(Size(ver), x, y) < 0
    ensures At(Candidate(ver, ecl, data, mask), x, y) == At(PatternGrid(ver, ecl), x, y)
  {
    hide NumDataCodewords, PatternGrid, MapGrid, CodewordBits, Steps, Zigzag.Written, At, FormatIndex, IsFunction, Masked, Paint;
    var n := Size(ver);
    WrittenFrame(PatternGrid(ver, ecl), MapGrid(ver), n, CodewordBits(ver, ecl, data), Steps(n), x, y);
  }

  /** The last layer that covers a module. */
  lemma {:induction false} LastCovering(ls: seq<Layer>, n: int, x: int, y: int) returns (k: int)
    requires Covered(ls, n, x, y)
    ensures 0 <= k < |ls| && Covers(ls[k], n, x, y)
    ensures forall i :: k < i < |ls| ==> !Covers(ls[i], n, x, y)
  {
    hide Covers;
    var l := |ls| - 1;
    if Covers(ls[l], n, x, y) {
      k := l;
    } else {
      var i :| 0 <= i < |ls| && Covers(ls[i], n, x, y);
      assert Covers(ls[..l][i], n, x, y);
      k := LastCovering(ls[..l], n, x, y);
    }
  }

  /** Which layer a module shows: the topmost one, in drawing order. */
  lemma TopLayer(ver: int, ecl: Ecc, x: int, y: int) returns (l: Layer)
    requires IsVersion(ver) && In(Size(ver), x, y) && IsFunction(ver, x, y)
    ensures LayerValid(l) && Covers(l, Size(ver), x, y)
    ensures At(PatternGrid(ver, ecl), x, y) == Color(l, Size(ver), x, y)
    ensures VersionIndex(ver, Size(ver), x, y) >= 0 ==> l == VersionLayer(ver)
    ensures VersionIndex(ver, Size(ver), x, y) < 0 && FormatIndex(Size(ver), x, y) < 0 ==>
            l in BaseLayers(ver) || l in AlignRows(ver, NumAlign(ver))
    ensures l in BaseLayers(ver) ==> !InAlignment(ver, x, y)
    ensures l == TimingLayer ==> Dist(x, y, 3, 3) > 4 && Dist(x, y, Size(ver) - 4, 3) > 4 && Dist(x, y, 3, Size(ver) - 4) > 4
  {
    hide At, IsFunction, InAlignment, AlignRows, NumAlign, Color, FormatIndex, VersionIndex, Dist;
    var n := Size(ver);
    var base, rows := BaseLayers(ver), AlignRows(ver, NumAlign(ver));
    var ls := FunctionLayers(ver, ecl, 0);
    FunctionMapIs(ver, ecl, 0, x, y);
    LayersAllValid(ver, ecl, 0);
    var k := LastCovering(ls, n, x, y);
    PaintAllAt(Blank(n), n, ls, k, x, y);
    l := ls[k];
    assert ls[|ls| - 1] == VersionLayer(ver) && ls[|ls| - 2] == FormatLayer(ecl, 0);
    assert forall i :: 0 <= i < |base| ==> ls[i] == base[i];
    assert forall i :: 0 <= i < |rows| ==> ls[|base| + i] == rows[i];
    assert k < |base| + |rows| ==> if k < |base| then l == base[k] else l == rows[k - |base|];
    if l in base {
      assert k < |base| by { BaseNotLater(ver, l, k, ecl); }
      if InAlignment(ver, x, y) {
        AlignedIsCovered(ver, x, y);
      }
      if l == TimingLayer {
        assert k == 0;
        assert !Covers(ls[1], n, x, y) && !Covers(ls[2], n, x, y) && !Covers(ls[3], n, x, y);
      }
    }
  }

  lemma BaseNotLater(ver: int, l: Layer, k: int, ecl: Ecc)
    requires IsVersion(ver) && l in BaseLayers(ver)
    requires 0 <= k < |FunctionLayers(ver, ecl, 0)| && FunctionLayers(ver, ecl, 0)[k] == l
    ensures k < 4
  {
    hide AlignRows, NumAlign, AlignPos;
    var rows := AlignRows(ver, NumAlign(ver));
    if 4 <= k < 4 + |rows| {
      AlignRowsHave(ver, NumAlign(ver), rows[k - 4]);
    }
  }

  // ----- each kind of pattern -----

  /** The centres of the three finder patterns. */
  predicate IsFinderCentre(n: int, cx: int, cy: int) {
    (cx == 3 && cy == 3) || (cx == n - 4 && cy == 3) || (cx == 3 && cy == n - 4)
  }

  /** All three finder patterns and their separators show their rings. */
  lemma FinderShown(ver: int, ecl: Ecc, data: seq<Byte>, mask: int, cx: int, cy: int, x: int, y: int)
    requires IsVersion(ver) && |data| == NumDataCodewords(ver, ecl) && 0 <= mask < 8
    requires IsFinderCentre(Size(ver), cx, cy) && In(Size(ver), x, y) && Dist(x, y, cx, cy) <= 4
    ensures At(Candidate(ver, ecl, data, mask), x, y) == (Dist(x, y, cx, cy) != 2 && Dist(x, y, cx, cy) != 4)
  {
    hide NumDataCodewords, Candidate, PatternGrid, At, InAlignment, IsFunction, AlignRows, NumAlign, FormatIndex, VersionIndex;
    hide BaseLayers, Color, Covers;
    FinderAlone(ver, cx, cy, x, y);
    var l := TopLayer(ver, ecl, x, y);
    FunctionModuleKept(ver, ecl, data, mask, x, y);
    if l in AlignRows(ver, NumAlign(ver)) {
      AlignmentCovers(ver, x, y, l);
    }
    FinderColor(ver, l, cx, cy, x, y);
  }

  lemma FinderColor(ver: int, l: Layer, cx: int, cy: int, x: int, y: int)
    requires IsVersion(ver) && l in BaseLayers(ver) && LayerValid(l) && Covers(l, Size(ver), x, y)
    requires l == TimingLayer ==> Dist(x, y, 3, 3) > 4 && Dist(x, y, Size(ver) - 4, 3) > 4 && Dist(x, y, 3, Size(ver) - 4) > 4
    requires IsFinderCentre(Size(ver), cx, cy) && In(Size(ver), x, y) && Dist(x, y, cx, cy) <= 4
    ensures Color(l, Size(ver), x, y) == (Dist(x, y, cx, cy) != 2 && Dist(x, y, cx, cy) != 4)
  {}

  /** Only timing patterns reach into a finder pattern. */
  lemma FinderAlone(ver: int, cx: int, cy: int, x: int, y: int)
    requires IsVersion(ver)
    requires IsFinderCentre(Size(ver), cx, cy) && In(Size(ver), x, y) && Dist(x, y, cx, cy) <= 4
    ensures IsFunction(ver, x, y) && !InAlignment(ver, x, y)
    ensures FormatIndex(Size(ver), x, y) < 0 && VersionIndex(ver, Size(ver), x, y) < 0
  {
    hide InAlignment, NumAlign;
    if InAlignment(ver, x, y) {
      AlignmentRange(ver, x, y);
    }
  }

  /** Along the row and the column through its centre, every finder pattern shows the proportions 1:1:3:1:1. */
  lemma FinderProportions(ver: int, ecl: Ecc, data: seq<Byte>, mask: int, cx: int, cy: int)
    requires IsVersion(ver) && |data| == NumDataCodewords(ver, ecl) && 0 <= mask < 8
    requires IsFinderCentre(Size(ver), cx, cy)
    ensures
      var g := Candidate(ver, ecl, data, mask);
      && PatternAt(g[cy], cx - 3, 1)
      && PatternAt(ColumnOf(g, cx), cy - 3, 1)
  {
    hide NumDataCodewords, Candidate, PatternAt, ColumnOf;
    var n, g := Size(ver), Candidate(ver, ecl, data, mask);
    forall q | cx - 3 <= q <= cx + 3
      ensures g[cy][q] == (Abs(q - cx) != 2)
    {
      FinderShown(ver, ecl, data, mask, cx, cy, q, cy);
    }
    forall q | cy - 3 <= q <= cy + 3
      ensures ColumnOf(g, cx)[q] == (Abs(q - cy) != 2)
    {
      FinderShown(ver, ecl, data, mask, cx, cy, cx, q);
      ColumnAt(g, cx, q);
    }
    CoreInLine(g[cy], cx);
    CoreInLine(ColumnOf(g, cx), cy);
  }

  lemma ColumnAt(g: Grid, x: int, y: int)
    requires IsGrid(g, |g|) && In(|g|, x, y)
    ensures ColumnOf(g, x)[y] == At(g, x, y)
  {}

  lemma CoreInLine(line: seq<bool>, c: int)
    requires 3 <= c < |line| - 3
    requires forall q :: c - 3 <= q <= c + 3 ==> line[q] == (Abs(q - c) != 2)
    ensures PatternAt(line, c - 3, 1)
  {}

  lemma EvenDifference(p: int, s: int)
    requires s % 2 == 0 && (p + s) % 2 == 0
    ensures p % 2 == 0
  {}

  lemma LastEven(ver: int)
    ensures (Size(ver) - 7) % 2 == 0
  {}

  lemma {:induction false} AlignEven(ver: int, i: int)
    requires 2 <= ver <= MAX_VERSION && 0 <= i < NumAlign(ver)
    ensures AlignPos(ver, i) % 2 == 0
    decreases NumAlign(ver) - i
  {
    hide AlignPos, AlignStep, NumAlign, Size;
    if i == 0 {
      AlignZero(ver);
    } else {
      AlignNext(ver, i);
      if i == NumAlign(ver) - 1 {
        LastEven(ver);
      } else {
        StepEven(ver);
        AlignEven(ver, i + 1);
        EvenDifference(AlignPos(ver, i), AlignStep(ver));
      }
    }
  }

  /** On a timing pattern, an alignment pattern shows the timing colours. */
  lemma AlignmentOnTiming(ver: int, l: Layer, x: int, y: int)
    requires IsVersion(ver) && l in AlignRows(ver, NumAlign(ver)) && Covers(l, Size(ver), x, y)
    requires x == 6 || y == 6
    ensures LayerValid(l) && Color(l, Size(ver), x, y) == ((if x == 6 then y else x) % 2 == 0)
  {
    hide AlignPos, AlignStep, AlignRows, NumAlign;
    AlignRowsHave(ver, NumAlign(ver), l);
    var i, j :| 0 <= i < NumAlign(ver) && 0 <= j < NumAlign(ver) && IsAlignment(ver, l, i, j);
    AlignZero(ver);
    AlignEven(ver, i);
    AlignEven(ver, j);
    if i > 0 { AlignApart(ver, 0, i); }
    if j > 0 { AlignApart(ver, 0, j); }
  }

  /** Both timing patterns alternate without interruption between the finder patterns. */
  lemma TimingShown(ver: int, ecl: Ecc, data: seq<Byte>, mask: int, x: int, y: int)
    requires IsVersion(ver) && |data| == NumDataCodewords(ver, ecl) && 0 <= mask < 8
    requires (x == 6 && 8 <= y <= Size(ver) - 9) || (y == 6 && 8 <= x <= Size(ver) - 9)
    ensures At(Candidate(ver, ecl, data, mask), x, y) == ((if x == 6 then y else x) % 2 == 0)
  {
    hide NumDataCodewords, Candidate, PatternGrid, At, InAlignment, AlignRows, NumAlign;
    var l := TopLayer(ver, ecl, x, y);
    FunctionModuleKept(ver, ecl, data, mask, x, y);
    if l in AlignRows(ver, NumAlign(ver)) {
      AlignmentOnTiming(ver, l, x, y);
    }
  }

  /** Every alignment pattern is complete. */
  lemma AlignmentShown(ver: int, ecl: Ecc, data: seq<Byte>, mask: int, i: int, j: int, x: int, y: int)
    requires IsVersion(ver) && |data| == NumDataCodewords(ver, ecl) && 0 <= mask < 8
    requires 0 <= i < NumAlign(ver) && 0 <= j < NumAlign(ver) && !IsCorner(NumAlign(ver), i, j)
    requires NearCentre(ver, x, i) && NearCentre(ver, y, j)
    ensures In(Size(ver), x, y)
    ensures At(Candidate(ver, ecl, data, mask), x, y) == (Dist(x, y, AlignPos(ver, i), AlignPos(ver, j)) != 1)
  {
    hide NumDataCodewords, Candidate, PatternGrid, At, InAlignment, AlignRows, NumAlign, AlignPos;
    var layer := AlignmentLayer(AlignPos(ver, i), AlignPos(ver, j));
    assert IsAlignment(ver, layer, i, j);
    AlignRowsHave(ver, NumAlign(ver), layer);
    AlignmentCovers(ver, x, y, layer);
    AlignmentRange(ver, x, y);
    var l := TopLayer(ver, ecl, x, y);
    FunctionModuleKept(ver, ecl, data, mask, x, y);
    SamePattern(ver, l, i, j, x, y);
  }

  /** Alignment patterns do not overlap. */
  lemma SamePattern(ver: int, l: Layer, i: int, j: int, x: int, y: int)
    requires IsVersion(ver) && l in AlignRows(ver, NumAlign(ver)) && Covers(l, Size(ver), x, y)
    requires 0 <= i && 0 <= j && NearCentre(ver, x, i) && NearCentre(ver, y, j)
    ensures l == AlignmentLayer(AlignPos(ver, i), AlignPos(ver, j))
  {
    hide AlignPos, AlignStep, AlignRows, NumAlign;
    AlignRowsHave(ver, NumAlign(ver), l);
    var a, b :| 0 <= a < NumAlign(ver) && 0 <= b < NumAlign(ver) && IsAlignment(ver, l, a, b);
    if a < i { AlignApart(ver, a, i); } else if i < a { AlignApart(ver, i, a); }
    if b < j { AlignApart(ver, b, j); } else if j < b { AlignApart(ver, j, b); }
  }

  /** Both copies of the version information show the version word. */
  lemma VersionShown(ver: int, ecl: Ecc, data: seq<Byte>, mask: int, x: int, y: int)
    requires IsVersion(ver) && |data| == NumDataCodewords(ver, ecl) && 0 <= mask < 8
    requires In(Size(ver), x, y) && VersionIndex(ver, Size(ver), x, y) >= 0
    ensures At(Candidate(ver, ecl, data, mask), x, y) == WordBit(VersionWord(ver), VersionIndex(ver, Size(ver), x, y))
  {
    hide NumDataCodewords, Candidate, PatternGrid, At, InAlignment, AlignRows, NumAlign, VersionWord, WordBit;
    var l := TopLayer(ver, ecl, x, y);
    FunctionModuleKept(ver, ecl, data, mask, x, y);
  }

  /** Both copies of the format information show the word of the symbol's own level and mask. */
  lemma FormatShown(ver: int, ecl: Ecc, data: seq<Byte>, mask: int, x: int, y: int)
    requires IsVersion(ver) && |data| == NumDataCodewords(ver, ecl) && 0 <= mask < 8
    requires In(Size(ver), x, y) && FormatIndex(Size(ver), x, y) >= 0
    ensures At(Candidate(ver, ecl, data, mask), x, y) ==
            (FormatIndex(Size(ver), x, y) == 15 || WordBit(FormatWord(ecl, mask), FormatIndex(Size(ver), x, y)))
  {
    hide NumDataCodewords, BaseGrid, MapGrid, Masked, Paint, At, FormatWord, WordBit, FormatIndex;
  }

  /** The two modules that show bit k of the format information. */
  predicate ShowsFormatBit(g: Grid, n: nat, k: int, b: bool)
    requires IsGrid(g, n) && n >= 21 && 0 <= k < 15
  {
    && (k <= 5 ==> At(g, 8, k) == b) && (6 <= k <= 7 ==> At(g, 8, k + 1) == b)
    && (k == 8 ==> At(g, 7, 8) == b) && (k >= 9 ==> At(g, 14 - k, 8) == b)
    && (k <= 7 ==> At(g, n - 1 - k, 8) == b) && (k >= 8 ==> At(g, 8, n - 15 + k) == b)
  }

  /** Where the two copies show bit k of the format word, and the module that is always dark. */
  lemma FormatCopies(ver: int, ecl: Ecc, data: seq<Byte>, mask: int, k: int)
    requires IsVersion(ver) && |data| == NumDataCodewords(ver, ecl) && 0 <= mask < 8 && 0 <= k < 15
    ensures
      var n, g := Size(ver), Candidate(ver, ecl, data, mask);
      ShowsFormatBit(g, n, k, WordBit(FormatWord(ecl, mask), k)) && At(g, 8, n - 8)
  {
    hide NumDataCodewords, Candidate, At, FormatWord, WordBit;
    var n := Size(ver);
    var x, y := if k <= 7 then 8 else if k == 8 then 7 else 14 - k, if k <= 5 then k else if k <= 7 then k + 1 else 8;
    FormatShown(ver, ecl, data, mask, x, y);
    FormatShown(ver, ecl, data, mask, if k <= 7 then n - 1 - k else 8, if k <= 7 then 8 else n - 15 + k);
    FormatShown(ver, ecl, data, mask, 8, n - 8);
  }

  /** Where the two copies show bit k of the version word. */
  lemma VersionCopies(ver: int, ecl: Ecc, data: seq<Byte>, mask: int, k: int)
    requires 7 <= ver <= MAX_VERSION && |data| == NumDataCodewords(ver, ecl) && 0 <= mask < 8 && 0 <= k < 18
    ensures
      var n, g, b := Size(ver), Candidate(ver, ecl, data, mask), WordBit(VersionWord(ver), k);
      At(g, n - 11 + k % 3, k / 3) == b && At(g, k / 3, n - 11 + k % 3) == b
  {
    hide NumDataCodewords, Candidate, At, VersionWord, WordBit;
    var n := Size(ver);
    VersionShown(ver, ecl, data, mask, n - 11 + k % 3, k / 3);
    VersionShown(ver, ecl, data, mask, k / 3, n - 11 + k % 3);
  }
}
