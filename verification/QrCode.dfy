/** The QR Code symbol: the grids that the constructor draws into, one method per drawing routine. */
module Symbol {
  import opened Results
  import opened Tables
  import opened GaloisField
  import opened ByteBits
  import opened Grids
  import opened Counting
  import opened Patterns
  import opened InformationCodes
  import opened Drawing
  import opened FunctionMap
  import opened Zigzag
  import opened Masking
  import opened SymbolSpec
  import Interleaving
  import Features
  import Penalty

  class QrCode {
    var version: int
    var size: int
    var errorCorrectionLevel: Ecc
    var mask: int
    var modules: Grid
    var isFunction: Grid

    /** The state while the constructor draws. */
    ghost predicate Ready()
      reads this
    {
      IsVersion(version) && size == Size(version) && IsGrid(modules, size) && IsGrid(isFunction, size)
    }

    /** Draws function patterns and codewords, then applies the requested mask, or the best one. */
    constructor (ver: int, ecl: Ecc, dataCodewords: seq<Byte>, msk: int)
      requires IsVersion(ver) && -1 <= msk <= 7 && |dataCodewords| == NumDataCodewords(ver, ecl)
      ensures version == ver && size == Size(ver) && errorCorrectionLevel == ecl && 0 <= mask < 8
      ensures modules == Candidate(ver, ecl, dataCodewords, mask)
      ensures msk >= 0 ==> mask == msk
      ensures msk == -1 ==> IsBestMask(ver, ecl, dataCodewords, mask)
    {
      hide NumDataCodewords, RawCodewords;
      version := ver;
      errorCorrectionLevel := ecl;
      size := Size(ver);
      modules := Blank(Size(ver));
      isFunction := Blank(Size(ver));
      mask := 0;
      new;
      DrawUnmasked(dataCodewords);
      var chosen := msk;
      if chosen == -1 {
        chosen := ChooseMask(dataCodewords);
      }
      mask := chosen;
      ApplyMaskAndFormat(chosen, dataCodewords);
      isFunction := [];
    }

    /** Everything but the mask: function patterns, then the interleaved codewords. */
    method DrawUnmasked(data: seq<Byte>)
      requires Ready() && modules == Blank(size) && isFunction == Blank(size)
      requires |data| == NumDataCodewords(version, errorCorrectionLevel)
      modifies `modules, `isFunction
      ensures Unmasked(data) && modules == BaseGrid(version, errorCorrectionLevel, data)
    {
      hide NumDataCodewords, RawCodewords, Blank, Zigzag.Written, FreeList, PaintAll, MarkAll, FunctionLayers, BitString;
      DrawFunctionPatterns();
      MarksAreMap(version, errorCorrectionLevel, 0);
      var allCodewords := Interleaving.AddEccAndInterleave(version, errorCorrectionLevel, data);
      EnoughRoom(version);
      var drawn := DrawCodewords(allCodewords.value);
      assert drawn.Ok?;
    }

    /** The function map is complete, and outside the format information the grid is the unmasked symbol. */
    ghost predicate Unmasked(data: seq<Byte>)
      reads this
    {
      Ready() && |data| == NumDataCodewords(version, errorCorrectionLevel) && isFunction == MapGrid(version)
      && SameButFormat(modules, BaseGrid(version, errorCorrectionLevel, data), size)
    }

    method ApplyMaskAndFormat(msk: int, ghost data: seq<Byte>)
      requires Unmasked(data) && 0 <= msk < 8
      modifies `modules, `isFunction
      ensures Ready() && isFunction == MapGrid(version)
      ensures modules == Candidate(version, errorCorrectionLevel, data, msk)
    {
      hide NumDataCodewords, Masked, Paint, BaseGrid, MapGrid, SameButFormat;
      ghost var base := BaseGrid(version, errorCorrectionLevel, data);
      TrialClean(modules, base, isFunction, size, errorCorrectionLevel, msk);
      FormatInMap(version, errorCorrectionLevel, msk);
      var _ := ApplyMask(msk);
      DrawFormatBits(msk);
    }

    /** Tries every mask, undoing each trial, and keeps the first with the lowest penalty. */
    method ChooseMask(ghost data: seq<Byte>) returns (msk: int)
      requires Unmasked(data)
      modifies `modules, `isFunction
      ensures Unmasked(data) && 0 <= msk < 8
      ensures IsBestMask(version, errorCorrectionLevel, data, msk)
    {
      hide NumDataCodewords, Masked, BaseGrid, MapGrid, SameButFormat, Penalty.Total, Features.LeastBalance, Features.Points;
      ghost var ver, ecl := version, errorCorrectionLevel;
      msk := -1;
      var minPenalty := LONG_MAX;
      for i := 0 to 8
        invariant Unmasked(data) && (i == 0 ==> minPenalty == LONG_MAX)
        invariant i > 0 ==> 0 <= msk < i && minPenalty == CandidateScore(ver, ecl, data, msk)
        invariant forall j :: 0 <= j < i ==> 0 <= msk < 8 && minPenalty <= CandidateScore(ver, ecl, data, j)
        invariant forall j :: 0 <= j < msk ==> j < 8 && minPenalty < CandidateScore(ver, ecl, data, j)
      {
        ghost var base := BaseGrid(version, errorCorrectionLevel, data);
        TrialClean(modules, base, isFunction, size, errorCorrectionLevel, i);
        ApplyMaskAndFormat(i, data);
        var penalty := Penalty.GetPenaltyScore(modules);
        if penalty < minPenalty {
          msk := i;
          minPenalty := penalty;
        }
        var _ := ApplyMask(i);
      }
    }

    method SetFunctionModule(x: int, y: int, isDark: bool)
      requires Ready() && In(size, x, y)
      modifies `modules, `isFunction
      ensures Ready()
      ensures modules == Put(old(modules), x, y, isDark) && isFunction == Put(old(isFunction), x, y, true)
    {
      modules := modules[y := modules[y][x := isDark]];
      isFunction := isFunction[y := isFunction[y][x := true]];
    }

    /** Sets one module of a layer and records it. */
    method PaintModule(x: int, y: int, isDark: bool, ghost m0: Grid, ghost f0: Grid, ghost l: Layer, ghost drawn: set<Cell>)
      returns (ghost drawn': set<Cell>)
      requires Ready() && Progress(m0, f0, modules, isFunction, size, l, drawn)
      requires In(size, x, y) && LayerValid(l) && Covers(l, size, x, y) && isDark == Color(l, size, x, y)
      modifies `modules, `isFunction
      ensures Ready() && Progress(m0, f0, modules, isFunction, size, l, drawn')
      ensures drawn' == drawn + {(x, y)}
    {
      hide Progress, Put, Covers, Color;
      ProgressStep(m0, f0, modules, isFunction, size, l, drawn, x, y);
      SetFunctionModule(x, y, isDark);
      drawn' := drawn + {(x, y)};
    }

    method DrawTimingPatterns()
      requires Ready()
      modifies `modules, `isFunction
      ensures Ready()
      ensures modules == Paint(old(modules), size, TimingLayer) && isFunction == Mark(old(isFunction), size, TimingLayer)
    {
      hide Progress;
      ghost var l := TimingLayer;
      ghost var drawn: set<Cell> := {};
      ProgressStart(modules, isFunction, size, l);
      for i := 0 to size
        invariant Ready()
        invariant Progress(old(modules), old(isFunction), modules, isFunction, size, l, drawn)
        invariant forall k :: 0 <= k < i ==> (6, k) in drawn && (k, 6) in drawn
      {
        drawn := PaintModule(6, i, i % 2 == 0, old(modules), old(isFunction), l, drawn);
        drawn := PaintModule(i, 6, i % 2 == 0, old(modules), old(isFunction), l, drawn);
      }
      ProgressEnd(old(modules), old(isFunction), modules, isFunction, size, l, drawn);
    }

    /** Draws a 9*9 finder pattern with its separator, clipped to the grid. */
    method DrawFinderPattern(x: int, y: int)
      requires Ready()
      modifies `modules, `isFunction
      ensures Ready()
      ensures modules == Paint(old(modules), size, FinderLayer(x, y))
      ensures isFunction == Mark(old(isFunction), size, FinderLayer(x, y))
    {
      hide Progress;
      ghost var l := FinderLayer(x, y);
      ghost var drawn: set<Cell> := {};
      ProgressStart(modules, isFunction, size, l);
      for dy := -4 to 5
        invariant Ready()
        invariant Progress(old(modules), old(isFunction), modules, isFunction, size, l, drawn)
        invariant forall i, j :: In(size, i, j) && Dist(i, j, x, y) <= 4 && j < y + dy ==> (i, j) in drawn
      {
        for dx := -4 to 5
          invariant Ready()
          invariant Progress(old(modules), old(isFunction), modules, isFunction, size, l, drawn)
          invariant forall i, j :: In(size, i, j) && Dist(i, j, x, y) <= 4 && (j < y + dy || (j == y + dy && i < x + dx))
                                   ==> (i, j) in drawn
        {
          var dist := Max(Abs(dx), Abs(dy));
          var xx, yy := x + dx, y + dy;
          if 0 <= xx < size && 0 <= yy < size {
            drawn := PaintModule(xx, yy, dist != 2 && dist != 4, old(modules), old(isFunction), l, drawn);
          }
        }
      }
      ProgressEnd(old(modules), old(isFunction), modules, isFunction, size, l, drawn);
    }

    /** Draws a 5*5 alignment pattern; all its modules must be in bounds. */
    method DrawAlignmentPattern(x: int, y: int)
      requires Ready() && 2 <= x < size - 2 && 2 <= y < size - 2
      modifies `modules, `isFunction
      ensures Ready()
      ensures modules == Paint(old(modules), size, AlignmentLayer(x, y))
      ensures isFunction == Mark(old(isFunction), size, AlignmentLayer(x, y))
    {
      hide Progress;
      ghost var l := AlignmentLayer(x, y);
      ghost var drawn: set<Cell> := {};
      ProgressStart(modules, isFunction, size, l);
      for dy := -2 to 3
        invariant Ready()
        invariant Progress(old(modules), old(isFunction), modules, isFunction, size, l, drawn)
        invariant forall i, j :: In(size, i, j) && Dist(i, j, x, y) <= 2 && j < y + dy ==> (i, j) in drawn
      {
        for dx := -2 to 3
          invariant Ready()
          invariant Progress(old(modules), old(isFunction), modules, isFunction, size, l, drawn)
          invariant forall i, j :: In(size, i, j) && Dist(i, j, x, y) <= 2 && (j < y + dy || (j == y + dy && i < x + dx))
                                   ==> (i, j) in drawn
        {
          drawn := PaintModule(x + dx, y + dy, Max(Abs(dx), Abs(dy)) != 1, old(modules), old(isFunction), l, drawn);
        }
      }
      ProgressEnd(old(modules), old(isFunction), modules, isFunction, size, l, drawn);
    }

    /** The copy around the top left finder pattern. */
    method DrawFirstFormatCopy(bits: Word, ghost m0: Grid, ghost f0: Grid, ghost l: Layer) returns (ghost drawn: set<Cell>)
      requires Ready() && modules == m0 && isFunction == f0
      requires l.FormatLayer? && LayerValid(l) && bits == FormatWord(l.ecl, l.mask)
      modifies `modules, `isFunction
      ensures Ready() && Progress(m0, f0, modules, isFunction, size, l, drawn)
      ensures forall k :: 0 <= k <= 8 && k != 6 ==> (8, k) in drawn && (k, 8) in drawn
    {
      hide Progress, FormatWord, WordBit;
      drawn := {};
      ProgressStart(modules, isFunction, size, l);
      for i := 0 to 6
        invariant Ready() && Progress(m0, f0, modules, isFunction, size, l, drawn)
        invariant forall k :: 0 <= k < i ==> (8, k) in drawn
      {
        drawn := PaintModule(8, i, WordBit(bits, i), m0, f0, l, drawn);
      }
      drawn := PaintModule(8, 7, WordBit(bits, 6), m0, f0, l, drawn);
      drawn := PaintModule(8, 8, WordBit(bits, 7), m0, f0, l, drawn);
      drawn := PaintModule(7, 8, WordBit(bits, 8), m0, f0, l, drawn);
      ghost var column := drawn;
      for i := 9 to 15
        invariant Ready() && Progress(m0, f0, modules, isFunction, size, l, drawn) && column <= drawn
        invariant forall k :: 14 - i < k <= 5 ==> (k, 8) in drawn
      {
        drawn := PaintModule(14 - i, 8, WordBit(bits, i), m0, f0, l, drawn);
      }
    }

    /** The copy beside the two other finder patterns, and the module that is always dark. */
    method DrawSecondFormatCopy(bits: Word, ghost m0: Grid, ghost f0: Grid, ghost l: Layer, ghost first: set<Cell>)
      returns (ghost drawn: set<Cell>)
      requires Ready() && Progress(m0, f0, modules, isFunction, size, l, first)
      requires l.FormatLayer? && LayerValid(l) && bits == FormatWord(l.ecl, l.mask)
      modifies `modules, `isFunction
      ensures Ready() && Progress(m0, f0, modules, isFunction, size, l, drawn) && first <= drawn
      ensures forall k :: size - 8 <= k < size ==> (k, 8) in drawn && (8, k) in drawn
    {
      hide Progress, FormatWord, WordBit;
      drawn := first;
      for i := 0 to 8
        invariant Ready() && Progress(m0, f0, modules, isFunction, size, l, drawn) && first <= drawn
        invariant forall k :: size - 1 - i < k < size ==> (k, 8) in drawn
      {
        drawn := PaintModule(size - 1 - i, 8, WordBit(bits, i), m0, f0, l, drawn);
      }
      ghost var row := drawn;
      for i := 8 to 15
        invariant Ready() && Progress(m0, f0, modules, isFunction, size, l, drawn) && row <= drawn
        invariant forall k :: size - 7 <= k < size - 15 + i ==> (8, k) in drawn
      {
        drawn := PaintModule(8, size - 15 + i, WordBit(bits, i), m0, f0, l, drawn);
      }
      drawn := PaintModule(8, size - 8, true, m0, f0, l, drawn);
    }

    /** Draws both copies of the format information. */
    method DrawFormatBits(msk: int)
      requires Ready() && 0 <= msk < 8
      modifies `modules, `isFunction
      ensures Ready()
      ensures modules == Paint(old(modules), size, FormatLayer(errorCorrectionLevel, msk))
      ensures isFunction == Mark(old(isFunction), size, FormatLayer(errorCorrectionLevel, msk))
    {
      hide Progress, FormatWord, Color, Paint, Mark;
      var bits := ComputeFormatWord(errorCorrectionLevel, msk);
      ghost var m0, f0 := modules, isFunction;
      ghost var l := FormatLayer(errorCorrectionLevel, msk);
      ghost var first := DrawFirstFormatCopy(bits, m0, f0, l);
      ghost var drawn := DrawSecondFormatCopy(bits, m0, f0, l, first);
      ProgressEnd(m0, f0, modules, isFunction, size, l, drawn);
    }

    /** Draws both copies of the version information, from version 7 on. */
    method DrawVersion()
      requires Ready()
      modifies `modules, `isFunction
      ensures Ready()
      ensures modules == Paint(old(modules), size, VersionLayer(version))
      ensures isFunction == Mark(old(isFunction), size, VersionLayer(version))
    {
      hide Progress, VersionWord, WordBit, VersionIndex, Paint, Mark;
      ghost var m0, f0 := modules, isFunction;
      ghost var l := VersionLayer(version);
      ghost var drawn: set<Cell> := {};
      ProgressStart(modules, isFunction, size, l);
      if version < 7 {
        NoVersionBits(version, size);
        ProgressEnd(m0, f0, modules, isFunction, size, l, drawn);
        return;
      }
      var bits := ComputeVersionWord(version);
      for i := 0 to 18
        invariant Ready() && Progress(m0, f0, modules, isFunction, size, l, drawn)
        invariant forall k :: 0 <= k < i ==>
          (size - 11 + k % 3, k / 3) in drawn && (k / 3, size - 11 + k % 3) in drawn
      {
        var bit := WordBit(bits, i);
        var a, b := size - 11 + i % 3, i / 3;
        VersionModule(version, size, i);
        drawn := PaintModule(a, b, bit, m0, f0, l, drawn);
        drawn := PaintModule(b, a, bit, m0, f0, l, drawn);
      }
      forall x, y | In(size, x, y) && Covers(l, size, x, y)
        ensures (x, y) in drawn
      {
        ModuleOfVersionBit(version, size, x, y);
      }
      ProgressEnd(m0, f0, modules, isFunction, size, l, drawn);
    }

    /** The grids hold exactly the given layers, drawn in order on blank grids. */
    ghost predicate Shows(ls: seq<Layer>)
      reads this
    {
      Ready() && LayersValid(ls)
      && modules == PaintAll(Blank(size), size, ls) && isFunction == MarkAll(Blank(size), size, ls)
    }

    method AddTiming(ghost ls: seq<Layer>)
      requires Shows(ls)
      modifies `modules, `isFunction
      ensures Shows(ls + [TimingLayer])
    {
      hide Paint, Mark, PaintAll, MarkAll, Blank;
      PaintLast(Blank(size), Blank(size), size, ls, TimingLayer);
      DrawTimingPatterns();
    }

    method AddFinder(x: int, y: int, ghost ls: seq<Layer>)
      requires Shows(ls)
      modifies `modules, `isFunction
      ensures Shows(ls + [FinderLayer(x, y)])
    {
      hide Paint, Mark, PaintAll, MarkAll, Blank;
      PaintLast(Blank(size), Blank(size), size, ls, FinderLayer(x, y));
      DrawFinderPattern(x, y);
    }

    method AddAlignment(x: int, y: int, ghost ls: seq<Layer>)
      requires Shows(ls) && 2 <= x < size - 2 && 2 <= y < size - 2
      modifies `modules, `isFunction
      ensures Shows(ls + [AlignmentLayer(x, y)])
    {
      hide Paint, Mark, PaintAll, MarkAll, Blank;
      PaintLast(Blank(size), Blank(size), size, ls, AlignmentLayer(x, y));
      DrawAlignmentPattern(x, y);
    }

    method AddConfiguration(ghost ls: seq<Layer>)
      requires Shows(ls)
      modifies `modules, `isFunction
      ensures Shows(ls + [FormatLayer(errorCorrectionLevel, 0), VersionLayer(version)])
    {
      hide Paint, Mark, PaintAll, MarkAll, Blank;
      ghost var l1, l2 := FormatLayer(errorCorrectionLevel, 0), VersionLayer(version);
      PaintLast(Blank(size), Blank(size), size, ls, l1);
      DrawFormatBits(0);
      PaintLast(Blank(size), Blank(size), size, ls + [l1], l2);
      DrawVersion();
      assert ls + [l1] + [l2] == ls + [l1, l2];
    }

    /** Draw the alignment patterns, except on the three finder corners. */
    method DrawAlignmentPatterns(alignPatPos: seq<int>)
      requires Shows(BaseLayers(version))
      requires |alignPatPos| == NumAlign(version)
      requires forall i :: 0 <= i < |alignPatPos| ==> alignPatPos[i] == AlignPos(version, i)
      modifies `modules, `isFunction
      ensures Shows(BaseLayers(version) + AlignRows(version, NumAlign(version)))
    {
      hide Shows, AlignPos, BaseLayers, NumAlign;
      ShowsReady(BaseLayers(version));
      var numAlign := |alignPatPos|;
      ghost var base := BaseLayers(version);
      NoAlignment(version, base);
      for i := 0 to numAlign
        invariant Shows(base + AlignRows(version, i))
      {
        ghost var done := base + AlignRows(version, i);
        assert done + AlignRow(version, i, 0) == done;
        for j := 0 to numAlign
          invariant Shows(done + AlignRow(version, i, j))
        {
          ShowsReady(done + AlignRow(version, i, j));
          AlignBounds(version, i);
          AlignBounds(version, j);
          if !((i == 0 && j == 0) || (i == 0 && j == numAlign - 1) || (i == numAlign - 1 && j == 0)) {
            ghost var l := AlignmentLayer(AlignPos(version, i), AlignPos(version, j));
            AddAlignment(alignPatPos[i], alignPatPos[j], done + AlignRow(version, i, j));
            assert done + AlignRow(version, i, j + 1) == (done + AlignRow(version, i, j)) + [l];
          } else {
            assert AlignRow(version, i, j + 1) == AlignRow(version, i, j);
          }
        }
        assert base + AlignRows(version, i + 1) == done + AlignRow(version, i, numAlign);
      }
    }

    lemma ShowsReady(ls: seq<Layer>)
      requires Shows(ls)
      ensures Ready()
    {}

    /** Draws and marks all function modules, with mask 0 in the format information for the time being. */
    method DrawFunctionPatterns()
      requires Ready() && modules == Blank(size) && isFunction == Blank(size)
      modifies `modules, `isFunction
      ensures Shows(FunctionLayers(version, errorCorrectionLevel, 0))
    {
      NothingPainted(Blank(size), size);
      hide AlignPos, NumAlign, AlignRows, Blank, PaintAll, MarkAll;
      // Timing patterns first; the three finder patterns overwrite some of their modules
      AddTiming([]);
      ghost var l0, l1 := TimingLayer, FinderLayer(3, 3);
      AddFinder(3, 3, [] + [l0]);
      AddFinder(size - 4, 3, [] + [l0] + [l1]);
      AddFinder(3, size - 4, [] + [l0] + [l1] + [FinderLayer(size - 4, 3)]);
      assert [] + [l0] + [l1] + [FinderLayer(size - 4, 3)] + [FinderLayer(3, size - 4)] == BaseLayers(version);
      var alignPatPos := GetAlignmentPatternPositions(version);
      DrawAlignmentPatterns(alignPatPos);
      AddConfiguration(BaseLayers(version) + AlignRows(version, NumAlign(version)));
    }

    /** The scan has run to time t over the grid `start`, and i bits have been placed. */
    ghost predicate Scanned(start: Grid, data: seq<Byte>, t: int, i: nat)
      reads this
    {
      && Ready() && Scannable(size) && IsGrid(start, size) && 0 <= t <= Steps(size)
      && modules == Written(start, isFunction, size, BitString(data), t)
      && i == Min(|FreeList(isFunction, size, t)|, 8 * |data|)
    }

    /** One step of the zigzag scan: a free module takes the next bit, if any is left. */
    method PlaceBit(x: int, y: int, i: nat, data: seq<Byte>, ghost start: Grid, ghost t: int) returns (next: nat)
      requires Scanned(start, data, t, i) && t < Steps(size) && ScanCell(size, t) == (x, y)
      modifies `modules
      ensures Scanned(start, data, t + 1, next)
    {
      hide ScanCell, BitString, GetBit;
      TimeOfCell(size, t);
      next := i;
      if !isFunction[y][x] && i < 8 * |data| {
        modules := modules[y := modules[y][x := GetBit(data[i / 8], 7 - i % 8)]];
        next := i + 1;
      }
    }

    /** One column pair, top to bottom or bottom to top. */
    method DrawColumnPair(right: int, first: nat, data: seq<Byte>, ghost start: Grid, ghost p: int) returns (i: nat)
      requires Scanned(start, data, PairTime(size, p), first)
      requires 0 <= p < (size - 1) / 2 && right == Right(size, p) >= 1
      modifies `modules
      ensures Scanned(start, data, PairTime(size, p + 1), i)
    {
      hide Written, FreeList, BitString, ScanCell, Right, Steps;
      i := first;
      for vert := 0 to size
        invariant Scanned(start, data, 2 * (p * size + vert), i)
      {
        StepBound(size, p, vert, 0);
        StepBound(size, p, vert, 1);
        ghost var t := 2 * (p * size + vert);
        var upward := (right + 1) / 2 % 2 == 0;
        var y := if upward then size - 1 - vert else vert;
        assert ScanCell(size, t) == (right, y) by { assert ScanCell(size, t) == CellAt(size, right, vert, 0); }
        assert ScanCell(size, t + 1) == (right - 1, y) by { assert ScanCell(size, t + 1) == CellAt(size, right, vert, 1); }
        i := PlaceBit(right, y, i, data, start, t);
        i := PlaceBit(right - 1, y, i, data, start, t + 1);
      }
      assert p * size + size == (p + 1) * size;
    }

    /** Draws the codewords onto the free modules in zigzag order; every bit finds a place. */
    method DrawCodewords(data: seq<Byte>) returns (r: Result<()>)
      requires Ready() && 8 * RawCodewords(version) <= |FreeList(isFunction, size, Steps(size))|
      modifies `modules
      ensures Ready()
      ensures r.Ok? <==> |data| == RawCodewords(version)
      ensures r.Err? ==> r.error == InvalidArgument && modules == old(modules)
      ensures r.Ok? ==> modules == Written(old(modules), isFunction, size, BitString(data), Steps(size))
    {
      hide RawCodewords, Written, FreeList, BitString, Right, Steps, PairTime;
      if |data| != RawCodewords(version) {
        return Err(InvalidArgument);
      }
      ghost var start := modules;
      var i: nat := 0;
      ghost var p := 0;
      var right := size - 1;
      ScanBegins(start, isFunction, size, BitString(data));
      PairTimes(size);
      while right >= 1
        invariant 0 <= p <= (size - 1) / 2
        invariant right == if size - 1 - 2 * p >= 6 then size - 1 - 2 * p else size - 2 - 2 * p
        invariant Scanned(start, data, PairTime(size, p), i)
        decreases right
      {
        if right == 6 {
          right := 5;
        }
        PairColumns(size, p, right);
        i := DrawColumnPair(right, i, data, start, p);
        right := right - 2;
        p := p + 1;
      }
      assert p == (size - 1) / 2;
      assert i == 8 * |data|;
      r := Ok(());
    }

    /** Exclusive-ors the mask pattern into the modules that are not function modules. */
    method ApplyMask(msk: int) returns (r: Result<()>)
      requires Ready()
      modifies `modules
      ensures Ready()
      ensures r.Ok? <==> 0 <= msk <= 7
      ensures r.Err? ==> r.error == DomainError && modules == old(modules)
      ensures r.Ok? ==> modules == Masked(old(modules), isFunction, size, msk)
    {
      hide InvertsAt, Formula, Masked;
      if msk < 0 || msk > 7 {
        return Err(DomainError);
      }
      ghost var m0 := modules;
      for y := 0 to size
        invariant Ready()
        invariant forall i, j :: In(size, i, j) ==>
          At(modules, i, j) == (At(m0, i, j) != (j < y && Inverts(msk, i, j) && !At(isFunction, i, j)))
      {
        for x := 0 to size
          invariant Ready()
          invariant forall i, j :: In(size, i, j) ==>
            At(modules, i, j) ==
            (At(m0, i, j) != ((j < y || (j == y && i < x)) && Inverts(msk, i, j) && !At(isFunction, i, j)))
        {
          assert At(modules, x, y) == modules[y][x] && At(isFunction, x, y) == isFunction[y][x];
          FormulaIs(msk, x, y, x * y);
          modules := Put(modules, x, y, modules[y][x] != (Formula(msk, x, y, x * y) && !isFunction[y][x]));
        }
      }
      Same(modules, Masked(m0, isFunction, size, msk), size);
      r := Ok(());
    }
  }

  /** The smallest value the platform may give the largest long. */
  const LONG_MAX := 0x7FFF_FFFF

  function Min(a: int, b: int): int { if a < b then a else b }

  lemma ScanBegins(g: Grid, f: Grid, n: int, bits: seq<bool>)
    requires Scannable(n) && IsGrid(g, n) && IsGrid(f, n)
    ensures 0 <= Steps(n) && Written(g, f, n, bits, 0) == g && FreeList(f, n, 0) == []
  {}

  /** When the scan starts on pair p. */
  ghost function PairTime(n: int, p: int): int { 2 * (p * n) }

  lemma PairTimes(n: int)
    requires Scannable(n)
    ensures PairTime(n, 0) == 0 && PairTime(n, (n - 1) / 2) == Steps(n)
  {
    StepsAre(n);
  }

  lemma PairColumns(n: int, p: int, right: int)
    requires Scannable(n) && 0 <= p
    requires right == (if n - 1 - 2 * p >= 8 then n - 1 - 2 * p else n - 2 - 2 * p) && right >= 1
    ensures right == Right(n, p) && p < (n - 1) / 2
  {}

  lemma NothingPainted(g: Grid, n: nat)
    requires IsGrid(g, n)
    ensures PaintAll(g, n, []) == g && MarkAll(g, n, []) == g
  {}

  lemma NoAlignment(ver: int, base: seq<Layer>)
    requires IsVersion(ver)
    ensures base + AlignRows(ver, 0) == base
  {}

  /** Every alignment pattern is in bounds. */
  lemma AlignBounds(ver: int, i: int)
    requires IsVersion(ver) && 0 <= i < NumAlign(ver)
    ensures ver >= 2 && 6 <= AlignPos(ver, i) <= Size(ver) - 7
  {
    AlignFacts(ver);
    hide AlignPos, NumAlign, AlignStep;
    AlignZero(ver);
    AlignNext(ver, 1);
    if i > 0 {
      AlignApart(ver, 0, i);
    }
    if i < NumAlign(ver) - 1 {
      AlignApart(ver, i, NumAlign(ver) - 1);
    }
  }

  lemma NoVersionBits(ver: int, n: int)
    requires ver < 7
    ensures forall x, y :: VersionIndex(ver, n, x, y) < 0
  {}

  /** Bit i is shown at column n - 11 + i % 3, row i / 3, and at the transposed module. */
  lemma VersionModule(ver: int, n: int, i: int)
    requires 7 <= ver && n >= 21 && 0 <= i < 18
    ensures VersionIndex(ver, n, n - 11 + i % 3, i / 3) == i && VersionIndex(ver, n, i / 3, n - 11 + i % 3) == i
  {}

  lemma ModuleOfVersionBit(ver: int, n: int, x: int, y: int)
    requires VersionIndex(ver, n, x, y) >= 0
    ensures
      var k := VersionIndex(ver, n, x, y);
      (x, y) == (n - 11 + k % 3, k / 3) || (x, y) == (k / 3, n - 11 + k % 3)
  {}

  /** The format word: ten division steps, then the data bits in front and the fixed pattern over all. */
  method ComputeFormatWord(ecl: Ecc, msk: int) returns (bits: Word)
    requires 0 <= msk < 8
    ensures bits == FormatWord(ecl, msk) && bits.bits < 0x8000
    ensures exists q: bv32 :: q < 32 && Xor(bits, Word(0x5412)) == Word(CarryLess(q, 0x537))
  {
    hide FormatStep, FormatData, FormatAssemble, CarryLess, Xor;
    var data := FormatData(LevelBits(ecl), MaskBits(msk));
    var rem := data;
    for i := 0 to 10
      invariant rem == FormatRemainder(data, i)
    {
      rem := FormatStep(rem);
    }
    bits := FormatAssemble(data, rem);
    FormatReads(ecl, msk);
    FormatIsCodeword(ecl, msk);
  }

  method ComputeVersionWord(ver: int) returns (bits: Word)
    requires IsVersion(ver)
    ensures bits == VersionWord(ver) && bits.bits < 0x4_0000
    ensures exists q: bv32 :: q < 64 && bits.bits == CarryLess(q, 0x1F25)
  {
    hide VersionStep, VersionAssemble, VersionBits, CarryLess;
    var data := VersionBits(ver);
    var rem := data;
    for i := 0 to 12
      invariant rem == VersionRemainder(data, i)
    {
      rem := VersionStep(rem);
    }
    bits := VersionAssemble(data, rem);
    VersionReads(ver);
    VersionIsCodeword(ver);
  }
}
