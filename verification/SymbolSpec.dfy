/** The finished symbol as a value: function map, codeword placement, candidates and the best mask. */
module SymbolSpec {
  import opened Tables
  import opened GaloisField
  import opened ByteBits
  import opened Grids
  import opened Counting
  import opened Patterns
  import opened FunctionMap
  import opened ModuleCount
  import opened Zigzag
  import opened Masking
  import opened Interleaving
  import Penalty

  /** The function map of a version, as a receiver can rebuild it from the size alone. */
  function MapGrid(ver: int): (f: Grid)
    requires IsVersion(ver)
    ensures IsGrid(f, Size(ver))
    ensures forall x, y :: In(Size(ver), x, y) ==> At(f, x, y) == IsFunction(ver, x, y)
  {
    var n := Size(ver);
    seq(n, y requires 0 <= y < n => seq(n, x requires 0 <= x < n => IsFunction(ver, x, y)))
  }

  /** What drawing marks is the function map, whatever the level and mask. */
  lemma MarksAreMap(ver: int, ecl: Ecc, mask: int)
    requires IsVersion(ver)
    ensures MarkAll(Blank(Size(ver)), Size(ver), FunctionLayers(ver, ecl, mask)) == MapGrid(ver)
  {
    hide MarkAll, FunctionLayers, IsFunction, MapGrid, Blank, At, Covered;
    var n := Size(ver);
    var f := MarkAll(Blank(n), n, FunctionLayers(ver, ecl, mask));
    forall x, y | In(n, x, y)
      ensures At(f, x, y) == At(MapGrid(ver), x, y)
    {
      MarkAllAt(Blank(n), n, FunctionLayers(ver, ecl, mask), x, y);
      FunctionMapIs(ver, ecl, mask, x, y);
    }
    Same(f, MapGrid(ver), n);
  }

  /** The format modules are function modules, so marking them again changes nothing. */
  lemma FormatInMap(ver: int, ecl: Ecc, mask: int)
    requires IsVersion(ver) && 0 <= mask < 8
    ensures Mark(MapGrid(ver), Size(ver), FormatLayer(ecl, mask)) == MapGrid(ver)
  {
    hide Mark, MapGrid, At, IsFunction;
    var n := Size(ver);
    forall x, y | In(n, x, y) && FormatIndex(n, x, y) >= 0
      ensures At(MapGrid(ver), x, y)
    {
      FormatIsFunction(ver, x, y);
    }
    hide FormatIndex;
    Same(Mark(MapGrid(ver), n, FormatLayer(ecl, mask)), MapGrid(ver), n);
  }

  lemma FormatIsFunction(ver: int, x: int, y: int)
    requires IsVersion(ver) && In(Size(ver), x, y) && FormatIndex(Size(ver), x, y) >= 0
    ensures IsFunction(ver, x, y)
  {
    hide Band, NumAlign;
  }

  /** The zigzag scan of a version's function map meets exactly as many free modules as the closed form counts. */
  lemma FreeListCount(ver: int)
    requires IsVersion(ver)
    ensures Scannable(Size(ver))
    ensures |FreeList(MapGrid(ver), Size(ver), Steps(Size(ver)))| == NumRawDataModules(ver)
  {
    hide FreeList, FreeCells, NumRawDataModules, MapGrid, At, Steps;
    var n, f := Size(ver), MapGrid(ver);
    var all := FreeList(f, n, Steps(n));
    FreeListDistinct(f, n, Steps(n));
    ToSetSize(all);
    forall y | 0 <= y < n
      ensures In(n, 6, y) && At(f, 6, y)
    {
      assert IsFunction(ver, 6, y);
    }
    hide IsFunction;
    var listed, free := ToSet(all), FreeCells(ver);
    forall c: Cell
      ensures c in listed <==> c in free
    {
      FreeListHas(f, n, c);
      FreeCellsHas(ver, c);
    }
    assert listed == free;
    FreeCellsCount(ver);
  }

  lemma EnoughRoom(ver: int)
    requires IsVersion(ver)
    ensures Scannable(Size(ver))
    ensures 8 * RawCodewords(ver) <= |FreeList(MapGrid(ver), Size(ver), Steps(Size(ver)))|
  {
    hide FreeList, MapGrid, NumRawDataModules;
    FreeListCount(ver);
  }

  // ----- the symbol -----

  /** The function patterns alone, with mask 0 in the format information. */
  ghost function PatternGrid(ver: int, ecl: Ecc): (g: Grid)
    requires IsVersion(ver)
    ensures IsGrid(g, Size(ver))
  {
    LayersAllValid(ver, ecl, 0);
    PaintAll(Blank(Size(ver)), Size(ver), FunctionLayers(ver, ecl, 0))
  }

  ghost function CodewordBits(ver: int, ecl: Ecc, data: seq<Byte>): (bits: seq<bool>)
    requires IsVersion(ver) && |data| == NumDataCodewords(ver, ecl)
    ensures |bits| == 8 * RawCodewords(ver)
  {
    BitString(AllCodewords(ver, ecl, data))
  }

  /** A grid with bits written along the zigzag of its version's free modules. */
  ghost function WithBits(ver: int, g: Grid, bits: seq<bool>): (h: Grid)
    requires IsVersion(ver) && IsGrid(g, Size(ver))
    ensures IsGrid(h, Size(ver))
  {
    Zigzag.Written(g, MapGrid(ver), Size(ver), bits, Steps(Size(ver)))
  }

  /** Function patterns and codewords, before masking. */
  ghost function BaseGrid(ver: int, ecl: Ecc, data: seq<Byte>): (g: Grid)
    requires IsVersion(ver)
    requires |data| == NumDataCodewords(ver, ecl)
    ensures IsGrid(g, Size(ver))
  {
    hide WithBits, NumDataCodewords;
    WithBits(ver, PatternGrid(ver, ecl), CodewordBits(ver, ecl, data))
  }

  ghost function Candidate(ver: int, ecl: Ecc, data: seq<Byte>, mask: int): (g: Grid)
    requires IsVersion(ver) && |data| == NumDataCodewords(ver, ecl) && 0 <= mask < 8
    ensures IsGrid(g, Size(ver))
  {
    Trial(BaseGrid(ver, ecl, data), MapGrid(ver), Size(ver), ecl, mask)
  }

  ghost function CandidateScore(ver: int, ecl: Ecc, data: seq<Byte>, mask: int): int
    requires IsVersion(ver) && |data| == NumDataCodewords(ver, ecl) && 0 <= mask < 8
  {
    Penalty.Total(Candidate(ver, ecl, data, mask))
  }

  /** No candidate scores lower, and none with a smaller number scores as low. */
  ghost predicate IsBestMask(ver: int, ecl: Ecc, data: seq<Byte>, mask: int)
    requires IsVersion(ver) && |data| == NumDataCodewords(ver, ecl) && 0 <= mask < 8
  {
    && (forall j :: 0 <= j < 8 ==> CandidateScore(ver, ecl, data, mask) <= CandidateScore(ver, ecl, data, j))
    && (forall j :: 0 <= j < mask ==> CandidateScore(ver, ecl, data, mask) < CandidateScore(ver, ecl, data, j))
  }

  /** All codeword bits of an unmasked grid, in zigzag order. */
  ghost function SymbolBits(g: Grid, ver: int): (bits: seq<bool>)
    requires IsVersion(ver) && IsGrid(g, Size(ver))
    ensures |bits| == 8 * RawCodewords(ver)
  {
    RawRange(ver);
    EnoughRoom(ver);
    ReadBits(g, MapGrid(ver), Size(ver), 8 * RawCodewords(ver))
  }

  /** The unmasked symbol holds its codewords. */
  lemma BaseBits(ver: int, ecl: Ecc, data: seq<Byte>)
    requires IsVersion(ver) && |data| == NumDataCodewords(ver, ecl)
    ensures SymbolBits(BaseGrid(ver, ecl, data), ver) == CodewordBits(ver, ecl, data)
  {
    hide NumDataCodewords, RawCodewords, MapGrid, FreeList, ReadBits, PatternGrid, Zigzag.Written, CodewordBits, Steps;
    RawRange(ver);
    EnoughRoom(ver);
    ReadWritten(PatternGrid(ver, ecl), MapGrid(ver), Size(ver), CodewordBits(ver, ecl, data));
  }

  /** Grids that agree outside the format information hold the same codeword bits. */
  lemma SameSymbolBits(ver: int, g: Grid, h: Grid)
    requires IsVersion(ver) && IsGrid(g, Size(ver)) && IsGrid(h, Size(ver)) && SameButFormat(g, h, Size(ver))
    ensures SymbolBits(g, ver) == SymbolBits(h, ver)
  {
    hide FreeList, MapGrid, At, FormatIndex, IsFunction, Steps, RawCodewords;
    RawRange(ver);
    EnoughRoom(ver);
    var n, f, count := Size(ver), MapGrid(ver), 8 * RawCodewords(ver);
    forall k | 0 <= k < count
      ensures ReadBits(g, f, n, count)[k] == ReadBits(h, f, n, count)[k]
    {
      FreeListElement(f, n, Steps(n), k);
      var c := FreeList(f, n, Steps(n))[k];
      if FormatIndex(n, c.0, c.1) >= 0 {
        FormatIsFunction(ver, c.0, c.1);
      }
    }
  }

  /** A walk over the whole symbol passes its codeword bits. */
  lemma WalkReadsSymbol(g: Grid, ver: int)
    requires IsVersion(ver) && IsGrid(g, Size(ver))
    ensures
      var all, count := WholeWalk(g, MapGrid(ver), Size(ver)), 8 * RawCodewords(ver);
      0 <= count <= |all| && all[..count] == SymbolBits(g, ver)
  {
    hide FreeList, MapGrid, RawCodewords, WholeWalk, ReadBits, Steps;
    RawRange(ver);
    EnoughRoom(ver);
    WalkReads(g, MapGrid(ver), Size(ver), 8 * RawCodewords(ver));
  }
}
