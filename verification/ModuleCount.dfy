/** How many modules the function patterns leave for codewords. */
module ModuleCount {
  import opened Grids
  import opened Tables
  import opened Patterns
  import opened Counting
  import opened FunctionMap

  const PIECES := 10

  /** A partition of the function modules into products of columns and rows. */
  function Piece(ver: int, x: int, y: int): (k: int)
    requires IsVersion(ver)
    ensures -1 <= k < PIECES
  {
    var n, a := Size(ver), NumAlign(ver);
    if x <= 8 && y <= 8 then 0
    else if x >= n - 8 && y <= 8 then 1
    else if x <= 8 && y >= n - 8 then 2
    else if y == 6 then 3
    else if x == 6 then 4
    else if ver >= 7 && n - 11 <= x <= n - 9 && 0 <= y <= 5 then 5
    else if ver >= 7 && n - 11 <= y <= n - 9 && 0 <= x <= 5 then 6
    else if x in Band(ver, 1, a) && y in Band(ver, 1, a) then 7
    else if x in Band(ver, 1, a - 1) && 4 <= y <= 8 then 8
    else if y in Band(ver, 1, a - 1) && 4 <= x <= 8 then 9
    else -1
  }

  const AXIS: seq<int> := [4, 5, 7, 8]

  function Columns(ver: int, k: int): seq<int>
    requires IsVersion(ver) && 0 <= k < 10
  {
    var n, a := Size(ver), NumAlign(ver);
    match k
    case 0 => Interval(0, 9)
    case 1 => Interval(n - 8, n)
    case 2 => Interval(0, 9)
    case 3 => Interval(9, n - 8)
    case 4 => [6]
    case 5 => if ver >= 7 then Interval(n - 11, n - 8) else []
    case 6 => Interval(0, 6)
    case 7 => Band(ver, 1, a)
    case 8 => Band(ver, 1, a - 1)
    case _ => AXIS
  }

  function Rows(ver: int, k: int): seq<int>
    requires IsVersion(ver) && 0 <= k < 10
  {
    var n, a := Size(ver), NumAlign(ver);
    match k
    case 0 => Interval(0, 9)
    case 1 => Interval(0, 9)
    case 2 => Interval(n - 8, n)
    case 3 => [6]
    case 4 => Interval(9, n - 8)
    case 5 => Interval(0, 6)
    case 6 => if ver >= 7 then Interval(n - 11, n - 8) else []
    case 7 => Band(ver, 1, a)
    case 8 => AXIS
    case _ => Band(ver, 1, a - 1)
  }

  lemma AxisHas(c: int)
    ensures c in AXIS <==> 4 <= c <= 8 && c != 6
    ensures Distinct(AXIS)
  {}

  /** Each piece is a product, so the products are disjoint and cover exactly the function modules. */
  lemma PieceIsProduct(ver: int, x: int, y: int, k: int)
    requires IsVersion(ver) && In(Size(ver), x, y) && 0 <= k < 10
    ensures Piece(ver, x, y) == k <==> x in Columns(ver, k) && y in Rows(ver, k)
  {
    hide Band, NumAlign, Interval;
    AxisHas(x);
    AxisHas(y);
    var a: int := NumAlign(ver);
    if x in Band(ver, 1, a) { BandRange(ver, a, x); }
    if y in Band(ver, 1, a) { BandRange(ver, a, y); }
    if x in Band(ver, 1, a - 1) { BandRange(ver, a - 1, x); }
    if y in Band(ver, 1, a - 1) { BandRange(ver, a - 1, y); }
  }

  lemma PieceIsFunction(ver: int, x: int, y: int)
    requires IsVersion(ver) && In(Size(ver), x, y)
    ensures Piece(ver, x, y) >= 0 <==> IsFunction(ver, x, y)
  {
    hide Band, NumAlign;
  }

  lemma ProductInBounds(ver: int, k: int, x: int, y: int)
    requires IsVersion(ver) && 0 <= k < PIECES && x in Columns(ver, k) && y in Rows(ver, k)
    ensures In(Size(ver), x, y)
  {
    hide Band, NumAlign, Interval;
    AxisHas(x);
    AxisHas(y);
    var a: int := NumAlign(ver);
    if x in Band(ver, 1, a) { BandRange(ver, a, x); }
    if y in Band(ver, 1, a) { BandRange(ver, a, y); }
    if x in Band(ver, 1, a - 1) { BandRange(ver, a - 1, x); }
    if y in Band(ver, 1, a - 1) { BandRange(ver, a - 1, y); }
  }

  function PieceCells(ver: int, k: int): set<Cell>
    requires IsVersion(ver) && 0 <= k < PIECES
  {
    Cells(Columns(ver, k), Rows(ver, k))
  }

  lemma PieceCellsHas(ver: int, k: int, p: Cell)
    requires IsVersion(ver) && 0 <= k < PIECES
    ensures p in PieceCells(ver, k) <==> In(Size(ver), p.0, p.1) && Piece(ver, p.0, p.1) == k
  {
    hide Columns, Rows, Piece, Cells;
    if p.0 in Columns(ver, k) && p.1 in Rows(ver, k) {
      ProductInBounds(ver, k, p.0, p.1);
    }
    if In(Size(ver), p.0, p.1) {
      PieceIsProduct(ver, p.0, p.1, k);
    }
  }

  /** The modules of the first k pieces. */
  function UpTo(ver: int, k: int): set<Cell>
    requires IsVersion(ver) && 0 <= k <= PIECES
  {
    if k == 0 then {} else UpTo(ver, k - 1) + PieceCells(ver, k - 1)
  }

  lemma {:induction false} UpToHas(ver: int, k: int, p: Cell)
    requires IsVersion(ver) && 0 <= k <= PIECES
    ensures p in UpTo(ver, k) <==> In(Size(ver), p.0, p.1) && 0 <= Piece(ver, p.0, p.1) < k
  {
    hide Piece, PieceCells;
    if k > 0 {
      UpToHas(ver, k - 1, p);
      PieceCellsHas(ver, k - 1, p);
    }
  }

  lemma UpToSize(ver: int, k: int)
    requires IsVersion(ver) && 0 < k <= PIECES
    ensures |UpTo(ver, k)| == |UpTo(ver, k - 1)| + |PieceCells(ver, k - 1)|
  {
    hide Piece, PieceCells;
    var before, piece := UpTo(ver, k - 1), PieceCells(ver, k - 1);
    forall p: Cell | p in before
      ensures p !in piece
    {
      UpToHas(ver, k - 1, p);
      PieceCellsHas(ver, k - 1, p);
    }
    assert before !! piece;
  }

  /** The size of each piece. */
  function PieceSize(ver: int, k: int): int
    requires IsVersion(ver) && 0 <= k < PIECES
  {
    var a := NumAlign(ver);
    match k
    case 0 => 81
    case 1 => 72
    case 2 => 72
    case 3 => Size(ver) - 17
    case 4 => Size(ver) - 17
    case 5 => if ver >= 7 then 18 else 0
    case 6 => if ver >= 7 then 18 else 0
    case 7 => if ver == 1 then 0 else 25 * (a - 1) * (a - 1)
    case _ => if ver == 1 then 0 else 20 * (a - 2)
  }

  lemma BandSizes(ver: int)
    requires IsVersion(ver)
    ensures
      var a: int := NumAlign(ver);
      && Distinct(Band(ver, 1, a)) && |Band(ver, 1, a)| == (if ver == 1 then 0 else 5 * (a - 1))
      && Distinct(Band(ver, 1, a - 1)) && |Band(ver, 1, a - 1)| == (if ver == 1 then 0 else 5 * (a - 2))
  {
    if ver >= 2 {
      AlignFacts(ver);
      hide AlignPos, Interval, NumAlign, Band;
      BandSize(ver, NumAlign(ver));
      BandSize(ver, NumAlign(ver) - 1);
    }
  }

  lemma ListSizes(ver: int, k: int)
    requires IsVersion(ver) && 0 <= k < PIECES
    ensures Distinct(Columns(ver, k)) && Distinct(Rows(ver, k))
    ensures |Columns(ver, k)| * |Rows(ver, k)| == PieceSize(ver, k)
  {
    hide Interval, NumAlign, Band, Distinct;
    BandSizes(ver);
    AxisHas(4);
    SingletonDistinct(6);
    var m := NumAlign(ver) - 1;
    if k == 7 {
      Square(m);
    } else if k <= 2 {
    } else if k <= 4 {
    } else if k <= 6 {
    } else {
    }
  }

  lemma Square(m: int)
    ensures (5 * m) * (5 * m) == 25 * m * m
  {}

  lemma SingletonDistinct(c: int)
    ensures Distinct([c])
    ensures var e: seq<int> := []; Distinct(e)
  {}

  lemma PieceCellsSize(ver: int, k: int)
    requires IsVersion(ver) && 0 <= k < PIECES
    ensures |PieceCells(ver, k)| == PieceSize(ver, k)
  {
    hide Columns, Rows, PieceSize, Cells;
    ListSizes(ver, k);
    CellsSize(Columns(ver, k), Rows(ver, k));
  }

  ghost function AllCells(n: nat): set<Cell> {
    Cells(Interval(0, n), Interval(0, n))
  }

  /** The modules that no function pattern covers. */
  ghost function FreeCells(ver: int): set<Cell>
    requires IsVersion(ver)
  {
    AllCells(Size(ver)) - UpTo(ver, PIECES)
  }

  lemma FreeCellsHas(ver: int, p: Cell)
    requires IsVersion(ver)
    ensures p in FreeCells(ver) <==> In(Size(ver), p.0, p.1) && !IsFunction(ver, p.0, p.1)
  {
    hide UpTo, Piece, IsFunction, Interval, Cells;
    UpToHas(ver, PIECES, p);
    if In(Size(ver), p.0, p.1) {
      PieceIsFunction(ver, p.0, p.1);
    }
  }

  lemma FreeCellsComplement(ver: int)
    requires IsVersion(ver)
    ensures |FreeCells(ver)| == |AllCells(Size(ver))| - |UpTo(ver, PIECES)|
  {
    hide UpTo, Interval, Cells, Piece;
    var all, used := AllCells(Size(ver)), UpTo(ver, PIECES);
    forall p: Cell | p in used
      ensures p in all
    {
      UpToHas(ver, PIECES, p);
    }
    assert used <= all;
  }

  /** The closed form counts exactly the modules outside every function pattern. */
  lemma FreeCellsCount(ver: int)
    requires IsVersion(ver)
    ensures |FreeCells(ver)| == NumRawDataModules(ver)
  {
    hide UpTo, Interval, Cells, FreeCells, SizeUpTo, NumRawDataModules;
    var n := Size(ver);
    FreeCellsComplement(ver);
    CellsSize(Interval(0, n), Interval(0, n));
    UpToTotal(ver, PIECES);
    FunctionTotal(ver);
    Arithmetic(ver);
  }

  function SizeUpTo(ver: int, k: int): int
    requires IsVersion(ver) && 0 <= k <= PIECES
  {
    if k == 0 then 0 else SizeUpTo(ver, k - 1) + PieceSize(ver, k - 1)
  }

  lemma {:induction false} UpToTotal(ver: int, k: int)
    requires IsVersion(ver) && 0 <= k <= PIECES
    ensures |UpTo(ver, k)| == SizeUpTo(ver, k)
  {
    hide PieceCells, PieceSize;
    if k > 0 {
      UpToTotal(ver, k - 1);
      hide UpTo;
      UpToSize(ver, k);
      PieceCellsSize(ver, k - 1);
    }
  }

  /** Corners, timing, version blocks and alignment patterns, overlaps counted once. */
  ghost function Total(ver: int): int
    requires IsVersion(ver)
  {
    225 + 2 * (Size(ver) - 17) + 2 * PieceSize(ver, 5) + PieceSize(ver, 7) + 2 * PieceSize(ver, 8)
  }

  lemma FunctionTotal(ver: int)
    requires IsVersion(ver)
    ensures SizeUpTo(ver, PIECES) == Total(ver)
  {
    hide NumAlign;
    assert SizeUpTo(ver, 1) == 81;
    assert SizeUpTo(ver, 3) == 225;
    assert SizeUpTo(ver, 5) == 225 + 2 * (Size(ver) - 17);
    assert SizeUpTo(ver, 7) == SizeUpTo(ver, 5) + 2 * PieceSize(ver, 5);
    assert SizeUpTo(ver, 8) == SizeUpTo(ver, 7) + PieceSize(ver, 7);
    assert SizeUpTo(ver, 10) == SizeUpTo(ver, 8) + 2 * PieceSize(ver, 8);
  }

  lemma Arithmetic(ver: int)
    requires IsVersion(ver)
    ensures Size(ver) * Size(ver) - Total(ver) == NumRawDataModules(ver)
  {
    assert Size(ver) * Size(ver) == 16 * ver * ver + 136 * ver + 289;
    assert (16 * ver + 128) * ver == 16 * ver * ver + 128 * ver;
    if ver >= 2 {
      var a := ver / 7 + 2;
      assert (25 * a - 10) * a == 25 * a * a - 10 * a;
      assert 25 * (a - 1) * (a - 1) == 25 * a * a - 50 * a + 25;
    }
  }
}
