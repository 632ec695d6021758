/** The penalty score of a whole grid, its documented bounds, and the balance term as a least k. */
module Penalty {
  import opened Grids
  import opened Features
  import opened LinePenalty

  const PENALTY_N2 := 3
  const PENALTY_N4 := 10

  function RowsScore(g: Grid, k: nat): nat
    requires IsGrid(g, |g|) && k <= |g|
  {
    if k == 0 then 0 else RowsScore(g, k - 1) + Score(g[k - 1])
  }

  function ColumnsScore(g: Grid, k: nat): nat
    requires IsGrid(g, |g|) && k <= |g|
  {
    if k == 0 then 0 else ColumnsScore(g, k - 1) + Score(ColumnOf(g, k - 1))
  }

  predicate SameBlock(g: Grid, x: int, y: int)
    requires IsGrid(g, |g|) && 0 <= x < |g| - 1 && 0 <= y < |g| - 1
  {
    g[y][x] == g[y][x + 1] && g[y][x] == g[y + 1][x] && g[y][x] == g[y + 1][x + 1]
  }

  /** Uniform 2*2 blocks in rows y and y + 1 whose left column is below k. */
  function BlocksInRow(g: Grid, y: int, k: nat): nat
    requires IsGrid(g, |g|) && 0 <= y < |g| - 1 && k < |g|
  {
    if k == 0 then 0 else BlocksInRow(g, y, k - 1) + if SameBlock(g, k - 1, y) then 1 else 0
  }

  function Blocks(g: Grid, k: nat): nat
    requires IsGrid(g, |g|) && k < |g|
  {
    if k == 0 then 0 else Blocks(g, k - 1) + BlocksInRow(g, k - 1, |g| - 1)
  }

  function DarkInLine(line: seq<bool>): nat {
    if line == [] then 0 else DarkInLine(line[..|line| - 1]) + if line[|line| - 1] then 1 else 0
  }

  function Dark(g: Grid, k: nat): nat
    requires k <= |g|
  {
    if k == 0 then 0 else Dark(g, k - 1) + DarkInLine(g[k - 1])
  }

  function BalanceSteps(dark: int, total: int): int
    requires total > 0
  {
    (Abs(dark * 20 - total * 10) + total - 1) / total - 1
  }

  function Total(g: Grid): int
    requires IsGrid(g, |g|) && |g| > 0
  {
    RowsScore(g, |g|) + ColumnsScore(g, |g|)
    + Blocks(g, |g| - 1) * PENALTY_N2
    + BalanceSteps(Dark(g, |g|), |g| * |g|) * PENALTY_N4
  }

  // ----- the balance term -----

  lemma CeilingIsLeast(d: int, total: int, k: int)
    requires total > 0 && d >= 0
    ensures d <= (k + 1) * total <==> (d + total - 1) / total <= k + 1
  {
    var c := (d + total - 1) / total;
    assert d + total - 1 == c * total + (d + total - 1) % total;
    if c <= k + 1 {
      Grow(c, k + 1, total);
    } else {
      Grow(k + 2, c, total);
      assert (k + 2) * total == (k + 1) * total + total;
    }
  }

  lemma Grow(a: int, b: int, n: int)
    requires a <= b && n >= 0
    ensures a * n <= b * n
  {}

  lemma BalancedIff(dark: int, total: int, k: int)
    requires total > 0
    ensures Balanced(dark, total, k) <==> Abs(dark * 20 - total * 10) <= (k + 1) * total
  {
    assert (45 - 5 * k) * total == 50 * total - 5 * ((k + 1) * total);
    assert (55 + 5 * k) * total == 50 * total + 5 * ((k + 1) * total);
  }

  /** The computed k is the least that balances, and an odd total keeps it between 0 and 9. */
  lemma BalanceIsLeast(dark: int, total: int)
    requires 0 <= dark <= total && total % 2 == 1
    ensures var k := BalanceSteps(dark, total);
            0 <= k <= 9 && Balanced(dark, total, k) && forall j :: 0 <= j < k ==> !Balanced(dark, total, j)
  {
    var d := Abs(dark * 20 - total * 10);
    var k := BalanceSteps(dark, total);
    CeilingIsLeast(d, total, k);
    BalancedIff(dark, total, k);
    forall j | 0 <= j < k
      ensures !Balanced(dark, total, j)
    {
      CeilingIsLeast(d, total, j);
      BalancedIff(dark, total, j);
    }
    CeilingIsLeast(d, total, 9);
    CeilingIsLeast(d, total, -1);
    assert d != 0;
  }

  // ----- the bounds -----

  lemma {:induction false} LinesBound(g: Grid, k: nat)
    requires IsGrid(g, |g|) && 0 < |g| && k <= |g|
    ensures RowsScore(g, k) <= k * (|g| + (|g| + 5) / 2 * PENALTY_N3)
    ensures ColumnsScore(g, k) <= k * (|g| + (|g| + 5) / 2 * PENALTY_N3)
  {
    hide Score, ColumnOf;
    if k > 0 {
      LinesBound(g, k - 1);
      ScoreBound(g[k - 1]);
      ScoreBound(ColumnOf(g, k - 1));
      var m := |g| + (|g| + 5) / 2 * PENALTY_N3;
      assert k * m == (k - 1) * m + m;
    }
  }

  lemma {:induction false} RowBlocksBound(g: Grid, y: int, k: nat)
    requires IsGrid(g, |g|) && 0 <= y < |g| - 1 && k < |g|
    ensures BlocksInRow(g, y, k) <= k
  {
    if k > 0 {
      RowBlocksBound(g, y, k - 1);
    }
  }

  lemma {:induction false} BlocksBound(g: Grid, k: nat)
    requires IsGrid(g, |g|) && k < |g|
    ensures Blocks(g, k) <= k * |g|
  {
    hide BlocksInRow;
    if k > 0 {
      BlocksBound(g, k - 1);
      RowBlocksBound(g, k - 1, |g| - 1);
      assert k * |g| == (k - 1) * |g| + |g|;
    }
  }

  lemma {:induction false} DarkLineBound(line: seq<bool>)
    ensures DarkInLine(line) <= |line|
  {
    if line != [] {
      DarkLineBound(line[..|line| - 1]);
    }
  }

  lemma {:induction false} DarkBound(g: Grid, k: nat)
    requires IsGrid(g, |g|) && k <= |g|
    ensures Dark(g, k) <= k * |g|
  {
    hide DarkInLine;
    if k > 0 {
      DarkBound(g, k - 1);
      DarkLineBound(g[k - 1]);
      assert k * |g| == (k - 1) * |g| + |g|;
    }
  }

  /** The documented range of the score, for every grid of an odd size up to 177. */
  lemma TotalBound(g: Grid)
    requires IsGrid(g, |g|) && |g| % 2 == 1 && |g| <= 177
    ensures 0 <= BalanceSteps(Dark(g, |g|), |g| * |g|) <= 9
    ensures 0 <= Total(g) <= 2568888
  {
    hide RowsScore, ColumnsScore, Blocks, Dark, BalanceSteps;
    var n := |g|;
    LinesBound(g, n);
    BlocksBound(g, n - 1);
    DarkBound(g, n);
    OddSquare(n);
    BalanceIsLeast(Dark(g, n), n * n);
    var m := n + (n + 5) / 2 * PENALTY_N3;
    Product(n, m, 177, 3817);
    Product(n - 1, n, 176, 177);
  }

  lemma OddSquare(n: int)
    requires n % 2 == 1
    ensures n * n % 2 == 1
  {
    var h := n / 2;
    assert n == 2 * h + 1;
    assert n * n == 2 * (2 * h * h + 2 * h) + 1;
  }

  lemma Product(a: int, b: int, c: int, d: int)
    requires 0 <= a <= c && 0 <= b <= d
    ensures 0 <= a * b <= c * d
  {
    Grow(a, c, b);
    assert a * b <= c * b;
    Grow(b, d, c);
    assert c * b <= d * c;
  }

  // ----- the score in points -----

  lemma {:induction false} LinesArePoints(g: Grid, k: nat)
    requires IsGrid(g, |g|) && 0 < |g| && k <= |g|
    ensures RowsScore(g, k) == RowPoints(g, k) && ColumnsScore(g, k) == ColumnPoints(g, k)
  {
    hide Score, LinePoints, ColumnOf;
    if k > 0 {
      LinesArePoints(g, k - 1);
      ScoreIsPoints(g[k - 1]);
      ScoreIsPoints(ColumnOf(g, k - 1));
    }
  }

  lemma {:induction false} RowBlocksAre(g: Grid, y: int, k: nat)
    requires IsGrid(g, |g|) && 0 <= y < |g| - 1 && k < |g|
    ensures
      var n, p := |g| - 1, (a, b) => Uniform(g, a, b);
      |CellsBefore(n, k, y, p)| == |CellsBefore(n, 0, y, p)| + BlocksInRow(g, y, k)
  {
    hide CellsBefore;
    if k > 0 {
      RowBlocksAre(g, y, k - 1);
      CellsNext(|g| - 1, k - 1, y, (a, b) => Uniform(g, a, b));
    }
  }

  lemma {:induction false} BlocksAre(g: Grid, k: nat)
    requires IsGrid(g, |g|) && k < |g|
    ensures Blocks(g, k) == |CellsBefore(|g| - 1, 0, k, (a, b) => Uniform(g, a, b))|
  {
    hide CellsBefore, Uniform, BlocksInRow;
    var n, p := |g| - 1, (a, b) => Uniform(g, a, b);
    if k == 0 {
      CellsStart(n, p);
    } else {
      BlocksAre(g, k - 1);
      RowBlocksAre(g, k - 1, n);
      CellsNextRow(n, k - 1, p);
    }
  }

  lemma {:induction false} DarkLineIs(g: Grid, y: int, k: nat)
    requires IsGrid(g, |g|) && 0 <= y < |g| && k <= |g|
    ensures
      var n, p := |g|, (a, b) => Module(g, a, b);
      |CellsBefore(n, k, y, p)| == |CellsBefore(n, 0, y, p)| + DarkInLine(g[y][..k])
  {
    hide CellsBefore;
    if k > 0 {
      DarkLineIs(g, y, k - 1);
      CellsNext(|g|, k - 1, y, (a, b) => Module(g, a, b));
      assert g[y][..k][..k - 1] == g[y][..k - 1];
    }
  }

  lemma {:induction false} DarkIs(g: Grid, k: nat)
    requires IsGrid(g, |g|) && k <= |g|
    ensures Dark(g, k) == |CellsBefore(|g|, 0, k, (a, b) => Module(g, a, b))|
  {
    hide CellsBefore, Module, DarkInLine;
    var n, p := |g|, (a, b) => Module(g, a, b);
    if k == 0 {
      CellsStart(n, p);
    } else {
      DarkIs(g, k - 1);
      DarkLineIs(g, k - 1, n);
      assert g[k - 1][..n] == g[k - 1];
      CellsNextRow(n, k - 1, p);
    }
  }

  lemma CellsOfGrid(g: Grid)
    requires |g| > 0
    ensures CellsBefore(|g| - 1, 0, |g| - 1, (a, b) => Uniform(g, a, b)) == UniformBlocks(g)
    ensures CellsBefore(|g|, 0, |g|, (a, b) => Module(g, a, b)) == DarkModules(g)
  {
    hide Uniform, Module;
  }

  /** The score of a grid of odd size: what the evaluation counts, with its weights. */
  lemma TotalIsPoints(g: Grid)
    requires IsGrid(g, |g|) && |g| % 2 == 1
    ensures exists k: nat :: LeastBalance(g, k) && Total(g) == Points(g, k)
  {
    hide RowsScore, ColumnsScore, RowPoints, ColumnPoints, Blocks, Dark, BalanceSteps, UniformBlocks, DarkModules, Balanced;
    var n := |g|;
    LinesArePoints(g, n);
    BlocksAre(g, n - 1);
    DarkIs(g, n);
    CellsOfGrid(g);
    DarkBound(g, n);
    OddSquare(n);
    Positive(n);
    BalanceIsLeast(Dark(g, n), n * n);
    var k: nat := BalanceSteps(Dark(g, n), n * n);
    assert LeastBalance(g, k);
  }

  // ----- the evaluation loops -----

  method CountDark(g: Grid) returns (dark: nat)
    ensures dark == Dark(g, |g|)
    ensures IsGrid(g, |g|) && g != [] ==> dark == |DarkModules(g)|
  {
    dark := 0;
    for y := 0 to |g|
      invariant dark == Dark(g, y)
    {
      var row := g[y];
      ghost var before := dark;
      for x := 0 to |row|
        invariant dark == before + DarkInLine(row[..x])
      {
        assert row[..x + 1][..x] == row[..x];
        if row[x] {
          dark := dark + 1;
        }
      }
      assert row[..|row|] == row;
    }
    if IsGrid(g, |g|) && g != [] {
      DarkIs(g, |g|);
      CellsOfGrid(g);
    }
  }

  method CountBlocks(g: Grid) returns (score: nat)
    requires IsGrid(g, |g|) && |g| > 0
    ensures score == Blocks(g, |g| - 1) * PENALTY_N2 == 3 * |UniformBlocks(g)|
  {
    score := 0;
    for y := 0 to |g| - 1
      invariant score == Blocks(g, y) * PENALTY_N2
    {
      ghost var before := score;
      for x := 0 to |g| - 1
        invariant score == before + BlocksInRow(g, y, x) * PENALTY_N2
      {
        var color := g[y][x];
        if color == g[y][x + 1] && color == g[y + 1][x] && color == g[y + 1][x + 1] {
          score := score + PENALTY_N2;
        }
      }
    }
    BlocksAre(g, |g| - 1);
    CellsOfGrid(g);
  }

  /** The penalty score, with the assertions of the original as proved facts. */
  method GetPenaltyScore(g: Grid) returns (result: int)
    requires IsGrid(g, |g|) && |g| % 2 == 1 && |g| <= 177
    ensures result == Total(g) && 0 <= result <= 2568888
    ensures exists k: nat :: LeastBalance(g, k) && result == Points(g, k)
  {
    hide LeastBalance, Points, Score, Blocks, Dark, BalanceSteps;
    var size := |g|;
    result := 0;
    for y := 0 to size
      invariant result == RowsScore(g, y)
    {
      var line := ScoreLine(g[y]);
      result := result + line;
    }
    for x := 0 to size
      invariant result == RowsScore(g, size) + ColumnsScore(g, x)
    {
      var line := ScoreLine(ColumnOf(g, x));
      result := result + line;
    }
    var blocks := CountBlocks(g);
    result := result + blocks;
    var dark := CountDark(g);
    Positive(size);
    var k := BalanceSteps(dark, size * size);
    TotalBound(g);
    assert 0 <= k <= 9;
    result := result + k * PENALTY_N4;
    TotalIsPoints(g);
  }

  lemma Positive(n: int)
    requires n > 0
    ensures n * n > 0
  {}
}
