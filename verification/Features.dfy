/** What the evaluation of a symbol counts, as sets of positions: long runs, finder-like patterns, uniform
    blocks and dark modules, with the weights of section 7.8.3 of ISO/IEC 18004. */
module Features {
  import opened Runs
  import opened Grids

  // ----- one line -----

  /** Five modules of one colour from q on. */
  predicate FiveAt(line: Line, q: int) {
    0 <= q && q + 5 <= |line| && line[q + 1] == line[q] && line[q + 2] == line[q] && line[q + 3] == line[q] && line[q + 4] == line[q]
  }

  /** The runs of five or more modules, by their first module. */
  ghost function LongRuns(line: Line): set<int> {
    set q | 0 <= q < |line| && FiveAt(line, q) && (q == 0 || line[q - 1] != line[q])
  }

  /** The further modules of such runs: each ends one more stretch of five, one that does not begin its run. */
  ghost function Further(line: Line): set<int> {
    set q | 0 < q < |line| && FiveAt(line, q) && line[q - 1] == line[q]
  }

  /** Everything beside the line is light. */
  predicate Shade(line: Line, q: int) {
    0 <= q < |line| && line[q]
  }

  ghost predicate Stretch(line: Line, a: int, b: int, dark: bool) {
    forall q :: a <= q < b ==> Shade(line, q) == dark
  }

  /** A dark, light, dark, light, dark pattern in the proportions 1:1:3:1:1 with unit m from p on, and light
      modules for `before` and `after` units on its two sides. */
  ghost predicate FinderLike(line: Line, p: int, m: int, before: int, after: int) {
    && m >= 1 && Stretch(line, p - before * m, p, false)
    && Stretch(line, p, p + m, true) && Stretch(line, p + m, p + 2 * m, false)
    && Stretch(line, p + 2 * m, p + 5 * m, true) && Stretch(line, p + 5 * m, p + 6 * m, false)
    && Stretch(line, p + 6 * m, p + 7 * m, true) && Stretch(line, p + 7 * m, p + (7 + after) * m, false)
  }

  ghost predicate FinderAt(line: Line, p: int, before: int, after: int) {
    exists m :: FinderLike(line, p, m, before, after)
  }

  ghost function Finders(line: Line, before: int, after: int): set<int> {
    set p | 0 <= p < |line| && FinderAt(line, p, before, after)
  }

  /** 3 for a run of five, 1 for each further module, and 40 for each finder-like pattern with four light units
      before or after it. */
  ghost function LinePoints(line: Line): int {
    3 * |LongRuns(line)| + |Further(line)| + 40 * (|Finders(line, 4, 1)| + |Finders(line, 1, 4)|)
  }

  // ----- the grid -----

  predicate Module(g: Grid, x: int, y: int) {
    0 <= y < |g| && 0 <= x < |g[y]| && g[y][x]
  }

  predicate Uniform(g: Grid, x: int, y: int) {
    Module(g, x, y) == Module(g, x + 1, y) && Module(g, x, y) == Module(g, x, y + 1) && Module(g, x, y) == Module(g, x + 1, y + 1)
  }

  /** The 2*2 blocks of one colour, by their first module. */
  ghost function UniformBlocks(g: Grid): set<(int, int)> {
    set x, y | 0 <= x < |g| - 1 && 0 <= y < |g| - 1 && Uniform(g, x, y) :: (x, y)
  }

  ghost function DarkModules(g: Grid): set<(int, int)> {
    set x, y | 0 <= x < |g| && 0 <= y < |g| && Module(g, x, y) :: (x, y)
  }

  ghost function RowPoints(g: Grid, k: nat): int
    requires k <= |g|
  {
    if k == 0 then 0 else RowPoints(g, k - 1) + LinePoints(g[k - 1])
  }

  ghost function ColumnPoints(g: Grid, k: nat): int
    requires IsGrid(g, |g|) && k <= |g|
  {
    if k == 0 then 0 else ColumnPoints(g, k - 1) + LinePoints(ColumnOf(g, k - 1))
  }

  /** dark / total lies between (45 - 5k)% and (55 + 5k)%. */
  predicate Balanced(dark: int, total: int, k: int) {
    (45 - 5 * k) * total <= 100 * dark <= (55 + 5 * k) * total
  }

  /** The least number of steps of five percent that the share of dark modules is away from the middle. */
  ghost predicate LeastBalance(g: Grid, k: nat) {
    Balanced(|DarkModules(g)|, |g| * |g|, k) && forall j :: 0 <= j < k ==> !Balanced(|DarkModules(g)|, |g| * |g|, j)
  }

  /** All points of a grid that is k steps out of balance. */
  ghost function Points(g: Grid, k: nat): int
    requires IsGrid(g, |g|)
  {
    RowPoints(g, |g|) + ColumnPoints(g, |g|) + 3 * |UniformBlocks(g)| + 10 * k
  }

  // ----- counting cells row by row -----

  /** The cells of rows before y, and of row y before column x, that satisfy p. */
  ghost function CellsBefore(w: int, x: int, y: int, p: (int, int) -> bool): set<(int, int)> {
    set a, b | 0 <= a < w && 0 <= b <= y && (b < y || a < x) && p(a, b) :: (a, b)
  }

  lemma CellsStart(w: int, p: (int, int) -> bool)
    ensures |CellsBefore(w, 0, 0, p)| == 0
  {
    assert CellsBefore(w, 0, 0, p) == {};
  }

  lemma CellsNext(w: int, x: int, y: int, p: (int, int) -> bool)
    requires 0 <= x < w && 0 <= y
    ensures |CellsBefore(w, x + 1, y, p)| == |CellsBefore(w, x, y, p)| + if p(x, y) then 1 else 0
  {
    var before := CellsBefore(w, x, y, p);
    assert (x, y) !in before;
    assert CellsBefore(w, x + 1, y, p) == if p(x, y) then before + {(x, y)} else before;
  }

  lemma CellsNextRow(w: int, y: int, p: (int, int) -> bool)
    requires 0 <= y && 0 <= w
    ensures CellsBefore(w, 0, y + 1, p) == CellsBefore(w, w, y, p)
  {}
}
