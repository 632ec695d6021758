/** The eight mask patterns and how applying them interacts with the format information. */
module Masking {
  import opened Grids
  import opened Tables
  import opened Patterns

  /** The modules that mask pattern `mask` inverts: a checkerboard, rows, columns, diagonals, a checkerboard
      of 3*2 tiles, and three patterns in the remainder of the product p. */
  predicate InvertsAt(mask: int, x: nat, y: nat, p: nat)
    requires 0 <= mask < 8
  {
    match mask
    case 0 => x % 2 == y % 2
    case 1 => y % 2 == 0
    case 2 => x % 3 == 0
    case 3 => (x % 3 + y % 3) % 3 == 0
    case 4 => (x % 6 < 3) == (y % 4 < 2)
    case 5 => p % 6 == 0
    case 6 => p % 6 < 3
    case _ => (x % 2 == y % 2) == (p % 3 != 1)
  }

  predicate Inverts(mask: int, x: nat, y: nat)
    requires 0 <= mask < 8
  {
    InvertsAt(mask, x, y, x * y)
  }

  /** The encoder's formulas, in the column x, the row y and their product p. */
  function Formula(mask: int, x: nat, y: nat, p: nat): bool
    requires 0 <= mask < 8
  {
    match mask
    case 0 => (x + y) % 2 == 0
    case 1 => y % 2 == 0
    case 2 => x % 3 == 0
    case 3 => (x + y) % 3 == 0
    case 4 => (x / 3 + y / 2) % 2 == 0
    case 5 => p % 2 + p % 3 == 0
    case 6 => (p % 2 + p % 3) % 2 == 0
    case _ => ((x + y) % 2 + p % 3) % 2 == 0
  }

  /** The formulas invert the modules they should. */
  lemma FormulaIs(mask: int, x: nat, y: nat, p: nat)
    requires 0 <= mask < 8
    ensures Formula(mask, x, y, p) == InvertsAt(mask, x, y, p)
  {
    SixthRemainders(p);
    TileParity(x, y);
    SumRemainders(x, y);
    ParityOfSum(x / 3, y / 2);
    ParityOfSum((x + y) % 2, p % 3);
  }

  lemma ParityOfSum(a: nat, b: nat)
    ensures (a + b) % 2 == 0 <==> a % 2 == b % 2
  {}

  lemma SixthRemainders(p: nat)
    ensures p % 2 + p % 3 == 0 <==> p % 6 == 0
    ensures (p % 2 + p % 3) % 2 == 0 <==> p % 6 < 3
  {
    var r := p % 6;
    assert p % 2 == r % 2 && p % 3 == r % 3;
  }

  lemma TileParity(x: nat, y: nat)
    ensures (x / 3) % 2 == 0 <==> x % 6 < 3
    ensures (y / 2) % 2 == 0 <==> y % 4 < 2
  {}

  lemma SumRemainders(x: nat, y: nat)
    ensures (x + y) % 2 == 0 <==> x % 2 == y % 2
    ensures (x + y) % 3 == (x % 3 + y % 3) % 3
  {
    ParityOfSum(x, y);
    var r := x % 3 + y % 3;
    assert x + y == 3 * (x / 3 + y / 3) + r;
  }

  /** The grid with a mask applied off the function modules. */
  ghost function Masked(g: Grid, f: Grid, n: nat, mask: int): (h: Grid)
    requires IsGrid(g, n) && IsGrid(f, n) && 0 <= mask < 8
    ensures IsGrid(h, n)
    ensures forall x, y :: In(n, x, y) ==> At(h, x, y) == (At(g, x, y) != (Inverts(mask, x, y) && !At(f, x, y)))
  {
    seq(n, y requires 0 <= y < n => seq(n, x requires 0 <= x < n => g[y][x] != (Inverts(mask, x, y) && !f[y][x])))
  }

  /** A mask undoes itself. */
  lemma MaskedTwice(g: Grid, f: Grid, n: nat, mask: int)
    requires IsGrid(g, n) && IsGrid(f, n) && 0 <= mask < 8
    ensures Masked(Masked(g, f, n, mask), f, n, mask) == g
  {
    hide Inverts, Masked, At;
    Same(Masked(Masked(g, f, n, mask), f, n, mask), g, n);
  }

  /** The grids agree outside the format information. */
  ghost predicate SameButFormat(g: Grid, h: Grid, n: nat)
    requires IsGrid(g, n) && IsGrid(h, n)
  {
    forall x, y :: In(n, x, y) && FormatIndex(n, x, y) < 0 ==> At(g, x, y) == At(h, x, y)
  }

  lemma MaskKeepsSame(g: Grid, h: Grid, f: Grid, n: nat, mask: int)
    requires IsGrid(g, n) && IsGrid(h, n) && IsGrid(f, n) && 0 <= mask < 8
    requires SameButFormat(g, h, n)
    ensures SameButFormat(Masked(g, f, n, mask), Masked(h, f, n, mask), n)
  {
    hide Inverts, Masked, At, FormatIndex;
  }

  lemma PaintKeepsSame(g: Grid, n: nat, ecl: Ecc, mask: int)
    requires IsGrid(g, n) && 0 <= mask < 8
    ensures SameButFormat(Paint(g, n, FormatLayer(ecl, mask)), g, n)
  {
    hide Paint, At, FormatIndex, Color;
  }

  /** Painting the format information erases any difference in it. */
  lemma PaintSame(g: Grid, h: Grid, n: nat, ecl: Ecc, mask: int)
    requires IsGrid(g, n) && IsGrid(h, n) && 0 <= mask < 8 && SameButFormat(g, h, n)
    ensures Paint(g, n, FormatLayer(ecl, mask)) == Paint(h, n, FormatLayer(ecl, mask))
  {
    hide Paint, At, FormatIndex, Color;
    Same(Paint(g, n, FormatLayer(ecl, mask)), Paint(h, n, FormatLayer(ecl, mask)), n);
  }

  /** A candidate symbol: the mask applied and announced in the format information. */
  ghost function Trial(base: Grid, f: Grid, n: nat, ecl: Ecc, mask: int): (h: Grid)
    requires IsGrid(base, n) && IsGrid(f, n) && 0 <= mask < 8
    ensures IsGrid(h, n)
  {
    Paint(Masked(base, f, n, mask), n, FormatLayer(ecl, mask))
  }

  /** Masking and announcing from any grid that differs from the base only in format information gives the
      same candidate, and masking again restores the base but for the format information. */
  lemma TrialClean(g: Grid, base: Grid, f: Grid, n: nat, ecl: Ecc, mask: int)
    requires IsGrid(g, n) && IsGrid(base, n) && IsGrid(f, n) && 0 <= mask < 8
    requires SameButFormat(g, base, n)
    ensures Paint(Masked(g, f, n, mask), n, FormatLayer(ecl, mask)) == Trial(base, f, n, ecl, mask)
    ensures SameButFormat(Masked(Trial(base, f, n, ecl, mask), f, n, mask), base, n)
  {
    hide Paint, At, Masked, SameButFormat;
    var m := Masked(base, f, n, mask);
    MaskKeepsSame(g, base, f, n, mask);
    PaintSame(Masked(g, f, n, mask), m, n, ecl, mask);
    PaintKeepsSame(m, n, ecl, mask);
    MaskKeepsSame(Trial(base, f, n, ecl, mask), m, f, n, mask);
    MaskedTwice(base, f, n, mask);
  }
}
