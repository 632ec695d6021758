/** Square grids of modules, indexed by column x and row y. */
module Grids {

  type Grid = seq<seq<bool>>

  function Abs(x: int): (a: nat)
    ensures a == x || a == -x
  {
    if x < 0 then -x else x
  }

  predicate IsGrid(g: Grid, n: nat) {
    |g| == n && forall y :: 0 <= y < n ==> |g[y]| == n
  }

  predicate In(n: nat, x: int, y: int) {
    0 <= x < n && 0 <= y < n
  }

  function ColumnOf(g: Grid, x: int): (c: seq<bool>)
    requires IsGrid(g, |g|) && 0 <= x < |g|
    ensures |c| == |g|
  {
    seq(|g|, y requires 0 <= y < |g| => g[y][x])
  }

  predicate At(g: Grid, x: int, y: int)
    requires IsGrid(g, |g|) && In(|g|, x, y)
  {
    g[y][x]
  }

  function Put(g: Grid, x: int, y: int, v: bool): (h: Grid)
    requires IsGrid(g, |g|) && In(|g|, x, y)
    ensures IsGrid(h, |g|)
    ensures forall i, j :: In(|g|, i, j) ==> At(h, i, j) == if i == x && j == y then v else At(g, i, j)
  {
    g[y := g[y][x := v]]
  }

  /** All modules light. */
  function Blank(n: nat): (g: Grid)
    ensures IsGrid(g, n)
    ensures forall x, y :: In(n, x, y) ==> !At(g, x, y)
  {
    seq(n, _ => seq(n, _ => false))
  }

  /** Grids are equal when they agree at every module. */
  lemma Same(g: Grid, h: Grid, n: nat)
    requires IsGrid(g, n) && IsGrid(h, n)
    requires forall x, y :: In(n, x, y) ==> At(g, x, y) == At(h, x, y)
    ensures g == h
  {
    forall y | 0 <= y < n
      ensures g[y] == h[y]
    {
      forall x | 0 <= x < n
        ensures g[y][x] == h[y][x]
      {
        assert In(n, x, y);
        assert At(g, x, y) == At(h, x, y);
      }
    }
  }
}
