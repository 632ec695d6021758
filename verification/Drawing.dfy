/** Bookkeeping for the drawing loops: which modules of a layer have been painted so far. */
module Drawing {
  import opened Grids
  import opened Tables
  import opened Patterns
  import opened Counting

  /** The modules in `drawn` show the layer and are marked; all others are as they were. */
  ghost predicate Progress(m0: Grid, f0: Grid, m: Grid, f: Grid, n: nat, l: Layer, drawn: set<Cell>) {
    && IsGrid(m0, n) && IsGrid(f0, n) && IsGrid(m, n) && IsGrid(f, n) && LayerValid(l)
    && forall x, y :: In(n, x, y) ==>
         if (x, y) in drawn then Covers(l, n, x, y) && At(m, x, y) == Color(l, n, x, y) && At(f, x, y)
         else At(m, x, y) == At(m0, x, y) && At(f, x, y) == At(f0, x, y)
  }

  lemma ProgressStart(m: Grid, f: Grid, n: nat, l: Layer)
    requires IsGrid(m, n) && IsGrid(f, n) && LayerValid(l)
    ensures Progress(m, f, m, f, n, l, {})
  {
    hide At, Covers, Color;
  }

  lemma ProgressStep(m0: Grid, f0: Grid, m: Grid, f: Grid, n: nat, l: Layer, drawn: set<Cell>, x: int, y: int)
    requires Progress(m0, f0, m, f, n, l, drawn) && In(n, x, y) && Covers(l, n, x, y)
    ensures Progress(m0, f0, Put(m, x, y, Color(l, n, x, y)), Put(f, x, y, true), n, l, drawn + {(x, y)})
  {
    hide At, Covers, Color, Put, LayerValid;
  }

  /** Once every module of the layer has been drawn, the grids are the painted and marked ones. */
  lemma ProgressEnd(m0: Grid, f0: Grid, m: Grid, f: Grid, n: nat, l: Layer, drawn: set<Cell>)
    requires Progress(m0, f0, m, f, n, l, drawn)
    requires forall x, y :: In(n, x, y) && Covers(l, n, x, y) ==> (x, y) in drawn
    ensures m == Paint(m0, n, l) && f == Mark(f0, n, l)
  {
    hide At, Covers, Color, Paint, Mark, LayerValid;
    Same(m, Paint(m0, n, l), n);
    Same(f, Mark(f0, n, l), n);
  }
}
