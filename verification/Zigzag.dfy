/** The zigzag scan: column pairs from right to left, skipping column 6, alternately upward and
    downward. The scan is a bijection onto the cells outside column 6, and reading in scan order
    recovers what was written. */
module Zigzag {
  import opened Grids
  import opened Counting

  /** Any odd size that has columns on both sides of column 6. */
  predicate Scannable(n: int) { n % 2 == 1 && n >= 9 }

  /** The right column of pair p. */
  function Right(n: int, p: int): int {
    var r := n - 1 - 2 * p;
    if r >= 8 then r else r - 1
  }

  predicate Upward(right: int)
    requires right >= 0
  {
    (right + 1) / 2 % 2 == 0
  }

  /** The cell visited at step j of row counter `vert` in the pair whose right column is `right`. */
  function CellAt(n: int, right: int, vert: int, j: int): Cell
    requires right >= 0
  {
    (right - j, if Upward(right) then n - 1 - vert else vert)
  }

  function Steps(n: int): (s: int)
    ensures n >= 1 ==> s >= 0
  {
    (n - 1) * n
  }

  /** The cell visited at time t. */
  function ScanCell(n: int, t: int): Cell
    requires Scannable(n) && 0 <= t < Steps(n)
  {
    PairRange(n, t);
    CellAt(n, Right(n, t / 2 / n), t / 2 % n, t % 2)
  }

  /** The right column of the pair that a column belongs to. */
  function ColumnRight(x: int): int {
    if x > 6 then x + x % 2 else x + 1 - x % 2
  }

  function ColumnPair(n: int, x: int): int {
    if x > 6 then (n - 1 - ColumnRight(x)) / 2 else (n - 2 - ColumnRight(x)) / 2
  }

  lemma ColumnOfPair(n: int, p: int, j: int)
    requires Scannable(n) && 0 <= p < (n - 1) / 2 && 0 <= j < 2
    ensures Right(n, p) >= 1 && 0 <= Right(n, p) - j < n && Right(n, p) - j != 6
    ensures ColumnRight(Right(n, p) - j) == Right(n, p)
    ensures ColumnPair(n, Right(n, p) - j) == p
  {}

  lemma PairOfColumn(n: int, x: int)
    requires Scannable(n) && 0 <= x < n && x != 6
    ensures 0 <= ColumnPair(n, x) < (n - 1) / 2
    ensures Right(n, ColumnPair(n, x)) == ColumnRight(x) && 0 <= ColumnRight(x) - x < 2
  {}

  /** When a cell is visited. */
  function ScanTime(n: int, c: Cell): int
    requires Scannable(n)
  {
    var right := ColumnRight(c.0);
    var vert := if right >= 0 && Upward(right) then n - 1 - c.1 else c.1;
    2 * (ColumnPair(n, c.0) * n + vert) + (right - c.0)
  }

  lemma PairRange(n: int, t: int)
    requires Scannable(n) && 0 <= t < Steps(n)
    ensures 0 <= t / 2 / n < (n - 1) / 2 && 0 <= t / 2 % n < n
    ensures t == 2 * ((t / 2 / n) * n + t / 2 % n) + t % 2
    ensures Right(n, t / 2 / n) >= 1
  {
    var q := t / 2;
    StepsAre(n);
    QuotientBelow(q, (n - 1) / 2, n);
  }

  lemma StepsAre(n: int)
    requires Scannable(n)
    ensures Steps(n) == 2 * ((n - 1) / 2 * n)
  {
    var h := (n - 1) / 2;
    assert n - 1 == 2 * h;
    assert (2 * h) * n == 2 * (h * n);
  }

  lemma QuotientBelow(q: int, h: int, n: int)
    requires 0 <= q < h * n && n > 0
    ensures 0 <= q / n < h && 0 <= q % n < n && q == (q / n) * n + q % n
  {
    if q / n >= h {
      Grow(h, q / n, n);
    }
  }

  lemma Grow(a: int, b: int, n: int)
    requires a <= b && n >= 0
    ensures a * n <= b * n
  {}

  lemma Split(p: int, v: int, n: int)
    requires 0 <= v < n && 0 <= p
    ensures (p * n + v) / n == p && (p * n + v) % n == v
  {
    var q, r := (p * n + v) / n, (p * n + v) % n;
    assert q * n + r == p * n + v;
    if q < p {
      Grow(q + 1, p, n);
    } else if q > p {
      Grow(p + 1, q, n);
    }
  }

  lemma StepTime(n: int, p: int, v: int, j: int)
    requires Scannable(n) && 0 <= p < (n - 1) / 2 && 0 <= v < n && 0 <= j < 2
    ensures
      var t := 2 * (p * n + v) + j;
      0 <= t < Steps(n) && t / 2 / n == p && t / 2 % n == v && t % 2 == j
  {
    Split(p, v, n);
    Grow(p + 1, (n - 1) / 2, n);
    StepsAre(n);
    hide Steps;
    var q := p * n + v;
    assert (2 * q + j) / 2 == q;
  }

  lemma StepBound(n: int, p: int, v: int, j: int)
    requires Scannable(n) && 0 <= p < (n - 1) / 2 && 0 <= v < n && 0 <= j < 2
    ensures 0 <= 2 * (p * n + v) + j < Steps(n)
    ensures Right(n, p) >= 1 && ScanCell(n, 2 * (p * n + v) + j) == CellAt(n, Right(n, p), v, j)
  {
    hide CellAt, Right, Steps;
    StepTime(n, p, v, j);
    ColumnOfPair(n, p, j);
  }

  /** Each time visits a cell outside column 6, and no cell is visited at two times. */
  lemma TimeOfCell(n: int, t: int)
    requires Scannable(n) && 0 <= t < Steps(n)
    ensures In(n, ScanCell(n, t).0, ScanCell(n, t).1) && ScanCell(n, t).0 != 6
    ensures ScanTime(n, ScanCell(n, t)) == t
  {
    PairRange(n, t);
    ColumnOfPair(n, t / 2 / n, t % 2);
    hide Right, ColumnRight, ColumnPair, Steps, Upward;
  }

  /** Every cell outside column 6 is visited. */
  lemma CellOfTime(n: int, x: int, y: int)
    requires Scannable(n) && In(n, x, y) && x != 6
    ensures 0 <= ScanTime(n, (x, y)) < Steps(n)
    ensures ScanCell(n, ScanTime(n, (x, y))) == (x, y)
  {
    PairOfColumn(n, x);
    hide Right, ColumnRight, ColumnPair, Steps, Upward, ScanCell;
    var right := ColumnRight(x);
    ColumnOfPair(n, ColumnPair(n, x), right - x);
    StepBound(n, ColumnPair(n, x), if Upward(right) then n - 1 - y else y, right - x);
  }

  // ----- the scan as a walk -----

  /** Where the walk goes from the cell c visited at time t: left within the pair; back to the right and one row
      up in pairs 0, 2, 4, ..., one row down in the others; at the end of a pair to the pair on its left in
      the same row, skipping column 6. */
  function NextCell(n: int, t: int, c: Cell): Cell
    requires n > 0
  {
    if t % 2 == 0 then (c.0 - 1, c.1)
    else if (t + 1) % (2 * n) == 0 then (if c.0 == 7 then 5 else c.0 - 1, c.1)
    else if t / (2 * n) % 2 == 0 then (c.0 + 1, c.1 - 1)
    else (c.0 + 1, c.1 + 1)
  }

  /** The walk of t steps from the bottom right corner. */
  function Walk(n: int, t: nat): Cell
    requires n > 0
  {
    if t == 0 then (n - 1, n - 1) else NextCell(n, t - 1, Walk(n, t - 1))
  }

  lemma DirectionOfPair(n: int, p: int)
    requires Scannable(n) && n % 4 == 1 && 0 <= p < (n - 1) / 2
    ensures Right(n, p) >= 1 && (Upward(Right(n, p)) <==> p % 2 == 0)
  {}

  lemma PairTimeSplit(n: int, p: int, v: int, j: int)
    requires n > 0 && 0 <= p && 0 <= v < n && 0 <= j < 2
    ensures
      var t := 2 * (p * n + v) + j;
      t / (2 * n) == p && t % (2 * n) == 2 * v + j
  {
    Split(p, 2 * v + j, 2 * n);
    assert p * (2 * n) == 2 * (p * n);
  }

  lemma NextTime(n: int, p: int, v: int)
    requires n > 0 && 0 <= p && 0 <= v < n
    ensures
      var t := 2 * (p * n + v) + 1;
      (t + 1) % (2 * n) == 0 <==> v == n - 1
  {
    if v == n - 1 {
      PairTimeSplit(n, p + 1, 0, 0);
      assert p * n + n == (p + 1) * n;
    } else {
      PairTimeSplit(n, p, v + 1, 0);
    }
  }

  lemma NextRight(n: int, p: int)
    requires Scannable(n) && 0 <= p < (n - 1) / 2 - 1
    ensures Right(n, p + 1) == if Right(n, p) - 1 == 7 then 5 else Right(n, p) - 2
  {}

  /** The scan takes exactly the steps of the walk. */
  lemma ScanSteps(n: int, t: int)
    requires Scannable(n) && n % 4 == 1 && 0 <= t && t + 1 < Steps(n)
    ensures ScanCell(n, t + 1) == NextCell(n, t, ScanCell(n, t))
  {
    hide Right, Steps, ScanCell, Upward;
    PairRange(n, t);
    var p, v, j := t / 2 / n, t / 2 % n, t % 2;
    DirectionOfPair(n, p);
    StepBound(n, p, v, j);
    PairTimeSplit(n, p, v, j);
    if j == 0 {
      StepBound(n, p, v, 1);
    } else {
      NextTime(n, p, v);
      if v < n - 1 {
        StepBound(n, p, v + 1, 0);
      } else {
        NextPair(n, p, t);
      }
    }
  }

  lemma NextPair(n: int, p: int, t: int)
    requires Scannable(n) && n % 4 == 1 && 0 <= p < (n - 1) / 2 && t == 2 * (p * n + n - 1) + 1 && t + 1 < Steps(n)
    ensures Right(n, p) >= 1 && (ScanCell(n, t + 1) == (if Right(n, p) - 1 == 7 then 5 else Right(n, p) - 2,
                                                        if Upward(Right(n, p)) then 0 else n - 1))
  {
    hide Right, ScanCell, Upward, Steps;
    StepsAre(n);
    var h := (n - 1) / 2;
    assert t + 1 == 2 * ((p + 1) * n) by { assert (p + 1) * n == p * n + n; }
    FewerPairs(p + 1, h, n);
    DirectionOfPair(n, p);
    DirectionOfPair(n, p + 1);
    NextRight(n, p);
    StepBound(n, p + 1, 0, 0);
  }

  lemma FewerPairs(p: int, h: int, n: int)
    requires n > 0 && p * n < h * n
    ensures p < h
  {
    if p >= h {
      Grow(h, p, n);
    }
  }

  /** At every size of a symbol the scan is the walk from the bottom right corner. */
  lemma {:induction false} ScanIsWalk(n: int, t: nat)
    requires Scannable(n) && n % 4 == 1 && t < Steps(n)
    ensures ScanCell(n, t) == Walk(n, t)
  {
    hide NextCell, ScanCell, Steps;
    if t == 0 {
      DirectionOfPair(n, 0);
      StepBound(n, 0, 0, 0);
    } else {
      ScanIsWalk(n, t - 1);
      ScanSteps(n, t - 1);
    }
  }

  // ----- the free cells in scan order -----

  /** The unmarked cells visited before time t, in order. */
  ghost function FreeList(f: Grid, n: int, t: int): seq<Cell>
    requires Scannable(n) && IsGrid(f, n) && 0 <= t <= Steps(n)
    decreases t
  {
    if t == 0 then []
    else
      TimeOfCell(n, t - 1);
      var c := ScanCell(n, t - 1);
      FreeList(f, n, t - 1) + if At(f, c.0, c.1) then [] else [c]
  }

  lemma {:induction false} FreeListElement(f: Grid, n: int, t: int, k: int)
    requires Scannable(n) && IsGrid(f, n) && 0 <= t <= Steps(n)
    requires 0 <= k < |FreeList(f, n, t)|
    ensures
      var c := FreeList(f, n, t)[k];
      && In(n, c.0, c.1) && !At(f, c.0, c.1) && c.0 != 6 && 0 <= ScanTime(n, c) < t
    decreases t
  {
    hide ScanCell, ScanTime;
    TimeOfCell(n, t - 1);
    if k < |FreeList(f, n, t - 1)| {
      FreeListElement(f, n, t - 1, k);
    }
  }

  /** No free cell is listed twice. */
  lemma {:induction false} FreeListDistinct(f: Grid, n: int, t: int)
    requires Scannable(n) && IsGrid(f, n) && 0 <= t <= Steps(n)
    ensures Distinct(FreeList(f, n, t))
    decreases t
  {
    hide ScanCell, ScanTime;
    if t > 0 {
      FreeListDistinct(f, n, t - 1);
      TimeOfCell(n, t - 1);
      var before := FreeList(f, n, t - 1);
      forall k | 0 <= k < |before|
        ensures before[k] != ScanCell(n, t - 1)
      {
        FreeListElement(f, n, t - 1, k);
      }
    }
  }

  lemma {:induction false} FreeListComplete(f: Grid, n: int, t: int, s: int)
    requires Scannable(n) && IsGrid(f, n) && 0 <= s < t <= Steps(n)
    requires In(n, ScanCell(n, s).0, ScanCell(n, s).1) && !At(f, ScanCell(n, s).0, ScanCell(n, s).1)
    ensures ScanCell(n, s) in FreeList(f, n, t)
    decreases t
  {
    hide ScanCell, ScanTime;
    if s < t - 1 {
      FreeListComplete(f, n, t - 1, s);
    }
  }

  /** The free cells, all of them and only them, provided column 6 is wholly marked. */
  lemma FreeListHas(f: Grid, n: int, c: Cell)
    requires Scannable(n) && IsGrid(f, n)
    requires forall y :: 0 <= y < n ==> In(n, 6, y) && At(f, 6, y)
    ensures c in FreeList(f, n, Steps(n)) <==> In(n, c.0, c.1) && !At(f, c.0, c.1)
  {
    hide ScanCell, ScanTime;
    var all := FreeList(f, n, Steps(n));
    if c in all {
      var k :| 0 <= k < |all| && all[k] == c;
      FreeListElement(f, n, Steps(n), k);
    } else if In(n, c.0, c.1) && !At(f, c.0, c.1) {
      CellOfTime(n, c.0, c.1);
      FreeListComplete(f, n, Steps(n), ScanTime(n, c));
    }
  }

  // ----- writing and reading in scan order -----

  /** The grid after the scan has run to time t, filling free cells with the bits in turn. */
  ghost function Written(g: Grid, f: Grid, n: int, bits: seq<bool>, t: int): (h: Grid)
    requires Scannable(n) && IsGrid(g, n) && IsGrid(f, n) && 0 <= t <= Steps(n)
    ensures IsGrid(h, n)
    decreases t
  {
    if t == 0 then g
    else
      TimeOfCell(n, t - 1);
      var h, c, k := Written(g, f, n, bits, t - 1), ScanCell(n, t - 1), |FreeList(f, n, t - 1)|;
      if !At(f, c.0, c.1) && k < |bits| then Put(h, c.0, c.1, bits[k]) else h
  }

  /** What was written in scan order is read back in scan order. */
  lemma {:induction false} WrittenAt(g: Grid, f: Grid, n: int, bits: seq<bool>, t: int, k: int)
    requires Scannable(n) && IsGrid(g, n) && IsGrid(f, n) && 0 <= t <= Steps(n)
    requires 0 <= k < |FreeList(f, n, t)| && k < |bits|
    ensures
      var c := FreeList(f, n, t)[k];
      In(n, c.0, c.1) && At(Written(g, f, n, bits, t), c.0, c.1) == bits[k]
    decreases t
  {
    hide ScanCell, ScanTime, Put;
    TimeOfCell(n, t - 1);
    if k < |FreeList(f, n, t - 1)| {
      WrittenAt(g, f, n, bits, t - 1, k);
      FreeListElement(f, n, t - 1, k);
    }
  }

  /** The scan changes no marked cell. */
  lemma {:induction false} WrittenFrame(g: Grid, f: Grid, n: int, bits: seq<bool>, t: int, x: int, y: int)
    requires Scannable(n) && IsGrid(g, n) && IsGrid(f, n) && 0 <= t <= Steps(n)
    requires In(n, x, y) && At(f, x, y)
    ensures At(Written(g, f, n, bits, t), x, y) == At(g, x, y)
    decreases t
  {
    hide ScanCell, ScanTime, Put;
    if t > 0 {
      TimeOfCell(n, t - 1);
      WrittenFrame(g, f, n, bits, t - 1, x, y);
    }
  }

  /** The first `count` free cells in scan order, read off a grid. */
  ghost function ReadBits(g: Grid, f: Grid, n: int, count: nat): (bits: seq<bool>)
    requires Scannable(n) && IsGrid(g, n) && IsGrid(f, n) && count <= |FreeList(f, n, Steps(n))|
    ensures |bits| == count
  {
    seq(count, k requires 0 <= k < count =>
      (FreeListElement(f, n, Steps(n), k); var c := FreeList(f, n, Steps(n))[k]; At(g, c.0, c.1)))
  }

  lemma ReadWritten(g: Grid, f: Grid, n: int, bits: seq<bool>)
    requires Scannable(n) && IsGrid(g, n) && IsGrid(f, n) && |bits| <= |FreeList(f, n, Steps(n))|
    ensures ReadBits(Written(g, f, n, bits, Steps(n)), f, n, |bits|) == bits
  {
    hide ScanCell, ScanTime, FreeList, Written;
    forall k | 0 <= k < |bits|
      ensures ReadBits(Written(g, f, n, bits, Steps(n)), f, n, |bits|)[k] == bits[k]
    {
      WrittenAt(g, f, n, bits, Steps(n), k);
    }
  }

  /** The colours of the unmarked cells that a walk of t steps passes, in order. */
  ghost function Walked(g: Grid, f: Grid, n: int, t: nat): seq<bool>
    requires n > 0 && IsGrid(g, n) && IsGrid(f, n)
  {
    if t == 0 then []
    else
      var c := Walk(n, t - 1);
      Walked(g, f, n, t - 1) + if In(n, c.0, c.1) && !At(f, c.0, c.1) then [At(g, c.0, c.1)] else []
  }

  /** The walk through all columns but one. */
  ghost function WholeWalk(g: Grid, f: Grid, n: int): seq<bool>
    requires n > 0 && IsGrid(g, n) && IsGrid(f, n)
  {
    Walked(g, f, n, (n - 1) * n)
  }

  lemma {:induction false} WalkedIs(g: Grid, f: Grid, n: int, t: nat)
    requires Scannable(n) && n % 4 == 1 && IsGrid(g, n) && IsGrid(f, n) && t <= Steps(n)
    ensures |Walked(g, f, n, t)| == |FreeList(f, n, t)|
    ensures forall k :: 0 <= k < |FreeList(f, n, t)| ==>
      var c := FreeList(f, n, t)[k]; In(n, c.0, c.1) && Walked(g, f, n, t)[k] == At(g, c.0, c.1)
  {
    hide ScanCell, ScanTime, Walk, Steps, At;
    if t > 0 {
      WalkedIs(g, f, n, t - 1);
      ScanIsWalk(n, t - 1);
      TimeOfCell(n, t - 1);
    }
  }

  /** Walking the symbol reads what the scan wrote. */
  lemma WalkReads(g: Grid, f: Grid, n: int, count: nat)
    requires Scannable(n) && n % 4 == 1 && IsGrid(g, n) && IsGrid(f, n) && count <= |FreeList(f, n, Steps(n))|
    ensures count <= |WholeWalk(g, f, n)| && WholeWalk(g, f, n)[..count] == ReadBits(g, f, n, count)
  {
    hide FreeList, Walked;
    WalkedIs(g, f, n, Steps(n));
  }
}
