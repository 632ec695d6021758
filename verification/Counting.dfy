/** Counting cells of a grid by products of columns and rows. */
module Counting {

  type Cell = (int, int)

  ghost predicate Distinct<T>(s: seq<T>) {
    forall i, j :: 0 <= i < j < |s| ==> s[i] != s[j]
  }

  function Interval(lo: int, hi: int): (s: seq<int>)
    requires lo <= hi
    ensures |s| == hi - lo && forall i :: 0 <= i < |s| ==> s[i] == lo + i
    ensures Distinct(s)
    ensures forall c :: c in s <==> lo <= c < hi
    decreases hi - lo
  {
    if lo == hi then [] else Interval(lo, hi - 1) + [hi - 1]
  }

  function Column(x: int, ys: seq<int>): (c: set<Cell>)
    ensures forall p: Cell :: p in c <==> p.0 == x && p.1 in ys
  {
    if ys == [] then {} else Column(x, ys[1..]) + {(x, ys[0])}
  }

  /** All cells with a column in xs and a row in ys. */
  function Cells(xs: seq<int>, ys: seq<int>): (c: set<Cell>)
    ensures forall p: Cell :: p in c <==> p.0 in xs && p.1 in ys
  {
    if xs == [] then {} else Cells(xs[1..], ys) + Column(xs[0], ys)
  }

  lemma {:induction false} ColumnSize(x: int, ys: seq<int>)
    requires Distinct(ys)
    ensures |Column(x, ys)| == |ys|
  {
    if ys != [] {
      ColumnSize(x, ys[1..]);
      assert (x, ys[0]) !in Column(x, ys[1..]);
    }
  }

  lemma NewColumn(x: int, xs: seq<int>, ys: seq<int>)
    requires x !in xs
    ensures Cells(xs, ys) !! Column(x, ys)
  {}

  lemma Times(a: nat, b: nat)
    requires a > 0
    ensures a * b == (a - 1) * b + b
  {}

  /** A product of columns and rows has as many cells as the product says. */
  lemma {:induction false} CellsSize(xs: seq<int>, ys: seq<int>)
    requires Distinct(xs) && Distinct(ys)
    ensures |Cells(xs, ys)| == |xs| * |ys|
  {
    if xs != [] {
      CellsSize(xs[1..], ys);
      ColumnSize(xs[0], ys);
      NewColumn(xs[0], xs[1..], ys);
      hide Column, Distinct;
      Times(|xs|, |ys|);
    }
  }

  function ToSet(s: seq<Cell>): (t: set<Cell>)
    ensures forall p: Cell :: p in t <==> p in s
  {
    if s == [] then {} else ToSet(s[..|s| - 1]) + {s[|s| - 1]}
  }

  /** A list without repetitions has as many elements as its set. */
  lemma {:induction false} ToSetSize(s: seq<Cell>)
    requires Distinct(s)
    ensures |ToSet(s)| == |s|
  {
    if s != [] {
      var l := |s| - 1;
      ToSetSize(s[..l]);
      assert s[l] !in s[..l];
    }
  }
}
