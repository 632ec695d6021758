/** Maximal runs of equal modules in a line. */
module Runs {

  type Line = seq<bool>

  /** The lengths of the maximal runs, in order. */
  function RunLengths(s: Line): (r: seq<nat>)
    ensures r == [] <==> s == []
    ensures forall i :: 0 <= i < |r| ==> r[i] > 0
  {
    if s == [] then []
    else
      var l := |s| - 1;
      var r := RunLengths(s[..l]);
      if l > 0 && s[l] == s[l - 1] then r[..|r| - 1] + [r[|r| - 1] + 1] else r + [1]
  }

  lemma RunLengthsLast(s: Line, b: bool)
    ensures s == [] ==> RunLengths(s + [b]) == [1]
    ensures s != [] ==>
      var r := RunLengths(s);
      RunLengths(s + [b]) == if b == s[|s| - 1] then r[..|r| - 1] + [r[|r| - 1] + 1] else r + [1]
  {
    var t := s + [b];
    assert t[..|t| - 1] == s && t[|t| - 1] == b;
    if s == [] {
      assert RunLengths(t) == RunLengths(s) + [1];
    } else {
      assert t[|t| - 2] == s[|s| - 1];
    }
  }

  /** Where run i starts. */
  function Start(r: seq<nat>, i: nat): nat
    requires i <= |r|
  {
    if i == 0 then 0 else Start(r, i - 1) + r[i - 1]
  }

  lemma {:induction false} StartPrefix(r: seq<nat>, q: seq<nat>, i: nat)
    requires i <= |r| && i <= |q| && r[..i] == q[..i]
    ensures Start(r, i) == Start(q, i)
  {
    if i > 0 {
      assert r[..i - 1] == r[..i][..i - 1] && q[..i - 1] == q[..i][..i - 1];
      assert r[i - 1] == r[..i][i - 1] && q[i - 1] == q[..i][i - 1];
      StartPrefix(r, q, i - 1);
    }
  }

  /** The colour of run i, alternating from the first module's colour. */
  predicate RunColor(s: Line, i: nat)
    requires s != []
  {
    s[0] != (i % 2 == 1)
  }

  /** Adding a module lengthens the last run or starts a new one. */
  lemma RunsGrow(s: Line)
    requires |s| > 1
    ensures
      var l := |s| - 1;
      var q, r := RunLengths(s[..l]), RunLengths(s);
      var k := |q| - 1;
      if s[l] == s[l - 1] then |r| == |q| && r[k] == q[k] + 1 && r[..k] == q[..k] && Start(r, k) == Start(q, k)
      else |r| == |q| + 1 && r[|q|] == 1 && r[..|q|] == q && Start(r, |q|) == Start(q, |q|)
  {
    var l := |s| - 1;
    RunLengthsLast(s[..l], s[l]);
    assert s[..l] + [s[l]] == s;
    hide RunLengths;
    var q, r := RunLengths(s[..l]), RunLengths(s);
    if s[l] == s[l - 1] {
      StartPrefix(r, q, |q| - 1);
    } else {
      assert q[..|q|] == q;
      StartPrefix(r, q, |q|);
    }
  }

  lemma RunsOfOne(s: Line)
    requires |s| == 1
    ensures RunLengths(s) == [1] && Start([1], 0) == 0 && Start([1], 1) == 1
  {
    assert s[..0] == [];
  }

  /** The runs cover the line, and the last one has the last module's colour. */
  lemma {:induction false} RunsCover(s: Line)
    requires s != []
    ensures var r := RunLengths(s); Start(r, |r|) == |s| && RunColor(s, |r| - 1) == s[|s| - 1]
  {
    hide RunLengths;
    if |s| == 1 {
      RunsOfOne(s);
    } else {
      RunsCover(s[..|s| - 1]);
      RunsGrow(s);
    }
  }

  lemma SamePrefix(r: seq<nat>, q: seq<nat>, k: nat, i: nat)
    requires i <= k <= |r| && k <= |q| && r[..k] == q[..k]
    ensures Start(r, i) == Start(q, i)
  {
    assert r[..i] == r[..k][..i] && q[..i] == q[..k][..i];
    StartPrefix(r, q, i);
  }

  /** Every module of run i has the run's colour. */
  lemma {:induction false} RunModule(s: Line, i: nat, d: nat)
    requires s != [] && i < |RunLengths(s)| && d < RunLengths(s)[i]
    ensures Start(RunLengths(s), i) + d < |s| && s[Start(RunLengths(s), i) + d] == RunColor(s, i)
  {
    hide RunLengths, RunColor;
    if |s| == 1 {
      RunsOfOne(s);
      FirstColor(s);
    } else {
      var l := |s| - 1;
      var q, r := RunLengths(s[..l]), RunLengths(s);
      RunsGrow(s);
      if i < |q| && d < q[i] {
        RunModule(s[..l], i, d);
        SamePrefix(r, q, |q| - 1, i);
        FirstColor(s);
        ColorOfPrefix(s, l, i);
      } else {
        RunsCover(s);
      }
    }
  }

  lemma FirstColor(s: Line)
    requires s != []
    ensures RunColor(s, 0) == s[0]
  {}

  lemma ColorOfPrefix(s: Line, l: nat, i: nat)
    requires 0 < l <= |s|
    ensures RunColor(s[..l], i) == RunColor(s, i)
  {}
}
