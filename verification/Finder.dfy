/** Finder-like patterns in a line: the seven-entry run history counts exactly the places where
    a 1:1:3:1:1 pattern stands between light flanks. */
module Finder {
  import opened Runs

  // ----- what the run history counts -----

  /** Zero, one or two patterns ending at the light run just pushed. */
  function CountPatterns(h: seq<int>): (c: int)
    requires |h| == 7
    ensures 0 <= c <= 2
  {
    var n := h[1];
    var core := n > 0 && h[2] == n && h[3] == n * 3 && h[4] == n && h[5] == n;
    (if core && h[0] >= n * 4 && h[6] >= n then 1 else 0) + (if core && h[6] >= n * 4 && h[0] >= n then 1 else 0)
  }

  /** The history after the first k runs have been pushed, most recent first. */
  function History(r: seq<nat>, k: nat): (h: seq<int>)
    requires k <= |r|
    ensures |h| == 7
  {
    seq(7, i requires 0 <= i < 7 => if i < k then r[k - 1 - i] else 0)
  }

  /** Patterns reported while the first k runs are pushed; only light runs, the even ones, are asked. */
  function Reported(r: seq<nat>, k: nat): nat
    requires k <= |r|
  {
    if k == 0 then 0
    else Reported(r, k - 1) + if k % 2 == 1 then CountPatterns(History(r, k)) else 0
  }

  // ----- what they should count -----

  /** The modules from a up to b are inside the line and all of one colour. */
  ghost predicate Seg(s: Line, a: int, b: int, dark: bool) {
    0 <= a <= b <= |s| && forall q :: a <= q < b ==> s[q] == dark
  }

  /** Dark, light, dark, light, dark in the proportions 1:1:3:1:1 with unit m, from position p. */
  ghost predicate PatternAt(s: Line, p: int, m: int) {
    m >= 1
    && Seg(s, p, p + m, true) && Seg(s, p + m, p + 2 * m, false) && Seg(s, p + 2 * m, p + 5 * m, true)
    && Seg(s, p + 5 * m, p + 6 * m, false) && Seg(s, p + 6 * m, p + 7 * m, true)
  }

  /** The pattern with light flanks of at least `before` and `after` units. */
  ghost predicate Flanked(s: Line, p: int, m: int, before: int, after: int) {
    PatternAt(s, p, m) && Seg(s, p - before * m, p, false) && Seg(s, p + 7 * m, p + (7 + after) * m, false)
  }

  ghost predicate FlankedSome(s: Line, p: int, before: int, after: int) {
    exists m :: Flanked(s, p, m, before, after)
  }

  /** Patterns starting at p: one for a wide left flank and one for a wide right flank. */
  ghost function PatternsAt(s: Line, p: int): int {
    (if FlankedSome(s, p, 4, 1) then 1 else 0) + (if FlankedSome(s, p, 1, 4) then 1 else 0)
  }

  ghost function PatternsBefore(s: Line, p: nat): int {
    if p == 0 then 0 else PatternsBefore(s, p - 1) + PatternsAt(s, p - 1)
  }

  // ----- runs and segments -----

  lemma StartNext(r: seq<nat>, i: nat)
    requires i < |r|
    ensures Start(r, i + 1) == Start(r, i) + r[i]
  {}

  lemma NextColor(s: Line, i: nat)
    requires s != []
    ensures RunColor(s, i + 1) == !RunColor(s, i)
  {}

  /** What stands right after run i. */
  lemma AfterRun(s: Line, i: nat)
    requires s != [] && i < |RunLengths(s)|
    ensures
      var r := RunLengths(s);
      var e := Start(r, i + 1);
      if i + 1 < |r| then e < |s| && s[e] != RunColor(s, i) else e == |s|
  {
    hide RunLengths, Start, RunColor;
    RunsCover(s);
    if i + 1 < |RunLengths(s)| {
      RunModule(s, i + 1, 0);
      NextColor(s, i);
    }
  }

  /** What stands right before run i. */
  lemma BeforeRun(s: Line, i: nat)
    requires s != [] && i < |RunLengths(s)|
    ensures
      var p := Start(RunLengths(s), i);
      if i == 0 then p == 0 else 0 < p <= |s| && s[p - 1] != RunColor(s, i)
  {
    hide RunLengths, RunColor;
    if i > 0 {
      var r := RunLengths(s);
      StartNext(r, i - 1);
      RunModule(s, i - 1, r[i - 1] - 1);
      NextColor(s, i - 1);
    }
  }

  /** A segment that starts where a run starts is no longer than that run. */
  lemma SegWithinRun(s: Line, i: nat, m: int)
    requires s != [] && i < |RunLengths(s)|
    requires var p := Start(RunLengths(s), i); Seg(s, p, p + m, RunColor(s, i))
    ensures m <= RunLengths(s)[i]
  {
    hide RunLengths, Start, RunColor;
    StartNext(RunLengths(s), i);
    AfterRun(s, i);
  }

  /** A maximal segment that starts where a run starts is that run. */
  lemma SegIsRun(s: Line, i: nat, m: int)
    requires s != [] && i < |RunLengths(s)| && m >= 1
    requires
      var p := Start(RunLengths(s), i);
      Seg(s, p, p + m, RunColor(s, i)) && p + m < |s| && s[p + m] != RunColor(s, i)
    ensures RunLengths(s)[i] == m && i + 1 < |RunLengths(s)|
    ensures Start(RunLengths(s), i + 1) == Start(RunLengths(s), i) + m
  {
    hide RunLengths, Start, RunColor;
    var r := RunLengths(s);
    SegWithinRun(s, i, m);
    StartNext(r, i);
    AfterRun(s, i);
    if m < r[i] {
      RunModule(s, i, m);
    }
  }

  /** A segment that ends where a run ends is no longer than that run. */
  lemma SegBackWithinRun(s: Line, i: nat, m: int)
    requires s != [] && i < |RunLengths(s)|
    requires var e := Start(RunLengths(s), i + 1); Seg(s, e - m, e, RunColor(s, i))
    ensures m <= RunLengths(s)[i]
  {
    hide RunLengths, Start, RunColor;
    StartNext(RunLengths(s), i);
    BeforeRun(s, i);
  }

  lemma RunIsSeg(s: Line, i: nat)
    requires s != [] && i < |RunLengths(s)|
    ensures
      var r := RunLengths(s);
      Start(r, i + 1) == Start(r, i) + r[i] && Seg(s, Start(r, i), Start(r, i + 1), RunColor(s, i))
  {
    hide RunLengths, Start, RunColor;
    var r := RunLengths(s);
    var p := Start(r, i);
    StartNext(r, i);
    RunModule(s, i, r[i] - 1);
    forall q | p <= q < p + r[i]
      ensures s[q] == RunColor(s, i)
    {
      RunModule(s, i, q - p);
    }
  }

  // ----- patterns and runs -----

  /** The runs i - 1 to i + 5 form the pattern with the given flanks. */
  predicate RunPattern(r: seq<nat>, i: int, before: int, after: int) {
    && 1 <= i && i + 5 < |r|
    && r[i + 1] == r[i] && r[i + 2] == 3 * r[i] && r[i + 3] == r[i] && r[i + 4] == r[i]
    && r[i - 1] >= before * r[i] && r[i + 5] >= after * r[i]
  }

  /** A line that begins with a light module, as every extended line does. */
  ghost predicate LightFirst(s: Line) { s != [] && !s[0] }

  /** Seen from a dark run, the colours of its neighbours. */
  lemma Colors(s: Line, i: nat)
    requires LightFirst(s) && i % 2 == 1
    ensures !RunColor(s, i - 1) && RunColor(s, i) && !RunColor(s, i + 1) && RunColor(s, i + 2)
    ensures !RunColor(s, i + 3) && RunColor(s, i + 4) && !RunColor(s, i + 5)
  {}

  lemma SegHead(s: Line, a: int, b: int, dark: bool)
    requires Seg(s, a, b, dark) && a < b
    ensures 0 <= a < |s| && s[a] == dark
  {}

  lemma PatternRuns(s: Line, i: nat, m: int, before: int, after: int)
    requires LightFirst(s) && i < |RunLengths(s)| && i % 2 == 1 && before >= 1 && after >= 1
    requires Flanked(s, Start(RunLengths(s), i), m, before, after)
    ensures RunPattern(RunLengths(s), i, before, after) && RunLengths(s)[i] == m
  {
    hide RunLengths, Start, RunColor, Seg;
    var r := RunLengths(s);
    var p := Start(r, i);
    Times(before, m);
    Times(after, m);
    Colors(s, i);
    SegHead(s, p + m, p + 2 * m, false);
    SegHead(s, p + 2 * m, p + 5 * m, true);
    SegHead(s, p + 5 * m, p + 6 * m, false);
    SegHead(s, p + 6 * m, p + 7 * m, true);
    SegHead(s, p + 7 * m, p + (7 + after) * m, false);
    SegIsRun(s, i, m);
    SegIsRun(s, i + 1, m);
    SegIsRun(s, i + 2, 3 * m);
    SegIsRun(s, i + 3, m);
    SegIsRun(s, i + 4, m);
    SegWithinRun(s, i + 5, after * m);
    SegBackWithinRun(s, i - 1, before * m);
  }

  lemma Times(k: int, m: int)
    requires k >= 1 && m >= 1
    ensures k * m >= m && (7 + k) * m == 7 * m + k * m
  {}

  lemma SubSeg(s: Line, a: int, b: int, c: int, d: int, dark: bool)
    requires Seg(s, a, b, dark) && a <= c <= d <= b
    ensures Seg(s, c, d, dark)
  {}

  lemma RunsMakePattern(s: Line, i: nat, before: int, after: int)
    requires LightFirst(s) && i < |RunLengths(s)| && i % 2 == 1 && before >= 1 && after >= 1
    requires RunPattern(RunLengths(s), i, before, after)
    ensures Flanked(s, Start(RunLengths(s), i), RunLengths(s)[i], before, after)
  {
    hide RunLengths, Start, RunColor, Seg;
    var r := RunLengths(s);
    var m, p := r[i], Start(r, i);
    Times(before, m);
    Times(after, m);
    Colors(s, i);
    RunIsSeg(s, i - 1);
    RunIsSeg(s, i);
    RunIsSeg(s, i + 1);
    RunIsSeg(s, i + 2);
    RunIsSeg(s, i + 3);
    RunIsSeg(s, i + 4);
    RunIsSeg(s, i + 5);
    FlankedBy(s, p, m, before, after, Start(r, i - 1), Start(r, i + 6));
  }

  lemma FlankedBy(s: Line, p: int, m: int, before: int, after: int, a: int, b: int)
    requires PatternAt(s, p, m) && before >= 1 && after >= 1
    requires Seg(s, a, p, false) && p - a >= before * m && Seg(s, p + 7 * m, b, false) && b - (p + 7 * m) >= after * m
    ensures Flanked(s, p, m, before, after)
  {
    hide Seg;
    Times(before, m);
    Times(after, m);
    SubSeg(s, a, p, p - before * m, p, false);
    SubSeg(s, p + 7 * m, b, p + 7 * m, p + (7 + after) * m, false);
  }

  /** At the start of a dark run, a pattern is a pattern of runs. */
  lemma PatternAtRun(s: Line, i: nat, before: int, after: int)
    requires LightFirst(s) && i < |RunLengths(s)| && i % 2 == 1 && before >= 1 && after >= 1
    ensures FlankedSome(s, Start(RunLengths(s), i), before, after) <==> RunPattern(RunLengths(s), i, before, after)
  {
    hide RunLengths, Flanked;
    var p := Start(RunLengths(s), i);
    if m :| Flanked(s, p, m, before, after) {
      PatternRuns(s, i, m, before, after);
    }
    if RunPattern(RunLengths(s), i, before, after) {
      RunsMakePattern(s, i, before, after);
    }
  }

  /** Elsewhere there is none: a pattern starts with a dark module after a light one. */
  lemma NoPatternInside(s: Line, i: nat, d: nat, before: int, after: int)
    requires LightFirst(s) && i < |RunLengths(s)| && d < RunLengths(s)[i] && before >= 1 && after >= 1
    requires i % 2 == 0 || d > 0
    ensures !FlankedSome(s, Start(RunLengths(s), i) + d, before, after)
  {
    hide RunLengths;
    var p := Start(RunLengths(s), i) + d;
    RunModule(s, i, d);
    if d > 0 {
      RunModule(s, i, d - 1);
    }
    if m :| Flanked(s, p, m, before, after) {
      Times(before, m);
    }
  }

  // ----- the two counts agree -----

  /** Patterns whose first dark run is run i. */
  function PatternsOfRun(r: seq<nat>, i: int): int {
    (if RunPattern(r, i, 4, 1) then 1 else 0) + (if RunPattern(r, i, 1, 4) then 1 else 0)
  }

  function PatternsOfRuns(r: seq<nat>, j: int): int
    decreases j
  {
    if j <= 0 then 0 else PatternsOfRuns(r, j - 1) + if (j - 1) % 2 == 1 then PatternsOfRun(r, j - 1) else 0
  }

  lemma {:induction false} PatternsInRun(s: Line, i: nat, d: nat)
    requires LightFirst(s) && i < |RunLengths(s)| && d <= RunLengths(s)[i]
    ensures
      var r := RunLengths(s);
      PatternsBefore(s, Start(r, i) + d) ==
      PatternsBefore(s, Start(r, i)) + if i % 2 == 1 && d > 0 then PatternsOfRun(r, i) else 0
    decreases d
  {
    hide RunLengths, Start, RunPattern, FlankedSome;
    if d > 0 {
      PatternsInRun(s, i, d - 1);
      if i % 2 == 1 && d == 1 {
        PatternAtRun(s, i, 4, 1);
        PatternAtRun(s, i, 1, 4);
      } else {
        NoPatternInside(s, i, d - 1, 4, 1);
        NoPatternInside(s, i, d - 1, 1, 4);
      }
    }
  }

  lemma {:induction false} PatternsByRuns(s: Line, i: nat)
    requires LightFirst(s) && i <= |RunLengths(s)|
    ensures PatternsBefore(s, Start(RunLengths(s), i)) == PatternsOfRuns(RunLengths(s), i)
  {
    hide RunLengths, PatternsOfRun;
    if i > 0 {
      PatternsByRuns(s, i - 1);
      StartNext(RunLengths(s), i - 1);
      PatternsInRun(s, i - 1, RunLengths(s)[i - 1]);
    }
  }

  lemma WindowIsRunPattern(r: seq<nat>, k: nat)
    requires k <= |r| && forall i :: 0 <= i < |r| ==> r[i] > 0
    ensures k > 0 ==> CountPatterns(History(r, k)) == PatternsOfRun(r, k - 6)
  {
    if k >= 7 {
      var h := History(r, k);
      assert h[0] == r[k - 1] && h[1] == r[k - 2] && h[2] == r[k - 3] && h[3] == r[k - 4];
      assert h[4] == r[k - 5] && h[5] == r[k - 6] && h[6] == r[k - 7];
    }
  }

  lemma {:induction false} ReportedByRuns(r: seq<nat>, k: nat)
    requires k <= |r| && forall i :: 0 <= i < |r| ==> r[i] > 0
    ensures Reported(r, k) == PatternsOfRuns(r, k - 5)
  {
    hide CountPatterns, History, PatternsOfRun;
    if k > 0 {
      ReportedByRuns(r, k - 1);
      WindowIsRunPattern(r, k);
      if k <= 5 {
        NoEarlyPattern(r, k - 6);
      }
    }
  }

  lemma NoEarlyPattern(r: seq<nat>, i: int)
    requires i < 1 || i + 5 >= |r|
    ensures PatternsOfRun(r, i) == 0
  {}

  lemma {:induction false} NoLatePatterns(r: seq<nat>, j: int)
    requires |r| - 5 <= j
    ensures PatternsOfRuns(r, j) == PatternsOfRuns(r, |r| - 5)
    decreases j
  {
    hide PatternsOfRun;
    if j > |r| - 5 && j > 0 {
      NoLatePatterns(r, j - 1);
      NoEarlyPattern(r, j - 1);
    }
  }

  /** The history scan reports exactly the patterns that stand in the line. */
  lemma ReportedIsPatterns(s: Line)
    requires LightFirst(s)
    ensures Reported(RunLengths(s), |RunLengths(s)|) == PatternsBefore(s, |s|)
  {
    hide RunLengths, Start;
    var r := RunLengths(s);
    RunsCover(s);
    PatternsByRuns(s, |r|);
    NoLatePatterns(r, |r|);
    ReportedByRuns(r, |r|);
  }
}
