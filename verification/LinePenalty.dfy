/** The penalty of one row or column: long runs and finder-like patterns, scored while streaming
    over the line with a seven-entry run history. */
module LinePenalty {
  import opened Runs
  import opened Finder
  import opened Features

  const PENALTY_N1 := 3
  const PENALTY_N3 := 40

  function Light(n: nat): (s: Line)
    ensures |s| == n && forall i :: 0 <= i < n ==> !s[i]
  {
    seq(n, _ => false)
  }

  /** The line with a light border as wide as the symbol at each end. */
  function Extended(line: Line): Line {
    Light(|line|) + line + Light(|line|)
  }

  /** A run of five scores 3 and every further module 1 more. */
  function RunScore(len: nat): nat {
    if len < 5 then 0 else PENALTY_N1 + (len - 5)
  }

  function RunsScore(r: seq<nat>): nat {
    if r == [] then 0 else RunsScore(r[..|r| - 1]) + RunScore(r[|r| - 1])
  }

  function FinderCount(line: Line): nat {
    var r := RunLengths(Extended(line));
    Reported(r, |r|)
  }

  function Score(line: Line): nat {
    RunsScore(RunLengths(line)) + FinderCount(line) * PENALTY_N3
  }

  /** The finder part of the score is the number of flanked 1:1:3:1:1 patterns in the bordered line. */
  lemma FinderCountIsPatterns(line: Line)
    requires line != []
    ensures FinderCount(line) == PatternsBefore(Extended(line), |Extended(line)|)
  {
    assert Extended(line)[0] == Light(|line|)[0];
    ReportedIsPatterns(Extended(line));
  }

  // ----- appending to runs -----

  lemma ScoreLast(r: seq<nat>, len: nat)
    ensures RunsScore(r + [len]) == RunsScore(r) + RunScore(len)
  {
    assert (r + [len])[..|r|] == r;
  }

  lemma {:induction false} AppendLight(s: Line, k: nat)
    requires s != [] && k > 0
    ensures
      var r := RunLengths(s);
      RunLengths(s + Light(k)) == if s[|s| - 1] then r + [k] else r[..|r| - 1] + [r[|r| - 1] + k]
    decreases k
  {
    hide RunLengths, Light;
    var t := s + Light(k - 1);
    assert s + Light(k) == t + [false];
    RunLengthsLast(t, false);
    if k > 1 {
      AppendLight(s, k - 1);
      assert t[|t| - 1] == false;
    } else {
      assert t == s;
    }
  }

  lemma {:induction false} LightRuns(n: nat)
    requires n > 0
    ensures RunLengths(Light(n)) == [n]
  {
    hide RunLengths, Light;
    if n == 1 {
      RunsOfOne(Light(1));
    } else {
      LightRuns(n - 1);
      assert Light(n - 1) + [false] == Light(n);
      RunLengthsLast(Light(n - 1), false);
    }
  }

  lemma HistoryLast(r: seq<nat>, c: nat)
    ensures History(r + [c], |r| + 1) == [c] + History(r, |r|)[..6]
  {}

  lemma {:induction false} ReportedPrefix(r: seq<nat>, q: seq<nat>, k: nat)
    requires k <= |r| && k <= |q| && r[..k] == q[..k]
    ensures Reported(r, k) == Reported(q, k)
  {
    hide CountPatterns;
    if k > 0 {
      assert r[..k - 1] == r[..k][..k - 1] && q[..k - 1] == q[..k][..k - 1];
      ReportedPrefix(r, q, k - 1);
      assert forall i :: 0 <= i < k ==> r[i] == r[..k][i] == q[..k][i] == q[i];
      assert History(r, k) == History(q, k);
    }
  }

  lemma ReportedLast(r: seq<nat>, c: nat)
    ensures Reported(r + [c], |r| + 1) ==
            Reported(r, |r|) + if |r| % 2 == 0 then CountPatterns([c] + History(r, |r|)[..6]) else 0
  {
    hide CountPatterns, History;
    HistoryLast(r, c);
    assert (r + [c])[..|r|] == r[..|r|];
    ReportedPrefix(r + [c], r, |r|);
  }

  // ----- the run history -----

  /** The history array holds the last seven of the runs pushed so far, which are all positive. */
  ghost predicate Tracks(h: seq<int>, runs: seq<nat>) {
    h == History(runs, |runs|) && forall i :: 0 <= i < |runs| ==> runs[i] > 0
  }

  lemma TracksFirst(h: seq<int>, runs: seq<nat>)
    requires Tracks(h, runs)
    ensures |h| == 7 && (h[0] == 0 <==> runs == [])
  {}

  lemma TracksPush(h: seq<int>, runs: seq<nat>, c: nat)
    requires Tracks(h, runs) && c > 0
    ensures |h| == 7 && Tracks([c] + h[..6], runs + [c])
    ensures Reported(runs + [c], |runs| + 1) ==
            Reported(runs, |runs|) + if |runs| % 2 == 0 then CountPatterns([c] + h[..6]) else 0
  {
    hide CountPatterns, Reported;
    HistoryLast(runs, c);
    ReportedLast(runs, c);
  }

  /** The length that is actually pushed: the first run gets the border added. */
  function Pushed(len: nat, first: bool, size: nat): nat {
    if first then len + size else len
  }

  /** Push a run to the front of the history and drop the oldest entry. */
  method AddHistory(currentRunLength: nat, h: array<int>, size: nat)
    requires h.Length == 7
    modifies h
    ensures h[..] == [Pushed(currentRunLength, old(h[0]) == 0, size)] + old(h[..])[..6]
  {
    var len := currentRunLength;
    if h[0] == 0 {
      len := len + size;
    }
    var i := 6;
    while i > 0
      invariant 0 <= i <= 6
      invariant forall k :: i < k < 7 ==> h[k] == old(h[k - 1])
      invariant forall k :: 0 <= k <= i ==> h[k] == old(h[k])
    {
      h[i] := h[i - 1];
      i := i - 1;
    }
    h[0] := len;
  }

  /** End the line: close a dark run, extend the last light run by the border, and ask once more. */
  method TerminateAndCount(currentRunColor: bool, currentRunLength: nat, h: array<int>, size: nat, ghost runs: seq<nat>)
    returns (count: nat)
    requires h.Length == 7 && Tracks(h[..], runs) && size > 0
    requires |runs| % 2 == (if currentRunColor then 1 else 0) && (currentRunColor ==> currentRunLength > 0)
    modifies h
    ensures
      var all := if currentRunColor then runs + [currentRunLength, size]
                 else runs + [Pushed(currentRunLength + size, runs == [], size)];
      Reported(all, |all|) == Reported(runs, |runs|) + count
  {
    hide CountPatterns, Reported, Tracks;
    var len := currentRunLength;
    ghost var pushed := runs;
    TracksFirst(h[..], runs);
    if currentRunColor {
      TracksPush(h[..], runs, len);
      AddHistory(len, h, size);
      pushed := runs + [len];
      len := 0;
    }
    TracksFirst(h[..], pushed);
    len := len + size;
    ghost var last := Pushed(len, pushed == [], size);
    TracksPush(h[..], pushed, last);
    AddHistory(len, h, size);
    count := CountPatterns(h[..]);
    assert currentRunColor ==> runs + [currentRunLength, size] == pushed + [last];
  }

  // ----- scanning a line -----

  /** After x modules: `runs` have been pushed, and the current run has colour runColor and length runX. */
  ghost predicate Scanning(line: Line, x: nat, runs: seq<nat>, runColor: bool, runX: nat)
    requires x <= |line|
  {
    var bordered, plain := Light(|line|) + line[..x], line[..x];
    && line != []
    && RunLengths(bordered) == runs + [Pushed(runX, runs == [], |line|)]
    && bordered[|bordered| - 1] == runColor
    && |runs| % 2 == (if runColor then 1 else 0)
    && (x == 0 ==> runX == 0 && !runColor && runs == [])
    && (x > 0 ==> runX > 0 && plain[x - 1] == runColor && RunLengths(plain)[|RunLengths(plain)| - 1] == runX)
  }

  lemma ScanStart(line: Line)
    requires line != []
    ensures Scanning(line, 0, [], false, 0) && RunsScore(RunLengths(line[..0])) == 0
  {
    assert line[..0] == [];
    assert RunLengths(line[..0]) == [];
    hide RunLengths, Light;
    assert Light(|line|) + line[..0] == Light(|line|);
    LightRuns(|line|);
  }

  /** What the next module adds to the run score. */
  function Increment(runX: nat): nat {
    if runX == 5 then PENALTY_N1 else if runX > 5 then 1 else 0
  }

  /** Lengthening the last run of a line by one module. */
  lemma LengthenLast(plain: Line, b: bool, runX: nat)
    requires plain != [] && plain[|plain| - 1] == b && RunLengths(plain)[|RunLengths(plain)| - 1] == runX
    ensures var q := RunLengths(plain + [b]); q[|q| - 1] == runX + 1
    ensures RunsScore(RunLengths(plain + [b])) == RunsScore(RunLengths(plain)) + Increment(runX + 1)
  {
    hide RunLengths, RunsScore;
    RunLengthsLast(plain, b);
    var r := RunLengths(plain);
    var front := r[..|r| - 1];
    assert r == front + [runX];
    ScoreLast(front, runX);
    ScoreLast(front, runX + 1);
  }

  lemma FirstModule(b: bool)
    ensures RunLengths([b]) == [1] && RunsScore(RunLengths([b])) == 0
    ensures RunsScore(RunLengths([])) == 0
  {
    RunsOfOne([b]);
    assert [1][..0] == [];
  }

  lemma LengthenBordered(s: Line, b: bool, runs: seq<nat>, c: nat)
    requires s != [] && s[|s| - 1] == b && RunLengths(s) == runs + [c]
    ensures RunLengths(s + [b]) == runs + [c + 1]
  {
    hide RunLengths;
    RunLengthsLast(s, b);
    assert (runs + [c])[..|runs|] == runs;
  }

  lemma ScanSame(line: Line, x: nat, runs: seq<nat>, runColor: bool, runX: nat)
    requires x < |line| && Scanning(line, x, runs, runColor, runX) && line[x] == runColor
    ensures Scanning(line, x + 1, runs, runColor, runX + 1)
    ensures RunsScore(RunLengths(line[..x + 1])) == RunsScore(RunLengths(line[..x])) + Increment(runX + 1)
  {
    hide RunLengths, Light, RunsScore;
    var bordered, plain := Light(|line|) + line[..x], line[..x];
    assert Light(|line|) + line[..x + 1] == bordered + [line[x]];
    assert line[..x + 1] == plain + [line[x]];
    LengthenBordered(bordered, line[x], runs, Pushed(runX, runs == [], |line|));
    if x == 0 {
      assert plain == [] && plain + [line[x]] == [line[x]];
      FirstModule(line[x]);
    } else {
      LengthenLast(plain, line[x], runX);
    }
  }

  lemma ScanChange(line: Line, x: nat, runs: seq<nat>, runColor: bool, runX: nat)
    requires x < |line| && Scanning(line, x, runs, runColor, runX) && line[x] != runColor
    ensures Pushed(runX, runs == [], |line|) > 0
    ensures Scanning(line, x + 1, runs + [Pushed(runX, runs == [], |line|)], line[x], 1)
    ensures RunsScore(RunLengths(line[..x + 1])) == RunsScore(RunLengths(line[..x]))
  {
    hide RunLengths, Light, RunsScore;
    var bordered, plain := Light(|line|) + line[..x], line[..x];
    assert Light(|line|) + line[..x + 1] == bordered + [line[x]];
    assert line[..x + 1] == plain + [line[x]];
    RunLengthsLast(bordered, line[x]);
    RunLengthsLast(plain, line[x]);
    var r := RunLengths(plain);
    ScoreLast(r, 1);
    assert x == 0 ==> r == [] && r + [1] == [1];
  }

  lemma ScanEnd(line: Line, runs: seq<nat>, runColor: bool, runX: nat)
    requires Scanning(line, |line|, runs, runColor, runX)
    ensures
      var n := |line|;
      RunLengths(Extended(line)) == (if runColor then runs + [runX, n] else runs + [Pushed(runX + n, runs == [], n)])
  {
    hide RunLengths, Light;
    var n := |line|;
    var bordered := Light(n) + line[..n];
    assert line[..n] == line;
    assert Extended(line) == bordered + Light(n);
    AppendLight(bordered, n);
    if runColor {
      assert runs != [];
      assert (runs + [runX]) + [n] == runs + [runX, n];
    }
  }

  // ----- the score in points -----

  /** The last run of s has length len: its modules are alike, and the module before it is not. */
  ghost predicate EndsWith(s: Line, len: nat) {
    && 1 <= len <= |s| && (forall q :: |s| - len <= q < |s| ==> s[q] == s[|s| - 1])
    && (len < |s| ==> s[|s| - len - 1] != s[|s| - 1])
  }

  lemma EndsGrow(s: Line, len: nat)
    requires |s| > 1 && EndsWith(s[..|s| - 1], len)
    ensures EndsWith(s, if s[|s| - 1] == s[|s| - 2] then len + 1 else 1)
  {
    var l := |s| - 1;
    assert forall q :: 0 <= q < l ==> s[..l][q] == s[q];
  }

  lemma {:induction false} LastRun(s: Line)
    requires s != []
    ensures var r := RunLengths(s); EndsWith(s, r[|r| - 1])
  {
    hide RunLengths;
    if |s| == 1 {
      RunsOfOne(s);
    } else {
      hide EndsWith;
      var q := RunLengths(s[..|s| - 1]);
      LastRun(s[..|s| - 1]);
      RunsGrow(s);
      EndsGrow(s, q[|q| - 1]);
    }
  }

  /** One more module adds what its run, now longer, is worth more. */
  lemma ScoreGrows(s: Line)
    requires s != []
    ensures
      var r := RunLengths(s);
      var len := r[|r| - 1];
      RunsScore(r) == RunsScore(RunLengths(s[..|s| - 1])) + if len < 5 then 0 else if len == 5 then 3 else 1
  {
    hide RunLengths, RunsScore;
    var l := |s| - 1;
    var q, r := RunLengths(s[..l]), RunLengths(s);
    if l == 0 {
      RunsOfOne(s);
      FirstModule(s[0]);
      assert s == [s[0]] && s[..0] == [];
    } else {
      RunsGrow(s);
      var k := |q| - 1;
      if s[l] == s[l - 1] {
        ScoreLast(q[..k], q[k]);
        ScoreLast(q[..k], r[k]);
        assert q == q[..k] + [q[k]] && r == q[..k] + [r[k]];
      } else {
        ScoreLast(q, 1);
        assert r == q + [1];
      }
    }
  }

  /** A module more makes at most one stretch of five more. */
  lemma FivesGrow(s: Line, len: nat)
    requires s != [] && EndsWith(s, len)
    ensures
      var before, k := s[..|s| - 1], |s| - 5;
      && (forall q :: q != k ==> FiveAt(s, q) == FiveAt(before, q))
      && !FiveAt(before, k) && (FiveAt(s, k) <==> len >= 5)
      && (len >= 5 && k > 0 ==> (s[k - 1] == s[k] <==> len > 5))
  {}

  lemma LongRunsGrow(s: Line, len: nat)
    requires s != [] && EndsWith(s, len)
    ensures |LongRuns(s)| == |LongRuns(s[..|s| - 1])| + (if len == 5 then 1 else 0)
  {
    FivesGrow(s, len);
    hide FiveAt, EndsWith;
    var runs, k := LongRuns(s[..|s| - 1]), |s| - 5;
    assert k !in runs;
    assert LongRuns(s) == if len == 5 then runs + {k} else runs;
  }

  lemma FurtherGrows(s: Line, len: nat)
    requires s != [] && EndsWith(s, len)
    ensures |Further(s)| == |Further(s[..|s| - 1])| + (if len > 5 then 1 else 0)
  {
    FivesGrow(s, len);
    assert len > 5 ==> |s| - 5 > 0;
    hide FiveAt, EndsWith;
    var further, k := Further(s[..|s| - 1]), |s| - 5;
    assert k !in further;
    assert Further(s) == if len > 5 then further + {k} else further;
  }

  /** The run part of the score: 3 for each run of five or more, and 1 for each further module. */
  lemma {:induction false} RunPoints(s: Line)
    ensures RunsScore(RunLengths(s)) == 3 * |LongRuns(s)| + |Further(s)|
  {
    if s == [] {
      assert LongRuns(s) == {} && Further(s) == {};
    } else {
      hide RunLengths, RunsScore, LongRuns, Further, EndsWith;
      RunPoints(s[..|s| - 1]);
      LastRun(s);
      ScoreGrows(s);
      var r := RunLengths(s);
      LongRunsGrow(s, r[|r| - 1]);
      FurtherGrows(s, r[|r| - 1]);
    }
  }

  lemma ExtendedLength(line: Line)
    ensures |Extended(line)| == 3 * |line|
  {}

  lemma ExtendedAt(line: Line, q: int)
    requires 0 <= q < |Extended(line)|
    ensures Extended(line)[q] == Shade(line, q - |line|)
  {}

  lemma SegIsStretch(line: Line, a: int, b: int, dark: bool)
    requires 0 <= a + |line| <= b + |line| <= 3 * |line|
    ensures Seg(Extended(line), a + |line|, b + |line|, dark) <==> Stretch(line, a, b, dark)
  {
    hide Extended, Shade;
    var e, n := Extended(line), |line|;
    ExtendedLength(line);
    if Seg(e, a + n, b + n, dark) {
      forall q | a <= q < b
        ensures Shade(line, q) == dark
      {
        ExtendedAt(line, q + n);
      }
    }
    if Stretch(line, a, b, dark) {
      forall q | a + n <= q < b + n
        ensures e[q] == dark
      {
        ExtendedAt(line, q);
      }
    }
  }

  /** Within reach of the border, the two ways to describe a flanked pattern agree. */
  lemma FlankedWithin(line: Line, p: int, m: int, before: int, after: int)
    requires m >= 1 && 0 <= before * m <= p + |line| && 0 <= after * m && p + 7 * m + after * m <= 2 * |line|
    ensures Flanked(Extended(line), p + |line|, m, before, after) <==> FinderLike(line, p, m, before, after)
  {
    hide Extended, Stretch, Seg;
    assert (7 + after) * m == 7 * m + after * m;
    SegIsStretch(line, p - before * m, p, false);
    SegIsStretch(line, p, p + m, true);
    SegIsStretch(line, p + m, p + 2 * m, false);
    SegIsStretch(line, p + 2 * m, p + 5 * m, true);
    SegIsStretch(line, p + 5 * m, p + 6 * m, false);
    SegIsStretch(line, p + 6 * m, p + 7 * m, true);
    SegIsStretch(line, p + 7 * m, p + 7 * m + after * m, false);
  }

  /** A border of one line's length is as good as an endless one. */
  lemma FlankedIs(line: Line, p: int, m: int, before: int, after: int)
    requires 1 <= before <= 4 && 1 <= after <= 4
    ensures Flanked(Extended(line), p + |line|, m, before, after) <==> FinderLike(line, p, m, before, after)
    ensures FinderLike(line, p, m, before, after) ==> 0 <= p < |line|
  {
    var n := |line|;
    assert (7 + after) * m == 7 * m + after * m;
    if FinderLike(line, p, m, before, after) {
      assert Shade(line, p) && Shade(line, p + 7 * m - 1);
      AtMostFour(before, m);
      AtMostFour(after, m);
      FlankedWithin(line, p, m, before, after);
    } else if Flanked(Extended(line), p + n, m, before, after) {
      ExtendedLength(line);
      AtMostFour(before, m);
      AtMostFour(after, m);
      FlankedWithin(line, p, m, before, after);
    }
  }

  lemma AtMostFour(k: int, m: int)
    requires 1 <= k <= 4 && m >= 1
    ensures 0 <= k * m <= 4 * m
  {}

  lemma FlankedSomeIs(line: Line, p: int, before: int, after: int)
    requires 1 <= before <= 4 && 1 <= after <= 4
    ensures FlankedSome(Extended(line), p + |line|, before, after) <==> FinderAt(line, p, before, after)
    ensures FinderAt(line, p, before, after) ==> 0 <= p < |line|
  {
    hide Extended, Flanked, FinderLike;
    var e, n := Extended(line), |line|;
    if FlankedSome(e, p + n, before, after) {
      var m :| Flanked(e, p + n, m, before, after);
      FlankedIs(line, p, m, before, after);
    }
    if FinderAt(line, p, before, after) {
      var m :| FinderLike(line, p, m, before, after);
      FlankedIs(line, p, m, before, after);
    }
  }

  /** The finder-like patterns that start before position k. */
  ghost function FindersBefore(line: Line, k: int, before: int, after: int): set<int> {
    set p | 0 <= p < |line| && p < k && FinderAt(line, p, before, after)
  }

  lemma FindersNext(line: Line, k: int, before: int, after: int)
    requires FinderAt(line, k, before, after) ==> 0 <= k < |line|
    ensures |FindersBefore(line, k + 1, before, after)|
         == |FindersBefore(line, k, before, after)| + if FinderAt(line, k, before, after) then 1 else 0
  {
    hide FinderAt;
    var s := FindersBefore(line, k, before, after);
    assert k !in s;
    assert FindersBefore(line, k + 1, before, after) == if FinderAt(line, k, before, after) then s + {k} else s;
  }

  lemma {:induction false} PatternsAreFinders(line: Line, k: nat)
    ensures PatternsBefore(Extended(line), k)
         == |FindersBefore(line, k - |line|, 4, 1)| + |FindersBefore(line, k - |line|, 1, 4)|
  {
    hide Extended, FinderAt, FlankedSome;
    if k == 0 {
      assert FindersBefore(line, -|line|, 4, 1) == {} && FindersBefore(line, -|line|, 1, 4) == {};
    } else {
      hide FindersBefore;
      var p := k - 1 - |line|;
      PatternsAreFinders(line, k - 1);
      FlankedSomeIs(line, p, 4, 1);
      FlankedSomeIs(line, p, 1, 4);
      FindersNext(line, p, 4, 1);
      FindersNext(line, p, 1, 4);
    }
  }

  /** The score of a line, in points for what stands in it. */
  lemma ScoreIsPoints(line: Line)
    requires line != []
    ensures Score(line) == LinePoints(line)
  {
    hide Extended, FinderAt, PatternsBefore, FinderCount, LongRuns, Further, RunsScore, RunLengths;
    var n := |line|;
    RunPoints(line);
    FinderCountIsPatterns(line);
    ExtendedLength(line);
    PatternsAreFinders(line, 3 * n);
    assert FindersBefore(line, 2 * n, 4, 1) == Finders(line, 4, 1);
    assert FindersBefore(line, 2 * n, 1, 4) == Finders(line, 1, 4);
  }

  /** The source's loop over one line. */
  method ScoreLine(line: Line) returns (result: nat)
    requires line != []
    ensures result == Score(line) == LinePoints(line)
  {
    hide RunLengths, Light, RunsScore, Reported, CountPatterns, Tracks, Scanning, History, Extended, LinePoints;
    var size := |line|;
    var runColor := false;
    var runX: nat := 0;
    var history := new int[7](_ => 0);
    ghost var runs: seq<nat> := [];
    result := 0;
    ScanStart(line);
    TracksNothing(history[..]);
    for x := 0 to size
      invariant history.Length == 7 && fresh(history)
      invariant Scanning(line, x, runs, runColor, runX) && Tracks(history[..], runs)
      invariant result == RunsScore(RunLengths(line[..x])) + Reported(runs, |runs|) * PENALTY_N3
    {
      if line[x] == runColor {
        ScanSame(line, x, runs, runColor, runX);
        runX := runX + 1;
        if runX == 5 {
          result := result + PENALTY_N1;
        } else if runX > 5 {
          result := result + 1;
        }
      } else {
        ScanChange(line, x, runs, runColor, runX);
        ghost var c := Pushed(runX, runs == [], size);
        TracksFirst(history[..], runs);
        TracksPush(history[..], runs, c);
        ParityOf(line, x, runs, runColor, runX);
        AddHistory(runX, history, size);
        if !runColor {
          var found := CountPatterns(history[..]);
          result := result + found * PENALTY_N3;
        }
        runs := runs + [c];
        runColor := line[x];
        runX := 1;
      }
    }
    assert line[..size] == line;
    ScanEnd(line, runs, runColor, runX);
    ParityOf(line, size, runs, runColor, runX);
    var found := TerminateAndCount(runColor, runX, history, size, runs);
    result := result + found * PENALTY_N3;
    ScoreIsPoints(line);
  }

  lemma TracksNothing(h: seq<int>)
    requires |h| == 7 && forall i :: 0 <= i < 7 ==> h[i] == 0
    ensures Tracks(h, []) && Reported([], 0) == 0
  {}

  lemma ParityOf(line: Line, x: nat, runs: seq<nat>, runColor: bool, runX: nat)
    requires x <= |line| && Scanning(line, x, runs, runColor, runX)
    ensures |runs| % 2 == (if runColor then 1 else 0) && (runColor ==> runX > 0)
  {}

  // ----- bounds -----

  lemma {:induction false} RunsScoreBound(r: seq<nat>)
    ensures RunsScore(r) <= Start(r, |r|)
  {
    if r != [] {
      var l := |r| - 1;
      RunsScoreBound(r[..l]);
      assert r[..l][..l] == r[..l];
      StartPrefix(r, r[..l], l);
    }
  }

  /** Two light runs in a row cannot both end a pattern: the second would need a core of a third of itself. */
  lemma NoConsecutive(r: seq<nat>, k: nat)
    requires 2 <= k <= |r|
    ensures CountPatterns(History(r, k)) == 0 || CountPatterns(History(r, k - 2)) == 0
  {
    if k >= 7 {
      var h, g := History(r, k), History(r, k - 2);
      assert h[3] == g[1] == r[k - 4] && h[4] == g[2] == r[k - 5] && h[5] == g[3] == r[k - 6];
    }
  }

  lemma {:induction false} ReportedBound(r: seq<nat>, k: nat)
    requires k <= |r| && k % 2 == 1
    ensures Reported(r, k) <= (k + 3) / 2
  {
    hide CountPatterns, History;
    if k > 2 {
      assert Reported(r, k) == Reported(r, k - 2) + CountPatterns(History(r, k));
      NoConsecutive(r, k);
      if k > 4 {
        assert Reported(r, k - 2) == Reported(r, k - 4) + CountPatterns(History(r, k - 2));
        ReportedBound(r, k - 4);
      }
    }
  }

  lemma {:induction false} RunsCount(s: Line, t: Line)
    requires s != []
    ensures |RunLengths(s + t)| <= |RunLengths(s)| + |t|
  {
    hide RunLengths;
    if t == [] {
      assert s + t == s;
    } else {
      var l := |t| - 1;
      RunsCount(s, t[..l]);
      assert s + t == (s + t[..l]) + [t[l]];
      RunLengthsLast(s + t[..l], t[l]);
    }
  }

  /** The bordered line ends light, so it has an odd number of runs, at most two more than it has modules. */
  lemma ExtendedRuns(line: Line)
    requires line != []
    ensures |RunLengths(Extended(line))| <= |line| + 2 && |RunLengths(Extended(line))| % 2 == 1
  {
    hide RunLengths, Light;
    var n := |line|;
    var e, bordered := Extended(line), Light(n) + line;
    LightRuns(n);
    RunsCount(Light(n), line);
    AppendLight(bordered, n);
    assert e == bordered + Light(n);
    assert !e[0] && !e[|e| - 1];
    RunsCover(e);
  }

  lemma ScoreBound(line: Line)
    requires line != []
    ensures Score(line) <= |line| + (|line| + 5) / 2 * PENALTY_N3
  {
    hide RunLengths, Reported, RunsScore, Extended;
    RunsCover(line);
    RunsScoreBound(RunLengths(line));
    ExtendedRuns(line);
    var r := RunLengths(Extended(line));
    ReportedBound(r, |r|);
  }

  /** No run of a bordered line is longer than three times the line, so no history entry is either. */
  lemma {:induction false} RunAtMost(r: seq<nat>, i: nat, k: nat)
    requires i < k <= |r|
    ensures r[i] <= Start(r, k)
  {
    if i < k - 1 {
      RunAtMost(r, i, k - 1);
    }
  }

  lemma HistoryAtMost(line: Line, k: nat, i: nat)
    requires line != [] && k <= |RunLengths(Extended(line))| && i < 7
    ensures History(RunLengths(Extended(line)), k)[i] <= 3 * |line|
  {
    hide RunLengths;
    var r := RunLengths(Extended(line));
    RunsCover(Extended(line));
    if i < k {
      RunAtMost(r, k - 1 - i, |r|);
    }
  }
}
