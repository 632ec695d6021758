/** Function patterns: what each drawing routine covers and in which colours, and the words
    of the format and version information. */
module Patterns {
  import opened Grids
  import opened Tables

  function Size(ver: int): int { 4 * ver + 17 }

  function Max(a: int, b: int): int { if a < b then b else a }

  /** Chebyshev distance. */
  function Dist(x: int, y: int, cx: int, cy: int): nat {
    Max(Abs(x - cx), Abs(y - cy))
  }

  // ----- format and version words -----

  datatype Word = Word(bits: bv32)

  function LevelBits(ecl: Ecc): Word {
    match ecl case Low => Word(1) case Medium => Word(0) case Quartile => Word(3) case High => Word(2)
  }

  function MaskBits(mask: int): Word
    requires 0 <= mask < 8
  {
    match mask
    case 0 => Word(0) case 1 => Word(1) case 2 => Word(2) case 3 => Word(3)
    case 4 => Word(4) case 5 => Word(5) case 6 => Word(6) case _ => Word(7)
  }

  /** The two level bits over the three mask bits. */
  function FormatData(level: Word, mask: Word): Word {
    Word((level.bits << 3) | mask.bits)
  }

  /** One step of the division by the format generator 0x537. */
  function FormatStep(rem: Word): Word {
    Word((rem.bits << 1) ^ ((rem.bits >> 9) * 0x537))
  }

  function FormatRemainder(data: Word, k: nat): Word {
    if k == 0 then data else FormatStep(FormatRemainder(data, k - 1))
  }

  function FormatAssemble(data: Word, rem: Word): Word {
    Word(((data.bits << 10) | rem.bits) ^ 0x5412)
  }

  function FormatWord(ecl: Ecc, mask: int): Word
    requires 0 <= mask < 8
  {
    var data := FormatData(LevelBits(ecl), MaskBits(mask));
    FormatAssemble(data, FormatRemainder(data, 10))
  }

  lemma FormatStepRange(rem: Word)
    requires rem.bits < 0x400
    ensures FormatStep(rem).bits < 0x400
  {}

  lemma {:induction false} FormatRemainderRange(data: Word, k: nat)
    requires data.bits < 0x400
    ensures FormatRemainder(data, k).bits < 0x400
  {
    hide FormatStep;
    if k > 0 {
      FormatRemainderRange(data, k - 1);
      FormatStepRange(FormatRemainder(data, k - 1));
    }
  }

  /** The word fits 15 bits, and its top five are the data bits under the fixed pattern 10101. */
  lemma FormatAssembled(level: Word, mask: Word, rem: Word)
    requires level.bits < 4 && mask.bits < 8 && rem.bits < 0x400
    ensures
      var w := FormatAssemble(FormatData(level, mask), rem).bits;
      && w < 0x8000
      && ((w & 0x4000 != 0) <==> (level.bits & 2 == 0))
      && ((w & 0x2000 != 0) <==> (level.bits & 1 != 0))
      && ((w & 0x1000 != 0) <==> (mask.bits & 4 == 0))
      && ((w & 0x800 != 0) <==> (mask.bits & 2 != 0))
      && ((w & 0x400 != 0) <==> (mask.bits & 1 == 0))
  {}

  lemma LevelRange(ecl: Ecc, mask: int)
    requires 0 <= mask < 8
    ensures LevelBits(ecl).bits < 4 && MaskBits(mask).bits < 8
    ensures FormatData(LevelBits(ecl), MaskBits(mask)).bits < 0x400
  {}

  predicate WordBit(w: Word, i: int)
    requires 0 <= i < 18
  {
    match i
    case 0 => w.bits & 0x1 != 0
    case 1 => w.bits & 0x2 != 0
    case 2 => w.bits & 0x4 != 0
    case 3 => w.bits & 0x8 != 0
    case 4 => w.bits & 0x10 != 0
    case 5 => w.bits & 0x20 != 0
    case 6 => w.bits & 0x40 != 0
    case 7 => w.bits & 0x80 != 0
    case 8 => w.bits & 0x100 != 0
    case 9 => w.bits & 0x200 != 0
    case 10 => w.bits & 0x400 != 0
    case 11 => w.bits & 0x800 != 0
    case 12 => w.bits & 0x1000 != 0
    case 13 => w.bits & 0x2000 != 0
    case 14 => w.bits & 0x4000 != 0
    case 15 => w.bits & 0x8000 != 0
    case 16 => w.bits & 0x1_0000 != 0
    case _ => w.bits & 0x2_0000 != 0
  }

  /** Bit i is the last bit of the word shifted right by i. */
  lemma LowWordBits(w: Word)
    ensures WordBit(w, 0) == ((w.bits >> 0) & 1 != 0)
    ensures WordBit(w, 1) == ((w.bits >> 1) & 1 != 0)
    ensures WordBit(w, 2) == ((w.bits >> 2) & 1 != 0)
    ensures WordBit(w, 3) == ((w.bits >> 3) & 1 != 0)
    ensures WordBit(w, 4) == ((w.bits >> 4) & 1 != 0)
    ensures WordBit(w, 5) == ((w.bits >> 5) & 1 != 0)
    ensures WordBit(w, 6) == ((w.bits >> 6) & 1 != 0)
    ensures WordBit(w, 7) == ((w.bits >> 7) & 1 != 0)
    ensures WordBit(w, 8) == ((w.bits >> 8) & 1 != 0)
  {}

  lemma HighWordBits(w: Word)
    ensures WordBit(w, 9) == ((w.bits >> 9) & 1 != 0)
    ensures WordBit(w, 10) == ((w.bits >> 10) & 1 != 0)
    ensures WordBit(w, 11) == ((w.bits >> 11) & 1 != 0)
    ensures WordBit(w, 12) == ((w.bits >> 12) & 1 != 0)
    ensures WordBit(w, 13) == ((w.bits >> 13) & 1 != 0)
    ensures WordBit(w, 14) == ((w.bits >> 14) & 1 != 0)
    ensures WordBit(w, 15) == ((w.bits >> 15) & 1 != 0)
    ensures WordBit(w, 16) == ((w.bits >> 16) & 1 != 0)
    ensures WordBit(w, 17) == ((w.bits >> 17) & 1 != 0)
  {}

  /** The level that a format word's two top bits announce. */
  function LevelOf(bit14: bool, bit13: bool): Ecc {
    if bit14 then (if bit13 then Low else Medium) else (if bit13 then Quartile else High)
  }

  function MaskOf(bit12: bool, bit11: bool, bit10: bool): (m: int)
    ensures 0 <= m < 8
  {
    (if bit12 then 0 else 4) + (if bit11 then 2 else 0) + (if bit10 then 0 else 1)
  }

  /** Five bits of the format word give back the level and the mask, and the word has no bit above the fifteenth. */
  lemma FormatReads(ecl: Ecc, mask: int)
    requires 0 <= mask < 8
    ensures
      var w := FormatWord(ecl, mask);
      && w.bits < 0x8000
      && LevelOf(WordBit(w, 14), WordBit(w, 13)) == ecl
      && MaskOf(WordBit(w, 12), WordBit(w, 11), WordBit(w, 10)) == mask
  {
    var level, m := LevelBits(ecl), MaskBits(mask);
    LevelRange(ecl, mask);
    hide FormatAssemble, FormatRemainder, FormatData;
    var data := FormatData(level, m);
    FormatRemainderRange(data, 10);
    FormatAssembled(level, m, FormatRemainder(data, 10));
  }

  function VersionStep(rem: Word): Word {
    Word((rem.bits << 1) ^ ((rem.bits >> 11) * 0x1F25))
  }

  function VersionRemainder(data: Word, k: nat): Word {
    if k == 0 then data else VersionStep(VersionRemainder(data, k - 1))
  }

  function VersionAssemble(data: Word, rem: Word): Word {
    Word((data.bits << 12) | rem.bits)
  }

  function Appended(w: Word, low: Word): Word {
    Word((w.bits << 1) | low.bits)
  }

  /** The version number as a word, bit by bit. */
  function VersionBits(ver: int): Word
    requires 0 <= ver < 64
    decreases ver
  {
    if ver == 0 then Word(0)
    else Appended(VersionBits(ver / 2), if ver % 2 == 1 then Word(1) else Word(0))
  }

  function VersionWord(ver: int): Word
    requires 0 <= ver < 64
  {
    VersionAssemble(VersionBits(ver), VersionRemainder(VersionBits(ver), 12))
  }

  function One(b: bool): nat { if b then 1 else 0 }

  /** The number that six bits spell, the first the most significant. */
  function SixBits(b5: bool, b4: bool, b3: bool, b2: bool, b1: bool, b0: bool): nat {
    32 * One(b5) + 16 * One(b4) + 8 * One(b3) + 4 * One(b2) + 2 * One(b1) + One(b0)
  }

  function Number(w: Word): nat {
    SixBits(w.bits & 32 != 0, w.bits & 16 != 0, w.bits & 8 != 0, w.bits & 4 != 0, w.bits & 2 != 0, w.bits & 1 != 0)
  }

  lemma AppendedBits(w: Word, low: Word)
    requires w.bits < 32 && low.bits < 2
    ensures
      var v := Appended(w, low);
      && v.bits < 64 && w.bits & 32 == 0
      && (v.bits & 32 != 0) == (w.bits & 16 != 0) && (v.bits & 16 != 0) == (w.bits & 8 != 0)
      && (v.bits & 8 != 0) == (w.bits & 4 != 0) && (v.bits & 4 != 0) == (w.bits & 2 != 0)
      && (v.bits & 2 != 0) == (w.bits & 1 != 0) && (v.bits & 1 != 0) == (low.bits == 1)
  {}

  lemma AppendedNumber(w: Word, low: Word)
    requires w.bits < 32 && low.bits < 2
    ensures Appended(w, low).bits < 64
    ensures Number(Appended(w, low)) == 2 * Number(w) + One(low.bits == 1)
  {
    hide Appended;
    AppendedBits(w, low);
  }

  lemma SmallNumber(w: Word)
    requires w.bits < 64 && Number(w) < 32
    ensures w.bits < 32
  {}

  /** The version's bits spell the version. */
  lemma {:induction false} VersionNumber(ver: int)
    requires 0 <= ver < 64
    ensures VersionBits(ver).bits < 64 && Number(VersionBits(ver)) == ver
  {
    hide Appended, Number;
    if ver == 0 {
      ZeroNumber();
    } else {
      VersionNumber(ver / 2);
      SmallNumber(VersionBits(ver / 2));
      AppendedNumber(VersionBits(ver / 2), if ver % 2 == 1 then Word(1) else Word(0));
    }
  }

  lemma ZeroNumber()
    ensures Number(Word(0)) == 0
  {}

  lemma VersionStepRange(rem: Word)
    requires rem.bits < 0x1000
    ensures VersionStep(rem).bits < 0x1000
  {}

  lemma {:induction false} VersionRemainderRange(data: Word, k: nat)
    requires data.bits < 0x1000
    ensures VersionRemainder(data, k).bits < 0x1000
  {
    hide VersionStep;
    if k > 0 {
      VersionRemainderRange(data, k - 1);
      VersionStepRange(VersionRemainder(data, k - 1));
    }
  }

  lemma VersionAssembled(data: Word, rem: Word)
    requires data.bits < 64 && rem.bits < 0x1000
    ensures
      var w := VersionAssemble(data, rem).bits;
      && w < 0x4_0000
      && (w & 0x2_0000 != 0) == (data.bits & 32 != 0) && (w & 0x1_0000 != 0) == (data.bits & 16 != 0)
      && (w & 0x8000 != 0) == (data.bits & 8 != 0) && (w & 0x4000 != 0) == (data.bits & 4 != 0)
      && (w & 0x2000 != 0) == (data.bits & 2 != 0) && (w & 0x1000 != 0) == (data.bits & 1 != 0)
  {}

  /** The word fits 18 bits, and its top six spell the version. */
  lemma VersionReads(ver: int)
    requires 0 <= ver < 64
    ensures
      var w := VersionWord(ver);
      && w.bits < 0x4_0000
      && SixBits(WordBit(w, 17), WordBit(w, 16), WordBit(w, 15), WordBit(w, 14), WordBit(w, 13), WordBit(w, 12)) == ver
  {
    hide VersionAssemble, VersionRemainder, VersionBits, SixBits;
    var data := VersionBits(ver);
    VersionNumber(ver);
    SmallData(data);
    VersionRemainderRange(data, 12);
    VersionAssembled(data, VersionRemainder(data, 12));
  }

  lemma SmallData(data: Word)
    requires data.bits < 64
    ensures data.bits < 0x1000
  {}

  // ----- layers -----

  /** What one drawing routine paints. */
  datatype Layer =
    | TimingLayer
    | FinderLayer(cx: int, cy: int)
    | AlignmentLayer(cx: int, cy: int)
    | FormatLayer(ecl: Ecc, mask: int)
    | VersionLayer(ver: int)

  ghost predicate LayerValid(l: Layer) {
    match l
    case FormatLayer(_, mask) => 0 <= mask < 8
    case VersionLayer(ver) => IsVersion(ver)
    case _ => true
  }

  /** The format bit shown at a module: 0 to 14, 15 for the module that is always dark, -1 for none. */
  function FormatIndex(n: int, x: int, y: int): (i: int)
    ensures -1 <= i <= 15
  {
    if x == 8 && 0 <= y <= 5 then y
    else if x == 8 && y == 7 then 6
    else if x == 8 && y == 8 then 7
    else if x == 7 && y == 8 then 8
    else if 0 <= x <= 5 && y == 8 then 14 - x
    else if n - 8 <= x < n && y == 8 then n - 1 - x
    else if x == 8 && n - 7 <= y < n then y + 15 - n
    else if x == 8 && y == n - 8 then 15
    else -1
  }

  /** The version bit shown at a module, or -1. */
  function VersionIndex(ver: int, n: int, x: int, y: int): (i: int)
    ensures -1 <= i < 18
  {
    if ver < 7 then -1
    else if n - 11 <= x <= n - 9 && 0 <= y <= 5 then 3 * y + (x - (n - 11))
    else if n - 11 <= y <= n - 9 && 0 <= x <= 5 then 3 * x + (y - (n - 11))
    else -1
  }

  predicate Covers(l: Layer, n: int, x: int, y: int) {
    match l
    case TimingLayer => x == 6 || y == 6
    case FinderLayer(cx, cy) => Dist(x, y, cx, cy) <= 4
    case AlignmentLayer(cx, cy) => Dist(x, y, cx, cy) <= 2
    case FormatLayer(_, _) => FormatIndex(n, x, y) >= 0
    case VersionLayer(ver) => VersionIndex(ver, n, x, y) >= 0
  }

  predicate Color(l: Layer, n: int, x: int, y: int)
    requires LayerValid(l) && Covers(l, n, x, y)
  {
    match l
    case TimingLayer => (if x == 6 then y else x) % 2 == 0
    case FinderLayer(cx, cy) => Dist(x, y, cx, cy) != 2 && Dist(x, y, cx, cy) != 4
    case AlignmentLayer(cx, cy) => Dist(x, y, cx, cy) != 1
    case FormatLayer(ecl, mask) =>
      FormatIndex(n, x, y) == 15 || WordBit(FormatWord(ecl, mask), FormatIndex(n, x, y))
    case VersionLayer(ver) => WordBit(VersionWord(ver), VersionIndex(ver, n, x, y))
  }

  ghost function Paint(g: Grid, n: nat, l: Layer): (h: Grid)
    requires IsGrid(g, n) && LayerValid(l)
    ensures IsGrid(h, n)
    ensures forall x, y :: In(n, x, y) ==>
              At(h, x, y) == if Covers(l, n, x, y) then Color(l, n, x, y) else At(g, x, y)
  {
    seq(n, y requires 0 <= y < n => seq(n, x requires 0 <= x < n =>
      if Covers(l, n, x, y) then Color(l, n, x, y) else g[y][x]))
  }

  ghost function Mark(f: Grid, n: nat, l: Layer): (h: Grid)
    requires IsGrid(f, n)
    ensures IsGrid(h, n)
    ensures forall x, y :: In(n, x, y) ==> At(h, x, y) == (Covers(l, n, x, y) || At(f, x, y))
  {
    seq(n, y requires 0 <= y < n => seq(n, x requires 0 <= x < n => Covers(l, n, x, y) || f[y][x]))
  }

  ghost predicate LayersValid(ls: seq<Layer>) {
    forall i :: 0 <= i < |ls| ==> LayerValid(ls[i])
  }

  ghost function PaintAll(g: Grid, n: nat, ls: seq<Layer>): (h: Grid)
    requires IsGrid(g, n) && LayersValid(ls)
    ensures IsGrid(h, n)
  {
    if ls == [] then g else Paint(PaintAll(g, n, ls[..|ls| - 1]), n, ls[|ls| - 1])
  }

  ghost function MarkAll(f: Grid, n: nat, ls: seq<Layer>): (h: Grid)
    requires IsGrid(f, n)
    ensures IsGrid(h, n)
  {
    if ls == [] then f else Mark(MarkAll(f, n, ls[..|ls| - 1]), n, ls[|ls| - 1])
  }

  lemma PaintLast(g: Grid, f: Grid, n: nat, ls: seq<Layer>, l: Layer)
    requires IsGrid(g, n) && IsGrid(f, n) && LayersValid(ls) && LayerValid(l)
    ensures PaintAll(g, n, ls + [l]) == Paint(PaintAll(g, n, ls), n, l)
    ensures MarkAll(f, n, ls + [l]) == Mark(MarkAll(f, n, ls), n, l)
  {
    hide Paint, Mark;
    assert (ls + [l])[..|ls|] == ls;
  }

  ghost predicate Covered(ls: seq<Layer>, n: int, x: int, y: int) {
    exists i :: 0 <= i < |ls| && Covers(ls[i], n, x, y)
  }

  /** A module is marked exactly when it was marked before or some layer covers it. */
  lemma {:induction false} MarkAllAt(f: Grid, n: nat, ls: seq<Layer>, x: int, y: int)
    requires IsGrid(f, n) && In(n, x, y)
    ensures At(MarkAll(f, n, ls), x, y) == (Covered(ls, n, x, y) || At(f, x, y))
  {
    hide Covers, Mark;
    if ls != [] {
      var l := |ls| - 1;
      MarkAllAt(f, n, ls[..l], x, y);
      assert Covered(ls, n, x, y) <==> Covered(ls[..l], n, x, y) || Covers(ls[l], n, x, y) by {
        if Covered(ls[..l], n, x, y) {
          var i :| 0 <= i < l && Covers(ls[..l][i], n, x, y);
          assert Covers(ls[i], n, x, y);
        }
        if i :| 0 <= i < |ls| && Covers(ls[i], n, x, y) {
          assert i < l ==> Covers(ls[..l][i], n, x, y);
        }
      }
    }
  }

  /** A module shows the colour of the last layer that covers it. */
  lemma {:induction false} PaintAllAt(g: Grid, n: nat, ls: seq<Layer>, k: nat, x: int, y: int)
    requires IsGrid(g, n) && In(n, x, y) && LayersValid(ls)
    requires k < |ls| && Covers(ls[k], n, x, y)
    requires forall i :: k < i < |ls| ==> !Covers(ls[i], n, x, y)
    ensures At(PaintAll(g, n, ls), x, y) == Color(ls[k], n, x, y)
  {
    hide Covers, Paint, Color;
    var l := |ls| - 1;
    if k < l {
      PaintAllAt(g, n, ls[..l], k, x, y);
    }
  }
}
