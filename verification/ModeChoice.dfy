/** Automatic mode choice: the segments it makes are well formed, cost no more than any other
    single mode, and fit a symbol exactly up to the documented limits. */
module ModeChoice {
  import opened Results
  import opened Bits
  import opened Tables
  import opened Segments
  import opened BitStream

  predicate Applicable(mode: Mode, text: seq<CodeUnit>) {
    match mode
    case Numeric => IsNumericText(text)
    case Alphanumeric => IsAlphanumericText(text)
    case Bytes => true
    case Kanji => false
    case Eci => false
  }

  /** The text as a single segment of a given mode. */
  function InMode(mode: Mode, text: seq<CodeUnit>): Segment
    requires Applicable(mode, text)
  {
    match mode
    case Numeric => Segment(Numeric, |text|, Packed(NUMERIC, DigitValues(text)))
    case Alphanumeric => Segment(Alphanumeric, |text|, Packed(ALPHANUMERIC, CharsetValues(text)))
    case Bytes => Segment(Bytes, |text|, Packed(BYTES, text))
  }

  /** Bits of the payload, by mode and number of characters. */
  function PayloadBits(mode: Mode, n: nat): nat {
    match mode
    case Numeric => n / 3 * 10 + n % 3 * 3 + (if n % 3 == 0 then 0 else 1)
    case Alphanumeric => n / 2 * 11 + n % 2 * 6
    case Bytes => 8 * n
    case Kanji => 13 * n
    case Eci => 0
  }

  lemma InModeLength(mode: Mode, text: seq<CodeUnit>)
    requires Applicable(mode, text)
    ensures InMode(mode, text).mode == mode && InMode(mode, text).numChars == |text|
    ensures |InMode(mode, text).data| == PayloadBits(mode, |text|)
    ensures WellFormed(InMode(mode, text))
  {
    hide Packed, Charset, CharsetIndex;
    match mode
    case Numeric => PackedLength(NUMERIC, DigitValues(text));
    case Alphanumeric => PackedLength(ALPHANUMERIC, CharsetValues(text));
    case Bytes => PackedLength(BYTES, text);
  }

  function Chosen(text: seq<CodeUnit>): (mode: Mode)
    ensures Applicable(mode, text)
  {
    if IsNumericText(text) then Numeric else if IsAlphanumericText(text) then Alphanumeric else Bytes
  }

  lemma SegmentsForIs(text: seq<CodeUnit>)
    ensures SegmentsFor(text) == if text == [] then [] else [InMode(Chosen(text), text)]
  {
    hide Packed, CharsetIndex;
  }

  /** Digits are also alphanumeric characters. */
  lemma NumericIsAlphanumeric(text: seq<CodeUnit>)
    requires IsNumericText(text)
    ensures IsAlphanumericText(text)
  {
    forall i | 0 <= i < |text|
      ensures CharsetIndex(text[i], 0) >= 0
    {
      var d: int := text[i] as int - 48;
      CharsetTable(d);
      assert Charset()[d] as int == text[i];
    }
  }

  /** Every segment the factories make has the payload length its header promises. */
  lemma TextSegmentsWellFormed(text: seq<CodeUnit>)
    ensures forall i :: 0 <= i < |SegmentsFor(text)| ==> WellFormed(SegmentsFor(text)[i])
  {
    hide InMode, WellFormed;
    SegmentsForIs(text);
    InModeLength(Chosen(text), text);
  }

  lemma BinarySegmentWellFormed(data: seq<Octet>)
    ensures WellFormed(Segment(Bytes, |data|, Packed(BYTES, data)))
  {
    hide Packed;
    PackedLength(BYTES, data);
  }

  /** The number an ECI designator stands for; its leading bits say how long it is. */
  function EciValue(b: seq<bool>): Option<nat> {
    if |b| == 8 && !b[0] then Some(ValueOf(b))
    else if |b| == 16 && b[0] && !b[1] then Some(ValueOf(b[2..]))
    else if |b| == 24 && b[0] && b[1] && !b[2] then Some(ValueOf(b[3..]))
    else None
  }

  /** Every designator delimits itself and gives its value back. */
  lemma EciRoundTrip(assignVal: nat)
    requires assignVal < 1000000
    ensures WellFormed(Segment(Eci, 0, EciData(assignVal)))
    ensures EciValue(EciData(assignVal)) == Some(assignVal)
    ensures |EciData(assignVal)| == if assignVal <= 127 then 8 else if assignVal <= 16383 then 16 else 24
  {
    SmallPowers();
    hide BitsOf, ValueOf, Pow2;
    var b := EciData(assignVal);
    if assignVal < 128 {
      BitsOfAt(assignVal, 8, 0);
      UniqueQuotient(assignVal, 128, 0, assignVal);
      ValueOfBitsOf(assignVal, 8);
    } else if assignVal < 16384 {
      assert b[2..] == BitsOf(assignVal, 14);
      ValueOfBitsOf(assignVal, 14);
    } else {
      assert b[3..] == BitsOf(assignVal, 21);
      ValueOfBitsOf(assignVal, 21);
    }
  }

  // ----- cost -----

  lemma SingleSum(seg: Segment, ver: int)
    requires IsVersion(ver)
    ensures SumBits([seg], ver) == HeaderBits(seg, ver) + |seg.data|
  {
    assert [seg][..0] == [];
  }

  /** The chosen mode never needs more bits than another mode that could encode the text. */
  lemma ChosenIsCheapest(text: seq<CodeUnit>, other: Mode, ver: int)
    requires IsVersion(ver) && text != [] && Applicable(other, text)
    ensures SumBits(SegmentsFor(text), ver) <= SumBits([InMode(other, text)], ver)
  {
    hide InMode, WellFormed, IsNumericText, IsAlphanumericText;
    SegmentsForIs(text);
    if IsNumericText(text) {
      NumericIsAlphanumeric(text);
    }
    InModeLength(Chosen(text), text);
    InModeLength(other, text);
    SingleSum(InMode(Chosen(text), text), ver);
    SingleSum(InMode(other, text), ver);
    CheaperPayload(|text|, ver);
  }

  lemma CheaperPayload(n: nat, ver: int)
    requires IsVersion(ver) && n > 0
    ensures Numeric.CharCountBits(ver) + PayloadBits(Numeric, n)
         <= Alphanumeric.CharCountBits(ver) + PayloadBits(Alphanumeric, n)
         <= Bytes.CharCountBits(ver) + PayloadBits(Bytes, n)
  {}

  lemma CountPowers()
    ensures Pow2(8) == 256 && Pow2(9) == 512 && Pow2(10) == 1024 && Pow2(11) == 2048
    ensures Pow2(12) == 4096 && Pow2(13) == 8192 && Pow2(14) == 16384 && Pow2(16) == 65536
  {
    assert Pow2(8) == 256;
    assert Pow2(10) == 4 * Pow2(8);
    assert Pow2(12) == 4 * Pow2(10);
    assert Pow2(14) == 4 * Pow2(12);
    assert Pow2(16) == 4 * Pow2(14);
  }

  /** When a single segment of some mode fits a symbol, in terms of its length alone. */
  lemma SingleFits(seg: Segment, ver: int, ecl: Ecc)
    requires IsVersion(ver)
    ensures Fits([seg], ver, ecl) <==>
      && seg.numChars < Pow2(seg.mode.CharCountBits(ver))
      && HeaderBits(seg, ver) + |seg.data| <= NumDataCodewords(ver, ecl) * 8
  {
    hide NumDataCodewords, Pow2, SumBits;
    SingleSum(seg, ver);
    CapacityLimit(ver, ecl);
    if Fits([seg], ver, ecl) {
      assert CountFits([seg][0], ver);
    }
  }

  /** If any single mode fits a symbol, the chosen mode fits it too: automatic choice never costs a version. */
  lemma ChosenFitsFirst(text: seq<CodeUnit>, other: Mode, ver: int, ecl: Ecc)
    requires IsVersion(ver) && text != [] && Applicable(other, text)
    requires Fits([InMode(other, text)], ver, ecl)
    ensures Fits(SegmentsFor(text), ver, ecl)
  {
    hide InMode, WellFormed, NumDataCodewords, Pow2, Fits, IsNumericText, IsAlphanumericText;
    SegmentsForIs(text);
    if IsNumericText(text) {
      NumericIsAlphanumeric(text);
    }
    InModeLength(Chosen(text), text);
    InModeLength(other, text);
    SingleFits(InMode(Chosen(text), text), ver, ecl);
    SingleFits(InMode(other, text), ver, ecl);
    CheaperPayload(|text|, ver);
    CapacityLimit(ver, ecl);
    CountPowers();
  }

  // ----- capacity -----

  /** The most characters a symbol can hold in a mode. */
  function Limit(mode: Mode): nat {
    match mode case Numeric => 7089 case Alphanumeric => 4296 case _ => 2953
  }

  ghost predicate FitsSome(segs: seq<Segment>, ecl: Ecc) {
    exists v :: MIN_VERSION <= v <= MAX_VERSION && Fits(segs, v, ecl)
  }

  /** At the low level, a payload fits some symbol exactly when it is no longer than the mode's limit. */
  lemma ExactLimit(seg: Segment)
    requires seg.mode in {Numeric, Alphanumeric, Bytes} && |seg.data| == PayloadBits(seg.mode, seg.numChars)
    ensures FitsSome([seg], Low) <==> seg.numChars <= Limit(seg.mode)
  {
    hide NumDataCodewords, Pow2, Fits;
    CountPowers();
    if seg.numChars <= Limit(seg.mode) {
      LargestCapacity();
      SingleFits(seg, 40, Low);
      assert Fits([seg], 40, Low);
    }
    if v :| MIN_VERSION <= v <= MAX_VERSION && Fits([seg], v, Low) {
      SingleFits(seg, v, Low);
      CapacityLimit(v, Low);
      LimitNeeded(seg, v);
    }
  }

  lemma LimitNeeded(seg: Segment, v: int)
    requires seg.mode in {Numeric, Alphanumeric, Bytes} && |seg.data| == PayloadBits(seg.mode, seg.numChars)
    requires IsVersion(v) && HeaderBits(seg, v) + |seg.data| <= 2956 * 8
    requires seg.numChars < Pow2(seg.mode.CharCountBits(v))
    ensures seg.numChars <= Limit(seg.mode)
  {
    CountPowers();
    hide Pow2;
  }

  /** A text encodes at the low level exactly when it is empty or within the limit of its chosen mode. */
  lemma TextFitsExactly(text: seq<CodeUnit>)
    ensures FitsSome(SegmentsFor(text), Low) <==> |text| <= Limit(Chosen(text))
  {
    hide InMode, WellFormed, NumDataCodewords, IsNumericText, IsAlphanumericText;
    SegmentsForIs(text);
    if text == [] {
      LargestCapacity();
      assert Fits([], 40, Low);
    } else {
      InModeLength(Chosen(text), text);
      ExactLimit(InMode(Chosen(text), text));
    }
  }

  /** The documented guarantee: 2953 code units always fit at the low level. */
  lemma TextGuarantee(text: seq<CodeUnit>)
    requires |text| <= 2953
    ensures FitsSome(SegmentsFor(text), Low)
  {
    hide FitsSome, Chosen;
    TextFitsExactly(text);
  }

  /** Binary data fits at the low level exactly up to the documented 2953 bytes. */
  lemma BinaryFitsExactly(data: seq<Octet>)
    ensures FitsSome([Segment(Bytes, |data|, Packed(BYTES, data))], Low) <==> |data| <= 2953
  {
    hide Packed, FitsSome;
    PackedLength(BYTES, data);
    ExactLimit(Segment(Bytes, |data|, Packed(BYTES, data)));
  }
}
