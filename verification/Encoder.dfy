/** The public entry points, from text, bytes or segments to a finished symbol. */
module Encoder {
  import opened Results
  import opened Tables
  import opened GaloisField
  import opened Bits
  import opened ByteBits
  import opened Segments
  import opened BitStream
  import opened ModeChoice
  import opened Symbol
  import opened SymbolSpec
  import opened Decoder

  /** The low-level constructor with its argument checks. */
  method Create(ver: int, ecl: Ecc, dataCodewords: seq<Byte>, msk: int) returns (r: Result<QrCode>)
    ensures r.Ok? <==> IsVersion(ver) && -1 <= msk <= 7 && |dataCodewords| == NumDataCodewords(ver, ecl)
    ensures r.Err? ==> r.error == if IsVersion(ver) && -1 <= msk <= 7 then InvalidArgument else DomainError
    ensures r.Ok? ==>
      var q := r.value;
      && q.version == ver && q.errorCorrectionLevel == ecl && 0 <= q.mask < 8
      && q.modules == Candidate(ver, ecl, dataCodewords, q.mask)
      && (msk >= 0 ==> q.mask == msk)
      && (msk == -1 ==> IsBestMask(ver, ecl, dataCodewords, q.mask))
  {
    hide NumDataCodewords, Candidate, IsBestMask;
    if ver < MIN_VERSION || ver > MAX_VERSION {
      return Err(DomainError);
    }
    if msk < -1 || msk > 7 {
      return Err(DomainError);
    }
    if |dataCodewords| != NumDataCodewords(ver, ecl) {
      return Err(InvalidArgument);
    }
    var q := new QrCode(ver, ecl, dataCodewords, msk);
    r := Ok(q);
  }

  ghost predicate GoodArguments(minVersion: int, maxVersion: int, mask: int) {
    MIN_VERSION <= minVersion <= maxVersion <= MAX_VERSION && -1 <= mask <= 7
  }

  ghost predicate FitsWithin(segs: seq<Segment>, ecl: Ecc, minVersion: int, maxVersion: int)
    requires MIN_VERSION <= minVersion <= maxVersion <= MAX_VERSION
  {
    exists v :: minVersion <= v <= maxVersion && Fits(segs, v, ecl)
  }

  /** The smallest version in the range that fits at the requested level. */
  ghost predicate SmallestVersion(segs: seq<Segment>, ecl: Ecc, minVersion: int, maxVersion: int, ver: int)
    requires MIN_VERSION <= minVersion <= maxVersion <= MAX_VERSION
  {
    && minVersion <= ver <= maxVersion && Fits(segs, ver, ecl)
    && forall v :: minVersion <= v < ver ==> !Fits(segs, v, ecl)
  }

  /** The requested level, or with boosting the highest at which the segments still fit this version. */
  ghost predicate RightLevel(segs: seq<Segment>, ver: int, requested: Ecc, boostEcl: bool, ecl: Ecc)
    requires IsVersion(ver)
  {
    && Fits(segs, ver, ecl) && Rank(requested) <= Rank(ecl)
    && (!boostEcl ==> ecl == requested)
    && (boostEcl ==> forall e :: Rank(ecl) < Rank(e) ==> !Fits(segs, ver, e))
  }

  /** Concatenation, terminator, padding and packing. */
  method BuildDataCodewords(segs: seq<Segment>, ver: int, ecl: Ecc) returns (data: seq<Byte>)
    requires IsVersion(ver) && Fits(segs, ver, ecl)
    ensures data == DataCodewords(segs, ver, ecl)
  {
    hide NumDataCodewords, StreamBits, Filled, SumBits, BytesOf, BitString;
    var bb := new BitBuffer();
    Concatenate(segs, ver, bb);
    StreamLength(segs, ver);
    var dataCapacityBits := NumDataCodewords(ver, ecl) * 8;
    assert |bb.bits| == SumBits(segs, ver) <= dataCapacityBits;
    FillToCapacity(bb, dataCapacityBits);
    data := PackBits(bb.bits);
    BytesOfBitString(data);
  }

  /** What a caller gets for segments: the smallest version, the right level, and the requested or best mask. */
  ghost predicate Encodes(q: QrCode, segs: seq<Segment>, ecl: Ecc, minVersion: int, maxVersion: int, mask: int, boostEcl: bool)
    requires GoodArguments(minVersion, maxVersion, mask)
    reads q
  {
    && SmallestVersion(segs, ecl, minVersion, maxVersion, q.version)
    && RightLevel(segs, q.version, ecl, boostEcl, q.errorCorrectionLevel)
    && 0 <= q.mask < 8 && (mask >= 0 ==> q.mask == mask)
    && var data := DataCodewords(segs, q.version, q.errorCorrectionLevel);
       && q.modules == Candidate(q.version, q.errorCorrectionLevel, data, q.mask)
       && (mask == -1 ==> IsBestMask(q.version, q.errorCorrectionLevel, data, q.mask))
  }

  method EncodeSegments(segs: seq<Segment>, ecl: Ecc, minVersion: int, maxVersion: int, mask: int, boostEcl: bool)
    returns (r: Result<QrCode>)
    ensures !GoodArguments(minVersion, maxVersion, mask) ==> r == Err(InvalidArgument)
    ensures GoodArguments(minVersion, maxVersion, mask) ==>
      if FitsWithin(segs, ecl, minVersion, maxVersion) then r.Ok? else r == Err(DataTooLong)
    ensures r.Ok? ==> Encodes(r.value, segs, ecl, minVersion, maxVersion, mask, boostEcl)
    ensures r.Ok? && (forall i :: 0 <= i < |segs| ==> WellFormed(segs[i])) ==> Decode(r.value.modules) == Some(segs)
  {
    hide NumDataCodewords, Countable, SumBits, DataCodewords, Candidate, IsBestMask, Decode, WellFormed;
    if !(MIN_VERSION <= minVersion <= maxVersion <= MAX_VERSION) || mask < -1 || mask > 7 {
      return Err(InvalidArgument);
    }
    var version, dataUsedBits := FindVersion(segs, ecl, minVersion, maxVersion);
    if version.Err? {
      return Err(version.error);
    }
    var ver := version.value;
    var level := BoostLevel(dataUsedBits, ver, ecl, boostEcl);
    assert Fits(segs, ver, level);
    var data := BuildDataCodewords(segs, ver, level);
    r := Create(ver, level, data, mask);
    if forall i :: 0 <= i < |segs| ==> WellFormed(segs[i]) {
      SegmentsRoundTrip(segs, ver, level, r.value.mask);
    }
  }

  /** Byte mode counts its data in an int; the other modes do not check. */
  ghost predicate Storable(text: seq<CodeUnit>) {
    |text| <= INT_MAX || IsNumericText(text) || IsAlphanumericText(text)
  }

  /** Text to symbol: succeeds exactly when the text fits some version, and the symbol reads back as the text. */
  method EncodeText(text: seq<CodeUnit>, ecl: Ecc) returns (r: Result<QrCode>)
    ensures r.Ok? <==> FitsSome(SegmentsFor(text), ecl)
    ensures r.Ok? ==> Encodes(r.value, SegmentsFor(text), ecl, 1, 40, -1, true) && DecodeText(r.value.modules) == Some(text)
    ensures r.Err? ==> r.error == if Storable(text) then DataTooLong else LengthError
    ensures ecl == Low && |text| <= 2953 ==> r.Ok?
  {
    hide SegmentsFor, Fits, Encodes, WellFormed, Decode, ReadSegments, Chosen, IsNumericText, IsAlphanumericText;
    TextSegmentsWellFormed(text);
    TextRoundTrip(text);
    if |text| <= 2953 {
      TextGuarantee(text);
    }
    var segs := MakeSegments(text);
    if segs.Err? {
      TooLongToFit(text, ecl);
      return Err(segs.error);
    }
    r := EncodeSegments(segs.value, ecl, 1, 40, -1, true);
  }

  /** Text beyond the int range fits no symbol. */
  lemma TooLongToFit(text: seq<CodeUnit>, ecl: Ecc)
    requires |text| > INT_MAX
    ensures !FitsSome(SegmentsFor(text), ecl)
  {
    hide InMode, WellFormed, NumDataCodewords, IsNumericText, IsAlphanumericText, Pow2;
    SegmentsForIs(text);
    if v :| MIN_VERSION <= v <= MAX_VERSION && Fits(SegmentsFor(text), v, ecl) {
      InModeLength(Chosen(text), text);
      SingleFits(InMode(Chosen(text), text), v, ecl);
      CountPowers();
    }
  }

  ghost function BinarySegment(data: seq<Octet>): Segment {
    Segment(Bytes, |data|, Packed(BYTES, data))
  }

  /** Bytes to symbol, always in byte mode. */
  method EncodeBinary(data: seq<Octet>, ecl: Ecc) returns (r: Result<QrCode>)
    ensures r.Ok? <==> FitsSome([BinarySegment(data)], ecl)
    ensures r.Ok? ==> Encodes(r.value, [BinarySegment(data)], ecl, 1, 40, -1, true) && DecodeText(r.value.modules) == Some(data)
    ensures r.Err? ==> r.error == if |data| <= INT_MAX then DataTooLong else LengthError
    ensures ecl == Low ==> (r.Ok? <==> |data| <= 2953)
  {
    hide Fits, Encodes, WellFormed, Decode, ReadSegments, Packed, FitsSome;
    BinaryFitsExactly(data);
    BinarySegmentWellFormed(data);
    BinaryReads(data);
    var seg := MakeBytes(data);
    if seg.Err? {
      BinaryTooLong(data, ecl);
      return Err(seg.error);
    }
    r := EncodeSegments([seg.value], ecl, 1, 40, -1, true);
    assert FitsWithin([seg.value], ecl, 1, 40) <==> FitsSome([seg.value], ecl) by { SameRange([seg.value], ecl); }
  }

  lemma BinaryTooLong(data: seq<Octet>, ecl: Ecc)
    requires |data| > INT_MAX
    ensures !FitsSome([BinarySegment(data)], ecl)
  {
    hide NumDataCodewords, Pow2, Packed;
    PackedLength(BYTES, data);
    if v :| MIN_VERSION <= v <= MAX_VERSION && Fits([BinarySegment(data)], v, ecl) {
      SingleFits(BinarySegment(data), v, ecl);
      CountPowers();
    }
  }

  lemma SameRange(segs: seq<Segment>, ecl: Ecc)
    ensures FitsWithin(segs, ecl, 1, 40) <==> FitsSome(segs, ecl)
  {
    hide Fits;
  }

  lemma SingleReads(seg: Segment, text: seq<nat>)
    requires ReadSegment(seg) == Some(text)
    ensures ReadSegments([seg]) == Some(text)
  {
    hide ReadSegment;
    assert [seg][1..] == [];
    assert text + [] == text;
  }

  lemma BinaryReads(data: seq<Octet>)
    ensures ReadSegments([Segment(Bytes, |data|, Packed(BYTES, data))]) == Some(data)
  {
    hide Packed, Unpacked;
    PackingsValid();
    UnpackedPacked(BYTES, data);
    var seg := Segment(Bytes, |data|, Packed(BYTES, data));
    SingleReads(seg, data);
  }
}
