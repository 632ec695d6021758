/** From segments to data codewords: length accounting, version and level selection,
    concatenation, terminator and padding; and a reference parser that reads it all back. */
module BitStream {
  import opened Results
  import opened Bits
  import opened Tables
  import opened Segments

  // ----- length accounting -----

  function HeaderBits(seg: Segment, ver: int): nat
    requires IsVersion(ver)
  {
    4 + seg.mode.CharCountBits(ver)
  }

  ghost predicate CountFits(seg: Segment, ver: int)
    requires IsVersion(ver)
  {
    seg.numChars < Pow2(seg.mode.CharCountBits(ver))
  }

  ghost function SumBits(segs: seq<Segment>, ver: int): nat
    requires IsVersion(ver)
  {
    if segs == [] then 0
    else SumBits(segs[..|segs| - 1], ver) + HeaderBits(segs[|segs| - 1], ver) + |segs[|segs| - 1].data|
  }

  /** The segments can be laid out at this version at all. */
  ghost predicate Countable(segs: seq<Segment>, ver: int)
    requires IsVersion(ver)
  {
    (forall i :: 0 <= i < |segs| ==> CountFits(segs[i], ver)) && SumBits(segs, ver) <= INT_MAX
  }

  /** The total, or -1 exactly when a count overflows its field or the sum overflows an int. */
  method GetTotalBits(segs: seq<Segment>, ver: int) returns (result: int)
    requires IsVersion(ver)
    ensures Countable(segs, ver) ==> result == SumBits(segs, ver)
    ensures !Countable(segs, ver) ==> result == -1
  {
    hide Pow2;
    result := 0;
    for i := 0 to |segs|
      invariant result == SumBits(segs[..i], ver) <= INT_MAX
      invariant forall k :: 0 <= k < i ==> CountFits(segs[k], ver)
    {
      var seg := segs[i];
      assert segs[..i + 1][..i] == segs[..i];
      SumBitsMonotone(segs, i + 1, ver);
      var ccbits := seg.mode.CharCountBits(ver);
      if seg.numChars >= Pow2(ccbits) {
        assert !CountFits(segs[i], ver);
        return -1;
      }
      if 4 + ccbits > INT_MAX - result {
        return -1;
      }
      result := result + 4 + ccbits;
      if |seg.data| > INT_MAX - result {
        return -1;
      }
      result := result + |seg.data|;
    }
    assert segs[..|segs|] == segs;
  }

  lemma {:induction false} SumBitsMonotone(segs: seq<Segment>, i: nat, ver: int)
    requires IsVersion(ver) && i <= |segs|
    ensures SumBits(segs[..i], ver) <= SumBits(segs, ver)
    decreases |segs| - i
  {
    if i == |segs| {
      assert segs[..i] == segs;
    } else {
      SumBitsMonotone(segs, i + 1, ver);
      assert segs[..i + 1][..i] == segs[..i];
    }
  }

  // ----- version and level selection -----

  ghost predicate Fits(segs: seq<Segment>, ver: int, ecl: Ecc)
    requires IsVersion(ver)
  {
    Countable(segs, ver) && SumBits(segs, ver) <= NumDataCodewords(ver, ecl) * 8
  }

  /** The smallest version in the range at which the segments fit, or an error when none fits. */
  method FindVersion(segs: seq<Segment>, ecl: Ecc, minVersion: int, maxVersion: int)
    returns (r: Result<int>, dataUsedBits: int)
    requires MIN_VERSION <= minVersion <= maxVersion <= MAX_VERSION
    ensures r.Ok? <==> exists v :: minVersion <= v <= maxVersion && Fits(segs, v, ecl)
    ensures r.Err? ==> r.error == DataTooLong
    ensures r.Ok? ==> minVersion <= r.value <= maxVersion && Fits(segs, r.value, ecl)
                      && dataUsedBits == SumBits(segs, r.value)
    ensures r.Ok? ==> forall v :: minVersion <= v < r.value ==> !Fits(segs, v, ecl)
  {
    hide NumDataCodewords, SumBits;
    var version := minVersion;
    while true
      invariant minVersion <= version <= maxVersion
      invariant forall v :: minVersion <= v < version ==> !Fits(segs, v, ecl)
      decreases maxVersion - version
    {
      var dataCapacityBits := NumDataCodewords(version, ecl) * 8;
      dataUsedBits := GetTotalBits(segs, version);
      if dataUsedBits != -1 && dataUsedBits <= dataCapacityBits {
        assert Fits(segs, version, ecl);
        return Ok(version), dataUsedBits;
      }
      if version >= maxVersion {
        return Err(DataTooLong), dataUsedBits;
      }
      version := version + 1;
    }
  }

  function Rank(ecl: Ecc): nat {
    match ecl case Low => 0 case Medium => 1 case Quartile => 2 case High => 3
  }

  /** Capacity is antitone in the level. */
  lemma CapacityAntitone(ver: int, low: Ecc, high: Ecc)
    requires IsVersion(ver) && Rank(low) <= Rank(high)
    ensures NumDataCodewords(ver, low) >= NumDataCodewords(ver, high)
  {
    hide NumDataCodewords;
    CapacityFalls(ver);
  }

  /** The highest level at which the data still fits; never below the one asked for. */
  method BoostLevel(dataUsedBits: int, ver: int, ecl: Ecc, boostEcl: bool) returns (r: Ecc)
    requires IsVersion(ver) && dataUsedBits <= NumDataCodewords(ver, ecl) * 8
    ensures !boostEcl ==> r == ecl
    ensures dataUsedBits <= NumDataCodewords(ver, r) * 8 && Rank(ecl) <= Rank(r)
    ensures boostEcl ==> forall e :: Rank(r) < Rank(e) ==> dataUsedBits > NumDataCodewords(ver, e) * 8
  {
    hide NumDataCodewords;
    CapacityFalls(ver);
    r := ecl;
    var levels := [Medium, Quartile, High];
    for i := 0 to |levels|
      invariant !boostEcl ==> r == ecl
      invariant dataUsedBits <= NumDataCodewords(ver, r) * 8
      invariant Rank(r) <= i || r == ecl
      invariant boostEcl ==> forall e :: Rank(r) < Rank(e) <= i ==> dataUsedBits > NumDataCodewords(ver, e) * 8
      invariant Rank(ecl) <= i ==> Rank(ecl) <= Rank(r)
      invariant boostEcl && Rank(ecl) > i ==> Rank(r) == i || r == ecl
    {
      var newEcl := levels[i];
      if boostEcl && dataUsedBits <= NumDataCodewords(ver, newEcl) * 8 {
        r := newEcl;
      }
    }
  }

  // ----- the bit stream -----

  function SegmentBits(seg: Segment, ver: int): (b: seq<bool>)
    requires IsVersion(ver)
    ensures |b| == HeaderBits(seg, ver) + |seg.data|
  {
    BitsOf(seg.mode.ModeBits(), 4) + BitsOf(seg.numChars, seg.mode.CharCountBits(ver)) + seg.data
  }

  function StreamBits(segs: seq<Segment>, ver: int): seq<bool>
    requires IsVersion(ver)
  {
    if segs == [] then [] else SegmentBits(segs[0], ver) + StreamBits(segs[1..], ver)
  }

  lemma {:induction false} StreamBitsLast(segs: seq<Segment>, seg: Segment, ver: int)
    requires IsVersion(ver)
    ensures StreamBits(segs + [seg], ver) == StreamBits(segs, ver) + SegmentBits(seg, ver)
  {
    hide SegmentBits;
    if segs == [] {
      assert segs + [seg] == [seg] && [seg][1..] == [];
    } else {
      StreamBitsLast(segs[1..], seg, ver);
      assert (segs + [seg])[1..] == segs[1..] + [seg];
    }
  }

  /** The concatenated bits number exactly the total that was computed beforehand. */
  lemma {:induction false} StreamLength(segs: seq<Segment>, ver: int)
    requires IsVersion(ver)
    ensures |StreamBits(segs, ver)| == SumBits(segs, ver)
  {
    hide SegmentBits;
    if segs != [] {
      var l := |segs| - 1;
      StreamLength(segs[..l], ver);
      StreamBitsLast(segs[..l], segs[l], ver);
      assert segs[..l] + [segs[l]] == segs;
    }
  }

  lemma CountFieldBound(mode: Mode, ver: int)
    requires IsVersion(ver)
    ensures mode.ModeBits() < Pow2(4)
  {
    assert Pow2(4) == 16;
  }

  method Concatenate(segs: seq<Segment>, ver: int, bb: BitBuffer)
    requires IsVersion(ver) && Countable(segs, ver) && bb.bits == []
    modifies bb
    ensures bb.bits == StreamBits(segs, ver)
  {
    hide Pow2, BitsOf;
    for i := 0 to |segs|
      invariant bb.bits == StreamBits(segs[..i], ver)
    {
      var seg := segs[i];
      StreamBitsLast(segs[..i], seg, ver);
      assert segs[..i] + [seg] == segs[..i + 1];
      CountFieldBound(seg.mode, ver);
      assert CountFits(segs[i], ver);
      var mode := bb.AppendBits(seg.mode.ModeBits(), 4);
      assert mode.Ok?;
      var count := bb.AppendBits(seg.numChars, seg.mode.CharCountBits(ver));
      assert count.Ok?;
      bb.AppendAll(seg.data);
    }
    assert segs[..|segs|] == segs;
  }

  /** Alternating pad bytes, n of them, the first one 0xEC when `even`. */
  function PadBytes(n: nat, even: bool): (b: seq<bool>)
    ensures |b| == 8 * n
    decreases n
  {
    if n == 0 then [] else BitsOf(if even then 0xEC else 0x11, 8) + PadBytes(n - 1, !even)
  }

  lemma {:induction false} PadBytesLast(n: nat, even: bool)
    ensures PadBytes(n + 1, even) == PadBytes(n, even) + BitsOf(if (n % 2 == 0) == even then 0xEC else 0x11, 8)
    decreases n
  {
    hide BitsOf;
    if n > 0 {
      PadBytesLast(n - 1, !even);
    }
  }

  function Min(a: int, b: int): int { if a < b then a else b }

  /** The terminator and the alignment zeros that follow `used` bits. */
  function TerminatorBits(used: nat, capacity: nat): (n: nat)
    requires used <= capacity && capacity % 8 == 0
    ensures used + n <= capacity && (used + n) % 8 == 0
    ensures n >= 4 || used + n == capacity
  {
    var t := Min(4, capacity - used);
    t + (8 - (used + t) % 8) % 8
  }

  /** The data bits filled up to the capacity. */
  function Filled(bits: seq<bool>, capacity: nat): (b: seq<bool>)
    requires |bits| <= capacity && capacity % 8 == 0
    ensures |b| == capacity
  {
    var n := TerminatorBits(|bits|, capacity);
    WholeBytes(capacity, |bits| + n);
    bits + Zeros(n) + PadBytes((capacity - |bits| - n) / 8, true)
  }

  lemma WholeBytes(capacity: nat, used: nat)
    requires capacity % 8 == 0 && used % 8 == 0 && used <= capacity
    ensures 8 * ((capacity - used) / 8) == capacity - used
  {}

  /** The bits of the standard's two pad codewords, 11101100 and 00010001, over and over. */
  predicate PadBit(i: nat) {
    var k := i % 16;
    k == 0 || k == 1 || k == 2 || k == 4 || k == 5 || k == 11 || k == 15
  }

  lemma PadPowers()
    ensures Pow2(0) == 1 && Pow2(1) == 2 && Pow2(2) == 4 && Pow2(3) == 8
    ensures Pow2(4) == 16 && Pow2(5) == 32 && Pow2(6) == 64 && Pow2(7) == 128
  {}

  lemma PadByteBit(k: nat)
    requires k < 8
    ensures BitsOf(0xEC, 8)[k] == PadBit(k) && BitsOf(0x11, 8)[k] == PadBit(8 + k)
  {
    hide BitsOf, Pow2;
    PadPowers();
    BitsOfAt(0xEC, 8, k);
    BitsOfAt(0x11, 8, k);
  }

  lemma {:induction false} PadBytesAt(n: nat, even: bool, i: nat)
    requires i < 8 * n
    ensures PadBytes(n, even)[i] == PadBit(i + if even then 0 else 8)
    decreases n
  {
    hide BitsOf, PadBit;
    if i < 8 {
      PadByteBit(i);
    } else {
      PadBytesAt(n - 1, !even, i - 8);
      assert PadBytes(n, even)[i] == PadBytes(n - 1, !even)[i - 8];
      PadPeriod(i - 8);
    }
  }

  lemma PadPeriod(i: nat)
    ensures PadBit(i + 16) == PadBit(i)
  {}

  /** Every bit of a filled stream: the data, then at least four zeros if there is room and no more than reach
      the next byte boundary s, then the pad pattern over and over. */
  lemma FilledAt(bits: seq<bool>, capacity: nat, s: nat, i: nat)
    requires |bits| <= capacity && capacity % 8 == 0 && i < capacity
    requires s % 8 == 0 && Min(|bits| + 4, capacity) <= s < Min(|bits| + 4, capacity) + 8
    ensures Filled(bits, capacity)[i] ==
      if i < |bits| then bits[i] else if i < s then false else PadBit(i - s)
  {
    hide PadBytes, PadBit;
    var n := TerminatorBits(|bits|, capacity);
    assert |bits| + n == s;
    WholeBytes(capacity, s);
    if i >= s {
      PadBytesAt((capacity - s) / 8, true, i - s);
    }
  }

  lemma EightBits()
    ensures Pow2(8) == 256
  {}

  /** Add the terminator and pad up to a byte boundary. */
  method Terminate(bb: BitBuffer, dataCapacityBits: nat)
    requires |bb.bits| <= dataCapacityBits && dataCapacityBits % 8 == 0
    modifies bb
    ensures bb.bits == old(bb.bits) + Zeros(TerminatorBits(|old(bb.bits)|, dataCapacityBits))
  {
    hide Pow2, BitsOf;
    var t := Min(4, dataCapacityBits - |bb.bits|);
    BitsOfZero(t);
    var terminator := bb.AppendBits(0, t);
    assert terminator.Ok?;
    var a := (8 - |bb.bits| % 8) % 8;
    BitsOfZero(a);
    var alignment := bb.AppendBits(0, a);
    assert alignment.Ok?;
    assert Zeros(t) + Zeros(a) == Zeros(t + a);
  }

  /** Pad with alternating bytes until the capacity is reached exactly. */
  method PadAlternating(bb: BitBuffer, dataCapacityBits: nat)
    requires |bb.bits| <= dataCapacityBits && dataCapacityBits % 8 == 0 && |bb.bits| % 8 == 0
    modifies bb
    ensures bb.bits == old(bb.bits) + PadBytes((dataCapacityBits - |old(bb.bits)|) / 8, true)
  {
    EightBits();
    hide Pow2, BitsOf, PadBytes;
    ghost var m := 0;
    var padByte := 0xEC;
    while |bb.bits| < dataCapacityBits
      invariant |bb.bits| == |old(bb.bits)| + 8 * m <= dataCapacityBits
      invariant bb.bits == old(bb.bits) + PadBytes(m, true)
      invariant padByte == if m % 2 == 0 then 0xEC else 0x11
      decreases dataCapacityBits - |bb.bits|
    {
      PadBytesLast(m, true);
      var pad := bb.AppendBits(padByte, 8);
      assert pad.Ok?;
      padByte := if padByte == 0xEC then 0x11 else 0xEC;  // the exclusive or with 0xEC ^ 0x11
      m := m + 1;
    }
  }

  method FillToCapacity(bb: BitBuffer, dataCapacityBits: nat)
    requires |bb.bits| <= dataCapacityBits && dataCapacityBits % 8 == 0
    modifies bb
    ensures bb.bits == Filled(old(bb.bits), dataCapacityBits)
  {
    hide PadBytes, TerminatorBits;
    Terminate(bb, dataCapacityBits);
    PadAlternating(bb, dataCapacityBits);
  }

  // ----- reading the stream back -----

  function ModeOf(v: nat): Option<Mode> {
    if v == 1 then Some(Numeric)
    else if v == 2 then Some(Alphanumeric)
    else if v == 4 then Some(Bytes)
    else if v == 8 then Some(Kanji)
    else if v == 7 then Some(Eci)
    else None
  }

  /** The width of the character count field, by the standard's three ranges of versions. */
  function CountWidth(mode: Mode, ver: int): nat {
    match mode
    case Numeric => if ver <= 9 then 10 else if ver <= 26 then 12 else 14
    case Alphanumeric => if ver <= 9 then 9 else if ver <= 26 then 11 else 13
    case Bytes => if ver <= 9 then 8 else 16
    case Kanji => if ver <= 9 then 8 else if ver <= 26 then 10 else 12
    case Eci => 0
  }

  /** The encoder's field widths are those of the standard. */
  lemma CountWidthIs(mode: Mode, ver: int)
    requires IsVersion(ver)
    ensures mode.CharCountBits(ver) == CountWidth(mode, ver)
  {
    assert (ver + 7) / 17 == if ver <= 9 then 0 else if ver <= 26 then 1 else 2;
  }

  /** How many data bits a segment of this mode and count has; an ECI designator announces its own length. */
  function PayloadLength(mode: Mode, count: nat, rest: seq<bool>): Option<nat> {
    match mode
    case Numeric => Some(NUMERIC.Length(count))
    case Alphanumeric => Some(ALPHANUMERIC.Length(count))
    case Bytes => Some(8 * count)
    case Kanji => Some(13 * count)
    case Eci =>
      if |rest| < 3 then None
      else if !rest[0] then Some(8)
      else if !rest[1] then Some(16)
      else if !rest[2] then Some(24)
      else None
  }

  /** A segment whose payload has the length its header promises. */
  ghost predicate WellFormed(seg: Segment) {
    PayloadLength(seg.mode, seg.numChars, seg.data) == Some(|seg.data|)
  }

  /** A reference parser: segments up to a terminator or the end of the stream. */
  function Parse(bits: seq<bool>, ver: int): Option<seq<Segment>>
    requires IsVersion(ver)
    decreases |bits|
  {
    if |bits| < 4 || ValueOf(bits[..4]) == 0 then Some([])
    else
      var mode := ModeOf(ValueOf(bits[..4]));
      if mode.None? then None
      else
        var c := CountWidth(mode.value, ver);
        if |bits| < 4 + c then None
        else
          var count, rest := ValueOf(bits[4..4 + c]), bits[4 + c..];
          var len := PayloadLength(mode.value, count, rest);
          if len.None? || |rest| < len.value then None
          else
            var tail := Parse(rest[len.value..], ver);
            if tail.None? then None
            else Some([Segment(mode.value, count, rest[..len.value])] + tail.value)
  }

  /** What follows the last segment: too short for a mode indicator, or beginning with the terminator. */
  ghost predicate Terminated(tail: seq<bool>) {
    |tail| < 4 || tail[..4] == Zeros(4)
  }

  lemma HeaderParses(seg: Segment, ver: int, bits: seq<bool>)
    requires IsVersion(ver) && CountFits(seg, ver) && SegmentBits(seg, ver) <= bits
    ensures
      var c := CountWidth(seg.mode, ver);
      && |bits| >= 4 + c + |seg.data|
      && ValueOf(bits[..4]) == seg.mode.ModeBits()
      && ModeOf(ValueOf(bits[..4])) == Some(seg.mode)
      && ValueOf(bits[4..4 + c]) == seg.numChars
      && seg.data <= bits[4 + c..]
  {
    hide Pow2, BitsOf, ValueOf;
    CountWidthIs(seg.mode, ver);
    var c := CountWidth(seg.mode, ver);
    var s := SegmentBits(seg, ver);
    CountFieldBound(seg.mode, ver);
    ValueOfBitsOf(seg.mode.ModeBits(), 4);
    ValueOfBitsOf(seg.numChars, c);
    assert bits[..4] == s[..4] == BitsOf(seg.mode.ModeBits(), 4);
    assert bits[4..4 + c] == s[4..4 + c] == BitsOf(seg.numChars, c);
    assert s[4 + c..] == seg.data;
  }

  /** The announced payload length does not depend on what follows the payload. */
  lemma PayloadLengthStable(seg: Segment, rest: seq<bool>)
    requires WellFormed(seg) && seg.data <= rest
    ensures PayloadLength(seg.mode, seg.numChars, rest) == Some(|seg.data|)
  {
    if seg.mode == Eci {
      assert |seg.data| >= 3;
    }
  }

  /** Parsing inverts concatenation, for any well-formed segments whose counts fit their fields. */
  lemma {:induction false} ParseStream(segs: seq<Segment>, ver: int, tail: seq<bool>)
    requires IsVersion(ver) && Terminated(tail)
    requires forall i :: 0 <= i < |segs| ==> CountFits(segs[i], ver) && WellFormed(segs[i])
    ensures Parse(StreamBits(segs, ver) + tail, ver) == Some(segs)
    decreases |segs|
  {
    hide SegmentBits, CountFits, WellFormed;
    var bits := StreamBits(segs, ver) + tail;
    if segs == [] {
      assert bits == tail;
      NoSegment(tail, ver);
    } else {
      var seg := segs[0];
      var rest := StreamBits(segs[1..], ver) + tail;
      assert bits == SegmentBits(seg, ver) + rest;
      ParseStream(segs[1..], ver, tail);
      ParseOne(seg, ver, rest);
      assert segs == [seg] + segs[1..];
    }
  }

  lemma NoSegment(tail: seq<bool>, ver: int)
    requires IsVersion(ver) && Terminated(tail)
    ensures Parse(tail, ver) == Some([])
  {
    if |tail| >= 4 {
      BitsOfZero(4);
      ValueOfBitsOf(0, 4);
    }
  }

  lemma ParseOne(seg: Segment, ver: int, rest: seq<bool>)
    requires IsVersion(ver) && CountFits(seg, ver) && WellFormed(seg)
    requires Parse(rest, ver).Some?
    ensures Parse(SegmentBits(seg, ver) + rest, ver) == Some([seg] + Parse(rest, ver).value)
  {
    hide SegmentBits, CountFits, WellFormed, ValueOf, ModeOf, PayloadLength;
    var bits := SegmentBits(seg, ver) + rest;
    var c := CountWidth(seg.mode, ver);
    HeaderParses(seg, ver, bits);
    var after := bits[4 + c..];
    PayloadLengthStable(seg, after);
    assert after[..|seg.data|] == seg.data;
    assert after[|seg.data|..] == rest;
  }

  /** After the data comes a terminator, or nothing that could be taken for a segment. */
  lemma FilledTerminates(bits: seq<bool>, capacity: nat)
    requires |bits| <= capacity && capacity % 8 == 0
    ensures bits <= Filled(bits, capacity) && Terminated(Filled(bits, capacity)[|bits|..])
  {
    hide PadBytes, TerminatorBits;
    var n := TerminatorBits(|bits|, capacity);
    var tail := Filled(bits, capacity)[|bits|..];
    assert tail == Zeros(n) + PadBytes((capacity - |bits| - n) / 8, true);
  }

  /** The whole data stream of a symbol parses back to the segments it was made from. */
  lemma StreamRoundTrip(segs: seq<Segment>, ver: int, capacity: nat)
    requires IsVersion(ver) && capacity % 8 == 0
    requires Countable(segs, ver) && SumBits(segs, ver) <= capacity
    requires forall i :: 0 <= i < |segs| ==> WellFormed(segs[i])
    ensures |StreamBits(segs, ver)| <= capacity
    ensures Parse(Filled(StreamBits(segs, ver), capacity), ver) == Some(segs)
  {
    hide StreamBits, Filled, WellFormed, SumBits;
    StreamLength(segs, ver);
    var bits := StreamBits(segs, ver);
    var all := Filled(bits, capacity);
    FilledTerminates(bits, capacity);
    assert all == bits + all[|bits|..];
    ParseStream(segs, ver, all[|bits|..]);
  }
}
