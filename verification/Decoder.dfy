/** A reference receiver for undamaged symbols, and the proof that it recovers whatever was encoded. */
module Decoder {
  import opened Results
  import opened Tables
  import opened GaloisField
  import opened Bits
  import opened ByteBits
  import opened Segments
  import opened BitStream
  import opened Grids
  import opened Patterns
  import opened FunctionMap
  import opened Zigzag
  import opened Masking
  import opened SymbolSpec
  import Interleaving

  /** What the grid says about itself, and the data codewords in it. */
  datatype Reading = Reading(ver: int, ecl: Ecc, mask: int, data: seq<Byte>)

  ghost predicate Readable(g: Grid) {
    IsGrid(g, |g|) && |g| % 4 == 1 && IsVersion((|g| - 17) / 4)
  }

  /** The version from the size. */
  ghost function VersionOf(g: Grid): (ver: int)
    requires Readable(g)
    ensures IsVersion(ver) && Size(ver) == |g|
  {
    (|g| - 17) / 4
  }

  /** The level from the format bits beside the top left finder pattern. */
  ghost function ReadLevel(g: Grid): Ecc
    requires Readable(g)
  {
    LevelOf(At(g, 0, 8), At(g, 1, 8))
  }

  ghost function ReadMask(g: Grid): (m: int)
    requires Readable(g)
    ensures 0 <= m < 8
  {
    MaskOf(At(g, 2, 8), At(g, 3, 8), At(g, 4, 8))
  }

  /** The bits on the walk from the bottom right corner, over the modules that no function pattern takes. */
  ghost function WalkedBits(g: Grid, ver: int): (bits: seq<bool>)
    requires IsVersion(ver) && IsGrid(g, Size(ver))
    ensures |bits| == 8 * RawCodewords(ver)
  {
    hide MapGrid, RawCodewords, SymbolBits, WholeWalk;
    WalkReadsSymbol(g, ver);
    WholeWalk(g, MapGrid(ver), Size(ver))[..8 * RawCodewords(ver)]
  }

  ghost function WalkedBytes(g: Grid, ver: int): (s: seq<Byte>)
    requires IsVersion(ver) && IsGrid(g, Size(ver))
    ensures |s| == RawCodewords(ver)
  {
    BytesOf(WalkedBits(g, ver))
  }

  /** The codewords: unmask, then walk the free modules. */
  ghost function ReadCodewords(g: Grid): (s: seq<Byte>)
    requires Readable(g)
    ensures |s| == RawCodewords(VersionOf(g))
  {
    var ver := VersionOf(g);
    WalkedBytes(Masked(g, MapGrid(ver), |g|, ReadMask(g)), ver)
  }

  ghost function Read(g: Grid): Reading
    requires Readable(g)
  {
    var ver, ecl := VersionOf(g), ReadLevel(g);
    Reading(ver, ecl, ReadMask(g), Interleaving.ExtractData(ver, ecl, ReadCodewords(g)))
  }

  /** The segments in a symbol. */
  ghost function Decode(g: Grid): Option<seq<Segment>> {
    if Readable(g) then Parse(BitString(Read(g).data), VersionOf(g)) else None
  }

  /** The text in a symbol. */
  ghost function DecodeText(g: Grid): Option<seq<nat>> {
    var segs := Decode(g);
    if segs.None? then None else ReadSegments(segs.value)
  }

  // ----- reading back a finished symbol -----

  lemma FormatRead(base: Grid, f: Grid, n: nat, ecl: Ecc, mask: int)
    requires IsGrid(base, n) && IsGrid(f, n) && 0 <= mask < 8 && n >= 21
    ensures
      var g := Trial(base, f, n, ecl, mask);
      LevelOf(At(g, 0, 8), At(g, 1, 8)) == ecl && MaskOf(At(g, 2, 8), At(g, 3, 8), At(g, 4, 8)) == mask
  {
    hide FormatWord, WordBit, Masked, Paint, At;
    var g, w := Trial(base, f, n, ecl, mask), FormatWord(ecl, mask);
    FormatReads(ecl, mask);
    assert In(n, 0, 8) && In(n, 1, 8) && In(n, 2, 8) && In(n, 3, 8) && In(n, 4, 8);
    assert At(g, 0, 8) == WordBit(w, 14) && At(g, 1, 8) == WordBit(w, 13);
    assert At(g, 2, 8) == WordBit(w, 12) && At(g, 3, 8) == WordBit(w, 11) && At(g, 4, 8) == WordBit(w, 10);
  }

  lemma WalkedBitsAre(g: Grid, ver: int)
    requires IsVersion(ver) && IsGrid(g, Size(ver))
    ensures WalkedBits(g, ver) == SymbolBits(g, ver)
  {
    hide MapGrid, RawCodewords, SymbolBits, WholeWalk;
    WalkReadsSymbol(g, ver);
  }

  /** A finished symbol of any version, level and mask gives back its data codewords. */
  lemma SymbolRoundTrip(ver: int, ecl: Ecc, data: seq<Byte>, mask: int)
    requires IsVersion(ver) && |data| == NumDataCodewords(ver, ecl) && 0 <= mask < 8
    ensures var g := Candidate(ver, ecl, data, mask);
            Readable(g) && Read(g) == Reading(ver, ecl, mask, data)
  {
    hide NumDataCodewords, RawCodewords, BaseGrid, MapGrid, Masked, BytesOf, SymbolBits, WalkedBits, Trial, At, MaskOf, LevelOf, BitString;
    var n, f, base := Size(ver), MapGrid(ver), BaseGrid(ver, ecl, data);
    var g := Candidate(ver, ecl, data, mask);
    FormatRead(base, f, n, ecl, mask);
    assert Readable(g) && VersionOf(g) == ver;
    CodewordsRead(ver, ecl, data, mask);
    WalkedBitsAre(Masked(g, f, n, mask), ver);
    BytesOfBitString(Interleaving.AllCodewords(ver, ecl, data));
    Interleaving.ExtractDataInverts(ver, ecl, data);
  }

  lemma CodewordsRead(ver: int, ecl: Ecc, data: seq<Byte>, mask: int)
    requires IsVersion(ver) && |data| == NumDataCodewords(ver, ecl) && 0 <= mask < 8
    ensures SymbolBits(Masked(Candidate(ver, ecl, data, mask), MapGrid(ver), Size(ver), mask), ver)
         == CodewordBits(ver, ecl, data)
  {
    hide NumDataCodewords, RawCodewords, MapGrid, Masked, SymbolBits, CodewordBits, BaseGrid, SameButFormat;
    var n, f, base := Size(ver), MapGrid(ver), BaseGrid(ver, ecl, data);
    SameButFormatReflexive(base, n);
    TrialClean(base, base, f, n, ecl, mask);
    SameSymbolBits(ver, Masked(Trial(base, f, n, ecl, mask), f, n, mask), base);
    BaseBits(ver, ecl, data);
  }

  lemma SameButFormatReflexive(g: Grid, n: nat)
    requires IsGrid(g, n)
    ensures SameButFormat(g, g, n)
  {}

  // ----- segments and text -----

  /** The data codewords that carry the segments. */
  ghost function DataCodewords(segs: seq<Segment>, ver: int, ecl: Ecc): (data: seq<Byte>)
    requires IsVersion(ver) && Fits(segs, ver, ecl)
    ensures |data| == NumDataCodewords(ver, ecl)
  {
    StreamLength(segs, ver);
    BytesOf(Filled(StreamBits(segs, ver), NumDataCodewords(ver, ecl) * 8))
  }

  /** Every list of well-formed segments that fits is recovered from its symbol. */
  lemma SegmentsRoundTrip(segs: seq<Segment>, ver: int, ecl: Ecc, mask: int)
    requires IsVersion(ver) && Fits(segs, ver, ecl) && 0 <= mask < 8
    requires forall i :: 0 <= i < |segs| ==> WellFormed(segs[i])
    ensures Decode(Candidate(ver, ecl, DataCodewords(segs, ver, ecl), mask)) == Some(segs)
  {
    hide NumDataCodewords, Candidate, Filled, StreamBits, BytesOf, WellFormed, Parse, Read;
    StreamLength(segs, ver);
    var capacity := NumDataCodewords(ver, ecl) * 8;
    StreamRoundTrip(segs, ver, capacity);
    BitStringOfBytes(Filled(StreamBits(segs, ver), capacity));
    SymbolRoundTrip(ver, ecl, DataCodewords(segs, ver, ecl), mask);
  }
}
