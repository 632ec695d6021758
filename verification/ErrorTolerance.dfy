/** What the distance of the code means for a whole symbol. */
module ErrorTolerance {
  import opened GaloisField
  import opened ReedSolomon
  import opened CodeDistance
  import opened Interleaving
  import opened Tables

  /** No block of the received codeword sequence has more wrong bytes than half its error correction bytes. */
  ghost predicate Readable(ver: int, ecl: Ecc, data: seq<Byte>, received: seq<Byte>)
    requires IsVersion(ver) && |data| == NumDataCodewords(ver, ecl) && |received| == RawCodewords(ver)
  {
    LayoutValid(ver, ecl);
    var l := LayoutOf(ver, ecl);
    forall j :: 0 <= j < l.numBlocks ==>
      Distance(EncodedBlocks(l, data)[j], DeinterleaveBlock(l, received, j)) <= l.eccLen / 2
  }

  /** A damaged sequence that is readable as two data sequences is readable as only one. */
  lemma ReadsUniquely(ver: int, ecl: Ecc, d1: seq<Byte>, d2: seq<Byte>, received: seq<Byte>)
    requires IsVersion(ver) && |d1| == |d2| == NumDataCodewords(ver, ecl) && |received| == RawCodewords(ver)
    requires Readable(ver, ecl, d1, received) && Readable(ver, ecl, d2, received)
    ensures d1 == d2
  {
    hide EccPerBlock, NumBlocks, RawCodewords, EccRow, BlocksRow, Codeword, EncodedBlocks, Distance;
    LayoutValid(ver, ecl);
    var l := LayoutOf(ver, ecl);
    l.Parameters();
    forall j | 0 <= j < l.numBlocks
      ensures EncodedBlocks(l, d1)[j] == EncodedBlocks(l, d2)[j]
    {
      EncodedBlock(l, d1, j);
      EncodedBlock(l, d2, j);
      UniqueCorrection(BlockData(l, d1, j), BlockData(l, d2, j), l.eccLen, DeinterleaveBlock(l, received, j));
    }
    assert EncodedBlocks(l, d1) == EncodedBlocks(l, d2);
    DataRecovered(l, d1);
    DataRecovered(l, d2);
  }
}
