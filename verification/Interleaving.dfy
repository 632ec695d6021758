/** Splitting data into blocks, appending error correction to each, and interleaving:
    where every byte of every block goes, and how to get it back. */
module Interleaving {
  import opened GaloisField
  import opened Polynomials
  import opened Division
  import opened ReedSolomon
  import opened Tables
  import opened Results

  /** The parameters of one symbol: how many blocks, how many error correction bytes each, and the total. */
  datatype Layout = Layout(numBlocks: int, eccLen: int, raw: int)
  {
    ghost predicate Valid() {
      0 < numBlocks && 0 < eccLen && (eccLen + 1) * numBlocks <= raw
    }

    function NumShort(): int
      requires numBlocks > 0
    {
      numBlocks - raw % numBlocks
    }

    function ShortLen(): int
      requires numBlocks > 0
    {
      raw / numBlocks
    }

    /** Data bytes in a short block. */
    function ShortData(): int
      requires numBlocks > 0
    {
      ShortLen() - eccLen
    }

    function DataLen(j: int): int
      requires numBlocks > 0
    {
      if j < NumShort() then ShortData() else ShortData() + 1
    }

    /** Where the data of block j starts. */
    function Start(j: int): int
      requires numBlocks > 0
    {
      j * ShortData() + if j < NumShort() then 0 else j - NumShort()
    }

    function DataTotal(): int { raw - eccLen * numBlocks }

    lemma Parameters()
      requires Valid()
      ensures 1 <= ShortData() && 1 <= NumShort() <= numBlocks
      ensures raw == numBlocks * ShortLen() + (numBlocks - NumShort())
      ensures raw == numBlocks * ShortData() + (numBlocks - NumShort()) + numBlocks * eccLen
      ensures Start(numBlocks) == DataTotal()
    {
      var s := ShortLen();
      assert raw == numBlocks * s + raw % numBlocks;
      if s <= eccLen {
        MulMonotone(s, eccLen, numBlocks);
      }
      assert numBlocks * (s - eccLen) == numBlocks * s - numBlocks * eccLen;
    }
  }

  lemma MulMonotone(a: int, b: int, n: int)
    requires a <= b && 0 <= n
    ensures a * n <= b * n
  {}

  lemma DivMod(i: int, j: int, n: int)
    requires 0 <= j < n && 0 <= i
    ensures (i * n + j) / n == i && (i * n + j) % n == j
  {
    var q, r := (i * n + j) / n, (i * n + j) % n;
    assert i * n + j == q * n + r;
    if q < i {
      MulMonotone(q + 1, i, n);
    } else if q > i {
      MulMonotone(i + 1, q, n);
    }
  }

  lemma RowMajor(i: int, rows: int, j: int, n: int)
    requires 0 <= i < rows && 0 <= j < n
    ensures 0 <= i * n + j < rows * n
  {
    MulMonotone(i + 1, rows, n);
    assert (i + 1) * n == i * n + n;
  }

  /** Byte `index` of block `block`. */
  datatype Place = Place(block: int, index: int)

  ghost predicate IsPlace(l: Layout, pl: Place)
    requires l.Valid()
  {
    0 <= pl.block < l.numBlocks && 0 <= pl.index < l.DataLen(pl.block) + l.eccLen
  }

  /** The position in the interleaved sequence of a byte of a block. */
  function Slot(l: Layout, pl: Place): int
    requires l.numBlocks > 0
  {
    var k := l.ShortData();
    if pl.index < k then pl.index * l.numBlocks + pl.block
    else if pl.index < l.DataLen(pl.block) then k * l.numBlocks + (pl.block - l.NumShort())
    else (k + (pl.index - l.DataLen(pl.block))) * l.numBlocks + (l.numBlocks - l.NumShort()) + pl.block
  }

  /** The byte of a block that sits at a position of the interleaved sequence. */
  function Owner(l: Layout, p: int): Place
    requires l.numBlocks > 0
  {
    var n, k, extra := l.numBlocks, l.ShortData(), l.numBlocks - l.NumShort();
    if p < k * n then Place(p % n, p / n)
    else if p < k * n + extra then Place(l.NumShort() + (p - k * n), k)
    else Place((p - extra) % n, l.DataLen((p - extra) % n) + ((p - extra) / n - k))
  }

  lemma OwnerOfSlot(l: Layout, pl: Place)
    requires l.Valid() && IsPlace(l, pl)
    ensures 0 <= Slot(l, pl) < l.raw
    ensures Owner(l, Slot(l, pl)) == pl
  {
    l.Parameters();
    var n, k, extra := l.numBlocks, l.ShortData(), l.numBlocks - l.NumShort();
    var i, j := pl.index, pl.block;
    if i < k {
      RowMajor(i, k, j, n);
      DivMod(i, j, n);
    } else if i >= l.DataLen(j) {
      var e := i - l.DataLen(j);
      RowMajor(e, l.eccLen, j, n);
      DivMod(k + e, j, n);
      assert (k + e) * n == k * n + e * n;
    }
  }

  lemma QuotientRange(q: int, lo: int, hi: int, n: int)
    requires 0 < n && lo * n <= q < hi * n
    ensures lo <= q / n < hi
    ensures q == (q / n) * n + q % n
  {
    if q / n < lo {
      MulMonotone(q / n + 1, lo, n);
    } else if q / n >= hi {
      MulMonotone(hi, q / n, n);
    }
  }

  lemma SlotOfOwner(l: Layout, p: int)
    requires l.Valid() && 0 <= p < l.raw
    ensures IsPlace(l, Owner(l, p))
    ensures Slot(l, Owner(l, p)) == p
  {
    l.Parameters();
    var n, k, extra := l.numBlocks, l.ShortData(), l.numBlocks - l.NumShort();
    if p < k * n {
      QuotientRange(p, 0, k, n);
    } else if p >= k * n + extra {
      assert (k + l.eccLen) * n == k * n + l.eccLen * n;
      QuotientRange(p - extra, k, k + l.eccLen, n);
    }
  }

  // ----- interleaving and its inverse -----

  /** One codeword per block, of the right length. */
  ghost predicate Fits(l: Layout, blocks: seq<seq<Byte>>)
    requires l.Valid()
  {
    |blocks| == l.numBlocks && forall j :: 0 <= j < |blocks| ==> |blocks[j]| == l.DataLen(j) + l.eccLen
  }

  ghost function Interleave(l: Layout, blocks: seq<seq<Byte>>): (s: seq<Byte>)
    requires l.Valid() && Fits(l, blocks)
    ensures |s| == l.raw
  {
    seq(l.raw, p requires 0 <= p < l.raw => (SlotOfOwner(l, p); var o := Owner(l, p); blocks[o.block][o.index]))
  }

  ghost function Deinterleave(l: Layout, s: seq<Byte>): (blocks: seq<seq<Byte>>)
    requires l.Valid() && |s| == l.raw
  {
    seq(l.numBlocks, j requires 0 <= j < l.numBlocks => DeinterleaveBlock(l, s, j))
  }

  function DeinterleaveBlock(l: Layout, s: seq<Byte>, j: int): (block: seq<Byte>)
    requires l.Valid() && |s| == l.raw && 0 <= j < l.numBlocks
    ensures |block| == l.DataLen(j) + l.eccLen
  {
    l.Parameters();
    seq(l.DataLen(j) + l.eccLen, i requires 0 <= i < l.DataLen(j) + l.eccLen =>
      (OwnerOfSlot(l, Place(j, i)); s[Slot(l, Place(j, i))]))
  }

  lemma DeinterleaveInterleave(l: Layout, blocks: seq<seq<Byte>>)
    requires l.Valid() && Fits(l, blocks)
    ensures Deinterleave(l, Interleave(l, blocks)) == blocks
  {
    hide Slot, Owner;
    var s := Interleave(l, blocks);
    forall j | 0 <= j < l.numBlocks
      ensures DeinterleaveBlock(l, s, j) == blocks[j]
    {
      forall i | 0 <= i < |blocks[j]|
        ensures DeinterleaveBlock(l, s, j)[i] == blocks[j][i]
      {
        OwnerOfSlot(l, Place(j, i));
      }
    }
  }

  lemma InterleaveDeinterleave(l: Layout, s: seq<Byte>)
    requires l.Valid() && |s| == l.raw
    ensures Fits(l, Deinterleave(l, s)) && Interleave(l, Deinterleave(l, s)) == s
  {
    hide Slot, Owner;
    forall p | 0 <= p < l.raw
      ensures Interleave(l, Deinterleave(l, s))[p] == s[p]
    {
      SlotOfOwner(l, p);
    }
  }

  // ----- splitting the data -----

  lemma StartStep(l: Layout, j: int)
    requires l.Valid() && 0 <= j < l.numBlocks
    ensures 0 <= l.Start(j) && l.Start(j + 1) == l.Start(j) + l.DataLen(j) <= l.DataTotal()
    decreases l.numBlocks - j
  {
    l.Parameters();
    assert (j + 1) * l.ShortData() == j * l.ShortData() + l.ShortData();
    if j + 1 < l.numBlocks {
      StartStep(l, j + 1);
    }
  }

  function BlockData(l: Layout, data: seq<Byte>, j: int): (d: seq<Byte>)
    requires l.Valid() && |data| == l.DataTotal() && 0 <= j < l.numBlocks
    ensures |d| == l.DataLen(j)
  {
    l.Parameters();
    StartStep(l, j);
    data[l.Start(j)..l.Start(j) + l.DataLen(j)]
  }

  /** Every block with its error correction bytes. */
  ghost function EncodedBlocks(l: Layout, data: seq<Byte>): (blocks: seq<seq<Byte>>)
    requires l.Valid() && |data| == l.DataTotal()
    ensures Fits(l, blocks)
  {
    seq(l.numBlocks, j requires 0 <= j < l.numBlocks => Codeword(BlockData(l, data, j), l.eccLen))
  }

  /** The data parts of the first j blocks, in order. */
  function JoinData(l: Layout, blocks: seq<seq<Byte>>, j: int): seq<Byte>
    requires l.Valid() && Fits(l, blocks) && 0 <= j <= l.numBlocks
  {
    if j == 0 then []
    else
      l.Parameters();
      JoinData(l, blocks, j - 1) + blocks[j - 1][..l.DataLen(j - 1)]
  }

  lemma EncodedBlock(l: Layout, data: seq<Byte>, j: int)
    requires l.Valid() && |data| == l.DataTotal() && 0 <= j < l.numBlocks
    ensures EncodedBlocks(l, data)[j] == Codeword(BlockData(l, data, j), l.eccLen)
    ensures 0 <= l.DataLen(j) && EncodedBlocks(l, data)[j][..l.DataLen(j)] == BlockData(l, data, j)
  {
    hide Codeword;
    l.Parameters();
  }

  /** The blocks partition the data: joined in order they are the data again. */
  lemma {:induction false} JoinEncodedBlocks(l: Layout, data: seq<Byte>, j: int)
    requires l.Valid() && |data| == l.DataTotal() && 0 <= j <= l.numBlocks
    ensures 0 <= l.Start(j) <= |data|
    ensures JoinData(l, EncodedBlocks(l, data), j) == data[..l.Start(j)]
  {
    hide Codeword, EncodedBlocks, l.DataLen;
    if j > 0 {
      JoinEncodedBlocks(l, data, j - 1);
      hide l.Start, l.Valid, l.DataTotal;
      StartStep(l, j - 1);
      EncodedBlock(l, data, j - 1);
      assert data[..l.Start(j)] == data[..l.Start(j - 1)] + BlockData(l, data, j - 1);
    }
  }

  lemma DataRecovered(l: Layout, data: seq<Byte>)
    requires l.Valid() && |data| == l.DataTotal()
    ensures JoinData(l, EncodedBlocks(l, data), l.numBlocks) == data
  {
    hide Codeword, EncodedBlocks;
    l.Parameters();
    JoinEncodedBlocks(l, data, l.numBlocks);
    assert data[..|data|] == data;
  }

  // ----- the encoder's two loops -----

  /** A block as the encoder stores it: short blocks carry one padding byte before the error correction bytes. */
  ghost function Padded(l: Layout, codeword: seq<Byte>, j: int): (b: seq<Byte>)
    requires l.Valid() && 0 <= j < l.numBlocks && |codeword| == l.DataLen(j) + l.eccLen
    ensures |b| == l.ShortLen() + 1
  {
    l.Parameters();
    var n := l.DataLen(j);
    codeword[..n] + (if j < l.NumShort() then [ZERO] else []) + codeword[n..]
  }

  method SplitBlocks(l: Layout, data: seq<Byte>) returns (blocks: seq<seq<Byte>>)
    requires l.Valid() && l.eccLen <= 255 && |data| == l.DataTotal()
    ensures |blocks| == l.numBlocks
    ensures forall j :: 0 <= j < l.numBlocks ==> blocks[j] == Padded(l, EncodedBlocks(l, data)[j], j)
  {
    hide Codeword, Remainder, EncodedBlocks, Generator;
    var numShortBlocks, shortBlockLen := l.NumShort(), l.ShortLen();
    var divisor := ComputeDivisor(l.eccLen);
    blocks := [];
    var k := 0;
    for i := 0 to l.numBlocks
      invariant |blocks| == i && k == l.Start(i)
      invariant forall j :: 0 <= j < i ==> blocks[j] == Padded(l, EncodedBlocks(l, data)[j], j)
    {
      l.Parameters();
      StartStep(l, i);
      EncodedBlock(l, data, i);
      var dat := data[k..k + shortBlockLen - l.eccLen + (if i < numShortBlocks then 0 else 1)];
      assert dat == BlockData(l, data, i);
      k := k + |dat|;
      var ecc := ComputeRemainder(dat, divisor.value);
      CodewordIs(dat, l.eccLen, divisor.value, ecc.value);
      if i < numShortBlocks {
        dat := dat + [ZERO];
      }
      dat := dat + ecc.value;
      blocks := blocks + [dat];
    }
  }

  lemma CodewordIs(data: seq<Byte>, eccLen: nat, divisor: seq<Byte>, ecc: seq<Byte>)
    requires eccLen > 0 && [ONE] + divisor == Generator(eccLen) && |divisor| > 0
    requires ecc == Remainder(data, divisor)
    ensures Codeword(data, eccLen) == data + ecc
  {
    hide Generator, Remainder;
    assert Generator(eccLen)[1..] == divisor;
  }

  /** How many bytes have been emitted before row i, column j of the padded blocks. */
  ghost function Written(l: Layout, i: int, j: int): int
    requires l.numBlocks > 0
  {
    var n, k, extra := l.numBlocks, l.ShortData(), l.numBlocks - l.NumShort();
    if i < k then i * n + j
    else if i == k then k * n + if j < l.NumShort() then 0 else j - l.NumShort()
    else (i - 1) * n + extra + j
  }

  /** The index within the unpadded block of row i. */
  ghost function Unpadded(l: Layout, i: int, j: int): int
    requires l.numBlocks > 0
  {
    if l.ShortData() < i && j < l.NumShort() then i - 1 else i
  }

  predicate IsPadding(l: Layout, i: int, j: int)
    requires l.numBlocks > 0
  {
    i == l.ShortLen() - l.eccLen && j < l.NumShort()
  }

  lemma WrittenIsSlot(l: Layout, i: int, j: int)
    requires l.Valid() && 0 <= i <= l.ShortLen() && 0 <= j < l.numBlocks
    ensures Written(l, i, j + 1) == Written(l, i, j) + if IsPadding(l, i, j) then 0 else 1
    ensures !IsPadding(l, i, j) ==>
              IsPlace(l, Place(j, Unpadded(l, i, j))) && Slot(l, Place(j, Unpadded(l, i, j))) == Written(l, i, j)
  {
    l.Parameters();
  }

  lemma WrittenRow(l: Layout, i: int)
    requires l.Valid() && 0 <= i <= l.ShortLen()
    ensures Written(l, i, l.numBlocks) == Written(l, i + 1, 0)
    ensures Written(l, 0, 0) == 0
    ensures Written(l, l.ShortLen() + 1, 0) == l.raw
  {
    l.Parameters();
  }

  lemma PaddedAt(l: Layout, codeword: seq<Byte>, i: int, j: int)
    requires l.Valid() && 0 <= i <= l.ShortLen() && 0 <= j < l.numBlocks
    requires |codeword| == l.DataLen(j) + l.eccLen && !IsPadding(l, i, j)
    ensures 0 <= Unpadded(l, i, j) < |codeword|
    ensures Padded(l, codeword, j)[i] == codeword[Unpadded(l, i, j)]
  {
    l.Parameters();
  }

  /** Row i, column j of the padded blocks is the next byte of the interleaved sequence. */
  lemma NextByte(l: Layout, codewords: seq<seq<Byte>>, i: int, j: int)
    requires l.Valid() && Fits(l, codewords) && 0 <= i <= l.ShortLen() && 0 <= j < l.numBlocks
    requires !IsPadding(l, i, j)
    ensures 0 <= Written(l, i, j) < l.raw
    ensures Interleave(l, codewords)[Written(l, i, j)] == Padded(l, codewords[j], j)[i]
  {
    hide Written, Padded, Slot, Owner;
    WrittenIsSlot(l, i, j);
    PaddedAt(l, codewords[j], i, j);
    OwnerOfSlot(l, Place(j, Unpadded(l, i, j)));
  }

  /** Interleave the padded blocks row by row, skipping the padding bytes. */
  method Weave(l: Layout, blocks: seq<seq<Byte>>, ghost codewords: seq<seq<Byte>>) returns (result: seq<Byte>)
    requires l.Valid() && Fits(l, codewords) && |blocks| == l.numBlocks
    requires forall j :: 0 <= j < l.numBlocks ==> blocks[j] == Padded(l, codewords[j], j)
    ensures result == Interleave(l, codewords)
  {
    hide Written, Padded, Interleave;
    result := [];
    WrittenRow(l, 0);
    for i := 0 to |blocks[0]|
      invariant |result| == Written(l, i, 0) <= l.raw
      invariant result == Interleave(l, codewords)[..|result|]
    {
      for j := 0 to |blocks|
        invariant |result| == Written(l, i, j) <= l.raw
        invariant result == Interleave(l, codewords)[..|result|]
      {
        WrittenIsSlot(l, i, j);
        if !IsPadding(l, i, j) {
          NextByte(l, codewords, i, j);
          result := result + [blocks[j][i]];
        }
      }
      WrittenRow(l, i);
    }
  }

  // ----- the whole operation -----

  /** The block layout, from the tables by level. */
  function LayoutOf(ver: int, ecl: Ecc): Layout
    requires IsVersion(ver)
  {
    Layout(BlocksRow(ecl)[ver], EccRow(ecl)[ver], RawCodewords(ver))
  }

  lemma LayoutValid(ver: int, ecl: Ecc)
    requires IsVersion(ver)
    ensures LayoutOf(ver, ecl).Valid()
    ensures LayoutOf(ver, ecl).eccLen <= 30
    ensures LayoutOf(ver, ecl).DataTotal() == NumDataCodewords(ver, ecl)
    ensures LayoutOf(ver, ecl).ShortLen() + 1 <= 255
  {
    hide EccPerBlock, NumBlocks, RawCodewords, EccRow, BlocksRow;
    BlockParameters(ver, ecl);
    QuotientRange(RawCodewords(ver), 0, 254, NumBlocks(ver, ecl));
  }

  ghost function AllCodewords(ver: int, ecl: Ecc, data: seq<Byte>): (s: seq<Byte>)
    requires IsVersion(ver) && |data| == NumDataCodewords(ver, ecl)
    ensures |s| == RawCodewords(ver)
  {
    LayoutValid(ver, ecl);
    var l := LayoutOf(ver, ecl);
    Interleave(l, EncodedBlocks(l, data))
  }

  method AddEccAndInterleave(ver: int, ecl: Ecc, data: seq<Byte>) returns (r: Result<seq<Byte>>)
    requires IsVersion(ver)
    ensures r.Ok? <==> |data| == NumDataCodewords(ver, ecl)
    ensures r.Err? ==> r.error == InvalidArgument
    ensures r.Ok? ==> r.value == AllCodewords(ver, ecl, data)
  {
    hide EccPerBlock, NumBlocks, RawCodewords, EccRow, BlocksRow;
    if |data| != NumDataCodewords(ver, ecl) {
      return Err(InvalidArgument);
    }
    var l := Layout(NumBlocks(ver, ecl), EccPerBlock(ver, ecl), RawCodewords(ver));
    BlockParameters(ver, ecl);
    LayoutValid(ver, ecl);
    var blocks := SplitBlocks(l, data);
    var result := Weave(l, blocks, EncodedBlocks(l, data));
    r := Ok(result);
  }

  /** A reference receiver: undo the interleaving and keep the data part of every block. */
  ghost function ExtractData(ver: int, ecl: Ecc, s: seq<Byte>): seq<Byte>
    requires IsVersion(ver) && |s| == RawCodewords(ver)
  {
    LayoutValid(ver, ecl);
    var l := LayoutOf(ver, ecl);
    InterleaveDeinterleave(l, s);
    JoinData(l, Deinterleave(l, s), l.numBlocks)
  }

  lemma ExtractDataInverts(ver: int, ecl: Ecc, data: seq<Byte>)
    requires IsVersion(ver) && |data| == NumDataCodewords(ver, ecl)
    ensures ExtractData(ver, ecl, AllCodewords(ver, ecl, data)) == data
  {
    hide EccPerBlock, NumBlocks, RawCodewords, EccRow, BlocksRow, Interleave, Deinterleave, EncodedBlocks;
    LayoutValid(ver, ecl);
    var l := LayoutOf(ver, ecl);
    DeinterleaveInterleave(l, EncodedBlocks(l, data));
    DataRecovered(l, data);
  }
}
