/** The eight bits of a codeword byte, and packing a bit string into bytes. */
module ByteBits {
  import opened GaloisField
  import Bits

  /** Bit i of a byte, bit 0 being the least significant. */
  predicate GetBit(b: Byte, i: int)
    requires 0 <= i < 8
  {
    match i
    case 0 => b.bits & 0x01 != 0
    case 1 => b.bits & 0x02 != 0
    case 2 => b.bits & 0x04 != 0
    case 3 => b.bits & 0x08 != 0
    case 4 => b.bits & 0x10 != 0
    case 5 => b.bits & 0x20 != 0
    case 6 => b.bits & 0x40 != 0
    case _ => b.bits & 0x80 != 0
  }

  function SetBit(b: Byte, i: int): Byte
    requires 0 <= i < 8
  {
    match i
    case 0 => Byte(b.bits | 0x01)
    case 1 => Byte(b.bits | 0x02)
    case 2 => Byte(b.bits | 0x04)
    case 3 => Byte(b.bits | 0x08)
    case 4 => Byte(b.bits | 0x10)
    case 5 => Byte(b.bits | 0x20)
    case 6 => Byte(b.bits | 0x40)
    case _ => Byte(b.bits | 0x80)
  }

  lemma GetSetBit(b: Byte, i: int, k: int)
    requires 0 <= i < 8 && 0 <= k < 8
    ensures GetBit(SetBit(b, i), k) == (k == i || GetBit(b, k))
  {}

  lemma ZeroBits(k: int)
    requires 0 <= k < 8
    ensures !GetBit(ZERO, k)
  {}

  lemma SameBits(a: Byte, b: Byte)
    requires forall k :: 0 <= k < 8 ==> GetBit(a, k) == GetBit(b, k)
    ensures a == b
  {
    assert GetBit(a, 0) == GetBit(b, 0) && GetBit(a, 1) == GetBit(b, 1);
    assert GetBit(a, 2) == GetBit(b, 2) && GetBit(a, 3) == GetBit(b, 3);
    assert GetBit(a, 4) == GetBit(b, 4) && GetBit(a, 5) == GetBit(b, 5);
    assert GetBit(a, 6) == GetBit(b, 6) && GetBit(a, 7) == GetBit(b, 7);
  }

  function One(b: bool): nat { if b then 1 else 0 }

  lemma ByteSum(b: Byte)
    ensures b.bits as int
         == 128 * One(GetBit(b, 7)) + 64 * One(GetBit(b, 6)) + 32 * One(GetBit(b, 5)) + 16 * One(GetBit(b, 4))
            + 8 * One(GetBit(b, 3)) + 4 * One(GetBit(b, 2)) + 2 * One(GetBit(b, 1)) + One(GetBit(b, 0))
  {}

  lemma ValueNext(s: seq<bool>, k: nat)
    requires k < |s|
    ensures Bits.ValueOf(s[..k + 1]) == 2 * Bits.ValueOf(s[..k]) + One(s[k])
  {
    assert s[..k + 1][..k] == s[..k];
  }

  lemma TwoMore(s: seq<bool>, k: nat)
    requires k + 2 <= |s|
    ensures Bits.ValueOf(s[..k + 2]) == 4 * Bits.ValueOf(s[..k]) + 2 * One(s[k]) + One(s[k + 1])
  {
    hide Bits.ValueOf, One;
    ValueNext(s, k);
    ValueNext(s, k + 1);
  }

  lemma EightValue(s: seq<bool>)
    requires |s| == 8
    ensures Bits.ValueOf(s) == 128 * One(s[0]) + 64 * One(s[1]) + 32 * One(s[2]) + 16 * One(s[3])
                               + 8 * One(s[4]) + 4 * One(s[5]) + 2 * One(s[6]) + One(s[7])
  {
    hide Bits.ValueOf, One;
    NoValue(s);
    TwoMore(s, 0);
    TwoMore(s, 2);
    TwoMore(s, 4);
    TwoMore(s, 6);
    assert s[..8] == s;
  }

  /** The bits of a byte, most significant first, spell its value. */
  lemma ByteValue(b: Byte)
    ensures Bits.ValueOf(BitString([b])) == b.bits as int
  {
    hide GetBit, One, BitString, Bits.ValueOf;
    var s := BitString([b]);
    assert s[0] == GetBit(b, 7) && s[1] == GetBit(b, 6) && s[2] == GetBit(b, 5) && s[3] == GetBit(b, 4);
    assert s[4] == GetBit(b, 3) && s[5] == GetBit(b, 2) && s[6] == GetBit(b, 1) && s[7] == GetBit(b, 0);
    EightValue(s);
    ByteSum(b);
  }

  lemma NoValue(s: seq<bool>)
    ensures Bits.ValueOf(s[..0]) == 0
  {}

  /** All bits of a byte sequence, big endian within each byte. */
  function BitString(bytes: seq<Byte>): (bits: seq<bool>)
    ensures |bits| == 8 * |bytes|
    ensures forall i :: 0 <= i < |bits| ==> bits[i] == GetBit(bytes[i / 8], 7 - i % 8)
  {
    seq(8 * |bytes|, i requires 0 <= i < 8 * |bytes| => GetBit(bytes[i / 8], 7 - i % 8))
  }

  /** Bytes are determined by their bits. */
  lemma BitStringInjective(a: seq<Byte>, b: seq<Byte>)
    requires BitString(a) == BitString(b)
    ensures a == b
  {
    hide GetBit, BitString;
    assert |a| == |b| by { assert |BitString(a)| == |BitString(b)|; }
    forall j | 0 <= j < |a|
      ensures a[j] == b[j]
    {
      forall k | 0 <= k < 8
        ensures GetBit(a[j], k) == GetBit(b[j], k)
      {
        var i := 8 * j + (7 - k);
        assert i / 8 == j && i % 8 == 7 - k;
        assert BitString(a)[i] == BitString(b)[i];
      }
      SameBits(a[j], b[j]);
    }
  }

  /** Packs bits into bytes in big endian, or-ing each bit into its place. */
  method PackBits(bits: seq<bool>) returns (bytes: seq<Byte>)
    requires |bits| % 8 == 0
    ensures BitString(bytes) == bits
  {
    hide GetBit, SetBit, BitString;
    bytes := seq(|bits| / 8, _ => ZERO);
    forall k | 0 <= k < |bits|
      ensures !GetBit(bytes[k / 8], 7 - k % 8)
    {
      ZeroBits(7 - k % 8);
    }
    for i := 0 to |bits|
      invariant |bytes| == |bits| / 8
      invariant forall k :: 0 <= k < |bits| ==> GetBit(bytes[k / 8], 7 - k % 8) == (k < i && bits[k])
    {
      if bits[i] {
        var before := bytes;
        bytes := bytes[i / 8 := SetBit(bytes[i / 8], 7 - i % 8)];
        forall k | 0 <= k < |bits|
          ensures GetBit(bytes[k / 8], 7 - k % 8) == (k < i + 1 && bits[k])
        {
          if k / 8 == i / 8 {
            GetSetBit(before[i / 8], 7 - i % 8, 7 - k % 8);
          }
        }
      }
    }
  }

  function WithBit(b: Byte, i: int, v: bool): Byte
    requires 0 <= i < 8
  {
    if v then SetBit(b, i) else b
  }

  lemma GetWithBit(b: Byte, i: int, v: bool, k: int)
    requires 0 <= i < 8 && 0 <= k < 8 && !GetBit(b, i)
    ensures GetBit(WithBit(b, i, v), k) == if k == i then v else GetBit(b, k)
  {
    GetSetBit(b, i, k);
  }

  /** The byte whose top bits, from bit 7 down, are the given ones. */
  function ByteOf(bits: seq<bool>): Byte
    requires |bits| <= 8
  {
    if bits == [] then ZERO else WithBit(ByteOf(bits[..|bits| - 1]), 8 - |bits|, bits[|bits| - 1])
  }

  lemma {:induction false} ByteOfBit(bits: seq<bool>, k: int)
    requires |bits| <= 8 && 0 <= k < 8
    ensures GetBit(ByteOf(bits), 7 - k) == (k < |bits| && bits[k])
  {
    hide GetBit, WithBit;
    if bits == [] {
      ZeroBits(7 - k);
    } else {
      var l := |bits| - 1;
      ByteOfBit(bits[..l], k);
      ByteOfBit(bits[..l], l);
      GetWithBit(ByteOf(bits[..l]), 8 - |bits|, bits[l], 7 - k);
    }
  }

  /** The bytes with a given bit string. */
  function BytesOf(bits: seq<bool>): (bytes: seq<Byte>)
    requires |bits| % 8 == 0
    ensures |bytes| == |bits| / 8
  {
    seq(|bits| / 8, j requires 0 <= j < |bits| / 8 => ByteOf(bits[8 * j..8 * j + 8]))
  }

  lemma BitStringOfBytes(bits: seq<bool>)
    requires |bits| % 8 == 0
    ensures BitString(BytesOf(bits)) == bits
  {
    hide GetBit, BitString, ByteOf;
    var bytes := BytesOf(bits);
    forall i | 0 <= i < |bits|
      ensures BitString(bytes)[i] == bits[i]
    {
      var j := i / 8;
      ByteOfBit(bits[8 * j..8 * j + 8], i % 8);
    }
  }

  lemma BytesOfBitString(bytes: seq<Byte>)
    ensures BytesOf(BitString(bytes)) == bytes
  {
    hide BytesOf, BitString;
    BitStringOfBytes(BitString(bytes));
    BitStringInjective(BytesOf(BitString(bytes)), bytes);
  }
}
