/** Bit strings, most significant bit first, and the growing bit buffer. */
module Bits {
  import opened Results

  function Pow2(n: nat): (p: nat)
    ensures p > 0
  {
    if n == 0 then 1 else 2 * Pow2(n - 1)
  }

  /** The low `len` bits of v, most significant first. */
  function BitsOf(v: nat, len: nat): (b: seq<bool>)
    ensures |b| == len
    decreases len
  {
    if len == 0 then [] else BitsOf(v / 2, len - 1) + [v % 2 == 1]
  }

  function ValueOf(b: seq<bool>): nat {
    if b == [] then 0 else 2 * ValueOf(b[..|b| - 1]) + if b[|b| - 1] then 1 else 0
  }

  lemma {:induction false} ValueOfBitsOf(v: nat, len: nat)
    requires v < Pow2(len)
    ensures ValueOf(BitsOf(v, len)) == v
    decreases len
  {
    if len > 0 {
      ValueOfBitsOf(v / 2, len - 1);
      assert BitsOf(v, len)[..len - 1] == BitsOf(v / 2, len - 1);
    }
  }

  lemma {:induction false} BitsOfValueOf(b: seq<bool>)
    ensures ValueOf(b) < Pow2(|b|)
    ensures BitsOf(ValueOf(b), |b|) == b
  {
    if b != [] {
      BitsOfValueOf(b[..|b| - 1]);
    }
  }

  lemma DivTwice(v: nat, p: nat)
    requires p > 0
    ensures v / 2 / p == v / (2 * p)
  {
    var q, r := v / 2 / p, v / 2 % p;
    var s := v % 2;
    assert v == 2 * (p * q + r) + s;
    assert v == (2 * p) * q + (2 * r + s);
    UniqueQuotient(v, 2 * p, q, 2 * r + s);
  }

  lemma Monotone(d: nat, a: nat, b: nat)
    requires a <= b
    ensures d * a <= d * b
  {}

  lemma UniqueQuotient(v: nat, d: nat, q: nat, r: nat)
    requires r < d && v == d * q + r
    ensures v / d == q && v % d == r
  {
    var q', r' := v / d, v % d;
    assert d * q' + r' == d * q + r;
    if q' < q {
      Monotone(d, q' + 1, q);
    } else if q' > q {
      Monotone(d, q + 1, q');
    }
  }

  /** Bit k of the string is bit len - 1 - k of the number. */
  lemma {:induction false} BitsOfAt(v: nat, len: nat, k: nat)
    requires k < len
    ensures BitsOf(v, len)[k] == ((v / Pow2(len - 1 - k)) % 2 == 1)
    decreases len
  {
    if k < len - 1 {
      BitsOfAt(v / 2, len - 1, k);
      DivTwice(v, Pow2(len - 2 - k));
    }
  }

  function Zeros(n: nat): (b: seq<bool>)
    ensures |b| == n
  {
    seq(n, _ => false)
  }

  lemma {:induction false} BitsOfZero(n: nat)
    ensures BitsOf(0, n) == Zeros(n)
  {
    if n > 0 {
      BitsOfZero(n - 1);
    }
  }

  /** An appendable sequence of bits. */
  class BitBuffer {
    var bits: seq<bool>

    constructor ()
      ensures bits == []
    {
      bits := [];
    }

    /** Appends the low `len` bits of `val`; a value that does not fit, or a length outside 0..31, is
        refused and leaves the buffer as it was. */
    method AppendBits(val: nat, len: int) returns (r: Result<()>)
      modifies this
      ensures r.Ok? <==> 0 <= len <= 31 && val < Pow2(len)
      ensures r.Err? ==> r.error == DomainError && bits == old(bits)
      ensures r.Ok? ==> bits == old(bits) + BitsOf(val, len)
    {
      if len < 0 || len > 31 || val / Pow2(len) != 0 {
        if 0 <= len <= 31 {
          TopBits(val, Pow2(len));
        }
        return Err(DomainError);
      }
      TopBits(val, Pow2(len));
      var i := len - 1;
      while i >= 0
        invariant -1 <= i < len
        invariant bits == old(bits) + BitsOf(val, len)[..len - 1 - i]
      {
        BitsOfAt(val, len, len - 1 - i);
        bits := bits + [(val / Pow2(i)) % 2 == 1];
        i := i - 1;
      }
      r := Ok(());
    }

    method AppendAll(more: seq<bool>)
      modifies this
      ensures bits == old(bits) + more
    {
      bits := bits + more;
    }
  }

  lemma TopBits(v: nat, p: nat)
    requires p > 0
    ensures v / p == 0 <==> v < p
  {
    if v < p {
      UniqueQuotient(v, p, 0, v);
    }
  }
}
