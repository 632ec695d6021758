/** Reed-Solomon error correction codewords: the three in-place loops of the encoder,
    the polynomial algebra they refine, and the distance of the resulting code. */
module ReedSolomon {
  import opened GaloisField
  import opened Polynomials
  import opened Division
  import opened Results

  // ----- multiplication -----

  function ShiftRight(y: Byte, i: nat): Byte
    requires i <= 8
  {
    Byte(y.bits >> i)
  }

  /** One round of the loop: shift and reduce the 16-bit accumulator, then add x if the low bit of y is set. */
  function PeasantRound(z: bv16, y: Byte, x: Byte): bv16 {
    (z << 1) ^ ((z >> 7) * 0x11D) ^ ((y.bits & 1) * x.bits) as bv16
  }

  lemma PeasantBits(z: bv16, h: Byte, y: Byte, x: Byte)
    requires z == h.bits as bv16
    ensures (z << 1) ^ ((z >> 7) * 0x11D) ^ ((y.bits & 1) * x.bits) as bv16 == Add(Double(h), Gate(LowBit(y), x)).bits as bv16
  {
    assert LowBit(y) ==> (y.bits & 1) * x.bits == x.bits;
    assert !LowBit(y) ==> (y.bits & 1) * x.bits == 0;
  }

  lemma PeasantRoundIsHornerStep(h: Byte, y: Byte, x: Byte)
    ensures PeasantRound(Widen(h), y, x) == Widen(Add(Double(h), Gate(LowBit(y), x)))
  {
    hide Add, Double, Gate, LowBit;
    PeasantBits(Widen(h), h, y, x);
  }

  lemma ShiftRightHalf(y: Byte, i: nat)
    requires i < 8
    ensures Half(ShiftRight(y, i)) == ShiftRight(y, i + 1)
  {
    if i == 0 {} else if i == 1 {} else if i == 2 {} else if i == 3 {}
    else if i == 4 {} else if i == 5 {} else if i == 6 {} else {}
  }

  lemma ShiftRightZero(y: Byte)
    ensures ShiftRight(y, 0) == y
  {}

  function Widen(b: Byte): bv16 { b.bits as bv16 }

  lemma NarrowWiden(b: Byte)
    ensures Widen(b) < 0x100 && Byte(Widen(b) as bv8) == b
  {}

  lemma HornerStart(x: Byte, y: Byte)
    ensures Widen(Horner(x, y, 0)) == 0
    ensures Mul(x, y) == Horner(x, y, 8)
  {}

  /** Russian peasant multiplication on an accumulator wider than a byte; the final value fits a byte. */
  method Multiply(x: Byte, y: Byte) returns (r: Byte)
    ensures r == Mul(x, y)
  {
    hide *;
    var z: bv16 := 0;
    var i := 7;
    HornerStart(x, ShiftRight(y, 8));
    while i >= 0
      invariant -1 <= i <= 7
      invariant z == Widen(Horner(x, ShiftRight(y, i + 1), 7 - i))
    {
      ShiftRightHalf(y, i);
      HornerStep(x, ShiftRight(y, i), 8 - i);
      PeasantRoundIsHornerStep(Horner(x, ShiftRight(y, i + 1), 7 - i), ShiftRight(y, i), x);
      z := PeasantRound(z, ShiftRight(y, i), x);
      i := i - 1;
    }
    ShiftRightZero(y);
    HornerStart(x, y);
    NarrowWiden(Mul(x, y));
    r := Byte(z as bv8);
  }

  // ----- the divisor -----

  /** The product of the first i linear factors, right-aligned in degree + 1 coefficients. */
  function Aligned(degree: nat, i: nat): (p: Poly)
    requires i <= degree
    ensures |p| == degree + 1
  {
    Zeros(degree - i) + Generator(i)
  }

  lemma AlignedStep(degree: nat, i: nat, k: nat)
    requires i < degree && k < degree
    ensures Aligned(degree, i + 1)[k + 1] ==
            Add(Mul(Aligned(degree, i)[k + 1], Exp(i)), Coefficient(Aligned(degree, i), k + 2))
  {
    hide Add, Mul, Exp, Product, Coefficient;
    var j := k + 2 + i - degree;
    CoefficientAt(Aligned(degree, i), k + 2);
    MulZero(Exp(i));
    AddZero(ZERO);
    if j >= 0 {
      LinearFactor(Generator(i), Exp(i), j);
      CoefficientAt(Generator(i), j - 1);
      CoefficientAt(Generator(i), j);
    }
  }

  /** The array after i rounds: the product so far, without the place of the final leading 1. */
  ghost predicate Holds(result: Poly, degree: nat, i: nat)
    requires i <= degree
  {
    result == Aligned(degree, i)[1..]
  }

  lemma HoldsAtStart(degree: nat, result: Poly)
    requires degree > 0 && result == Zeros(degree - 1) + [ONE]
    ensures Holds(result, degree, 0) && Exp(0) == ONE
  {
    assert Generator(0) == [ONE];
    hide Add, Mul, Exp, Generator;
    assert Aligned(degree, 0)[1..] == Zeros(degree - 1) + [ONE];
  }

  lemma HoldsAtEnd(degree: nat, result: Poly)
    requires Holds(result, degree, degree)
    ensures [ONE] + result == Generator(degree)
  {
    hide Add, Mul, Generator;
    GeneratorMonic(degree);
    assert Aligned(degree, degree) == Generator(degree);
  }

  lemma CoefficientTail(p: Poly, k: nat)
    requires |p| > 0
    ensures Coefficient(p[1..], k) == Coefficient(p, k + 1)
  {}

  lemma HoldsAdvance(degree: nat, i: nat, before: Poly, after: Poly)
    requires i < degree && Holds(before, degree, i) && |after| == |before|
    requires forall k :: 0 <= k < |before| ==>
               after[k] == Add(Mul(before[k], Exp(i)), Coefficient(before, k + 1))
    ensures Holds(after, degree, i + 1)
  {
    hide Add, Mul, Exp, Coefficient, Aligned;
    forall k | 0 <= k < degree
      ensures Aligned(degree, i + 1)[k + 1] == after[k]
    {
      AlignedStep(degree, i, k);
      CoefficientTail(Aligned(degree, i), k + 1);
    }
  }

  /** The inner loop: the in-place product by (x - 2^i), the leading coefficient falling off the left end. */
  method MultiplyByLinear(result: array<Byte>, root: Byte, ghost i: nat)
    requires i < result.Length && root == Exp(i) && Holds(result[..], result.Length, i)
    modifies result
    ensures Holds(result[..], result.Length, i + 1)
  {
    hide *;
    for j := 0 to result.Length
      invariant forall k :: 0 <= k < j ==>
                  result[k] == Add(Mul(old(result[k]), root), Coefficient(old(result[..]), k + 1))
      invariant forall k :: j <= k < result.Length ==> result[k] == old(result[k])
    {
      CoefficientAt(old(result[..]), j + 1);
      var product := Multiply(result[j], root);
      result[j] := product;
      if j + 1 < result.Length {
        result[j] := Add(result[j], result[j + 1]);
      } else {
        AddZero(product);
      }
    }
    HoldsAdvance(result.Length, i, old(result[..]), result[..]);
  }

  /** The constant 1 as a polynomial of `degree` coefficients. */
  method Monomial(degree: nat) returns (result: array<Byte>)
    requires degree > 0
    ensures fresh(result) && Holds(result[..], degree, 0) && Exp(0) == ONE
  {
    result := new Byte[degree](_ => ZERO);
    result[degree - 1] := ONE;
    HoldsAtStart(degree, result[..]);
  }

  /** The generator polynomial with its leading 1 dropped; any degree from 1 to 255 is accepted. */
  method ComputeDivisor(degree: int) returns (r: Result<seq<Byte>>)
    ensures r.Ok? <==> 1 <= degree <= 255
    ensures r.Err? ==> r.error == DomainError
    ensures r.Ok? ==> [ONE] + r.value == Generator(degree)
  {
    if degree < 1 || degree > 255 {
      return Err(DomainError);
    }
    hide *;
    var result := Monomial(degree);
    var root := ONE;
    for i := 0 to degree
      invariant root == Exp(i)
      invariant Holds(result[..], degree, i)
    {
      MultiplyByLinear(result, root, i);
      MulTwo(root);
      ExpStep(i + 1);
      root := Multiply(root, Byte(2));
    }
    HoldsAtEnd(degree, result[..]);
    r := Ok(result[..]);
  }

  // ----- the remainder -----

  /** The shift register: erase the head, push a zero, and add the scaled divisor in place. An empty
      divisor has no head to read. */
  method ComputeRemainder(data: seq<Byte>, divisor: seq<Byte>) returns (r: Result<seq<Byte>>)
    ensures r.Ok? <==> |divisor| > 0 || data == []
    ensures r.Err? ==> r.error == OutOfRange
    ensures r.Ok? ==> r.value == if |divisor| > 0 then Remainder(data, divisor) else []
  {
    hide Add, Mul, Sum, Scale, Zeros;
    if |divisor| == 0 {
      return if data == [] then Ok([]) else Err(OutOfRange);
    }
    var result := Zeros(|divisor|);
    for m := 0 to |data|
      invariant |result| == |divisor| && result == Remainder(data[..m], divisor)
    {
      var factor := Add(data[m], result[0]);
      ghost var before := result;
      result := result[1..] + [ZERO];
      ghost var shifted := result;
      for i := 0 to |result|
        invariant |result| == |divisor|
        invariant forall k :: 0 <= k < i ==> result[k] == Add(shifted[k], Mul(divisor[k], factor))
        invariant forall k :: i <= k < |result| ==> result[k] == shifted[k]
      {
        var product := Multiply(divisor[i], factor);
        result := result[i := Add(result[i], product)];
      }
      assert result == Step(before, divisor, data[m]);
      assert data[..m + 1][..m] == data[..m];
    }
    assert data[..|data|] == data;
    r := Ok(result);
  }

  /** A data block with its error correction bytes appended. */
  function Codeword(data: seq<Byte>, eccLen: nat): (c: seq<Byte>)
    requires eccLen > 0
    ensures |c| == |data| + eccLen && c[..|data|] == data
  {
    data + Remainder(data, Generator(eccLen)[1..])
  }

  /** Every syndrome of an encoded block is zero. */
  lemma SyndromesVanish(data: seq<Byte>, n: nat, i: nat)
    requires i < n
    ensures Eval(Codeword(data, n), Exp(i)) == ZERO
  {
    hide Eval, Generator, Exp, Remainder, Add, Mul;
    GeneratorMonic(n);
    assert [ONE] + Generator(n)[1..] == Generator(n);
    GeneratorRoots(n, Exp(i));
    assert IsRoot(n, Exp(i));
    RootOfCodeword(data, Generator(n)[1..], Exp(i));
  }
}
