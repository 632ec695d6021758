/** Polynomials over GF(2^8), stored as the encoder stores them: coefficients from the
    highest power to the lowest. */
module Polynomials {
  import opened GaloisField

  type Poly = seq<Byte>

  function Zeros(n: nat): (p: Poly)
    ensures |p| == n
    ensures forall i :: 0 <= i < n ==> p[i] == ZERO
  {
    seq(n, _ => ZERO)
  }

  /** Coefficient-wise sum. */
  function Sum(p: Poly, q: Poly): (r: Poly)
    requires |p| == |q|
    ensures |r| == |p|
    ensures forall i :: 0 <= i < |r| ==> r[i] == Add(p[i], q[i])
  {
    seq(|p|, i requires 0 <= i < |p| => Add(p[i], q[i]))
  }

  function Scale(p: Poly, c: Byte): (r: Poly)
    ensures |r| == |p|
    ensures forall i :: 0 <= i < |r| ==> r[i] == Mul(p[i], c)
  {
    seq(|p|, i requires 0 <= i < |p| => Mul(p[i], c))
  }

  /** The product of two polynomials, by long multiplication over the coefficients of q. */
  function Product(q: Poly, g: Poly): (r: Poly)
    requires |g| > 0
    ensures |r| == |q| + |g| - 1
  {
    if q == [] then Zeros(|g| - 1)
    else
      var m := |q| - 1;
      Sum(Product(q[..m], g) + [ZERO], Zeros(m) + Scale(g, q[m]))
  }

  /** Value at a, by Horner's rule. */
  function Eval(p: Poly, a: Byte): Byte {
    if p == [] then ZERO else Add(Mul(Eval(p[..|p| - 1], a), a), p[|p| - 1])
  }

  /** (x - 2^0)(x - 2^1)...(x - 2^(n-1)). */
  function Generator(n: nat): (g: Poly)
    ensures |g| == n + 1
  {
    if n == 0 then [ONE] else Product(Generator(n - 1), [ONE, Exp(n - 1)])
  }

  // ----- evaluation is a ring homomorphism -----

  lemma EvalLast(p: Poly, c: Byte, a: Byte)
    ensures Eval(p + [c], a) == Add(Mul(Eval(p, a), a), c)
  {
    hide Add, Mul;
    assert (p + [c])[..|p|] == p;
  }

  lemma {:induction false} EvalSum(p: Poly, q: Poly, a: Byte)
    requires |p| == |q|
    ensures Eval(Sum(p, q), a) == Add(Eval(p, a), Eval(q, a))
  {
    hide Add, Mul;
    if p == [] {
      AddZero(ZERO);
    } else {
      var m := |p| - 1;
      EvalSum(p[..m], q[..m], a);
      assert Sum(p, q)[..m] == Sum(p[..m], q[..m]);
      var u, v := Eval(p[..m], a), Eval(q[..m], a);
      MulAddLeft(u, v, a);
      AddSwap(Mul(u, a), Mul(v, a), p[m], q[m]);
    }
  }

  lemma {:induction false} EvalScale(p: Poly, c: Byte, a: Byte)
    ensures Eval(Scale(p, c), a) == Mul(Eval(p, a), c)
  {
    hide Add, Mul;
    if p == [] {
      MulZero(c);
    } else {
      var m := |p| - 1;
      EvalScale(p[..m], c, a);
      assert Scale(p, c)[..m] == Scale(p[..m], c);
      var u := Eval(p[..m], a);
      MulAddLeft(Mul(u, a), p[m], c);
      MulAssoc(u, a, c);
      MulComm(a, c);
      MulAssoc(u, c, a);
    }
  }

  lemma {:induction false} EvalZeroPrefix(n: nat, p: Poly, a: Byte)
    ensures Eval(Zeros(n) + p, a) == Eval(p, a)
  {
    hide Add, Mul;
    if p == [] {
      assert Zeros(n) + p == Zeros(n);
      if n > 0 {
        EvalZeroPrefix(n - 1, [], a);
        assert Zeros(n - 1) + [] == Zeros(n - 1) == Zeros(n)[..n - 1];
        MulZero(a);
        AddZero(ZERO);
      }
    } else {
      var m := |p| - 1;
      EvalZeroPrefix(n, p[..m], a);
      assert (Zeros(n) + p)[..n + m] == Zeros(n) + p[..m];
    }
  }

  lemma {:induction false} EvalProduct(q: Poly, g: Poly, a: Byte)
    requires |g| > 0
    ensures Eval(Product(q, g), a) == Mul(Eval(q, a), Eval(g, a))
  {
    hide Add, Mul;
    if q == [] {
      EvalZeroPrefix(|g| - 1, [], a);
      assert Zeros(|g| - 1) + [] == Zeros(|g| - 1);
      MulZero(Eval(g, a));
    } else {
      var m := |q| - 1;
      var p := Product(q[..m], g);
      EvalProduct(q[..m], g, a);
      EvalLast(p, ZERO, a);
      AddZero(Mul(Eval(p, a), a));
      EvalScale(g, q[m], a);
      EvalZeroPrefix(m, Scale(g, q[m]), a);
      EvalSum(p + [ZERO], Zeros(m) + Scale(g, q[m]), a);
      var u, v := Eval(q[..m], a), Eval(g, a);
      MulAssoc(u, v, a);
      MulComm(v, a);
      MulAssoc(u, a, v);
      MulComm(v, q[m]);
      MulAddLeft(Mul(u, a), q[m], v);
    }
  }

  // ----- the generator polynomial -----

  lemma EvalLinear(r: Byte, a: Byte)
    ensures Eval([ONE, r], a) == Add(a, r)
  {
    hide Add, Mul;
    EvalLast([ONE], r, a);
    assert [ONE] + [r] == [ONE, r];
    EvalLast([], ONE, a);
    assert [] + [ONE] == [ONE];
    MulZero(a);
    AddZero(ONE);
    MulOne(a);
  }

  /** The product of the factors (a - 2^i), i < n. */
  function RootProduct(a: Byte, n: nat): Byte {
    if n == 0 then ONE else Mul(RootProduct(a, n - 1), Add(a, Exp(n - 1)))
  }

  lemma {:induction false} EvalGenerator(n: nat, a: Byte)
    ensures Eval(Generator(n), a) == RootProduct(a, n)
  {
    hide Add, Mul;
    if n == 0 {
      EvalLast([], ONE, a);
      assert [] + [ONE] == [ONE];
      MulZero(a);
      AddZero(ONE);
    } else {
      EvalGenerator(n - 1, a);
      EvalProduct(Generator(n - 1), [ONE, Exp(n - 1)], a);
      EvalLinear(Exp(n - 1), a);
    }
  }

  ghost predicate IsRoot(n: nat, a: Byte) {
    exists i :: 0 <= i < n && a == Exp(i)
  }

  /** The roots of the generator are exactly 2^0, ..., 2^(n-1). */
  lemma {:induction false} GeneratorRoots(n: nat, a: Byte)
    ensures Eval(Generator(n), a) == ZERO <==> IsRoot(n, a)
  {
    hide Add, Mul, Exp, Eval, Generator;
    EvalGenerator(n, a);
    if n > 0 {
      GeneratorRoots(n - 1, a);
      EvalGenerator(n - 1, a);
      NoZeroDivisors(RootProduct(a, n - 1), Add(a, Exp(n - 1)));
      AddSelf(a, Exp(n - 1));
      assert IsRoot(n, a) <==> IsRoot(n - 1, a) || a == Exp(n - 1);
    }
  }

  /** The coefficient at index k, or zero outside the stored range. */
  function Coefficient(p: Poly, k: int): Byte {
    if 0 <= k < |p| then p[k] else ZERO
  }

  lemma CoefficientAt(p: Poly, k: int)
    ensures 0 <= k < |p| ==> Coefficient(p, k) == p[k]
    ensures !(0 <= k < |p|) ==> Coefficient(p, k) == ZERO
  {}

  /** Multiplying by a linear factor, coefficient by coefficient: the inner loop of the divisor computation. */
  lemma {:induction false} LinearFactor(p: Poly, r: Byte, j: nat)
    requires j <= |p|
    ensures Product(p, [ONE, r])[j] == Add(Mul(Coefficient(p, j - 1), r), Coefficient(p, j))
    decreases |p|
  {
    hide Add, Mul, Coefficient;
    CoefficientAt(p, j - 1);
    CoefficientAt(p, j);
    MulZero(r);
    if p == [] {
      AddZero(ZERO);
    } else {
      var m := |p| - 1;
      var c := p[m];
      var q := p[..m];
      MulOne(c);
      MulComm(r, c);
      assert Scale([ONE, r], c) == [c, Mul(c, r)];
      if j <= m {
        LinearFactor(q, r, j);
        CoefficientAt(q, j - 1);
        CoefficientAt(q, j);
        AddZero(Product(q, [ONE, r])[j]);
        AddZero(Mul(Coefficient(q, j - 1), r));
      } else {
        AddComm(ZERO, Mul(c, r));
      }
    }
  }

  lemma {:induction false} GeneratorMonic(n: nat)
    ensures Generator(n)[0] == ONE
  {
    hide Add, Mul;
    if n > 0 {
      GeneratorMonic(n - 1);
      LinearFactor(Generator(n - 1), Exp(n - 1), 0);
      MulZero(Exp(n - 1));
      AddZero(ONE);
    }
  }
}
