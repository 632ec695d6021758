/** The minimum distance of the Reed-Solomon code: a Vandermonde system eliminated one
    unknown at a time. */
module CodeDistance {
  import opened GaloisField
  import opened Polynomials
  import opened ReedSolomon

  /** How many coefficients are nonzero. */
  function Weight(p: Poly): nat {
    if p == [] then 0 else Weight(p[..|p| - 1]) + if p[|p| - 1] == ZERO then 0 else 1
  }

  /** How many positions of two equally long blocks differ. */
  function Distance(p: seq<Byte>, q: seq<Byte>): nat
    requires |p| == |q|
  {
    if p == [] then 0
    else Distance(p[..|p| - 1], q[..|q| - 1]) + if p[|p| - 1] == q[|q| - 1] then 0 else 1
  }

  ghost predicate Distinct(xs: seq<Byte>) {
    forall i, j :: 0 <= i < j < |xs| ==> xs[i] != xs[j]
  }

  /** c_0 x_0^i + c_1 x_1^i + ... */
  function PowerSum(cs: Poly, xs: seq<Byte>, i: nat): Byte
    requires |cs| == |xs|
  {
    if cs == [] then ZERO
    else
      var l := |cs| - 1;
      Add(PowerSum(cs[..l], xs[..l], i), Mul(cs[l], Pow(xs[l], i)))
  }

  /** c_j (x + x_j): what remains of the unknown c_j when x times one equation is added to the next. */
  function Twist(cs: Poly, xs: seq<Byte>, x: Byte): (t: Poly)
    requires |cs| == |xs|
    ensures |t| == |cs|
    ensures forall j :: 0 <= j < |t| ==> t[j] == Mul(cs[j], Add(x, xs[j]))
  {
    seq(|cs|, j requires 0 <= j < |cs| => Mul(cs[j], Add(x, xs[j])))
  }

  lemma TwistTerm(c: Byte, x: Byte, y: Byte, p: Byte)
    ensures Mul(Mul(c, Add(x, y)), p) == Add(Mul(x, Mul(c, p)), Mul(c, Mul(p, y)))
  {
    hide Add, Mul;
    MulAddRight(c, x, y);
    MulAddLeft(Mul(c, x), Mul(c, y), p);
    MulComm(c, x);
    MulAssoc(x, c, p);
    MulAssoc(c, y, p);
    MulComm(y, p);
  }

  lemma {:induction false} TwistSum(cs: Poly, xs: seq<Byte>, x: Byte, i: nat)
    requires |cs| == |xs|
    ensures PowerSum(Twist(cs, xs, x), xs, i) == Add(Mul(x, PowerSum(cs, xs, i)), PowerSum(cs, xs, i + 1))
  {
    hide Add, Mul, Twist;
    if cs == [] {
      MulZero(x);
      AddZero(ZERO);
    } else {
      var l := |cs| - 1;
      TwistSum(cs[..l], xs[..l], x, i);
      assert Twist(cs, xs, x)[..l] == Twist(cs[..l], xs[..l], x);
      var s, s' := PowerSum(cs[..l], xs[..l], i), PowerSum(cs[..l], xs[..l], i + 1);
      var p := Pow(xs[l], i);
      assert Pow(xs[l], i + 1) == Mul(p, xs[l]);
      TwistTerm(cs[l], x, xs[l], p);
      MulAddRight(x, s, Mul(cs[l], p));
      AddSwap(Mul(x, s), s', Mul(x, Mul(cs[l], p)), Mul(cs[l], Mul(p, xs[l])));
    }
  }

  /** Twisting by an x that differs from every locator keeps every nonzero coefficient nonzero. */
  lemma {:induction false} TwistWeight(cs: Poly, xs: seq<Byte>, x: Byte)
    requires |cs| == |xs|
    requires forall j :: 0 <= j < |xs| ==> xs[j] != x
    ensures Weight(Twist(cs, xs, x)) == Weight(cs)
  {
    hide Add, Mul, Twist;
    if cs != [] {
      var l := |cs| - 1;
      TwistWeight(cs[..l], xs[..l], x);
      assert Twist(cs, xs, x)[..l] == Twist(cs[..l], xs[..l], x);
      TwistZero(cs[l], x, xs[l]);
    }
  }

  lemma TwistZero(c: Byte, x: Byte, y: Byte)
    requires x != y
    ensures Mul(c, Add(x, y)) == ZERO <==> c == ZERO
  {
    hide Add, Mul;
    AddSelf(x, y);
    NoZeroDivisors(c, Add(x, y));
  }

  /** With distinct locators, n vanishing power sums admit no solution with between 1 and n nonzero coefficients. */
  lemma {:induction false} Vandermonde(cs: Poly, xs: seq<Byte>, n: nat)
    requires |cs| == |xs| && Distinct(xs) && Weight(cs) <= n
    requires forall i :: 0 <= i < n ==> PowerSum(cs, xs, i) == ZERO
    ensures cs == Zeros(|cs|)
    decreases |cs|
  {
    hide Add, Mul, Twist, Zeros, Pow;
    if cs != [] {
      var l := |cs| - 1;
      if cs[l] == ZERO {
        forall i | 0 <= i < n
          ensures PowerSum(cs[..l], xs[..l], i) == ZERO
        {
          DropZero(cs, xs, i);
        }
        Vandermonde(cs[..l], xs[..l], n);
        assert cs == cs[..l] + [ZERO];
      } else {
        var x := xs[l];
        var t := Twist(cs, xs, x);
        assert t[..l] == Twist(cs[..l], xs[..l], x);
        TwistWeight(cs[..l], xs[..l], x);
        AddSelf(x, x);
        MulZero(cs[l]);
        forall i | 0 <= i < n - 1
          ensures PowerSum(t[..l], xs[..l], i) == ZERO
        {
          assert PowerSum(cs, xs, i) == PowerSum(cs, xs, i + 1) == ZERO;
          TwistSum(cs, xs, x, i);
          MulZero(x);
          AddZero(ZERO);
          DropZero(t, xs, i);
        }
        Vandermonde(t[..l], xs[..l], n - 1);
        LoneCoefficient(cs, xs, x);
      }
    }
  }

  lemma DropZero(cs: Poly, xs: seq<Byte>, i: nat)
    requires |cs| == |xs| > 0 && cs[|cs| - 1] == ZERO
    ensures PowerSum(cs, xs, i) == PowerSum(cs[..|cs| - 1], xs[..|cs| - 1], i)
  {
    hide Add, Mul, Pow;
    var l := |cs| - 1;
    MulZero(Pow(xs[l], i));
    AddZero(PowerSum(cs[..l], xs[..l], i));
  }

  /** If elimination leaves nothing, the eliminated coefficient stood alone, and then its equation says it is zero. */
  lemma LoneCoefficient(cs: Poly, xs: seq<Byte>, x: Byte)
    requires |cs| == |xs| > 0 && Distinct(xs) && x == xs[|xs| - 1]
    requires Twist(cs[..|cs| - 1], xs[..|cs| - 1], x) == Zeros(|cs| - 1)
    ensures PowerSum(cs, xs, 0) == cs[|cs| - 1]
  {
    hide Add, Mul, Twist, Zeros;
    var l := |cs| - 1;
    forall j | 0 <= j < l
      ensures cs[j] == ZERO
    {
      assert Twist(cs[..l], xs[..l], x)[j] == ZERO;
      TwistZero(cs[j], x, xs[j]);
    }
    ZeroSum(cs[..l], xs[..l], 0);
    assert Pow(xs[l], 0) == ONE;
    MulOne(cs[l]);
    AddZero(cs[l]);
  }

  lemma {:induction false} ZeroSum(cs: Poly, xs: seq<Byte>, i: nat)
    requires |cs| == |xs| && forall j :: 0 <= j < |cs| ==> cs[j] == ZERO
    ensures PowerSum(cs, xs, i) == ZERO
  {
    hide Add, Mul, Pow;
    if cs != [] {
      ZeroSum(cs[..|cs| - 1], xs[..|cs| - 1], i);
      DropZero(cs, xs, i);
    }
  }

  // ----- from polynomial evaluation to power sums -----

  /** The locator of position j in a block of m bytes followed by `after` more: 2^(after + m - 1 - j). */
  function Locators(m: nat, after: nat): (xs: seq<Byte>)
    ensures |xs| == m
    ensures forall j :: 0 <= j < m ==> xs[j] == Exp(after + m - 1 - j)
  {
    seq(m, j requires 0 <= j < m => Exp(after + m - 1 - j))
  }

  lemma LocatorsDistinct(m: nat)
    requires m <= 255
    ensures Distinct(Locators(m, 0))
  {
    hide Exp, Locators;
    forall i, j | 0 <= i < j < m
      ensures Locators(m, 0)[i] != Locators(m, 0)[j]
    {
      ExpDistinct(m - 1 - j, m - 1 - i);
    }
  }

  lemma {:induction false} EvalIsPowerSum(c: Poly, i: nat, after: nat)
    ensures PowerSum(c, Locators(|c|, after), i) == Mul(Eval(c, Exp(i)), Exp(i * after))
  {
    hide Add, Mul, Exp, Locators, Pow;
    if c == [] {
      MulZero(Exp(i * after));
    } else {
      var l := |c| - 1;
      var a, e := Exp(i), Exp(i * after);
      EvalIsPowerSum(c[..l], i, after + 1);
      assert Locators(|c|, after)[..l] == Locators(l, after + 1);
      PowExp(after, i);
      assert i * after + i == i * (after + 1) && after * i == i * after;
      ExpAdd(i, i * after);
      var v := Eval(c[..l], a);
      MulAssoc(v, a, e);
      MulAddLeft(Mul(v, a), c[l], e);
    }
  }

  // ----- the distance of the code -----

  /** The first n syndromes of the block vanish. */
  ghost predicate InCode(c: Poly, n: nat) {
    forall i :: 0 <= i < n ==> Eval(c, Exp(i)) == ZERO
  }

  lemma CodewordInCode(data: seq<Byte>, eccLen: nat)
    requires eccLen > 0
    ensures InCode(Codeword(data, eccLen), eccLen)
  {
    hide Codeword, Eval, Exp;
    forall i | 0 <= i < eccLen
      ensures Eval(Codeword(data, eccLen), Exp(i)) == ZERO
    {
      SyndromesVanish(data, eccLen, i);
    }
  }

  /** A nonzero block of at most 255 bytes on which the first n syndromes vanish has more than n nonzero bytes. */
  lemma WeightBound(c: Poly, n: nat)
    requires |c| <= 255 && InCode(c, n)
    ensures c == Zeros(|c|) || Weight(c) > n
  {
    hide Eval, Exp, Mul, Add, Locators;
    if Weight(c) <= n {
      LocatorsDistinct(|c|);
      forall i | 0 <= i < n
        ensures PowerSum(c, Locators(|c|, 0), i) == ZERO
      {
        EvalIsPowerSum(c, i, 0);
        MulZero(Exp(i * 0));
      }
      Vandermonde(c, Locators(|c|, 0), n);
    }
  }

  lemma {:induction false} DistanceIsWeight(p: Poly, q: Poly)
    requires |p| == |q|
    ensures Weight(Sum(p, q)) == Distance(p, q)
  {
    hide Add, Sum;
    if p != [] {
      var l := |p| - 1;
      DistanceIsWeight(p[..l], q[..l]);
      assert Sum(p, q)[..l] == Sum(p[..l], q[..l]);
      AddSelf(p[l], q[l]);
    }
  }

  /** Any two blocks of at most 255 bytes whose first n syndromes vanish are equal or differ in more than n places. */
  lemma CodewordsFarApart(c: Poly, d: Poly, n: nat)
    requires |c| == |d| <= 255 && InCode(c, n) && InCode(d, n)
    ensures c == d || Distance(c, d) > n
  {
    hide Eval, Exp, Add, Sum, Zeros;
    forall i | 0 <= i < n
      ensures Eval(Sum(c, d), Exp(i)) == ZERO
    {
      assert Eval(c, Exp(i)) == Eval(d, Exp(i)) == ZERO;
      EvalSum(c, d, Exp(i));
      AddZero(ZERO);
    }
    WeightBound(Sum(c, d), n);
    DistanceIsWeight(c, d);
    if Sum(c, d) == Zeros(|c|) {
      forall j | 0 <= j < |c|
        ensures c[j] == d[j]
      {
        assert Sum(c, d)[j] == ZERO;
        AddSelf(c[j], d[j]);
      }
    }
  }

  /** Distinct data blocks are encoded at distance at least eccLen + 1. */
  lemma MinimumDistance(d1: seq<Byte>, d2: seq<Byte>, eccLen: nat)
    requires eccLen > 0 && |d1| == |d2| && |d1| + eccLen <= 255
    ensures d1 != d2 ==> Distance(Codeword(d1, eccLen), Codeword(d2, eccLen)) >= eccLen + 1
  {
    hide Codeword, InCode;
    CodewordInCode(d1, eccLen);
    CodewordInCode(d2, eccLen);
    CodewordsFarApart(Codeword(d1, eccLen), Codeword(d2, eccLen), eccLen);
  }

  lemma {:induction false} SharedPrefix(p: seq<Byte>, q: seq<Byte>, k: nat)
    requires k <= |p| == |q| && p[..k] == q[..k]
    ensures Distance(p, q) <= |p| - k
    decreases |p|
  {
    if k < |p| {
      var l := |p| - 1;
      assert p[..l][..k] == p[..k] && q[..l][..k] == q[..k];
      SharedPrefix(p[..l], q[..l], k);
    } else if k > 0 {
      assert p == p[..k] && q == q[..k];
      SharedPrefix(p[..k - 1], q[..k - 1], k - 1);
    }
  }

  /** The code is exactly the set of blocks on which the first eccLen syndromes vanish. */
  lemma ParityCheck(c: seq<Byte>, eccLen: nat)
    requires 0 < eccLen <= |c| <= 255
    ensures InCode(c, eccLen) <==> c == Codeword(c[..|c| - eccLen], eccLen)
  {
    hide Codeword, Distance, InCode;
    var k := |c| - eccLen;
    var d := Codeword(c[..k], eccLen);
    CodewordInCode(c[..k], eccLen);
    if InCode(c, eccLen) {
      CodewordsFarApart(c, d, eccLen);
      SharedPrefix(c, d, k);
    }
  }

  lemma {:induction false} Triangle(p: seq<Byte>, q: seq<Byte>, r: seq<Byte>)
    requires |p| == |q| == |r|
    ensures Distance(p, q) <= Distance(p, r) + Distance(q, r)
  {
    if p != [] {
      var l := |p| - 1;
      Triangle(p[..l], q[..l], r[..l]);
    }
  }

  /** A received block with at most eccLen / 2 wrong bytes determines the data that was sent. */
  lemma UniqueCorrection(d1: seq<Byte>, d2: seq<Byte>, eccLen: nat, received: seq<Byte>)
    requires eccLen > 0 && |d1| == |d2| && |d1| + eccLen == |received| <= 255
    requires Distance(Codeword(d1, eccLen), received) <= eccLen / 2
    requires Distance(Codeword(d2, eccLen), received) <= eccLen / 2
    ensures d1 == d2
  {
    hide Codeword, Distance;
    MinimumDistance(d1, d2, eccLen);
    Triangle(Codeword(d1, eccLen), Codeword(d2, eccLen), received);
  }
}
