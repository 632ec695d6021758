/** Polynomial division by a monic divisor as a shift register performs it, and its
    characterisation as the one quotient and remainder that satisfy the division identity. */
module Division {
  import opened GaloisField
  import opened Polynomials

  /** One step of the shift register: consume the byte b. */
  function Step(r: Poly, divisor: Poly, b: Byte): (r': Poly)
    requires |r| == |divisor| > 0
    ensures |r'| == |r|
  {
    Sum(r[1..] + [ZERO], Scale(divisor, Add(b, r[0])))
  }

  function Remainder(data: Poly, divisor: Poly): (r: Poly)
    requires |divisor| > 0
    ensures |r| == |divisor|
  {
    if data == [] then Zeros(|divisor|)
    else Step(Remainder(data[..|data| - 1], divisor), divisor, data[|data| - 1])
  }

  /** The feedback factors, in order. */
  ghost function Quotient(data: Poly, divisor: Poly): (q: Poly)
    requires |divisor| > 0
    ensures |q| == |data|
  {
    if data == [] then []
    else
      var m := |data| - 1;
      Quotient(data[..m], divisor) + [Add(data[m], Remainder(data[..m], divisor)[0])]
  }

  /** q * (x^n + divisor) + r is data * x^n, where n = |divisor|. */
  ghost predicate Divides(data: Poly, divisor: Poly, q: Poly, r: Poly)
    requires |r| == |divisor| > 0 && |q| == |data|
  {
    Sum(Product(q, [ONE] + divisor), Zeros(|data|) + r) == data + Zeros(|divisor|)
  }

  /** The head of the register cancels against the product so far and leaves the data byte. */
  lemma HeadCancels(p: Byte, head: Byte, b: Byte)
    requires Add(p, head) == ZERO
    ensures Add(p, Add(b, head)) == b
  {
    hide Add;
    AddSelf(p, head);
    AddComm(b, head);
    AddCancel(head, b);
  }

  /** The scaled divisor is added to both sides and cancels. */
  lemma TailCancels(p: Byte, s: Byte, d: Byte)
    requires Add(p, s) == ZERO
    ensures Add(Add(p, d), Add(s, d)) == ZERO
  {
    hide Add;
    AddSelf(p, s);
    AddSelf(Add(p, d), Add(s, d));
  }

  /** The division identity after one more data byte, at coefficient i. */
  ghost predicate NextIdentity(data: Poly, divisor: Poly, q: Poly, r: Poly, i: nat)
    requires |r| == |divisor| > 0 && |q| + 1 == |data| && i < |data| + |divisor|
  {
    var m, n, f := |q|, |divisor|, Add(data[|q|], r[0]);
    Add(Add((Product(q, [ONE] + divisor) + [ZERO])[i], (Zeros(m) + Scale([ONE] + divisor, f))[i]),
        (Zeros(m + 1) + Step(r, divisor, data[m]))[i]) == (data + Zeros(n))[i]
  }

  lemma NextIdentityLow(data: Poly, divisor: Poly, q: Poly, r: Poly, i: nat)
    requires |r| == |divisor| > 0 && |q| + 1 == |data| && i < |q|
    requires Divides(data[..|q|], divisor, q, r)
    ensures NextIdentity(data, divisor, q, r, i)
  {
    hide Add, Mul, Product, Sum, Scale, Zeros, Step;
    OldIdentityAt(data[..|q|], divisor, q, r, i);
    AddZero(data[i]);
  }

  lemma NextIdentityMiddle(data: Poly, divisor: Poly, q: Poly, r: Poly)
    requires |r| == |divisor| > 0 && |q| + 1 == |data|
    requires Divides(data[..|q|], divisor, q, r)
    ensures NextIdentity(data, divisor, q, r, |q|)
  {
    hide Add, Mul, Product, Sum, Scale, Zeros, Step;
    var m := |q|;
    OldIdentityAt(data[..m], divisor, q, r, m);
    MulOne(Add(data[m], r[0]));
    assert (Zeros(m) + Scale([ONE] + divisor, Add(data[m], r[0])))[m] == Add(data[m], r[0]);
    HeadCancels(Product(q, [ONE] + divisor)[m], r[0], data[m]);
    AddZero(data[m]);
  }

  lemma NextIdentityHigh(data: Poly, divisor: Poly, q: Poly, r: Poly, k: nat)
    requires |r| == |divisor| > k && |q| + 1 == |data|
    requires Divides(data[..|q|], divisor, q, r)
    ensures NextIdentity(data, divisor, q, r, |data| + k)
  {
    hide Add, Mul, Product, Sum, Scale, Zeros, Divides;
    var m, p := |q|, Product(q, [ONE] + divisor);
    var d := Mul(divisor[k], Add(data[m], r[0]));
    assert (Zeros(m) + Scale([ONE] + divisor, Add(data[m], r[0])))[m + 1 + k] == d;
    assert (Zeros(m + 1) + Step(r, divisor, data[m]))[m + 1 + k] == Add((r[1..] + [ZERO])[k], d);
    if k + 1 < |r| {
      OldIdentityAt(data[..m], divisor, q, r, m + 1 + k);
      TailCancels(p[m + 1 + k], r[k + 1], d);
    } else {
      AddZero(ZERO);
      TailCancels(ZERO, ZERO, d);
    }
  }

  lemma OldIdentityAt(data: Poly, divisor: Poly, q: Poly, r: Poly, i: nat)
    requires |r| == |divisor| > 0 && |q| == |data| && i < |data| + |divisor|
    requires Divides(data, divisor, q, r)
    ensures Add(Product(q, [ONE] + divisor)[i], (Zeros(|data|) + r)[i]) == (data + Zeros(|divisor|))[i]
    ensures i < |data| ==> Product(q, [ONE] + divisor)[i] == data[i]
  {
    hide Add, Mul, Product, Sum, Scale, Zeros;
    assert Sum(Product(q, [ONE] + divisor), Zeros(|data|) + r)[i] == (data + Zeros(|divisor|))[i];
    AddZero(Product(q, [ONE] + divisor)[i]);
  }

  lemma ProductLast(q: Poly, f: Byte, g: Poly)
    requires |g| > 0
    ensures Product(q + [f], g) == Sum(Product(q, g) + [ZERO], Zeros(|q|) + Scale(g, f))
  {
    hide Add, Mul, Sum, Scale, Zeros;
    assert (q + [f])[..|q|] == q;
  }

  /** The division identity survives one step of the register. */
  lemma IdentityStep(data: Poly, divisor: Poly, q: Poly, r: Poly)
    requires |r| == |divisor| > 0 && |q| + 1 == |data|
    requires Divides(data[..|q|], divisor, q, r)
    ensures Divides(data, divisor, q + [Add(data[|q|], r[0])], Step(r, divisor, data[|q|]))
  {
    hide Add, Mul, Product, Sum, Scale, Zeros, Step;
    var m, f, g := |q|, Add(data[|q|], r[0]), [ONE] + divisor;
    ProductLast(q, f, g);
    var left := Sum(Product(q + [f], g), Zeros(m + 1) + Step(r, divisor, data[m]));
    forall i | 0 <= i < m + 1 + |divisor|
      ensures left[i] == (data + Zeros(|divisor|))[i]
    {
      if i < m {
        NextIdentityLow(data, divisor, q, r, i);
      } else if i == m {
        NextIdentityMiddle(data, divisor, q, r);
      } else {
        NextIdentityHigh(data, divisor, q, r, i - m - 1);
      }
    }
  }

  lemma {:induction false} RemainderIdentity(data: Poly, divisor: Poly)
    requires |divisor| > 0
    ensures Divides(data, divisor, Quotient(data, divisor), Remainder(data, divisor))
  {
    if data == [] {
      AddZero(ZERO);
    } else {
      hide Add, Mul, Product, Sum, Scale, Zeros, Step, Divides;
      var m := |data| - 1;
      RemainderIdentity(data[..m], divisor);
      IdentityStep(data, divisor, Quotient(data[..m], divisor), Remainder(data[..m], divisor));
    }
  }

  /** A multiple of a monic polynomial that lies wholly in the remainder's place is zero. */
  lemma {:induction false} MultipleTooSmall(q: Poly, divisor: Poly)
    requires forall i :: 0 <= i < |q| ==> Product(q, [ONE] + divisor)[i] == ZERO
    ensures q == Zeros(|q|)
    ensures Product(q, [ONE] + divisor) == Zeros(|q| + |divisor|)
  {
    hide Add, Mul, Sum, Scale, Zeros;
    if q != [] {
      var m := |q| - 1;
      var g := [ONE] + divisor;
      var p := Product(q[..m], g);
      forall i | 0 <= i < m
        ensures p[i] == ZERO
      {
        assert Product(q, g)[i] == Add(p[i], ZERO);
        AddZero(p[i]);
      }
      MultipleTooSmall(q[..m], divisor);
      assert Product(q, g)[m] == Add((p + [ZERO])[m], Mul(ONE, q[m]));
      MulOne(q[m]);
      AddZero(q[m]);
      forall i | 0 <= i < |divisor| + 1
        ensures Scale(g, q[m])[i] == ZERO
      {
        MulZero(g[i]);
      }
      AddZero(ZERO);
    }
  }

  lemma {:induction false} ProductSum(q1: Poly, q2: Poly, g: Poly)
    requires |q1| == |q2| && |g| > 0
    ensures Product(Sum(q1, q2), g) == Sum(Product(q1, g), Product(q2, g))
  {
    hide Add, Mul, Sum, Scale, Zeros;
    AddZero(ZERO);
    if q1 != [] {
      var m := |q1| - 1;
      ProductSum(q1[..m], q2[..m], g);
      assert Sum(q1, q2)[..m] == Sum(q1[..m], q2[..m]);
      var p1, p2 := Product(q1[..m], g) + [ZERO], Product(q2[..m], g) + [ZERO];
      var s1, s2 := Zeros(m) + Scale(g, q1[m]), Zeros(m) + Scale(g, q2[m]);
      ScaleSum(g, q1[m], q2[m]);
      var all := Product(Sum(q1, q2), g);
      assert all == Sum(Sum(Product(q1[..m], g), Product(q2[..m], g)) + [ZERO], Zeros(m) + Scale(g, Add(q1[m], q2[m])));
      forall i | 0 <= i < m + |g|
        ensures all[i] == Add(Product(q1, g)[i], Product(q2, g)[i])
      {
        AddSwap(p1[i], p2[i], s1[i], s2[i]);
      }
    }
  }

  lemma ScaleSum(g: Poly, a: Byte, b: Byte)
    ensures Scale(g, Add(a, b)) == Sum(Scale(g, a), Scale(g, b))
  {
    hide Add, Mul, Sum, Scale, Zeros;
    forall i | 0 <= i < |g|
      ensures Mul(g[i], Add(a, b)) == Add(Mul(g[i], a), Mul(g[i], b))
    {
      MulAddRight(g[i], a, b);
    }
  }

  lemma SumCancel(p: Poly, q: Poly, t: Poly)
    requires |p| == |q| == |t|
    requires Sum(p, q) == t
    ensures p == Sum(t, q)
  {
    hide Add;
    forall i | 0 <= i < |p|
      ensures p[i] == Add(t[i], q[i])
    {
      assert t[i] == Add(p[i], q[i]);
      AddAssoc(p[i], q[i], q[i]);
      AddSelf(q[i], q[i]);
      AddZero(p[i]);
    }
  }

  /** The remainder and quotient are the only ones: whatever satisfies the division identity is what
      the shift register computes. */
  lemma RemainderUnique(data: Poly, divisor: Poly, q: Poly, r: Poly)
    requires |r| == |divisor| > 0 && |q| == |data|
    ensures Divides(data, divisor, q, r) <==> q == Quotient(data, divisor) && r == Remainder(data, divisor)
  {
    RemainderIdentity(data, divisor);
    if Divides(data, divisor, q, r) {
      var q0, r0 := Quotient(data, divisor), Remainder(data, divisor);
      hide Quotient, Remainder;
      SamePair(data, divisor, q, r, q0, r0);
    }
  }

  lemma SamePair(data: Poly, divisor: Poly, q: Poly, r: Poly, q0: Poly, r0: Poly)
    requires |r| == |r0| == |divisor| > 0 && |q| == |q0| == |data|
    requires Divides(data, divisor, q, r) && Divides(data, divisor, q0, r0)
    ensures q == q0 && r == r0
  {
    hide Add, Mul, Product, Sum, Scale, Zeros;
    var m, n := |data|, |divisor|;
    var g := [ONE] + divisor;
    var t := data + Zeros(n);
    var p, p0 := Product(q, g), Product(q0, g);
    SumCancel(p, Zeros(m) + r, t);
    SumCancel(p0, Zeros(m) + r0, t);
    ProductSum(q, q0, g);
    var d := Product(Sum(q, q0), g);
    forall i | 0 <= i < m + n
      ensures d[i] == Add((Zeros(m) + r)[i], (Zeros(m) + r0)[i])
    {
      AddSwap(t[i], (Zeros(m) + r)[i], t[i], (Zeros(m) + r0)[i]);
      AddSelf(t[i], t[i]);
      AddZero(Add((Zeros(m) + r)[i], (Zeros(m) + r0)[i]));
    }
    AddZero(ZERO);
    MultipleTooSmall(Sum(q, q0), divisor);
    forall i | 0 <= i < m
      ensures q[i] == q0[i]
    {
      assert Sum(q, q0)[i] == ZERO;
      AddSelf(q[i], q0[i]);
    }
    forall i | 0 <= i < n
      ensures r[i] == r0[i]
    {
      assert d[m + i] == ZERO;
      AddSelf(r[i], r0[i]);
    }
  }

  /** The remainder is linear in the data. */
  lemma {:induction false} RemainderLinear(d1: Poly, d2: Poly, divisor: Poly)
    requires |d1| == |d2| && |divisor| > 0
    ensures Remainder(Sum(d1, d2), divisor) == Sum(Remainder(d1, divisor), Remainder(d2, divisor))
  {
    hide Add, Mul, Sum, Scale, Zeros;
    AddZero(ZERO);
    if d1 != [] {
      var m := |d1| - 1;
      RemainderLinear(d1[..m], d2[..m], divisor);
      assert Sum(d1, d2)[..m] == Sum(d1[..m], d2[..m]);
      var r1, r2 := Remainder(d1[..m], divisor), Remainder(d2[..m], divisor);
      StepLinear(r1, r2, divisor, d1[m], d2[m]);
    }
  }

  lemma StepLinear(r1: Poly, r2: Poly, divisor: Poly, b1: Byte, b2: Byte)
    requires |r1| == |r2| == |divisor| > 0
    ensures Step(Sum(r1, r2), divisor, Add(b1, b2)) == Sum(Step(r1, divisor, b1), Step(r2, divisor, b2))
  {
    hide Add, Mul, Sum, Scale, Zeros;
    var f1, f2 := Add(b1, r1[0]), Add(b2, r2[0]);
    AddSwap(b1, b2, r1[0], r2[0]);
    ScaleSum(divisor, f1, f2);
    AddZero(ZERO);
    var s1, s2 := r1[1..] + [ZERO], r2[1..] + [ZERO];
    forall i | 0 <= i < |divisor|
      ensures Add((Sum(r1, r2)[1..] + [ZERO])[i], Scale(divisor, Add(f1, f2))[i])
           == Add(Step(r1, divisor, b1)[i], Step(r2, divisor, b2)[i])
    {
      AddSwap(s1[i], s2[i], Scale(divisor, f1)[i], Scale(divisor, f2)[i]);
    }
  }

  /** A root of the monic divisor is a root of the data with its remainder appended. */
  lemma RootOfCodeword(data: Poly, divisor: Poly, a: Byte)
    requires |divisor| > 0 && Eval([ONE] + divisor, a) == ZERO
    ensures Eval(data + Remainder(data, divisor), a) == ZERO
  {
    hide Add, Mul, Eval, Product, Quotient, Remainder;
    RemainderIdentity(data, divisor);
    var m, n := |data|, |divisor|;
    var q, r, g := Quotient(data, divisor), Remainder(data, divisor), [ONE] + divisor;
    SumCancel(Product(q, g), Zeros(m) + r, data + Zeros(n));
    assert Sum(data + Zeros(n), Zeros(m) + r) == data + r by {
      forall i | 0 <= i < m + n
        ensures Sum(data + Zeros(n), Zeros(m) + r)[i] == (data + r)[i]
      {
        AddZero((data + r)[i]);
      }
    }
    EvalProduct(q, g, a);
    MulZero(Eval(q, a));
  }
}
