/** Arithmetic in GF(2^8) with the reducing polynomial x^8 + x^4 + x^3 + x^2 + 1 (0x11D).
    `Mul` is the mathematical content of the Russian peasant loop; the lemmas below make
    it a field in which 2 generates every nonzero element. The algebraic proofs hide the
    bit-level definitions and argue only from the laws proved before them. */
module GaloisField {

  datatype Byte = Byte(bits: bv8)

  const ZERO := Byte(0)
  const ONE := Byte(1)

  function Add(a: Byte, b: Byte): Byte { Byte(a.bits ^ b.bits) }

  /** Multiplication by x, reduced: the first assignment of the loop body. */
  function Double(z: Byte): Byte { Byte(DoubleBits(z.bits)) }

  function DoubleBits(z: bv8): bv8 { (z << 1) ^ ((z >> 7) * 0x1D) }

  predicate LowBit(y: Byte) { y.bits & 1 != 0 }

  function Half(y: Byte): Byte { Byte(y.bits >> 1) }

  /** `bit * x` for a single bit. */
  function Gate(bit: bool, x: Byte): Byte { if bit then x else ZERO }

  /** The accumulator after the k high-order bits of a k-bit y have been consumed. */
  function Horner(x: Byte, y: Byte, k: nat): Byte
    decreases k
  {
    if k == 0 then ZERO else Add(Double(Horner(x, Half(y), k - 1)), Gate(LowBit(y), x))
  }

  function Mul(x: Byte, y: Byte): Byte { Horner(x, y, 8) }

  /** 2^k in the field. */
  function Exp(k: nat): Byte { if k == 0 then ONE else Double(Exp(k - 1)) }

  /** a^k in the field. */
  function Pow(a: Byte, k: nat): Byte { if k == 0 then ONE else Mul(Pow(a, k - 1), a) }

  // ----- the additive group -----

  lemma AddComm(a: Byte, b: Byte)
    ensures Add(a, b) == Add(b, a)
  {}

  lemma AddAssoc(a: Byte, b: Byte, c: Byte)
    ensures Add(Add(a, b), c) == Add(a, Add(b, c))
  {}

  lemma AddZero(a: Byte)
    ensures Add(a, ZERO) == a && Add(ZERO, a) == a
  {}

  lemma AddSelf(a: Byte, b: Byte)
    ensures Add(a, b) == ZERO <==> a == b
  {}

  lemma AddSwap(a: Byte, b: Byte, c: Byte, d: Byte)
    ensures Add(Add(a, b), Add(c, d)) == Add(Add(a, c), Add(b, d))
  {
    hide *;
    AddAssoc(a, b, Add(c, d));
    AddAssoc(b, c, d);
    AddComm(b, c);
    AddAssoc(c, b, d);
    AddAssoc(a, c, Add(b, d));
  }

  lemma AddCancel(a: Byte, b: Byte)
    ensures Add(a, Add(a, b)) == b
  {
    hide *;
    AddAssoc(a, a, b);
    AddSelf(a, a);
    AddZero(b);
  }

  // ----- how the bit-level pieces respect addition -----

  lemma DoubleAdd(a: Byte, b: Byte)
    ensures Double(Add(a, b)) == Add(Double(a), Double(b))
  {}

  lemma DoubleInjective(a: Byte)
    ensures Double(a) == ZERO <==> a == ZERO
  {}

  lemma DoubleSame(a: Byte, b: Byte)
    requires Double(a) == Double(b)
    ensures a == b
  {
    DoubleAdd(a, b);
    AddSelf(Double(a), Double(b));
    DoubleInjective(Add(a, b));
    AddSelf(a, b);
  }

  lemma HalfAdd(y: Byte, z: Byte)
    ensures Half(Add(y, z)) == Add(Half(y), Half(z))
    ensures LowBit(Add(y, z)) == (LowBit(y) != LowBit(z))
  {}

  lemma GateAdd(bit: bool, a: Byte, b: Byte)
    ensures Gate(bit, Add(a, b)) == Add(Gate(bit, a), Gate(bit, b))
  {
    AddZero(ZERO);
  }

  lemma GateXor(p: bool, q: bool, a: Byte)
    ensures Gate(p != q, a) == Add(Gate(p, a), Gate(q, a))
  {
    AddSelf(a, a);
    AddZero(a);
    AddZero(ZERO);
  }

  lemma GateDouble(bit: bool, a: Byte)
    ensures Gate(bit, Double(a)) == Double(Gate(bit, a))
  {}

  lemma HornerStep(x: Byte, y: Byte, k: nat)
    requires k > 0
    ensures Horner(x, y, k) == Add(Double(Horner(x, Half(y), k - 1)), Gate(LowBit(y), x))
  {}

  // ----- multiplication is bilinear -----

  lemma {:induction false} HornerAddLeft(a: Byte, b: Byte, y: Byte, k: nat)
    ensures Horner(Add(a, b), y, k) == Add(Horner(a, y, k), Horner(b, y, k))
    decreases k
  {
    if k == 0 {
      AddZero(ZERO);
    } else {
      hide *;
      HornerAddLeft(a, b, Half(y), k - 1);
      HornerStep(a, y, k);
      HornerStep(b, y, k);
      HornerStep(Add(a, b), y, k);
      var p, q := Horner(a, Half(y), k - 1), Horner(b, Half(y), k - 1);
      DoubleAdd(p, q);
      GateAdd(LowBit(y), a, b);
      AddSwap(Double(p), Double(q), Gate(LowBit(y), a), Gate(LowBit(y), b));
    }
  }

  lemma {:induction false} HornerAddRight(x: Byte, y: Byte, z: Byte, k: nat)
    ensures Horner(x, Add(y, z), k) == Add(Horner(x, y, k), Horner(x, z, k))
    decreases k
  {
    if k == 0 {
      AddZero(ZERO);
    } else {
      hide *;
      HalfAdd(y, z);
      HornerAddRight(x, Half(y), Half(z), k - 1);
      HornerStep(x, y, k);
      HornerStep(x, z, k);
      HornerStep(x, Add(y, z), k);
      var p, q := Horner(x, Half(y), k - 1), Horner(x, Half(z), k - 1);
      DoubleAdd(p, q);
      GateXor(LowBit(y), LowBit(z), x);
      AddSwap(Double(p), Double(q), Gate(LowBit(y), x), Gate(LowBit(z), x));
    }
  }

  lemma {:induction false} HornerDouble(x: Byte, y: Byte, k: nat)
    ensures Horner(Double(x), y, k) == Double(Horner(x, y, k))
    decreases k
  {
    if k == 0 {
    } else {
      hide *;
      HornerDouble(x, Half(y), k - 1);
      HornerStep(x, y, k);
      HornerStep(Double(x), y, k);
      GateDouble(LowBit(y), x);
      DoubleAdd(Double(Horner(x, Half(y), k - 1)), Gate(LowBit(y), x));
    }
  }

  lemma {:induction false} HornerZero(y: Byte, k: nat)
    ensures Horner(ZERO, y, k) == ZERO
    decreases k
  {
    if k == 0 {
    } else {
      HornerZero(Half(y), k - 1);
      AddZero(ZERO);
    }
  }

  lemma MulAddLeft(a: Byte, b: Byte, y: Byte)
    ensures Mul(Add(a, b), y) == Add(Mul(a, y), Mul(b, y))
  {
    HornerAddLeft(a, b, y, 8);
  }

  lemma MulAddRight(x: Byte, y: Byte, z: Byte)
    ensures Mul(x, Add(y, z)) == Add(Mul(x, y), Mul(x, z))
  {
    HornerAddRight(x, y, z, 8);
  }

  lemma MulDoubleLeft(x: Byte, y: Byte)
    ensures Mul(Double(x), y) == Double(Mul(x, y))
  {
    HornerDouble(x, y, 8);
  }

  // ----- identity, commutativity, associativity -----

  /** Feeding the bits of y through the loop with x = 1 rebuilds y. */
  lemma HornerOne(y: Byte)
    ensures Horner(ONE, y, 8) == y
  {
    var y1 := Half(y);
    var y2 := Half(y1);
    var y3 := Half(y2);
    var y4 := Half(y3);
    var y5 := Half(y4);
    var y6 := Half(y5);
    var y7 := Half(y6);
    assert Horner(ONE, y7, 1) == y7 by { OneBit(y7, ZERO); }
    assert Horner(ONE, y6, 2) == y6 by { OneBit(y6, y7); }
    assert Horner(ONE, y5, 3) == y5 by { OneBit(y5, y6); }
    assert Horner(ONE, y4, 4) == y4 by { OneBit(y4, y5); }
    assert Horner(ONE, y3, 5) == y3 by { OneBit(y3, y4); }
    assert Horner(ONE, y2, 6) == y2 by { OneBit(y2, y3); }
    assert Horner(ONE, y1, 7) == y1 by { OneBit(y1, y2); }
    OneBit(y, y1);
  }

  lemma OneBit(y: Byte, h: Byte)
    requires h == Half(y)
    ensures Add(Double(h), Gate(LowBit(y), ONE)) == y
  {}

  lemma MulOneLeft(y: Byte)
    ensures Mul(ONE, y) == y
  {
    HornerOne(y);
  }

  /** y, rebuilt bit by bit on the left of the product, drives the very loop that has y on the right. */
  lemma {:induction false} MulHorner(x: Byte, y: Byte, k: nat)
    ensures Mul(Horner(ONE, y, k), x) == Horner(x, y, k)
    decreases k
  {
    if k == 0 {
      HornerZero(x, 8);
    } else {
      MulGateOne(LowBit(y), x);
      hide *;
      MulHorner(x, Half(y), k - 1);
      var h := Horner(ONE, Half(y), k - 1);
      HornerStep(ONE, y, k);
      HornerStep(x, y, k);
      MulAddLeft(Double(h), Gate(LowBit(y), ONE), x);
      MulDoubleLeft(h, x);
    }
  }

  lemma MulGateOne(bit: bool, x: Byte)
    ensures Mul(Gate(bit, ONE), x) == Gate(bit, x)
  {
    MulOneLeft(x);
    HornerZero(x, 8);
  }

  lemma MulComm(x: Byte, y: Byte)
    ensures Mul(x, y) == Mul(y, x)
  {
    HornerOne(y);
    MulHorner(x, y, 8);
  }

  lemma MulOne(x: Byte)
    ensures Mul(x, ONE) == x && Mul(ONE, x) == x
  {
    hide *;
    MulComm(x, ONE);
    MulOneLeft(x);
  }

  lemma MulZero(x: Byte)
    ensures Mul(x, ZERO) == ZERO && Mul(ZERO, x) == ZERO
  {
    HornerZero(x, 8);
    MulComm(x, ZERO);
  }

  lemma MulDoubleRight(x: Byte, y: Byte)
    ensures Mul(x, Double(y)) == Double(Mul(x, y))
  {
    hide *;
    MulComm(x, Double(y));
    MulDoubleLeft(y, x);
    MulComm(y, x);
  }

  lemma MulTwo(x: Byte)
    ensures Mul(x, Byte(2)) == Double(x)
  {
    assert Double(ONE) == Byte(2);
    MulDoubleRight(x, ONE);
    MulOne(x);
  }

  lemma {:induction false} HornerAssoc(x: Byte, y: Byte, z: Byte, k: nat)
    ensures Horner(Mul(x, y), z, k) == Mul(x, Horner(y, z, k))
    decreases k
  {
    hide Mul, Add, Double, Half, LowBit, Gate;
    if k == 0 {
      MulZero(x);
    } else {
      MulGate(x, LowBit(z), y);
      hide *;
      HornerAssoc(x, y, Half(z), k - 1);
      var h := Horner(y, Half(z), k - 1);
      HornerStep(Mul(x, y), z, k);
      HornerStep(y, z, k);
      MulAddRight(x, Double(h), Gate(LowBit(z), y));
      MulDoubleRight(x, h);
    }
  }

  lemma MulGate(x: Byte, bit: bool, y: Byte)
    ensures Mul(x, Gate(bit, y)) == Gate(bit, Mul(x, y))
  {
    MulZero(x);
  }

  lemma MulAssoc(x: Byte, y: Byte, z: Byte)
    ensures Mul(Mul(x, y), z) == Mul(x, Mul(y, z))
  {
    HornerAssoc(x, y, z, 8);
  }

  // ----- powers of the generator -----

  lemma {:induction false} ExpAdd(i: nat, j: nat)
    ensures Mul(Exp(i), Exp(j)) == Exp(i + j)
  {
    hide Mul, Double;
    if i == 0 {
      MulOne(Exp(j));
    } else {
      ExpAdd(i - 1, j);
      MulDoubleLeft(Exp(i - 1), Exp(j));
    }
  }

  lemma {:induction false} ExpNonzero(k: nat)
    ensures Exp(k) != ZERO
  {
    if k == 0 {
    } else {
      ExpNonzero(k - 1);
      hide Double;
      DoubleInjective(Exp(k - 1));
    }
  }

  /** Eight doublings from e avoid 1 and end in f. */
  predicate Octet(e: bv8, f: bv8) {
    var e1 := DoubleBits(e);
    var e2 := DoubleBits(e1);
    var e3 := DoubleBits(e2);
    var e4 := DoubleBits(e3);
    var e5 := DoubleBits(e4);
    var e6 := DoubleBits(e5);
    var e7 := DoubleBits(e6);
    e != 1 && e1 != 1 && e2 != 1 && e3 != 1 && e4 != 1 && e5 != 1 && e6 != 1 && e7 != 1 && f == DoubleBits(e7)
  }

  lemma ExpOctet(k: nat, e: bv8, f: bv8)
    requires Exp(k) == Byte(e) && Octet(e, f)
    ensures Exp(k + 8) == Byte(f)
    ensures forall j :: k <= j < k + 8 ==> Exp(j) != ONE
  {
    hide DoubleBits;
    assert Exp(k + 1) == Double(Exp(k));
    assert Exp(k + 2) == Double(Exp(k + 1));
    assert Exp(k + 3) == Double(Exp(k + 2));
    assert Exp(k + 4) == Double(Exp(k + 3));
    assert Exp(k + 5) == Double(Exp(k + 4));
    assert Exp(k + 6) == Double(Exp(k + 5));
    assert Exp(k + 7) == Double(Exp(k + 6));
    assert Exp(k + 8) == Double(Exp(k + 7));
  }

  lemma ExpOne()
    ensures Exp(1) == Byte(2)
  {}

  lemma OrderFirstHalf()
    ensures Exp(129) == Byte(0x17)
    ensures forall j :: 0 < j < 129 ==> Exp(j) != ONE
  {
    hide Exp;
    ExpOne();
    ExpOctet(1, 0x02, 0x3A);
    ExpOctet(9, 0x3A, 0x98);
    ExpOctet(17, 0x98, 0x03);
    ExpOctet(25, 0x03, 0x27);
    ExpOctet(33, 0x27, 0xD4);
    ExpOctet(41, 0xD4, 0x8C);
    ExpOctet(49, 0x8C, 0xBA);
    ExpOctet(57, 0xBA, 0xBE);
    ExpOctet(65, 0xBE, 0xCA);
    ExpOctet(73, 0xCA, 0xE7);
    ExpOctet(81, 0xE7, 0xE1);
    ExpOctet(89, 0xE1, 0xAF);
    ExpOctet(97, 0xAF, 0x1A);
    ExpOctet(105, 0x1A, 0x1F);
    ExpOctet(113, 0x1F, 0x76);
    ExpOctet(121, 0x76, 0x17);
  }

  lemma OrderSecondHalf()
    ensures Exp(255) == ONE
    ensures forall j :: 129 <= j < 255 ==> Exp(j) != ONE
  {
    hide Exp;
    OrderFirstHalf();
    ExpOctet(129, 0x17, 0x9E);
    ExpOctet(137, 0x9E, 0x4D);
    ExpOctet(145, 0x4D, 0x92);
    ExpOctet(153, 0x92, 0xD1);
    ExpOctet(161, 0xD1, 0xE5);
    ExpOctet(169, 0xE5, 0xDB);
    ExpOctet(177, 0xDB, 0x37);
    ExpOctet(185, 0x37, 0x19);
    ExpOctet(193, 0x19, 0x38);
    ExpOctet(201, 0x38, 0xA2);
    ExpOctet(209, 0xA2, 0x9B);
    ExpOctet(217, 0x9B, 0x24);
    ExpOctet(225, 0x24, 0xF3);
    ExpOctet(233, 0xF3, 0x58);
    ExpOctet(241, 0x58, 0x36);
    ExpStep(250);
    ExpStep(251);
    ExpStep(252);
    ExpStep(253);
    ExpStep(254);
    ExpStep(255);
  }

  /** The multiplicative order of 2 is exactly 255. */
  lemma OrderOfTwo()
    ensures Exp(255) == ONE
    ensures forall j :: 0 < j < 255 ==> Exp(j) != ONE
  {
    OrderFirstHalf();
    OrderSecondHalf();
  }

  /** Powers of two with exponents below 255 are pairwise distinct. */
  lemma {:induction false} ExpDistinct(i: nat, j: nat)
    requires i < j < 255
    ensures Exp(i) != Exp(j)
  {
    if i == 0 {
      OrderOfTwo();
    } else {
      ExpDistinct(i - 1, j - 1);
      hide Double;
      if Exp(i) == Exp(j) {
        DoubleSame(Exp(i - 1), Exp(j - 1));
      }
    }
  }

  function Value(b: Byte): int { b.bits as int }

  lemma ValueInjective(a: Byte, b: Byte)
    requires Value(a) == Value(b)
    ensures a == b
  {}

  lemma ValueRange(a: Byte)
    requires a != ZERO
    ensures 1 <= Value(a) <= 255
  {}

  function Powers(n: nat): set<int> {
    if n == 0 then {} else Powers(n - 1) + {Value(Exp(n - 1))}
  }

  lemma {:induction false} PowersMember(i: int, n: nat) returns (k: nat)
    requires i in Powers(n)
    ensures k < n && Value(Exp(k)) == i
  {
    hide Value, Exp;
    if i == Value(Exp(n - 1)) {
      k := n - 1;
    } else {
      k := PowersMember(i, n - 1);
    }
  }

  lemma {:induction false} PowersSize(n: nat)
    requires n <= 255
    ensures |Powers(n)| == n
  {
    hide Value, Exp;
    if n > 0 {
      PowersSize(n - 1);
      if Value(Exp(n - 1)) in Powers(n - 1) {
        var k := PowersMember(Value(Exp(n - 1)), n - 1);
        ValueInjective(Exp(k), Exp(n - 1));
        ExpDistinct(k, n - 1);
      }
    }
  }

  function Interval(n: nat): set<int> {
    if n == 0 then {} else Interval(n - 1) + {n}
  }

  lemma {:induction false} IntervalMember(i: int, n: nat)
    requires 1 <= i <= n
    ensures i in Interval(n)
  {
    if i < n {
      IntervalMember(i, n - 1);
    }
  }

  lemma {:induction false} SubsetOfInterval(s: set<int>, n: nat)
    requires s <= Interval(n)
    ensures |s| <= n
  {
    if n == 0 {
      assert s == {};
    } else {
      SubsetOfInterval(s - {n}, n - 1);
    }
  }

  /** 2 generates the multiplicative group: every nonzero byte is a power of 2. */
  lemma DiscreteLog(y: Byte) returns (k: nat)
    requires y != ZERO
    ensures k < 255 && Exp(k) == y
  {
    hide *;
    PowersSize(255);
    var p := Powers(255);
    forall i | i in p + {Value(y)}
      ensures i in Interval(255)
    {
      if i == Value(y) {
        ValueRange(y);
      } else {
        var j := PowersMember(i, 255);
        ExpNonzero(j);
        ValueRange(Exp(j));
      }
      IntervalMember(i, 255);
    }
    SubsetOfInterval(p + {Value(y)}, 255);
    k := PowersMember(Value(y), 255);
    ValueInjective(Exp(k), y);
  }

  lemma {:induction false} MulExpNonzero(x: Byte, k: nat)
    requires x != ZERO
    ensures Mul(x, Exp(k)) != ZERO
  {
    if k == 0 {
      MulOne(x);
    } else {
      MulExpNonzero(x, k - 1);
      hide *;
      ExpStep(k);
      MulDoubleRight(x, Exp(k - 1));
      DoubleInjective(Mul(x, Exp(k - 1)));
    }
  }

  lemma ExpStep(k: nat)
    requires k > 0
    ensures Exp(k) == Double(Exp(k - 1))
  {}

  lemma NoZeroDivisors(x: Byte, y: Byte)
    ensures Mul(x, y) == ZERO <==> x == ZERO || y == ZERO
  {
    MulZero(x);
    MulZero(y);
    if x != ZERO && y != ZERO {
      var k := DiscreteLog(y);
      MulExpNonzero(x, k);
    }
  }

  /** (2^i)^k == (2^k)^i: the column and row readings of the same Vandermonde entry. */
  lemma {:induction false} PowExp(i: nat, k: nat)
    ensures Pow(Exp(i), k) == Exp(i * k)
  {
    hide Mul, Double;
    if k == 0 {
      assert i * k == 0;
    } else {
      PowExp(i, k - 1);
      ExpAdd(i * (k - 1), i);
      assert i * (k - 1) + i == i * k;
    }
  }
}
