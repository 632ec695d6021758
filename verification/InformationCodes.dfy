/** The error correction of the format and version information themselves: both word sets have
    minimum distances that let a receiver correct three errors in either. */
module InformationCodes {
  import opened Tables
  import opened Patterns

  /** The number of set bits of an 18-bit word. */
  function Weight(w: Word): nat {
    One(WordBit(w, 0)) + One(WordBit(w, 1)) + One(WordBit(w, 2)) + One(WordBit(w, 3)) + One(WordBit(w, 4)) + One(WordBit(w, 5))
    + One(WordBit(w, 6)) + One(WordBit(w, 7)) + One(WordBit(w, 8)) + One(WordBit(w, 9)) + One(WordBit(w, 10)) + One(WordBit(w, 11))
    + One(WordBit(w, 12)) + One(WordBit(w, 13)) + One(WordBit(w, 14)) + One(WordBit(w, 15)) + One(WordBit(w, 16)) + One(WordBit(w, 17))
  }

  function BitXor(a: bv32, b: bv32): bv32 { a ^ b }

  function Xor(a: Word, b: Word): Word { Word(BitXor(a.bits, b.bits)) }

  /** The number of bits in which two words differ. */
  function Distance(a: Word, b: Word): nat { Weight(Xor(a, b)) }

  // ----- the format information -----

  /** The remainder as a sum of generator matrix rows. */
  function FormatRows(d: bv32): bv32 {
    ((d & 1) * 0x137) ^ (((d >> 1) & 1) * 0x26E) ^ (((d >> 2) & 1) * 0x1EB) ^ (((d >> 3) & 1) * 0x3D6) ^ (((d >> 4) & 1) * 0x29B)
  }

  lemma FormatChain(d: Word, r1: Word, r2: Word, r3: Word, r4: Word, r5: Word, r6: Word, r7: Word, r8: Word, r9: Word, r10: Word)
    requires d.bits < 32
    requires r1 == FormatStep(d) && r2 == FormatStep(r1) && r3 == FormatStep(r2) && r4 == FormatStep(r3)
    requires r5 == FormatStep(r4) && r6 == FormatStep(r5) && r7 == FormatStep(r6) && r8 == FormatStep(r7)
    requires r9 == FormatStep(r8) && r10 == FormatStep(r9)
    ensures r10 == Word(FormatRows(d.bits))
  {}

  lemma FormatNext(d: Word, k: nat)
    ensures FormatRemainder(d, k + 1) == FormatStep(FormatRemainder(d, k))
  {
    hide FormatStep;
  }

  lemma FormatRemainderIs(d: Word)
    requires d.bits < 32
    ensures FormatRemainder(d, 10) == Word(FormatRows(d.bits))
  {
    assert FormatRemainder(d, 0) == d;
    hide FormatRemainder, FormatRows, FormatStep;
    FormatNext(d, 0); FormatNext(d, 1); FormatNext(d, 2); FormatNext(d, 3); FormatNext(d, 4);
    FormatNext(d, 5); FormatNext(d, 6); FormatNext(d, 7); FormatNext(d, 8); FormatNext(d, 9);
    FormatChain(d,
      FormatRemainder(d, 1), FormatRemainder(d, 2), FormatRemainder(d, 3), FormatRemainder(d, 4), FormatRemainder(d, 5),
      FormatRemainder(d, 6), FormatRemainder(d, 7), FormatRemainder(d, 8), FormatRemainder(d, 9), FormatRemainder(d, 10));
  }

  function FormatCode(d: Word): Word { Word((d.bits << 10) | FormatRows(d.bits)) }

  function FormatMasked(d: Word): Word { FormatAssemble(d, Word(FormatRows(d.bits))) }

  lemma FormatCodeXor(d: Word, e: Word)
    requires d.bits < 32 && e.bits < 32
    ensures Xor(FormatMasked(d), FormatMasked(e)) == FormatCode(Xor(d, e))
  {}

  lemma FormatWeight(d: Word)
    requires 0 < d.bits < 32
    ensures Weight(FormatCode(d)) >= 7
  {}

  // ----- the version information -----

  function VersionRows(d: bv32): bv32 {
    ((d & 1) * 0xF25) ^ (((d >> 1) & 1) * 0x16F) ^ (((d >> 2) & 1) * 0x2DE) ^ (((d >> 3) & 1) * 0x5BC) ^ (((d >> 4) & 1) * 0xB78) ^ (((d >> 5) & 1) * 0x9D5)
  }

  lemma VersionChain(d: Word, r1: Word, r2: Word, r3: Word, r4: Word, r5: Word, r6: Word, r7: Word, r8: Word, r9: Word, r10: Word, r11: Word, r12: Word)
    requires d.bits < 64
    requires r1 == VersionStep(d) && r2 == VersionStep(r1) && r3 == VersionStep(r2) && r4 == VersionStep(r3)
    requires r5 == VersionStep(r4) && r6 == VersionStep(r5) && r7 == VersionStep(r6) && r8 == VersionStep(r7)
    requires r9 == VersionStep(r8) && r10 == VersionStep(r9) && r11 == VersionStep(r10) && r12 == VersionStep(r11)
    ensures r12 == Word(VersionRows(d.bits))
  {}

  lemma VersionNext(d: Word, k: nat)
    ensures VersionRemainder(d, k + 1) == VersionStep(VersionRemainder(d, k))
  {
    hide VersionStep;
  }

  lemma VersionRemainderIs(d: Word)
    requires d.bits < 64
    ensures VersionRemainder(d, 12) == Word(VersionRows(d.bits))
  {
    assert VersionRemainder(d, 0) == d;
    hide VersionRemainder, VersionRows, VersionStep;
    VersionNext(d, 0); VersionNext(d, 1); VersionNext(d, 2); VersionNext(d, 3); VersionNext(d, 4); VersionNext(d, 5);
    VersionNext(d, 6); VersionNext(d, 7); VersionNext(d, 8); VersionNext(d, 9); VersionNext(d, 10); VersionNext(d, 11);
    VersionChain(d,
      VersionRemainder(d, 1), VersionRemainder(d, 2), VersionRemainder(d, 3), VersionRemainder(d, 4),
      VersionRemainder(d, 5), VersionRemainder(d, 6), VersionRemainder(d, 7), VersionRemainder(d, 8),
      VersionRemainder(d, 9), VersionRemainder(d, 10), VersionRemainder(d, 11), VersionRemainder(d, 12));
  }

  function VersionCode(d: Word): Word { VersionAssemble(d, Word(VersionRows(d.bits))) }

  function VersionPattern(d: bv32): bv32 { (d << 12) | VersionRows(d) }

  lemma VersionPatternXor(d: bv32, e: bv32)
    requires d < 64 && e < 64
    ensures BitXor(VersionPattern(d), VersionPattern(e)) == VersionPattern(BitXor(d, e))
  {}

  lemma VersionPatternIs(d: Word)
    ensures VersionCode(d) == Word(VersionPattern(d.bits))
  {}

  lemma VersionCodeXor(d: Word, e: Word)
    requires d.bits < 64 && e.bits < 64
    ensures Xor(VersionCode(d), VersionCode(e)) == VersionCode(Xor(d, e))
  {
    hide VersionCode, VersionPattern, BitXor;
    VersionPatternIs(d);
    VersionPatternIs(e);
    VersionPatternIs(Xor(d, e));
    VersionPatternXor(d.bits, e.bits);
  }

  lemma VersionWeight(d: Word)
    requires 0 < d.bits < 64
    ensures Weight(VersionCode(d)) >= 8
  {}

  lemma XorNonzero(d: bv32, e: bv32)
    requires d != e
    ensures 0 < BitXor(d, e)
  {}

  lemma XorFive(d: bv32, e: bv32)
    requires d < 32 && e < 32
    ensures BitXor(d, e) < 32
  {}

  lemma XorSix(d: bv32, e: bv32)
    requires d < 64 && e < 64
    ensures BitXor(d, e) < 64
  {}

  lemma VersionWordIs(ver: int)
    requires 0 <= ver < 64
    ensures VersionBits(ver).bits < 64 && VersionWord(ver) == VersionCode(VersionBits(ver))
  {
    hide VersionBits, VersionRows, VersionRemainder, VersionAssemble, Number;
    VersionNumber(ver);
    VersionRemainderIs(VersionBits(ver));
  }

  /** Distinct versions have version words that differ in at least eight of their eighteen bits. */
  lemma VersionDistance(v: int, w: int)
    requires 0 <= v < 64 && 0 <= w < 64 && v != w
    ensures Distance(VersionWord(v), VersionWord(w)) >= 8
  {
    hide VersionBits, VersionWord, VersionCode, Number, BitXor, Weight;
    var d, e := VersionBits(v), VersionBits(w);
    VersionWordIs(v);
    VersionWordIs(w);
    VersionNumber(v);
    VersionNumber(w);
    XorNonzero(d.bits, e.bits);
    XorSix(d.bits, e.bits);
    VersionCodeXor(d, e);
    VersionWeight(Xor(d, e));
  }

  lemma FormatDataRange(ecl: Ecc, mask: int)
    requires 0 <= mask < 8
    ensures FormatData(LevelBits(ecl), MaskBits(mask)).bits < 32
  {}

  lemma FormatWordIs(ecl: Ecc, mask: int)
    requires 0 <= mask < 8
    ensures
      var d := FormatData(LevelBits(ecl), MaskBits(mask));
      d.bits < 32 && FormatWord(ecl, mask) == FormatMasked(d)
  {
    hide LevelBits, MaskBits, FormatData, FormatRows, FormatRemainder, FormatAssemble;
    FormatDataRange(ecl, mask);
    FormatRemainderIs(FormatData(LevelBits(ecl), MaskBits(mask)));
  }

  /** Distinct choices of level and mask have format words that differ in at least seven of their fifteen bits. */
  lemma FormatDistance(ecl: Ecc, mask: int, ecl': Ecc, mask': int)
    requires 0 <= mask < 8 && 0 <= mask' < 8 && (ecl != ecl' || mask != mask')
    ensures Distance(FormatWord(ecl, mask), FormatWord(ecl', mask')) >= 7
  {
    hide LevelBits, MaskBits, FormatData, FormatCode, FormatMasked, FormatWord, BitXor, Weight;
    var d, e := FormatData(LevelBits(ecl), MaskBits(mask)), FormatData(LevelBits(ecl'), MaskBits(mask'));
    FormatWordIs(ecl, mask);
    FormatWordIs(ecl', mask');
    FormatReads(ecl, mask);
    FormatReads(ecl', mask');
    XorNonzero(d.bits, e.bits);
    XorFive(d.bits, e.bits);
    FormatCodeXor(d, e);
    FormatWeight(Xor(d, e));
  }

  // ----- both words as multiples of their generators -----

  /** The product of polynomials over two elements, coefficients as bits, for a factor q of degree below six. */
  function CarryLess(q: bv32, g: bv32): bv32 {
    ((q & 1) * g) ^ (((q >> 1) & 1) * (g << 1)) ^ (((q >> 2) & 1) * (g << 2))
    ^ (((q >> 3) & 1) * (g << 3)) ^ (((q >> 4) & 1) * (g << 4)) ^ (((q >> 5) & 1) * (g << 5))
  }

  function FormatQuotient(d: bv32): bv32 {
    ((d & 1) * 0x1) ^ (((d >> 1) & 1) * 0x2) ^ (((d >> 2) & 1) * 0x5) ^ (((d >> 3) & 1) * 0xA) ^ (((d >> 4) & 1) * 0x15)
  }

  lemma FormatProduct(d: Word)
    requires d.bits < 32
    ensures FormatQuotient(d.bits) < 32
    ensures Xor(FormatMasked(d), Word(0x5412)) == Word(CarryLess(FormatQuotient(d.bits), 0x537))
  {}

  lemma Unmasked14(w: Word)
    ensures WordBit(Xor(w, Word(0x5412)), 14) == !WordBit(w, 14)
  {}

  lemma Unmasked13(w: Word)
    ensures WordBit(Xor(w, Word(0x5412)), 13) == WordBit(w, 13)
  {}

  lemma Unmasked12(w: Word)
    ensures WordBit(Xor(w, Word(0x5412)), 12) == !WordBit(w, 12)
  {}

  lemma Unmasked11(w: Word)
    ensures WordBit(Xor(w, Word(0x5412)), 11) == WordBit(w, 11)
  {}

  lemma Unmasked10(w: Word)
    ensures WordBit(Xor(w, Word(0x5412)), 10) == !WordBit(w, 10)
  {}

  lemma Unmasked(w: Word)
    ensures
      var v := Xor(w, Word(0x5412));
      && WordBit(v, 14) == !WordBit(w, 14) && WordBit(v, 13) == WordBit(w, 13)
      && WordBit(v, 12) == !WordBit(w, 12) && WordBit(v, 11) == WordBit(w, 11) && WordBit(v, 10) == !WordBit(w, 10)
  {
    hide WordBit, Xor;
    Unmasked14(w);
    Unmasked13(w);
    Unmasked12(w);
    Unmasked11(w);
    Unmasked10(w);
  }

  /** Without its fixed pattern 0x5412, the format word is a multiple of the generator 0x537 whose top five bits
      are the level and the mask. */
  lemma FormatIsCodeword(ecl: Ecc, mask: int)
    requires 0 <= mask < 8
    ensures
      var v := Xor(FormatWord(ecl, mask), Word(0x5412));
      && (exists q: bv32 :: q < 32 && v == Word(CarryLess(q, 0x537)))
      && (WordBit(v, 14) <==> ecl == Quartile || ecl == High) && (WordBit(v, 13) <==> ecl == Low || ecl == Quartile)
      && mask == 4 * One(WordBit(v, 12)) + 2 * One(WordBit(v, 11)) + One(WordBit(v, 10))
  {
    hide CarryLess, FormatQuotient, FormatMasked, FormatWord, WordBit, FormatData, LevelBits, MaskBits, Xor;
    FormatWordIs(ecl, mask);
    FormatProduct(FormatData(LevelBits(ecl), MaskBits(mask)));
    FormatReads(ecl, mask);
    Unmasked(FormatWord(ecl, mask));
  }

  /** A multiple of the generator is determined by its top five bits. */
  lemma FormatUnique(q: bv32, r: bv32)
    requires q < 32 && r < 32 && CarryLess(q, 0x537) >> 10 == CarryLess(r, 0x537) >> 10
    ensures q == r
  {}

  /** A multiple of the generator is determined by its top six bits. */
  lemma VersionUnique(q: bv32, r: bv32)
    requires q < 64 && r < 64 && CarryLess(q, 0x1F25) >> 12 == CarryLess(r, 0x1F25) >> 12
    ensures q == r
  {}

  function VersionQuotient(d: bv32): bv32 {
    ((d & 1) * 0x1) ^ (((d >> 1) & 1) * 0x3) ^ (((d >> 2) & 1) * 0x6) ^ (((d >> 3) & 1) * 0xC) ^ (((d >> 4) & 1) * 0x18) ^ (((d >> 5) & 1) * 0x31)
  }

  lemma VersionProduct(d: Word)
    requires d.bits < 64
    ensures VersionQuotient(d.bits) < 64
    ensures VersionCode(d).bits == CarryLess(VersionQuotient(d.bits), 0x1F25)
  {}

  /** The version word is the multiple of the generator 0x1F25 whose top six bits spell the version. */
  lemma VersionIsCodeword(ver: int)
    requires 0 <= ver < 64
    ensures
      var w := VersionWord(ver);
      && (exists q: bv32 :: q < 64 && w.bits == CarryLess(q, 0x1F25))
      && SixBits(WordBit(w, 17), WordBit(w, 16), WordBit(w, 15), WordBit(w, 14), WordBit(w, 13), WordBit(w, 12)) == ver
  {
    hide CarryLess, VersionQuotient, VersionCode, VersionWord, WordBit, VersionBits;
    VersionWordIs(ver);
    VersionProduct(VersionBits(ver));
    VersionReads(ver);
  }
}
