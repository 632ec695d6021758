/** Segment modes, the factories that turn text and bytes into segments, and a reference
    reader that turns segments back into text. */
module Segments {
  import opened Results
  import opened Bits
  import opened Tables

  /** A nonzero code unit of a C string. */
  type CodeUnit = n: nat | 0 < n < 256 witness 1

  type Octet = n: nat | n < 256

  const INT_MAX := 0x7FFF_FFFF

  datatype Mode = Numeric | Alphanumeric | Bytes | Kanji | Eci
  {
    function ModeBits(): (b: nat)
      ensures 0 < b < 16
    {
      match this
      case Numeric => 1
      case Alphanumeric => 2
      case Bytes => 4
      case Kanji => 8
      case Eci => 7
    }

    function CharCountBits(ver: int): (n: nat)
      requires IsVersion(ver)
      ensures n <= 16
    {
      var range := (ver + 7) / 17;
      match this
      case Numeric => if range == 0 then 10 else if range == 1 then 12 else 14
      case Alphanumeric => if range == 0 then 9 else if range == 1 then 11 else 13
      case Bytes => if range == 0 then 8 else 16
      case Kanji => if range == 0 then 8 else if range == 1 then 10 else 12
      case Eci => 0
    }
  }

  datatype Segment = Segment(mode: Mode, numChars: nat, data: seq<bool>)

  // ----- packing values into fields -----

  /** Values below `base` are packed `group` at a time; k of them take slope * k + 1 bits. */
  datatype Packing = Packing(base: nat, group: nat, slope: nat)
  {
    function Width(k: nat): (w: nat)
      ensures w > 0
    {
      slope * k + 1
    }

    ghost predicate Valid() {
      0 < base && 0 < group && forall k :: 1 <= k <= group ==> Power(base, k) <= Pow2(Width(k))
    }

    /** Bits taken by n values. */
    function Length(n: nat): nat
      requires group > 0
    {
      n / group * Width(group) + if n % group == 0 then 0 else Width(n % group)
    }
  }

  const NUMERIC := Packing(10, 3, 3)
  const ALPHANUMERIC := Packing(45, 2, 5)
  const BYTES := Packing(256, 1, 7)

  function Power(base: nat, k: nat): nat {
    if k == 0 then 1 else Power(base, k - 1) * base
  }

  lemma PackingsValid()
    ensures NUMERIC.Valid() && ALPHANUMERIC.Valid() && BYTES.Valid()
  {
    assert Power(10, 1) == 10 && Power(10, 2) == 100 && Power(10, 3) == 1000;
    assert Power(45, 1) == 45 && Power(45, 2) == 2025;
    assert Power(256, 1) == 256;
    assert Pow2(4) == 16 && Pow2(6) == 64 && Pow2(7) == 128 && Pow2(8) == 256;
    assert Pow2(10) == 4 * Pow2(8) && Pow2(11) == 2 * Pow2(10);
  }

  ghost predicate Below(vals: seq<nat>, base: nat) {
    forall i :: 0 <= i < |vals| ==> vals[i] < base
  }

  /** The number whose digits are vals, most significant first. */
  function Number(vals: seq<nat>, base: nat): nat {
    if vals == [] then 0 else Number(vals[..|vals| - 1], base) * base + vals[|vals| - 1]
  }

  function Digits(v: nat, base: nat, k: nat): (vals: seq<nat>)
    requires base > 0
    ensures |vals| == k
    decreases k
  {
    if k == 0 then [] else Digits(v / base, base, k - 1) + [v % base]
  }

  lemma {:induction false} NumberRoundTrip(vals: seq<nat>, base: nat)
    requires base > 0 && Below(vals, base)
    ensures Number(vals, base) < Power(base, |vals|)
    ensures Digits(Number(vals, base), base, |vals|) == vals
  {
    if vals != [] {
      var l := |vals| - 1;
      var n := Number(vals[..l], base);
      NumberRoundTrip(vals[..l], base);
      NumberStep(n, vals[l], base, Power(base, l));
    }
  }

  lemma NumberStep(n: nat, digit: nat, base: nat, limit: nat)
    requires n < limit && digit < base
    ensures (n * base + digit) / base == n && (n * base + digit) % base == digit
    ensures n * base + digit < limit * base
  {
    Monotone(base, n + 1, limit);
    UniqueQuotient(n * base + digit, base, n, digit);
  }

  function GroupSize(p: Packing, n: nat): nat {
    if n < p.group then n else p.group
  }

  function Packed(p: Packing, vals: seq<nat>): seq<bool>
    requires p.group > 0
  {
    if vals == [] then []
    else
      var k := GroupSize(p, |vals|);
      BitsOf(Number(vals[..k], p.base), p.Width(k)) + Packed(p, vals[k..])
  }

  function Unpacked(p: Packing, bits: seq<bool>, n: nat): Option<seq<nat>>
    requires p.group > 0 && p.base > 0
    decreases n
  {
    if n == 0 then (if bits == [] then Some([]) else None)
    else
      var k := GroupSize(p, n);
      var w := p.Width(k);
      if |bits| < w || ValueOf(bits[..w]) >= Power(p.base, k) then None
      else
        var rest := Unpacked(p, bits[w..], n - k);
        if rest.None? then None else Some(Digits(ValueOf(bits[..w]), p.base, k) + rest.value)
  }

  /** Every accumulated group fits its field. */
  lemma GroupFits(p: Packing, vals: seq<nat>)
    requires p.Valid() && Below(vals, p.base) && 1 <= |vals| <= p.group
    ensures Number(vals, p.base) < Pow2(p.Width(|vals|))
  {
    NumberRoundTrip(vals, p.base);
  }

  /** The leading group is read back from its field. */
  lemma UnpackedGroup(p: Packing, vals: seq<nat>, k: nat)
    requires p.Valid() && Below(vals, p.base) && 1 <= k <= p.group && k <= |vals|
    ensures
      var bits := BitsOf(Number(vals[..k], p.base), p.Width(k));
      && ValueOf(bits) < Power(p.base, k) && Digits(ValueOf(bits), p.base, k) == vals[..k]
  {
    hide BitsOf, ValueOf, Number, Pow2, Power, Digits;
    GroupFits(p, vals[..k]);
    NumberRoundTrip(vals[..k], p.base);
    ValueOfBitsOf(Number(vals[..k], p.base), p.Width(k));
  }

  lemma {:induction false} UnpackedPacked(p: Packing, vals: seq<nat>)
    requires p.Valid() && Below(vals, p.base)
    ensures Unpacked(p, Packed(p, vals), |vals|) == Some(vals)
  {
    if vals != [] {
      var k := GroupSize(p, |vals|);
      UnpackedPacked(p, vals[k..]);
      UnpackedGroup(p, vals, k);
      hide BitsOf, ValueOf, Number, Pow2, Power, Digits;
      var w := p.Width(k);
      var bits := Packed(p, vals);
      assert bits[..w] == BitsOf(Number(vals[..k], p.base), w) && bits[w..] == Packed(p, vals[k..]);
      assert vals[..k] + vals[k..] == vals;
    }
  }

  lemma LengthStep(p: Packing, n: nat)
    requires 0 < p.group <= n
    ensures p.Length(n) == p.Width(p.group) + p.Length(n - p.group)
  {
    var g, w := p.group, p.Width(p.group);
    var q, r := n / g, n % g;
    assert n == g * q + r;
    assert q > 0 by { TopBits(n, g); }
    UniqueQuotient(n - g, g, q - 1, r);
    assert (q - 1) * w == q * w - w;
  }

  /** The packed length depends only on how many values there are. */
  lemma {:induction false} PackedLength(p: Packing, vals: seq<nat>)
    requires p.group > 0
    ensures |Packed(p, vals)| == p.Length(|vals|)
  {
    var n, g := |vals|, p.group;
    if n >= g {
      PackedLength(p, vals[g..]);
      LengthStep(p, n);
    } else {
      UniqueQuotient(n, g, 0, n);
      assert vals[n..] == [];
    }
  }

  /** A full prefix of groups followed by one more group. */
  lemma {:induction false} PackedGroup(p: Packing, done: seq<nat>, last: seq<nat>)
    requires p.group > 0 && |done| % p.group == 0 && 1 <= |last| <= p.group
    ensures Packed(p, done + last) == Packed(p, done) + BitsOf(Number(last, p.base), p.Width(|last|))
    decreases |done|
  {
    var g := p.group;
    if done == [] {
      assert done + last == last;
      assert last[..|last|] == last && last[|last|..] == [];
    } else {
      assert |done| >= g by {
        if |done| < g {
          UniqueQuotient(|done|, g, 0, |done|);
        }
      }
      assert (|done| - g) % g == 0 by {
        UniqueQuotient(|done| - g, g, |done| / g - 1, 0);
      }
      PackedGroup(p, done[g..], last);
      assert (done + last)[..g] == done[..g];
      assert (done + last)[g..] == done[g..] + last;
    }
  }

  // ----- character sets -----

  /** The alphanumeric set; a character's value is its index. */
  function Charset(): string { "0123456789" + "ABCDEFGHIJKLMNOPQRSTUVWXYZ" + " $%*+-./:" }

  /** The first index at or after `from` at which the alphanumeric set holds c, or -1. */
  function CharsetIndex(c: nat, from: nat): (k: int)
    requires from <= |Charset()|
    ensures -1 <= k < |Charset()|
    ensures k >= 0 ==> Charset()[k] as int == c
    ensures k < 0 ==> forall i :: from <= i < |Charset()| ==> Charset()[i] as int != c
    decreases |Charset()| - from
  {
    if from == |Charset()| then -1
    else if Charset()[from] as int == c then from
    else CharsetIndex(c, from + 1)
  }

  predicate IsDigit(c: nat) { 48 <= c <= 57 }

  predicate IsNumericText(text: seq<CodeUnit>) {
    forall i :: 0 <= i < |text| ==> IsDigit(text[i])
  }

  predicate IsAlphanumericText(text: seq<CodeUnit>) {
    forall i :: 0 <= i < |text| ==> CharsetIndex(text[i], 0) >= 0
  }

  function DigitValues(text: seq<CodeUnit>): (vals: seq<nat>)
    requires IsNumericText(text)
    ensures |vals| == |text|
  {
    seq(|text|, i requires 0 <= i < |text| => (text[i] as int) - 48)
  }

  function CharsetValues(text: seq<CodeUnit>): (vals: seq<nat>)
    requires IsAlphanumericText(text)
    ensures |vals| == |text|
  {
    seq(|text|, i requires 0 <= i < |text| => CharsetIndex(text[i], 0))
  }

  method IsNumeric(text: seq<CodeUnit>) returns (b: bool)
    ensures b == IsNumericText(text)
  {
    for i := 0 to |text|
      invariant forall k :: 0 <= k < i ==> IsDigit(text[k])
    {
      if text[i] < 48 || text[i] > 57 {
        return false;
      }
    }
    return true;
  }

  method IsAlphanumeric(text: seq<CodeUnit>) returns (b: bool)
    ensures b == IsAlphanumericText(text)
  {
    hide Charset, CharsetIndex;
    for i := 0 to |text|
      invariant forall k :: 0 <= k < i ==> CharsetIndex(text[k], 0) >= 0
    {
      if CharsetIndex(text[i], 0) < 0 {
        return false;
      }
    }
    return true;
  }

  // ----- the factories -----

  lemma NoBytes()
    ensures Packed(BYTES, []) == []
  {}

  lemma PackedByte(done: seq<nat>, b: nat)
    requires b < 256
    ensures Packed(BYTES, done + [b]) == Packed(BYTES, done) + BitsOf(b, 8) && b < Pow2(8)
  {
    assert [b][..0] == [];
    assert Number([b], 256) == b;
    assert Pow2(8) == 256;
    hide Packed, BitsOf, Pow2, Number;
    PackedGroup(BYTES, done, [b]);
  }

  lemma PackedNext(data: seq<Octet>, i: nat)
    requires i < |data|
    ensures Packed(BYTES, data[..i + 1]) == Packed(BYTES, data[..i]) + BitsOf(data[i], 8) && data[i] < Pow2(8)
  {
    hide Packed, BitsOf, Pow2;
    PackedByte(data[..i], data[i]);
    assert data[..i + 1] == data[..i] + [data[i]];
  }

  method MakeBytes(data: seq<Octet>) returns (r: Result<Segment>)
    ensures r.Ok? <==> |data| <= INT_MAX
    ensures r.Err? ==> r.error == LengthError
    ensures r.Ok? ==> r.value == Segment(Bytes, |data|, Packed(BYTES, data))
  {
    hide Packed, BitsOf, Pow2;
    if |data| > INT_MAX {
      return Err(LengthError);
    }
    NoBytes();
    assert data[..0] == [];
    var bb := new BitBuffer();
    for i := 0 to |data|
      invariant fresh(bb) && bb.bits == Packed(BYTES, data[..i])
    {
      PackedNext(data, i);
      var appended := bb.AppendBits(data[i], 8);
      assert appended.Ok?;
    }
    assert data[..|data|] == data;
    r := Ok(Segment(Bytes, |data|, bb.bits));
  }

  /** The state of a packing loop: full groups are in the buffer, `count` values are pending in `data`. */
  ghost predicate Accumulated(p: Packing, vals: seq<nat>, bits: seq<bool>, count: nat, data: nat) {
    && p.Valid() && Below(vals, p.base)
    && count < p.group && count <= |vals| && (|vals| - count) % p.group == 0
    && bits == Packed(p, vals[..|vals| - count])
    && data == Number(vals[|vals| - count..], p.base)
  }

  lemma NothingAccumulated(p: Packing)
    requires p.Valid()
    ensures Accumulated(p, [], [], 0, 0)
  {
    UniqueQuotient(0, p.group, 0, 0);
  }

  lemma NumberLast(vals: seq<nat>, v: nat, from: nat, base: nat)
    requires from <= |vals|
    ensures (vals + [v])[..from] == vals[..from]
    ensures Number((vals + [v])[from..], base) == Number(vals[from..], base) * base + v
  {
    var tail := (vals + [v])[from..];
    assert tail == vals[from..] + [v];
    assert tail[..|tail| - 1] == vals[from..];
  }

  /** One more value: either it stays pending, or it completes a group that fits its field. */
  lemma Accumulate(p: Packing, vals: seq<nat>, bits: seq<bool>, count: nat, data: nat, v: nat, next: nat)
    requires v < p.base && next == data * p.base + v
    requires Accumulated(p, vals, bits, count, data)
    ensures count + 1 < p.group ==> Accumulated(p, vals + [v], bits, count + 1, next)
    ensures count + 1 == p.group ==>
              next < Pow2(p.Width(p.group)) && Accumulated(p, vals + [v], bits + BitsOf(next, p.Width(p.group)), 0, 0)
  {
    hide Packed, Number, Pow2, BitsOf, p.Valid, p.Width;
    var from := |vals| - count;
    NumberLast(vals, v, from, p.base);
    if count + 1 == p.group {
      Flush(p, vals + [v], from);
    }
  }

  /** Appending the pending group, which fits its field, completes the packing. */
  lemma Flush(p: Packing, vals: seq<nat>, from: nat)
    requires p.Valid() && Below(vals, p.base)
    requires from % p.group == 0 && 1 <= |vals| - from <= p.group
    ensures Packed(p, vals) ==
            Packed(p, vals[..from]) + BitsOf(Number(vals[from..], p.base), p.Width(|vals| - from))
    ensures Number(vals[from..], p.base) < Pow2(p.Width(|vals| - from))
    ensures vals[..|vals|] == vals && Number(vals[|vals|..], p.base) == 0
    ensures |vals| - from == p.group ==> |vals| % p.group == 0
  {
    assert Number(vals[|vals|..], p.base) == 0;
    hide Packed, Number, Pow2, BitsOf, p.Valid;
    assert vals == vals[..from] + vals[from..];
    PackedGroup(p, vals[..from], vals[from..]);
    GroupFits(p, vals[from..]);
    NextMultiple(from, p.group);
  }

  lemma NextMultiple(a: nat, g: nat)
    requires g > 0 && a % g == 0
    ensures (a + g) % g == 0
  {
    UniqueQuotient(a + g, g, a / g + 1, 0);
  }

  lemma Finish(p: Packing, vals: seq<nat>, bits: seq<bool>, count: nat, data: nat)
    requires Accumulated(p, vals, bits, count, data)
    ensures count == 0 ==> bits == Packed(p, vals)
    ensures count > 0 ==> data < Pow2(p.Width(count)) && bits + BitsOf(data, p.Width(count)) == Packed(p, vals)
  {
    hide Packed, Number, Pow2, BitsOf, p.Valid, p.Width;
    if count == 0 {
      assert vals[..|vals|] == vals;
    } else {
      Flush(p, vals, |vals| - count);
    }
  }

  method MakeNumeric(digits: seq<CodeUnit>) returns (r: Result<Segment>)
    ensures r.Ok? <==> IsNumericText(digits)
    ensures r.Err? ==> r.error == DomainError
    ensures r.Ok? ==> r.value == Segment(Numeric, |digits|, Packed(NUMERIC, DigitValues(digits)))
  {
    hide Packed, Number, Pow2, BitsOf, Accumulated;
    var bb := new BitBuffer();
    var accumData: nat, accumCount: nat := 0, 0;
    ghost var vals: seq<nat> := [];
    PackingsValid();
    NothingAccumulated(NUMERIC);
    for i := 0 to |digits|
      invariant fresh(bb) && accumCount < 3
      invariant IsNumericText(digits[..i]) && vals == DigitValues(digits[..i])
      invariant Accumulated(NUMERIC, vals, bb.bits, accumCount, accumData)
    {
      var c: int := digits[i];
      if c < 48 || c > 57 {
        return Err(DomainError);
      }
      Accumulate(NUMERIC, vals, bb.bits, accumCount, accumData, c - 48, accumData * 10 + (c - 48));
      vals := vals + [c - 48];
      assert vals == DigitValues(digits[..i + 1]);
      accumData := accumData * 10 + (c - 48);
      accumCount := accumCount + 1;
      if accumCount == 3 {
        var appended := bb.AppendBits(accumData, 10);
        assert appended.Ok?;
        accumData := 0;
        accumCount := 0;
      }
    }
    assert digits[..|digits|] == digits;
    Finish(NUMERIC, vals, bb.bits, accumCount, accumData);
    if accumCount > 0 {
      var appended := bb.AppendBits(accumData, accumCount * 3 + 1);
      assert appended.Ok?;
    }
    r := Ok(Segment(Numeric, |digits|, bb.bits));
  }

  method MakeAlphanumeric(text: seq<CodeUnit>) returns (r: Result<Segment>)
    ensures r.Ok? <==> IsAlphanumericText(text)
    ensures r.Err? ==> r.error == DomainError
    ensures r.Ok? ==> r.value == Segment(Alphanumeric, |text|, Packed(ALPHANUMERIC, CharsetValues(text)))
  {
    CharsetSize();
    hide Packed, Number, Pow2, BitsOf, Accumulated, Charset, CharsetIndex;
    var bb := new BitBuffer();
    var accumData: nat, accumCount: nat := 0, 0;
    ghost var vals: seq<nat> := [];
    PackingsValid();
    NothingAccumulated(ALPHANUMERIC);
    for i := 0 to |text|
      invariant fresh(bb) && accumCount < 2
      invariant IsAlphanumericText(text[..i]) && vals == CharsetValues(text[..i])
      invariant Accumulated(ALPHANUMERIC, vals, bb.bits, accumCount, accumData)
    {
      var k := CharsetIndex(text[i], 0);
      if k < 0 {
        return Err(DomainError);
      }
      Accumulate(ALPHANUMERIC, vals, bb.bits, accumCount, accumData, k, accumData * 45 + k);
      vals := vals + [k];
      assert vals == CharsetValues(text[..i + 1]);
      accumData := accumData * 45 + k;
      accumCount := accumCount + 1;
      if accumCount == 2 {
        var appended := bb.AppendBits(accumData, 11);
        assert appended.Ok?;
        accumData := 0;
        accumCount := 0;
      }
    }
    assert text[..|text|] == text;
    Finish(ALPHANUMERIC, vals, bb.bits, accumCount, accumData);
    if accumCount > 0 {
      var appended := bb.AppendBits(accumData, 6);
      assert appended.Ok?;
    }
    r := Ok(Segment(Alphanumeric, |text|, bb.bits));
  }

  lemma CharsetSize()
    ensures |Charset()| == 45
  {}

  /** The segments that automatic mode choice produces for a text. */
  function SegmentsFor(text: seq<CodeUnit>): seq<Segment> {
    if text == [] then []
    else if IsNumericText(text) then [Segment(Numeric, |text|, Packed(NUMERIC, DigitValues(text)))]
    else if IsAlphanumericText(text) then [Segment(Alphanumeric, |text|, Packed(ALPHANUMERIC, CharsetValues(text)))]
    else [Segment(Bytes, |text|, Packed(BYTES, text))]
  }

  method MakeSegments(text: seq<CodeUnit>) returns (r: Result<seq<Segment>>)
    ensures r.Ok? <==> |text| <= INT_MAX || IsNumericText(text) || IsAlphanumericText(text)
    ensures r.Err? ==> r.error == LengthError
    ensures r.Ok? ==> r.value == SegmentsFor(text)
  {
    hide Packed, Charset, CharsetIndex;
    if text == [] {
      return Ok([]);
    }
    var numeric := IsNumeric(text);
    if numeric {
      var seg := MakeNumeric(text);
      return Ok([seg.value]);
    }
    var alphanumeric := IsAlphanumeric(text);
    if alphanumeric {
      var seg := MakeAlphanumeric(text);
      return Ok([seg.value]);
    }
    var bytes: seq<Octet> := [];
    for i := 0 to |text|
      invariant bytes == text[..i]
    {
      bytes := bytes + [text[i]];
    }
    assert bytes == text;
    var seg := MakeBytes(bytes);
    r := if seg.Ok? then Ok([seg.value]) else Err(seg.error);
  }

  // ----- extended channel interpretation designators -----

  function EciData(assignVal: nat): seq<bool> {
    if assignVal < 128 then BitsOf(assignVal, 8)
    else if assignVal < 16384 then [true, false] + BitsOf(assignVal, 14)
    else [true, true, false] + BitsOf(assignVal, 21)
  }

  lemma SmallPowers()
    ensures Pow2(2) == 4 && Pow2(3) == 8 && Pow2(4) == 16 && Pow2(7) == 128 && Pow2(8) == 256
    ensures Pow2(14) == 16384 && Pow2(21) == 2097152
    ensures BitsOf(2, 2) == [true, false] && BitsOf(6, 3) == [true, true, false]
  {
    assert Pow2(7) == 128;
    assert Pow2(10) == 8 * Pow2(7);
    assert Pow2(14) == 16 * Pow2(10);
    assert Pow2(18) == 16 * Pow2(14);
    assert Pow2(21) == 8 * Pow2(18);
    assert BitsOf(1, 1) == [true];
    assert BitsOf(3, 2) == [true, true];
  }

  method MakeEci(assignVal: int) returns (r: Result<Segment>)
    ensures r.Ok? <==> 0 <= assignVal < 1000000
    ensures r.Err? ==> r.error == DomainError
    ensures r.Ok? ==> r.value == Segment(Eci, 0, EciData(assignVal))
  {
    SmallPowers();
    hide Pow2, BitsOf;
    var bb := new BitBuffer();
    if assignVal < 0 {
      return Err(DomainError);
    } else if assignVal < 128 {
      var appended := bb.AppendBits(assignVal, 8);
      assert appended.Ok?;
    } else if assignVal < 16384 {
      var prefix := bb.AppendBits(2, 2);
      assert prefix.Ok?;
      var appended := bb.AppendBits(assignVal, 14);
      assert appended.Ok?;
    } else if assignVal < 1000000 {
      var prefix := bb.AppendBits(6, 3);
      assert prefix.Ok?;
      var appended := bb.AppendBits(assignVal, 21);
      assert appended.Ok?;
    } else {
      return Err(DomainError);
    }
    r := Ok(Segment(Eci, 0, bb.bits));
  }

  // ----- the alphanumeric set in numbers -----

  /** The character with value v in the standard's table: digits, upper case letters, then nine others. */
  function CharacterOf(v: nat): nat
    requires v < 45
  {
    if v < 10 then 48 + v
    else if v < 36 then 65 + (v - 10)
    else match v
      case 36 => 32
      case 37 => 36
      case 38 => 37
      case 39 => 42
      case 40 => 43
      case 41 => 45
      case 42 => 46
      case 43 => 47
      case _ => 58
  }

  lemma DigitsInTable(v: nat)
    requires 0 <= v < 10
    ensures |Charset()| == 45 && Charset()[v] as int == CharacterOf(v)
  {
    if v == 0 { assert Charset()[0] == '0'; }
    else if v == 1 { assert Charset()[1] == '1'; }
    else if v == 2 { assert Charset()[2] == '2'; }
    else if v == 3 { assert Charset()[3] == '3'; }
    else if v == 4 { assert Charset()[4] == '4'; }
    else if v == 5 { assert Charset()[5] == '5'; }
    else if v == 6 { assert Charset()[6] == '6'; }
    else if v == 7 { assert Charset()[7] == '7'; }
    else if v == 8 { assert Charset()[8] == '8'; }
    else { assert Charset()[9] == '9'; }
  }

  lemma FirstLettersInTable(v: nat)
    requires 10 <= v < 23
    ensures |Charset()| == 45 && Charset()[v] as int == CharacterOf(v)
  {
    if v == 10 { assert Charset()[10] == 'A'; }
    else if v == 11 { assert Charset()[11] == 'B'; }
    else if v == 12 { assert Charset()[12] == 'C'; }
    else if v == 13 { assert Charset()[13] == 'D'; }
    else if v == 14 { assert Charset()[14] == 'E'; }
    else if v == 15 { assert Charset()[15] == 'F'; }
    else if v == 16 { assert Charset()[16] == 'G'; }
    else if v == 17 { assert Charset()[17] == 'H'; }
    else if v == 18 { assert Charset()[18] == 'I'; }
    else if v == 19 { assert Charset()[19] == 'J'; }
    else if v == 20 { assert Charset()[20] == 'K'; }
    else if v == 21 { assert Charset()[21] == 'L'; }
    else { assert Charset()[22] == 'M'; }
  }

  lemma LastLettersInTable(v: nat)
    requires 23 <= v < 36
    ensures |Charset()| == 45 && Charset()[v] as int == CharacterOf(v)
  {
    if v == 23 { assert Charset()[23] == 'N'; }
    else if v == 24 { assert Charset()[24] == 'O'; }
    else if v == 25 { assert Charset()[25] == 'P'; }
    else if v == 26 { assert Charset()[26] == 'Q'; }
    else if v == 27 { assert Charset()[27] == 'R'; }
    else if v == 28 { assert Charset()[28] == 'S'; }
    else if v == 29 { assert Charset()[29] == 'T'; }
    else if v == 30 { assert Charset()[30] == 'U'; }
    else if v == 31 { assert Charset()[31] == 'V'; }
    else if v == 32 { assert Charset()[32] == 'W'; }
    else if v == 33 { assert Charset()[33] == 'X'; }
    else if v == 34 { assert Charset()[34] == 'Y'; }
    else { assert Charset()[35] == 'Z'; }
  }

  lemma OthersInTable(v: nat)
    requires 36 <= v < 45
    ensures |Charset()| == 45 && Charset()[v] as int == CharacterOf(v)
  {
    if v == 36 { assert Charset()[36] == ' '; }
    else if v == 37 { assert Charset()[37] == '$'; }
    else if v == 38 { assert Charset()[38] == '%'; }
    else if v == 39 { assert Charset()[39] == '*'; }
    else if v == 40 { assert Charset()[40] == '+'; }
    else if v == 41 { assert Charset()[41] == '-'; }
    else if v == 42 { assert Charset()[42] == '.'; }
    else if v == 43 { assert Charset()[43] == '/'; }
    else { assert Charset()[44] == ':'; }
  }

  /** The set holds the standard's 45 characters in order. */
  lemma CharsetTable(v: nat)
    requires v < 45
    ensures |Charset()| == 45 && Charset()[v] as int == CharacterOf(v)
  {
    hide Charset, CharacterOf;
    if v < 10 {
      DigitsInTable(v);
    } else if v < 23 {
      FirstLettersInTable(v);
    } else if v < 36 {
      LastLettersInTable(v);
    } else {
      OthersInTable(v);
    }
  }

  // ----- a reference reader for payloads -----

  /** The code units a segment stands for, or nothing for a segment that carries no text or is malformed. */
  function ReadSegment(seg: Segment): Option<seq<nat>> {
    match seg.mode
    case Numeric =>
      var vals := Unpacked(NUMERIC, seg.data, seg.numChars);
      if vals.None? then None else Some(seq(|vals.value|, i requires 0 <= i < |vals.value| => vals.value[i] + 48))
    case Alphanumeric =>
      var vals := Unpacked(ALPHANUMERIC, seg.data, seg.numChars);
      if vals.None? || exists i :: 0 <= i < |vals.value| && vals.value[i] >= 45 then None
      else Some(seq(|vals.value|, i requires 0 <= i < |vals.value| => CharacterOf(vals.value[i])))
    case Bytes => Unpacked(BYTES, seg.data, seg.numChars)
    case Kanji => None
    case Eci => None
  }

  function ReadSegments(segs: seq<Segment>): Option<seq<nat>> {
    if segs == [] then Some([])
    else
      var head, tail := ReadSegment(segs[0]), ReadSegments(segs[1..]);
      if head.None? || tail.None? then None else Some(head.value + tail.value)
  }

  /** Whatever mode is chosen, reading the segments gives the text back. */
  lemma TextRoundTrip(text: seq<CodeUnit>)
    ensures ReadSegments(SegmentsFor(text)) == Some(text)
  {
    hide Packed, Unpacked, Charset, CharsetIndex;
    PackingsValid();
    if text != [] {
      var segs := SegmentsFor(text);
      assert segs[1..] == [];
      assert ReadSegment(segs[0]) == Some(text) by {
        if IsNumericText(text) {
          NumericRoundTrip(text);
        } else if IsAlphanumericText(text) {
          AlphanumericRoundTrip(text);
        } else {
          UnpackedPacked(BYTES, text);
        }
      }
      assert text + [] == text;
    }
  }

  lemma NumericRoundTrip(text: seq<CodeUnit>)
    requires IsNumericText(text)
    ensures ReadSegment(Segment(Numeric, |text|, Packed(NUMERIC, DigitValues(text)))) == Some(text)
    ensures |Packed(NUMERIC, DigitValues(text))| == |text| / 3 * 10 + [0, 4, 7][|text| % 3]
  {
    hide Packed, Unpacked;
    PackingsValid();
    var vals := DigitValues(text);
    UnpackedPacked(NUMERIC, vals);
    PackedLength(NUMERIC, vals);
    assert seq(|vals|, i requires 0 <= i < |vals| => vals[i] + 48) == text;
  }

  lemma AlphanumericRoundTrip(text: seq<CodeUnit>)
    requires IsAlphanumericText(text)
    ensures ReadSegment(Segment(Alphanumeric, |text|, Packed(ALPHANUMERIC, CharsetValues(text)))) == Some(text)
    ensures |Packed(ALPHANUMERIC, CharsetValues(text))| == |text| / 2 * 11 + |text| % 2 * 6
  {
    CharsetSize();
    hide Packed, Unpacked, Charset, CharsetIndex, CharacterOf;
    PackingsValid();
    var vals := CharsetValues(text);
    UnpackedPacked(ALPHANUMERIC, vals);
    PackedLength(ALPHANUMERIC, vals);
    forall i | 0 <= i < |vals|
      ensures CharacterOf(vals[i]) == text[i]
    {
      CharsetTable(vals[i]);
    }
    assert seq(|vals|, i requires 0 <= i < |vals| => CharacterOf(vals[i])) == text;
  }
}
