/** CRC-16/CCITT-FALSE: the shift-and-xor register of the source, and what it computes.

    The register is a 16-bit word updated by eight shift/xor rounds per byte.  Its
    meaning is a remainder: read as a polynomial over GF(2), the CRC of an n-byte
    message m is (m * x^16 + 0xFFFF * x^(8n)) mod (x^16 + x^12 + x^5 + 1). */
module Crc16 {
  import opened Gf2Poly

  const INIT: bv16 := 0xFFFF

  function Word(b: bv8): bv16 {
    b as bv16
  }

  function HighByte(b: bv8): bv16 {
    (b as bv16) << 8
  }

  function Shl(w: bv16): bv16 {
    w << 1
  }

  /** One round: shift the register left, dividing by the generator when a 1 falls out. */
  function Round(crc: bv16): bv16 {
    if crc & 0x8000 != 0 then Shl(crc) ^ 0x1021 else Shl(crc)
  }

  function Rounds(crc: bv16, n: nat): bv16
    decreases n, crc
  {
    if n == 0 then crc else Round(Rounds(crc, n - 1))
  }

  function Updated(crc: bv16, byte: bv8): bv16 {
    Rounds(crc ^ HighByte(byte), 8)
  }

  /** The register after a whole message, started from INIT. */
  function Crc(m: seq<bv8>): bv16 {
    if m == [] then INIT else Updated(Crc(m[..|m| - 1]), m[|m| - 1])
  }

  lemma CrcAppend(m: seq<bv8>, b: bv8)
    ensures Crc(m + [b]) == Updated(Crc(m), b)
  {
    assert (m + [b])[..|m|] == m;
  }

  // ---- The source's loops ----

  lemma RoundsNext(crc: bv16, n: nat)
    ensures Rounds(crc, n + 1) == Round(Rounds(crc, n))
  {}

  method Update(crc: bv16, byte: bv8) returns (result: bv16)
    ensures result == Updated(crc, byte)
  {
    var register := crc ^ HighByte(byte);
    ghost var start := register;
    for bit := 0 to 8
      invariant register == Rounds(start, bit)
    {
      RoundsNext(start, bit);
      if register & 0x8000 != 0 {
        register := Shl(register) ^ 0x1021;
      } else {
        register := Shl(register);
      }
    }
    result := register;
  }

  method Compute(data: array<bv8>, len: nat) returns (crc: bv16)
    requires len <= data.Length
    ensures crc == Crc(data[..len])
    ensures Congruent(Dividend(data[..len]), Poly16(crc))
  {
    crc := INIT;
    for i := 0 to len
      invariant crc == Crc(data[..i])
    {
      CrcAppend(data[..i], data[i]);
      assert data[..i + 1] == data[..i] + [data[i]];
      crc := Update(crc, data[i]);
    }
    CrcMeaning(data[..len]);
  }

  // ---- Words and messages as polynomials ----

  function Mask(i: nat): bv16
    requires i < 16
  {
    match i
    case 0 => 0x0001 case 1 => 0x0002 case 2 => 0x0004 case 3 => 0x0008
    case 4 => 0x0010 case 5 => 0x0020 case 6 => 0x0040 case 7 => 0x0080
    case 8 => 0x0100 case 9 => 0x0200 case 10 => 0x0400 case 11 => 0x0800
    case 12 => 0x1000 case 13 => 0x2000 case 14 => 0x4000 case _ => 0x8000
  }

  predicate Bit(w: bv16, i: nat)
    requires i < 16
  {
    w & Mask(i) != 0
  }

  function Poly16(w: bv16): Poly {
    set i: nat | i < 16 && Bit(w, i)
  }

  function Poly8(b: bv8): Poly {
    Poly16(Word(b))
  }

  /** The coefficient of x^e in a message. */
  predicate BitAt(m: seq<bv8>, e: nat)
    requires e < 8 * |m|
  {
    Bit(Word(m[|m| - 1 - e / 8]), e % 8)
  }

  /** Bytes as a polynomial, first byte most significant, each byte MSB first. */
  function PolyBytes(m: seq<bv8>): Poly {
    set e: nat | e < 8 * |m| && BitAt(m, e)
  }

  /** m * x^16 + 0xFFFF * x^(8n) for an n-byte message m. */
  function Dividend(m: seq<bv8>): Poly {
    Add(Shift(PolyBytes(m), 16), Shift(Poly16(INIT), 8 * |m|))
  }

  // ---- Bit-level facts; the ones with word arithmetic mention words alone ----

  lemma ShlAtMask(w: bv16, i: nat, j: nat)
    requires j < 15 && i == j + 1
    ensures Bit(Shl(w), i) <==> Bit(w, j)
  {}

  lemma ShlLowBit(w: bv16)
    ensures !Bit(Shl(w), 0)
  {}

  lemma HighByteAtMask(b: bv8, i: nat, j: nat)
    requires j < 8 && i == j + 8
    ensures Bit(HighByte(b), i) <==> Bit(Word(b), j)
    ensures !Bit(HighByte(b), j)
    ensures !Bit(Word(b), i)
  {}

  predicate OneHot(m: bv16) {
    m != 0 && m & (m - 1) == 0
  }

  lemma MaskIsOneHot(i: nat)
    requires i < 16
    ensures OneHot(Mask(i))
  {}

  lemma XorAtMask(w: bv16, v: bv16, m: bv16)
    requires OneHot(m)
    ensures (w ^ v) & m != 0 <==> ((w & m != 0) != (v & m != 0))
  {}

  lemma BitXor(w: bv16, v: bv16, i: nat)
    requires i < 16
    ensures Bit(w ^ v, i) <==> Bit(w, i) != Bit(v, i)
  {
    MaskIsOneHot(i);
    XorAtMask(w, v, Mask(i));
  }

  lemma PolyXor(w: bv16, v: bv16, x: bv16)
    requires x == w ^ v
    ensures Poly16(x) == Add(Poly16(w), Poly16(v))
  {
    forall i: nat | i < 16
      ensures Bit(x, i) <==> Bit(w, i) != Bit(v, i)
    {
      BitXor(w, v, i);
    }
  }

  lemma BitShl(w: bv16, x: bv16, i: nat)
    requires x == Shl(w) && i < 16
    ensures Bit(x, i) <==> i > 0 && Bit(w, i - 1)
  {
    if i == 0 {
      ShlLowBit(w);
    } else {
      ShlAtMask(w, i, i - 1);
    }
  }

  lemma PolyShl(w: bv16, x: bv16)
    requires x == Shl(w)
    ensures Poly16(x) == Shift(Poly16(w), 1) - {16}
  {
    forall i: nat | i < 16
      ensures Bit(x, i) <==> i > 0 && Bit(w, i - 1)
    {
      BitShl(w, x, i);
    }
  }

  lemma Poly8Degree(b: bv8)
    ensures DegreeBelow(Poly8(b), 8)
  {
    var w := Word(b);
    forall i: nat | 8 <= i < 16
      ensures !Bit(w, i)
    {
      HighByteAtMask(b, i, i - 8);
    }
  }

  lemma PolyHighByte(b: bv8)
    ensures Poly16(HighByte(b)) == Shift(Poly8(b), 8)
  {
    Poly8Degree(b);
    var x := HighByte(b);
    forall i: nat
      ensures i in Poly16(x) <==> i in Shift(Poly8(b), 8)
    {
      if i < 8 {
        HighByteAtMask(b, i + 8, i);
      } else if i < 16 {
        HighByteAtMask(b, i, i - 8);
      }
    }
  }

  lemma NonzeroWordHasMaskedBit(w: bv16)
    requires w != 0
    ensures exists i: nat :: i < 16 && Bit(w, i)
  {
    assert Bit(w, 0) || Bit(w, 1) || Bit(w, 2) || Bit(w, 3)
        || Bit(w, 4) || Bit(w, 5) || Bit(w, 6) || Bit(w, 7)
        || Bit(w, 8) || Bit(w, 9) || Bit(w, 10) || Bit(w, 11)
        || Bit(w, 12) || Bit(w, 13) || Bit(w, 14) || Bit(w, 15);
  }

  lemma NonzeroWordHasBit(w: bv16)
    requires w != 0
    ensures Poly16(w) != {}
  {
    NonzeroWordHasMaskedBit(w);
    var i: nat :| i < 16 && Bit(w, i);
    assert i in Poly16(w);
  }

  lemma XorZero(w: bv16, v: bv16, x: bv16)
    requires x == w ^ v
    ensures x == 0 <==> w == v
  {}

  /** Distinct words are distinct polynomials. */
  lemma PolyInjective(w: bv16, v: bv16)
    ensures Poly16(w) == Poly16(v) <==> w == v
  {
    var x := w ^ v;
    XorZero(w, v, x);
    PolyXor(w, v, x);
    if w != v {
      NonzeroWordHasBit(x);
    }
  }

  lemma PolyBytesAppend(m: seq<bv8>, b: bv8)
    ensures PolyBytes(m + [b]) == Add(Shift(PolyBytes(m), 8), Poly8(b))
  {
    Poly8Degree(b);
    var n := m + [b];
    forall e: nat
      ensures e in PolyBytes(n) <==> e in Add(Shift(PolyBytes(m), 8), Poly8(b))
    {
      if 8 <= e < 8 * |n| {
        assert (e - 8) / 8 == e / 8 - 1 && (e - 8) % 8 == e % 8;
        assert n[|n| - 1 - e / 8] == m[|m| - 1 - (e - 8) / 8];
      }
    }
  }

  // ---- The register computes a remainder ----

  lemma GeneratorTail()
    ensures Poly16(0x1021) == {0, 5, 12}
  {
    forall i: nat | i < 16 ensures Bit(0x1021, i) <==> i == 0 || i == 5 || i == 12 {
    }
  }

  lemma TopBitShiftsOut(w: bv16)
    ensures 16 in Shift(Poly16(w), 1) <==> w & 0x8000 != 0
  {
    assert 15 in Poly16(w) <==> Bit(w, 15);
  }

  lemma DivideOnce(p: Poly, x: Poly, r: Poly)
    requires 16 in p && x == p - {16} && r == Add(x, {0, 5, 12})
    ensures Congruent(p, r)
  {
    assert Add(p, r) == {16, 12, 5, 0};
    assert TimesGenerator({0}) == {16, 12, 5, 0};
  }

  lemma RoundMeaning(w: bv16)
    ensures Congruent(Shift(Poly16(w), 1), Poly16(Round(w)))
  {
    var p, x := Shift(Poly16(w), 1), Shl(w);
    PolyShl(w, x);
    TopBitShiftsOut(w);
    if w & 0x8000 != 0 {
      PolyXor(x, 0x1021, Round(w));
      GeneratorTail();
      DivideOnce(p, Poly16(x), Poly16(Round(w)));
    } else {
      assert Add(p, Poly16(x)) == TimesGenerator({});
    }
  }

  lemma {:induction false} RoundsMeaning(w: bv16, n: nat)
    ensures Congruent(Shift(Poly16(w), n), Poly16(Rounds(w, n)))
  {
    if n == 0 {
      assert Shift(Poly16(w), 0) == Poly16(w);
      CongruentReflexive(Poly16(w));
    } else {
      RoundsMeaning(w, n - 1);
      CongruentShift(Shift(Poly16(w), n - 1), Poly16(Rounds(w, n - 1)), 1);
      ShiftShift(Poly16(w), n - 1, 1);
      RoundMeaning(Rounds(w, n - 1));
      CongruentTransitive(Shift(Poly16(w), n), Shift(Poly16(Rounds(w, n - 1)), 1), Poly16(Rounds(w, n)));
    }
  }

  lemma UpdatedMeaning(crc: bv16, b: bv8)
    ensures Congruent(Add(Shift(Poly16(crc), 8), Shift(Poly8(b), 16)), Poly16(Updated(crc, b)))
  {
    var h, x := HighByte(b), crc ^ HighByte(b);
    PolyHighByte(b);
    PolyXor(crc, h, x);
    ShiftDistributesOverAdd(Poly16(crc), Shift(Poly8(b), 8), 8);
    ShiftShift(Poly8(b), 8, 8);
    RoundsMeaning(x, 8);
  }

  /** compute(m) is (m * x^16 + 0xFFFF * x^(8n)) mod the generator: it is congruent to
      that dividend and, being a 16-bit word, has degree below 16. */
  lemma {:induction false} CrcMeaning(m: seq<bv8>)
    ensures Congruent(Dividend(m), Poly16(Crc(m)))
    ensures DegreeBelow(Poly16(Crc(m)), 16)
  {
    if m == [] {
      assert Dividend(m) == Poly16(INIT);
      CongruentReflexive(Poly16(INIT));
    } else {
      var s, b := m[..|m| - 1], m[|m| - 1];
      assert m == s + [b];
      CrcMeaning(s);
      var c := Poly16(Crc(s));
      CongruentShift(Dividend(s), c, 8);
      CongruentReflexive(Shift(Poly8(b), 16));
      CongruentAdd(Shift(Dividend(s), 8), Shift(c, 8), Shift(Poly8(b), 16), Shift(Poly8(b), 16));
      DividendAppend(s, b);
      UpdatedMeaning(Crc(s), b);
      CongruentTransitive(Dividend(m), Add(Shift(c, 8), Shift(Poly8(b), 16)), Poly16(Crc(m)));
    }
  }

  lemma DividendAppend(s: seq<bv8>, b: bv8)
    ensures Dividend(s + [b]) == Add(Shift(Dividend(s), 8), Shift(Poly8(b), 16))
  {
    var p, c, i := PolyBytes(s), Poly8(b), Poly16(INIT);
    assert Shift(PolyBytes(s + [b]), 16) == Add(Shift(p, 24), Shift(c, 16)) by {
      PolyBytesAppend(s, b);
      ShiftDistributesOverAdd(Shift(p, 8), c, 16);
      ShiftShift(p, 8, 16);
    }
    assert Shift(Dividend(s), 8) == Add(Shift(p, 24), Shift(i, 8 * |s| + 8)) by {
      ShiftDistributesOverAdd(Shift(p, 16), Shift(i, 8 * |s|), 8);
      ShiftShift(p, 16, 8);
      ShiftShift(i, 8 * |s|, 8);
    }
    AddSwapLast(Shift(p, 24), Shift(c, 16), Shift(i, 8 * |s| + 8));
  }

  /** The meaning leaves no freedom: any word congruent to the dividend is the CRC. */
  lemma CrcIsTheRemainder(m: seq<bv8>, w: bv16)
    ensures Congruent(Dividend(m), Poly16(w)) <==> w == Crc(m)
  {
    CrcMeaning(m);
    if Congruent(Dividend(m), Poly16(w)) {
      RemainderUnique(Dividend(m), Poly16(w), Poly16(Crc(m)));
      PolyInjective(w, Crc(m));
    }
  }

  // ---- Xor-linearity ----

  function XorBytes(a: seq<bv8>, b: seq<bv8>): (r: seq<bv8>)
    requires |a| == |b|
    ensures |r| == |a|
  {
    seq(|a|, i requires 0 <= i < |a| => a[i] ^ b[i])
  }

  lemma BitOfXor(a: bv8, b: bv8, x: bv8, i: nat)
    requires i < 16 && x == a ^ b
    ensures Bit(Word(x), i) <==> Bit(Word(a), i) != Bit(Word(b), i)
  {
    BitXor(Word(a), Word(b), i);
  }

  lemma PolyXorBytes(a: seq<bv8>, b: seq<bv8>)
    requires |a| == |b|
    ensures PolyBytes(XorBytes(a, b)) == Add(PolyBytes(a), PolyBytes(b))
  {
    var x := XorBytes(a, b);
    forall e: nat | e < 8 * |a|
      ensures BitAt(x, e) <==> BitAt(a, e) != BitAt(b, e)
    {
      var j := |a| - 1 - e / 8;
      BitOfXor(a[j], b[j], x[j], e % 8);
    }
  }

  /** The xor of two CRCs is the remainder of the xor of the messages, shifted by 16:
      the initial value cancels. */
  lemma CrcDifferenceMeaning(a: seq<bv8>, b: seq<bv8>, x: bv16)
    requires |a| == |b| && x == Crc(a) ^ Crc(b)
    ensures Congruent(Shift(PolyBytes(XorBytes(a, b)), 16), Poly16(x))
  {
    CrcMeaning(a);
    CrcMeaning(b);
    DifferenceOfRemainders(Dividend(a), Dividend(b), Crc(a), Crc(b), x);
    DividendDifference(a, b);
  }

  lemma DifferenceOfRemainders(p: Poly, q: Poly, w: bv16, v: bv16, x: bv16)
    requires Congruent(p, Poly16(w)) && Congruent(q, Poly16(v)) && x == w ^ v
    ensures Congruent(Add(p, q), Poly16(x))
  {
    CongruentAdd(p, Poly16(w), q, Poly16(v));
    PolyXor(w, v, x);
  }

  lemma DividendDifference(a: seq<bv8>, b: seq<bv8>)
    requires |a| == |b|
    ensures Add(Dividend(a), Dividend(b)) == Shift(PolyBytes(XorBytes(a, b)), 16)
  {
    PolyXorBytes(a, b);
    ShiftDistributesOverAdd(PolyBytes(a), PolyBytes(b), 16);
  }

  /** The CRC difference of two equal-length messages depends only on their xor. */
  lemma CrcDifferenceDependsOnXorOnly(a: seq<bv8>, b: seq<bv8>, c: seq<bv8>, d: seq<bv8>)
    requires |a| == |b| && |c| == |d| && XorBytes(a, b) == XorBytes(c, d)
    ensures Crc(a) ^ Crc(b) == Crc(c) ^ Crc(d)
  {
    var x, y := Crc(a) ^ Crc(b), Crc(c) ^ Crc(d);
    CrcDifferenceMeaning(a, b, x);
    CrcDifferenceMeaning(c, d, y);
    RemainderUnique(Shift(PolyBytes(XorBytes(a, b)), 16), Poly16(x), Poly16(y));
    PolyInjective(x, y);
  }
}
