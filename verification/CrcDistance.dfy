/** Two flipped bits: the order of x modulo the generator is far above the length of a frame,
    so no two flips in one frame cancel. */
module CrcDistance {
  import opened Gf2Poly
  import opened Crc16
  import opened UartMachine
  import opened UartErrors
  import opened Divisors

  // ---- x can be cancelled: the generator has a constant term ----

  function Down(q: Poly): Poly {
    set e: nat | e in Shift(q, 0) && e > 0 :: e - 1
  }

  lemma DownShift(q: Poly)
    requires 0 !in q
    ensures Shift(Down(q), 1) == q
  {
    forall e: nat
      ensures e in Shift(Down(q), 1) <==> e in q
    {
      if e > 0 && e in q {
        assert e in Shift(q, 0);
        assert e - 1 in Down(q);
      }
    }
  }

  lemma ShiftInjective(a: Poly, b: Poly, k: nat)
    requires Shift(a, k) == Shift(b, k)
    ensures a == b
  {
    forall e: nat
      ensures e in a <==> e in b
    {
      assert e + k in Shift(a, k) <==> e + k in Shift(b, k);
    }
  }

  lemma NoConstantTerm(a: Poly, q: Poly)
    requires Shift(a, 1) == TimesGenerator(q)
    ensures 0 !in q
  {
    if 0 in q {
      BottomTerm(q, 0);
    }
  }

  lemma CancelOne(a: Poly)
    requires IsMultiple(Shift(a, 1))
    ensures IsMultiple(a)
  {
    var q: Poly :| Shift(a, 1) == TimesGenerator(q);
    NoConstantTerm(a, q);
    DownShift(q);
    ShiftCommutesWithTimesGenerator(Down(q), 1);
    ShiftInjective(a, TimesGenerator(Down(q)), 1);
  }

  lemma {:induction false} CancelShift(a: Poly, k: nat)
    requires IsMultiple(Shift(a, k))
    ensures IsMultiple(a)
  {
    if k == 0 {
      assert Shift(a, 0) == a;
    } else {
      ShiftShift(a, k - 1, 1);
      CancelOne(Shift(a, k - 1));
      CancelShift(a, k - 1);
    }
  }

  // ---- The periods of x ----

  /** x^d leaves remainder 1. */
  ghost predicate Period(d: nat) {
    Congruent({d}, {0})
  }

  lemma ShiftOfPower(d: nat, k: nat)
    ensures Shift({d}, k) == {d + k}
  {}

  lemma PowersShift(a: nat, b: nat, d: nat, one: Poly)
    requires a == d + b && one == Add({d}, {0})
    ensures Shift(one, b) == Add({a}, {b})
  {
    ShiftDistributesOverAdd({d}, {0}, b);
    ShiftOfPower(d, b);
    ShiftOfPower(0, b);
  }

  lemma CancelPower(both: Poly, one: Poly, b: nat)
    requires IsMultiple(both) && Shift(one, b) == both
    ensures IsMultiple(one)
  {
    CancelShift(one, b);
  }

  lemma SamePower(a: nat, b: nat)
    requires Congruent({a}, {b}) && a >= b
    ensures Period(a - b)
  {
    var d: nat := a - b;
    PowersShift(a, b, d, Add({d}, {0}));
    CancelPower(Add({a}, {b}), Add({d}, {0}), b);
  }

  lemma PeriodMovesPower(d: nat, k: nat)
    requires Period(d)
    ensures Congruent({d + k}, {k})
  {
    CongruentShift({d}, {0}, k);
    ShiftOfPower(d, k);
    ShiftOfPower(0, k);
  }

  lemma PeriodDifference(a: nat, b: nat)
    requires Period(a) && Period(b) && a >= b
    ensures Period(a - b)
  {
    CongruentSymmetric({b}, {0});
    CongruentTransitive({a}, {0}, {b});
    SamePower(a, b);
  }

  lemma PeriodSum(a: nat, b: nat)
    requires Period(a) && Period(b)
    ensures Period(a + b)
  {
    PeriodMovesPower(a, b);
    CongruentTransitive({a + b}, {b}, {0});
  }

  lemma {:induction false} GcdIsPeriod(a: nat, b: nat)
    requires a > 0 && b > 0 && Period(a) && Period(b)
    ensures Period(Gcd(a, b))
    decreases a + b
  {
    if a > b {
      PeriodDifference(a, b);
      GcdIsPeriod(a - b, b);
    } else if a < b {
      PeriodDifference(b, a);
      GcdIsPeriod(a, b - a);
    }
  }

  function Times(d: nat, k: nat): nat {
    if k == 0 then 0 else Times(d, k - 1) + d
  }

  lemma {:induction false} TimesIsProduct(d: nat, k: nat)
    ensures Times(d, k) == k * d
  {
    if k > 0 {
      TimesIsProduct(d, k - 1);
      assert k * d == (k - 1) * d + d;
    }
  }

  lemma ZeroIsPeriod()
    ensures Period(0)
  {
    CongruentReflexive({0});
  }

  lemma {:induction false} TimesIsPeriod(d: nat, k: nat)
    requires Period(d)
    ensures Period(Times(d, k))
  {
    if k == 0 {
      ZeroIsPeriod();
    } else {
      TimesIsPeriod(d, k - 1);
      PeriodSum(Times(d, k - 1), d);
    }
  }

  lemma MultipleIsPeriod(d: nat, n: nat)
    requires Period(d) && Divides(d, n)
    ensures Period(n)
  {
    var k: nat :| n == k * d;
    TimesIsPeriod(d, k);
    TimesIsProduct(d, k);
  }

  // ---- Squaring ----

  function Double(p: Poly): Poly {
    set e | e in p :: 2 * e
  }

  lemma InDouble(p: Poly, e: nat)
    ensures e in Double(p) <==> e % 2 == 0 && e / 2 in p
  {
    if e % 2 == 0 {
      assert e == 2 * (e / 2);
    }
  }

  lemma DoubleAdd(p: Poly, q: Poly)
    ensures Double(Add(p, q)) == Add(Double(p), Double(q))
  {
    forall e: nat
      ensures e in Double(Add(p, q)) <==> e in Add(Double(p), Double(q))
    {
      InDouble(Add(p, q), e);
      InDouble(p, e);
      InDouble(q, e);
    }
  }

  lemma HalfOf(e: nat, k: nat, n: nat)
    requires n == 2 * k && e % 2 == 0
    ensures e >= n <==> e / 2 >= k
    ensures e >= n ==> (e - n) % 2 == 0 && (e - n) / 2 == e / 2 - k
  {}

  lemma DoubleShiftAt(p: Poly, k: nat, n: nat, e: nat)
    requires n == 2 * k
    ensures e in Double(Shift(p, k)) <==> e in Shift(Double(p), n)
  {
    InDouble(Shift(p, k), e);
    if e >= n {
      InDouble(p, e - n);
    }
    if e % 2 == 0 {
      HalfOf(e, k, n);
    }
  }

  lemma DoubleShift(p: Poly, k: nat, n: nat)
    requires n == 2 * k
    ensures Double(Shift(p, k)) == Shift(Double(p), n)
  {
    forall e: nat
      ensures e in Double(Shift(p, k)) <==> e in Shift(Double(p), n)
    {
      DoubleShiftAt(p, k, n, e);
    }
  }

  predicate In(p: Poly, e: int) {
    e >= 0 && e in p
  }

  lemma InAdd(a: Poly, b: Poly, e: int)
    ensures In(Add(a, b), e) <==> In(a, e) != In(b, e)
  {}

  lemma InShift(a: Poly, k: nat, e: int)
    ensures In(Shift(a, k), e) <==> In(a, e - k)
  {}

  function Four(q: Poly, i: nat, j: nat, k: nat): Poly {
    Add(Add(Shift(q, i), Shift(q, j)), Add(Shift(q, k), q))
  }

  lemma InFourTerms(q: Poly, i: nat, j: nat, k: nat, e: int, u: bool, v: bool, w: bool, x: bool)
    requires u == In(q, e - i) && v == In(q, e - j) && w == In(q, e - k) && x == In(q, e)
    ensures In(Four(q, i, j, k), e) == ((u != v) != (w != x))
  {
    InAdd(Add(Shift(q, i), Shift(q, j)), Add(Shift(q, k), q), e);
    InAdd(Shift(q, i), Shift(q, j), e);
    InAdd(Shift(q, k), q, e);
    InShift(q, i, e);
    InShift(q, j, e);
    InShift(q, k, e);
  }

  lemma InFour(q: Poly, i: nat, j: nat, k: nat, e: int, ei: int, ej: int, ek: int)
    requires ei == e - i && ej == e - j && ek == e - k
    ensures In(Four(q, i, j, k), e) == ((In(q, ei) != In(q, ej)) != (In(q, ek) != In(q, e)))
  {
    InFourTerms(q, i, j, k, e, In(q, ei), In(q, ej), In(q, ek), In(q, e));
  }

  lemma TimesTwiceAt(q: Poly, t: Poly, e: int)
    requires t == Four(q, 16, 12, 5)
    ensures In(Four(t, 16, 12, 5), e) == In(Four(q, 32, 24, 10), e)
  {
    InFour(q, 16, 12, 5, e - 16, e - 32, e - 28, e - 21);
    InFour(q, 16, 12, 5, e - 12, e - 28, e - 24, e - 17);
    InFour(q, 16, 12, 5, e - 5, e - 21, e - 17, e - 10);
    InFour(q, 16, 12, 5, e, e - 16, e - 12, e - 5);
    InFour(t, 16, 12, 5, e, e - 16, e - 12, e - 5);
    InFour(q, 32, 24, 10, e, e - 32, e - 24, e - 10);
  }

  /** Multiplying by the generator twice is multiplying by its square: the cross terms cancel. */
  lemma TimesTwice(q: Poly)
    ensures TimesGenerator(TimesGenerator(q)) == Four(q, 32, 24, 10)
  {
    var t := TimesGenerator(q);
    var l, r := Four(t, 16, 12, 5), Four(q, 32, 24, 10);
    forall e: nat
      ensures In(l, e) <==> In(r, e)
    {
      TimesTwiceAt(q, t, e);
    }
    SamePoly(l, r);
  }

  lemma SamePoly(a: Poly, b: Poly)
    requires forall e: nat :: In(a, e) <==> In(b, e)
    ensures a == b
  {
    forall e: nat
      ensures e in a <==> e in b
    {
      assert In(a, e) <==> In(b, e);
    }
  }

  lemma DoubleOfMultiple(q: Poly)
    ensures Double(TimesGenerator(q)) == TimesGenerator(TimesGenerator(Double(q)))
  {
    DoubleShift(q, 16, 32);
    DoubleShift(q, 12, 24);
    DoubleShift(q, 5, 10);
    DoubleAdd(Shift(q, 16), Shift(q, 12));
    DoubleAdd(Shift(q, 5), q);
    DoubleAdd(Add(Shift(q, 16), Shift(q, 12)), Add(Shift(q, 5), q));
    TimesTwice(Double(q));
  }

  lemma CongruentDouble(a: Poly, b: Poly)
    requires Congruent(a, b)
    ensures Congruent(Double(a), Double(b))
  {
    var q: Poly :| Add(a, b) == TimesGenerator(q);
    DoubleAdd(a, b);
    DoubleOfMultiple(q);
  }

  // ---- Squaring a word ----

  /** The eight low bits of w, moved to the even places. */
  function Spread(w: bv16): bv16 {
    var a := w & 0x00FF;
    var b := (a | (a << 4)) & 0x0F0F;
    var c := (b | (b << 2)) & 0x3333;
    (c | (c << 1)) & 0x5555
  }

  function High(w: bv16): bv16 {
    w >> 8
  }

  lemma SpreadBits(w: bv16, v: bv16, i: nat, j: nat)
    requires v == Spread(w) && i < 8 && j == 2 * i
    ensures Bit(v, j) <==> Bit(w, i)
    ensures !Bit(v, j + 1)
  {}

  lemma HighBits(w: bv16, v: bv16, i: nat, j: nat)
    requires v == High(w) && i < 8 && j == i + 8
    ensures Bit(v, i) <==> Bit(w, j)
  {}

  lemma SpreadPoly(w: bv16, v: bv16)
    requires v == Spread(w)
    ensures forall e: nat :: e in Poly16(v) <==> e < 16 && e % 2 == 0 && Bit(w, e / 2)
  {
    forall e: nat | e < 16
      ensures Bit(v, e) <==> e % 2 == 0 && Bit(w, e / 2)
    {
      SpreadBits(w, v, e / 2, e - e % 2);
    }
  }

  lemma DoublePoly(w: bv16, h: bv16, sh: bv16, sl: bv16)
    requires h == High(w) && sh == Spread(h) && sl == Spread(w)
    ensures Double(Poly16(w)) == Add(Shift(Poly16(sh), 16), Poly16(sl))
  {
    SpreadPoly(h, sh);
    SpreadPoly(w, sl);
    forall e: nat
      ensures e in Double(Poly16(w)) <==> e in Add(Shift(Poly16(sh), 16), Poly16(sl))
    {
      InDouble(Poly16(w), e);
      if 16 <= e < 32 && e % 2 == 0 {
        assert (e - 16) / 2 == e / 2 - 8;
        HighBits(w, h, e / 2 - 8, e / 2);
      }
    }
  }

  function SixteenRounds(w: bv16): bv16 {
    EightRounds(EightRounds(w))
  }

  function Square(w: bv16): bv16 {
    Rounds(Spread(High(w)), 16) ^ Spread(w)
  }

  lemma {:induction false} RoundsAdd(w: bv16, a: nat, b: nat)
    ensures Rounds(w, a + b) == Rounds(Rounds(w, a), b)
  {
    if b > 0 {
      RoundsAdd(w, a, b - 1);
    }
  }

  lemma RoundsSixteen(w: bv16, n: nat)
    requires n == 16
    ensures Rounds(w, n) == SixteenRounds(w)
  {
    RoundsAdd(w, n - 8, n - 8);
    RoundsEight(w, n - 8);
    RoundsEight(EightRounds(w), n - 8);
  }

  lemma SumIsCongruent(p: Poly, r: bv16, l: bv16, v: bv16)
    requires Congruent(p, Poly16(r)) && v == r ^ l
    ensures Congruent(Add(p, Poly16(l)), Poly16(v))
  {
    CongruentReflexive(Poly16(l));
    CongruentAdd(p, Poly16(r), Poly16(l), Poly16(l));
    PolyXor(r, l, v);
  }

  lemma SquareMeaning(w: bv16, v: bv16)
    requires v == Square(w)
    ensures Congruent(Double(Poly16(w)), Poly16(v))
  {
    var sh, sl := Spread(High(w)), Spread(w);
    DoublePoly(w, High(w), sh, sl);
    RoundsMeaning(sh, 16);
    SumIsCongruent(Shift(Poly16(sh), 16), Rounds(sh, 16), sl, v);
  }

  /** x^e is the word w modulo the generator. */
  ghost predicate PowerIs(e: nat, w: bv16) {
    Congruent({e}, Poly16(w))
  }

  lemma PowerSquared(e: nat, n: nat, w: bv16, v: bv16)
    requires PowerIs(e, w) && v == Square(w) && n == 2 * e
    ensures PowerIs(n, v)
  {
    CongruentDouble({e}, Poly16(w));
    assert Double({e}) == {n};
    SquareMeaning(w, v);
    CongruentTransitive({n}, Double(Poly16(w)), Poly16(v));
  }

  lemma PowerTimes(e: nat, k: nat, n: nat, w: bv16, r: bv16)
    requires PowerIs(e, w) && n == e + k && r == Rounds(w, k)
    ensures PowerIs(n, r)
  {
    RoundsMeaning(w, k);
    PowerShifts(e, k, n, Poly16(w), Poly16(r));
  }

  lemma PowerShifts(e: nat, k: nat, n: nat, p: Poly, r: Poly)
    requires Congruent({e}, p) && n == e + k && Congruent(Shift(p, k), r)
    ensures Congruent({n}, r)
  {
    CongruentShift({e}, p, k);
    ShiftOfPower(e, k);
    CongruentTransitive({n}, Shift(p, k), r);
  }

  lemma PowerUnique(e: nat, w: bv16, v: bv16)
    requires PowerIs(e, w) && PowerIs(e, v)
    ensures w == v
  {
    RemainderUnique({e}, Poly16(w), Poly16(v));
    PolyInjective(w, v);
  }

  // ---- The order of x ----

  /** x to the powers of two up to 2^15. */
  lemma SquareTable()
    ensures Square(0x0002) == 0x0004 && Square(0x0004) == 0x0010 && Square(0x0010) == 0x0100
    ensures Square(0x0100) == 0x1021 && Square(0x1021) == 0x3730 && Square(0x3730) == 0xB861
    ensures Square(0xB861) == 0xAEFC && Square(0xAEFC) == 0x8E29
  {
    RoundsSixteen(Spread(High(0x0002)), 16);
    RoundsSixteen(Spread(High(0x0004)), 16);
    RoundsSixteen(Spread(High(0x0010)), 16);
    RoundsSixteen(Spread(High(0x0100)), 16);
    RoundsSixteen(Spread(High(0x1021)), 16);
    RoundsSixteen(Spread(High(0x3730)), 16);
    RoundsSixteen(Spread(High(0xB861)), 16);
    RoundsSixteen(Spread(High(0xAEFC)), 16);
  }

  lemma SquareTableOn()
    ensures Square(0x8E29) == 0x13FC && Square(0x13FC) == 0x36C4 && Square(0x36C4) == 0xFD50
    ensures Square(0xFD50) == 0xAA9E && Square(0xAA9E) == 0x881C && Square(0x881C) == 0x4458
    ensures Square(0x4458) == 0x0002
  {
    RoundsSixteen(Spread(High(0x8E29)), 16);
    RoundsSixteen(Spread(High(0x13FC)), 16);
    RoundsSixteen(Spread(High(0x36C4)), 16);
    RoundsSixteen(Spread(High(0xFD50)), 16);
    RoundsSixteen(Spread(High(0xAA9E)), 16);
    RoundsSixteen(Spread(High(0x881C)), 16);
    RoundsSixteen(Spread(High(0x4458)), 16);
  }

  lemma PowersUpTo512()
    ensures PowerIs(32, 0x3730) && PowerIs(256, 0x8E29) && PowerIs(512, 0x13FC)
  {
    OnePower();
    SquareTable();
    SquareTableOn();
    PowerSquared(1, 2, 0x0002, 0x0004);
    PowerSquared(2, 4, 0x0004, 0x0010);
    PowerSquared(4, 8, 0x0010, 0x0100);
    PowerSquared(8, 16, 0x0100, 0x1021);
    PowerSquared(16, 32, 0x1021, 0x3730);
    PowerSquared(32, 64, 0x3730, 0xB861);
    PowerSquared(64, 128, 0xB861, 0xAEFC);
    PowerSquared(128, 256, 0xAEFC, 0x8E29);
    PowerSquared(256, 512, 0x8E29, 0x13FC);
  }

  lemma PowersOn()
    ensures PowerIs(1024, 0x36C4) && PowerIs(32768, 0x0002)
  {
    PowersUpTo512();
    SquareTableOn();
    PowerSquared(512, 1024, 0x13FC, 0x36C4);
    PowerSquared(1024, 2048, 0x36C4, 0xFD50);
    PowerSquared(2048, 4096, 0xFD50, 0xAA9E);
    PowerSquared(4096, 8192, 0xAA9E, 0x881C);
    PowerSquared(8192, 16384, 0x881C, 0x4458);
    PowerSquared(16384, 32768, 0x4458, 0x0002);
  }

  lemma OneBit(w: bv16, i: nat)
    requires i < 2 && w == (if i == 0 then 1 else 2)
    ensures Poly16(w) == {i}
  {
    forall j: nat | j < 16
      ensures Bit(w, j) <==> j == i
    {}
  }

  lemma OnePower()
    ensures PowerIs(1, 0x0002)
  {
    OneBit(2, 1);
    CongruentReflexive({1});
  }

  lemma Period32767()
    ensures Period(32767)
  {
    PowersOn();
    OneBit(2, 1);
    SamePower(32768, 1);
  }

  /** x^217 is not 1: x^256 and x^39 differ. */
  lemma NotPeriod217()
    ensures !Period(217)
  {
    PowersUpTo512();
    var r := Rounds(0x3730, 7);
    SevenRounds(0x3730, 7, r);
    PowerTimes(32, 7, 39, 0x3730, r);
    if Period(217) {
      PeriodMovesPower(217, 39);
      CongruentTransitive({256}, {39}, Poly16(r));
      PowerUnique(256, 0x8E29, r);
    }
  }

  lemma SevenRounds(w: bv16, n: nat, r: bv16)
    requires n == 7 && w == 0x3730 && r == Rounds(w, n)
    ensures r == 0x3B5A
  {
    RoundsNext(w, n - 1);
    RoundsNext(w, n - 2);
    RoundsNext(w, n - 3);
    RoundsNext(w, n - 4);
    RoundsNext(w, n - 5);
    RoundsNext(w, n - 6);
    RoundsNext(w, n - 7);
  }

  /** Nor is x^1057, which is x^1024 after 33 more rounds. */
  lemma NotPeriod1057()
    ensures !Period(1057)
  {
    PowersOn();
    var r := Rounds(0x36C4, 33);
    ThirtyThreeRounds(0x36C4, 8, r);
    PowerTimes(1024, 33, 1057, 0x36C4, r);
    if Period(1057) {
      OneBit(1, 0);
      PowerUnique(1057, 1, r);
    }
  }

  lemma ThirtyThreeRounds(w: bv16, n: nat, r: bv16)
    requires n == 8 && w == 0x36C4 && r == Rounds(w, 4 * n + 1)
    ensures r == 0xF2AF
  {
    RoundsNext(w, 4 * n);
    RoundsAdd(w, 3 * n, n);
    RoundsAdd(w, 2 * n, n);
    RoundsAdd(w, n, n);
    RoundsEight(0x36C4, n);
    RoundsEight(0x9295, n);
    RoundsEight(0x36FB, n);
    RoundsEight(0xAD95, n);
    assert EightRounds(0x36C4) == 0x9295;
    assert EightRounds(0x9295) == 0x36FB;
    assert EightRounds(0x36FB) == 0xAD95;
    assert EightRounds(0xAD95) == 0xF147;
    assert Round(0xF147) == 0xF2AF;
  }

  /** x^d is not 1 for any d below 31 * 151. */
  lemma NoShortPeriod(d: nat)
    requires 0 < d < 4681
    ensures !Period(d)
  {
    if Period(d) {
      Period32767();
      var g := Gcd(d, 32767);
      GcdIsPeriod(d, 32767);
      GcdDivides(d, 32767);
      SmallDivisorsOf32767(g);
      NotPeriod217();
      NotPeriod1057();
      if Divides(g, 217) {
        MultipleIsPeriod(g, 217);
      } else {
        MultipleIsPeriod(g, 1057);
      }
    }
  }

  // ---- Two flipped bits ----

  lemma TwoTerms(e: Poly) returns (a: nat, b: nat)
    requires |e| == 2
    ensures a < b && e == {a, b}
  {
    var x: nat :| x in e;
    assert |e - {x}| == 1;
    var y: nat :| y in e - {x};
    assert |e - {x} - {y}| == 0;
    assert e == {x, y};
    a, b := if x < y then x else y, if x < y then y else x;
  }

  lemma PairIsShifted(a: nat, b: nat, d: nat, one: Poly)
    requires d > 0 && b == a + d && one == Add({d}, {0})
    ensures Shift(one, a) == {a, b}
  {
    assert one == {0, d};
  }

  lemma PairIsPeriod(a: nat, b: nat)
    requires a < b && IsMultiple({a, b})
    ensures Period(b - a)
  {
    PairIsShifted(a, b, b - a, Add({b - a}, {0}));
    CancelShift(Add({b - a}, {0}), a);
  }

  /** Body and CRC field of a frame span at most 2064 bits. */
  lemma ErrorDegree(sent: Attempt, received: Attempt)
    requires |sent.payload| == |received.payload| < 256
    ensures DegreeBelow(ErrorPoly(sent, received), 2064)
  {
    CodeDegree(sent);
    CodeDegree(received);
  }

  lemma CodeDegree(a: Attempt)
    requires |a.payload| < 256
    ensures DegreeBelow(CodePoly(a), 2064)
  {
    FieldDegree(a);
    assert DegreeBelow(PolyBytes(Body(a)), 2048);
  }

  /** Any two bit flips across Type, Payload and CRC are detected. */
  lemma TwoFlipsDetected(m: Machine, sent: Packet, received: Attempt)
    requires Listening(m) && |sent.payload| == |received.payload| < 256
    requires Flips(Sealed(sent), received) == 2
    ensures Rejected(Run(m, Frame(received)), m)
  {
    var e := ErrorPoly(Sealed(sent), received);
    FlipsAreTerms(Sealed(sent), received);
    var a, b := TwoTerms(e);
    ErrorDegree(Sealed(sent), received);
    NoShortPeriod(b - a);
    if IsMultiple(e) {
      PairIsPeriod(a, b);
    }
    UndetectedIffMultiple(m, sent, received);
  }

  /** One, two or three flipped bits are always detected. */
  lemma ThreeFlipsDetected(m: Machine, sent: Packet, received: Attempt)
    requires Listening(m) && |sent.payload| == |received.payload| < 256
    requires 1 <= Flips(Sealed(sent), received) <= 3
    ensures Rejected(Run(m, Frame(received)), m)
  {
    if Flips(Sealed(sent), received) == 2 {
      TwoFlipsDetected(m, sent, received);
    } else {
      OddFlipsDetected(m, sent, received);
    }
  }

  /** The attempt with the lowest bit of its last covered byte flipped. */
  function LowestFlipped(a: Attempt): Attempt {
    if a.payload == [] then a.(ptype := a.ptype ^ 0x01)
    else
      var last := |a.payload| - 1;
      a.(payload := a.payload[last := a.payload[last] ^ 0x01])
  }

  /** The packet with the generator's own four bits flipped. */
  function GeneratorFlipped(sent: Packet): (r: Attempt)
    ensures |r.payload| == |sent.payload|
  {
    var a := LowestFlipped(Sealed(sent));
    a.(lo := a.lo ^ 0x21, hi := a.hi ^ 0x10)
  }

  lemma FieldFlip(a: Attempt, b: Attempt)
    requires b.lo == a.lo ^ 0x21 && b.hi == a.hi ^ 0x10
    ensures CrcField(b) == CrcField(a) ^ 0x1021
  {}

  lemma FieldFlipTerms(a: Attempt, b: Attempt)
    requires b.lo == a.lo ^ 0x21 && b.hi == a.hi ^ 0x10
    ensures Add(Poly16(CrcField(a)), Poly16(CrcField(b))) == {0, 5, 12}
  {
    FieldFlip(a, b);
    PolyXor(CrcField(a), 0x1021, CrcField(b));
    GeneratorTail();
  }

  lemma LowestBit(d: bv8)
    requires d == 0x01
    ensures Poly8(d) == {0}
  {
    OneBit(Word(d), 0);
  }

  lemma LowestFlippedType(a: Attempt, f: Attempt)
    requires a.payload == [] && f == LowestFlipped(a)
    ensures Add(PolyBytes(Body(a)), PolyBytes(Body(f))) == Poly8(0x01)
  {
    assert Body(a) == [] + [a.ptype] && Body(f) == [] + [f.ptype];
    LastByteDifference([], a.ptype, f.ptype);
    XorByteDifference(a.ptype, 0x01, f.ptype);
  }

  lemma LowestFlippedBody(a: Attempt)
    ensures Add(PolyBytes(Body(a)), PolyBytes(Body(LowestFlipped(a)))) == {0}
  {
    if a.payload == [] {
      LowestFlippedType(a, LowestFlipped(a));
    } else {
      BodyAcross(a, LowestFlipped(a), 0x01);
    }
    LowestBit(0x01);
  }

  lemma FourFlipErrorPoly(s: Attempt, a: Attempt)
    requires a == LowestFlipped(s).(lo := s.lo ^ 0x21, hi := s.hi ^ 0x10)
    ensures ErrorPoly(s, a) == Add(Shift({0}, 16), {0, 5, 12})
  {
    LowestFlippedBody(s);
    assert Body(a) == Body(LowestFlipped(s));
    FieldFlipTerms(s, a);
    ErrorPolySplits(s, a);
  }

  lemma GeneratorTerms()
    ensures TimesGenerator({0}) == {16, 12, 5, 0}
  {
    assert Shift({0}, 16) == {16} && Shift({0}, 12) == {12} && Shift({0}, 5) == {5};
    assert Add({16}, {12}) == {16, 12} && Add({5}, {0}) == {5, 0};
  }

  lemma FourTermsAre(e: Poly)
    requires e == Add(Shift({0}, 16), {0, 5, 12})
    ensures e == {16, 12, 5, 0}
  {
    assert Shift({0}, 16) == {16};
  }

  lemma FourTermsCount(e: Poly)
    requires e == Add(Shift({0}, 16), {0, 5, 12})
    ensures |e| == 4
  {
    FourTermsAre(e);
    FourDistinct(16, 12, 5, 0);
  }

  lemma FourDistinct(i: nat, j: nat, k: nat, l: nat)
    requires i > j > k > l
    ensures |{i, j, k, l}| == 4
  {
    assert {i, j, k, l} == {i, j} + {k, l};
  }

  lemma FourTermsDivide(e: Poly)
    requires e == Add(Shift({0}, 16), {0, 5, 12})
    ensures IsMultiple(e)
  {
    FourTermsAre(e);
    GeneratorTerms();
    MultipleBy(e, {0});
  }

  lemma MultipleBy(e: Poly, q: Poly)
    requires e == TimesGenerator(q)
    ensures IsMultiple(e)
  {}

  /** Four are not: the distance of the code is exactly four. */
  lemma FourFlipsGetThrough(m: Machine, sent: Packet)
    requires Listening(m) && |sent.payload| < 256
    ensures var a := GeneratorFlipped(sent);
      Flips(Sealed(sent), a) == 4 && Accepted(Run(m, Frame(a)), m, Packet(a.ptype, a.payload))
  {
    var a := GeneratorFlipped(sent);
    FourFlipErrorPoly(Sealed(sent), a);
    FourTermsCount(ErrorPoly(Sealed(sent), a));
    FourTermsDivide(ErrorPoly(Sealed(sent), a));
    FlipsAreTerms(Sealed(sent), a);
    UndetectedIffMultiple(m, sent, a);
  }
}
