/** Greatest common divisors, as far as the order of x modulo the CRC generator needs them. */
module Divisors {
  import opened Products

  ghost predicate Divides(d: nat, n: nat) {
    exists k: nat :: n == k * d
  }

  function Gcd(a: nat, b: nat): (g: nat)
    requires a > 0 && b > 0
    ensures 0 < g <= a && g <= b
    decreases a + b
  {
    if a == b then a else if a > b then Gcd(a - b, b) else Gcd(a, b - a)
  }

  lemma DividesSum(d: nat, a: nat, b: nat)
    requires Divides(d, a) && Divides(d, b)
    ensures Divides(d, a + b)
  {
    var j: nat :| a == j * d;
    var k: nat :| b == k * d;
    assert a + b == (j + k) * d;
  }

  lemma DividesDifference(d: nat, a: nat, b: nat)
    requires Divides(d, a) && Divides(d, b) && a >= b
    ensures Divides(d, a - b)
  {
    var j: nat :| a == j * d;
    var k: nat :| b == k * d;
    if j < k {
      assert (k - j) * d == b - a;
      assert a - b == 0 * d;
    } else {
      assert a - b == (j - k) * d;
    }
  }

  lemma {:induction false} GcdDivides(a: nat, b: nat)
    requires a > 0 && b > 0
    ensures Divides(Gcd(a, b), a) && Divides(Gcd(a, b), b)
    decreases a + b
  {
    if a == b {
      assert a == 1 * a;
    } else if a > b {
      GcdDivides(a - b, b);
      DividesSum(Gcd(a, b), a - b, b);
    } else {
      GcdDivides(a, b - a);
      DividesSum(Gcd(a, b), b - a, a);
    }
  }

  lemma DifferenceTimes(a: nat, b: nat, c: nat)
    requires a >= b
    ensures (a - b) * c == a * c - b * c && a * c >= b * c
  {}

  lemma DividesDifferenceTimes(p: nat, a: nat, b: nat, c: nat)
    requires a >= b && Divides(p, a * c) && Divides(p, b * c)
    ensures Divides(p, (a - b) * c)
  {
    DifferenceTimes(a, b, c);
    DividesDifference(p, a * c, b * c);
  }

  /** If p divides a*c and b*c it divides gcd(a, b)*c. */
  lemma {:induction false} GcdOfMultiples(p: nat, a: nat, b: nat, c: nat)
    requires a > 0 && b > 0 && Divides(p, a * c) && Divides(p, b * c)
    ensures Divides(p, Gcd(a, b) * c)
    decreases a + b
  {
    if a > b {
      DividesDifferenceTimes(p, a, b, c);
      GcdOfMultiples(p, a - b, b, c);
    } else if a < b {
      DividesDifferenceTimes(p, b, a, c);
      GcdOfMultiples(p, a, b - a, c);
    }
  }

  ghost predicate IsPrime(p: nat) {
    p > 1 && forall d: nat :: Divides(d, p) ==> d == 1 || d == p
  }

  lemma PrimeDividesFactor(p: nat, a: nat, b: nat)
    requires IsPrime(p) && a > 0 && Divides(p, a * b)
    ensures Divides(p, a) || Divides(p, b)
  {
    GcdDivides(a, p);
    if Gcd(a, p) == 1 {
      assert p * b == b * p;
      assert Divides(p, p * b);
      GcdOfMultiples(p, a, p, b);
    }
  }

  /** Of two factors of p one is below s if s*s is above p. */
  lemma SmallFactor(p: nat, d: nat, k: nat, s: nat)
    requires p == k * d && p < s * s
    ensures d < s || k < s
  {
    var c, e := if d < s then s else d, if k < s then s else k;
    ProductGrows(s, e, s);
    ProductGrows(s, c, e);
  }

  lemma NoFactorOf31(d: nat, k: nat)
    requires 31 == k * d && d < 6
    ensures d == 1
  {
    if d == 0 {
    } else if d == 2 {
    } else if d == 3 {
    } else if d == 4 {
    } else if d == 5 {
    }
  }

  lemma Prime31()
    ensures IsPrime(31)
  {
    forall d: nat | Divides(d, 31)
      ensures d == 1 || d == 31
    {
      var k: nat :| 31 == k * d;
      SmallFactor(31, d, k, 6);
      if d < 6 {
        NoFactorOf31(d, k);
      } else {
        NoFactorOf31(k, d);
      }
    }
  }

  lemma NoFactorOf151(d: nat, k: nat)
    requires 151 == k * d && d < 13
    ensures d == 1
  {
    if d == 0 {
    } else if d == 2 {
    } else if d == 3 {
    } else if d == 4 {
    } else if d == 5 {
    } else if d == 6 {
    } else if d == 7 {
    } else if d == 8 {
    } else if d == 9 {
    } else if d == 10 {
    } else if d == 11 {
    } else if d == 12 {
    }
  }

  lemma Prime151()
    ensures IsPrime(151)
  {
    forall d: nat | Divides(d, 151)
      ensures d == 1 || d == 151
    {
      var k: nat :| 151 == k * d;
      SmallFactor(151, d, k, 13);
      if d < 13 {
        NoFactorOf151(d, k);
      } else {
        NoFactorOf151(k, d);
      }
    }
  }

  lemma BothDivide(g: nat)
    requires g > 0 && Divides(151, g) && Divides(31, g)
    ensures g >= 4681
  {
    var e: nat :| g == e * 151;
    Prime31();
    assert g == 151 * e;
    PrimeDividesFactor(31, 151, e);
    NotADivisor();
    var k: nat :| e == k * 31;
    assert g == k * 4681;
  }

  lemma NotADivisor()
    ensures !Divides(31, 151)
  {
    Prime151();
  }

  /** A divisor of 2^15 - 1 = 7 * 31 * 151 that is below 31 * 151 divides 7 * 31 or 7 * 151. */
  lemma SmallDivisorsOf32767(g: nat)
    requires 0 < g < 4681 && Divides(g, 32767)
    ensures Divides(g, 217) || Divides(g, 1057)
  {
    var f: nat :| 32767 == f * g;
    assert f * g == 217 * 151;
    assert f * g == 1057 * 31;
    assert f > 0;
    Prime31();
    Prime151();
    PrimeDividesFactor(151, f, g);
    PrimeDividesFactor(31, f, g);
    if Divides(151, f) {
      CancelFactor(f, g, 151, 217);
    } else if Divides(31, f) {
      CancelFactor(f, g, 31, 1057);
    } else {
      BothDivide(g);
    }
  }

  lemma CancelFactor(f: nat, g: nat, p: nat, n: nat)
    requires p > 0 && Divides(p, f) && f * g == n * p
    ensures Divides(g, n)
  {
    var e: nat :| f == e * p;
    assert (e * g) * p == n * p;
    SameMultiple(e * g, n, p);
  }

  lemma SmallerTimes(a: nat, b: nat, p: nat)
    requires p > 0 && a < b
    ensures a * p < b * p
  {
    ProductGrows(a + 1, b, p);
  }

  lemma SameMultiple(a: nat, b: nat, p: nat)
    requires p > 0 && a * p == b * p
    ensures a == b
  {
    if a < b {
      SmallerTimes(a, b, p);
    } else if b < a {
      SmallerTimes(b, a, p);
    }
  }
}
