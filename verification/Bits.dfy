/** Binary arithmetic on naturals: shifts, masks and fields defined one bit at a time, and
    their closed forms by division and remainder. */
module Bits {

  type Byte = x: int | 0 <= x < 256

  function Pow2(n: nat): (p: nat)
    ensures p > 0
  {
    if n == 0 then 1 else 2 * Pow2(n - 1)
  }

  function Shl(x: nat, k: nat): nat {
    if k == 0 then x else 2 * Shl(x, k - 1)
  }

  function Shr(x: nat, k: nat): nat {
    if k == 0 then x else Shr(x / 2, k - 1)
  }

  /** The n lowest bits. */
  function Low(x: nat, n: nat): (r: nat)
    ensures r < Pow2(n)
  {
    if n == 0 then 0 else x % 2 + 2 * Low(x / 2, n - 1)
  }

  function Bit(x: nat, k: nat): (b: nat)
    ensures b <= 1
  {
    Shr(x, k) % 2
  }

  /** The len bits of x from bit lo upwards. */
  function Field(x: nat, lo: nat, len: nat): nat {
    Low(Shr(x, lo), len)
  }

  function Or(a: nat, b: nat): nat {
    if a == 0 then b
    else if b == 0 then a
    else (if a % 2 == 1 || b % 2 == 1 then 1 else 0) + 2 * Or(a / 2, b / 2)
  }

  function And(a: nat, b: nat): nat {
    if a == 0 || b == 0 then 0
    else (if a % 2 == 1 && b % 2 == 1 then 1 else 0) + 2 * And(a / 2, b / 2)
  }

  function Xor(a: nat, b: nat): nat {
    if a == 0 then b
    else if b == 0 then a
    else (if a % 2 != b % 2 then 1 else 0) + 2 * Xor(a / 2, b / 2)
  }

  // ---- Closed forms ----

  lemma DivisionIsUnique(x: nat, d: nat, q: nat, r: nat)
    requires d > 0 && x == q * d + r && r < d
    ensures x / d == q && x % d == r
  {
    var e := x / d - q;
    assert e * d == r - x % d;
    MultipleOf(e, d);
  }

  lemma MultipleOf(e: int, d: int)
    requires d >= 0
    ensures e >= 1 ==> e * d >= d
    ensures e <= -1 ==> e * d <= -d
  {}

  /** Dividing by twice p is dividing by two and then by p. */
  lemma HalvesFirst(x: nat, p: nat)
    requires p > 0
    ensures x / (2 * p) == x / 2 / p
    ensures x % (2 * p) == x % 2 + 2 * (x / 2 % p)
  {
    var q, r := x / 2 / p, x / 2 % p;
    assert x / 2 == q * p + r;
    assert q * (2 * p) == 2 * (q * p);
    DivisionIsUnique(x, 2 * p, q, x % 2 + 2 * r);
  }

  lemma {:induction false} ShrIsDivision(x: nat, k: nat)
    ensures Shr(x, k) == x / Pow2(k)
  {
    if k > 0 {
      ShrIsDivision(x / 2, k - 1);
      HalvesFirst(x, Pow2(k - 1));
    }
  }

  lemma {:induction false} LowIsRemainder(x: nat, n: nat)
    ensures Low(x, n) == x % Pow2(n)
  {
    if n > 0 {
      LowIsRemainder(x / 2, n - 1);
      HalvesFirst(x, Pow2(n - 1));
    }
  }

  lemma FieldIsQuotientRemainder(x: nat, lo: nat, len: nat)
    ensures Field(x, lo, len) == x / Pow2(lo) % Pow2(len)
  {
    ShrIsDivision(x, lo);
    LowIsRemainder(Shr(x, lo), len);
  }

  lemma {:induction false} ShlIsProduct(x: nat, k: nat)
    ensures Shl(x, k) == x * Pow2(k)
  {
    if k > 0 {
      ShlIsProduct(x, k - 1);
      assert x * Pow2(k) == 2 * (x * Pow2(k - 1));
    }
  }

  lemma {:induction false} Pow2Grows(a: nat, b: nat)
    requires a <= b
    ensures Pow2(a) <= Pow2(b)
    ensures a < b ==> 2 * Pow2(a) <= Pow2(b)
  {
    if a < b {
      Pow2Grows(a, b - 1);
    }
  }

  lemma {:induction false} Pow2OfSum(a: nat, b: nat)
    ensures Pow2(a + b) == Shl(Pow2(a), b)
  {
    if b > 0 {
      Pow2OfSum(a, b - 1);
    }
  }

  function Pow256(k: nat): nat {
    if k == 0 then 1 else 256 * Pow256(k - 1)
  }

  lemma {:induction false} Pow2OfBytes(k: nat, n: nat)
    requires n == 8 * k
    ensures Pow2(n) == Pow256(k)
  {
    if k > 0 {
      Pow2OfBytes(k - 1, n - 8);
      Pow2OfSum(n - 8, 8);
      ShlByte(Pow2(n - 8));
    }
  }

  lemma Pow256Values()
    ensures Pow256(1) == 0x100 && Pow256(8) == 0x1_0000_0000_0000_0000
  {
    assert Pow256(4) == 0x1_0000_0000;
  }

  lemma Pow2Values()
    ensures Pow2(8) == 0x100 && Pow2(63) == 0x8000_0000_0000_0000 && Pow2(64) == 0x1_0000_0000_0000_0000
  {
    Pow256Values();
    Pow2OfBytes(1, 8);
    Pow2OfBytes(8, 64);
  }

  lemma ShlByte(x: nat)
    ensures Shl(x, 8) == 256 * x
  {
    Shl7(x);
  }

  lemma Shl7(x: nat)
    ensures Shl(x, 7) == 128 * x
  {
    assert Shl(x, 1) == 2 * x;
    assert Shl(x, 3) == 8 * x;
    assert Shl(x, 5) == 32 * x;
  }

  // ---- One bit at a time ----

  lemma {:induction false} ShrTwice(x: nat, j: nat, k: nat)
    ensures Shr(Shr(x, j), k) == Shr(x, j + k)
  {
    if j > 0 {
      ShrTwice(x / 2, j - 1, k);
    }
  }

  lemma {:induction false} ShlZero(k: nat)
    ensures Shl(0, k) == 0
  {
    if k > 0 {
      ShlZero(k - 1);
    }
  }

  lemma {:induction false} ShrZero(k: nat)
    ensures Shr(0, k) == 0
  {
    if k > 0 {
      ShrZero(k - 1);
    }
  }

  /** A field grows by one bit at the top. */
  lemma {:induction false} LowGrowsAtTop(x: nat, n: nat)
    ensures Low(x, n + 1) == Low(x, n) + Shl(Bit(x, n), n)
  {
    if n > 0 {
      LowGrowsAtTop(x / 2, n - 1);
    }
  }

  lemma FieldGrowsAtTop(x: nat, lo: nat, len: nat)
    ensures Field(x, lo, len + 1) == Field(x, lo, len) + Shl(Bit(x, lo + len), len)
  {
    LowGrowsAtTop(Shr(x, lo), len);
    ShrTwice(x, lo, len);
  }

  /** A field grows by one bit at the bottom. */
  lemma FieldGrowsAtBottom(x: nat, lo: nat, len: nat)
    ensures Field(x, lo, len + 1) == 2 * Field(x, lo + 1, len) + Bit(x, lo)
  {
    ShrTwice(x, lo, 1);
    ShrOne(Shr(x, lo), 1);
  }

  lemma ShrOne(x: nat, k: nat)
    requires k == 1
    ensures Shr(x, k) == x / 2
  {}

  /** A number below 2^n is its n lowest bits. */
  lemma {:induction false} LowOfSmall(x: nat, n: nat)
    requires x < Pow2(n)
    ensures Low(x, n) == x
  {
    if n > 0 {
      LowOfSmall(x / 2, n - 1);
    }
  }

  lemma {:induction false} ShrShrinks(x: nat, j: nat, k: nat)
    requires x < Pow2(j + k)
    ensures Shr(x, j) < Pow2(k)
  {
    if j > 0 {
      ShrShrinks(x / 2, j - 1, k);
    }
  }

  lemma {:induction false} LowIsBelow(x: nat, n: nat)
    ensures Low(x, n) <= x
  {
    if n > 0 {
      LowIsBelow(x / 2, n - 1);
    }
  }

  lemma {:induction false} ShrIsBelow(x: nat, k: nat)
    ensures Shr(x, k) <= x
  {
    if k > 0 {
      ShrIsBelow(x / 2, k - 1);
    }
  }

  lemma {:induction false} BitOfLow(x: nat, n: nat, k: nat)
    requires k < n
    ensures Bit(Low(x, n), k) == Bit(x, k)
  {
    if k > 0 {
      BitOfLow(x / 2, n - 1, k - 1);
    }
  }

  /** x below bit j and m from bit j upwards, side by side. */
  lemma {:induction false} BitOfJoin(x: nat, m: nat, j: nat, k: nat)
    requires x < Pow2(j)
    ensures Bit(x + Shl(m, j), k) == if k < j then Bit(x, k) else Bit(m, k - j)
  {
    if j > 0 {
      assert (x + Shl(m, j)) / 2 == x / 2 + Shl(m, j - 1);
      if k > 0 {
        BitOfJoin(x / 2, m, j - 1, k - 1);
      }
    }
  }

  lemma {:induction false} SplitAt(x: nat, j: nat)
    ensures Low(x, j) + Shl(Shr(x, j), j) == x
  {
    if j > 0 {
      SplitAt(x / 2, j - 1);
    }
  }

  lemma {:induction false} JoinIsBounded(x: nat, m: nat, j: nat, t: nat)
    requires x < Pow2(j) && m < Pow2(t)
    ensures x + Shl(m, j) < Pow2(j + t)
  {
    if j > 0 {
      JoinIsBounded(x / 2, m, j - 1, t);
    }
  }

  predicate SameBit(x: nat, a: nat, y: nat, b: nat, k: nat) {
    Bit(x, a + k) == Bit(y, b + k)
  }

  /** Two fields are equal exactly when they are equal bit by bit. */
  lemma {:induction false} FieldsEqualByBits(x: nat, a: nat, y: nat, b: nat, len: nat)
    ensures Field(x, a, len) == Field(y, b, len) <==>
      forall k: nat :: k < len ==> SameBit(x, a, y, b, k)
  {
    if len > 0 {
      var n := len - 1;
      FieldsEqualByBits(x, a, y, b, n);
      FieldGrowsAtTop(x, a, n);
      FieldGrowsAtTop(y, b, n);
      ShlOfBit(Bit(x, a + n), n);
      ShlOfBit(Bit(y, b + n), n);
      assert SameBit(x, a, y, b, n) <==> Bit(x, a + n) == Bit(y, b + n);
    }
  }

  lemma ShlOfBit(b: nat, k: nat)
    requires b <= 1
    ensures Shl(b, k) == if b == 1 then Pow2(k) else 0
  {
    ShlIsProduct(b, k);
  }

  // ---- The word operations are sums here ----

  lemma {:induction false} OrIsSum(x: nat, m: nat, j: nat)
    requires x < Pow2(j)
    ensures Or(x, Shl(m, j)) == x + Shl(m, j)
  {
    if j > 0 {
      OrIsSum(x / 2, m, j - 1);
    }
  }

  lemma OrOfEven(x: nat, b: nat)
    requires b <= 1
    ensures Or(2 * x, b) == 2 * x + b
  {
    assert Or(x, 0) == x;
  }

  lemma {:induction false} AndOfPower(x: nat, k: nat)
    ensures And(x, Shl(1, k)) != 0 <==> Bit(x, k) == 1
  {
    if k > 0 {
      AndOfPower(x / 2, k - 1);
      ShrZero(k);
      assert Shl(1, k) / 2 == Shl(1, k - 1);
    }
  }

  lemma {:induction false} TopBit(x: nat, k: nat)
    requires x < Pow2(k + 1)
    ensures Bit(x, k) == 1 <==> x >= Pow2(k)
  {
    if k > 0 {
      TopBit(x / 2, k - 1);
    }
  }

  // ---- Exclusive or ----

  lemma XorParts(a: nat, b: nat)
    ensures Xor(a, b) % 2 == (if a % 2 != b % 2 then 1 else 0)
    ensures Xor(a, b) / 2 == Xor(a / 2, b / 2)
  {
    if a > 0 && b > 0 {
      BottomBit(if a % 2 != b % 2 then 1 else 0, Xor(a / 2, b / 2), Xor(a, b));
    }
  }

  lemma BottomBit(b: nat, x: nat, y: nat)
    requires b <= 1 && y == b + 2 * x
    ensures y % 2 == b && y / 2 == x
  {}

  lemma {:induction false} XorSwap(a: nat, b: nat, c: nat)
    ensures Xor(Xor(a, b), c) == Xor(Xor(a, c), b)
    decreases a + b + c
  {
    if a + b + c > 0 {
      XorSwap(a / 2, b / 2, c / 2);
      XorParts(a, b);
      XorParts(a, c);
      XorParts(Xor(a, b), c);
      XorParts(Xor(a, c), b);
    }
  }

  lemma {:induction false} XorIsZero(a: nat, b: nat)
    ensures Xor(a, b) == 0 <==> a == b
    decreases a + b
  {
    if a + b > 0 {
      XorIsZero(a / 2, b / 2);
      XorParts(a, b);
    }
  }
}
