/** Polynomials over GF(2), written as the set of exponents whose coefficient is 1.

    The module knows one particular polynomial, the ITU-T V.41 section 2 generator
    x^16 + x^12 + x^5 + 1, and what it means for two polynomials to leave the same
    remainder modulo that generator.  Nothing here mentions registers or bytes. */
module Gf2Poly {

  type Poly = set<nat>

  /** Addition (and subtraction): the exponents present in exactly one operand. */
  function Add(a: Poly, b: Poly): Poly {
    (a - b) + (b - a)
  }

  /** Multiplication by x^k. */
  function Shift(a: Poly, k: nat): (r: Poly)
    ensures forall e: nat :: e in r <==> k <= e && e - k in a
  {
    var r: set<nat> := set d: nat | d in a :: d + k;
    assert forall e: nat | k <= e && e - k in a :: e in r by {
      forall e: nat | k <= e && e - k in a
        ensures e in r
      {
        var d: nat := e - k;
        assert d in a && e == d + k;
      }
    }
    r
  }

  /** Multiplication by the generator x^16 + x^12 + x^5 + 1. */
  function TimesGenerator(q: Poly): Poly {
    Add(Add(Shift(q, 16), Shift(q, 12)), Add(Shift(q, 5), q))
  }

  ghost predicate IsMultiple(a: Poly) {
    exists q: Poly :: a == TimesGenerator(q)
  }

  /** a and b leave the same remainder modulo the generator. */
  ghost predicate Congruent(a: Poly, b: Poly) {
    IsMultiple(Add(a, b))
  }

  /** All exponents are below n. */
  predicate DegreeBelow(a: Poly, n: nat) {
    forall e: nat :: e in a ==> e < n
  }

  /** All exponents lie in the window [lo, lo + width). */
  predicate WithinWindow(a: Poly, lo: nat, width: nat) {
    forall e: nat :: e in a ==> lo <= e < lo + width
  }

  // ---- The multiples of the generator form an ideal ----

  lemma AddInterchange(a: Poly, b: Poly, c: Poly, d: Poly)
    ensures Add(Add(a, b), Add(c, d)) == Add(Add(a, c), Add(b, d))
  {}

  lemma AddSwapLast(a: Poly, b: Poly, c: Poly)
    ensures Add(Add(a, b), c) == Add(Add(a, c), b)
  {}

  lemma ShiftDistributesOverAdd(a: Poly, b: Poly, k: nat)
    ensures Shift(Add(a, b), k) == Add(Shift(a, k), Shift(b, k))
  {}

  lemma AddDistributesOverTimesGenerator(p: Poly, q: Poly)
    ensures TimesGenerator(Add(p, q)) == Add(TimesGenerator(p), TimesGenerator(q))
  {
    ShiftDistributesOverAdd(p, q, 16);
    ShiftDistributesOverAdd(p, q, 12);
    ShiftDistributesOverAdd(p, q, 5);
    AddInterchange(Shift(p, 16), Shift(q, 16), Shift(p, 12), Shift(q, 12));
    AddInterchange(Shift(p, 5), Shift(q, 5), p, q);
    AddInterchange(Add(Shift(p, 16), Shift(p, 12)), Add(Shift(q, 16), Shift(q, 12)),
                   Add(Shift(p, 5), p), Add(Shift(q, 5), q));
  }

  lemma ShiftShift(a: Poly, j: nat, k: nat)
    ensures Shift(Shift(a, j), k) == Shift(a, j + k)
  {}

  lemma ShiftCommutesWithTimesGenerator(q: Poly, k: nat)
    ensures TimesGenerator(Shift(q, k)) == Shift(TimesGenerator(q), k)
  {
    ShiftShift(q, 16, k);
    ShiftShift(q, 12, k);
    ShiftShift(q, 5, k);
    ShiftShift(q, k, 16);
    ShiftShift(q, k, 12);
    ShiftShift(q, k, 5);
    ShiftDistributesOverAdd(Shift(q, 16), Shift(q, 12), k);
    ShiftDistributesOverAdd(Shift(q, 5), q, k);
    ShiftDistributesOverAdd(Add(Shift(q, 16), Shift(q, 12)), Add(Shift(q, 5), q), k);
  }

  lemma MultiplesAdd(a: Poly, b: Poly)
    requires IsMultiple(a) && IsMultiple(b)
    ensures IsMultiple(Add(a, b))
  {
    var p: Poly :| a == TimesGenerator(p);
    var q: Poly :| b == TimesGenerator(q);
    AddDistributesOverTimesGenerator(p, q);
  }

  lemma CongruentReflexive(a: Poly)
    ensures Congruent(a, a)
  {
    assert Add(a, a) == TimesGenerator({});
  }

  lemma CongruentSymmetric(a: Poly, b: Poly)
    requires Congruent(a, b)
    ensures Congruent(b, a)
  {
    assert Add(a, b) == Add(b, a);
  }

  lemma CongruentTransitive(a: Poly, b: Poly, c: Poly)
    requires Congruent(a, b) && Congruent(b, c)
    ensures Congruent(a, c)
  {
    MultiplesAdd(Add(a, b), Add(b, c));
    assert Add(Add(a, b), Add(b, c)) == Add(a, c);
  }

  lemma CongruentAdd(a: Poly, b: Poly, c: Poly, d: Poly)
    requires Congruent(a, b) && Congruent(c, d)
    ensures Congruent(Add(a, c), Add(b, d))
  {
    MultiplesAdd(Add(a, b), Add(c, d));
    AddInterchange(a, b, c, d);
  }

  lemma CongruentShift(a: Poly, b: Poly, k: nat)
    requires Congruent(a, b)
    ensures Congruent(Shift(a, k), Shift(b, k))
  {
    var q: Poly :| Add(a, b) == TimesGenerator(q);
    ShiftDistributesOverAdd(a, b, k);
    ShiftCommutesWithTimesGenerator(q, k);
  }

  // ---- What a multiple of the generator cannot look like ----

  lemma MaximumExists(a: Poly) returns (m: nat)
    requires a != {}
    ensures m in a && forall e :: e in a ==> e <= m
  {
    var x: nat :| x in a;
    if a == {x} {
      m := x;
    } else {
      assert a - {x} != {} by { assert a == {x} + (a - {x}); }
      var n := MaximumExists(a - {x});
      m := if n < x then x else n;
    }
  }

  lemma MinimumExists(a: Poly) returns (m: nat)
    requires a != {}
    ensures m in a && forall e :: e in a ==> m <= e
  {
    var x: nat :| x in a;
    if a == {x} {
      m := x;
    } else {
      assert a - {x} != {} by { assert a == {x} + (a - {x}); }
      var n := MinimumExists(a - {x});
      m := if x < n then x else n;
    }
  }

  /** A nonzero multiple of the generator never fits in 16 consecutive exponents:
      its top term is 16 above the quotient's and its bottom term is the quotient's. */
  lemma MultipleNeverFitsIn16(a: Poly, lo: nat)
    requires IsMultiple(a) && a != {}
    ensures !WithinWindow(a, lo, 16)
  {
    var q: Poly :| a == TimesGenerator(q);
    assert q != {} by {
      assert TimesGenerator({}) == {};
    }
    var top := MaximumExists(q);
    var bottom := MinimumExists(q);
    TopTerm(q, top);
    BottomTerm(q, bottom);
  }

  lemma TopTerm(q: Poly, top: nat)
    requires top in q && forall e :: e in q ==> e <= top
    ensures top + 16 in TimesGenerator(q)
  {
    assert top + 16 !in Shift(q, 12) && top + 16 !in Shift(q, 5) && top + 16 !in q;
  }

  lemma BottomTerm(q: Poly, bottom: nat)
    requires bottom in q && forall e :: e in q ==> bottom <= e
    ensures bottom in TimesGenerator(q)
  {
    assert bottom !in Shift(q, 16) && bottom !in Shift(q, 12) && bottom !in Shift(q, 5);
  }

  /** The remainder modulo the generator is unique. */
  lemma RemainderUnique(a: Poly, r: Poly, r': Poly)
    requires Congruent(a, r) && DegreeBelow(r, 16)
    requires Congruent(a, r') && DegreeBelow(r', 16)
    ensures r == r'
  {
    CongruentSymmetric(a, r);
    CongruentTransitive(r, a, r');
    assert WithinWindow(Add(r, r'), 0, 16);
    if Add(r, r') != {} {
      MultipleNeverFitsIn16(Add(r, r'), 0);
    }
    assert forall e: nat :: e in r <==> e in r';
  }

  // ---- Parity: x + 1 divides the generator ----

  lemma AddSize(a: Poly, b: Poly)
    ensures |Add(a, b)| % 2 == (|a| + |b|) % 2
  {
    assert a == (a - b) + (a * b);
    assert b == (b - a) + (a * b);
    assert |a| == |a - b| + |a * b|;
    assert |b| == |b - a| + |a * b|;
    assert |Add(a, b)| == |a - b| + |b - a|;
  }

  lemma {:induction false} ShiftSize(a: Poly, k: nat)
    ensures |Shift(a, k)| == |a|
  {
    if a == {} {
      assert Shift(a, k) == {};
    } else {
      var x: nat :| x in a;
      ShiftSize(a - {x}, k);
      assert Shift(a, k) == Shift(a - {x}, k) + {x + k};
      assert x + k !in Shift(a - {x}, k);
    }
  }

  lemma EvenSum(a: Poly, b: Poly)
    requires |a| % 2 == |b| % 2
    ensures |Add(a, b)| % 2 == 0
  {
    AddSize(a, b);
  }

  lemma TimesGeneratorHasEvenSize(q: Poly)
    ensures |TimesGenerator(q)| % 2 == 0
  {
    ShiftSize(q, 16);
    ShiftSize(q, 12);
    ShiftSize(q, 5);
    EvenSum(Shift(q, 16), Shift(q, 12));
    EvenSum(Shift(q, 5), q);
    EvenSum(Add(Shift(q, 16), Shift(q, 12)), Add(Shift(q, 5), q));
  }

  /** The generator has an even number of terms, so each of its multiples does. */
  lemma MultipleHasEvenSize(a: Poly)
    requires IsMultiple(a)
    ensures |a| % 2 == 0
  {
    var q: Poly :| a == TimesGenerator(q);
    TimesGeneratorHasEvenSize(q);
  }
}
