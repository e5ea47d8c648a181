/** The CRC keeps the parity of the message, because x + 1 divides the generator. */
module CrcParity {
  import opened Gf2Poly
  import opened Crc16
  import opened UartErrors

  /** The ones among the lowest n bits. */
  function Ones(w: bv16, n: nat): nat
    requires n <= 16
  {
    if n == 0 then 0 else Ones(w, n - 1) + (if Bit(w, n - 1) then 1 else 0)
  }

  function OnesOf(m: seq<bv8>): nat {
    if m == [] then 0 else OnesOf(m[..|m| - 1]) + Ones(Word(m[|m| - 1]), 8)
  }

  function TermsBelow(p: Poly, n: nat): Poly {
    set e: nat | e in p && e < n
  }

  lemma TermsNext(p: Poly, n: nat, m: nat)
    requires m == n + 1
    ensures |TermsBelow(p, m)| == |TermsBelow(p, n)| + (if n in p then 1 else 0)
  {
    if n in p {
      assert TermsBelow(p, m) == TermsBelow(p, n) + {n};
    } else {
      assert TermsBelow(p, m) == TermsBelow(p, n);
    }
  }

  lemma {:induction false} OnesAreTerms(w: bv16, p: Poly, n: nat)
    requires n <= 16 && p == Poly16(w)
    ensures Ones(w, n) == |TermsBelow(p, n)|
  {
    if n > 0 {
      OnesAreTerms(w, p, n - 1);
      TermsNext(p, n - 1, n);
    }
  }

  lemma AllBelow(p: Poly, n: nat)
    requires DegreeBelow(p, n)
    ensures TermsBelow(p, n) == p
  {}

  lemma OnesOfWord(w: bv16)
    ensures Ones(w, 16) == |Poly16(w)|
  {
    OnesAreTerms(w, Poly16(w), 16);
    AllBelow(Poly16(w), 16);
  }

  lemma OnesOfByte(b: bv8)
    ensures Ones(Word(b), 8) == |Poly8(b)|
  {
    OnesAreTerms(Word(b), Poly8(b), 8);
    Poly8Degree(b);
    AllBelow(Poly8(b), 8);
  }

  lemma TermsOfAppended(m: seq<bv8>, b: bv8)
    ensures |PolyBytes(m + [b])| == |PolyBytes(m)| + |Poly8(b)|
  {
    PolyBytesAppend(m, b);
    Poly8Degree(b);
    ShiftSize(PolyBytes(m), 8);
    DisjointAddSize(Shift(PolyBytes(m), 8), Poly8(b));
  }

  lemma {:induction false} OnesOfBytes(m: seq<bv8>)
    ensures OnesOf(m) == |PolyBytes(m)|
  {
    if m == [] {
      assert PolyBytes(m) == {};
    } else {
      var n := |m| - 1;
      OnesOfBytes(m[..n]);
      OnesOfByte(m[n]);
      TermsOfAppended(m[..n], m[n]);
      assert m == m[..n] + [m[n]];
    }
  }

  lemma {:induction false} AllOnes(n: nat)
    requires n <= 16
    ensures Ones(INIT, n) == n
  {
    if n > 0 {
      AllOnes(n - 1);
      OneOfInit(n - 1);
    }
  }

  lemma OneOfInit(i: nat)
    requires i < 16
    ensures Bit(INIT, i)
  {
    assert Bit(INIT, 0) && Bit(INIT, 1) && Bit(INIT, 2) && Bit(INIT, 3);
    assert Bit(INIT, 4) && Bit(INIT, 5) && Bit(INIT, 6) && Bit(INIT, 7);
    assert Bit(INIT, 8) && Bit(INIT, 9) && Bit(INIT, 10) && Bit(INIT, 11);
    assert Bit(INIT, 12) && Bit(INIT, 13) && Bit(INIT, 14) && Bit(INIT, 15);
  }

  lemma EvenDifference(e: Poly, a: Poly, b: Poly)
    requires e == Add(a, b) && |e| % 2 == 0
    ensures |a| % 2 == |b| % 2
  {
    AddSize(a, b);
  }

  lemma CongruentParity(a: Poly, b: Poly)
    requires Congruent(a, b)
    ensures |a| % 2 == |b| % 2
  {
    MultipleHasEvenSize(Add(a, b));
    EvenDifference(Add(a, b), a, b);
  }

  lemma InitParity()
    ensures |Poly16(INIT)| == 16
  {
    OnesOfWord(INIT);
    AllOnes(16);
  }

  lemma ShiftedParity(p: Poly, i: Poly, j: nat, k: nat)
    requires |i| == 16
    ensures |Add(Shift(p, j), Shift(i, k))| % 2 == |p| % 2
  {
    ShiftSize(p, j);
    ShiftSize(i, k);
    EvenPart(Shift(p, j), Shift(i, k));
  }

  lemma EvenPart(a: Poly, b: Poly)
    requires |b| == 16
    ensures |Add(a, b)| % 2 == |a| % 2
  {
    AddSize(a, b);
  }

  lemma DividendParity(m: seq<bv8>)
    ensures |Dividend(m)| % 2 == |PolyBytes(m)| % 2
  {
    InitParity();
    ShiftedParity(PolyBytes(m), Poly16(INIT), 16, 8 * |m|);
  }

  /** The CRC has an odd number of ones if and only if the message has. */
  lemma CrcKeepsParity(m: seq<bv8>)
    ensures Ones(Crc(m), 16) % 2 == OnesOf(m) % 2
  {
    CrcMeaning(m);
    CongruentParity(Dividend(m), Poly16(Crc(m)));
    DividendParity(m);
    OnesOfWord(Crc(m));
    OnesOfBytes(m);
  }
}
