/** Which corrupted frames get through, end to end: from a machine that is hunting, the
    bytes of a damaged frame are fed and the log says whether a packet was delivered.

    The frame sent has a correct CRC; the frame received has the same length byte (the CRC
    does not cover it) and any type, payload and CRC field. */
module UartErrors {
  import opened Gf2Poly
  import opened Crc16
  import opened UartMachine

  function Body(a: Attempt): seq<bv8> {
    [a.ptype] + a.payload
  }

  function CrcField(a: Attempt): bv16 {
    Join(a.hi, a.lo)
  }

  /** Type, Payload and the CRC word the receiver reassembles, as one polynomial. */
  function CodePoly(a: Attempt): Poly {
    Add(Shift(PolyBytes(Body(a)), 16), Poly16(CrcField(a)))
  }

  /** The flipped bits: body bits from x^16 up, CRC bits below. */
  function ErrorPoly(sent: Attempt, received: Attempt): Poly {
    Add(CodePoly(sent), CodePoly(received))
  }

  /** Some bits are flipped, all of them within 16 consecutive powers of x. */
  ghost predicate IsBurst(e: Poly) {
    e != {} && exists lo: nat :: WithinWindow(e, lo, 16)
  }

  /** The next AA 55 opens a frame: nothing read yet, or noise that may have ended in AA. */
  predicate Listening(m: Machine) {
    m.phase == Hunting || m.phase == Sof1Seen
  }

  // ---- Exact characterisation ----

  lemma GoodMeaning(a: Attempt)
    ensures Good(a) <==> Congruent(CodePoly(a), Shift(Poly16(INIT), 8 * |Body(a)|))
  {
    var p, i, c := Shift(PolyBytes(Body(a)), 16), Shift(Poly16(INIT), 8 * |Body(a)|), Poly16(CrcField(a));
    CrcIsTheRemainder(Body(a), CrcField(a));
    AddSwapLast(p, i, c);
  }

  lemma GoodIffMultiple(sent: Attempt, received: Attempt)
    requires |sent.payload| == |received.payload| && Good(sent)
    ensures Good(received) <==> IsMultiple(ErrorPoly(sent, received))
  {
    var s, r, i := CodePoly(sent), CodePoly(received), Shift(Poly16(INIT), 8 * |Body(sent)|);
    GoodMeaning(sent);
    GoodMeaning(received);
    TwoOfThree(s, r, i);
  }

  lemma TwoOfThree(s: Poly, r: Poly, i: Poly)
    requires Congruent(s, i)
    ensures Congruent(r, i) <==> Congruent(s, r)
  {
    CongruentSymmetric(s, i);
    if Congruent(r, i) {
      CongruentSymmetric(r, i);
      CongruentTransitive(s, i, r);
    }
    if Congruent(s, r) {
      CongruentSymmetric(s, r);
      CongruentTransitive(r, s, i);
    }
  }

  /** r is m after a complete attempt that was rejected. */
  ghost predicate Rejected(r: Machine, m: Machine) {
    && r.phase == Hunting
    && Delivered(r.log) == Delivered(m.log)
    && Failures(r.log) == Failures(m.log) + 1
  }

  /** r is m after a complete attempt that was delivered as p. */
  ghost predicate Accepted(r: Machine, m: Machine, p: Packet) {
    && r.phase == Hunting
    && Delivered(r.log) == Delivered(m.log) + [p]
    && Failures(r.log) == Failures(m.log)
  }

  /** A damaged frame is delivered exactly when its error polynomial is a multiple of the
      generator; otherwise it adds one CRC failure and nothing else. */
  lemma UndetectedIffMultiple(m: Machine, sent: Packet, received: Attempt)
    requires Listening(m) && |sent.payload| == |received.payload| < 256
    ensures var r := Run(m, Frame(received));
      if IsMultiple(ErrorPoly(Sealed(sent), received))
      then Accepted(r, m, Packet(received.ptype, received.payload))
      else Rejected(r, m)
  {
    RunFrame(m, received);
    LogVerdict(m.log, received);
    SealedIsGood(sent);
    GoodIffMultiple(Sealed(sent), received);
  }

  // ---- Bursts ----

  /** Every error confined to 16 consecutive bits, taking Type, Payload and then the CRC word
      most significant bit first, is detected. */
  lemma BurstDetected(m: Machine, sent: Packet, received: Attempt)
    requires Listening(m) && |sent.payload| == |received.payload| < 256
    requires IsBurst(ErrorPoly(Sealed(sent), received))
    ensures Rejected(Run(m, Frame(received)), m)
  {
    var e := ErrorPoly(Sealed(sent), received);
    if IsMultiple(e) {
      var lo: nat :| WithinWindow(e, lo, 16);
      MultipleNeverFitsIn16(e, lo);
    }
    UndetectedIffMultiple(m, sent, received);
  }

  /** Any damage to one byte or two adjacent bytes of Type and Payload is detected. */
  lemma TwoAdjacentBytesDetected(m: Machine, sent: Packet, received: Attempt, j: nat)
    requires Listening(m) && |sent.payload| == |received.payload| < 256
    requires received.lo == Sealed(sent).lo && received.hi == Sealed(sent).hi
    requires Body(received) != Body(Sealed(sent))
    requires forall k :: 0 <= k <= |sent.payload| && k != j && k != j + 1
               ==> Body(received)[k] == Body(Sealed(sent))[k]
    ensures Rejected(Run(m, Frame(received)), m)
  {
    BodyErrorIsBurst(Sealed(sent), received, j);
    BurstDetected(m, sent, received);
  }

  /** Any damage to the two CRC bytes alone is detected. */
  lemma CrcDamageDetected(m: Machine, sent: Packet, received: Attempt)
    requires Listening(m) && |sent.payload| == |received.payload| < 256
    requires Body(received) == Body(Sealed(sent))
    requires received.lo != Sealed(sent).lo || received.hi != Sealed(sent).hi
    ensures Rejected(Run(m, Frame(received)), m)
  {
    CrcErrorIsBurst(Sealed(sent), received);
    BurstDetected(m, sent, received);
  }

  lemma AddSelf(a: Poly)
    ensures Add(a, a) == {} && Add(a, {}) == a && Add({}, a) == a
  {}

  lemma AddNonempty(a: Poly, b: Poly)
    ensures a != b <==> Add(a, b) != {}
  {
    if Add(a, b) == {} {
      assert a - b == {} && b - a == {};
      assert forall e: nat :: e in a <==> e in b;
    }
  }

  /** Body error and CRC error do not interact. */
  lemma ErrorPolySplits(a: Attempt, b: Attempt)
    ensures ErrorPoly(a, b) == Add(Shift(Add(PolyBytes(Body(a)), PolyBytes(Body(b))), 16),
                                   Add(Poly16(CrcField(a)), Poly16(CrcField(b))))
  {
    var p, q := PolyBytes(Body(a)), PolyBytes(Body(b));
    AddInterchange(Shift(p, 16), Poly16(CrcField(a)), Shift(q, 16), Poly16(CrcField(b)));
    ShiftDistributesOverAdd(p, q, 16);
  }

  lemma CrcErrorIsBurst(sent: Attempt, received: Attempt)
    requires Body(sent) == Body(received)
    requires sent.lo != received.lo || sent.hi != received.hi
    ensures IsBurst(ErrorPoly(sent, received))
  {
    var c := Add(Poly16(CrcField(sent)), Poly16(CrcField(received)));
    ErrorPolySplits(sent, received);
    AddSelf(PolyBytes(Body(sent)));
    assert Shift({}, 16) == {};
    AddSelf(c);
    DifferentFieldsDifferentPolys(sent, received);
    AddNonempty(Poly16(CrcField(sent)), Poly16(CrcField(received)));
    assert WithinWindow(c, 0, 16);
  }

  lemma DifferentFieldsDifferentPolys(a: Attempt, b: Attempt)
    requires a.lo != b.lo || a.hi != b.hi
    ensures Poly16(CrcField(a)) != Poly16(CrcField(b))
  {
    PartsOfJoin(a.hi, a.lo);
    PartsOfJoin(b.hi, b.lo);
    PolyInjective(CrcField(a), CrcField(b));
  }

  lemma BodyErrorIsBurst(sent: Attempt, received: Attempt, j: nat)
    requires |sent.payload| == |received.payload|
    requires sent.lo == received.lo && sent.hi == received.hi
    requires Body(received) != Body(sent)
    requires forall k :: 0 <= k < |Body(sent)| && k != j && k != j + 1 ==> Body(received)[k] == Body(sent)[k]
    ensures IsBurst(ErrorPoly(sent, received))
  {
    var d := Add(PolyBytes(Body(sent)), PolyBytes(Body(received)));
    ErrorPolySplits(sent, received);
    AddSelf(Poly16(CrcField(sent)));
    AddSelf(Shift(d, 16));
    var e := DifferingTerm(Body(sent), Body(received));
    assert e + 16 in Shift(d, 16);
    var lo := TwoByteWindow(Body(sent), Body(received), j);
    assert WithinWindow(Shift(d, 16), lo + 16, 16);
  }

  lemma WordInjective(a: bv8, b: bv8)
    ensures Word(a) == Word(b) <==> a == b
  {}

  lemma DifferingBit(a: bv8, b: bv8) returns (i: nat)
    requires a != b
    ensures i < 8 && Bit(Word(a), i) != Bit(Word(b), i)
  {
    WordInjective(a, b);
    PolyInjective(Word(a), Word(b));
    AddNonempty(Poly8(a), Poly8(b));
    i :| i in Add(Poly8(a), Poly8(b));
    Poly8Degree(a);
    Poly8Degree(b);
  }

  lemma DifferingTerm(a: seq<bv8>, b: seq<bv8>) returns (e: nat)
    requires |a| == |b| && a != b
    ensures e in Add(PolyBytes(a), PolyBytes(b))
  {
    var k :| 0 <= k < |a| && a[k] != b[k];
    var i := DifferingBit(a[k], b[k]);
    e := 8 * (|a| - 1 - k) + i;
    assert e / 8 == |a| - 1 - k && e % 8 == i;
    assert BitAt(a, e) != BitAt(b, e);
  }

  lemma TwoByteWindow(a: seq<bv8>, b: seq<bv8>, j: nat) returns (lo: nat)
    requires |a| == |b|
    requires forall k :: 0 <= k < |a| && k != j && k != j + 1 ==> a[k] == b[k]
    ensures WithinWindow(Add(PolyBytes(a), PolyBytes(b)), lo, 16)
  {
    lo := if j + 2 <= |a| then 8 * (|a| - 2 - j) else 0;
    forall e: nat | e in Add(PolyBytes(a), PolyBytes(b))
      ensures lo <= e < lo + 16
    {
      assert BitAt(a, e) != BitAt(b, e);
      var k := |a| - 1 - e / 8;
      assert k == j || k == j + 1;
    }
  }

  // ---- Odd numbers of flips ----

  /** Number of bit positions in which two bytes differ. */
  function ByteFlips(a: bv8, b: bv8): nat {
    |Add(Poly8(a), Poly8(b))|
  }

  function BytesFlips(s: seq<bv8>, t: seq<bv8>): nat
    requires |s| == |t|
  {
    if s == [] then 0
    else BytesFlips(s[..|s| - 1], t[..|t| - 1]) + ByteFlips(s[|s| - 1], t[|t| - 1])
  }

  /** Number of bits of Type, Payload and CRC that differ. */
  function Flips(sent: Attempt, received: Attempt): nat
    requires |sent.payload| == |received.payload|
  {
    BytesFlips(Body(sent), Body(received)) + ByteFlips(sent.lo, received.lo) + ByteFlips(sent.hi, received.hi)
  }

  lemma DisjointAddSize(a: Poly, b: Poly)
    requires a !! b
    ensures |Add(a, b)| == |a| + |b|
  {
    assert Add(a, b) == a + b;
  }

  /** Size of a difference, split into a high part shifted by k and a low part below x^k. */
  lemma SplitDifferenceSize(h: Poly, l: Poly, h': Poly, l': Poly, k: nat)
    requires DegreeBelow(l, k) && DegreeBelow(l', k)
    ensures |Add(Add(Shift(h, k), l), Add(Shift(h', k), l'))| == |Add(h, h')| + |Add(l, l')|
  {
    var high, low := Add(h, h'), Add(l, l');
    AddInterchange(Shift(h, k), l, Shift(h', k), l');
    ShiftDistributesOverAdd(h, h', k);
    ShiftSize(high, k);
    assert Shift(high, k) !! low;
    DisjointAddSize(Shift(high, k), low);
  }

  lemma AppendedDifferenceSize(s: seq<bv8>, b: bv8, t: seq<bv8>, c: bv8)
    ensures |Add(PolyBytes(s + [b]), PolyBytes(t + [c]))| == |Add(PolyBytes(s), PolyBytes(t))| + ByteFlips(b, c)
  {
    PolyBytesAppend(s, b);
    PolyBytesAppend(t, c);
    Poly8Degree(b);
    Poly8Degree(c);
    SplitDifferenceSize(PolyBytes(s), Poly8(b), PolyBytes(t), Poly8(c), 8);
  }

  lemma {:induction false} BytesFlipsAreTerms(s: seq<bv8>, t: seq<bv8>)
    requires |s| == |t|
    ensures |Add(PolyBytes(s), PolyBytes(t))| == BytesFlips(s, t)
    decreases |s|
  {
    if s == [] {
      assert PolyBytes(s) == {};
      AddSelf({});
    } else {
      var s', b, t', c := s[..|s| - 1], s[|s| - 1], t[..|t| - 1], t[|t| - 1];
      assert s == s' + [b] && t == t' + [c];
      BytesFlipsAreTerms(s', t');
      AppendedDifferenceSize(s', b, t', c);
    }
  }

  lemma JoinIsXor(hi: bv8, lo: bv8)
    ensures Join(hi, lo) == HighByte(hi) ^ Word(lo)
  {}

  lemma PolyOfField(a: Attempt)
    ensures Poly16(CrcField(a)) == Add(Shift(Poly8(a.hi), 8), Poly8(a.lo))
  {
    JoinIsXor(a.hi, a.lo);
    PolyXor(HighByte(a.hi), Word(a.lo), CrcField(a));
    PolyHighByte(a.hi);
  }

  /** The error polynomial has one term per flipped bit. */
  lemma FlipsAreTerms(sent: Attempt, received: Attempt)
    requires |sent.payload| == |received.payload|
    ensures |ErrorPoly(sent, received)| == Flips(sent, received)
  {
    BytesFlipsAreTerms(Body(sent), Body(received));
    FieldFlipsAreTerms(sent, received);
    FieldDegree(sent);
    FieldDegree(received);
    SplitDifferenceSize(PolyBytes(Body(sent)), Poly16(CrcField(sent)),
                        PolyBytes(Body(received)), Poly16(CrcField(received)), 16);
  }

  lemma FieldDegree(a: Attempt)
    ensures DegreeBelow(Poly16(CrcField(a)), 16)
  {}

  lemma FieldFlipsAreTerms(a: Attempt, b: Attempt)
    ensures |Add(Poly16(CrcField(a)), Poly16(CrcField(b)))| == ByteFlips(a.lo, b.lo) + ByteFlips(a.hi, b.hi)
  {
    PolyOfField(a);
    PolyOfField(b);
    Poly8Degree(a.lo);
    Poly8Degree(b.lo);
    SplitDifferenceSize(Poly8(a.hi), Poly8(a.lo), Poly8(b.hi), Poly8(b.lo), 8);
  }

  /** Any odd number of bit flips across Type, Payload and CRC is detected. */
  lemma OddFlipsDetected(m: Machine, sent: Packet, received: Attempt)
    requires Listening(m) && |sent.payload| == |received.payload| < 256
    requires Flips(Sealed(sent), received) % 2 == 1
    ensures Rejected(Run(m, Frame(received)), m)
  {
    var e := ErrorPoly(Sealed(sent), received);
    FlipsAreTerms(Sealed(sent), received);
    if IsMultiple(e) {
      MultipleHasEvenSize(e);
    }
    UndetectedIffMultiple(m, sent, received);
  }

  // ---- Where the burst guarantee stops ----

  /** The packet with the last payload byte flipped by d, and the CRC low byte by e. */
  function AcrossTheBoundary(sent: Packet, d: bv8, e: bv8): Attempt
    requires sent.payload != []
  {
    var last := |sent.payload| - 1;
    Attempt(sent.ptype, sent.payload[last := sent.payload[last] ^ d], Sealed(sent).lo ^ e, Sealed(sent).hi)
  }

  /** The last payload byte and the CRC low byte are neighbours on the wire but not in the
      polynomial.  Of all damage confined to the two, exactly flipping 0x89 in one and 0xA1 in
      the other is delivered. */
  lemma WireBurstAcrossTheBoundaryGetsThrough(m: Machine, sent: Packet, d: bv8, e: bv8)
    requires Listening(m) && 0 < |sent.payload| < 256 && (d != 0 || e != 0)
    ensures var a := AcrossTheBoundary(sent, d, e);
      if d == 0x89 && e == 0xA1
      then Accepted(Run(m, Frame(a)), m, Packet(a.ptype, a.payload)) && a.payload != sent.payload
      else Rejected(Run(m, Frame(a)), m)
  {
    var a := AcrossTheBoundary(sent, d, e);
    BoundaryErrorPoly(Sealed(sent), a, d, e);
    BoundaryMultipleIff(d, e);
    UndetectedIffMultiple(m, sent, a);
    XorChanges(sent.payload[|sent.payload| - 1]);
  }

  lemma XorChanges(b: bv8)
    ensures b ^ 0x89 != b
  {}

  lemma XorOfWords(b: bv8, d: bv8, x: bv8)
    requires x == b ^ d
    ensures Word(x) == Word(b) ^ Word(d)
  {}

  /** Xor-ing a byte adds the mask's polynomial. */
  lemma XorByteDifference(b: bv8, d: bv8, x: bv8)
    requires x == b ^ d
    ensures Add(Poly8(b), Poly8(x)) == Poly8(d)
  {
    XorOfWords(b, d, x);
    PolyXor(Word(b), Word(d), Word(x));
  }

  lemma LowByteDifference(a: Attempt, b: Attempt)
    requires a.hi == b.hi
    ensures Add(Poly16(CrcField(a)), Poly16(CrcField(b))) == Add(Poly8(a.lo), Poly8(b.lo))
  {
    PolyOfField(a);
    PolyOfField(b);
    AddInterchange(Shift(Poly8(a.hi), 8), Poly8(a.lo), Shift(Poly8(b.hi), 8), Poly8(b.lo));
    AddSelf(Shift(Poly8(a.hi), 8));
    AddSelf(Add(Poly8(a.lo), Poly8(b.lo)));
  }

  lemma LastByteDifference(s: seq<bv8>, b: bv8, c: bv8)
    ensures Add(PolyBytes(s + [b]), PolyBytes(s + [c])) == Add(Poly8(b), Poly8(c))
  {
    PolyBytesAppend(s, b);
    PolyBytesAppend(s, c);
    AddInterchange(Shift(PolyBytes(s), 8), Poly8(b), Shift(PolyBytes(s), 8), Poly8(c));
    AddSelf(Shift(PolyBytes(s), 8));
    AddSelf(Add(Poly8(b), Poly8(c)));
  }

  lemma BodyAcross(a: Attempt, b: Attempt, d: bv8)
    requires a.payload != [] && b.ptype == a.ptype
    requires var last := |a.payload| - 1; b.payload == a.payload[last := a.payload[last] ^ d]
    ensures Add(PolyBytes(Body(a)), PolyBytes(Body(b))) == Poly8(d)
  {
    var last := |a.payload| - 1;
    var s, x, y := [a.ptype] + a.payload[..last], a.payload[last], b.payload[last];
    assert Body(a) == s + [x] && Body(b) == s + [y];
    LastByteDifference(s, x, y);
    XorByteDifference(x, d, y);
  }

  lemma FieldAcross(a: Attempt, b: Attempt, e: bv8)
    requires b.hi == a.hi && b.lo == a.lo ^ e
    ensures Add(Poly16(CrcField(a)), Poly16(CrcField(b))) == Poly8(e)
  {
    LowByteDifference(a, b);
    XorByteDifference(a.lo, e, b.lo);
  }

  lemma BoundaryErrorPoly(a: Attempt, b: Attempt, d: bv8, e: bv8)
    requires a.payload != [] && b.ptype == a.ptype && b.hi == a.hi && b.lo == a.lo ^ e
    requires var last := |a.payload| - 1; b.payload == a.payload[last := a.payload[last] ^ d]
    ensures ErrorPoly(a, b) == Add(Shift(Poly8(d), 16), Poly8(e))
  {
    BodyAcross(a, b, d);
    FieldAcross(a, b, e);
    ErrorPolySplits(a, b);
  }

  /** Such an error is a multiple exactly when e is what eight rounds make of d. */
  lemma BoundaryRemainder(d: bv8, e: bv8)
    ensures IsMultiple(Add(Shift(Poly8(d), 16), Poly8(e))) <==> Rounds(HighByte(d), 8) == Word(e)
  {
    var p, w := Shift(Poly8(d), 16), Rounds(HighByte(d), 8);
    PolyHighByte(d);
    ShiftShift(Poly8(d), 8, 8);
    RoundsMeaning(HighByte(d), 8);
    assert Congruent(p, Poly16(w));
    if Congruent(p, Poly8(e)) {
      RemainderUnique(p, Poly16(w), Poly16(Word(e)));
      PolyInjective(w, Word(e));
    }
  }

  function EightRounds(w: bv16): bv16 {
    Round(Round(Round(Round(Round(Round(Round(Round(w))))))))
  }

  lemma RoundsEight(w: bv16, n: nat)
    requires n == 8
    ensures Rounds(w, n) == EightRounds(w)
  {
    RoundsNext(w, n - 2);
    RoundsNext(w, n - 4);
    RoundsNext(w, n - 6);
    RoundsNext(w, n - 8);
  }

  /** The one byte whose eight rounds leave the high byte clear. */
  lemma ClearHighByte(d: bv8, e: bv8)
    ensures EightRounds(HighByte(d)) == Word(e) <==> (d == 0 && e == 0) || (d == 0x89 && e == 0xA1)
  {}

  lemma BoundaryMultipleIff(d: bv8, e: bv8)
    ensures IsMultiple(Add(Shift(Poly8(d), 16), Poly8(e))) <==> (d == 0 && e == 0) || (d == 0x89 && e == 0xA1)
  {
    BoundaryRemainder(d, e);
    RoundsEight(HighByte(d), 8);
    ClearHighByte(d, e);
  }
}
