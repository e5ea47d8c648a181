/** The inverse of extraction.  Packing writes a value into the bits of a signal; extraction
    reads it back, and reads nothing else. */
module SignalPacking {
  import opened Bits
  import opened SignalCodec

  // ---- Which bits a signal depends on ----

  /** Bit k of the payload's bit stream, in the numbering of the byte order. */
  function WireBit(d: Payload, order: ByteOrder, k: nat): nat
    requires k < 64
  {
    Bit(d[k / 8], if order.Intel? then k % 8 else 7 - k % 8)
  }

  predicate SameWireBit(d: Payload, e: Payload, order: ByteOrder, k: nat) {
    k < 64 ==> WireBit(d, order, k) == WireBit(e, order, k)
  }

  lemma WireBitOfNumber(d: Payload, order: ByteOrder, k: nat)
    requires k < 64
    ensures WireBit(d, order, k) == Bit(Number(d, order), if order.Intel? then k else 63 - k)
  {
    if order.Intel? {
      BitOfLE(d, k);
    } else {
      BitOfBE(d, k);
    }
  }

  /** Two payloads give a signal the same value exactly when they agree on its own bits. */
  lemma RawIsDeterminedByItsBits(d: Payload, e: Payload, sig: SignalDef, order: ByteOrder)
    requires InRange(sig)
    ensures Raw(d, sig, order) == Raw(e, sig, order) <==>
      forall k: nat :: sig.startBit <= k < sig.startBit + sig.length ==> SameWireBit(d, e, order, k)
  {
    var lo, n, m := Lowest(sig, order), Number(d, order), Number(e, order);
    FieldsEqualByBits(n, lo, m, lo, sig.length);
    forall k: nat | sig.startBit <= k < sig.startBit + sig.length
      ensures SameWireBit(d, e, order, k) <==> SameBit(n, lo, m, lo, Place(sig, order, k))
    {
      SameAtPlace(d, e, sig, order, lo, k);
    }
    forall j: nat | j < sig.length
      ensures SameBit(n, lo, m, lo, j) <==> SameWireBit(d, e, order, At(sig, order, j))
    {
      SameAtPlace(d, e, sig, order, lo, At(sig, order, j));
    }
  }

  lemma SameAtPlace(d: Payload, e: Payload, sig: SignalDef, order: ByteOrder, lo: nat, k: nat)
    requires InRange(sig) && sig.startBit <= k < sig.startBit + sig.length && lo == Lowest(sig, order)
    ensures SameWireBit(d, e, order, k) <==>
      SameBit(Number(d, order), lo, Number(e, order), lo, Place(sig, order, k))
  {
    WireBitOfNumber(d, order, k);
    WireBitOfNumber(e, order, k);
  }

  /** Bit k of the stream is this bit of the signal's value. */
  function Place(sig: SignalDef, order: ByteOrder, k: nat): (j: nat)
    requires InRange(sig) && sig.startBit <= k < sig.startBit + sig.length
    ensures j < sig.length
  {
    if order.Intel? then k - sig.startBit else sig.startBit + sig.length - 1 - k
  }

  function At(sig: SignalDef, order: ByteOrder, j: nat): (k: nat)
    requires InRange(sig) && j < sig.length
    ensures sig.startBit <= k < sig.startBit + sig.length
  {
    if order.Intel? then sig.startBit + j else sig.startBit + sig.length - 1 - j
  }

  // ---- Bytes of a number ----

  function BytesLE(n: nat, count: nat): (d: seq<Byte>)
    ensures |d| == count
  {
    if count == 0 then [] else [n % 256] + BytesLE(n / 256, count - 1)
  }

  lemma {:induction false} BytesOfNumber(n: nat, count: nat)
    requires n < Pow2(8 * count)
    ensures LE(BytesLE(n, count)) == n
  {
    if count > 0 {
      ByteMore(8 * (count - 1), 8 * count);
      BytesOfNumber(n / 256, count - 1);
    }
  }

  lemma {:induction false} ReversedTwice(d: seq<Byte>)
    ensures Reversed(Reversed(d)) == d
  {
    forall k | 0 <= k < |d|
      ensures Reversed(Reversed(d))[k] == d[k]
    {
      ReversedAt(Reversed(d), k);
      ReversedAt(d, |d| - 1 - k);
    }
  }

  function OfNumber(n: nat, order: ByteOrder): Payload {
    if order.Intel? then BytesLE(n, 8) else Reversed(BytesLE(n, 8))
  }

  lemma NumberOfOfNumber(n: nat, order: ByteOrder)
    requires n < Pow2(64)
    ensures Number(OfNumber(n, order), order) == n
  {
    BytesOfNumber(n, 8);
    BigEndianIsReversed(Reversed(BytesLE(n, 8)));
    ReversedTwice(BytesLE(n, 8));
  }

  // ---- Packing one signal ----

  /** n with the len bits from lo upwards replaced by v. */
  function Insert(n: nat, lo: nat, len: nat, v: nat): nat {
    Low(n, lo) + Shl(v + Shl(Shr(n, lo + len), len), lo)
  }

  lemma BitOfInsert(n: nat, lo: nat, len: nat, v: nat, k: nat)
    requires v < Pow2(len)
    ensures Bit(Insert(n, lo, len, v), k) == if lo <= k < lo + len then Bit(v, k - lo) else Bit(n, k)
  {
    BitOfJoin(Low(n, lo), v + Shl(Shr(n, lo + len), len), lo, k);
    if k < lo {
      BitOfLow(n, lo, k);
    } else {
      BitOfJoin(v, Shr(n, lo + len), len, k - lo);
      if lo + len <= k {
        ShrTwice(n, lo + len, k - lo - len);
      }
    }
  }

  lemma InsertIsBounded(n: nat, lo: nat, len: nat, v: nat)
    requires n < Pow2(64) && v < Pow2(len) && lo + len <= 64
    ensures Insert(n, lo, len, v) < Pow2(64)
  {
    ShrShrinks(n, lo + len, 64 - lo - len);
    JoinIsBounded(v, Shr(n, lo + len), len, 64 - lo - len);
    JoinIsBounded(Low(n, lo), v + Shl(Shr(n, lo + len), len), lo, 64 - lo);
  }

  function Pack(d: Payload, order: ByteOrder, sig: SignalDef, v: nat): Payload
    requires InRange(sig)
  {
    OfNumber(Insert(Number(d, order), Lowest(sig, order), sig.length, v), order)
  }

  lemma NumberOfPack(d: Payload, order: ByteOrder, sig: SignalDef, v: nat)
    requires InRange(sig) && v < Pow2(sig.length)
    ensures Number(Pack(d, order, sig, v), order) == Insert(Number(d, order), Lowest(sig, order), sig.length, v)
  {
    NumberBelow(d, order);
    InsertIsBounded(Number(d, order), Lowest(sig, order), sig.length, v);
    NumberOfOfNumber(Insert(Number(d, order), Lowest(sig, order), sig.length, v), order);
  }

  /** What was packed is extracted. */
  lemma PackThenExtract(d: Payload, order: ByteOrder, sig: SignalDef, v: nat)
    requires InRange(sig) && v < Pow2(sig.length)
    ensures Raw(Pack(d, order, sig, v), sig, order) == v
  {
    var n, lo := Number(d, order), Lowest(sig, order);
    NumberOfPack(d, order, sig, v);
    forall k: nat | k < sig.length
      ensures SameBit(Insert(n, lo, sig.length, v), lo, v, 0, k)
    {
      BitOfInsert(n, lo, sig.length, v, lo + k);
    }
    FieldsEqualByBits(Insert(n, lo, sig.length, v), lo, v, 0, sig.length);
    LowOfSmall(v, sig.length);
  }

  lemma {:induction false} NumberOfBytes(d: seq<Byte>)
    ensures BytesLE(LE(d), |d|) == d
  {
    if d != [] {
      NumberOfBytes(d[1..]);
      assert (d[0] + 256 * LE(d[1..])) / 256 == LE(d[1..]);
    }
  }

  /** Packing what was extracted changes nothing. */
  lemma ExtractThenPack(d: Payload, order: ByteOrder, sig: SignalDef)
    requires InRange(sig)
    ensures Pack(d, order, sig, Raw(d, sig, order)) == d
  {
    var n, lo := Number(d, order), Lowest(sig, order);
    ShrTwice(n, lo, sig.length);
    SplitAt(Shr(n, lo), sig.length);
    SplitAt(n, lo);
    NumberOfBytes(d);
    NumberOfBytes(Reversed(d));
    BigEndianIsReversed(d);
    ReversedTwice(d);
  }

  /** A bit of the stream outside the packed signal is as before. */
  lemma PackKeepsOtherBits(d: Payload, order: ByteOrder, sig: SignalDef, v: nat, k: nat)
    requires InRange(sig) && v < Pow2(sig.length)
    requires k < 64 && !(sig.startBit <= k < sig.startBit + sig.length)
    ensures SameWireBit(Pack(d, order, sig, v), d, order, k)
  {
    NumberOfPack(d, order, sig, v);
    WireBitOfNumber(d, order, k);
    WireBitOfNumber(Pack(d, order, sig, v), order, k);
    BitOfInsert(Number(d, order), Lowest(sig, order), sig.length, v, if order.Intel? then k else 63 - k);
  }

  predicate Disjoint(a: SignalDef, b: SignalDef) {
    a.startBit + a.length <= b.startBit || b.startBit + b.length <= a.startBit
  }

  lemma PackKeepsOtherSignals(d: Payload, order: ByteOrder, sig: SignalDef, v: nat, other: SignalDef)
    requires InRange(sig) && v < Pow2(sig.length) && InRange(other) && Disjoint(sig, other)
    ensures Raw(Pack(d, order, sig, v), other, order) == Raw(d, other, order)
  {
    forall k: nat | other.startBit <= k < other.startBit + other.length
      ensures SameWireBit(Pack(d, order, sig, v), d, order, k)
    {
      PackKeepsOtherBits(d, order, sig, v, k);
    }
    RawIsDeterminedByItsBits(Pack(d, order, sig, v), d, other, order);
  }

  // ---- Packing a whole frame ----

  /** The values the signal can carry: two's complement for a signed one. */
  predicate Representable(sig: SignalDef, v: int)
    requires InRange(sig)
  {
    if sig.isSigned && sig.length > 0 then 0 - Pow2(sig.length - 1) <= v < Pow2(sig.length - 1)
    else 0 <= v < Pow2(sig.length)
  }

  function Code(sig: SignalDef, v: int): (c: nat)
    requires InRange(sig) && Representable(sig, v)
    ensures c < Pow2(sig.length)
  {
    if v < 0 then v + Pow2(sig.length) else v
  }

  /** Sign extension inverts the two's-complement code. */
  lemma CodeReadsBack(d: Payload, order: ByteOrder, sig: SignalDef, v: int)
    requires InRange(sig) && Representable(sig, v) && Raw(d, sig, order) == Code(sig, v)
    ensures Reading(d, sig, order) == v
  {
    Pow2Values();
  }

  /** The signals of one frame with the values they are to carry. */
  datatype Assignment = Assignment(sig: SignalDef, v: int)

  predicate Fitting(frame: seq<Assignment>) {
    && (forall i :: 0 <= i < |frame| ==> InRange(frame[i].sig) && Representable(frame[i].sig, frame[i].v))
    && (forall i, j :: 0 <= i < j < |frame| ==> Disjoint(frame[i].sig, frame[j].sig))
  }

  function PackAll(d: Payload, order: ByteOrder, frame: seq<Assignment>): Payload
    requires Fitting(frame)
  {
    if frame == [] then d
    else
      var last := frame[|frame| - 1];
      Pack(PackAll(d, order, frame[..|frame| - 1]), order, last.sig, Code(last.sig, last.v))
  }

  /** Every signal of a packed frame decodes to the value it was given. */
  lemma {:induction false} PackAllThenDecode(d: Payload, order: ByteOrder, frame: seq<Assignment>, i: nat)
    requires Fitting(frame) && i < |frame|
    ensures Reading(PackAll(d, order, frame), frame[i].sig, order) == frame[i].v
  {
    var rest, last := frame[..|frame| - 1], frame[|frame| - 1];
    var before := PackAll(d, order, rest);
    if i == |frame| - 1 {
      PackThenExtract(before, order, last.sig, Code(last.sig, last.v));
      CodeReadsBack(PackAll(d, order, frame), order, last.sig, last.v);
    } else {
      PackAllThenDecode(d, order, rest, i);
      PackKeepsOtherSignals(before, order, last.sig, Code(last.sig, last.v), frame[i].sig);
    }
  }

  /** p is the number times scale plus offset, so unless the scale is zero p tells the number. */
  predicate PhysicalOf(sig: SignalDef, v: int, p: real) {
    p == sig.offset + sig.scale * v as real && (sig.scale != 0.0 ==> (p - sig.offset) / sig.scale == v as real)
  }

  lemma ScaledIsPhysical(sig: SignalDef, v: int)
    ensures PhysicalOf(sig, v, Scaled(v, sig))
  {
    Unscale(v as real, sig.scale, sig.offset, Scaled(v, sig));
  }

  lemma Unscale(v: real, scale: real, offset: real, p: real)
    requires p == v * scale + offset
    ensures scale != 0.0 ==> (p - offset) / scale == v
  {}

  /** And it decodes to the physical value of the number it was given. */
  method PackAllThenDecodePhysical(d: Payload, order: ByteOrder, frame: seq<Assignment>, i: nat) returns (p: real)
    requires Fitting(frame) && i < |frame|
    ensures PhysicalOf(frame[i].sig, frame[i].v, p)
  {
    var sig := frame[i].sig;
    PackAllThenDecode(d, order, frame, i);
    p := DecodePhysical(PackAll(d, order, frame), sig, order);
    ScaledIsPhysical(sig, frame[i].v);
  }

  /** A signal apart from all packed ones keeps its value. */
  lemma {:induction false} PackAllKeepsOthers(d: Payload, order: ByteOrder, frame: seq<Assignment>, other: SignalDef)
    requires Fitting(frame) && InRange(other)
    requires forall i :: 0 <= i < |frame| ==> Disjoint(frame[i].sig, other)
    ensures Raw(PackAll(d, order, frame), other, order) == Raw(d, other, order)
  {
    if frame != [] {
      var rest, last := frame[..|frame| - 1], frame[|frame| - 1];
      PackAllKeepsOthers(d, order, rest, other);
      PackKeepsOtherSignals(PackAll(d, order, rest), order, last.sig, Code(last.sig, last.v), other);
    }
  }
}
