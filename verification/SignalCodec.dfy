/** Signal extraction from an eight-byte payload (signal_codec.cpp).  The payload is read as
    one 64-bit number, little-endian or big-endian; a signal is a field of that number. */
module SignalCodec {
  import opened Bits

  datatype ByteOrder = Intel | Motorola

  datatype SignalDef = SignalDef(
    name: string, startBit: int, length: int, scale: real, offset: real, isSigned: bool)

  type Payload = d: seq<Byte> | |d| == 8 witness [0, 0, 0, 0, 0, 0, 0, 0]

  const MODULUS := 0x1_0000_0000_0000_0000
  const HALF := 0x8000_0000_0000_0000

  /** The Intel loop shifts by no negative amount: it meets none of the bit positions -7 to -1. */
  predicate Usable(sig: SignalDef, order: ByteOrder) {
    order.Motorola? || sig.length <= 0 || 0 <= sig.startBit || sig.startBit + sig.length <= -7
  }

  /** Nor does the sign bit of a signed signal. */
  predicate SignUsable(sig: SignalDef, order: ByteOrder) {
    Usable(sig, order) && (sig.isSigned ==> 0 <= sig.length)
  }

  predicate InRange(sig: SignalDef) {
    0 <= sig.startBit && 0 <= sig.length && sig.startBit + sig.length <= 64
  }

  function NotBelowZero(n: int): nat {
    if n < 0 then 0 else n
  }

  /** The first bit position of the signal that is not negative, and how many of its positions
      are not. */
  function Start(sig: SignalDef): nat {
    NotBelowZero(sig.startBit)
  }

  function Size(sig: SignalDef): nat {
    NotBelowZero(if sig.startBit < 0 then sig.length + sig.startBit else sig.length)
  }

  /** Division by eight as the source does it, toward zero, and its remainder. */
  function ByteIndex(bitpos: int): int {
    if bitpos < 0 then -(-bitpos / 8) else bitpos / 8
  }

  function BitIndex(bitpos: int): int {
    bitpos - 8 * ByteIndex(bitpos)
  }

  // ---- The payload as a number ----

  /** First byte least significant. */
  function LE(d: seq<Byte>): nat {
    if d == [] then 0 else d[0] + 256 * LE(d[1..])
  }

  /** First byte most significant. */
  function BE(d: seq<Byte>): nat {
    if d == [] then 0 else 256 * BE(d[..|d| - 1]) + d[|d| - 1]
  }

  function Number(d: Payload, order: ByteOrder): nat {
    if order.Intel? then LE(d) else BE(d)
  }

  function Reversed(d: seq<Byte>): (r: seq<Byte>)
    ensures |r| == |d|
  {
    if d == [] then [] else [d[|d| - 1]] + Reversed(d[..|d| - 1])
  }

  lemma {:induction false} ReversedAt(d: seq<Byte>, k: nat)
    requires k < |d|
    ensures Reversed(d)[k] == d[|d| - 1 - k]
  {
    if k > 0 {
      ReversedAt(d[..|d| - 1], k - 1);
    }
  }

  lemma {:induction false} BigEndianIsReversed(d: seq<Byte>)
    ensures BE(d) == LE(Reversed(d))
  {
    if d != [] {
      BigEndianIsReversed(d[..|d| - 1]);
      assert Reversed(d)[1..] == Reversed(d[..|d| - 1]);
    }
  }

  lemma {:induction false} NumberIsBounded(d: seq<Byte>)
    ensures LE(d) < Pow2(8 * |d|)
  {
    if d != [] {
      NumberIsBounded(d[1..]);
      ByteMore(8 * (|d| - 1), 8 * |d|);
    }
  }

  lemma ByteMore(n: nat, m: nat)
    requires m == n + 8
    ensures Pow2(m) == 256 * Pow2(n)
  {
    Pow2OfSum(n, 8);
    ShlByte(Pow2(n));
  }

  /** Bit k of the little-endian number is bit k % 8 of byte k / 8. */
  lemma {:induction false} BitOfLE(d: seq<Byte>, k: nat)
    ensures Bit(LE(d), k) == if k / 8 < |d| then Bit(d[k / 8], k % 8) else 0
  {
    if d == [] {
      ShrZero(k);
    } else {
      Pow2Values();
      ShlByte(LE(d[1..]));
      BitOfJoin(d[0], LE(d[1..]), 8, k);
      if k >= 8 {
        BitOfLE(d[1..], k - 8);
        assert (k - 8) / 8 == k / 8 - 1 && (k - 8) % 8 == k % 8;
      }
    }
  }

  /** Counted from the top, bit k of the big-endian number is bit 7 - k % 8 of byte k / 8. */
  lemma BitOfBE(d: Payload, k: nat)
    requires k < 64
    ensures Bit(BE(d), 63 - k) == Bit(d[k / 8], 7 - k % 8)
  {
    BigEndianIsReversed(d);
    BitOfLE(Reversed(d), 63 - k);
    assert (63 - k) / 8 == 7 - k / 8 && (63 - k) % 8 == 7 - k % 8;
    ReversedAt(d, 7 - k / 8);
  }

  lemma NumberBelow(d: Payload, order: ByteOrder)
    ensures Number(d, order) < Pow2(64)
  {
    NumberIsBounded(d);
    NumberIsBounded(Reversed(d));
    BigEndianIsReversed(d);
  }

  // ---- Extraction ----

  /** How many bits of a Motorola signal lie in the payload; the loop skips the others
      without shifting. */
  function Inside(start: nat, length: nat): (n: nat)
    ensures n <= length
    ensures start + length <= 64 ==> n == length
  {
    if start + length <= 64 then length else if start < 64 then 64 - start else 0
  }

  /** The field a signal occupies in its number, counted from the lowest bit. */
  function Lowest(sig: SignalDef, order: ByteOrder): nat {
    if order.Intel? then Start(sig)
    else if Start(sig) < 64 then 64 - Start(sig) - Inside(Start(sig), Size(sig))
    else 0
  }

  function Width(sig: SignalDef, order: ByteOrder): (n: nat)
    ensures n <= Size(sig) <= NotBelowZero(sig.length)
  {
    if order.Intel? then Size(sig) else Inside(Start(sig), Size(sig))
  }

  function Raw(d: Payload, sig: SignalDef, order: ByteOrder): (v: nat)
    ensures v < Pow2(Width(sig, order)) <= Pow2(NotBelowZero(sig.length)) && v < MODULUS
  {
    var n, lo, len := Number(d, order), Lowest(sig, order), Width(sig, order);
    Pow2Grows(len, NotBelowZero(sig.length));
    NumberBelow(d, order);
    FieldIsBelow(n, lo, len);
    Field(n, lo, len)
  }

  lemma FieldIsBelow(n: nat, lo: nat, len: nat)
    requires n < Pow2(64)
    ensures Field(n, lo, len) < MODULUS
  {
    ShrIsBelow(n, lo);
    LowIsBelow(Shr(n, lo), len);
    Pow2Values();
  }

  function Shl64(x: nat, k: nat): nat {
    Shl(x, k) % MODULUS
  }

  lemma ShiftStays(x: nat, k: nat, n: nat)
    requires x < Pow2(n) && n + k <= 64
    ensures Shl64(x, k) == Shl(x, k)
  {
    Pow2Values();
    JoinIsBounded(0, x, k, n);
    Pow2Grows(n + k, 64);
  }

  /** extractRaw.  In closed form: a quotient and a remainder of the payload's number. */
  method ExtractRaw(data: Payload, sig: SignalDef, order: ByteOrder) returns (value: nat)
    requires Usable(sig, order)
    ensures value == Raw(data, sig, order)
    ensures order.Intel? && sig.startBit >= 0 && sig.length > 0 ==> value == LE(data) / Pow2(sig.startBit) % Pow2(sig.length)
    ensures order.Motorola? && InRange(sig) ==>
      value == BE(data) / Pow2(64 - sig.startBit - sig.length) % Pow2(sig.length)
    ensures sig.length <= 0 ==> value == 0
  {
    if order.Intel? {
      value := ExtractIntel(data, sig);
    } else {
      value := ExtractMotorola(data, sig);
    }
    if InRange(sig) || order.Intel? {
      FieldIsQuotientRemainder(Number(data, order), Lowest(sig, order), Width(sig, order));
    }
    if order.Motorola? && InRange(sig) && sig.length == 0 {
      FieldIsQuotientRemainder(BE(data), 64 - sig.startBit, 0);
    }
  }

  /** The Intel loop: bits accumulate from the lowest.  A bit past the payload is skipped, so no
      shift reaches the width of the word. */
  method ExtractIntel(data: Payload, sig: SignalDef) returns (value: nat)
    requires Usable(sig, Intel)
    ensures value == Field(LE(data), Start(sig), Size(sig))
  {
    value := 0;
    for i := 0 to NotBelowZero(sig.length)
      invariant value == Field(LE(data), Start(sig), Size(sig.(length := i)))
    {
      var bitpos := sig.startBit + i;
      var byteIdx, bitInByte := ByteIndex(bitpos), BitIndex(bitpos);
      if byteIdx < 0 || byteIdx >= |data| {
        IntelSkips(data, sig, i);
        continue;
      }
      BitOfLE(data, bitpos);
      FieldGrowsAtTop(LE(data), sig.startBit, i);
      var bit := Shr(data[byteIdx], bitInByte) % 2;
      ShiftStays(bit, i, 1);
      OrIsSum(value, bit, i);
      value := Or(value, Shl64(bit, i));
    }
  }

  /** The Motorola loop: bits accumulate from the highest. */
  method ExtractMotorola(data: Payload, sig: SignalDef) returns (value: nat)
    ensures value == Raw(data, sig, Motorola)
  {
    value := 0;
    for i := 0 to NotBelowZero(sig.length)
      invariant value == Raw(data, sig.(length := i), Motorola)
    {
      var bitpos := sig.startBit + i;
      var byteIdx, bitInByteFromMsb := ByteIndex(bitpos), BitIndex(bitpos);
      if byteIdx < 0 || byteIdx >= |data| {
        MotorolaSkips(data, sig, i);
        continue;
      }
      var bitInByte := 7 - bitInByteFromMsb;
      var bit := Shr(data[byteIdx], bitInByte) % 2;
      MotorolaTakes(data, sig, i, bit);
      value := Or(Shl64(value, 1), bit);
    }
  }

  lemma AppendBit(v: nat, bit: nat, n: nat)
    requires v < Pow2(n) && n < 64 && bit <= 1
    ensures Or(Shl64(v, 1), bit) == 2 * v + bit
  {
    ShiftStays(v, 1, n);
    assert Shl(v, 1) == 2 * v;
    OrOfEven(v, bit);
  }

  /** A position skipped adds nothing. */
  lemma IntelSkips(data: Payload, sig: SignalDef, i: nat)
    requires sig.startBit + i <= -8 || sig.startBit + i >= 64
    ensures Field(LE(data), Start(sig), Size(sig.(length := i + 1))) == Field(LE(data), Start(sig), Size(sig.(length := i)))
  {
    if sig.startBit + i >= 64 {
      BitOfLE(data, sig.startBit + i);
      FieldGrowsAtTop(LE(data), Start(sig), Size(sig.(length := i)));
      ShlZero(Size(sig.(length := i)));
    }
  }

  lemma MotorolaSkips(data: Payload, sig: SignalDef, i: nat)
    requires sig.startBit + i <= -8 || sig.startBit + i >= 64
    ensures Raw(data, sig.(length := i + 1), Motorola) == Raw(data, sig.(length := i), Motorola)
  {}

  /** A position the Motorola loop does not skip. */
  lemma MotorolaTakes(data: Payload, sig: SignalDef, i: nat, bit: nat)
    requires -8 < sig.startBit + i < 64
    requires bit == Shr(data[ByteIndex(sig.startBit + i)], 7 - BitIndex(sig.startBit + i)) % 2
    ensures Or(Shl64(Raw(data, sig.(length := i), Motorola), 1), bit) == Raw(data, sig.(length := i + 1), Motorola)
  {
    MotorolaBit(data, sig, i, bit);
    AppendBit(Raw(data, sig.(length := i), Motorola), bit, Width(sig.(length := i), Motorola));
  }

  /** Before the payload the source shifts a byte by eight or more, which leaves nothing. */
  lemma MotorolaBit(data: Payload, sig: SignalDef, i: nat, bit: nat)
    requires -8 < sig.startBit + i < 64
    requires bit == Shr(data[ByteIndex(sig.startBit + i)], 7 - BitIndex(sig.startBit + i)) % 2
    ensures Raw(data, sig.(length := i + 1), Motorola) == 2 * Raw(data, sig.(length := i), Motorola) + bit
  {
    var bitpos := sig.startBit + i;
    if bitpos < 0 {
      ByteIsGone(data[0], 7 - bitpos);
    } else {
      BitOfBE(data, bitpos);
      FieldGrowsAtBottom(BE(data), 63 - bitpos, Size(sig.(length := i)));
    }
  }

  lemma ByteIsGone(b: Byte, k: nat)
    requires k >= 8
    ensures Shr(b, k) == 0
  {
    Pow2Values();
    Pow2Grows(8, k);
    ShrShrinks(b, k, 0);
  }

  /** Past the end of the payload a Motorola signal is the shorter signal that ends there. */
  lemma OverrunIsTruncated(d: Payload, sig: SignalDef)
    ensures Raw(d, sig, Motorola) ==
      Raw(d, sig.(startBit := Start(sig), length := Inside(Start(sig), Size(sig))), Motorola)
    ensures InRange(sig) || sig.length <= 0 || Inside(Start(sig), Size(sig)) < sig.length
  {}

  /** The two loops are mirror images: Motorola on the payload is Intel on its bytes reversed,
      counted from the other end. */
  lemma ByteOrdersAreDual(d: Payload, sig: SignalDef)
    requires InRange(sig)
    ensures Raw(d, sig, Motorola) == Raw(Reversed(d), sig.(startBit := 64 - sig.startBit - sig.length), Intel)
  {
    BigEndianIsReversed(d);
  }

  // ---- Sign extension ----

  /** static_cast<int64_t>. */
  function AsInt64(x: nat): int
    requires x < MODULUS
  {
    if x < HALF then x else x - MODULUS
  }

  /** What extractSigned makes of the raw bits. */
  function Signed(raw: nat, sig: SignalDef): int
    requires raw < MODULUS
  {
    if sig.isSigned && 0 < sig.length <= 64 then
      if raw >= Pow2(sig.length - 1) then raw - Pow2(sig.length) else raw
    else AsInt64(raw)
  }

  /** extractSigned: for a signed signal of up to 64 bits the only value in two's-complement
      range that is congruent to the raw bits. */
  method ExtractSigned(data: Payload, sig: SignalDef, order: ByteOrder) returns (v: int)
    requires SignUsable(sig, order)
    ensures v == Signed(Raw(data, sig, order), sig)
    ensures -HALF <= v < HALF
    ensures sig.isSigned && 0 < sig.length <= 64 ==>
      && 0 - Pow2(sig.length - 1) <= v < Pow2(sig.length - 1)
      && (v == Raw(data, sig, order) || v == Raw(data, sig, order) - Pow2(sig.length))
    ensures !sig.isSigned || sig.length > 64 ==> v == Raw(data, sig, order) || v == Raw(data, sig, order) - MODULUS
  {
    var raw := ExtractRaw(data, sig, order);
    Pow2Values();
    if !sig.isSigned || sig.length == 0 || sig.length >= 64 {
      return AsInt64(raw);
    }
    var signBit := Shl64(1, sig.length - 1);
    SignBit(raw, sig.length);
    Pow2Grows(sig.length, 63);
    if And(raw, signBit) != 0 {
      var mask := Shl64(MODULUS - 1, sig.length);
      MaskExtends(raw, sig.length);
      raw := Or(raw, mask);
    }
    v := AsInt64(raw);
  }

  lemma SignBit(raw: nat, len: nat)
    requires 0 < len < 64 && raw < Pow2(len)
    ensures And(raw, Shl64(1, len - 1)) != 0 <==> raw >= Pow2(len - 1)
  {
    ShiftStays(1, len - 1, 1);
    AndOfPower(raw, len - 1);
    TopBit(raw, len - 1);
  }

  /** Filling the bits above len adds 2^64 - 2^len. */
  lemma MaskExtends(raw: nat, len: nat)
    requires len < 64 && raw < Pow2(len)
    ensures Or(raw, Shl64(MODULUS - 1, len)) == raw + MODULUS - Pow2(len)
  {
    Pow2Values();
    Pow2Grows(len, 64);
    var top := Pow2(64 - len) - 1;
    Pow2OfSum(64 - len, len);
    ShlOfDifference(Pow2(64 - len), len);
    ShlOfDifference(MODULUS, len);
    ShlIsProduct(MODULUS, len);
    assert Shl(MODULUS - 1, len) == MODULUS * (Pow2(len) - 1) + (MODULUS - Pow2(len));
    DivisionIsUnique(Shl(MODULUS - 1, len), MODULUS, Pow2(len) - 1, MODULUS - Pow2(len));
    OrIsSum(raw, top, len);
  }

  lemma {:induction false} ShlOfDifference(x: nat, k: nat)
    requires x > 0
    ensures Shl(x - 1, k) == Shl(x, k) - Pow2(k)
  {
    if k > 0 {
      ShlOfDifference(x, k - 1);
    }
  }

  /** A signed Motorola signal that sticks out of the payload is negative only when it holds the
      whole payload and is longer than a word; otherwise its sign bit is above the bits read. */
  lemma OverrunSign(d: Payload, sig: SignalDef)
    requires SignUsable(sig, Motorola) && sig.isSigned && sig.length > 0 && !InRange(sig)
    ensures Signed(Raw(d, sig, Motorola), sig) < 0 <==> sig.startBit <= 0 && sig.startBit + sig.length >= 64 && BE(d) >= HALF
  {
    Pow2Values();
    var inside := Inside(Start(sig), Size(sig));
    if sig.startBit <= 0 && sig.startBit + sig.length >= 64 {
      NumberBelow(d, Motorola);
      LowOfSmall(BE(d), 64);
      assert Raw(d, sig, Motorola) == BE(d);
    } else {
      Pow2Grows(inside, 63);
      if sig.length <= 64 {
        Pow2Grows(inside, sig.length - 1);
      }
    }
  }

  // ---- Physical values ----

  /** The number decodePhysical scales. */
  function Reading(d: Payload, sig: SignalDef, order: ByteOrder): int {
    if sig.isSigned then Signed(Raw(d, sig, order), sig) else Raw(d, sig, order)
  }

  function Scaled(n: int, sig: SignalDef): real {
    n as real * sig.scale + sig.offset
  }

  /** One step of the number is one scale, and zero is the offset. */
  lemma PhysicalIsLinear(n: int, sig: SignalDef)
    ensures Scaled(0, sig) == sig.offset && Scaled(n + 1, sig) - Scaled(n, sig) == sig.scale
  {}

  /** decodePhysical, over the reals. */
  method DecodePhysical(data: Payload, sig: SignalDef, order: ByteOrder) returns (p: real)
    requires SignUsable(sig, order)
    ensures p == Scaled(Reading(data, sig, order), sig)
  {
    var raw: int;
    if sig.isSigned {
      raw := ExtractSigned(data, sig, order);
    } else {
      raw := ExtractRaw(data, sig, order);
    }
    p := Scaled(raw, sig);
  }
}
