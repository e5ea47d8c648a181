/** Counter and checksum of a frame, told by the bits of its payload and the names of its
    message's signals. */
module FrameReadings {
  import opened Bits
  import opened Options
  import opened SignalCodec
  import opened SignalPacking
  import opened FrameHistory
  import opened DiagnosticsEngine
  import opened LossDetection

  // ---- Looking a signal up ----

  /** Signal i is the first of that name. */
  predicate FirstNamed(signals: seq<SignalDef>, name: string, i: nat) {
    i < |signals| && signals[i].name == name && forall j :: 0 <= j < i ==> signals[j].name != name
  }

  lemma {:induction false} FindSignalFinds(signals: seq<SignalDef>, name: string)
    ensures match FindSignal(signals, name)
      case None => forall i :: 0 <= i < |signals| ==> signals[i].name != name
      case Some(sig) => exists i: nat :: FirstNamed(signals, name, i) && signals[i] == sig
  {
    if signals != [] {
      if signals[0].name == name {
        assert FirstNamed(signals, name, 0);
      } else {
        FindSignalFinds(signals[1..], name);
        var r := FindSignal(signals[1..], name);
        if r.Some? {
          var i: nat :| FirstNamed(signals[1..], name, i) && signals[1..][i] == r.value;
          assert FirstNamed(signals, name, i + 1) && signals[i + 1] == r.value;
        }
      }
    }
  }

  lemma FindSignalIs(signals: seq<SignalDef>, name: string, i: nat)
    requires FirstNamed(signals, name, i)
    ensures FindSignal(signals, name) == Some(signals[i])
  {
    FindSignalFinds(signals, name);
    var r := FindSignal(signals, name);
    if r.Some? {
      var j: nat :| FirstNamed(signals, name, j) && signals[j] == r.value;
      assert !(i < j) && !(j < i);
    }
  }

  // ---- The value of a signal, bit by bit ----

  /** Bit j of v is the bit of the payload where the signal has it: counted from the start bit
      upwards for Intel, from the last bit backwards for Motorola. */
  predicate HoldsAt(d: Payload, sig: SignalDef, order: ByteOrder, v: nat, j: nat)
    requires InRange(sig) && j < sig.length
  {
    match order
    case Intel => var k := sig.startBit + j; Bit(v, j) == Bit(d[k / 8], k % 8)
    case Motorola => var k := sig.startBit + sig.length - 1 - j; Bit(v, j) == Bit(d[k / 8], 7 - k % 8)
  }

  predicate Holds(d: Payload, sig: SignalDef, order: ByteOrder, v: nat)
    requires InRange(sig)
  {
    v < Pow2(sig.length) && forall j: nat :: j < sig.length ==> HoldsAt(d, sig, order, v, j)
  }

  lemma HoldsAtRaw(d: Payload, sig: SignalDef, order: ByteOrder, j: nat)
    requires InRange(sig) && j < sig.length
    ensures HoldsAt(d, sig, order, Raw(d, sig, order), j)
  {
    var n, lo := Number(d, order), Lowest(sig, order);
    BitOfLow(Shr(n, lo), sig.length, j);
    ShrTwice(n, lo, j);
    WireBitOfNumber(d, order, if order.Intel? then sig.startBit + j else sig.startBit + sig.length - 1 - j);
  }

  /** The value extracted is the one number of that many bits that the payload holds there. */
  lemma RawIffHolds(d: Payload, sig: SignalDef, order: ByteOrder, v: nat)
    requires InRange(sig)
    ensures Raw(d, sig, order) == v <==> Holds(d, sig, order, v)
  {
    var raw := Raw(d, sig, order);
    forall j: nat | j < sig.length
      ensures HoldsAt(d, sig, order, raw, j)
    {
      HoldsAtRaw(d, sig, order, j);
    }
    if Holds(d, sig, order, v) {
      SameBits(d, sig, order, v, raw);
    }
  }

  lemma SameBits(d: Payload, sig: SignalDef, order: ByteOrder, v: nat, w: nat)
    requires InRange(sig) && Holds(d, sig, order, v) && Holds(d, sig, order, w)
    ensures v == w
  {
    forall j: nat | j < sig.length
      ensures SameBit(v, 0, w, 0, j)
    {
      assert HoldsAt(d, sig, order, v, j) && HoldsAt(d, sig, order, w, j);
    }
    FieldsEqualByBits(v, 0, w, 0, sig.length);
    LowOfSmall(v, sig.length);
    LowOfSmall(w, sig.length);
  }

  // ---- Counters ----

  /** The cast to int keeps the low 32 bits, signed. */
  lemma CastMeans(x: nat) returns (q: nat)
    ensures AsInt32(x) == x - q * 0x1_0000_0000 && -0x8000_0000 <= AsInt32(x) < 0x8000_0000
  {
    q := x / 0x1_0000_0000 + (if x % 0x1_0000_0000 < 0x8000_0000 then 0 else 1);
  }

  /** The successor modulo 16 of the counter that came before; of a negative one, the negative
      remainder. */
  lemma ExpectedMeans(c: int) returns (q: int)
    ensures c + 1 == 16 * q + Expected(c)
    ensures c >= -1 ==> 0 <= Expected(c) < 16
    ensures c < -1 ==> -16 < Expected(c) <= 0
  {
    q := if c >= -1 then (c + 1) / 16 else -(-(c + 1) / 16);
  }

  lemma CounterHeld(msg: MessageDef, frame: RawFrame, i: nat, v: nat)
    requires Decodable(msg) && FirstNamed(msg.signals, "counter", i)
    requires InRange(msg.signals[i]) && Holds(frame.data, msg.signals[i], msg.byteOrder, v)
    ensures CounterOf(msg, frame) == Some(AsInt32(v))
  {
    FindSignalIs(msg.signals, "counter", i);
    RawIffHolds(frame.data, msg.signals[i], msg.byteOrder, v);
  }

  // ---- Checksums ----

  /** How many of the eight bytes have a one at bit k. */
  function OnesAt(d: seq<Byte>, k: nat): nat {
    if d == [] then 0 else OnesAt(d[..|d| - 1], k) + Bit(d[|d| - 1], k)
  }

  lemma {:induction false} BitOfXor(a: nat, b: nat, k: nat)
    ensures Bit(Xor(a, b), k) == (Bit(a, k) + Bit(b, k)) % 2
  {
    XorParts(a, b);
    if k > 0 {
      BitOfXor(a / 2, b / 2, k - 1);
    }
  }

  lemma {:induction false} BitOfXorAll(d: seq<Byte>, k: nat)
    ensures Bit(XorAll(d), k) == OnesAt(d, k) % 2
  {
    if d == [] {
      ShrZero(k);
    } else {
      BitOfXorAll(d[..|d| - 1], k);
      BitOfXor(XorAll(d[..|d| - 1]), d[|d| - 1], k);
    }
  }

  lemma {:induction false} XorIsByte(d: seq<Byte>)
    ensures XorAll(d) < 256
  {
    if d != [] {
      XorIsByte(d[..|d| - 1]);
      XorBelow(XorAll(d[..|d| - 1]), d[|d| - 1], 8);
      Pow2Values();
    }
  }

  lemma {:induction false} XorBelow(a: nat, b: nat, n: nat)
    requires a < Pow2(n) && b < Pow2(n)
    ensures Xor(a, b) < Pow2(n)
  {
    if n > 0 {
      XorBelow(a / 2, b / 2, n - 1);
      XorParts(a, b);
    }
  }

  /** Some bit position has an odd number of ones over the eight bytes. */
  predicate OddSomewhere(d: Payload) {
    exists k: nat :: k < 8 && OnesAt(d, k) % 2 == 1
  }

  lemma OddIffNotZero(d: Payload)
    ensures OddSomewhere(d) <==> XorAll(d) != 0
  {
    var x := XorAll(d);
    if x == 0 {
      forall k: nat | k < 8
        ensures OnesAt(d, k) % 2 == 0
      {
        BitOfXorAll(d, k);
        ShrZero(k);
      }
    } else if !OddSomewhere(d) {
      forall k: nat | k < 8
        ensures SameBit(x, 0, 0, 0, k)
      {
        BitOfXorAll(d, k);
        ShrZero(k);
      }
      XorIsByte(d);
      Pow2Values();
      LowOfSmall(x, 8);
      LowOfSmall(0, 8);
      FieldsEqualByBits(x, 0, 0, 0, 8);
    }
  }

  // ---- Two frames of one message ----

  /** The anomalies of that kind among those reported. */
  predicate Reported(anomalies: seq<Anomaly>, kind: AnomalyKind) {
    exists i :: 0 <= i < |anomalies| && anomalies[i].kind == kind
  }

  /** Whatever came before: the second of two frames with nothing between raises a gap exactly
      when the counter it holds is not the successor modulo 16 of the one the first holds, and a
      checksum fault exactly when a bit position has an odd number of ones. */
  method FeedTwo(engine: Engine, msg: MessageDef, first: RawFrame, second: RawFrame,
                 ghost i: nat, ghost v: nat, ghost w: nat)
    returns (anomalies: seq<Anomaly>)
    requires engine.Valid() && Decodable(msg) && FirstNamed(msg.signals, "counter", i)
    requires InRange(msg.signals[i]) && msg.signals[i].length <= 31
    requires Holds(first.data, msg.signals[i], msg.byteOrder, v)
    requires Holds(second.data, msg.signals[i], msg.byteOrder, w)
    modifies engine
    ensures engine.Valid()
    ensures Reported(anomalies, CounterGap) <==> w != (v + 1) % 16
    ensures (forall j :: 0 <= j < |msg.signals| ==> msg.signals[j].name != "checksum") ==>
      !Reported(anomalies, ChecksumMismatch)
    ensures (exists j :: 0 <= j < |msg.signals| && msg.signals[j].name == "checksum") ==>
      (Reported(anomalies, ChecksumMismatch) <==> OddSomewhere(second.data))
  {
    ghost var r, r', h := Received(msg, first), Received(msg, second), engine.history;
    CounterHeld(msg, first, i, v);
    CounterHeld(msg, second, i, w);
    SmallCounter(v, msg.signals[i].length);
    SmallCounter(w, msg.signals[i].length);
    var before := engine.OnKnownFrame(msg, first);
    LastCounterIs(h, r);
    anomalies := engine.OnKnownFrame(msg, second);
    FindSignalFinds(msg.signals, "checksum");
    OddIffNotZero(second.data);
    ReportedByFrame(Some(v), r', anomalies);
  }

  lemma {:induction false} SmallCounter(v: nat, length: nat)
    requires v < Pow2(length) && length <= 31
    ensures AsInt32(v) == v && Expected(v) == (v + 1) % 16
  {
    Pow2Grows(length, 31);
    Pow2Is31(31);
  }

  lemma {:induction false} Pow2Is31(n: nat)
    requires n == 31
    ensures Pow2(n) == 0x8000_0000
  {
    Pow2OfBytes(3, 24);
    assert Pow256(3) == 0x100_0000;
    Pow2OfSum(24, 7);
    Shl7(0x100_0000);
  }

  lemma LastCounterIs(h: seq<Event>, r: Reception)
    requires r.counter.Some?
    ensures LastOf(Counters(Receptions(h + [Known(r)], r.id))) == r.counter
  {
    assert (h + [Known(r)])[..|h|] == h;
    CountersGrow(Receptions(h, r.id), r);
  }

  lemma ReportedByFrame(last: Option<int>, r: Reception, anomalies: seq<Anomaly>)
    requires anomalies == GapReport(last, r) + SumReport(r)
    ensures Reported(anomalies, CounterGap) <==> IsGap(last, r.counter)
    ensures Reported(anomalies, ChecksumMismatch) <==> r.bad
  {
    if IsGap(last, r.counter) {
      assert anomalies[0].kind == CounterGap;
    }
    if r.bad {
      assert anomalies[|anomalies| - 1].kind == ChecksumMismatch;
    }
  }
}
