/** The wire format in bytes, and the parser fed plain bytes. */
module UartWire {
  import opened Crc16
  import opened UartMachine
  import opened UartErrors
  import opened UartStream
  import opened UartEndToEnd

  // ---- The bytes of a frame ----

  /** FirstSof is the first 0xAA with a 0x55 behind it. */
  lemma FirstSofBytes(s: seq<bv8>)
    ensures var i := FirstSof(s);
      && (i < |s| <==> exists j: nat :: j + 1 < |s| && s[j] == 0xAA && s[j + 1] == 0x55)
      && (i < |s| ==> i + 1 < |s| && s[i] == 0xAA && s[i + 1] == 0x55)
      && (forall j: nat :: j < i && j + 1 < |s| ==> !(s[j] == 0xAA && s[j + 1] == 0x55))
  {
    if j: nat :| j + 1 < |s| && s[j] == 0xAA && s[j + 1] == 0x55 {
      assert SofAt(s, j);
    }
    forall j: nat | j < FirstSof(s) && j + 1 < |s|
      ensures !(s[j] == 0xAA && s[j + 1] == 0x55)
    {
      assert !SofAt(s, j);
    }
  }

  /** 0xAA, 0x55, length, type, payload, CRC low byte, CRC high byte. */
  lemma FrameBytes(a: Attempt, len: bv8)
    requires |a.payload| == len as nat
    ensures |a.payload| < 256 && Frame(a) == [0xAA, 0x55, len, a.ptype] + a.payload + [a.lo, a.hi]
  {
    SameByte(LengthByte(|a.payload|), len);
    Concatenated(len, a.ptype, a.payload, [a.lo, a.hi]);
  }

  lemma SameByte(a: bv8, b: bv8)
    requires a as nat == b as nat
    ensures a == b
  {}

  lemma Concatenated(len: bv8, ptype: bv8, payload: seq<bv8>, end: seq<bv8>)
    ensures [0xAA, 0x55] + ([len] + ([ptype] + payload + end)) == [0xAA, 0x55, len, ptype] + payload + end
  {}

  /** A correct sender appends the CRC of Type and Payload, low byte first. */
  lemma MakePacketBytes(p: Packet, len: bv8)
    requires |p.payload| == len as nat
    ensures var crc := Crc([p.ptype] + p.payload);
      && |p.payload| < 256
      && MakePacket(p) == [0xAA, 0x55, len, p.ptype] + p.payload + [(crc & 0x00FF) as bv8, (crc >> 8) as bv8]
  {
    FrameBytes(Sealed(p), len);
  }

  // ---- Known values ----

  function FromByte(crc: bv16, b: bv8): bv16 {
    EightRounds(crc ^ HighByte(b))
  }

  lemma UpdatedFromByte(crc: bv16, b: bv8, x: bv16)
    requires x == crc ^ HighByte(b)
    ensures Updated(crc, b) == EightRounds(x)
  {
    RoundsEight(x, 8);
  }

  lemma CrcNext(m: seq<bv8>, b: bv8)
    ensures Crc(m + [b]) == FromByte(Crc(m), b)
  {
    CrcAppend(m, b);
    UpdatedFromByte(Crc(m), b, Crc(m) ^ HighByte(b));
  }

  lemma CrcOfFour(a: bv8, b: bv8, c: bv8, d: bv8)
    ensures Crc([a, b, c, d]) == FromByte(FromByte(FromByte(FromByte(0xFFFF, a), b), c), d)
  {
    CrcNext([], a);
    CrcNext([a], b);
    CrcNext([a, b], c);
    CrcNext([a, b, c], d);
    assert [] + [a] == [a] && [a] + [b] == [a, b] && [a, b] + [c] == [a, b, c] && [a, b, c] + [d] == [a, b, c, d];
  }

  lemma DocumentedCrc(init: bv16)
    requires init == 0xFFFF
    ensures FromByte(FromByte(FromByte(FromByte(init, 0x01), 0x10), 0x20), 0x30) == 0x81A2
  {
    assert FromByte(init, 0x01) == 0xF1D1;
    assert FromByte(0xF1D1, 0x10) == 0x3C0F;
    assert FromByte(0x3C0F, 0x20) == 0xDCBD;
    assert FromByte(0xDCBD, 0x30) == 0x81A2;
  }

  /** The packet of DESIGN.md. */
  lemma DocumentedPacket()
    ensures MakePacket(Packet(0x01, [0x10, 0x20, 0x30])) == [0xAA, 0x55, 0x03, 0x01, 0x10, 0x20, 0x30, 0xA2, 0x81]
  {
    var p := Packet(0x01, [0x10, 0x20, 0x30]);
    CrcOfFour(0x01, 0x10, 0x20, 0x30);
    DocumentedCrc(0xFFFF);
    assert [p.ptype] + p.payload == [0x01, 0x10, 0x20, 0x30];
    FrameBytes(Sealed(p), 3);
  }

  /** A lone 0xAA at the end of the input is a partial packet. */
  lemma LoneSof1IsPartial()
    ensures Finish(Run(INITIAL, [0xAA])).partial == 1
  {
    assert Run(INITIAL, [0xAA]) == Step(INITIAL, 0xAA);
  }

  // ---- The class ----

  /** An idle parser fed 0xAA, 0x55, a length byte, a type, as many payload bytes and two bytes
      more: if those are the CRC of Type and Payload, low byte first, the callback gets exactly
      that packet, and otherwise one failure and one loss are counted. */
  method FeedPacketBytes(p: UartParser, wire: array<bv8>, len: bv8, ptype: bv8, ghost payload: seq<bv8>, lo: bv8, hi: bv8)
    requires p.Valid() && p.state == WaitSof1 && wire != p.payload
    requires |payload| == len as nat && wire[..] == [0xAA, 0x55, len, ptype] + payload + [lo, hi]
    modifies p, p.payload
    ensures p.Valid() && p.state == WaitSof1
    ensures p.delivered == old(p.delivered) + (if IsCrc(ptype, payload, lo, hi) then [Packet(ptype, payload)] else [])
    ensures p.stats == StatsAfter(old(p.stats), IsCrc(ptype, payload, lo, hi))
  {
    ghost var m, s, earlier, a := p.View(), SeenOf(p), p.book.earlier, Attempt(ptype, payload, lo, hi);
    BalancedMeaning(p.stats, p.delivered, p.book);
    RunBytes(m, a, len);
    FeedAll(p, wire);
    AttemptIsSeen(m, a, earlier, s, SeenOf(p), p.View());
    GoodIsCrc(a);
  }

  /** lo and hi are the bytes of that CRC. */
  predicate IsCrc(ptype: bv8, payload: seq<bv8>, lo: bv8, hi: bv8) {
    var crc := Crc([ptype] + payload);
    lo == (crc & 0x00FF) as bv8 && hi == (crc >> 8) as bv8
  }

  lemma RunBytes(m: Machine, a: Attempt, len: bv8)
    requires m.phase == Hunting && |a.payload| == len as nat
    ensures Run(m, [0xAA, 0x55, len, a.ptype] + a.payload + [a.lo, a.hi]) == m.(log := m.log + [a])
  {
    FrameBytes(a, len);
    RunFrame(m, a);
  }

  function StatsAfter(stats: ParserStats, good: bool): ParserStats {
    if good then stats.(validPackets := stats.validPackets + 1)
    else stats.(crcFailures := stats.crcFailures + 1, syncLosses := stats.syncLosses + 1)
  }

  lemma AttemptIsSeen(m: Machine, a: Attempt, earlier: seq<Packet>, s: Seen, s': Seen, r: Machine)
    requires Shows(s, earlier, m) && Shows(s', earlier, r) && r.log == m.log + [a]
    ensures s' == if Good(a) then WithPacket(s, Packet(a.ptype, a.payload)) else WithFailure(s)
  {
    LogVerdict(m.log, a);
    Regroup(earlier, Delivered(m.log), [Packet(a.ptype, a.payload)]);
  }

  lemma JoinedBytes(w: bv16, lo: bv8, hi: bv8)
    ensures Join(hi, lo) == w <==> lo == (w & 0x00FF) as bv8 && hi == (w >> 8) as bv8
  {
    JoinParts(w);
    PartsOfJoin(hi, lo);
  }

  lemma GoodIsCrc(a: Attempt)
    ensures Good(a) <==> IsCrc(a.ptype, a.payload, a.lo, a.hi)
  {
    JoinedBytes(Crc([a.ptype] + a.payload), a.lo, a.hi);
  }

  /** What the caller sees of a whole input, told by its greedy reading. */
  predicate Parsed(s: seq<bv8>, delivered: seq<Packet>, stats: ParserStats) {
    var g := Greedy(s);
    && delivered == Delivered(g.log) && stats.validPackets == |delivered|
    && stats.crcFailures == stats.syncLosses == |g.log| - |delivered|
    && stats.discardedBytes + AllFalseStarts(Stretches(s)) == g.skipped
    && stats.partialPackets == if g.pending > 0 then 1 else 0
  }

  /** A whole input on a parser as its constructor leaves it, up to and with finish. */
  method ParseWhole(p: UartParser, data: array<bv8>)
    requires p.Valid() && p.View() == INITIAL && p.book.earlier == [] && data != p.payload
    modifies p, p.payload
    ensures Parsed(old(data[..]), p.delivered, p.stats)
  {
    ghost var s := data[..];
    FeedAll(p, data);
    FinishWhole(p, s);
  }

  method FinishWhole(p: UartParser, ghost s: seq<bv8>)
    requires p.Valid() && p.View() == Run(INITIAL, s) && Shows(SeenOf(p), [], p.View())
    modifies p
    ensures Parsed(s, p.delivered, p.stats)
  {
    ghost var r := p.View();
    BalancedMeaning(p.stats, p.delivered, p.book);
    p.Finish();
    BalancedMeaning(p.stats, p.delivered, p.book);
    RunIsParsed(s, r, p.delivered, p.stats);
  }

  lemma RunLog(s: seq<bv8>)
    ensures Run(INITIAL, s).log == Greedy(s).log
  {
    RunIsGreedy(INITIAL, s);
    assert [] + Greedy(s).log == Greedy(s).log;
  }

  lemma RunIsParsed(s: seq<bv8>, r: Machine, delivered: seq<Packet>, stats: ParserStats)
    requires r == Run(INITIAL, s) && delivered == Delivered(r.log) && stats.validPackets == |delivered|
    requires stats.crcFailures == stats.syncLosses == Failures(r.log)
    requires stats.discardedBytes == r.discarded && stats.partialPackets == Finish(r).partial
    ensures Parsed(s, delivered, stats)
  {
    RunLog(s);
    FinishReportsCutOff(INITIAL, s);
    DiscardedCountsSkipped(s);
    VerdictsPartitionTheLog(r.log);
  }
}
