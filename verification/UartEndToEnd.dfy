/** The error theorems at the parser's own interface: what reaches the callback and the
    counters when a damaged frame is fed. */
module UartEndToEnd {
  import opened Gf2Poly
  import opened Crc16
  import opened UartMachine
  import opened UartErrors
  import opened UartTransmissions
  import opened UartStream

  /** What a caller sees of a parser. */
  datatype Seen = Seen(delivered: seq<Packet>, valid: nat, failures: nat, losses: nat)

  function SeenOf(p: UartParser): Seen
    reads p
  {
    Seen(p.delivered, p.stats.validPackets, p.stats.crcFailures, p.stats.syncLosses)
  }

  /** One more packet delivered and counted. */
  function WithPacket(s: Seen, packet: Packet): Seen {
    s.(delivered := s.delivered + [packet], valid := s.valid + 1)
  }

  /** One CRC failure and one loss of synchronisation more. */
  function WithFailure(s: Seen): Seen {
    s.(failures := s.failures + 1, losses := s.losses + 1)
  }

  /** What is seen of a parser that had delivered earlier when its log was empty. */
  ghost predicate Shows(s: Seen, earlier: seq<Packet>, m: Machine) {
    && s.delivered == earlier + Delivered(m.log)
    && s.valid == |Delivered(m.log)|
    && s.failures == s.losses == Failures(m.log)
  }

  /** A frame damaged in Type, Payload or CRC, fed to a parser that is hunting, reaches the callback
      exactly when the flipped bits form a multiple of the generator; bursts of up to 16 bits,
      two flips and odd numbers of flips never do. */
  method FeedDamagedFrame(p: UartParser, wire: array<bv8>, ghost sent: Packet, ghost received: Attempt)
    requires p.Valid() && (p.state == WaitSof1 || p.state == WaitSof2) && wire != p.payload
    requires |sent.payload| == |received.payload| < 256 && wire[..] == Frame(received)
    modifies p, p.payload
    ensures p.Valid()
    ensures SeenOf(p) ==
      if IsMultiple(ErrorPoly(Sealed(sent), received))
      then WithPacket(old(SeenOf(p)), Packet(received.ptype, received.payload))
      else WithFailure(old(SeenOf(p)))
    ensures AlwaysDetected(Sealed(sent), received) ==> SeenOf(p) == WithFailure(old(SeenOf(p)))
  {
    ghost var m, s, earlier := p.View(), SeenOf(p), p.book.earlier;
    BalancedMeaning(p.stats, p.delivered, p.book);
    FeedAll(p, wire);
    Verdict(m, sent, received, earlier, s, SeenOf(p));
  }

  method FeedAll(p: UartParser, wire: array<bv8>)
    requires p.Valid() && wire != p.payload
    modifies p, p.payload
    ensures p.Valid() && p.View() == Run(old(p.View()), old(wire[..]))
    ensures Shows(SeenOf(p), old(p.book.earlier), p.View())
  {
    assert wire[..wire.Length] == wire[..];
    p.FeedChunk(wire, wire.Length);
    BalancedMeaning(p.stats, p.delivered, p.book);
  }

  lemma Verdict(m: Machine, sent: Packet, received: Attempt, earlier: seq<Packet>, s: Seen, s': Seen)
    requires Listening(m) && |sent.payload| == |received.payload| < 256
    requires Shows(s, earlier, m) && Shows(s', earlier, Run(m, Frame(received)))
    ensures var e := ErrorPoly(Sealed(sent), received);
      && s' == (if IsMultiple(e) then WithPacket(s, Packet(received.ptype, received.payload)) else WithFailure(s))
      && (AlwaysDetected(Sealed(sent), received) ==> s' == WithFailure(s))
  {
    var e, r := ErrorPoly(Sealed(sent), received), Run(m, Frame(received));
    UndetectedIffMultiple(m, sent, received);
    if IsMultiple(e) {
      AcceptedIsSeen(m, r, Packet(received.ptype, received.payload), earlier, s, s');
    } else {
      RejectedIsSeen(m, r, earlier, s, s');
    }
    if AlwaysDetected(Sealed(sent), received) {
      DetectedIsRejected(m, sent, received);
      RejectedIsSeen(m, r, earlier, s, s');
    }
  }

  lemma AcceptedIsSeen(m: Machine, r: Machine, packet: Packet, earlier: seq<Packet>, s: Seen, s': Seen)
    requires Accepted(r, m, packet) && Shows(s, earlier, m) && Shows(s', earlier, r)
    ensures s' == WithPacket(s, packet)
  {
    assert earlier + (Delivered(m.log) + [packet]) == earlier + Delivered(m.log) + [packet];
  }

  lemma RejectedIsSeen(m: Machine, r: Machine, earlier: seq<Packet>, s: Seen, s': Seen)
    requires Rejected(r, m) && Shows(s, earlier, m) && Shows(s', earlier, r)
    ensures s' == WithFailure(s)
  {}

  /** Noise without AA 55 and frames damaged in Type, Payload or CRC, fed to an idle parser: the
      callback gets what passes, and every other frame is one failure and one sync loss.  Of
      frames hit by light damage only, the intact ones pass. */
  method FeedDamagedStream(p: UartParser, wire: array<bv8>, ghost gs: seq<Segment>, ghost tail: seq<bv8>)
    requires p.Valid() && p.state == WaitSof1 && wire != p.payload
    requires CleanSegments(gs) && NoSof(tail) && wire[..] == Transmit(gs) + tail
    modifies p, p.payload
    ensures p.Valid()
    ensures SeenOf(p) == WithVerdicts(old(SeenOf(p)), Through(gs), |gs|)
    ensures LightlyDamaged(gs) ==> SeenOf(p) == WithVerdicts(old(SeenOf(p)), IntactPackets(gs), |gs|)
  {
    ghost var m, s, earlier := p.View(), SeenOf(p), p.book.earlier;
    BalancedMeaning(p.stats, p.delivered, p.book);
    FeedAll(p, wire);
    RunTransmission(m, gs, tail);
    AttemptsAreSeen(m, Run(m, Transmit(gs) + tail), gs, earlier, s, SeenOf(p));
    if LightlyDamaged(gs) {
      ThroughIsIntact(gs);
    }
  }

  /** After n frames of which ps were delivered. */
  function WithVerdicts(s: Seen, ps: seq<Packet>, n: nat): Seen
    requires |ps| <= n
  {
    var refused := n - |ps|;
    Seen(s.delivered + ps, s.valid + |ps|, s.failures + refused, s.losses + refused)
  }

  /** Noise without AA 55 between packets made by a correct sender, fed to an idle parser:
      the callback gets exactly those packets in order, and no failure is counted. */
  method FeedNoisyStream(p: UartParser, wire: array<bv8>, ghost gs: seq<Segment>, ghost tail: seq<bv8>)
    requires p.Valid() && p.state == WaitSof1 && wire != p.payload
    requires CleanSegments(gs) && AllIntact(gs) && NoSof(tail) && wire[..] == Transmit(gs) + tail
    modifies p, p.payload
    ensures p.Valid()
    ensures SeenOf(p) == old(SeenOf(p)).(
      delivered := old(p.delivered) + Packets(gs), valid := old(p.stats.validPackets) + |gs|)
  {
    FeedDamagedStream(p, wire, gs, tail);
    AllIntactArrive(gs);
  }

  lemma AttemptsAreSeen(m: Machine, r: Machine, gs: seq<Segment>, earlier: seq<Packet>, s: Seen, s': Seen)
    requires Shows(s, earlier, m) && Shows(s', earlier, r) && r.log == m.log + Attempts(gs) && SameLengths(gs)
    ensures s' == WithVerdicts(s, Through(gs), |gs|)
  {
    DeliveredConcat(m.log, Attempts(gs));
    VerdictsOfAttempts(gs);
    assert earlier + (Delivered(m.log) + Through(gs)) == earlier + Delivered(m.log) + Through(gs);
  }

  lemma DeliveredAppend(log: seq<Attempt>, a: Attempt, all: seq<Attempt>)
    requires all == log + [a]
    ensures Delivered(all) == Delivered(log) + Delivered([a])
    ensures Failures(all) == Failures(log) + Failures([a])
  {
    LogVerdict(log, a);
    LogVerdict([], a);
    assert [] + [a] == [a];
  }

  lemma Regroup<T>(a: seq<T>, b: seq<T>, c: seq<T>)
    ensures a + b + c == a + (b + c)
  {}

  lemma {:induction false} DeliveredConcat(log: seq<Attempt>, more: seq<Attempt>)
    ensures Delivered(log + more) == Delivered(log) + Delivered(more)
    ensures Failures(log + more) == Failures(log) + Failures(more)
    decreases |more|
  {
    if more == [] {
      assert log + more == log;
    } else {
      var front, a := more[..|more| - 1], more[|more| - 1];
      DeliveredConcat(log, front);
      DeliveredAppend(front, a, more);
      DeliveredAppend(log + front, a, log + more);
      Regroup(Delivered(log), Delivered(front), Delivered([a]));
    }
  }
}
