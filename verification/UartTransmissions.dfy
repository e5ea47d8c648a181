/** Whole streams with damaged frames: which of the packets sent come through. */
module UartTransmissions {
  import opened Gf2Poly
  import opened UartMachine
  import opened UartErrors
  import opened CrcDistance

  predicate SameLengths(gs: seq<Segment>) {
    forall k :: 0 <= k < |gs| ==> |gs[k].sent.payload| == |gs[k].received.payload|
  }

  function PacketOf(a: Attempt): Packet {
    Packet(a.ptype, a.payload)
  }

  // ---- Exactly what is delivered ----

  /** The frame is intact, or its flipped bits form a multiple of the generator. */
  ghost predicate Passes(g: Segment) {
    IsMultiple(ErrorPoly(Sealed(g.sent), g.received))
  }

  /** What the receiver makes of the frames that pass, in order. */
  ghost function Through(gs: seq<Segment>): (ps: seq<Packet>)
    ensures |ps| <= |gs|
  {
    if gs == [] then []
    else
      var n := |gs| - 1;
      Through(gs[..n]) + (if Passes(gs[n]) then [PacketOf(gs[n].received)] else [])
  }

  lemma PassesIfGood(g: Segment)
    requires |g.sent.payload| == |g.received.payload|
    ensures Passes(g) <==> Good(g.received)
  {
    SealedIsGood(g.sent);
    GoodIffMultiple(Sealed(g.sent), g.received);
  }

  lemma {:induction false} VerdictsOfAttempts(gs: seq<Segment>)
    requires SameLengths(gs)
    ensures Delivered(Attempts(gs)) == Through(gs)
    ensures Failures(Attempts(gs)) == |gs| - |Through(gs)|
  {
    if gs != [] {
      var n := |gs| - 1;
      VerdictsOfAttempts(gs[..n]);
      PassesIfGood(gs[n]);
      assert Attempts(gs) == Attempts(gs[..n]) + [gs[n].received];
      LogVerdict(Attempts(gs[..n]), gs[n].received);
    }
  }

  /** Of a stream of noise and frames, each damaged in any way behind its length byte, exactly
      the frames that pass are delivered, in order; every other one is a CRC failure. */
  lemma DamagedStream(gs: seq<Segment>, tail: seq<bv8>)
    requires NoSof(tail) && CleanSegments(gs)
    ensures var r := Run(INITIAL, Transmit(gs) + tail);
      Delivered(r.log) == Through(gs) && Failures(r.log) == |gs| - |Through(gs)|
  {
    WholeLog(gs, tail);
    VerdictsOfAttempts(gs);
  }

  // ---- Light damage ----

  /** Damage no multiple of the generator can be. */
  ghost predicate AlwaysDetected(sent: Attempt, received: Attempt)
    requires |sent.payload| == |received.payload|
  {
    IsBurst(ErrorPoly(sent, received)) || Flips(sent, received) % 2 == 1 || Flips(sent, received) == 2
  }

  lemma DetectedIsRejected(m: Machine, sent: Packet, received: Attempt)
    requires Listening(m) && |sent.payload| == |received.payload| < 256
    requires AlwaysDetected(Sealed(sent), received)
    ensures Rejected(Run(m, Frame(received)), m)
  {
    if IsBurst(ErrorPoly(Sealed(sent), received)) {
      BurstDetected(m, sent, received);
    } else if Flips(Sealed(sent), received) == 2 {
      TwoFlipsDetected(m, sent, received);
    } else {
      OddFlipsDetected(m, sent, received);
    }
  }

  ghost predicate LightlyDamaged(gs: seq<Segment>)
    requires SameLengths(gs)
  {
    forall k :: 0 <= k < |gs| ==> Intact(gs[k]) || AlwaysDetected(Sealed(gs[k].sent), gs[k].received)
  }

  function IntactPackets(gs: seq<Segment>): (ps: seq<Packet>)
    ensures |ps| <= |gs|
  {
    if gs == [] then []
    else
      var n := |gs| - 1;
      IntactPackets(gs[..n]) + (if Intact(gs[n]) then [gs[n].sent] else [])
  }

  lemma PassesIfIntact(g: Segment)
    requires |g.sent.payload| == |g.received.payload| < 256
    requires Intact(g) || AlwaysDetected(Sealed(g.sent), g.received)
    ensures Passes(g) <==> Intact(g)
  {
    PassesIfGood(g);
    SealedIsGood(g.sent);
    if AlwaysDetected(Sealed(g.sent), g.received) {
      DetectedIsRejected(INITIAL, g.sent, g.received);
      UndetectedIffMultiple(INITIAL, g.sent, g.received);
    }
  }

  lemma {:induction false} ThroughIsIntact(gs: seq<Segment>)
    requires CleanSegments(gs) && LightlyDamaged(gs)
    ensures Through(gs) == IntactPackets(gs)
  {
    if gs != [] {
      var n := |gs| - 1;
      ThroughIsIntact(gs[..n]);
      PassesIfIntact(gs[n]);
    }
  }

  /** When every frame is intact or hit by a burst of at most 16 bits, by one, two or three
      flips, or by any odd number, the packets delivered are the intact ones, in order. */
  lemma OnlyIntactArrive(gs: seq<Segment>, tail: seq<bv8>)
    requires NoSof(tail) && CleanSegments(gs) && LightlyDamaged(gs)
    ensures var r := Run(INITIAL, Transmit(gs) + tail);
      Delivered(r.log) == IntactPackets(gs) && Failures(r.log) == |gs| - |IntactPackets(gs)|
  {
    DamagedStream(gs, tail);
    ThroughIsIntact(gs);
  }

  lemma {:induction false} AllIntactArrive(gs: seq<Segment>)
    requires CleanSegments(gs) && AllIntact(gs)
    ensures Through(gs) == Packets(gs)
  {
    IntactLog(gs);
    VerdictsOfAttempts(gs);
  }
}
