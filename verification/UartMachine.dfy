/** The UART protocol as an abstract machine over whole payloads, and the greedy
    whole-stream reading it amounts to.

    Wire format: SOF1(AA) SOF2(55) Length Type Payload[Length] CrcLo CrcHi.
    The CRC covers Type and Payload only.  The machine here keeps no running CRC, no
    buffer index and no in-flight flag; the class UartParser has those and is
    proved to follow this machine. */
module UartMachine {
  import opened Crc16

  const SOF1: bv8 := 0xAA
  const SOF2: bv8 := 0x55

  datatype Packet = Packet(ptype: bv8, payload: seq<bv8>)

  // ---- Frames on the wire ----

  function Join(hi: bv8, lo: bv8): bv16 {
    HighByte(hi) | Word(lo)
  }

  function LowPart(w: bv16): bv8 {
    (w & 0x00FF) as bv8
  }

  function HighPart(w: bv16): bv8 {
    (w >> 8) as bv8
  }

  lemma JoinParts(w: bv16)
    ensures Join(HighPart(w), LowPart(w)) == w
  {}

  lemma PartsOfJoin(hi: bv8, lo: bv8)
    ensures HighPart(Join(hi, lo)) == hi && LowPart(Join(hi, lo)) == lo
  {}

  /** The byte whose value is n. */
  function LengthByte(n: nat): (b: bv8)
    requires n < 256
    ensures b as nat == n
  {
    if n == 0 then 0 else Successor(LengthByte(n - 1))
  }

  function Successor(b: bv8): (c: bv8)
    requires b as nat < 255
    ensures c as nat == b as nat + 1
  {
    b + 1
  }

  /** A complete attempt as read off the wire, CRC field unjudged. */
  datatype Attempt = Attempt(ptype: bv8, payload: seq<bv8>, lo: bv8, hi: bv8)

  predicate Good(a: Attempt) {
    Join(a.hi, a.lo) == Crc([a.ptype] + a.payload)
  }

  /** The attempt a correct sender makes for a packet. */
  function Sealed(p: Packet): Attempt {
    var crc := Crc([p.ptype] + p.payload);
    Attempt(p.ptype, p.payload, LowPart(crc), HighPart(crc))
  }

  lemma SealedIsGood(p: Packet)
    ensures Good(Sealed(p))
  {
    JoinParts(Crc([p.ptype] + p.payload));
  }

  function AttemptBody(a: Attempt): seq<bv8> {
    [a.ptype] + a.payload + [a.lo, a.hi]
  }

  /** An attempt on the wire; the CRC goes out low byte first. */
  function Frame(a: Attempt): seq<bv8>
    requires |a.payload| < 256
  {
    [SOF1, SOF2] + ([LengthByte(|a.payload|)] + AttemptBody(a))
  }

  function MakePacket(p: Packet): seq<bv8>
    requires |p.payload| < 256
  {
    Frame(Sealed(p))
  }

  // ---- The machine ----

  /** The packets a log of attempts hands to the callback. */
  function Delivered(log: seq<Attempt>): seq<Packet> {
    if log == [] then []
    else
      var a := log[|log| - 1];
      Delivered(log[..|log| - 1]) + (if Good(a) then [Packet(a.ptype, a.payload)] else [])
  }

  function Failures(log: seq<Attempt>): nat {
    if log == [] then 0
    else Failures(log[..|log| - 1]) + (if Good(log[|log| - 1]) then 0 else 1)
  }

  function AttemptBytes(log: seq<Attempt>): nat {
    if log == [] then 0
    else AttemptBytes(log[..|log| - 1]) + 6 + |log[|log| - 1].payload|
  }

  datatype Phase =
    | Hunting
    | Sof1Seen
    | LengthNext
    | TypeNext(len: nat)
    | PayloadNext(len: nat, ptype: bv8, soFar: seq<bv8>)
    | CrcLoNext(ptype: bv8, payload: seq<bv8>)
    | CrcHiNext(ptype: bv8, payload: seq<bv8>, lo: bv8)

  /** Framing never depends on a CRC verdict, so the machine only logs complete attempts;
      packets and CRC failures are read off the log.  dropped counts start bytes abandoned
      on AA x, which the source does not count. */
  datatype Machine = Machine(
    phase: Phase,
    log: seq<Attempt>,
    discarded: nat,
    dropped: nat,
    partial: nat)

  const INITIAL := Machine(Hunting, [], 0, 0, 0)

  function AfterPayloadByte(len: nat, ptype: bv8, soFar: seq<bv8>): Phase {
    if |soFar| >= len then CrcLoNext(ptype, soFar) else PayloadNext(len, ptype, soFar)
  }

  function Step(m: Machine, b: bv8): Machine {
    match m.phase
    case Hunting =>
      if b == SOF1 then m.(phase := Sof1Seen) else m.(discarded := m.discarded + 1)
    case Sof1Seen =>
      if b == SOF2 then m.(phase := LengthNext)
      else if b == SOF1 then m.(discarded := m.discarded + 1)
      else m.(phase := Hunting, discarded := m.discarded + 1, dropped := m.dropped + 1)
    case LengthNext => m.(phase := TypeNext(b as nat))
    case TypeNext(len) => m.(phase := AfterPayloadByte(len, b, []))
    case PayloadNext(len, ptype, soFar) => m.(phase := AfterPayloadByte(len, ptype, soFar + [b]))
    case CrcLoNext(ptype, payload) => m.(phase := CrcHiNext(ptype, payload, b))
    case CrcHiNext(ptype, payload, lo) =>
      m.(phase := Hunting, log := m.log + [Attempt(ptype, payload, lo, b)])
  }

  function Run(m: Machine, s: seq<bv8>): Machine
    decreases |s|
  {
    if s == [] then m else Run(Step(m, s[0]), s[1..])
  }

  /** finish(): anything but idle hunting counts as a partial packet; then reset(). */
  function Finish(m: Machine): Machine {
    m.(phase := Hunting, partial := if m.phase.Hunting? then m.partial else m.partial + 1)
  }

  /** Bytes of the stream that belong to the attempt in progress. */
  function Pending(phase: Phase): nat {
    match phase
    case Hunting => 0
    case Sof1Seen => 1
    case LengthNext => 2
    case TypeNext(_) => 3
    case PayloadNext(_, _, soFar) => 4 + |soFar|
    case CrcLoNext(_, payload) => 4 + |payload|
    case CrcHiNext(_, payload, _) => 5 + |payload|
  }

  // ---- Splitting the input ----

  lemma {:induction false} RunConcat(m: Machine, a: seq<bv8>, b: seq<bv8>)
    ensures Run(m, a + b) == Run(Run(m, a), b)
    decreases |a|
  {
    if a == [] {
      assert a + b == b;
    } else {
      assert (a + b)[1..] == a[1..] + b;
      RunConcat(Step(m, a[0]), a[1..], b);
    }
  }

  lemma RunSplit(m: Machine, s: seq<bv8>, n: nat)
    requires n <= |s|
    ensures Run(m, s) == Run(Run(m, s[..n]), s[n..])
  {
    assert s == s[..n] + s[n..];
    RunConcat(m, s[..n], s[n..]);
  }

  lemma RunAppend(m: Machine, a: seq<bv8>, b: bv8)
    ensures Run(m, a + [b]) == Step(Run(m, a), b)
  {
    RunConcat(m, a, [b]);
    assert Run(Run(m, a), [b]) == Step(Run(m, a), b);
  }

  function Flatten(chunks: seq<seq<bv8>>): seq<bv8> {
    if chunks == [] then [] else chunks[0] + Flatten(chunks[1..])
  }

  function RunChunks(m: Machine, chunks: seq<seq<bv8>>): Machine
    decreases |chunks|
  {
    if chunks == [] then m else RunChunks(Run(m, chunks[0]), chunks[1..])
  }

  /** Chunk boundaries are invisible. */
  lemma {:induction false} ChunksDoNotMatter(m: Machine, chunks: seq<seq<bv8>>)
    ensures RunChunks(m, chunks) == Run(m, Flatten(chunks))
    decreases |chunks|
  {
    if chunks != [] {
      RunConcat(m, chunks[0], Flatten(chunks[1..]));
      ChunksDoNotMatter(Run(m, chunks[0]), chunks[1..]);
    }
  }

  // ---- Greedy reading of a whole stream ----

  predicate SofAt(s: seq<bv8>, i: nat) {
    i + 1 < |s| && s[i] == SOF1 && s[i + 1] == SOF2
  }

  ghost predicate NoSof(s: seq<bv8>) {
    forall i: nat :: !SofAt(s, i)
  }

  /** Index of the first adjacent AA 55, or |s| if there is none. */
  function FirstSof(s: seq<bv8>): (i: nat)
    ensures i <= |s|
    ensures i < |s| ==> SofAt(s, i)
    ensures forall j: nat :: j < i ==> !SofAt(s, j)
    ensures i == |s| ==> NoSof(s)
  {
    if |s| < 2 then |s|
    else if SofAt(s, 0) then 0
    else
      var i := FirstSof(s[1..]);
      assert forall j: nat :: 0 < j < i + 1 ==> (SofAt(s, j) <==> SofAt(s[1..], j - 1));
      assert forall j: nat :: 0 < j ==> (SofAt(s, j) ==> SofAt(s[1..], j - 1));
      i + 1
  }

  datatype Reading = Reading(
    log: seq<Attempt>,  // complete attempts, in order
    skipped: nat,       // bytes outside any attempt
    pending: nat)       // bytes of an attempt the stream cuts off

  /** The length byte of the attempt starting at the pair at i. */
  function LengthAt(s: seq<bv8>, i: nat): nat
    requires i + 2 < |s|
  {
    s[i + 2] as nat
  }

  /** The stream holds all of that attempt. */
  predicate Complete(s: seq<bv8>, i: nat) {
    i + 2 < |s| && i + 6 + LengthAt(s, i) <= |s|
  }

  function End(s: seq<bv8>, i: nat): (n: nat)
    requires Complete(s, i)
    ensures i + 6 <= n <= |s|
  {
    i + 6 + LengthAt(s, i)
  }

  function Whole(s: seq<bv8>, i: nat): Attempt
    requires Complete(s, i)
  {
    AttemptOf(LengthAt(s, i), s[i + 3..End(s, i)])
  }

  function Behind(s: seq<bv8>, i: nat): (t: seq<bv8>)
    requires Complete(s, i)
    ensures |t| < |s|
  {
    s[End(s, i)..]
  }

  /** Find the first AA 55, read the length, take the whole attempt whatever its CRC field
      says, and go on behind it; consumed bytes are never looked at again. */
  function Greedy(s: seq<bv8>): Reading
    decreases |s|
  {
    var i := FirstSof(s);
    if i == |s| then
      var pending := if s != [] && s[|s| - 1] == SOF1 then 1 else 0;
      Reading([], |s| - pending, pending)
    else if !Complete(s, i) then
      Reading([], i, |s| - i)
    else
      var rest := Greedy(Behind(s, i));
      Reading([Whole(s, i)] + rest.log, i + rest.skipped, rest.pending)
  }

  // ---- Hunting through noise ----

  /** From Hunting, bytes without an adjacent AA 55 only move the hunt along. */
  lemma {:induction false} RunNoise(m: Machine, s: seq<bv8>)
    requires m.phase == Hunting && NoSof(s)
    ensures var r := Run(m, s);
      && r.phase == (if s != [] && s[|s| - 1] == SOF1 then Sof1Seen else Hunting)
      && r == m.(phase := r.phase, discarded := r.discarded, dropped := r.dropped)
      && r.discarded + r.dropped + Pending(r.phase) == m.discarded + m.dropped + |s|
      && m.dropped <= r.dropped && r.dropped - m.dropped <= r.discarded - m.discarded
  {
    if s != [] {
      var t, b := s[..|s| - 1], s[|s| - 1];
      assert s == t + [b];
      assert forall i: nat :: SofAt(t, i) ==> SofAt(s, i);
      RunNoise(m, t);
      RunAppend(m, t, b);
      if t != [] {
        assert !SofAt(s, |t| - 1);
      }
    }
  }

  // ---- Inside an attempt ----

  /** The phase after the bytes s behind the length byte, while the attempt is incomplete. */
  function Progress(len: nat, s: seq<bv8>): Phase
    requires |s| < 3 + len
  {
    if |s| == 0 then TypeNext(len)
    else if |s| < 1 + len then PayloadNext(len, s[0], s[1..])
    else if |s| == 1 + len then CrcLoNext(s[0], s[1..])
    else CrcHiNext(s[0], s[1..1 + len], s[1 + len])
  }

  lemma {:induction false} RunProgress(m: Machine, len: nat, s: seq<bv8>)
    requires m.phase == TypeNext(len) && |s| < 3 + len
    ensures Run(m, s) == m.(phase := Progress(len, s))
    decreases |s|
  {
    if s != [] {
      var t, b := s[..|s| - 1], s[|s| - 1];
      assert s == t + [b];
      RunProgress(m, len, t);
      RunAppend(m, t, b);
      ProgressStep(m, len, t, b);
    }
  }

  lemma ProgressStep(m: Machine, len: nat, t: seq<bv8>, b: bv8)
    requires |t| < 2 + len
    ensures Step(m.(phase := Progress(len, t)), b) == m.(phase := Progress(len, t + [b]))
  {
    var s := t + [b];
    if |t| == 0 {
      assert s[1..] == [];
    } else {
      assert s[1..] == t[1..] + [b];
      if |t| == 1 + len {
        assert s[1..1 + len] == t[1..];
      }
    }
  }

  /** The attempt made of the bytes s behind the length byte. */
  function AttemptOf(len: nat, s: seq<bv8>): Attempt
    requires |s| == 3 + len
  {
    Attempt(s[0], s[1..1 + len], s[1 + len], s[2 + len])
  }

  lemma AttemptOfBody(a: Attempt)
    ensures AttemptOf(|a.payload|, AttemptBody(a)) == a
  {
    assert AttemptBody(a)[1..1 + |a.payload|] == a.payload;
  }

  lemma RunBody(m: Machine, len: nat, s: seq<bv8>)
    requires m.phase == TypeNext(len) && |s| == 3 + len
    ensures Run(m, s) == m.(phase := Hunting, log := m.log + [AttemptOf(len, s)])
  {
    var t, b := s[..2 + len], s[2 + len];
    assert s == t + [b];
    RunProgress(m, len, t);
    RunAppend(m, t, b);
    SliceOfSlice(s, 0, 2 + len, 1, 1 + len);
  }

  lemma SliceOfSlice(s: seq<bv8>, j: nat, n: nat, a: nat, b: nat)
    requires j <= n <= |s| && a <= b <= n - j
    ensures s[j..n][a..b] == s[j + a..j + b]
  {
    var t, u := s[j..n][a..b], s[j + a..j + b];
    assert forall k :: 0 <= k < b - a ==> t[k] == u[k];
  }

  /** From SOF2 on, fewer bytes than the attempt needs leave it pending. */
  lemma RunIncomplete(m: Machine, s: seq<bv8>, len: nat)
    requires m.phase == LengthNext
    requires s == [] || (s[0] as nat == len && |s| < 4 + len)
    ensures var r := Run(m, s);
      r == m.(phase := r.phase) && Pending(r.phase) == 2 + |s|
  {
    if s != [] {
      RunProgress(m.(phase := TypeNext(len)), len, s[1..]);
      PendingOfProgress(len, s[1..]);
    }
  }

  lemma PendingOfProgress(len: nat, s: seq<bv8>)
    requires |s| < 3 + len
    ensures Pending(Progress(len, s)) == 3 + |s|
  {}

  /** A complete attempt is logged and leads back to hunting, whatever its bytes are. */
  lemma RunAttempt(m: Machine, s: seq<bv8>, len: nat)
    requires m.phase == LengthNext
    requires |s| == 4 + len && s[0] as nat == len
    ensures Run(m, s) == m.(phase := Hunting, log := m.log + [AttemptOf(len, s[1..])])
  {
    RunBody(m.(phase := TypeNext(len)), len, s[1..]);
  }

  // ---- The machine is the greedy reading ----

  /** r is m after reading what g describes. */
  ghost predicate Extends(r: Machine, m: Machine, g: Reading) {
    && r.log == m.log + g.log
    && r.discarded + r.dropped == m.discarded + m.dropped + g.skipped
    && Pending(r.phase) == g.pending
    && r.partial == m.partial
  }

  lemma {:induction false} RunToSof(m: Machine, s: seq<bv8>, i: nat)
    requires m.phase == Hunting && SofAt(s, i) && forall j: nat :: j < i ==> !SofAt(s, j)
    ensures var r := Run(m, s[..i + 2]);
      && r == m.(phase := LengthNext, discarded := r.discarded, dropped := r.dropped)
      && r.discarded + r.dropped == m.discarded + m.dropped + i
  {
    var noise := s[..i + 1];
    assert forall j: nat :: SofAt(noise, j) ==> SofAt(s, j) && j < i;
    RunNoise(m, noise);
    RunAppend(m, noise, SOF2);
    assert s[..i + 2] == noise + [SOF2];
  }

  /** Feeding a stream is the greedy reading of it. */
  lemma {:induction false} RunIsGreedy(m: Machine, s: seq<bv8>)
    requires m.phase == Hunting
    ensures Extends(Run(m, s), m, Greedy(s))
    decreases |s|
  {
    var i := FirstSof(s);
    if i == |s| {
      RunNoise(m, s);
    } else if !Complete(s, i) {
      RunCutOff(m, s, i);
    } else {
      var n := End(s, i);
      RunOneAttempt(m, s, i);
      RunSplit(m, s, n);
      RunIsGreedy(Run(m, s[..n]), Behind(s, i));
      ExtendsBehind(m, Run(m, s[..n]), Run(m, s), Whole(s, i), i, Greedy(Behind(s, i)));
    }
  }

  lemma ExtendsBehind(m: Machine, r1: Machine, r: Machine, a: Attempt, i: nat, rest: Reading)
    requires r1 == m.(discarded := r1.discarded, dropped := r1.dropped, log := m.log + [a])
    requires r1.discarded + r1.dropped == m.discarded + m.dropped + i
    requires Extends(r, r1, rest)
    ensures Extends(r, m, Reading([a] + rest.log, i + rest.skipped, rest.pending))
  {}

  lemma RunCutOff(m: Machine, s: seq<bv8>, i: nat)
    requires m.phase == Hunting && i == FirstSof(s) < |s| && !Complete(s, i)
    ensures Extends(Run(m, s), m, Reading([], i, |s| - i))
  {
    RunToSof(m, s, i);
    RunSplit(m, s, i + 2);
    RunIncomplete(Run(m, s[..i + 2]), s[i + 2..], if i + 2 < |s| then LengthAt(s, i) else 0);
  }

  lemma RunOneAttempt(m: Machine, s: seq<bv8>, i: nat)
    requires m.phase == Hunting && i == FirstSof(s) < |s| && Complete(s, i)
    ensures var r := Run(m, s[..End(s, i)]);
      && r == m.(discarded := r.discarded, dropped := r.dropped, log := m.log + [Whole(s, i)])
      && r.discarded + r.dropped == m.discarded + m.dropped + i
  {
    var n := End(s, i);
    var t := s[i + 2..n];
    RunToSof(m, s, i);
    SplitAttempt(m, s, i + 2, n);
    RunAttempt(Run(m, s[..i + 2]), t, LengthAt(s, i));
    assert t[1..] == s[i + 3..n];
  }

  lemma SplitAttempt(m: Machine, s: seq<bv8>, j: nat, n: nat)
    requires j <= n <= |s|
    ensures Run(m, s[..n]) == Run(Run(m, s[..j]), s[j..n])
  {
    assert s[..n][..j] == s[..j] && s[..n][j..] == s[j..n];
    RunSplit(m, s[..n], j);
  }

  // ---- What discarded_bytes leaves out ----

  /** An AA that turns out to start nothing: the byte behind it is neither AA nor 55. */
  predicate FalseStartAt(s: seq<bv8>, j: nat) {
    j + 1 < |s| && s[j] == SOF1 && s[j + 1] != SOF1 && s[j + 1] != SOF2
  }

  ghost predicate HasFalseStart(s: seq<bv8>) {
    exists j: nat :: FalseStartAt(s, j)
  }

  function FalseStarts(s: seq<bv8>): nat {
    if |s| < 2 then 0 else FalseStarts(s[..|s| - 1]) + (if FalseStartAt(s, |s| - 2) then 1 else 0)
  }

  lemma {:induction false} FalseStartsCount(s: seq<bv8>)
    ensures FalseStarts(s) == 0 <==> !HasFalseStart(s)
  {
    if |s| >= 2 {
      var t := s[..|s| - 1];
      FalseStartsCount(t);
      assert forall j: nat :: FalseStartAt(t, j) ==> FalseStartAt(s, j);
      assert forall j: nat :: FalseStartAt(s, j) ==> FalseStartAt(t, j) || j == |s| - 2;
    }
  }

  /** While hunting, each false start is one byte that discarded_bytes does not count. */
  lemma {:induction false} NoiseDrops(m: Machine, s: seq<bv8>)
    requires m.phase == Hunting && NoSof(s)
    ensures Run(m, s).dropped == m.dropped + FalseStarts(s)
  {
    if s != [] {
      var t, b := s[..|s| - 1], s[|s| - 1];
      assert s == t + [b];
      assert forall i: nat :: SofAt(t, i) ==> SofAt(s, i);
      NoiseDrops(m, t);
      RunNoise(m, t);
      RunAppend(m, t, b);
      if t != [] {
        assert !SofAt(s, |t| - 1);
      }
    }
  }

  /** The stretches of a stream that belong to no attempt. */
  function Stretches(s: seq<bv8>): seq<seq<bv8>>
    decreases |s|
  {
    var i := FirstSof(s);
    if i == |s| || !Complete(s, i) then [s[..i]] else [s[..i]] + Stretches(Behind(s, i))
  }

  function AllFalseStarts(stretches: seq<seq<bv8>>): nat {
    if stretches == [] then 0 else FalseStarts(stretches[0]) + AllFalseStarts(stretches[1..])
  }

  lemma AllFalseStartsCons(first: seq<bv8>, rest: seq<seq<bv8>>)
    ensures AllFalseStarts([first] + rest) == FalseStarts(first) + AllFalseStarts(rest)
  {
    assert ([first] + rest)[1..] == rest;
  }

  lemma {:induction false} AllFalseStartsCount(stretches: seq<seq<bv8>>)
    ensures AllFalseStarts(stretches) == 0 <==> forall k :: 0 <= k < |stretches| ==> !HasFalseStart(stretches[k])
  {
    if stretches != [] {
      FalseStartsCount(stretches[0]);
      AllFalseStartsCount(stretches[1..]);
      assert forall k :: 0 < k < |stretches| ==> stretches[k] == stretches[1..][k - 1];
    }
  }

  /** The bytes dropped on the way to the first AA 55, and behind it none. */
  lemma StretchDrops(m: Machine, s: seq<bv8>, i: nat)
    requires m.phase == Hunting && i == FirstSof(s) < |s|
    ensures Run(m, s[..i + 2]).dropped == m.dropped + FalseStarts(s[..i])
  {
    var noise := s[..i];
    assert forall j: nat :: SofAt(noise, j) ==> SofAt(s, j) && j < i;
    NoiseDrops(m, noise);
    RunNoise(m, noise);
    assert s[..i + 2] == noise + [SOF1, SOF2];
    RunConcat(m, noise, [SOF1, SOF2]);
    RunSof(Run(m, noise));
  }

  lemma LastStretch(s: seq<bv8>, i: nat)
    requires i == FirstSof(s) && (i == |s| || !Complete(s, i))
    ensures AllFalseStarts(Stretches(s)) == FalseStarts(s[..i])
  {
    AllFalseStartsCons(s[..i], []);
    assert [s[..i]] + [] == [s[..i]];
  }

  lemma NextStretch(s: seq<bv8>, i: nat)
    requires i == FirstSof(s) < |s| && Complete(s, i)
    ensures AllFalseStarts(Stretches(s)) == FalseStarts(s[..i]) + AllFalseStarts(Stretches(Behind(s, i)))
  {
    AllFalseStartsCons(s[..i], Stretches(Behind(s, i)));
  }

  lemma {:induction false} RunDrops(m: Machine, s: seq<bv8>)
    requires m.phase == Hunting
    ensures Run(m, s).dropped == m.dropped + AllFalseStarts(Stretches(s))
    decreases |s|
  {
    var i := FirstSof(s);
    if i == |s| {
      assert s[..i] == s;
      NoiseDrops(m, s);
      LastStretch(s, i);
    } else if !Complete(s, i) {
      CutOffDrops(m, s, i);
      LastStretch(s, i);
    } else {
      var n := End(s, i);
      AttemptDrops(m, s, i);
      RunSplit(m, s, n);
      RunDrops(Run(m, s[..n]), Behind(s, i));
      NextStretch(s, i);
    }
  }

  lemma CutOffDrops(m: Machine, s: seq<bv8>, i: nat)
    requires m.phase == Hunting && i == FirstSof(s) < |s| && !Complete(s, i)
    ensures Run(m, s).dropped == m.dropped + FalseStarts(s[..i])
  {
    RunToSof(m, s, i);
    StretchDrops(m, s, i);
    RunSplit(m, s, i + 2);
    RunIncomplete(Run(m, s[..i + 2]), s[i + 2..], if i + 2 < |s| then LengthAt(s, i) else 0);
  }

  lemma AttemptDrops(m: Machine, s: seq<bv8>, i: nat)
    requires m.phase == Hunting && i == FirstSof(s) < |s| && Complete(s, i)
    ensures var r := Run(m, s[..End(s, i)]); r.phase == Hunting && r.dropped == m.dropped + FalseStarts(s[..i])
  {
    var n := End(s, i);
    RunToSof(m, s, i);
    StretchDrops(m, s, i);
    SplitAttempt(m, s, i + 2, n);
    RunAttempt(Run(m, s[..i + 2]), s[i + 2..n], LengthAt(s, i));
  }

  /** discarded_bytes is the number of bytes skipped less one for each false start in a skipped
      stretch; so it is that number exactly when no skipped stretch holds a false start. */
  lemma DiscardedCountsSkipped(s: seq<bv8>)
    ensures var r, g := Run(INITIAL, s), Greedy(s);
      && r.discarded + AllFalseStarts(Stretches(s)) == g.skipped
      && (r.discarded == g.skipped <==> forall k :: 0 <= k < |Stretches(s)| ==> !HasFalseStart(Stretches(s)[k]))
  {
    RunIsGreedy(INITIAL, s);
    RunDrops(INITIAL, s);
    AllFalseStartsCount(Stretches(s));
  }

  /** The shortest stream on which it is wrong: two bytes skipped, one counted. */
  lemma DiscardedMissesAFalseStart()
    ensures var s: seq<bv8> := [0xAA, 0x00];
      Greedy(s).skipped == 2 && Run(INITIAL, s).discarded == 1 && Run(INITIAL, s).dropped == 1
  {
    var s: seq<bv8> := [0xAA, 0x00];
    assert s[1..] == [0x00] && s[1..][1..] == [];
    var m1 := Step(INITIAL, 0xAA);
    assert Run(INITIAL, s) == Run(m1, s[1..]);
    assert Run(m1, s[1..]) == Run(Step(m1, 0x00), []);
  }

  /** Every byte fed is accounted for: discarded, silently dropped as a false SOF1, part of a
      finished attempt, or pending; so the bytes truly skipped lie between discarded_bytes
      and twice discarded_bytes. */
  lemma BytesConserved(s: seq<bv8>)
    ensures var r := Run(INITIAL, s);
      && |s| == r.discarded + r.dropped + AttemptBytes(r.log) + Pending(r.phase)
      && r.discarded <= r.discarded + r.dropped <= 2 * r.discarded
      && |Delivered(r.log)| + Failures(r.log) == |r.log|
  {
    RunBalance(INITIAL, s);
    VerdictsPartitionTheLog(Run(INITIAL, s).log);
  }

  lemma {:induction false} VerdictsPartitionTheLog(log: seq<Attempt>)
    ensures |Delivered(log)| + Failures(log) == |log|
  {
    if log != [] {
      VerdictsPartitionTheLog(log[..|log| - 1]);
    }
  }

  lemma {:induction false} RunBalance(m: Machine, s: seq<bv8>)
    ensures var r := Run(m, s);
      && r.discarded + r.dropped + AttemptBytes(r.log) + Pending(r.phase)
           == m.discarded + m.dropped + AttemptBytes(m.log) + Pending(m.phase) + |s|
      && r.discarded - r.dropped >= m.discarded - m.dropped
    decreases |s|
  {
    if s != [] {
      StepBalance(m, s[0]);
      RunBalance(Step(m, s[0]), s[1..]);
    }
  }

  lemma StepBalance(m: Machine, b: bv8)
    ensures var r := Step(m, b);
      && r.discarded + r.dropped + AttemptBytes(r.log) + Pending(r.phase)
           == m.discarded + m.dropped + AttemptBytes(m.log) + Pending(m.phase) + 1
      && r.discarded - r.dropped >= m.discarded - m.dropped
  {
    if m.phase.CrcHiNext? {
      var log := Step(m, b).log;
      assert log[..|log| - 1] == m.log;
    }
  }

  /** finish() reports a partial packet exactly when the greedy reading leaves a cut-off attempt. */
  lemma FinishReportsCutOff(m: Machine, s: seq<bv8>)
    requires m.phase == Hunting
    ensures var r := Finish(Run(m, s));
      && r.phase == Hunting
      && r.partial == m.partial + (if Greedy(s).pending > 0 then 1 else 0)
  {
    RunIsGreedy(m, s);
  }

  // ---- Packets survive any surrounding noise ----

  lemma RunSof(m: Machine)
    requires m.phase in {Hunting, Sof1Seen}
    ensures Run(m, [SOF1, SOF2]) ==
      m.(phase := LengthNext, discarded := if m.phase == Hunting then m.discarded else m.discarded + 1)
  {
    assert [SOF1, SOF2][1..] == [SOF2];
    assert Run(m, [SOF1, SOF2]) == Run(Step(m, SOF1), [SOF2]);
    assert Run(Step(m, SOF1), [SOF2]) == Step(Step(m, SOF1), SOF2);
  }

  lemma RunFrame(m: Machine, a: Attempt)
    requires m.phase in {Hunting, Sof1Seen} && |a.payload| < 256
    ensures Run(m, Frame(a)) ==
      m.(phase := Hunting,
         log := m.log + [a],
         discarded := if m.phase == Hunting then m.discarded else m.discarded + 1)
  {
    var start, s := [SOF1, SOF2], [LengthByte(|a.payload|)] + AttemptBody(a);
    RunConcat(m, start, s);
    RunSof(m);
    RunAttempt(Run(m, start), s, |a.payload|);
    assert s[1..] == AttemptBody(a);
    AttemptOfBody(a);
  }

  lemma LogVerdict(log: seq<Attempt>, a: Attempt)
    ensures Delivered(log + [a]) == Delivered(log) + (if Good(a) then [Packet(a.ptype, a.payload)] else [])
    ensures Failures(log + [a]) == Failures(log) + (if Good(a) then 0 else 1)
  {
    assert (log + [a])[..|log|] == log;
  }

  lemma LogSealed(log: seq<Attempt>, p: Packet)
    ensures Delivered(log + [Sealed(p)]) == Delivered(log) + [p]
    ensures Failures(log + [Sealed(p)]) == Failures(log)
  {
    LogVerdict(log, Sealed(p));
    SealedIsGood(p);
  }

  /** Noise, then the frame of a packet as it arrives: in its place the same number of bytes,
      damaged or not, behind an intact start and length. */
  datatype Segment = Segment(noise: seq<bv8>, sent: Packet, received: Attempt)

  ghost predicate CleanSegments(gs: seq<Segment>) {
    forall k :: 0 <= k < |gs| ==> NoSof(gs[k].noise) && |gs[k].sent.payload| == |gs[k].received.payload| < 256
  }

  predicate Intact(g: Segment) {
    g.received == Sealed(g.sent)
  }

  predicate AllIntact(gs: seq<Segment>) {
    forall k :: 0 <= k < |gs| ==> Intact(gs[k])
  }

  function Transmit(gs: seq<Segment>): seq<bv8>
    requires forall k :: 0 <= k < |gs| ==> |gs[k].received.payload| < 256
  {
    if gs == [] then [] else gs[0].noise + Frame(gs[0].received) + Transmit(gs[1..])
  }

  function Packets(gs: seq<Segment>): seq<Packet> {
    seq(|gs|, k requires 0 <= k < |gs| => gs[k].sent)
  }

  function Attempts(gs: seq<Segment>): seq<Attempt> {
    seq(|gs|, k requires 0 <= k < |gs| => gs[k].received)
  }

  lemma RunSegment(m: Machine, gs: seq<Segment>, tail: seq<bv8>)
    requires m.phase == Hunting && gs != [] && CleanSegments(gs)
    ensures var r := Run(m, gs[0].noise + Frame(gs[0].received));
      && r.phase == Hunting
      && r.log == m.log + [gs[0].received]
      && Run(m, Transmit(gs) + tail) == Run(r, Transmit(gs[1..]) + tail)
  {
    var noise, frame := gs[0].noise, Frame(gs[0].received);
    RunConcat(m, noise, frame);
    RunNoise(m, noise);
    RunFrame(Run(m, noise), gs[0].received);
    assert Transmit(gs) + tail == (noise + frame) + (Transmit(gs[1..]) + tail);
    RunConcat(m, noise + frame, Transmit(gs[1..]) + tail);
  }

  /** Every frame of the stream is one attempt, and nothing else is. */
  lemma {:induction false} RunTransmission(m: Machine, gs: seq<Segment>, tail: seq<bv8>)
    requires m.phase == Hunting && NoSof(tail) && CleanSegments(gs)
    ensures var r := Run(m, Transmit(gs) + tail);
      && r.log == m.log + Attempts(gs)
      && Pending(r.phase) <= 1
    decreases |gs|
  {
    if gs == [] {
      assert Transmit(gs) + tail == tail;
      RunNoise(m, tail);
    } else {
      RunSegment(m, gs, tail);
      RunTransmission(Run(m, gs[0].noise + Frame(gs[0].received)), gs[1..], tail);
    }
  }

  lemma {:induction false} SealedLogDelivers(log: seq<Attempt>, ps: seq<Packet>)
    requires |log| == |ps| && forall i :: 0 <= i < |ps| ==> log[i] == Sealed(ps[i])
    ensures Delivered(log) == ps && Failures(log) == 0
    decreases |ps|
  {
    if ps != [] {
      var n := |ps| - 1;
      SealedLogDelivers(log[..n], ps[..n]);
      SealedIsGood(ps[n]);
      assert log[n] == Sealed(ps[n]);
    }
  }

  /** Any alternation of noise without an adjacent AA 55 (it may end in AA) and packets
      delivers exactly those packets, in order, without a CRC failure. */
  lemma NoisyStreamRoundTrip(gs: seq<Segment>, tail: seq<bv8>)
    requires NoSof(tail) && CleanSegments(gs) && AllIntact(gs)
    ensures var r := Run(INITIAL, Transmit(gs) + tail);
      && Delivered(r.log) == Packets(gs)
      && Failures(r.log) == 0
      && Pending(r.phase) <= 1
  {
    WholeLog(gs, tail);
    IntactLog(gs);
  }

  lemma WholeLog(gs: seq<Segment>, tail: seq<bv8>)
    requires NoSof(tail) && CleanSegments(gs)
    ensures var r := Run(INITIAL, Transmit(gs) + tail); r.log == Attempts(gs) && Pending(r.phase) <= 1
  {
    RunTransmission(INITIAL, gs, tail);
    assert [] + Attempts(gs) == Attempts(gs);
  }

  lemma IntactLog(gs: seq<Segment>)
    requires AllIntact(gs)
    ensures Delivered(Attempts(gs)) == Packets(gs) && Failures(Attempts(gs)) == 0
  {
    forall i | 0 <= i < |gs|
      ensures Attempts(gs)[i] == Sealed(Packets(gs)[i])
    {
      assert Intact(gs[i]);
    }
    SealedLogDelivers(Attempts(gs), Packets(gs));
  }

  // ---- Bounded resynchronisation ----

  /** The phases a run can reach: a length fits a byte, and the payload is never overfull. */
  predicate Reachable(phase: Phase) {
    match phase
    case TypeNext(len) => len < 256
    case PayloadNext(len, _, soFar) => |soFar| < len < 256
    case CrcLoNext(_, payload) => |payload| < 256
    case CrcHiNext(_, payload, _) => |payload| < 256
    case _ => true
  }

  lemma {:induction false} RunStaysReachable(m: Machine, s: seq<bv8>)
    requires Reachable(m.phase)
    ensures Reachable(Run(m, s).phase)
    decreases |s|
  {
    if s != [] {
      RunStaysReachable(Step(m, s[0]), s[1..]);
    }
  }

  /** At most this many AA-free bytes until the machine hunts again. */
  function Rank(phase: Phase): nat
    requires Reachable(phase)
  {
    match phase
    case Hunting => 0
    case Sof1Seen => 260
    case LengthNext => 259
    case TypeNext(len) => 3 + len
    case PayloadNext(len, _, soFar) => 2 + len - |soFar|
    case CrcLoNext(_, _) => 2
    case CrcHiNext(_, _, _) => 1
  }

  lemma {:induction false} RankBoundsTheAttempt(m: Machine, s: seq<bv8>)
    requires Reachable(m.phase) && SOF1 !in s && |s| >= Rank(m.phase)
    ensures Run(m, s).phase == Hunting
    decreases |s|
  {
    if s != [] {
      assert s[0] in s;
      RankBoundsTheAttempt(Step(m, s[0]), s[1..]);
    }
  }

  /** From every reachable state, 260 or more AA-free bytes resynchronise the parser: it
      hunts, and the next well-formed packet is delivered exactly. */
  lemma Resynchronises(before: seq<bv8>, gap: seq<bv8>, p: Packet)
    requires |gap| >= 260 && SOF1 !in gap && |p.payload| < 256
    ensures var m := Run(INITIAL, before + gap);
      var r := Run(INITIAL, before + gap + MakePacket(p));
      && m.phase == Hunting && r.phase == Hunting
      && Delivered(r.log) == Delivered(m.log) + [p]
      && Failures(r.log) == Failures(m.log)
      && r.discarded == m.discarded
  {
    RunStaysReachable(INITIAL, before);
    RunConcat(INITIAL, before, gap);
    RankBoundsTheAttempt(Run(INITIAL, before), gap);
    RunConcat(INITIAL, before + gap, MakePacket(p));
    RunFrame(Run(INITIAL, before + gap), Sealed(p));
    LogSealed(Run(INITIAL, before + gap).log, p);
  }

  /** 260 is the best bound: an AA already seen, then 55 FF and 257 zero bytes (259 AA-free
      bytes) still leave an attempt in flight. */
  lemma ResyncBoundIsTight() returns (gap: seq<bv8>)
    ensures |gap| == 259 && SOF1 !in gap
    ensures Run(INITIAL, [SOF1] + gap).phase != Hunting
  {
    var zeros := seq(257, i => 0 as bv8);
    var inside := [0xFF as bv8] + zeros;
    gap := [SOF2] + inside;
    var start := [SOF1, SOF2];
    assert [SOF1] + gap == start + inside;
    RunConcat(INITIAL, start, inside);
    RunSof(INITIAL);
    RunIncomplete(Run(INITIAL, start), inside, 255);
  }
}
