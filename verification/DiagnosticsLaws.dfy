/** What the monitor's counts mean over whole histories. */
module DiagnosticsLaws {
  import opened Bits
  import opened Options
  import opened SignalCodec
  import opened FrameHistory
  import opened DiagnosticsEngine

  // ---- Timeouts ----

  /** The time between two frames of an ID, before the first or after the last: when the frame
      before came, and the checks made. */
  datatype Segment = Segment(since: Option<int>, checks: seq<int>)

  function Segments(h: seq<Event>, id: nat): (s: seq<Segment>)
    ensures |s| == |Receptions(h, id)| + 1
    ensures s[|s| - 1].since == LastSeen(h, id)
  {
    if h == [] then [Segment(None, [])]
    else
      var before, e := Segments(h[..|h| - 1], id), h[|h| - 1];
      if e.Check? then AddCheck(before, e.now)
      else if e.Known? && e.r.id == id then before + [Segment(Some(e.r.timestampMs), [])]
      else before
  }

  function AddCheck(s: seq<Segment>, now: int): seq<Segment>
    requires s != []
  {
    s[|s| - 1 := WithCheck(s[|s| - 1], now)]
  }

  function WithCheck(s: Segment, now: int): Segment {
    s.(checks := s.checks + [now])
  }

  predicate LateAt(s: Segment, periodMs: int, k: nat)
    requires k < |s.checks|
  {
    Overdue(s.since, periodMs, s.checks[k])
  }

  /** Some check of the segment finds the ID overdue. */
  predicate Silent(s: Segment, periodMs: int) {
    exists k: nat :: k < |s.checks| && LateAt(s, periodMs, k)
  }

  function SilentCount(s: seq<Segment>, periodMs: int): (n: nat)
    ensures n <= |s|
  {
    if s == [] then 0
    else SilentCount(s[..|s| - 1], periodMs) + (if Silent(s[|s| - 1], periodMs) then 1 else 0)
  }

  /** A check of the segment finds the ID in time between two that find it overdue. */
  predicate Relapses(s: Segment, periodMs: int) {
    exists i: nat, j: nat, k: nat ::
      i < j < k < |s.checks| && LateAt(s, periodMs, i) && !LateAt(s, periodMs, j) && LateAt(s, periodMs, k)
  }

  predicate NoneRelapses(s: seq<Segment>, periodMs: int) {
    forall i :: 0 <= i < |s| ==> !Relapses(s[i], periodMs)
  }

  predicate Ordered(s: Segment) {
    forall i, j :: 0 <= i < j < |s.checks| ==> s.checks[i] <= s.checks[j]
  }

  lemma OrderedNeverRelapses(s: Segment, periodMs: int)
    requires Ordered(s)
    ensures !Relapses(s, periodMs)
  {}

  // ---- Rising edges of a segment ----

  function Front(s: Segment): Segment
    requires s.checks != []
  {
    s.(checks := s.checks[..|s.checks| - 1])
  }

  /** The last check of the segment finds the ID overdue. */
  predicate Raised(s: Segment, periodMs: int) {
    s.checks != [] && LateAt(s, periodMs, |s.checks| - 1)
  }

  function Edges(s: Segment, periodMs: int): nat
    decreases |s.checks|
  {
    if s.checks == [] then 0
    else Edges(Front(s), periodMs) + (if Raised(s, periodMs) && !Raised(Front(s), periodMs) then 1 else 0)
  }

  function EdgeSum(s: seq<Segment>, periodMs: int): nat {
    if s == [] then 0 else EdgeSum(s[..|s| - 1], periodMs) + Edges(s[|s| - 1], periodMs)
  }

  lemma LateInFront(s: Segment, periodMs: int, k: nat)
    requires k + 1 < |s.checks|
    ensures LateAt(Front(s), periodMs, k) <==> LateAt(s, periodMs, k)
  {}

  lemma SilentByFront(s: Segment, periodMs: int)
    requires s.checks != []
    ensures Silent(s, periodMs) <==> Silent(Front(s), periodMs) || Raised(s, periodMs)
  {
    var n := |s.checks| - 1;
    forall k: nat | k < n
      ensures LateAt(Front(s), periodMs, k) <==> LateAt(s, periodMs, k)
    {
      LateInFront(s, periodMs, k);
    }
  }

  lemma RelapsesByFront(s: Segment, periodMs: int)
    requires s.checks != []
    ensures Relapses(s, periodMs) <==>
      || Relapses(Front(s), periodMs)
      || (Raised(s, periodMs) && !Raised(Front(s), periodMs) && Silent(Front(s), periodMs))
  {
    var f, n := Front(s), |s.checks| - 1;
    forall k: nat | k < n
      ensures LateAt(f, periodMs, k) <==> LateAt(s, periodMs, k)
    {
      LateInFront(s, periodMs, k);
    }
    if Relapses(s, periodMs) && !Relapses(f, periodMs) {
      var i: nat, j: nat, k: nat :|
        i < j < k < |s.checks| && LateAt(s, periodMs, i) && !LateAt(s, periodMs, j) && LateAt(s, periodMs, k);
      assert LateAt(f, periodMs, i) && !LateAt(f, periodMs, j);
      assert k == n;
    }
    if Raised(s, periodMs) && !Raised(f, periodMs) && Silent(f, periodMs) {
      var i: nat :| i < |f.checks| && LateAt(f, periodMs, i);
      assert LateAt(s, periodMs, i) && !LateAt(s, periodMs, n - 1) && LateAt(s, periodMs, n);
    }
  }

  /** One edge at least if any check is late; two at least if the segment relapses. */
  lemma {:induction false} EdgesCount(s: Segment, periodMs: int)
    ensures Edges(s, periodMs) >= 1 <==> Silent(s, periodMs)
    ensures Edges(s, periodMs) >= 2 <==> Relapses(s, periodMs)
    decreases |s.checks|
  {
    if s.checks != [] {
      EdgesCount(Front(s), periodMs);
      SilentByFront(s, periodMs);
      RelapsesByFront(s, periodMs);
      if Raised(Front(s), periodMs) {
        assert LateAt(Front(s), periodMs, |Front(s).checks| - 1);
      }
    }
  }

  lemma {:induction false} EdgeSumCounts(s: seq<Segment>, periodMs: int)
    ensures EdgeSum(s, periodMs) >= SilentCount(s, periodMs)
    ensures EdgeSum(s, periodMs) == SilentCount(s, periodMs) <==> NoneRelapses(s, periodMs)
  {
    if s != [] {
      var n := |s| - 1;
      EdgeSumCounts(s[..n], periodMs);
      EdgesCount(s[n], periodMs);
      assert NoneRelapses(s, periodMs) <==> NoneRelapses(s[..n], periodMs) && !Relapses(s[n], periodMs) by {
        if NoneRelapses(s[..n], periodMs) && !Relapses(s[n], periodMs) {
          forall i | 0 <= i < |s|
            ensures !Relapses(s[i], periodMs)
          {
            assert i < n ==> s[..n][i] == s[i];
          }
        }
      }
    }
  }

  lemma EdgesAfterCheck(s: seq<Segment>, periodMs: int, now: int)
    requires s != []
    ensures var last, overdue := s[|s| - 1], Overdue(s[|s| - 1].since, periodMs, now);
      && EdgeSum(AddCheck(s, now), periodMs) == EdgeSum(s, periodMs) + (if overdue && !Raised(last, periodMs) then 1 else 0)
      && Raised(WithCheck(last, now), periodMs) == overdue
  {
    var last' := WithCheck(s[|s| - 1], now);
    assert AddCheck(s, now)[..|s| - 1] == s[..|s| - 1];
    assert Front(last') == s[|s| - 1];
  }

  /** timeout_events counts the rising edges of the segments, in every history. */
  lemma {:induction false} RisesAreEdges(db: Database, h: seq<Event>, m: MessageDef)
    requires Find(db, m.id) == Some(m)
    ensures var s := Segments(h, m.id);
      && Rises(db, h, m.id) == EdgeSum(s, m.periodMs)
      && (Flag(db, h, m.id) == Some(true) <==> Raised(s[|s| - 1], m.periodMs))
  {
    if h != [] {
      var before := h[..|h| - 1];
      var s := Segments(before, m.id);
      RisesAreEdges(db, before, m);
      match h[|h| - 1]
      case Known(r) => assert (s + [Segment(Some(r.timestampMs), [])])[..|s|] == s;
      case Unknown(_) =>
      case Check(now) => EdgesAfterCheck(s, m.periodMs, now);
    }
  }

  /** The timeouts are never fewer than the silent segments, and as many exactly when no
      segment relapses. */
  lemma RisesFollowSegments(db: Database, h: seq<Event>, m: MessageDef)
    requires Find(db, m.id) == Some(m)
    ensures var s := Segments(h, m.id);
      && Rises(db, h, m.id) >= SilentCount(s, m.periodMs)
      && (Rises(db, h, m.id) == SilentCount(s, m.periodMs) <==> NoneRelapses(s, m.periodMs))
  {
    RisesAreEdges(db, h, m);
    EdgeSumCounts(Segments(h, m.id), m.periodMs);
  }

  predicate AllOrdered(s: seq<Segment>) {
    forall i :: 0 <= i < |s| ==> Ordered(s[i])
  }

  /** timeout_events is the number of segments with a check more than three periods after the
      frame that opened them (any check, before the first frame); at most one more than the
      frames. */
  lemma TimeoutsAreSilentSegments(db: Database, h: seq<Event>, m: MessageDef)
    requires Find(db, m.id) == Some(m) && AllOrdered(Segments(h, m.id))
    ensures Rises(db, h, m.id) == SilentCount(Segments(h, m.id), m.periodMs) <= |Receptions(h, m.id)| + 1
  {
    var s := Segments(h, m.id);
    RisesFollowSegments(db, h, m);
    forall i | 0 <= i < |s|
      ensures !Relapses(s[i], m.periodMs)
    {
      OrderedNeverRelapses(s[i], m.periodMs);
    }
  }

  lemma OneMoreCheck(db: Database, h: seq<Event>, m: MessageDef, now: int)
    requires Find(db, m.id) == Some(m)
    ensures var h' := h + [Check(now)];
      && Receptions(h', m.id) == Receptions(h, m.id)
      && Flag(db, h', m.id) == Some(Overdue(LastSeen(h, m.id), m.periodMs, now))
      && Rises(db, h', m.id) == Rises(db, h, m.id) + (if IsRise(db, h, m.id, now) then 1 else 0)
  {
    assert (h + [Check(now)])[..|h|] == h;
  }

  /** With checks that go back in time one frame can have three timeouts. */
  lemma BackwardChecksRepeatTimeouts(m: MessageDef, r: Reception)
    requires m.periodMs == 10 && r.id == m.id && r.timestampMs == 0
    ensures var h := [Known(r), Check(31), Check(30), Check(31), Check(30), Check(31)];
      Rises([m], h, m.id) == 3 && |Receptions(h, m.id)| == 1
  {
    var db: Database := [m];
    var h := [Known(r)];
    assert h[..0] == [];
    OneMoreCheck(db, h, m, 31);
    OneMoreCheck(db, h + [Check(31)], m, 30);
    OneMoreCheck(db, h + [Check(31)] + [Check(30)], m, 31);
    OneMoreCheck(db, h + [Check(31)] + [Check(30)] + [Check(31)], m, 30);
    OneMoreCheck(db, h + [Check(31)] + [Check(30)] + [Check(31)] + [Check(30)], m, 31);
    assert h + [Check(31)] + [Check(30)] + [Check(31)] + [Check(30)] + [Check(31)] ==
      [Known(r), Check(31), Check(30), Check(31), Check(30), Check(31)];
  }

  lemma {:induction false} UnlistedFlag(db: Database, h: seq<Event>, id: nat)
    requires Find(db, id).None?
    ensures Flag(db, h, id) != Some(true)
  {
    if h != [] {
      UnlistedFlag(db, h[..|h| - 1], id);
    }
  }

  /** Right after a check the stored flag and the live query agree, for every ID. */
  lemma FlagAgreesWithQuery(db: Database, h: seq<Event>, now: int, id: nat)
    ensures Flag(db, h + [Check(now)], id) == Some(true) <==> OverdueNow(db, h + [Check(now)], id, now)
  {
    assert (h + [Check(now)])[..|h|] == h;
    if Find(db, id).None? {
      UnlistedFlag(db, h, id);
    }
  }

  // ---- The checksum byte ----

  lemma BitOfAlignedByte(d: Payload, sig: SignalDef, order: ByteOrder, k: nat)
    requires InRange(sig) && sig.length == 8 && sig.startBit % 8 == 0 && k < 8
    ensures Bit(Number(d, order), Lowest(sig, order) + k) == Bit(d[sig.startBit / 8], k)
  {
    var j := sig.startBit / 8;
    if order.Intel? {
      assert (8 * j + k) / 8 == j && (8 * j + k) % 8 == k;
      BitOfLE(d, 8 * j + k);
    } else {
      assert (8 * j + 7 - k) / 8 == j && (8 * j + 7 - k) % 8 == 7 - k;
      BitOfBE(d, 8 * j + 7 - k);
    }
  }

  /** The byte compared is the value extractRaw gives for a byte-aligned eight-bit signal, in
      both byte orders. */
  lemma ByteAlignedSignalIsTheByte(d: Payload, sig: SignalDef, order: ByteOrder)
    requires InRange(sig) && sig.length == 8 && sig.startBit % 8 == 0
    ensures Raw(d, sig, order) == d[sig.startBit / 8]
  {
    var n, lo, j := Number(d, order), Lowest(sig, order), sig.startBit / 8;
    forall k: nat | k < 8
      ensures SameBit(n, lo, d[j], 0, k)
    {
      BitOfAlignedByte(d, sig, order, k);
    }
    FieldsEqualByBits(n, lo, d[j], 0, 8);
    Pow2Values();
    LowOfSmall(d[j], 8);
  }

  /** A checksum fault is an extracted checksum that is not the XOR of the other seven bytes. */
  lemma BadSumIsAMismatch(m: MessageDef, frame: RawFrame, sig: SignalDef)
    requires FindSignal(m.signals, "checksum") == Some(sig)
    requires InRange(sig) && sig.length == 8 && sig.startBit % 8 == 0
    ensures BadSum(m, frame) <==>
      Raw(frame.data, sig, m.byteOrder) != XorExcept(frame.data, sig.startBit / 8, 8)
  {
    var j := sig.startBit / 8;
    ByteAlignedSignalIsTheByte(frame.data, sig, m.byteOrder);
    XorTogether(frame.data, j, 8);
    assert frame.data[..8] == frame.data;
    XorIsZero(XorExcept(frame.data, j, 8), frame.data[j]);
  }

  // ---- Independence of the interleaving ----

  /** The history without the frames of other IDs. */
  function Only(h: seq<Event>, id: nat): seq<Event> {
    if h == [] then []
    else
      var before := Only(h[..|h| - 1], id);
      match h[|h| - 1]
      case Known(r) => if r.id == id then before + [h[|h| - 1]] else before
      case Unknown(_) => before
      case Check(_) => before + [h[|h| - 1]]
  }

  /** What is kept for an ID depends on its own frames and the checks alone. */
  lemma {:induction false} InterleavingDoesNotMatter(db: Database, h: seq<Event>, id: nat)
    ensures EntryOf(db, Only(h, id), id) == EntryOf(db, h, id)
  {
    if h != [] {
      var before, e := h[..|h| - 1], h[|h| - 1];
      InterleavingDoesNotMatter(db, before, id);
      assert h == before + [e];
      if e.Unknown? || (e.Known? && e.r.id != id) || (e.Check? && Find(db, id).None?) {
        OthersDoNotMatter(db, before, e, id);
        OthersDoNotMatter(db, Only(before, id), e, id);
      } else if e.Known? {
        EntryAfterFrame(db, before, e.r);
        EntryAfterFrame(db, Only(before, id), e.r);
      } else {
        EntryAfterCheck(db, before, Find(db, id).value, e.now);
        EntryAfterCheck(db, Only(before, id), Find(db, id).value, e.now);
      }
    }
  }

  // ---- Every fault counted is reported once ----

  function AllReports(db: Database, h: seq<Event>): seq<Anomaly> {
    if h == [] then [] else AllReports(db, h[..|h| - 1]) + Reports(db, h[..|h| - 1], h[|h| - 1])
  }

  function CountOf(a: seq<Anomaly>, kind: AnomalyKind, id: nat): nat {
    if a == [] then 0
    else CountOf(a[..|a| - 1], kind, id) + (if a[|a| - 1].kind == kind && a[|a| - 1].canId == id then 1 else 0)
  }

  lemma {:induction false} CountOfSum(a: seq<Anomaly>, b: seq<Anomaly>, kind: AnomalyKind, id: nat)
    ensures CountOf(a + b, kind, id) == CountOf(a, kind, id) + CountOf(b, kind, id)
  {
    if b == [] {
      assert a + b == a;
    } else {
      CountOfSum(a, b[..|b| - 1], kind, id);
      assert (a + b)[..|a + b| - 1] == a + b[..|b| - 1];
    }
  }

  lemma CountOfOne(x: Anomaly, kind: AnomalyKind, id: nat)
    ensures CountOf([x], kind, id) == if x.kind == kind && x.canId == id then 1 else 0
  {
    assert [x][..0] == [];
  }

  /** 1 if the ID is among the first i messages and its flag rises. */
  function RiseOf(db: Database, i: nat, id: nat, rise: bool): nat
    requires i <= |db|
  {
    if Listed(db, i, id) && rise then 1 else 0
  }

  lemma RiseOfNext(db: Database, i: nat, id: nat, rise: bool)
    requires i < |db|
    ensures RiseOf(db, i + 1, id, rise) == RiseOf(db, i, id, rise) + (if id == db[i].id && rise then 1 else 0)
  {
    ListedNext(db, i, id);
  }

  lemma {:induction false} TimeoutReportsCount(db: Database, h: seq<Event>, now: int, i: nat,
                                                  kind: AnomalyKind, id: nat)
    requires i <= |db|
    ensures CountOf(TimeoutReports(db, h, now, i), kind, id) ==
      if kind == Timeout then RiseOf(db, i, id, IsRise(db, h, id, now)) else 0
  {
    if i > 0 {
      var before, one := TimeoutReports(db, h, now, i - 1), OneReport(db, h, now, db[i - 1]);
      var rise := IsRise(db, h, id, now);
      TimeoutReportsCount(db, h, now, i - 1, kind, id);
      OneReportCount(db, h, now, db[i - 1], kind, id);
      TimeoutReportsNext(db, i - 1, kind, id, rise, before, one);
    }
  }

  lemma TimeoutReportsNext(db: Database, i: nat, kind: AnomalyKind, id: nat, rise: bool,
                           before: seq<Anomaly>, one: seq<Anomaly>)
    requires i < |db|
    requires CountOf(before, kind, id) == if kind == Timeout then RiseOf(db, i, id, rise) else 0
    requires CountOf(one, kind, id) == if kind == Timeout && id == db[i].id && rise then 1 else 0
    ensures CountOf(before + one, kind, id) == if kind == Timeout then RiseOf(db, i + 1, id, rise) else 0
  {
    CountOfSum(before, one, kind, id);
    RiseOfNext(db, i, id, rise);
  }

  lemma OneReportCount(db: Database, h: seq<Event>, now: int, m: MessageDef, kind: AnomalyKind, id: nat)
    ensures CountOf(OneReport(db, h, now, m), kind, id) ==
      if kind == Timeout && id == m.id && IsRise(db, h, id, now) then 1 else 0
  {
    CountOfOne(Anomaly(Timeout, m.id, m.name, now), kind, id);
  }

  lemma ListedNext(db: Database, i: nat, id: nat)
    requires i < |db|
    ensures Listed(db, i + 1, id) <==> Listed(db, i, id) || id == db[i].id
    ensures !Listed(db, i, db[i].id)
  {}

  lemma FrameReportsCount(before: seq<int>, r: Reception, kind: AnomalyKind, id: nat)
    ensures CountOf(GapReport(LastOf(before), r) + SumReport(r), kind, id) ==
      if r.id != id then 0
      else if kind == CounterGap then (if IsGap(LastOf(before), r.counter) then 1 else 0)
      else if kind == ChecksumMismatch then (if r.bad then 1 else 0)
      else 0
  {
    CountOfSum(GapReport(LastOf(before), r), SumReport(r), kind, id);
    CountOfOne(Anomaly(CounterGap, r.id, r.name, r.timestampMs), kind, id);
    CountOfOne(Anomaly(ChecksumMismatch, r.id, r.name, r.timestampMs), kind, id);
  }

  lemma {:induction false} CountsAreReports(db: Database, h: seq<Event>, id: nat)
    ensures var r, a := Receptions(h, id), AllReports(db, h);
      && CountOf(a, CounterGap, id) == Gaps(Counters(r))
      && CountOf(a, ChecksumMismatch, id) == BadSums(r)
      && CountOf(a, Timeout, id) == Rises(db, h, id)
  {
    if h != [] {
      var before, e := h[..|h| - 1], h[|h| - 1];
      CountsAreReports(db, before, id);
      EventCounts(db, before, e, CounterGap, id);
      EventCounts(db, before, e, ChecksumMismatch, id);
      EventCounts(db, before, e, Timeout, id);
      CountsGrow(db, h, id);
    }
  }

  lemma CountsGrow(db: Database, h: seq<Event>, id: nat)
    requires h != []
    ensures var before, e := h[..|h| - 1], h[|h| - 1];
      && Gaps(Counters(Receptions(h, id))) == Gaps(Counters(Receptions(before, id))) + Added(db, before, e, CounterGap, id)
      && BadSums(Receptions(h, id)) == BadSums(Receptions(before, id)) + Added(db, before, e, ChecksumMismatch, id)
      && Rises(db, h, id) == Rises(db, before, id) + Added(db, before, e, Timeout, id)
  {
    var before, e := h[..|h| - 1], h[|h| - 1];
    if e.Known? && e.r.id == id {
      CountersGrow(Receptions(before, id), e.r);
      BadSumsGrow(Receptions(before, id), e.r);
    }
  }

  /** How many reports of a kind one event makes. */
  function Added(db: Database, h: seq<Event>, e: Event, kind: AnomalyKind, id: nat): nat {
    match e
    case Unknown(_) => 0
    case Check(now) => if kind == Timeout && IsRise(db, h, id, now) then 1 else 0
    case Known(r) =>
      if r.id != id then 0
      else if kind == CounterGap then (if IsGap(LastOf(Counters(Receptions(h, id))), r.counter) then 1 else 0)
      else if kind == ChecksumMismatch then (if r.bad then 1 else 0)
      else 0
  }

  lemma EventCounts(db: Database, h: seq<Event>, e: Event, kind: AnomalyKind, id: nat)
    requires !kind.UnknownId?
    ensures CountOf(AllReports(db, h) + Reports(db, h, e), kind, id) ==
      CountOf(AllReports(db, h), kind, id) + Added(db, h, e, kind, id)
  {
    CountOfSum(AllReports(db, h), Reports(db, h, e), kind, id);
    match e
    case Unknown(frame) => CountOfOne(Anomaly(UnknownId, frame.canId, "", frame.timestampMs), kind, id);
    case Check(now) =>
      TimeoutReportsCount(db, h, now, |db|, kind, id);
      ListedFound(db, id);
    case Known(r) => FrameReportsCount(Counters(Receptions(h, r.id)), r, kind, id);
  }

  // ---- A whole replay ----

  datatype Call = OnFrame(msg: MessageDef, frame: RawFrame) | OnUnknown(frame: RawFrame) | OnCheck(now: int)

  predicate Allowed(calls: seq<Call>) {
    forall i :: 0 <= i < |calls| ==> (calls[i].OnFrame? ==> Decodable(calls[i].msg))
  }

  function EventOf(c: Call): Event
    requires c.OnFrame? ==> Decodable(c.msg)
  {
    match c
    case OnFrame(msg, frame) => Known(Received(msg, frame))
    case OnUnknown(frame) => Unknown(frame)
    case OnCheck(now) => Check(now)
  }

  function EventsOf(calls: seq<Call>): seq<Event>
    requires Allowed(calls)
  {
    if calls == [] then [] else EventsOf(calls[..|calls| - 1]) + [EventOf(calls[|calls| - 1])]
  }

  lemma EventsNext(calls: seq<Call>, i: nat)
    requires Allowed(calls) && i < |calls|
    ensures EventsOf(calls[..i + 1]) == EventsOf(calls[..i]) + [EventOf(calls[i])]
  {
    assert calls[..i + 1][..i] == calls[..i];
  }

  lemma ReportsNext(db: Database, h: seq<Event>, e: Event)
    ensures AllReports(db, h + [e]) == AllReports(db, h) + Reports(db, h, e)
  {
    assert (h + [e])[..|h|] == h;
  }

  function FramesOf(calls: seq<Call>, id: nat): nat {
    if calls == [] then 0
    else
      var c := calls[|calls| - 1];
      FramesOf(calls[..|calls| - 1], id) + (if c.OnFrame? && c.msg.id == id then 1 else 0)
  }

  function UnknownsOf(calls: seq<Call>): nat {
    if calls == [] then 0 else UnknownsOf(calls[..|calls| - 1]) + (if calls[|calls| - 1].OnUnknown? then 1 else 0)
  }

  lemma {:induction false} CallsAreCounted(calls: seq<Call>, id: nat)
    requires Allowed(calls)
    ensures |Receptions(EventsOf(calls), id)| == FramesOf(calls, id)
    ensures UnknownFrames(EventsOf(calls)) == UnknownsOf(calls)
  {
    if calls != [] {
      CallsAreCounted(calls[..|calls| - 1], id);
    }
  }

  /** The statistics of an ID are the numbers of its frames and of its reports of each kind;
      without either it has none. */
  predicate Summed(stats: map<nat, MessageStats>, calls: seq<Call>, reports: seq<Anomaly>, id: nat) {
    var frames, timeouts := FramesOf(calls, id), CountOf(reports, Timeout, id);
    && (id in stats <==> frames > 0 || timeouts > 0)
    && (id in stats ==>
        && stats[id].framesReceived == frames && stats[id].timeoutEvents == timeouts
        && stats[id].counterFaults == CountOf(reports, CounterGap, id)
        && stats[id].checksumFaults == CountOf(reports, ChecksumMismatch, id))
  }

  lemma StatsAreSummed(db: Database, calls: seq<Call>, stats: map<nat, MessageStats>, id: nat)
    requires Allowed(calls) && Look(stats, id) == EntryOf(db, EventsOf(calls), id).stats
    ensures Summed(stats, calls, AllReports(db, EventsOf(calls)), id)
  {
    CallsAreCounted(calls, id);
    CountsAreReports(db, EventsOf(calls), id);
  }

  /** Any sequence of calls on a new engine: the anomalies returned, in order, are those of the
      history, and the final statistics count the calls and the anomalies returned. */
  method Replay(db: Database, calls: seq<Call>)
    returns (reports: seq<Anomaly>, stats: map<nat, MessageStats>, unknown: nat)
    requires Allowed(calls)
    ensures reports == AllReports(db, EventsOf(calls))
    ensures forall id: nat :: Summed(stats, calls, reports, id)
    ensures unknown == UnknownsOf(calls)
  {
    var engine := new Engine(db);
    reports := [];
    for i := 0 to |calls|
      invariant engine.Valid() && fresh(engine) && engine.db == db
      invariant engine.history == EventsOf(calls[..i])
      invariant reports == AllReports(db, engine.history)
    {
      EventsNext(calls, i);
      ReportsNext(db, engine.history, EventOf(calls[i]));
      var more := MakeCall(engine, calls[i]);
      reports := reports + more;
    }
    assert calls[..|calls|] == calls;
    stats, unknown := engine.stats, engine.unknownFrameCount;
    CallsAreCounted(calls, 0);
    forall id: nat
      ensures Summed(stats, calls, reports, id)
    {
      assert engine.At(id) == EntryOf(db, engine.history, id);
      StatsAreSummed(db, calls, stats, id);
    }
  }

  method MakeCall(engine: Engine, c: Call) returns (more: seq<Anomaly>)
    requires engine.Valid() && (c.OnFrame? ==> Decodable(c.msg))
    modifies engine
    ensures engine.Valid() && engine.history == old(engine.history) + [EventOf(c)]
    ensures more == Reports(engine.db, old(engine.history), EventOf(c))
  {
    match c
    case OnFrame(msg, frame) => more := engine.OnKnownFrame(msg, frame);
    case OnUnknown(frame) =>
      var one := engine.OnUnknownFrame(frame);
      more := [one];
    case OnCheck(now) => more := engine.CheckTimeouts(now);
  }
}
