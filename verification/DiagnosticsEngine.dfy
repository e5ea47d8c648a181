/** The monitor of diagnostics.cpp.  Its maps are updated in place; Valid says that they hold,
    for every ID, exactly what the history of calls determines. */
module DiagnosticsEngine {
  import opened Bits
  import opened Options
  import opened SignalCodec
  import opened FrameHistory

  datatype AnomalyKind = CounterGap | ChecksumMismatch | Timeout | UnknownId

  datatype Anomaly = Anomaly(kind: AnomalyKind, canId: nat, messageName: string, timestampMs: int)

  // ---- What each call reports ----

  function GapReport(last: Option<int>, r: Reception): seq<Anomaly> {
    if IsGap(last, r.counter) then [Anomaly(CounterGap, r.id, r.name, r.timestampMs)] else []
  }

  function SumReport(r: Reception): seq<Anomaly> {
    if r.bad then [Anomaly(ChecksumMismatch, r.id, r.name, r.timestampMs)] else []
  }

  /** The timeouts reported at a check by the first i messages of the database. */
  function TimeoutReports(db: Database, h: seq<Event>, now: int, i: nat): seq<Anomaly>
    requires i <= |db|
  {
    if i == 0 then []
    else
      TimeoutReports(db, h, now, i - 1) + OneReport(db, h, now, db[i - 1])
  }

  function OneReport(db: Database, h: seq<Event>, now: int, m: MessageDef): seq<Anomaly> {
    if IsRise(db, h, m.id, now) then [Anomaly(Timeout, m.id, m.name, now)] else []
  }

  function Reports(db: Database, h: seq<Event>, e: Event): seq<Anomaly> {
    match e
    case Known(r) => GapReport(LastOf(Counters(Receptions(h, r.id))), r) + SumReport(r)
    case Unknown(frame) => [Anomaly(UnknownId, frame.canId, "", frame.timestampMs)]
    case Check(now) => TimeoutReports(db, h, now, |db|)
  }

  /** Each is a gap or a checksum fault of this message, by ID and name, at the frame's time;
      one of each at most, the gap first. */
  predicate AllOfFrame(msg: MessageDef, frame: RawFrame, anomalies: seq<Anomaly>) {
    && |anomalies| <= 2 && (|anomalies| == 2 ==> anomalies[0].kind.CounterGap? && anomalies[1].kind.ChecksumMismatch?)
    && forall k :: 0 <= k < |anomalies| ==> IsOfFrame(msg, frame, anomalies[k])
  }

  predicate IsOfFrame(msg: MessageDef, frame: RawFrame, a: Anomaly) {
    && (a.kind.CounterGap? || a.kind.ChecksumMismatch?)
    && a.canId == msg.id && a.messageName == msg.name && a.timestampMs == frame.timestampMs
  }

  lemma ReportsAreOfFrame(last: Option<int>, msg: MessageDef, frame: RawFrame)
    requires Decodable(msg)
    ensures AllOfFrame(msg, frame, GapReport(last, Received(msg, frame)) + SumReport(Received(msg, frame)))
  {}

  /** Each is a timeout of a message of the database, by ID and name, at this time; in ascending
      order of ID. */
  predicate AllTimeouts(db: Database, anomalies: seq<Anomaly>, now: int) {
    (forall k :: 0 <= k < |anomalies| ==> IsTimeout(db, anomalies[k], now)) && InOrder(anomalies)
  }

  predicate IsTimeout(db: Database, a: Anomaly, now: int) {
    a.kind.Timeout? && a.timestampMs == now && exists m :: m in db && a.canId == m.id && a.messageName == m.name
  }

  predicate InOrder(anomalies: seq<Anomaly>) {
    forall j, k :: 0 <= j < k < |anomalies| ==> anomalies[j].canId < anomalies[k].canId
  }

  predicate Below(anomalies: seq<Anomaly>, id: nat) {
    forall k :: 0 <= k < |anomalies| ==> anomalies[k].canId < id
  }

  lemma {:induction false} TimeoutsAreNamed(db: Database, h: seq<Event>, now: int, i: nat)
    requires i <= |db|
    ensures forall k :: 0 <= k < |TimeoutReports(db, h, now, i)| ==> IsTimeout(db, TimeoutReports(db, h, now, i)[k], now)
  {
    if i > 0 {
      TimeoutsAreNamed(db, h, now, i - 1);
      assert db[i - 1] in db;
    }
  }

  lemma {:induction false} TimeoutsAreBelow(db: Database, h: seq<Event>, now: int, i: nat, id: nat)
    requires i <= |db| && forall k :: 0 <= k < i ==> db[k].id < id
    ensures Below(TimeoutReports(db, h, now, i), id)
  {
    if i > 0 {
      TimeoutsAreBelow(db, h, now, i - 1, id);
    }
  }

  lemma {:induction false} TimeoutsInOrder(db: Database, h: seq<Event>, now: int, i: nat)
    requires i <= |db|
    ensures InOrder(TimeoutReports(db, h, now, i))
  {
    if i > 0 {
      TimeoutsInOrder(db, h, now, i - 1);
      TimeoutsAreBelow(db, h, now, i - 1, db[i - 1].id);
    }
  }

  predicate Listed(db: seq<MessageDef>, i: nat, id: nat)
    requires i <= |db|
  {
    exists k :: 0 <= k < i && db[k].id == id
  }

  lemma ListedFound(db: Database, id: nat)
    ensures Listed(db, |db|, id) <==> Find(db, id).Some?
  {}

  /** The entry of an ID when the check at now has passed i messages. */
  function Stage(db: Database, h: seq<Event>, now: int, i: nat, id: nat): Entry
    requires i <= |db|
  {
    EntryOf(db, if Listed(db, i, id) then h + [Check(now)] else h, id)
  }

  lemma StageNext(db: Database, h: seq<Event>, now: int, i: nat)
    requires i < |db|
    ensures var e := Stage(db, h, now, i, db[i].id);
      var overdue := Overdue(e.lastSeen, db[i].periodMs, now);
      && Stage(db, h, now, i + 1, db[i].id) == Checked(e, overdue)
      && IsRise(db, h, db[i].id, now) == (overdue && e.timedOut != Some(true))
    ensures forall id: nat :: id != db[i].id ==> Stage(db, h, now, i + 1, id) == Stage(db, h, now, i, id)
  {
    FindAt(db, i);
    EntryAfterCheck(db, h, db[i], now);
  }

  lemma StageEnds(db: Database, h: seq<Event>, now: int)
    ensures forall id: nat :: Stage(db, h, now, 0, id) == EntryOf(db, h, id)
    ensures forall id: nat :: Stage(db, h, now, |db|, id) == EntryOf(db, h + [Check(now)], id)
    ensures UnknownFrames(h + [Check(now)]) == UnknownFrames(h)
  {
    forall id: nat
      ensures Stage(db, h, now, |db|, id) == EntryOf(db, h + [Check(now)], id)
    {
      if !Listed(db, |db|, id) {
        ListedFound(db, id);
        OthersDoNotMatter(db, h, Check(now), id);
      }
    }
    assert (h + [Check(now)])[..|h|] == h;
  }

  // ---- The checksum loop ----

  /** The XOR of the first n bytes except the one at skip. */
  function XorExcept(d: seq<Byte>, skip: nat, n: nat): nat
    requires n <= |d|
  {
    if n == 0 then 0
    else if n - 1 == skip then XorExcept(d, skip, n - 1)
    else Xor(XorExcept(d, skip, n - 1), d[n - 1])
  }

  lemma {:induction false} XorTogether(d: seq<Byte>, skip: nat, n: nat)
    requires n <= |d| && skip < |d|
    ensures XorAll(d[..n]) == if skip < n then Xor(XorExcept(d, skip, n), d[skip]) else XorExcept(d, skip, n)
  {
    if n > 0 {
      XorTogether(d, skip, n - 1);
      assert d[..n][..n - 1] == d[..n - 1];
      if skip < n - 1 {
        XorSwap(XorExcept(d, skip, n - 1), d[skip], d[n - 1]);
      }
    }
  }

  function Look<V>(m: map<nat, V>, id: nat): Option<V> {
    if id in m then Some(m[id]) else None
  }

  class Engine {
    const db: Database
    var lastCounter: map<nat, int>
    var lastSeenMs: map<nat, int>
    var currentlyTimedOut: map<nat, bool>
    var stats: map<nat, MessageStats>
    var unknownFrameCount: nat
    ghost var history: seq<Event>

    function At(id: nat): Entry
      reads this
    {
      Entry(Look(lastCounter, id), Look(lastSeenMs, id), Look(currentlyTimedOut, id), Look(stats, id))
    }

    ghost predicate Valid()
      reads this
    {
      && (forall id: nat :: At(id) == EntryOf(db, history, id))
      && unknownFrameCount == UnknownFrames(history)
    }

    constructor (database: Database)
      ensures Valid() && db == database && history == []
    {
      db := database;
      lastCounter, lastSeenMs, currentlyTimedOut, stats := map[], map[], map[], map[];
      unknownFrameCount := 0;
      history := [];
    }

    method OnKnownFrame(msg: MessageDef, frame: RawFrame) returns (anomalies: seq<Anomaly>)
      requires Valid() && Decodable(msg)
      modifies this
      ensures Valid() && history == old(history) + [Known(Received(msg, frame))]
      ensures anomalies == Reports(db, old(history), Known(Received(msg, frame)))
      ensures AllOfFrame(msg, frame, anomalies)
    {
      AllAfterFrame(db, history, Received(msg, frame));
      assert At(msg.id) == EntryOf(db, history, msg.id);
      anomalies := Record(msg, frame);
      ReportsAreOfFrame(old(At(msg.id)).lastCounter, msg, frame);
      history := history + [Known(Received(msg, frame))];
    }

    /** The body of onKnownFrame, which touches the one ID only. */
    method Record(msg: MessageDef, frame: RawFrame) returns (anomalies: seq<Anomaly>)
      requires Decodable(msg)
      modifies `lastCounter, `lastSeenMs, `currentlyTimedOut, `stats
      ensures At(msg.id) == Updated(old(At(msg.id)), Received(msg, frame))
      ensures forall id: nat :: id != msg.id ==> At(id) == old(At(id))
      ensures anomalies ==
        GapReport(old(At(msg.id)).lastCounter, Received(msg, frame)) + SumReport(Received(msg, frame))
    {
      var st := if msg.id in stats then stats[msg.id] else MessageStats(0, 0, 0, 0);
      var gap := CheckCounter(msg, frame);
      var bad := CheckChecksum(msg, frame);
      anomalies := gap + bad;
      st := Bumped(st, gap != [], bad != []);
      stats := stats[msg.id := st];
      lastSeenMs := lastSeenMs[msg.id := frame.timestampMs];
      currentlyTimedOut := currentlyTimedOut[msg.id := false];
    }

    /** The counter section: compares with the last counter and remembers the new one. */
    method CheckCounter(msg: MessageDef, frame: RawFrame) returns (report: seq<Anomaly>)
      requires Decodable(msg)
      modifies `lastCounter
      ensures report == GapReport(old(Look(lastCounter, msg.id)), Received(msg, frame))
      ensures lastCounter == match CounterOf(msg, frame)
        case None => old(lastCounter)
        case Some(c) => old(lastCounter)[msg.id := c]
    {
      report := [];
      var sig := FindSignal(msg.signals, "counter");
      if sig.Some? {
        var raw := ExtractRaw(frame.data, sig.value, msg.byteOrder);
        var counter := AsInt32(raw);
        if msg.id in lastCounter && counter != Remainder(lastCounter[msg.id] + 1, 16) {
          report := [Anomaly(CounterGap, msg.id, msg.name, frame.timestampMs)];
        }
        lastCounter := lastCounter[msg.id := counter];
      }
    }

    /** The checksum section: the XOR of the other seven bytes against the byte received. */
    method CheckChecksum(msg: MessageDef, frame: RawFrame) returns (report: seq<Anomaly>)
      requires Decodable(msg)
      ensures report == SumReport(Received(msg, frame))
    {
      report := [];
      var sig := FindSignal(msg.signals, "checksum");
      if sig.Some? {
        var checksumByteIdx := ByteIndex(sig.value.startBit);
        var computed: nat := 0;
        for i := 0 to 8
          invariant computed == XorExcept(frame.data, checksumByteIdx, i)
        {
          if i == checksumByteIdx {
            continue;
          }
          computed := Xor(computed, frame.data[i]);
        }
        var received := frame.data[checksumByteIdx];
        XorTogether(frame.data, checksumByteIdx, 8);
        assert frame.data[..8] == frame.data;
        XorIsZero(computed, received);
        if computed != received {
          report := [Anomaly(ChecksumMismatch, msg.id, msg.name, frame.timestampMs)];
        }
      }
    }

    method OnUnknownFrame(frame: RawFrame) returns (anomaly: Anomaly)
      requires Valid()
      modifies this
      ensures Valid() && history == old(history) + [Unknown(frame)]
      ensures [anomaly] == Reports(db, old(history), Unknown(frame))
      ensures anomaly.kind.UnknownId? && anomaly.canId == frame.canId
      ensures anomaly.messageName == "" && anomaly.timestampMs == frame.timestampMs
      ensures unknownFrameCount == old(unknownFrameCount) + 1
    {
      AllAfterUnknown(db, history, frame);
      unknownFrameCount := unknownFrameCount + 1;
      history := history + [Unknown(frame)];
      anomaly := Anomaly(UnknownId, frame.canId, "", frame.timestampMs);
    }

    method CheckTimeouts(now: int) returns (anomalies: seq<Anomaly>)
      requires Valid()
      modifies this
      ensures Valid() && history == old(history) + [Check(now)]
      ensures anomalies == Reports(db, old(history), Check(now))
      ensures AllTimeouts(db, anomalies, now)
    {
      StageEnds(db, history, now);
      anomalies := CheckAll(now);
      TimeoutsAreNamed(db, history, now, |db|);
      TimeoutsInOrder(db, history, now, |db|);
      history := history + [Check(now)];
    }

    /** The loop of checkTimeouts. */
    method CheckAll(now: int) returns (anomalies: seq<Anomaly>)
      requires forall id: nat :: At(id) == Stage(db, history, now, 0, id)
      modifies `currentlyTimedOut, `stats
      ensures forall id: nat :: At(id) == Stage(db, history, now, |db|, id)
      ensures anomalies == TimeoutReports(db, history, now, |db|)
    {
      anomalies := [];
      for i := 0 to |db|
        invariant anomalies == TimeoutReports(db, history, now, i)
        invariant forall id: nat :: At(id) == Stage(db, history, now, i, id)
      {
        var rose := CheckNext(i, now);
        if rose {
          anomalies := anomalies + [Anomaly(Timeout, db[i].id, db[i].name, now)];
        }
      }
    }

    /** The i-th turn of that loop. */
    method CheckNext(i: nat, now: int) returns (rose: bool)
      requires i < |db| && forall id: nat :: At(id) == Stage(db, history, now, i, id)
      modifies `currentlyTimedOut, `stats
      ensures rose == IsRise(db, history, db[i].id, now)
      ensures forall id: nat :: At(id) == Stage(db, history, now, i + 1, id)
    {
      StageNext(db, history, now, i);
      rose := CheckOne(db[i], now);
    }

    /** The loop body of checkTimeouts. */
    method CheckOne(msg: MessageDef, now: int) returns (rose: bool)
      modifies `currentlyTimedOut, `stats
      ensures var e := old(At(msg.id));
        var overdue := Overdue(e.lastSeen, msg.periodMs, now);
        rose == (overdue && e.timedOut != Some(true)) && At(msg.id) == Checked(e, overdue)
      ensures forall id: nat :: id != msg.id ==> At(id) == old(At(id))
    {
      var threshold := msg.periodMs * 3;
      var neverSeen := msg.id !in lastSeenMs;
      var isTimedOut := neverSeen || now - lastSeenMs[msg.id] > threshold;
      var wasTimedOut := if msg.id in currentlyTimedOut then currentlyTimedOut[msg.id] else false;
      rose := isTimedOut && !wasTimedOut;
      if rose {
        var st := if msg.id in stats then stats[msg.id] else MessageStats(0, 0, 0, 0);
        stats := stats[msg.id := st.(timeoutEvents := st.timeoutEvents + 1)];
      }
      currentlyTimedOut := currentlyTimedOut[msg.id := isTimedOut];
    }

    /** Overdue now; an ID outside the database never is. */
    method IsCurrentlyTimedOut(id: nat, now: int) returns (b: bool)
      requires Valid()
      ensures b == OverdueNow(db, history, id, now)
    {
      assert At(id) == EntryOf(db, history, id);
      var msg := Find(db, id);
      if msg.None? {
        return false;
      }
      if id !in lastSeenMs {
        return true;
      }
      b := now - lastSeenMs[id] > msg.value.periodMs * 3;
    }
  }

  predicate OverdueNow(db: Database, h: seq<Event>, id: nat, now: int) {
    match Find(db, id)
    case None => false
    case Some(m) => Overdue(LastSeen(h, id), m.periodMs, now)
  }
}
