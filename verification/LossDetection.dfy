/** The two detectors together.  A sender emits one frame per period with a counter modulo 16;
    some frames are lost. */
module LossDetection {
  import opened Options
  import opened FrameHistory
  import opened DiagnosticsEngine
  import opened DiagnosticsLaws

  /** The frames received are those the sender numbered ks. */
  predicate Sent(r: seq<Reception>, ks: seq<nat>, base: int, periodMs: int) {
    && |r| == |ks|
    && Increasing(ks)
    && (forall i :: 0 <= i < |r| ==> Matches(r[i], ks[i], base, periodMs))
  }

  predicate Increasing(ks: seq<nat>) {
    forall i, j :: 0 <= i < j < |ks| ==> ks[i] < ks[j]
  }

  predicate Matches(r: Reception, k: nat, base: int, periodMs: int) {
    r.counter == Some(k % 16) && r.timestampMs == base + k * periodMs
  }

  /** How many frames are missing between the i-th and the next frame received. */
  function Lost(ks: seq<nat>, i: nat): int
    requires i + 1 < |ks|
  {
    ks[i + 1] as int - ks[i] - 1
  }

  /** One burst raises a gap exactly when its length is not a multiple of 16. */
  lemma GapIffNotMultipleOf16(k: nat, next: nat)
    requires k < next
    ensures IsGap(Some(k % 16), Some(next % 16)) <==> (next - k - 1) % 16 != 0
  {
    assert Expected(k % 16) == (k + 1) % 16;
    var d := next - k - 1;
    assert next == k + 1 + d;
    assert (k + 1 + d) % 16 == ((k + 1) % 16 + d % 16) % 16;
  }

  function Bursts(ks: seq<nat>): nat
    requires Increasing(ks)
  {
    if |ks| < 2 then 0 else Bursts(ks[..|ks| - 1]) + (if Lost(ks, |ks| - 2) > 0 then 1 else 0)
  }

  /** The bursts that a counter modulo 16 can show. */
  function VisibleBursts(ks: seq<nat>): nat
    requires Increasing(ks)
  {
    if |ks| < 2 then 0 else VisibleBursts(ks[..|ks| - 1]) + (if Lost(ks, |ks| - 2) % 16 != 0 then 1 else 0)
  }

  lemma SentPrefix(r: seq<Reception>, ks: seq<nat>, base: int, periodMs: int)
    requires Sent(r, ks, base, periodMs) && r != []
    ensures Sent(r[..|r| - 1], ks[..|ks| - 1], base, periodMs)
  {}

  lemma {:induction false} CountersAreNumbers(r: seq<Reception>, ks: seq<nat>, base: int, periodMs: int)
    requires Sent(r, ks, base, periodMs)
    ensures |Counters(r)| == |ks| && forall i :: 0 <= i < |ks| ==> Counters(r)[i] == ks[i] % 16
  {
    if r != [] {
      SentPrefix(r, ks, base, periodMs);
      CountersAreNumbers(r[..|r| - 1], ks[..|ks| - 1], base, periodMs);
      assert Matches(r[|r| - 1], ks[|r| - 1], base, periodMs);
    }
  }

  /** counter_faults counts exactly the bursts whose length is not a multiple of 16. */
  lemma {:induction false} CounterFaultsAreVisibleBursts(r: seq<Reception>, ks: seq<nat>, base: int, periodMs: int)
    requires Sent(r, ks, base, periodMs)
    ensures Gaps(Counters(r)) == VisibleBursts(ks)
  {
    if r != [] {
      var n := |r| - 1;
      var c := Counters(r[..n]);
      SentPrefix(r, ks, base, periodMs);
      CountersAreNumbers(r[..n], ks[..n], base, periodMs);
      CounterFaultsAreVisibleBursts(r[..n], ks[..n], base, periodMs);
      assert Matches(r[n], ks[n], base, periodMs);
      GapsGrow(c, ks[n] % 16);
      if n > 0 {
        GapIffNotMultipleOf16(ks[n - 1], ks[n]);
      }
    }
  }

  // ---- One burst, in any history ----

  /** Neither a frame of the ID. */
  predicate NoFrameOf(mid: seq<Event>, id: nat) {
    forall i :: 0 <= i < |mid| ==> !(mid[i].Known? && mid[i].r.id == id)
  }

  /** The history up to the n-th event behind the frame r. */
  function Upto(h: seq<Event>, r: Reception, mid: seq<Event>, n: nat): seq<Event>
    requires n <= |mid|
  {
    h + [Known(r)] + mid[..n]
  }

  lemma UptoNext(h: seq<Event>, r: Reception, mid: seq<Event>, n: nat)
    requires n < |mid|
    ensures Upto(h, r, mid, n + 1) == Upto(h, r, mid, n) + [mid[n]]
  {}

  /** Until the next frame of the ID the last reception is r. */
  lemma {:induction false} ReceptionsStay(h: seq<Event>, r: Reception, mid: seq<Event>, n: nat)
    requires n <= |mid| && NoFrameOf(mid, r.id)
    ensures Receptions(Upto(h, r, mid, n), r.id) == Receptions(h, r.id) + [r]
  {
    if n == 0 {
      assert Upto(h, r, mid, 0) == h + [Known(r)];
      assert (h + [Known(r)])[..|h|] == h;
    } else {
      ReceptionsStay(h, r, mid, n - 1);
      UptoNext(h, r, mid, n - 1);
      var u := Upto(h, r, mid, n - 1);
      assert (u + [mid[n - 1]])[..|u|] == u;
    }
  }

  /** The j-th event behind r is a check that raises the timeout. */
  predicate RaisedAt(db: Database, h: seq<Event>, r: Reception, mid: seq<Event>, j: nat) {
    j < |mid| && mid[j].Check? && IsRise(db, Upto(h, r, mid, j), r.id, mid[j].now)
  }

  lemma FlagStartsDown(db: Database, h: seq<Event>, r: Reception, mid: seq<Event>)
    ensures Flag(db, Upto(h, r, mid, 0), r.id) == Some(false)
  {
    assert Upto(h, r, mid, 0) == h + [Known(r)];
    assert (h + [Known(r)])[..|h|] == h;
  }

  /** The flag is down after a frame, so while it is up a check behind the frame has raised it. */
  lemma {:induction false} FlagWasRaised(db: Database, h: seq<Event>, r: Reception, mid: seq<Event>, n: nat)
    returns (j: nat)
    requires n <= |mid| && NoFrameOf(mid, r.id) && Flag(db, Upto(h, r, mid, n), r.id) == Some(true)
    ensures j < n && RaisedAt(db, h, r, mid, j)
  {
    FlagStartsDown(db, h, r, mid);
    j := 0;
    if n > 0 {
      var u := Upto(h, r, mid, n - 1);
      UptoNext(h, r, mid, n - 1);
      assert (u + [mid[n - 1]])[..|u|] == u;
      if Flag(db, u, r.id) == Some(true) {
        j := FlagWasRaised(db, h, r, mid, n - 1);
      } else {
        j := n - 1;
      }
    }
  }

  /** A check more than three periods after the frame r, made before the next frame of the ID:
      it or a check between them raises the timeout. */
  lemma OverdueCheckRaises(db: Database, h: seq<Event>, m: MessageDef, r: Reception, mid: seq<Event>, c: nat)
    returns (j: nat)
    requires Find(db, m.id) == Some(m) && r.id == m.id && NoFrameOf(mid, m.id)
    requires c < |mid| && mid[c].Check? && mid[c].now > r.timestampMs + 3 * m.periodMs
    ensures j <= c && RaisedAt(db, h, r, mid, j)
  {
    ReceptionsStay(h, r, mid, c);
    if Flag(db, Upto(h, r, mid, c), r.id) == Some(true) {
      j := FlagWasRaised(db, h, r, mid, c);
    } else {
      j := c;
    }
  }

  /** What the engine reports at the j-th event behind r. */
  function ReportsAt(db: Database, h: seq<Event>, r: Reception, mid: seq<Event>, j: nat): seq<Anomaly>
    requires j < |mid|
  {
    Reports(db, Upto(h, r, mid, j), mid[j])
  }

  /** A loss of the message is reported at the j-th event behind r. */
  predicate LossReported(db: Database, h: seq<Event>, r: Reception, mid: seq<Event>, j: nat) {
    j < |mid| && exists a :: a in ReportsAt(db, h, r, mid, j) && a.canId == r.id && (a.kind.CounterGap? || a.kind.Timeout?)
  }

  lemma {:induction false} RiseIsReported(db: Database, h: seq<Event>, now: int, m: MessageDef, i: nat)
    requires i <= |db| && m in db[..i] && IsRise(db, h, m.id, now)
    ensures Anomaly(Timeout, m.id, m.name, now) in TimeoutReports(db, h, now, i)
  {
    if db[i - 1] != m {
      assert m in db[..i - 1];
      RiseIsReported(db, h, now, m, i - 1);
    }
  }

  /** A check is made behind r and before the next frame of the ID, at a time more than three
      periods after r. */
  predicate CheckedLate(r: Reception, mid: seq<Event>, periodMs: int) {
    exists c: nat :: c < |mid| && LateCheck(r, mid[c], periodMs)
  }

  predicate LateCheck(r: Reception, e: Event, periodMs: int) {
    e.Check? && e.now > r.timestampMs + 3 * periodMs
  }

  /** Frames k and k' of the sender show a loss between them: to the counter, or to a late check. */
  predicate Shown(r: Reception, mid: seq<Event>, k: nat, k': nat, periodMs: int) {
    (k' - k - 1) % 16 != 0 || CheckedLate(r, mid, periodMs)
  }

  /** Between a frame and the next one received of its ID, k and k' of the sender's frames, any
      loss shown is reported for that ID: as a counter gap with the second frame, or as a
      timeout at a check before it. */
  lemma EveryBurstIsDetected(db: Database, h: seq<Event>, m: MessageDef, r: Reception, mid: seq<Event>, r': Reception,
                             k: nat, k': nat) returns (j: nat)
    requires Find(db, m.id) == Some(m) && r.id == r'.id == m.id && NoFrameOf(mid, m.id)
    requires r.counter == Some(k % 16) && r'.counter == Some(k' % 16)
    requires k < k' && Shown(r, mid, k, k', m.periodMs)
    ensures LossReported(db, h, r, mid + [Known(r')], j)
  {
    if (k' - k - 1) % 16 != 0 {
      j := |mid|;
      GapIsReported(db, h, r, mid, r', k, k');
    } else {
      var c: nat :| c < |mid| && LateCheck(r, mid[c], m.periodMs);
      j := OverdueCheckRaises(db, h, m, r, mid, c);
      TimeoutIsReported(db, h, m, r, mid, r', j);
    }
  }

  lemma TimeoutIsReported(db: Database, h: seq<Event>, m: MessageDef, r: Reception, mid: seq<Event>, r': Reception, j: nat)
    requires Find(db, m.id) == Some(m) && r.id == m.id && RaisedAt(db, h, r, mid, j)
    ensures LossReported(db, h, r, mid + [Known(r')], j)
  {
    var all := mid + [Known(r')];
    assert all[..j] == mid[..j] && all[j] == mid[j];
    assert db[..|db|] == db;
    RiseIsReported(db, Upto(h, r, mid, j), mid[j].now, m, |db|);
    assert Anomaly(Timeout, m.id, m.name, mid[j].now) in ReportsAt(db, h, r, all, j);
  }

  // ---- And no other ----

  lemma {:induction false} TimeoutReportIsRise(db: Database, h: seq<Event>, now: int, i: nat, a: Anomaly)
    requires i <= |db| && a in TimeoutReports(db, h, now, i)
    ensures a.kind.Timeout? && IsRise(db, h, a.canId, now)
  {
    if a !in OneReport(db, h, now, db[i - 1]) {
      TimeoutReportIsRise(db, h, now, i - 1, a);
    }
  }

  lemma ReportBetweenIsLate(db: Database, h: seq<Event>, m: MessageDef, r: Reception, mid: seq<Event>, j: nat, a: Anomaly)
    requires Find(db, m.id) == Some(m) && r.id == m.id && NoFrameOf(mid, m.id) && j < |mid|
    requires a in Reports(db, Upto(h, r, mid, j), mid[j]) && a.canId == m.id && (a.kind.CounterGap? || a.kind.Timeout?)
    ensures CheckedLate(r, mid, m.periodMs)
  {
    if mid[j].Check? {
      TimeoutReportIsRise(db, Upto(h, r, mid, j), mid[j].now, |db|, a);
      ReceptionsStay(h, r, mid, j);
      assert LateCheck(r, mid[j], m.periodMs);
    }
  }

  lemma ReportOfFrameIsGap(db: Database, h: seq<Event>, r: Reception, mid: seq<Event>, r': Reception,
                           k: nat, k': nat, a: Anomaly)
    requires r.id == r'.id && NoFrameOf(mid, r.id) && k < k'
    requires r.counter == Some(k % 16) && r'.counter == Some(k' % 16)
    requires a in Reports(db, Upto(h, r, mid, |mid|), Known(r')) && (a.kind.CounterGap? || a.kind.Timeout?)
    ensures (k' - k - 1) % 16 != 0
  {
    ReceptionsStay(h, r, mid, |mid|);
    CountersGrow(Receptions(h, r.id), r);
    GapIffNotMultipleOf16(k, k');
  }

  lemma OnlyShownIsReported(db: Database, h: seq<Event>, m: MessageDef, r: Reception, mid: seq<Event>, r': Reception,
                            k: nat, k': nat, j: nat)
    requires Find(db, m.id) == Some(m) && r.id == r'.id == m.id && NoFrameOf(mid, m.id) && k < k'
    requires r.counter == Some(k % 16) && r'.counter == Some(k' % 16)
    requires LossReported(db, h, r, mid + [Known(r')], j)
    ensures Shown(r, mid, k, k', m.periodMs)
  {
    var all := mid + [Known(r')];
    var a :| a in ReportsAt(db, h, r, all, j) && a.canId == r.id && (a.kind.CounterGap? || a.kind.Timeout?);
    if j < |mid| {
      assert all[..j] == mid[..j] && all[j] == mid[j];
      ReportBetweenIsLate(db, h, m, r, mid, j, a);
    } else {
      assert all[..j] == mid[..|mid|];
      ReportOfFrameIsGap(db, h, r, mid, r', k, k', a);
    }
  }

  /** Exactly the bursts whose length is not a multiple of 16, and those during which a late
      check was made, are reported. */
  lemma DetectedIff(db: Database, h: seq<Event>, m: MessageDef, r: Reception, mid: seq<Event>, r': Reception,
                    k: nat, k': nat)
    requires Find(db, m.id) == Some(m) && r.id == r'.id == m.id && NoFrameOf(mid, m.id) && k < k'
    requires r.counter == Some(k % 16) && r'.counter == Some(k' % 16)
    ensures (exists j: nat :: LossReported(db, h, r, mid + [Known(r')], j)) <==> Shown(r, mid, k, k', m.periodMs)
  {
    if Shown(r, mid, k, k', m.periodMs) {
      var j := EveryBurstIsDetected(db, h, m, r, mid, r', k, k');
    } else if j: nat :| LossReported(db, h, r, mid + [Known(r')], j) {
      OnlyShownIsReported(db, h, m, r, mid, r', k, k', j);
    }
  }

  lemma GapIsReported(db: Database, h: seq<Event>, r: Reception, mid: seq<Event>, r': Reception, k: nat, k': nat)
    requires r.id == r'.id && NoFrameOf(mid, r.id) && k < k' && (k' - k - 1) % 16 != 0
    requires r.counter == Some(k % 16) && r'.counter == Some(k' % 16)
    ensures LossReported(db, h, r, mid + [Known(r')], |mid|)
  {
    var all, n := mid + [Known(r')], |mid|;
    assert all[..n] == mid == mid[..n] && all[n] == Known(r');
    ReceptionsStay(h, r, mid, n);
    CountersGrow(Receptions(h, r.id), r);
    GapIffNotMultipleOf16(k, k');
    var a := Anomaly(CounterGap, r'.id, r'.name, r'.timestampMs);
    assert GapReport(LastOf(Counters(Receptions(Upto(h, r, all, n), r.id))), r') == [a];
    assert a in ReportsAt(db, h, r, all, n);
  }

  // ---- All bursts of a history ----

  /** If the counter does not show a burst before frame i + 1, a check was made in the segment
      between at a time more than three periods after frame i. */
  predicate WatchedAt(s: seq<Segment>, ks: seq<nat>, base: int, periodMs: int, i: nat)
    requires i + 1 < |ks| <= |s|
  {
    Unseen(Lost(ks, i)) ==> CheckedAfter(s[i + 1].checks, base + ks[i] * periodMs + 3 * periodMs)
  }

  /** A burst of this length leaves the counter as expected. */
  predicate Unseen(lost: int) {
    lost > 0 && lost % 16 == 0
  }

  predicate CheckedAfter(checks: seq<int>, time: int) {
    exists c :: 0 <= c < |checks| && checks[c] > time
  }

  predicate Watched(s: seq<Segment>, ks: seq<nat>, base: int, periodMs: int) {
    |ks| <= |s| && forall i: nat :: i + 1 < |ks| ==> WatchedAt(s, ks, base, periodMs, i)
  }

  /** Segment i + 1 is opened by frame i. */
  lemma {:induction false} SegmentsOpen(h: seq<Event>, id: nat, i: nat)
    requires i < |Receptions(h, id)|
    ensures Segments(h, id)[i + 1].since == Some(Receptions(h, id)[i].timestampMs)
  {
    if h != [] {
      var before := h[..|h| - 1];
      if i < |Receptions(before, id)| {
        SegmentsOpen(before, id, i);
      }
    }
  }

  /** A watched gap is a silent segment. */
  predicate HeardAt(s: seq<Segment>, ks: seq<nat>, periodMs: int, i: nat)
    requires i + 1 < |ks| <= |s|
  {
    Unseen(Lost(ks, i)) ==> Silent(s[i + 1], periodMs)
  }

  predicate Heard(s: seq<Segment>, ks: seq<nat>, periodMs: int) {
    |ks| <= |s| && forall i: nat :: i + 1 < |ks| ==> HeardAt(s, ks, periodMs, i)
  }

  lemma WatchedIsHeard(h: seq<Event>, id: nat, ks: seq<nat>, base: int, periodMs: int)
    requires Sent(Receptions(h, id), ks, base, periodMs) && Watched(Segments(h, id), ks, base, periodMs)
    ensures Heard(Segments(h, id), ks, periodMs)
  {
    var s, r := Segments(h, id), Receptions(h, id);
    forall i: nat | i + 1 < |ks|
      ensures HeardAt(s, ks, periodMs, i)
    {
      assert WatchedAt(s, ks, base, periodMs, i);
      assert Matches(r[i], ks[i], base, periodMs);
      SegmentsOpen(h, id, i);
      if Unseen(Lost(ks, i)) {
        var checks := s[i + 1].checks;
        var c: nat :| c < |checks| && checks[c] > base + ks[i] * periodMs + 3 * periodMs;
        assert LateAt(s[i + 1], periodMs, c);
      }
    }
  }

  lemma {:induction false} BurstsSplit(ks: seq<nat>, s: seq<Segment>, periodMs: int)
    requires Increasing(ks) && |s| == |ks| && Heard(s, ks, periodMs)
    ensures Bursts(ks) <= VisibleBursts(ks) + SilentCount(s, periodMs)
  {
    if |ks| >= 2 {
      var n := |ks| - 1;
      HeardPrefix(ks, s, periodMs);
      BurstsSplit(ks[..n], s[..n], periodMs);
      assert HeardAt(s, ks, periodMs, n - 1);
    }
  }

  lemma HeardPrefix(ks: seq<nat>, s: seq<Segment>, periodMs: int)
    requires ks != [] && |ks| == |s| && Heard(s, ks, periodMs)
    ensures Heard(s[..|s| - 1], ks[..|ks| - 1], periodMs)
  {
    var s', ks' := s[..|s| - 1], ks[..|ks| - 1];
    forall i: nat | i + 1 < |ks'|
      ensures HeardAt(s', ks', periodMs, i)
    {
      assert HeardAt(s, ks, periodMs, i);
    }
  }

  lemma HeardClosed(ks: seq<nat>, s: seq<Segment>, periodMs: int)
    requires |ks| + 1 == |s| && Heard(s, ks, periodMs)
    ensures Heard(s[..|ks|], ks, periodMs)
  {
    forall i: nat | i + 1 < |ks|
      ensures HeardAt(s[..|ks|], ks, periodMs, i)
    {
      assert HeardAt(s, ks, periodMs, i);
    }
  }

  /** No burst goes unnoticed: counter faults and timeouts together are at least the bursts. */
  lemma FaultsCoverBursts(db: Database, h: seq<Event>, m: MessageDef, ks: seq<nat>, base: int)
    requires Find(db, m.id) == Some(m)
    requires Sent(Receptions(h, m.id), ks, base, m.periodMs)
    requires Watched(Segments(h, m.id), ks, base, m.periodMs)
    ensures Bursts(ks) <= Gaps(Counters(Receptions(h, m.id))) + Rises(db, h, m.id)
  {
    var s := Segments(h, m.id);
    CounterFaultsAreVisibleBursts(Receptions(h, m.id), ks, base, m.periodMs);
    WatchedIsHeard(h, m.id, ks, base, m.periodMs);
    HeardClosed(ks, s, m.periodMs);
    BurstsSplit(ks, s[..|ks|], m.periodMs);
    RisesFollowSegments(db, h, m);
  }
}
