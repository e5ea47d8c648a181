/** A message of the database that has not been heard of yet, and one that has. */
module SilentMessages {
  import opened Options
  import opened FrameHistory
  import opened DiagnosticsEngine
  import opened DiagnosticsLaws
  import opened LossDetection

  predicate Checked(h: seq<Event>) {
    exists i :: 0 <= i < |h| && h[i].Check?
  }

  // ---- Before the first frame ----

  lemma {:induction false} NothingReceived(h: seq<Event>, id: nat)
    requires NoFrameOf(h, id)
    ensures Receptions(h, id) == []
  {
    if h != [] {
      NothingReceived(h[..|h| - 1], id);
    }
  }

  lemma CheckedByLast(h: seq<Event>)
    requires h != []
    ensures Checked(h) <==> Checked(h[..|h| - 1]) || h[|h| - 1].Check?
  {
    if Checked(h[..|h| - 1]) {
      var i :| 0 <= i < |h| - 1 && h[..|h| - 1][i].Check?;
      assert h[i].Check?;
    }
    if Checked(h) && !h[|h| - 1].Check? {
      var i :| 0 <= i < |h| && h[i].Check?;
      assert h[..|h| - 1][i].Check?;
    }
  }

  /** The first check, at any time, finds the message missing, and once only. */
  lemma {:induction false} MissedOnce(db: Database, h: seq<Event>, m: MessageDef)
    requires Find(db, m.id) == Some(m) && NoFrameOf(h, m.id)
    ensures Flag(db, h, m.id) == if Checked(h) then Some(true) else None
    ensures Rises(db, h, m.id) == if Checked(h) then 1 else 0
  {
    if h != [] {
      MissedOnce(db, h[..|h| - 1], m);
      NothingReceived(h[..|h| - 1], m.id);
      CheckedByLast(h);
    }
  }

  /** A check of an engine that has had no frame of the message: it is reported missing if this
      is the first check, counted once, and timed out at any time asked. */
  method CheckUnheard(engine: Engine, m: MessageDef, now: int, later: int)
    returns (anomalies: seq<Anomaly>, timedOut: bool)
    requires engine.Valid() && Find(engine.db, m.id) == Some(m) && NoFrameOf(engine.history, m.id)
    modifies engine
    ensures engine.Valid() && timedOut
    ensures Anomaly(Timeout, m.id, m.name, now) in anomalies <==> !Checked(old(engine.history))
    ensures m.id in engine.stats && engine.stats[m.id] == MessageStats(0, 0, 0, 1)
  {
    ghost var h := engine.history;
    MissedOnce(engine.db, h, m);
    NothingReceived(h, m.id);
    anomalies := engine.CheckTimeouts(now);
    assert engine.history[|h|] == Check(now);
    MissedOnce(engine.db, engine.history, m);
    NothingReceived(engine.history, m.id);
    assert engine.At(m.id) == EntryOf(engine.db, engine.history, m.id);
    timedOut := engine.IsCurrentlyTimedOut(m.id, later);
    ReportedIfRise(engine.db, h, now, m);
  }

  lemma ReportedIfRise(db: Database, h: seq<Event>, now: int, m: MessageDef)
    requires Find(db, m.id) == Some(m)
    ensures Anomaly(Timeout, m.id, m.name, now) in Reports(db, h, Check(now)) <==> IsRise(db, h, m.id, now)
  {
    var a := Anomaly(Timeout, m.id, m.name, now);
    assert db[..|db|] == db;
    if IsRise(db, h, m.id, now) {
      RiseIsReported(db, h, now, m, |db|);
    } else if a in TimeoutReports(db, h, now, |db|) {
      TimeoutReportIsRise(db, h, now, |db|, a);
    }
  }

  /** The segment before the first frame is silent if and only if it has a check. */
  lemma {:induction false} FirstSegment(h: seq<Event>, id: nat, periodMs: int)
    ensures Segments(h, id)[0].since == None
    ensures Silent(Segments(h, id)[0], periodMs) <==> Segments(h, id)[0].checks != []
  {
    if h != [] {
      FirstSegment(h[..|h| - 1], id, periodMs);
    }
    var s := Segments(h, id)[0];
    if s.checks != [] {
      assert LateAt(s, periodMs, 0);
    }
  }

  // ---- Behind a frame ----

  /** Until the next frame the message is timed out exactly more than three periods after it. */
  method AskBehindFrame(engine: Engine, m: MessageDef, ghost h: seq<Event>, ghost r: Reception, ghost mid: seq<Event>,
                        now: int)
    returns (timedOut: bool)
    requires engine.Valid() && Find(engine.db, m.id) == Some(m)
    requires engine.history == h + [Known(r)] + mid && r.id == m.id && NoFrameOf(mid, m.id)
    ensures timedOut <==> now - r.timestampMs > m.periodMs + m.periodMs + m.periodMs
  {
    ReceptionsStay(h, r, mid, |mid|);
    assert mid[..|mid|] == mid;
    timedOut := engine.IsCurrentlyTimedOut(m.id, now);
  }

  method FrameThenAsk(engine: Engine, m: MessageDef, frame: RawFrame, now: int) returns (timedOut: bool)
    requires engine.Valid() && Find(engine.db, m.id) == Some(m) && Decodable(m)
    modifies engine
    ensures engine.Valid()
    ensures timedOut <==> now - frame.timestampMs > m.periodMs + m.periodMs + m.periodMs
  {
    ghost var h := engine.history;
    var anomalies := engine.OnKnownFrame(m, frame);
    assert engine.history == h + [Known(Received(m, frame))] + [];
    timedOut := AskBehindFrame(engine, m, h, Received(m, frame), [], now);
  }

  /** A message outside the database is never timed out. */
  method AskUnlisted(engine: Engine, id: nat, now: int) returns (timedOut: bool)
    requires engine.Valid() && forall i :: 0 <= i < |engine.db| ==> engine.db[i].id != id
    ensures !timedOut
  {
    timedOut := engine.IsCurrentlyTimedOut(id, now);
  }
}
