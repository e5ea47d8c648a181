/** One critical section with no step of another between its own: the field-by-field writes and
    copies of the machine are the methods of the state manager. */
module ReplayAlone {
  import opened Options
  import opened VehicleState
  import opened ReplayProducer
  import opened ReplayMachine
  import opened ReplaySystem

  function Times(a: Action, n: nat): seq<Action> {
    if n == 0 then [] else [a] + Times(a, n - 1)
  }

  lemma RunOnce(cfgs: seq<Config>, s: State, a: Action, n: nat)
    requires Shaped(cfgs, s)
    ensures Shaped(cfgs, Step(cfgs, s, a))
    ensures Run(cfgs, s, Times(a, n + 1)) == Run(cfgs, Step(cfgs, s, a), Times(a, n))
  {
    StepIsShaped(cfgs, s, a);
    assert Times(a, n + 1)[1..] == Times(a, n);
  }

  // ---- An update ----

  /** The machine after producer k's update: its slot whole, its event applied. */
  function AfterUpdate(cfgs: seq<Config>, s: State, k: nat): State
    requires Shaped(cfgs, s) && k < |cfgs| && s.threads[k].pc.Locking?
  {
    var t, e := s.threads[k], AtEvent(cfgs[k], s.threads[k]);
    s.(slots := s.slots[k := Slot(Some(e.sample), s.now, e.tsMs)],
       threads := s.threads[k := t.(
         pc := Head, next := t.next + 1, applied := t.applied + [Application(e, t.pc.target, s.now)])])
  }

  /** Five steps of one producer: lock, three fields, unlock. */
  lemma {:induction false} UpdateAlone(cfgs: seq<Config>, s: State, k: nat)
    requires Shaped(cfgs, s) && k < |cfgs| && s.threads[k].pc.Locking? && s.lock.Free?
    ensures Run(cfgs, s, Times(Produce(k), 5)) == AfterUpdate(cfgs, s, k)
  {
    var s1 := Step(cfgs, s, Produce(k));
    RunOnce(cfgs, s, Produce(k), 4);
    var s2 := Step(cfgs, s1, Produce(k));
    RunOnce(cfgs, s1, Produce(k), 3);
    var s3 := Step(cfgs, s2, Produce(k));
    RunOnce(cfgs, s2, Produce(k), 2);
    UpdateFields(cfgs, s, s1, s2, s3, k);
    var s4 := Step(cfgs, s3, Produce(k));
    RunOnce(cfgs, s3, Produce(k), 1);
    RunOnce(cfgs, s4, Produce(k), 0);
    UpdateEnds(cfgs, s, s3, k);
  }

  /** The machine when sample and time are written and the source timestamp is not. */
  function HalfWay(cfgs: seq<Config>, s: State, k: nat): State
    requires Shaped(cfgs, s) && k < |cfgs| && s.threads[k].pc.Locking?
  {
    var t, e := s.threads[k], AtEvent(cfgs[k], s.threads[k]);
    s.(lock := Writer(k),
       slots := s.slots[k := s.slots[k].(sample := Some(e.sample), lastUpdate := s.now)],
       threads := s.threads[k := t.(pc := WritingSource(t.pc.target, s.now))])
  }

  lemma UpdateFields(cfgs: seq<Config>, s: State, s1: State, s2: State, s3: State, k: nat)
    requires Shaped(cfgs, s) && k < |cfgs| && s.threads[k].pc.Locking? && s.lock.Free?
    requires s1 == Step(cfgs, s, Produce(k))
    requires Shaped(cfgs, s1) && s2 == Step(cfgs, s1, Produce(k))
    requires Shaped(cfgs, s2) && s3 == Step(cfgs, s2, Produce(k))
    ensures s3 == HalfWay(cfgs, s, k)
  {
    var t, e, g := s.threads[k], AtEvent(cfgs[k], s.threads[k]), s.threads[k].pc.target;
    assert s1 == s.(lock := Writer(k), threads := s.threads[k := t.(pc := WritingSample(g))]);
    assert s2 == s.(lock := Writer(k), threads := s.threads[k := t.(pc := WritingTime(g))],
                    slots := s.slots[k := s.slots[k].(sample := Some(e.sample))]);
  }

  lemma UpdateEnds(cfgs: seq<Config>, s: State, s3: State, k: nat)
    requires Shaped(cfgs, s) && k < |cfgs| && s.threads[k].pc.Locking? && s.lock.Free?
    requires s3 == HalfWay(cfgs, s, k) && Shaped(cfgs, s3)
    requires Shaped(cfgs, Step(cfgs, s3, Produce(k)))
    ensures Step(cfgs, Step(cfgs, s3, Produce(k)), Produce(k)) == AfterUpdate(cfgs, s, k)
  {
    var t, e, g := s.threads[k], AtEvent(cfgs[k], s.threads[k]), s.threads[k].pc.target;
    assert Step(cfgs, s3, Produce(k)) == s3.(
      threads := s.threads[k := t.(pc := Unlocking(g, s.now))],
      slots := s.slots[k := Slot(Some(e.sample), s.now, e.tsMs)]);
  }

  // ---- A snapshot ----

  /** The machine when the reader has left with the snapshot of one moment. */
  function AfterSnapshot(cfgs: seq<Config>, s: State, now: int): State
    requires Shaped(cfgs, s)
  {
    var snap := SnapshotOf(Thresholds(cfgs), s.slots, now);
    s.(lock := Free, reader := Outside, taken := s.taken + [Taken(snap, now, Counts(s.threads))])
  }

  function Copied(snap: Snapshot): nat {
    |snap.samples| + |snap.sourceTsMs| + |snap.stale|
  }

  lemma CopyFieldCounts(cfgs: seq<Config>, slots: seq<Slot>, now: int, snap: Snapshot)
    requires |cfgs| == |slots| && |snap.stale| < |slots|
    requires Partial(SnapshotOf(Thresholds(cfgs), slots, now), snap)
    ensures Copied(CopyField(cfgs, slots, now, snap)) == Copied(snap) + 1 <= 3 * |slots|
  {}

  lemma {:induction false} ReadsFinish(cfgs: seq<Config>, s: State, n: nat)
    requires Shaped(cfgs, s) && s.reader.Copying?
    requires Partial(SnapshotOf(Thresholds(cfgs), s.slots, s.reader.now), s.reader.snap)
    requires n == 3 * |s.slots| - Copied(s.reader.snap)
    ensures Run(cfgs, s, Times(Read, n + 1)) == AfterSnapshot(cfgs, s, s.reader.now)
    decreases n
  {
    var now, snap := s.reader.now, s.reader.snap;
    RunOnce(cfgs, s, Read, n);
    if |snap.stale| < |s.slots| {
      CopyFieldIsPartial(cfgs, s.slots, now, snap);
      CopyFieldCounts(cfgs, s.slots, now, snap);
      ReadsFinish(cfgs, Step(cfgs, s, Read), n - 1);
    } else {
      assert snap == SnapshotOf(Thresholds(cfgs), s.slots, now);
    }
  }

  /** The reader with the lock and the time, and nothing copied. */
  function Reading(s: State): State {
    s.(lock := ReaderHolds, reader := Copying(s.now, Snapshot([], [], [])))
  }

  lemma ReaderEnters(cfgs: seq<Config>, s: State, n: nat)
    requires Shaped(cfgs, s) && s.lock.Free? && s.reader.Outside?
    ensures Shaped(cfgs, Reading(s)) && Run(cfgs, s, Times(Read, n + 2)) == Run(cfgs, Reading(s), Times(Read, n))
  {
    var s1 := s.(lock := ReaderHolds, reader := Entered);
    RunOnce(cfgs, s, Read, n + 1);
    assert Step(cfgs, s, Read) == s1;
    RunOnce(cfgs, s1, Read, n);
  }

  lemma ReadingLeavesNoTrace(cfgs: seq<Config>, s: State)
    requires Shaped(cfgs, s) && Shaped(cfgs, Reading(s))
    ensures AfterSnapshot(cfgs, Reading(s), s.now) == AfterSnapshot(cfgs, s, s.now)
    ensures Partial(SnapshotOf(Thresholds(cfgs), s.slots, s.now), Snapshot([], [], []))
  {}

  /** Lock, clock, three fields a sensor, unlock. */
  lemma SnapshotAlone(cfgs: seq<Config>, s: State, n: nat)
    requires Shaped(cfgs, s) && s.lock.Free? && s.reader.Outside? && n == 3 * |cfgs| + 3
    ensures Run(cfgs, s, Times(Read, n)) == AfterSnapshot(cfgs, s, s.now)
  {
    ReaderEnters(cfgs, s, n - 2);
    ReadingLeavesNoTrace(cfgs, s);
    ReadsFinish(cfgs, Reading(s), n - 3);
  }

  // ---- The state manager's methods ----

  /** The method of the manager that producer k calls does what the producer's five steps do. */
  method UpdateByManager(mgr: VehicleStateManager, sample: Sample, tsMs: int, now: int, k: nat,
                         ghost cfgs: seq<Config>, ghost s: State)
    requires |cfgs| == 3 && k < 3 && Shaped(cfgs, s) && s.threads[k].pc.Locking? && s.lock.Free?
    requires mgr.Slots() == s.slots && now == s.now
    requires AtEvent(cfgs[k], s.threads[k]) == Event(tsMs, sample)
    modifies mgr
    ensures mgr.Slots() == Run(cfgs, s, Times(Produce(k), 5)).slots
  {
    UpdateAlone(cfgs, s, k);
    if k == 0 {
      mgr.UpdateGps(sample, tsMs, now);
    } else if k == 1 {
      mgr.UpdateImu(sample, tsMs, now);
    } else {
      mgr.UpdateEncoder(sample, tsMs, now);
    }
  }

  /** The manager's snapshot is the one the reader's steps take. */
  method SnapshotByManager(mgr: VehicleStateManager, now: int, ghost cfgs: seq<Config>, ghost s: State)
    returns (snap: Snapshot)
    requires |cfgs| == 3 && Shaped(cfgs, s) && s.lock.Free? && s.reader.Outside?
    requires Thresholds(cfgs) == [GPS_STALE_AFTER, IMU_STALE_AFTER, ENCODER_STALE_AFTER]
    requires mgr.Slots() == s.slots && now == s.now
    ensures Run(cfgs, s, Times(Read, 3 * |cfgs| + 3)).taken == s.taken + [Taken(snap, now, Counts(s.threads))]
  {
    snap := mgr.TakeSnapshot(now);
    SnapshotAlone(cfgs, s, 3 * |cfgs| + 3);
  }
}
