/** The promises of the replay, for every schedule of producers, stopper, reader and clock. */
module ReplayLaws {
  import opened Options
  import opened VehicleState
  import opened ReplayProducer
  import opened ReplayMachine
  import opened ReplayThread
  import opened ReplaySystem

  function AfterRun(cfgs: seq<Config>, now: int, actions: seq<Action>): (s: State)
    ensures Shaped(cfgs, s)
  {
    Run(cfgs, Init(cfgs, now), actions)
  }

  lemma ReachableKept(cfgs: seq<Config>, now: int, actions: seq<Action>)
    ensures Kept(cfgs, AfterRun(cfgs, now, actions))
  {
    InitKept(cfgs, now);
    RunKeeps(cfgs, Init(cfgs, now), actions);
  }

  // ---- What a producer has done ----

  /** Applied is a front of the events; a finished producer has applied all of them or was
      told to stop. */
  lemma ProducersApplyInOrder(cfgs: seq<Config>, now: int, actions: seq<Action>, k: nat)
    requires k < |cfgs|
    ensures var t := AfterRun(cfgs, now, actions).threads[k];
      && |t.applied| <= |cfgs[k].events|
      && (forall i :: 0 <= i < |t.applied| ==> t.applied[i].event == cfgs[k].events[i])
      && (t.finished ==> t.stopRequested || |t.applied| == |cfgs[k].events|)
  {
    ReachableKept(cfgs, now, actions);
    assert ThreadKept(cfgs[k], AfterRun(cfgs, now, actions).threads[k], AfterRun(cfgs, now, actions).now);
  }

  /** No event is applied before it is due, and none after one that follows it. */
  lemma ProducersApplyOnTime(cfgs: seq<Config>, now: int, actions: seq<Action>, k: nat, i: nat)
    requires k < |cfgs| && i < |AfterRun(cfgs, now, actions).threads[k].applied|
    ensures var s := AfterRun(cfgs, now, actions);
      var t := s.threads[k];
      && i < |cfgs[k].events|
      && Due(cfgs[k], t.stall, i) <= t.applied[i].at <= s.now
      && (i > 0 ==> t.applied[i - 1].at <= t.applied[i].at)
  {
    ReachableKept(cfgs, now, actions);
    var s := AfterRun(cfgs, now, actions);
    assert ThreadKept(cfgs[k], s.threads[k], s.now);
    assert Timely(cfgs[k], s.threads[k], s.now, i);
  }

  /** The stall is before the first event that calls for one, leaves its duration silent, and
      makes nothing behind it due before it ended. */
  lemma StallsKeepSilence(cfgs: seq<Config>, now: int, actions: seq<Action>, k: nat, i: nat)
    requires k < |cfgs| && IsSorted(cfgs[k].events)
    requires var t := AfterRun(cfgs, now, actions).threads[k]; t.stall.Some? && i < |t.applied|
    ensures var t := AfterRun(cfgs, now, actions).threads[k];
      var st := t.stall.value;
      && st.index < |cfgs[k].events| && cfgs[k].events[st.index].tsMs >= cfgs[k].stallAfterMs >= 0
      && (forall j :: 0 <= j < st.index ==> cfgs[k].events[j].tsMs < cfgs[k].stallAfterMs)
      && (i < st.index ==> t.applied[i].at <= st.began)
      && (i >= st.index ==> st.resumed.Some? && i < |cfgs[k].events|)
      && (i >= st.index ==>
          t.applied[i].at >= Due(cfgs[k], t.stall, i) >= st.resumed.value >= st.began + cfgs[k].stallDurationMs * 1_000_000)
  {
    ReachableKept(cfgs, now, actions);
    var s := AfterRun(cfgs, now, actions);
    var t := s.threads[k];
    assert ThreadKept(cfgs[k], t, s.now);
    StallIsSilent(cfgs[k], t, s.now, i);
    assert Timely(cfgs[k], t, s.now, i);
    if i >= t.stall.value.index {
      ResumedOriginIsLate(cfgs[k], t.stall.value, i);
    }
  }

  /** Without a stall no applied event called for one: it is never skipped. */
  lemma StallsAreNotSkipped(cfgs: seq<Config>, now: int, actions: seq<Action>, k: nat, i: nat)
    requires k < |cfgs|
    requires var t := AfterRun(cfgs, now, actions).threads[k];
      i < |t.applied| && i < |cfgs[k].events| && cfgs[k].events[i].tsMs >= cfgs[k].stallAfterMs >= 0
    ensures AfterRun(cfgs, now, actions).threads[k].stall.Some?
  {
    ReachableKept(cfgs, now, actions);
    var s := AfterRun(cfgs, now, actions);
    assert ThreadKept(cfgs[k], s.threads[k], s.now);
  }

  /** The stall after is the stall before, at most with its end filled in. */
  predicate SameStall(before: Option<Stall>, after: Option<Stall>) {
    before.Some? ==>
      && after.Some? && after.value.index == before.value.index && after.value.began == before.value.began
      && (before.value.resumed.Some? ==> after.value.resumed == before.value.resumed)
  }

  lemma AloneKeepsStallOnce(cfg: Config, t: Thread, now: int)
    requires InLoop(cfg, t) && StallKept(cfg, t, now) && StepAlone(cfg, t, now).Some?
    ensures SameStall(t.stall, StepAlone(cfg, t, now).value.stall)
  {}

  lemma ThreadKeepsStall(cfg: Config, id: nat, t: Thread, lock: Holder, slot: Slot, now: int)
    requires InLoop(cfg, t) && StallKept(cfg, t, now) && StepThread(cfg, id, t, lock, slot, now).Some?
    ensures SameStall(t.stall, StepThread(cfg, id, t, lock, slot, now).value.t.stall)
  {
    if StepAlone(cfg, t, now).Some? {
      AloneKeepsStallOnce(cfg, t, now);
    }
  }

  lemma StepKeepsStall(cfgs: seq<Config>, s: State, a: Action, k: nat)
    requires Kept(cfgs, s) && k < |cfgs|
    ensures Shaped(cfgs, Step(cfgs, s, a)) && SameStall(s.threads[k].stall, Step(cfgs, s, a).threads[k].stall)
  {
    StepIsShaped(cfgs, s, a);
    assert ThreadKept(cfgs[k], s.threads[k], s.now);
    if a == Produce(k) && StepThread(cfgs[k], k, s.threads[k], s.lock, s.slots[k], s.now).Some? {
      ThreadKeepsStall(cfgs[k], k, s.threads[k], s.lock, s.slots[k], s.now);
    }
  }

  /** A producer stalls at most once: no run changes a stall that has begun. */
  lemma {:induction false} StallsHappenOnce(cfgs: seq<Config>, s: State, actions: seq<Action>, k: nat)
    requires Kept(cfgs, s) && k < |cfgs|
    ensures SameStall(s.threads[k].stall, Run(cfgs, s, actions).threads[k].stall)
    decreases |actions|
  {
    if actions != [] {
      StepKeepsStall(cfgs, s, actions[0], k);
      StepKeeps(cfgs, s, actions[0]);
      StallsHappenOnce(cfgs, Step(cfgs, s, actions[0]), actions[1..], k);
    }
  }

  // ---- Shutdown ----

  lemma StopMarkStays(cfgs: seq<Config>, s: State, a: Action, k: nat)
    requires Shaped(cfgs, s) && k < |cfgs| && s.threads[k].appliedAtStop.Some?
    ensures Shaped(cfgs, Step(cfgs, s, a))
    ensures Step(cfgs, s, a).threads[k].appliedAtStop == s.threads[k].appliedAtStop
  {
    StepIsShaped(cfgs, s, a);
  }

  lemma {:induction false} StopMarkStaysThroughout(cfgs: seq<Config>, s: State, actions: seq<Action>, k: nat)
    requires Shaped(cfgs, s) && k < |cfgs| && s.threads[k].appliedAtStop.Some?
    ensures Run(cfgs, s, actions).threads[k].appliedAtStop == s.threads[k].appliedAtStop
    decreases |actions|
  {
    if actions != [] {
      StopMarkStays(cfgs, s, actions[0], k);
      StopMarkStaysThroughout(cfgs, Step(cfgs, s, actions[0]), actions[1..], k);
    }
  }

  /** Once stop is requested a producer applies at most one more event, however long it runs. */
  lemma AtMostOneAfterStop(cfgs: seq<Config>, now: int, before: seq<Action>, after: seq<Action>, k: nat)
    requires k < |cfgs|
    ensures var s := AfterRun(cfgs, now, before);
      && Shaped(cfgs, Step(cfgs, s, Stop(k)))
      && |Run(cfgs, Step(cfgs, s, Stop(k)), after).threads[k].applied| <= |s.threads[k].applied| + 1
  {
    var s := AfterRun(cfgs, now, before);
    ReachableKept(cfgs, now, before);
    StepKeeps(cfgs, s, Stop(k));
    var stopped := Step(cfgs, s, Stop(k));
    RunKeeps(cfgs, stopped, after);
    StopMarkStaysThroughout(cfgs, stopped, after, k);
    var end := Run(cfgs, stopped, after);
    assert ThreadKept(cfgs[k], stopped.threads[k], stopped.now);
    assert ThreadKept(cfgs[k], end.threads[k], end.now);
    assert ThreadKept(cfgs[k], s.threads[k], s.now);
  }

  /** Told to stop and not past its last look at the flag. */
  predicate Halting(t: Thread) {
    t.stopRequested && !Committed(t.pc)
  }

  lemma HaltingStays(cfgs: seq<Config>, s: State, a: Action, k: nat)
    requires Shaped(cfgs, s) && k < |cfgs| && Halting(s.threads[k])
    ensures Shaped(cfgs, Step(cfgs, s, a))
    ensures var t := Step(cfgs, s, a).threads[k]; Halting(t) && t.applied == s.threads[k].applied
  {
    StepIsShaped(cfgs, s, a);
  }

  lemma {:induction false} HaltingAppliesNothing(cfgs: seq<Config>, s: State, actions: seq<Action>, k: nat)
    requires Shaped(cfgs, s) && k < |cfgs| && Halting(s.threads[k])
    ensures Run(cfgs, s, actions).threads[k].applied == s.threads[k].applied
    decreases |actions|
  {
    if actions != [] {
      HaltingStays(cfgs, s, actions[0], k);
      HaltingAppliesNothing(cfgs, Step(cfgs, s, actions[0]), actions[1..], k);
    }
  }

  /** And none, unless it was already past its last look at the flag. */
  lemma NoneAfterStop(cfgs: seq<Config>, now: int, before: seq<Action>, after: seq<Action>, k: nat)
    requires k < |cfgs| && !Committed(AfterRun(cfgs, now, before).threads[k].pc)
    ensures var s := AfterRun(cfgs, now, before);
      && Shaped(cfgs, Step(cfgs, s, Stop(k)))
      && Run(cfgs, Step(cfgs, s, Stop(k)), after).threads[k].applied == s.threads[k].applied
  {
    var s := AfterRun(cfgs, now, before);
    StepIsShaped(cfgs, s, Stop(k));
    HaltingAppliesNothing(cfgs, Step(cfgs, s, Stop(k)), after, k);
  }

  /** The turns producer k is given once the clock has passed what it waits for and the lock
      is not taken: turns that need no wake-up. */
  function Turns(cfgs: seq<Config>, s: State, actions: seq<Action>, k: nat): nat
    requires Shaped(cfgs, s) && k < |cfgs|
    decreases |actions|
  {
    if actions == [] then 0
    else
      StepIsShaped(cfgs, s, actions[0]);
      (if actions[0] == Produce(k) && Ready(s.threads[k], s.lock, s.now) then 1 else 0) +
      Turns(cfgs, Step(cfgs, s, actions[0]), actions[1..], k)
  }

  lemma StepLowersRank(cfgs: seq<Config>, s: State, a: Action, k: nat)
    requires Shaped(cfgs, s) && k < |cfgs|
    ensures Shaped(cfgs, Step(cfgs, s, a))
    ensures Rank(cfgs[k], Step(cfgs, s, a).threads[k]) +
      (if a == Produce(k) && Ready(s.threads[k], s.lock, s.now) then 1 else 0) <= Rank(cfgs[k], s.threads[k])
  {
    StepIsShaped(cfgs, s, a);
    if a == Produce(k) {
      if StepThread(cfgs[k], k, s.threads[k], s.lock, s.slots[k], s.now).Some? {
        RankFalls(cfgs[k], k, s.threads[k], s.lock, s.slots[k], s.now);
      }
      ReadyMoves(cfgs[k], k, s.threads[k], s.lock, s.slots[k], s.now);
    }
  }

  lemma {:induction false} TurnsLowerRank(cfgs: seq<Config>, s: State, actions: seq<Action>, k: nat)
    requires Shaped(cfgs, s) && k < |cfgs|
    ensures Rank(cfgs[k], Run(cfgs, s, actions).threads[k]) + Turns(cfgs, s, actions, k) <= Rank(cfgs[k], s.threads[k])
    decreases |actions|
  {
    if actions != [] {
      StepLowersRank(cfgs, s, actions[0], k);
      TurnsLowerRank(cfgs, Step(cfgs, s, actions[0]), actions[1..], k);
    }
  }

  /** A producer with n events finishes within 12 (n + 1) such turns, with or without a stop,
      even if every notification is lost. */
  lemma ProducersTerminate(cfgs: seq<Config>, now: int, actions: seq<Action>, k: nat)
    requires k < |cfgs| && Turns(cfgs, Init(cfgs, now), actions, k) >= 12 * (|cfgs[k].events| + 1)
    ensures AfterRun(cfgs, now, actions).threads[k].finished
  {
    var s := AfterRun(cfgs, now, actions);
    TurnsLowerRank(cfgs, Init(cfgs, now), actions, k);
    ReachableKept(cfgs, now, actions);
    assert Rank(cfgs[k], s.threads[k]) == 0;
    assert ThreadKept(cfgs[k], s.threads[k], s.now);
  }

  function ReaderLeft(s: State): nat {
    match s.reader
    case Outside => 0
    case Entered => 3 * |s.slots| + 2
    case Copying(_, snap) =>
      var copied := |snap.samples| + |snap.sourceTsMs| + |snap.stale|;
      if copied > 3 * |s.slots| then 1 else 3 * |s.slots| + 1 - copied
  }

  /** Such turns keep coming as the clock advances: a producer that is not done is ready once
      the clock passes its deadline, unless another holds the lock; and whoever holds the lock
      can always move toward releasing it. */
  lemma NobodyWaitsForever(cfgs: seq<Config>, now: int, actions: seq<Action>, k: nat)
    requires k < |cfgs|
    ensures var s := AfterRun(cfgs, now, actions);
      var t := s.threads[k];
      && (t.pc.Done? || Ready(t, s.lock, s.now) || (t.pc.Locking? && !s.lock.Free?)
          || (t.pc.Waiting? && s.now < t.pc.target) || (t.pc.Stalling? && s.now < t.pc.until))
      && (s.lock.Writer? ==> s.lock.id < |cfgs| && Ready(s.threads[s.lock.id], s.lock, s.now))
      && (s.lock.ReaderHolds? ==> ReaderLeft(StepReader(cfgs, s)) < ReaderLeft(s))
  {
    var s := AfterRun(cfgs, now, actions);
    ReachableKept(cfgs, now, actions);
    if s.lock.ReaderHolds? && s.reader.Copying? {
      var whole := SnapshotOf(Thresholds(cfgs), s.slots, s.reader.now);
      assert |s.reader.snap.samples| <= |whole.samples|;
    }
  }

  // ---- Snapshots ----

  /** Each sensor's entry in a snapshot is one event of that sensor, sample and timestamp
      together, of age at least zero, and stale exactly when there is none or it is older than
      the threshold. */
  lemma SnapshotsAreConsistent(cfgs: seq<Config>, now: int, actions: seq<Action>, i: nat, k: nat)
    requires k < |cfgs| && i < |AfterRun(cfgs, now, actions).taken|
    ensures var s := AfterRun(cfgs, now, actions);
      var x := s.taken[i];
      && k < |x.counts| && k < |x.snap.samples| && k < |x.snap.sourceTsMs| && k < |x.snap.stale|
      && x.counts[k] <= |s.threads[k].applied|
      && if x.counts[k] == 0 then
           x.snap.samples[k] == None && x.snap.sourceTsMs[k] == -1 && x.snap.stale[k]
         else
           var a := s.threads[k].applied[x.counts[k] - 1];
           && x.snap.samples[k] == Some(a.event.sample) && x.snap.sourceTsMs[k] == a.event.tsMs
           && x.now - a.at >= 0
           && (x.snap.stale[k] <==> x.now - a.at > cfgs[k].staleAfterMs * 1_000_000)
  {
    ReachableKept(cfgs, now, actions);
    var s := AfterRun(cfgs, now, actions);
    var x := s.taken[i];
    assert Atomic(cfgs, s.threads, x);
    SlotAfter(s.threads[k].applied, x.counts[k]);
  }

  lemma SlotAfter(applied: seq<Application>, c: nat)
    requires c <= |applied|
    ensures SlotOf(applied[..c]) ==
      if c == 0 then EMPTY_SLOT
      else Slot(Some(applied[c - 1].event.sample), applied[c - 1].at, applied[c - 1].event.tsMs)
  {}

  /** What the stall is for: a snapshot taken more than the threshold after it began, and before
      the producer resumes, shows the sensor stale. */
  lemma StallsShowStale(cfgs: seq<Config>, now: int, actions: seq<Action>, i: nat, k: nat)
    requires k < |cfgs| && IsSorted(cfgs[k].events) && i < |AfterRun(cfgs, now, actions).taken|
    requires var s := AfterRun(cfgs, now, actions);
      var stall := s.threads[k].stall;
      && stall.Some? && s.taken[i].now > stall.value.began + cfgs[k].staleAfterMs * 1_000_000
      && (stall.value.resumed.Some? ==> s.taken[i].now < stall.value.resumed.value)
    ensures var x := AfterRun(cfgs, now, actions).taken[i];
      k < |x.snap.stale| && x.snap.stale[k]
  {
    var x := AfterRun(cfgs, now, actions).taken[i];
    SnapshotsAreConsistent(cfgs, now, actions, i, k);
    if x.counts[k] > 0 {
      StallsKeepSilence(cfgs, now, actions, k, x.counts[k] - 1);
    }
  }

  /** From one snapshot to a later one no sensor's timestamp goes back, unless it was still the
      -1 of no sample and the sensor's own timestamps begin below that. */
  lemma SnapshotsNeverGoBack(cfgs: seq<Config>, now: int, actions: seq<Action>, i: nat, j: nat, k: nat)
    requires k < |cfgs| && IsSorted(cfgs[k].events)
    requires i < j < |AfterRun(cfgs, now, actions).taken|
    ensures var s := AfterRun(cfgs, now, actions);
      var x, y := s.taken[i], s.taken[j];
      && k < |x.snap.sourceTsMs| && k < |y.snap.sourceTsMs| && k < |x.snap.samples| && k < |y.snap.samples|
      && x.now <= y.now
      && (x.snap.samples[k].Some? ==> y.snap.samples[k].Some? && x.snap.sourceTsMs[k] <= y.snap.sourceTsMs[k])
      && ((forall e :: 0 <= e < |cfgs[k].events| ==> cfgs[k].events[e].tsMs >= -1) ==>
          x.snap.sourceTsMs[k] <= y.snap.sourceTsMs[k])
      && (x.snap.sourceTsMs[k] > y.snap.sourceTsMs[k] <==>
          x.snap.samples[k].None? && y.snap.samples[k].Some? && y.snap.sourceTsMs[k] < -1)
  {
    var s := AfterRun(cfgs, now, actions);
    ReachableKept(cfgs, now, actions);
    SnapshotsAreConsistent(cfgs, now, actions, i, k);
    SnapshotsAreConsistent(cfgs, now, actions, j, k);
    assert NotAfter(s.taken[i], s.taken[j]);
    ProducersApplyInOrder(cfgs, now, actions, k);
  }
}
