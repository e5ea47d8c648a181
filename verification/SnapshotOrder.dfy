/** When the timestamps a reader sees never go back, for every schedule. */
module SnapshotOrder {
  import opened Options
  import opened VehicleState
  import opened ReplayProducer
  import opened ReplayMachine
  import opened ReplaySystem
  import opened ReplayLaws
  import opened ReplayAlone

  // ---- A schedule on which one goes back ----

  /** Producer k before its first update, everything else as in the beginning. */
  function AtUpdate(cfgs: seq<Config>, k: nat, now: int, target: int): State
    requires k < |cfgs|
  {
    var s := Init(cfgs, now);
    s.(threads := s.threads[k := Begun(cfgs[k]).(pc := Locking(target))])
  }

  /** When the time of the first event has come, three steps lead to its update. */
  lemma {:induction false} ReachesUpdate(cfgs: seq<Config>, k: nat, now: int, target: int)
    requires k < |cfgs| && cfgs[k].events != [] && !Stalls(cfgs[k], cfgs[k].events[0])
    requires target == Target(cfgs[k].start, cfgs[k].events[0].tsMs, cfgs[k].speed) <= now
    ensures Run(cfgs, Init(cfgs, now), Times(Produce(k), 3)) == AtUpdate(cfgs, k, now, target)
  {
    var s, begun := Init(cfgs, now), Begun(cfgs[k]);
    var s1 := Step(cfgs, s, Produce(k));
    RunOnce(cfgs, s, Produce(k), 2);
    assert s1 == s.(threads := s.threads[k := begun.(pc := Waiting(target))]);
    var s2 := Step(cfgs, s1, Produce(k));
    RunOnce(cfgs, s1, Produce(k), 1);
    assert s2 == s.(threads := s.threads[k := begun.(pc := Woken(target))]);
    RunOnce(cfgs, s2, Produce(k), 0);
  }

  lemma {:induction false} TickReachesUpdate(cfgs: seq<Config>, k: nat, now: int, later: int, target: int)
    requires k < |cfgs| && cfgs[k].events != [] && !Stalls(cfgs[k], cfgs[k].events[0])
    requires target == Target(cfgs[k].start, cfgs[k].events[0].tsMs, cfgs[k].speed) <= later && now <= later
    ensures Run(cfgs, Init(cfgs, now), [Tick(later)] + Times(Produce(k), 3)) == AtUpdate(cfgs, k, later, target)
  {
    RunOne(cfgs, Init(cfgs, now), Tick(later));
    assert Step(cfgs, Init(cfgs, now), Tick(later)) == Init(cfgs, later);
    RunConcat(cfgs, Init(cfgs, now), [Tick(later)], Times(Produce(k), 3));
    ReachesUpdate(cfgs, k, later, target);
  }

  /** A snapshot before an update and one behind it. */
  lemma {:induction false} LookUpdateLook(cfgs: seq<Config>, s: State, k: nat, n: nat,
                                        look: seq<Action>, update: seq<Action>)
    requires Shaped(cfgs, s) && k < |cfgs| && s.threads[k].pc.Locking? && s.lock.Free? && s.reader.Outside?
    requires n == 3 * |cfgs| + 3 && look == Times(Read, n) && update == Times(Produce(k), 5)
    ensures var first := AfterSnapshot(cfgs, s, s.now);
      var second := AfterUpdate(cfgs, first, k);
      Run(cfgs, s, look + (update + look)) == AfterSnapshot(cfgs, second, s.now)
  {
    SnapshotAlone(cfgs, s, n);
    var first := AfterSnapshot(cfgs, s, s.now);
    UpdateAlone(cfgs, first, k);
    var second := AfterUpdate(cfgs, first, k);
    SnapshotAlone(cfgs, second, n);
    RunConcat(cfgs, s, look, update + look);
    RunConcat(cfgs, first, update, look);
  }

  lemma {:induction false} LooksAround(cfgs: seq<Config>, k: nat, now: int, target: int)
    requires k < |cfgs| && cfgs[k].events != []
    ensures var s := AtUpdate(cfgs, k, now, target);
      var taken := AfterSnapshot(cfgs, AfterUpdate(cfgs, AfterSnapshot(cfgs, s, now), k), now).taken;
      Shows(taken, k, -1, cfgs[k].events[0].tsMs)
  {}

  /** Two snapshots, with these timestamps of sensor k. */
  predicate Shows(taken: seq<Taken>, k: nat, first: int, second: int) {
    && |taken| == 2 && k < |taken[0].snap.sourceTsMs| && k < |taken[1].snap.sourceTsMs|
    && taken[0].snap.sourceTsMs[k] == first && taken[1].snap.sourceTsMs[k] == second
  }

  /** A sensor whose first timestamp is below -1 shows -1 before that event and it after. */
  lemma {:induction false} NegativeTimestampGoesBack(cfgs: seq<Config>, now: int, k: nat) returns (actions: seq<Action>)
    requires k < |cfgs| && cfgs[k].events != [] && cfgs[k].events[0].tsMs < -1
    ensures Shows(AfterRun(cfgs, now, actions).taken, k, -1, cfgs[k].events[0].tsMs)
  {
    var target := Target(cfgs[k].start, cfgs[k].events[0].tsMs, cfgs[k].speed);
    var later := if now < target then target else now;
    var n, s := 3 * |cfgs| + 3, AtUpdate(cfgs, k, later, target);
    var reach, look, update := [Tick(later)] + Times(Produce(k), 3), Times(Read, n), Times(Produce(k), 5);
    actions := reach + (look + (update + look));
    TickReachesUpdate(cfgs, k, now, later, target);
    LookUpdateLook(cfgs, s, k, n, look, update);
    RunConcat(cfgs, Init(cfgs, now), reach, look + (update + look));
    LooksAround(cfgs, k, later, target);
  }

  // ---- Exactly when none does ----

  predicate NeverBack(taken: seq<Taken>, k: nat) {
    forall i, j :: 0 <= i < j < |taken| ==> NotBack(taken[i].snap, taken[j].snap, k)
  }

  predicate NotBack(x: Snapshot, y: Snapshot, k: nat) {
    k < |x.sourceTsMs| && k < |y.sourceTsMs| && x.sourceTsMs[k] <= y.sourceTsMs[k]
  }

  /** A sorted log whose first timestamp is not below -1: no schedule shows the sensor go back. */
  lemma {:induction false} SortedLogNeverGoesBack(cfgs: seq<Config>, now: int, actions: seq<Action>, k: nat)
    requires k < |cfgs| && IsSorted(cfgs[k].events)
    requires cfgs[k].events == [] || cfgs[k].events[0].tsMs >= -1
    ensures NeverBack(AfterRun(cfgs, now, actions).taken, k)
  {
    var taken := AfterRun(cfgs, now, actions).taken;
    forall i, j | 0 <= i < j < |taken|
      ensures NotBack(taken[i].snap, taken[j].snap, k)
    {
      SnapshotsNeverGoBack(cfgs, now, actions, i, j, k);
    }
  }

  /** No schedule shows a sensor's timestamp go back if and only if its log is empty or begins
      at -1 or later: -1 is what a snapshot shows of a sensor that has sent nothing. */
  lemma {:induction false} NeverBackIff(cfgs: seq<Config>, now: int, k: nat)
    requires k < |cfgs| && IsSorted(cfgs[k].events)
    ensures (forall actions: seq<Action> :: NeverBack(AfterRun(cfgs, now, actions).taken, k)) <==>
      cfgs[k].events == [] || cfgs[k].events[0].tsMs >= -1
  {
    if cfgs[k].events == [] || cfgs[k].events[0].tsMs >= -1 {
      forall actions: seq<Action>
        ensures NeverBack(AfterRun(cfgs, now, actions).taken, k)
      {
        SortedLogNeverGoesBack(cfgs, now, actions, k);
      }
    } else {
      var actions := NegativeTimestampGoesBack(cfgs, now, k);
      var taken := AfterRun(cfgs, now, actions).taken;
      assert !NotBack(taken[0].snap, taken[1].snap, k);
    }
  }
}
