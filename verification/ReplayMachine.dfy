/** The replay as interleaved steps: producer threads running sensor_producer.cpp's run, a
    stopper, a reader taking snapshots, one state lock, and a clock that advances at will.
    A wait may end once its deadline has passed or the stop flag is set, and no sooner; that a
    notification wakes it is not assumed, since requestStop notifies without the mutex. */
module ReplayMachine {
  import opened Options
  import opened VehicleState
  import opened ReplayProducer

  /** Where a producer is in run, and what its locals hold there. */
  datatype Pc =
    | Head
    | Stalling(until: int)
    | StallEnded
    | Waiting(target: int)
    | Woken(target: int)
    | Locking(target: int)
    | WritingSample(target: int)
    | WritingTime(target: int)
    | WritingSource(target: int, at: int)
    | Unlocking(target: int, at: int)
    | Leaving
    | Done

  /** One event applied: when it was due and the clock reading stored with it. */
  datatype Application = Application(event: Event, target: int, at: int)

  /** The stall before the event at index. */
  datatype Stall = Stall(index: nat, began: int, resumed: Option<int>)

  /** A producer: locals and members of run, and what it has done so far. */
  datatype Thread = Thread(
    pc: Pc, next: nat, stalledOnce: bool, replayStart: int, stopRequested: bool, finished: bool,
    applied: seq<Application>, stall: Option<Stall>, appliedAtStop: Option<nat>)

  datatype Holder = Free | Writer(id: nat) | ReaderHolds

  // ---- One step of a producer ----

  datatype Moved = Moved(t: Thread, lock: Holder, slot: Slot)

  function AtEvent(cfg: Config, t: Thread): Event
    requires t.next < |cfg.events|
  {
    cfg.events[t.next]
  }

  /** Behind the last event only the loop head and the way out remain. */
  predicate InLoop(cfg: Config, t: Thread) {
    t.pc.Head? || t.pc.Leaving? || t.pc.Done? || t.next < |cfg.events|
  }

  function StepHead(cfg: Config, t: Thread, now: int): Thread {
    if t.next >= |cfg.events| || t.stopRequested then t.(pc := Leaving)
    else if !t.stalledOnce && Stalls(cfg, AtEvent(cfg, t)) then
      t.(pc := Stalling(now + Ms(cfg.stallDurationMs)), stalledOnce := true, stall := Some(Stall(t.next, now, None)))
    else t.(pc := Waiting(Target(t.replayStart, AtEvent(cfg, t).tsMs, cfg.speed)))
  }

  function StepStallEnded(cfg: Config, t: Thread, now: int): Thread
    requires t.next < |cfg.events|
  {
    if t.stopRequested then t.(pc := Leaving)
    else
      var start := now - Ms(Offset(AtEvent(cfg, t).tsMs, cfg.speed));
      t.(replayStart := start,
         stall := (match t.stall case None => None case Some(s) => Some(s.(resumed := Some(now)))),
         pc := Waiting(Target(start, AtEvent(cfg, t).tsMs, cfg.speed)))
  }

  /** The steps outside the critical section. */
  function StepAlone(cfg: Config, t: Thread, now: int): Option<Thread>
    requires InLoop(cfg, t)
  {
    match t.pc
    case Head => Some(StepHead(cfg, t, now))
    case Stalling(until) => if t.stopRequested || now >= until then Some(t.(pc := StallEnded)) else None
    case StallEnded => Some(StepStallEnded(cfg, t, now))
    case Waiting(target) => if t.stopRequested || now >= target then Some(t.(pc := Woken(target))) else None
    case Woken(target) => Some(t.(pc := if t.stopRequested then Leaving else Locking(target)))
    case Leaving => Some(t.(pc := Done, finished := true))
    case _ => None
  }

  /** The steps of update*, field by field under the lock. */
  function StepLocked(cfg: Config, id: nat, t: Thread, lock: Holder, slot: Slot, now: int): Option<Moved>
    requires InLoop(cfg, t)
  {
    match t.pc
    case Locking(target) =>
      if lock.Free? then Some(Moved(t.(pc := WritingSample(target)), Writer(id), slot)) else None
    case WritingSample(target) =>
      Some(Moved(t.(pc := WritingTime(target)), lock, slot.(sample := Some(AtEvent(cfg, t).sample))))
    case WritingTime(target) =>
      Some(Moved(t.(pc := WritingSource(target, now)), lock, slot.(lastUpdate := now)))
    case WritingSource(target, at) =>
      Some(Moved(t.(pc := Unlocking(target, at)), lock, slot.(sourceTsMs := AtEvent(cfg, t).tsMs)))
    case Unlocking(target, at) =>
      Some(Moved(
        t.(pc := Head, next := t.next + 1, applied := t.applied + [Application(AtEvent(cfg, t), target, at)]),
        Free, slot))
    case _ => None
  }

  function StepThread(cfg: Config, id: nat, t: Thread, lock: Holder, slot: Slot, now: int): Option<Moved>
    requires InLoop(cfg, t)
  {
    match StepAlone(cfg, t, now)
    case Some(t') => Some(Moved(t', lock, slot))
    case None => StepLocked(cfg, id, t, lock, slot, now)
  }

  /** requestStop. */
  function Stopped(t: Thread): Thread {
    t.(stopRequested := true,
       appliedAtStop := if t.appliedAtStop.None? then Some(|t.applied|) else t.appliedAtStop)
  }

  // ---- The reader ----

  /** Inside snapshot: before the clock is read, then with the fields copied so far. */
  datatype Reader = Outside | Entered | Copying(now: int, snap: Snapshot)

  /** A snapshot taken, the clock reading it used, and how many events of each producer had
      been applied. */
  datatype Taken = Taken(snap: Snapshot, now: int, counts: seq<nat>)

  /** The next field of the snapshot, in the order of the source. */
  function CopyField(cfgs: seq<Config>, slots: seq<Slot>, now: int, snap: Snapshot): Snapshot
    requires |cfgs| == |slots|
  {
    if |snap.samples| < |slots| then snap.(samples := snap.samples + [slots[|snap.samples|].sample])
    else if |snap.sourceTsMs| < |slots| then
      snap.(sourceTsMs := snap.sourceTsMs + [slots[|snap.sourceTsMs|].sourceTsMs])
    else if |snap.stale| < |slots| then
      snap.(stale := snap.stale + [IsStale(slots[|snap.stale|], cfgs[|snap.stale|].staleAfterMs, now)])
    else snap
  }

  // ---- The whole system ----

  datatype State = State(
    now: int, lock: Holder, slots: seq<Slot>, threads: seq<Thread>, reader: Reader, taken: seq<Taken>)

  datatype Action = Tick(to: int) | Stop(id: nat) | Produce(id: nat) | Read

  predicate Shaped(cfgs: seq<Config>, s: State) {
    && |cfgs| == |s.slots| == |s.threads|
    && forall k :: 0 <= k < |cfgs| ==> InLoop(cfgs[k], s.threads[k])
  }

  function Counts(threads: seq<Thread>): seq<nat> {
    seq(|threads|, k requires 0 <= k < |threads| => |threads[k].applied|)
  }

  function StepReader(cfgs: seq<Config>, s: State): State
    requires Shaped(cfgs, s)
  {
    match s.reader
    case Outside => if s.lock.Free? then s.(lock := ReaderHolds, reader := Entered) else s
    case Entered => s.(reader := Copying(s.now, Snapshot([], [], [])))
    case Copying(now, snap) =>
      if |snap.stale| < |s.slots| then s.(reader := Copying(now, CopyField(cfgs, s.slots, now, snap)))
      else s.(lock := Free, reader := Outside, taken := s.taken + [Taken(snap, now, Counts(s.threads))])
  }

  function StepProducer(cfgs: seq<Config>, s: State, k: nat): State
    requires Shaped(cfgs, s) && k < |cfgs|
  {
    match StepThread(cfgs[k], k, s.threads[k], s.lock, s.slots[k], s.now)
    case None => s
    case Some(m) => s.(threads := s.threads[k := m.t], lock := m.lock, slots := s.slots[k := m.slot])
  }

  /** One action; an action that cannot be taken changes nothing. */
  function Step(cfgs: seq<Config>, s: State, a: Action): State
    requires Shaped(cfgs, s)
  {
    match a
    case Tick(to) => if to >= s.now then s.(now := to) else s
    case Stop(k) => if k < |cfgs| then s.(threads := s.threads[k := Stopped(s.threads[k])]) else s
    case Produce(k) => if k < |cfgs| then StepProducer(cfgs, s, k) else s
    case Read => StepReader(cfgs, s)
  }

  lemma StepThreadInLoop(cfg: Config, id: nat, t: Thread, lock: Holder, slot: Slot, now: int)
    requires InLoop(cfg, t)
    ensures match StepThread(cfg, id, t, lock, slot, now) case None => true case Some(m) => InLoop(cfg, m.t)
  {}

  lemma StepIsShaped(cfgs: seq<Config>, s: State, a: Action)
    requires Shaped(cfgs, s)
    ensures Shaped(cfgs, Step(cfgs, s, a))
  {
    if a.Produce? && a.id < |cfgs| {
      StepThreadInLoop(cfgs[a.id], a.id, s.threads[a.id], s.lock, s.slots[a.id], s.now);
    }
  }

  function Begun(cfg: Config): Thread {
    Thread(Head, 0, false, cfg.start, false, false, [], None, None)
  }

  function Init(cfgs: seq<Config>, now: int): (s: State)
    ensures Shaped(cfgs, s)
  {
    State(
      now, Free, seq(|cfgs|, _ => EMPTY_SLOT),
      seq(|cfgs|, k requires 0 <= k < |cfgs| => Begun(cfgs[k])), Outside, [])
  }

  /** Any schedule. */
  function Run(cfgs: seq<Config>, s: State, actions: seq<Action>): (r: State)
    requires Shaped(cfgs, s)
    ensures Shaped(cfgs, r)
    decreases |actions|
  {
    if actions == [] then s
    else
      StepIsShaped(cfgs, s, actions[0]);
      Run(cfgs, Step(cfgs, s, actions[0]), actions[1..])
  }

  lemma {:induction false} RunConcat(cfgs: seq<Config>, s: State, a: seq<Action>, b: seq<Action>)
    requires Shaped(cfgs, s)
    ensures Run(cfgs, s, a + b) == Run(cfgs, Run(cfgs, s, a), b)
    decreases |a|
  {
    if a == [] {
      assert a + b == b;
    } else {
      StepIsShaped(cfgs, s, a[0]);
      assert (a + b)[1..] == a[1..] + b;
      RunConcat(cfgs, Step(cfgs, s, a[0]), a[1..], b);
    }
  }

  lemma RunOne(cfgs: seq<Config>, s: State, a: Action)
    requires Shaped(cfgs, s)
    ensures Shaped(cfgs, Step(cfgs, s, a)) && Run(cfgs, s, [a]) == Step(cfgs, s, a)
  {
    StepIsShaped(cfgs, s, a);
    assert [a][1..] == [];
  }
}
