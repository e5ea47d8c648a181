/** Safety and termination of the replay over every schedule. */
module ReplaySystem {
  import opened Options
  import opened VehicleState
  import opened ReplayProducer
  import opened ReplayMachine
  import opened ReplayThread

  // ---- The shared state ----

  /** A sensor's slot after whole updates. */
  function SlotOf(applied: seq<Application>): Slot {
    if applied == [] then EMPTY_SLOT
    else
      var x := applied[|applied| - 1];
      Slot(Some(x.event.sample), x.at, x.event.tsMs)
  }

  /** A sensor's slot while its update is under way. */
  function SlotDuring(cfg: Config, t: Thread): Slot
    requires InLoop(cfg, t)
  {
    match t.pc
    case WritingTime(_) => SlotOf(t.applied).(sample := Some(AtEvent(cfg, t).sample))
    case WritingSource(_, at) => SlotOf(t.applied).(sample := Some(AtEvent(cfg, t).sample), lastUpdate := at)
    case Unlocking(_, at) => Slot(Some(AtEvent(cfg, t).sample), at, AtEvent(cfg, t).tsMs)
    case _ => SlotOf(t.applied)
  }

  predicate LockKept(s: State) {
    && (forall k: nat :: k < |s.threads| ==> (Holding(s.threads[k].pc) <==> s.lock == Writer(k)))
    && (s.lock.Writer? ==> s.lock.id < |s.threads|)
    && (s.reader.Outside? <==> s.lock != ReaderHolds)
  }

  predicate SlotsKept(cfgs: seq<Config>, s: State)
    requires Shaped(cfgs, s)
  {
    forall k :: 0 <= k < |cfgs| ==> s.slots[k] == SlotDuring(cfgs[k], s.threads[k])
  }

  predicate ThreadsKept(cfgs: seq<Config>, s: State)
    requires Shaped(cfgs, s)
  {
    forall k :: 0 <= k < |cfgs| ==> ThreadKept(cfgs[k], s.threads[k], s.now)
  }

  // ---- Snapshots ----

  function Thresholds(cfgs: seq<Config>): (r: seq<int>)
    ensures |r| == |cfgs|
  {
    seq(|cfgs|, k requires 0 <= k < |cfgs| => cfgs[k].staleAfterMs)
  }

  predicate Counted(threads: seq<Thread>, counts: seq<nat>) {
    |counts| == |threads| && forall k :: 0 <= k < |threads| ==> counts[k] <= |threads[k].applied|
  }

  /** The slots after that many whole updates of each sensor. */
  function SlotsAfter(threads: seq<Thread>, counts: seq<nat>): (r: seq<Slot>)
    requires Counted(threads, counts)
    ensures |r| == |threads|
  {
    seq(|threads|, k requires 0 <= k < |threads| => SlotOf(threads[k].applied[..counts[k]]))
  }

  /** A snapshot is the state between whole updates, taken at one moment that is not before
      any of them. */
  predicate Atomic(cfgs: seq<Config>, threads: seq<Thread>, x: Taken)
    requires |cfgs| == |threads|
  {
    && Counted(threads, x.counts)
    && x.snap == SnapshotOf(Thresholds(cfgs), SlotsAfter(threads, x.counts), x.now)
    && forall k :: 0 <= k < |threads| && x.counts[k] > 0 ==> threads[k].applied[x.counts[k] - 1].at <= x.now
  }

  predicate NotAfter(x: Taken, y: Taken) {
    x.now <= y.now && |x.counts| == |y.counts| && forall k :: 0 <= k < |x.counts| ==> x.counts[k] <= y.counts[k]
  }

  /** The fields copied so far are those of the state. */
  predicate Partial(whole: Snapshot, snap: Snapshot) {
    && snap.samples <= whole.samples && snap.sourceTsMs <= whole.sourceTsMs && snap.stale <= whole.stale
    && (snap.sourceTsMs != [] ==> snap.samples == whole.samples)
    && (snap.stale != [] ==> snap.sourceTsMs == whole.sourceTsMs)
  }

  predicate ReaderKept(cfgs: seq<Config>, s: State)
    requires Shaped(cfgs, s)
  {
    match s.reader
    case Copying(now, snap) =>
      && now <= s.now
      && Partial(SnapshotOf(Thresholds(cfgs), s.slots, now), snap)
      && (forall k :: 0 <= k < |s.threads| ==> NoneLater(s.threads[k], now))
      && (forall i :: 0 <= i < |s.taken| ==> s.taken[i].now <= now)
    case _ => true
  }

  predicate TakenKept(cfgs: seq<Config>, s: State)
    requires Shaped(cfgs, s)
  {
    && (forall i :: 0 <= i < |s.taken| ==> Atomic(cfgs, s.threads, s.taken[i]) && s.taken[i].now <= s.now)
    && (forall i, j :: 0 <= i < j < |s.taken| ==> NotAfter(s.taken[i], s.taken[j]))
  }

  predicate Kept(cfgs: seq<Config>, s: State) {
    && Shaped(cfgs, s) && ThreadsKept(cfgs, s) && LockKept(s) && SlotsKept(cfgs, s)
    && ReaderKept(cfgs, s) && TakenKept(cfgs, s)
  }

  lemma InitKept(cfgs: seq<Config>, now: int)
    ensures Kept(cfgs, Init(cfgs, now))
  {
    forall k | 0 <= k < |cfgs|
      ensures ThreadKept(cfgs[k], Begun(cfgs[k]), now)
    {
      BegunKept(cfgs[k], now);
    }
  }

  // ---- A producer's step ----

  /** How one step changes lock, slot and applications. */
  predicate Effect(cfg: Config, id: nat, t: Thread, lock: Holder, slot: Slot, m: Moved) {
    && InLoop(cfg, m.t) && m.slot == SlotDuring(cfg, m.t) && (Holding(m.t.pc) <==> m.lock == Writer(id))
    && (m.lock != lock ==> (lock.Free? && m.lock == Writer(id)) || (lock == Writer(id) && m.lock.Free?))
    && (m.t.applied == t.applied || (|m.t.applied| == |t.applied| + 1 && t.applied <= m.t.applied && lock == Writer(id)))
    && (m.slot != slot ==> lock == Writer(id))
  }

  lemma AloneEffect(cfg: Config, id: nat, t: Thread, lock: Holder, slot: Slot, now: int)
    requires InLoop(cfg, t) && slot == SlotDuring(cfg, t) && (Holding(t.pc) <==> lock == Writer(id))
    requires StepAlone(cfg, t, now).Some?
    ensures Effect(cfg, id, t, lock, slot, Moved(StepAlone(cfg, t, now).value, lock, slot))
  {}

  lemma LockedEffect(cfg: Config, id: nat, t: Thread, lock: Holder, slot: Slot, now: int)
    requires InLoop(cfg, t) && slot == SlotDuring(cfg, t) && (Holding(t.pc) <==> lock == Writer(id))
    requires StepLocked(cfg, id, t, lock, slot, now).Some?
    ensures Effect(cfg, id, t, lock, slot, StepLocked(cfg, id, t, lock, slot, now).value)
  {}

  lemma StepThreadEffect(cfg: Config, id: nat, t: Thread, lock: Holder, slot: Slot, now: int)
    requires InLoop(cfg, t) && slot == SlotDuring(cfg, t) && (Holding(t.pc) <==> lock == Writer(id))
    ensures match StepThread(cfg, id, t, lock, slot, now)
      case None => true
      case Some(m) => Effect(cfg, id, t, lock, slot, m)
  {
    if StepAlone(cfg, t, now).Some? {
      AloneEffect(cfg, id, t, lock, slot, now);
    } else if StepLocked(cfg, id, t, lock, slot, now).Some? {
      LockedEffect(cfg, id, t, lock, slot, now);
    }
  }

  /** Snapshots stay what they were when more is applied. */
  lemma AtomicStays(cfgs: seq<Config>, threads: seq<Thread>, threads': seq<Thread>, x: Taken)
    requires |cfgs| == |threads| == |threads'| && Atomic(cfgs, threads, x)
    requires forall k :: 0 <= k < |threads| ==> threads[k].applied <= threads'[k].applied
    ensures Atomic(cfgs, threads', x)
  {
    forall k | 0 <= k < |threads|
      ensures threads'[k].applied[..x.counts[k]] == threads[k].applied[..x.counts[k]]
    {
      PrefixOfPrefix(threads[k].applied, threads'[k].applied, x.counts[k]);
    }
    assert SlotsAfter(threads', x.counts) == SlotsAfter(threads, x.counts);
  }

  lemma PrefixOfPrefix<T>(a: seq<T>, b: seq<T>, n: nat)
    requires a <= b && n <= |a|
    ensures a[..n] == b[..n]
  {}

  predicate Grown(threads: seq<Thread>, threads': seq<Thread>) {
    |threads| == |threads'| && forall k :: 0 <= k < |threads| ==> threads[k].applied <= threads'[k].applied
  }

  lemma TakenStays(cfgs: seq<Config>, s: State, s': State)
    requires Shaped(cfgs, s) && Shaped(cfgs, s') && TakenKept(cfgs, s)
    requires Grown(s.threads, s'.threads) && s'.taken == s.taken && s.now <= s'.now
    ensures TakenKept(cfgs, s')
  {
    forall i | 0 <= i < |s.taken|
      ensures Atomic(cfgs, s'.threads, s.taken[i])
    {
      AtomicStays(cfgs, s.threads, s'.threads, s.taken[i]);
    }
  }

  lemma ProduceKeeps(cfgs: seq<Config>, s: State, k: nat)
    requires Kept(cfgs, s) && k < |cfgs|
    ensures Kept(cfgs, StepProducer(cfgs, s, k))
  {
    var s' := StepProducer(cfgs, s, k);
    StepThreadEffect(cfgs[k], k, s.threads[k], s.lock, s.slots[k], s.now);
    ThreadStepKeeps(cfgs[k], k, s.threads[k], s.lock, s.slots[k], s.now);
    ProduceKeepsLock(cfgs, s, k);
    ProduceKeepsReader(cfgs, s, k);
    TakenStays(cfgs, s, s');
  }

  lemma ProduceKeepsLock(cfgs: seq<Config>, s: State, k: nat)
    requires Kept(cfgs, s) && k < |cfgs|
    ensures LockKept(StepProducer(cfgs, s, k))
  {
    StepThreadEffect(cfgs[k], k, s.threads[k], s.lock, s.slots[k], s.now);
  }

  /** A producer changes nothing a reader is copying. */
  lemma ProduceKeepsReader(cfgs: seq<Config>, s: State, k: nat)
    requires Kept(cfgs, s) && k < |cfgs|
    ensures var s' := StepProducer(cfgs, s, k);
      && Shaped(cfgs, s') && ReaderKept(cfgs, s') && Grown(s.threads, s'.threads)
  {
    StepThreadEffect(cfgs[k], k, s.threads[k], s.lock, s.slots[k], s.now);
    if s.reader.Copying? {
      assert StepProducer(cfgs, s, k).slots == s.slots;
    }
  }

  // ---- The reader's steps ----

  lemma CopyFieldIsPartial(cfgs: seq<Config>, slots: seq<Slot>, now: int, snap: Snapshot)
    requires |cfgs| == |slots| && |snap.stale| < |slots|
    requires Partial(SnapshotOf(Thresholds(cfgs), slots, now), snap)
    ensures Partial(SnapshotOf(Thresholds(cfgs), slots, now), CopyField(cfgs, slots, now, snap))
  {}

  /** With the lock in the reader's hands no update is under way. */
  lemma SlotsAreWhole(cfgs: seq<Config>, s: State)
    requires Shaped(cfgs, s) && LockKept(s) && SlotsKept(cfgs, s) && s.lock == ReaderHolds
    ensures Counted(s.threads, Counts(s.threads)) && s.slots == SlotsAfter(s.threads, Counts(s.threads))
  {
    forall k | 0 <= k < |s.threads|
      ensures s.slots[k] == SlotOf(s.threads[k].applied[..Counts(s.threads)[k]])
    {
      assert !Holding(s.threads[k].pc);
      assert s.threads[k].applied[..|s.threads[k].applied|] == s.threads[k].applied;
    }
  }

  lemma FinishedIsAtomic(cfgs: seq<Config>, s: State)
    requires Kept(cfgs, s) && s.reader.Copying? && |s.reader.snap.stale| >= |s.slots|
    ensures Atomic(cfgs, s.threads, Taken(s.reader.snap, s.reader.now, Counts(s.threads)))
  {
    SlotsAreWhole(cfgs, s);
    var whole := SnapshotOf(Thresholds(cfgs), s.slots, s.reader.now);
    assert s.reader.snap.stale == whole.stale;
    if |s.slots| == 0 {
      assert s.reader.snap == whole;
    }
  }

  lemma ReadKeeps(cfgs: seq<Config>, s: State)
    requires Kept(cfgs, s)
    ensures Kept(cfgs, StepReader(cfgs, s))
  {
    match s.reader
    case Outside =>
    case Entered =>
      forall k | 0 <= k < |s.threads|
        ensures NoneLater(s.threads[k], s.now)
      {
        AppliedByNow(cfgs[k], s.threads[k], s.now);
      }
    case Copying(now, snap) =>
      if |snap.stale| < |s.slots| {
        CopyFieldIsPartial(cfgs, s.slots, now, snap);
      } else {
        FinishedIsAtomic(cfgs, s);
        LastTaken(cfgs, s, Taken(snap, now, Counts(s.threads)));
      }
  }

  lemma LastTaken(cfgs: seq<Config>, s: State, x: Taken)
    requires Kept(cfgs, s) && Atomic(cfgs, s.threads, x) && x.counts == Counts(s.threads) && x.now <= s.now
    requires forall i :: 0 <= i < |s.taken| ==> s.taken[i].now <= x.now
    ensures TakenKept(cfgs, s.(taken := s.taken + [x]))
  {
    forall i | 0 <= i < |s.taken|
      ensures NotAfter(s.taken[i], x)
    {
      assert Atomic(cfgs, s.threads, s.taken[i]);
    }
  }

  // ---- Every run ----

  lemma StepKeeps(cfgs: seq<Config>, s: State, a: Action)
    requires Kept(cfgs, s)
    ensures Kept(cfgs, Step(cfgs, s, a))
  {
    match a
    case Tick(to) => if to >= s.now { TickKeepsAll(cfgs, s, to); }
    case Stop(k) => if k < |cfgs| { StopKeepsAll(cfgs, s, k); }
    case Produce(k) => if k < |cfgs| { ProduceKeeps(cfgs, s, k); }
    case Read => ReadKeeps(cfgs, s);
  }

  lemma TickKeepsAll(cfgs: seq<Config>, s: State, to: int)
    requires Kept(cfgs, s) && s.now <= to
    ensures Kept(cfgs, s.(now := to))
  {
    forall k | 0 <= k < |cfgs|
      ensures ThreadKept(cfgs[k], s.threads[k], to)
    {
      TickKeeps(cfgs[k], s.threads[k], s.now, to);
    }
  }

  lemma StopKeepsAll(cfgs: seq<Config>, s: State, k: nat)
    requires Kept(cfgs, s) && k < |cfgs|
    ensures Kept(cfgs, s.(threads := s.threads[k := Stopped(s.threads[k])]))
  {
    var s' := s.(threads := s.threads[k := Stopped(s.threads[k])]);
    StopKeepsThreads(cfgs, s, k);
    StopKeepsShared(cfgs, s, k);
    TakenStays(cfgs, s, s');
  }

  lemma StopKeepsThreads(cfgs: seq<Config>, s: State, k: nat)
    requires Kept(cfgs, s) && k < |cfgs|
    ensures var s' := s.(threads := s.threads[k := Stopped(s.threads[k])]); Shaped(cfgs, s') && ThreadsKept(cfgs, s')
  {
    StopKeeps(cfgs[k], s.threads[k], s.now);
  }

  lemma StopKeepsShared(cfgs: seq<Config>, s: State, k: nat)
    requires Kept(cfgs, s) && k < |cfgs|
    ensures var s' := s.(threads := s.threads[k := Stopped(s.threads[k])]);
      Shaped(cfgs, s') && LockKept(s') && SlotsKept(cfgs, s') && ReaderKept(cfgs, s') && Grown(s.threads, s'.threads)
  {}

  lemma {:induction false} RunKeeps(cfgs: seq<Config>, s: State, actions: seq<Action>)
    requires Kept(cfgs, s)
    ensures Kept(cfgs, Run(cfgs, s, actions))
    decreases |actions|
  {
    if actions != [] {
      StepKeeps(cfgs, s, actions[0]);
      RunKeeps(cfgs, Step(cfgs, s, actions[0]), actions[1..]);
    }
  }
}
