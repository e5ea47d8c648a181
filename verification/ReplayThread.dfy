/** What every step keeps true of one producer: the events applied, their times, the stall and
    the effect of the stop flag. */
module ReplayThread {
  import opened Options
  import opened VehicleState
  import opened ReplayProducer
  import opened ReplayMachine

  // ---- Order of application ----

  /** Applied is the front of the sorted events. */
  predicate AppliedPrefix(cfg: Config, t: Thread) {
    && |t.applied| == t.next <= |cfg.events|
    && forall i :: 0 <= i < t.next ==> t.applied[i].event == cfg.events[i]
  }

  // ---- Stall ----

  /** The replay origin in force for event i: the start, or after a stall the moment of
      resuming less the stalled event's own offset. */
  function Origin(cfg: Config, stall: Option<Stall>, i: nat): int {
    if stall.Some? && stall.value.resumed.Some? && stall.value.index <= i && stall.value.index < |cfg.events| then
      stall.value.resumed.value - Ms(Offset(cfg.events[stall.value.index].tsMs, cfg.speed))
    else cfg.start
  }

  function Due(cfg: Config, stall: Option<Stall>, i: nat): int
    requires i < |cfg.events|
  {
    Target(Origin(cfg, stall, i), cfg.events[i].tsMs, cfg.speed)
  }

  /** Between the loop head and the end of the update of one event. */
  predicate Serving(pc: Pc) {
    pc.Waiting? || pc.Woken? || pc.Locking? || Holding(pc)
  }

  predicate Holding(pc: Pc) {
    pc.WritingSample? || pc.WritingTime? || pc.WritingSource? || pc.Unlocking?
  }

  /** The stall comes before the first event at or after the configured time, and ends no
      sooner than its duration later, unless by a stop that ends the run. */
  predicate StallKept(cfg: Config, t: Thread, now: int) {
    && (t.stalledOnce <==> t.stall.Some?)
    && t.replayStart == Origin(cfg, t.stall, t.next)
    && match t.stall
      case None =>
        && (forall i :: 0 <= i < t.next && i < |cfg.events| ==> !Stalls(cfg, cfg.events[i]))
        && (Serving(t.pc) && t.next < |cfg.events| ==> !Stalls(cfg, cfg.events[t.next]))
        && !t.pc.Stalling? && !t.pc.StallEnded?
      case Some(s) =>
        && s.index <= t.next && s.index < |cfg.events| && s.began <= now
        && Stalls(cfg, cfg.events[s.index])
        && (forall i :: 0 <= i < s.index ==> !Stalls(cfg, cfg.events[i]))
        && (forall i :: 0 <= i < s.index && i < |t.applied| ==> t.applied[i].at <= s.began)
        && match s.resumed
          case None => t.next == s.index && StillStalled(cfg, t, s, now)
          case Some(r) => s.began + Ms(cfg.stallDurationMs) <= r <= now && !t.pc.Stalling? && !t.pc.StallEnded?
  }

  predicate StillStalled(cfg: Config, t: Thread, s: Stall, now: int) {
    match t.pc
    case Stalling(until) => until == s.began + Ms(cfg.stallDurationMs)
    case StallEnded => t.stopRequested || now >= s.began + Ms(cfg.stallDurationMs)
    case Leaving => t.stopRequested
    case Done => t.stopRequested
    case _ => false
  }

  // ---- Timing ----

  /** Application i was not before its due time. */
  predicate Timely(cfg: Config, t: Thread, now: int, i: nat)
    requires i < |t.applied|
  {
    && i < |cfg.events|
    && t.applied[i].target == Due(cfg, t.stall, i)
    && t.applied[i].target <= t.applied[i].at <= now
  }

  predicate NoneLater(t: Thread, at: int) {
    forall i :: 0 <= i < |t.applied| ==> t.applied[i].at <= at
  }

  predicate TimesKept(cfg: Config, t: Thread, now: int) {
    && (forall i: nat :: i < |t.applied| ==> Timely(cfg, t, now, i))
    && (forall i, j :: 0 <= i < j < |t.applied| ==> t.applied[i].at <= t.applied[j].at)
    && (Serving(t.pc) ==> t.next < |cfg.events|)
    && match t.pc
      case Waiting(g) => g == Due(cfg, t.stall, t.next)
      case Woken(g) => g == Due(cfg, t.stall, t.next) && (t.stopRequested || now >= g)
      case Locking(g) => g == Due(cfg, t.stall, t.next) && now >= g
      case WritingSample(g) => g == Due(cfg, t.stall, t.next) && now >= g
      case WritingTime(g) => g == Due(cfg, t.stall, t.next) && now >= g
      case WritingSource(g, at) => g == Due(cfg, t.stall, t.next) && g <= at <= now && NoneLater(t, at)
      case Unlocking(g, at) => g == Due(cfg, t.stall, t.next) && g <= at <= now && NoneLater(t, at)
      case _ => true
  }

  // ---- Stopping ----

  /** Past the last look at the stop flag before an update. */
  predicate Committed(pc: Pc) {
    pc.Locking? || Holding(pc)
  }

  predicate StopKept(cfg: Config, t: Thread) {
    && (t.stopRequested <==> t.appliedAtStop.Some?)
    && (t.appliedAtStop.Some? ==>
        t.appliedAtStop.value <= |t.applied| <= t.appliedAtStop.value + (if Committed(t.pc) then 0 else 1))
    && (t.pc.Leaving? || t.pc.Done? ==> t.stopRequested || t.next == |cfg.events|)
    && (t.finished <==> t.pc.Done?)
  }

  // ---- All of it, kept by every step ----

  predicate ThreadKept(cfg: Config, t: Thread, now: int) {
    && AppliedPrefix(cfg, t) && StallKept(cfg, t, now) && TimesKept(cfg, t, now) && StopKept(cfg, t)
  }

  lemma BegunKept(cfg: Config, now: int)
    ensures ThreadKept(cfg, Begun(cfg), now)
  {}

  lemma TickKeeps(cfg: Config, t: Thread, now: int, to: int)
    requires ThreadKept(cfg, t, now) && now <= to
    ensures ThreadKept(cfg, t, to)
  {
    forall i: nat | i < |t.applied|
      ensures Timely(cfg, t, to, i)
    {
      assert Timely(cfg, t, now, i);
    }
  }

  lemma StopKeeps(cfg: Config, t: Thread, now: int)
    requires ThreadKept(cfg, t, now)
    ensures ThreadKept(cfg, Stopped(t), now)
  {
    forall i: nat | i < |t.applied|
      ensures Timely(cfg, Stopped(t), now, i)
    {
      assert Timely(cfg, t, now, i);
    }
  }

  lemma AppliedByNow(cfg: Config, t: Thread, now: int)
    requires TimesKept(cfg, t, now)
    ensures NoneLater(t, now)
  {
    forall i | 0 <= i < |t.applied|
      ensures t.applied[i].at <= now
    {
      assert Timely(cfg, t, now, i);
    }
  }

  // ---- Steps outside the critical section ----

  lemma AloneKeepsStall(cfg: Config, t: Thread, now: int)
    requires InLoop(cfg, t) && ThreadKept(cfg, t, now)
    ensures match StepAlone(cfg, t, now) case None => true case Some(t') => StallKept(cfg, t', now)
  {
    AppliedByNow(cfg, t, now);
  }

  /** What was applied before a stall ended keeps its due time when it does. */
  lemma AloneKeepsTimely(cfg: Config, t: Thread, t': Thread, now: int, i: nat)
    requires InLoop(cfg, t) && AppliedPrefix(cfg, t) && StallKept(cfg, t, now) && TimesKept(cfg, t, now)
    requires StepAlone(cfg, t, now) == Some(t') && i < |t.applied|
    ensures Timely(cfg, t', now, i)
  {
    assert Timely(cfg, t, now, i);
    assert Origin(cfg, t'.stall, i) == Origin(cfg, t.stall, i);
  }

  lemma AloneKeepsTimes(cfg: Config, t: Thread, now: int)
    requires InLoop(cfg, t) && ThreadKept(cfg, t, now)
    ensures match StepAlone(cfg, t, now) case None => true case Some(t') => TimesKept(cfg, t', now)
  {
    var r := StepAlone(cfg, t, now);
    if r.Some? {
      forall i: nat | i < |t.applied|
        ensures Timely(cfg, r.value, now, i)
      {
        AloneKeepsTimely(cfg, t, r.value, now, i);
      }
    }
  }

  lemma AloneKeeps(cfg: Config, t: Thread, now: int)
    requires InLoop(cfg, t) && ThreadKept(cfg, t, now)
    ensures match StepAlone(cfg, t, now) case None => true case Some(t') => ThreadKept(cfg, t', now)
  {
    AloneKeepsStall(cfg, t, now);
    AloneKeepsTimes(cfg, t, now);
  }

  // ---- Steps of the update ----

  /** The event behind the last one applied is applied. */
  lemma UnlockingKeeps(cfg: Config, t: Thread, now: int, x: Application)
    requires ThreadKept(cfg, t, now) && t.pc.Unlocking? && t.next < |cfg.events|
    requires x == Application(AtEvent(cfg, t), t.pc.target, t.pc.at)
    ensures ThreadKept(cfg, t.(pc := Head, next := t.next + 1, applied := t.applied + [x]), now)
  {
    var t' := t.(pc := Head, next := t.next + 1, applied := t.applied + [x]);
    forall i: nat | i < |t'.applied|
      ensures Timely(cfg, t', now, i)
    {
      if i < |t.applied| {
        assert Timely(cfg, t, now, i);
      }
    }
  }

  predicate WritesNext(before: Pc, after: Pc, now: int) {
    match before
    case Locking(g) => after == WritingSample(g)
    case WritingSample(g) => after == WritingTime(g)
    case WritingTime(g) => after == WritingSource(g, now)
    case WritingSource(g, at) => after == Unlocking(g, at)
    case _ => false
  }

  /** A step of the update that applies nothing yet. */
  lemma WritingKeeps(cfg: Config, t: Thread, now: int, pc: Pc)
    requires InLoop(cfg, t) && ThreadKept(cfg, t, now)
    requires WritesNext(t.pc, pc, now)
    ensures ThreadKept(cfg, t.(pc := pc), now)
  {
    AppliedByNow(cfg, t, now);
    forall i: nat | i < |t.applied|
      ensures Timely(cfg, t.(pc := pc), now, i)
    {
      assert Timely(cfg, t, now, i);
    }
  }

  lemma LockedKeeps(cfg: Config, id: nat, t: Thread, lock: Holder, slot: Slot, now: int)
    requires InLoop(cfg, t) && ThreadKept(cfg, t, now)
    ensures match StepLocked(cfg, id, t, lock, slot, now) case None => true case Some(m) => ThreadKept(cfg, m.t, now)
  {
    var r := StepLocked(cfg, id, t, lock, slot, now);
    if r.Some? {
      if t.pc.Unlocking? {
        UnlockingKeeps(cfg, t, now, Application(AtEvent(cfg, t), t.pc.target, t.pc.at));
      } else {
        WritingKeeps(cfg, t, now, r.value.t.pc);
      }
    }
  }

  lemma ThreadStepKeeps(cfg: Config, id: nat, t: Thread, lock: Holder, slot: Slot, now: int)
    requires InLoop(cfg, t) && ThreadKept(cfg, t, now)
    ensures match StepThread(cfg, id, t, lock, slot, now) case None => true case Some(m) => ThreadKept(cfg, m.t, now)
  {
    AloneKeeps(cfg, t, now);
    LockedKeeps(cfg, id, t, lock, slot, now);
  }

  // ---- What the invariant says ----

  /** After a stall nothing is due before the moment of resuming: no burst to catch up. */
  lemma ResumedOriginIsLate(cfg: Config, s: Stall, i: nat)
    requires IsSorted(cfg.events) && s.resumed.Some? && s.index <= i < |cfg.events|
    ensures Due(cfg, Some(s), i) >= s.resumed.value
    ensures Due(cfg, Some(s), s.index) == s.resumed.value
  {
    OffsetGrows(cfg.events[s.index].tsMs, cfg.events[i].tsMs, cfg.speed);
  }

  /** The stall leaves at least its duration without an event: everything before it was applied
      when it began, everything else only after it ended. */
  lemma StallIsSilent(cfg: Config, t: Thread, now: int, i: nat)
    requires ThreadKept(cfg, t, now) && IsSorted(cfg.events) && t.stall.Some? && i < |t.applied|
    ensures var s := t.stall.value;
      && (i < s.index ==> t.applied[i].at <= s.began)
      && (i >= s.index ==> s.resumed.Some? && t.applied[i].at >= s.resumed.value >= s.began + Ms(cfg.stallDurationMs))
  {
    var s := t.stall.value;
    assert Timely(cfg, t, now, i);
    if i >= s.index {
      ResumedOriginIsLate(cfg, s, i);
    }
  }

  // ---- Termination ----

  function PcRank(pc: Pc): nat {
    match pc
    case Head => 12
    case Stalling(_) => 11
    case StallEnded => 10
    case Waiting(_) => 9
    case Woken(_) => 8
    case Locking(_) => 7
    case WritingSample(_) => 6
    case WritingTime(_) => 5
    case WritingSource(_, _) => 4
    case Unlocking(_, _) => 3
    case Leaving => 1
    case Done => 0
  }

  /** Bounds the steps a producer still has to take. */
  function Rank(cfg: Config, t: Thread): nat {
    PcRank(t.pc) + (if t.pc.Done? || t.pc.Leaving? || t.next >= |cfg.events| then 0 else 12 * (|cfg.events| - t.next))
  }

  lemma RankFallsAlone(cfg: Config, t: Thread, now: int)
    requires InLoop(cfg, t) && StepAlone(cfg, t, now).Some?
    ensures Rank(cfg, StepAlone(cfg, t, now).value) < Rank(cfg, t)
  {}

  lemma RankFallsLocked(cfg: Config, id: nat, t: Thread, lock: Holder, slot: Slot, now: int)
    requires InLoop(cfg, t) && StepLocked(cfg, id, t, lock, slot, now).Some?
    ensures Rank(cfg, StepLocked(cfg, id, t, lock, slot, now).value.t) < Rank(cfg, t)
  {}

  lemma RankFalls(cfg: Config, id: nat, t: Thread, lock: Holder, slot: Slot, now: int)
    requires InLoop(cfg, t) && StepThread(cfg, id, t, lock, slot, now).Some?
    ensures Rank(cfg, StepThread(cfg, id, t, lock, slot, now).value.t) < Rank(cfg, t)
  {
    if StepAlone(cfg, t, now).Some? {
      RankFallsAlone(cfg, t, now);
    } else {
      RankFallsLocked(cfg, id, t, lock, slot, now);
    }
  }

  /** The clock has passed what the producer waits for, and the lock is not in its way. */
  predicate Ready(t: Thread, lock: Holder, now: int) {
    match t.pc
    case Stalling(until) => now >= until
    case Waiting(target) => now >= target
    case Locking(_) => lock.Free?
    case Done => false
    case _ => true
  }

  lemma ReadyMoves(cfg: Config, id: nat, t: Thread, lock: Holder, slot: Slot, now: int)
    requires InLoop(cfg, t)
    ensures Ready(t, lock, now) ==> StepThread(cfg, id, t, lock, slot, now).Some?
    ensures !Ready(t, lock, now) && !t.stopRequested ==> StepThread(cfg, id, t, lock, slot, now).None?
  {}
}
