/** run of sensor_producer.cpp as the loop it is, alone with its environment: how long each
    statement takes and when a stop arrives are inputs.  Its outcome is a run of the machine. */
module ReplayRun {
  import opened Options
  import opened VehicleState
  import opened ReplayProducer
  import opened ReplayMachine
  import opened ReplayThread
  import opened ReplaySystem
  import opened ReplayLaws

  /** What happens before one step of the producer: time passes, and requestStop may be called.
      A wait lasts to its deadline at least, unless the flag is set. */
  datatype Moment = Moment(delay: nat, stop: bool)

  /** An environment that has run out of moments is instant and never stops. */
  function First(env: seq<Moment>): Moment {
    if env == [] then Moment(0, false) else env[0]
  }

  function Later(env: seq<Moment>): seq<Moment> {
    if env == [] then [] else env[1..]
  }

  predicate NeverStops(env: seq<Moment>) {
    forall i :: 0 <= i < |env| ==> !env[i].stop
  }

  // ---- The outcome the environment determines ----

  function Deadline(pc: Pc): Option<int> {
    match pc
    case Stalling(until) => Some(until)
    case Waiting(target) => Some(target)
    case _ => None
  }

  function TimeAfter(pc: Pc, stopRequested: bool, now: int, m: Moment): int {
    var later := now + m.delay;
    match Deadline(pc)
    case None => later
    case Some(d) => if stopRequested || m.stop || later >= d then later else d
  }

  function Elapsed(cfg: Config, s: State, m: Moment): (r: State)
    requires Shaped([cfg], s)
    ensures Shaped([cfg], r)
  {
    var t := s.threads[0];
    s.(now := TimeAfter(t.pc, t.stopRequested, s.now, m),
       threads := [if m.stop then Stopped(t) else t])
  }

  function StepOf(cfg: Config, s: State): Option<Moved>
    requires Shaped([cfg], s)
  {
    StepThread(cfg, 0, s.threads[0], s.lock, s.slots[0], s.now)
  }

  /** The machine when the producer is done, from a state where it is to take a step. */
  function After(cfg: Config, s: State, env: seq<Moment>): (r: State)
    requires Shaped([cfg], s)
    ensures Shaped([cfg], r)
    decreases Rank(cfg, s.threads[0]), 0
  {
    match StepOf(cfg, s)
    case None => s
    case Some(m) =>
      StepIsShaped([cfg], s, Produce(0));
      RankFalls(cfg, 0, s.threads[0], s.lock, s.slots[0], s.now);
      Play(cfg, Step([cfg], s, Produce(0)), env)
  }

  function Play(cfg: Config, s: State, env: seq<Moment>): (r: State)
    requires Shaped([cfg], s)
    ensures Shaped([cfg], r)
    decreases Rank(cfg, s.threads[0]), 1
  {
    if s.threads[0].pc.Done? then s else After(cfg, Elapsed(cfg, s, First(env)), Later(env))
  }

  function Outcome(cfg: Config, time: int, env: seq<Moment>): (s: State)
    ensures Shaped([cfg], s)
  {
    Play(cfg, Init([cfg], time), env)
  }

  // ---- It is a run of the machine ----

  function ActionsOf(cfg: Config, s: State, m: Moment): seq<Action>
    requires Shaped([cfg], s)
  {
    [Tick(Elapsed(cfg, s, m).now)] + (if m.stop then [Stop(0)] else [])
  }

  lemma ElapsedIsARun(cfg: Config, s: State, m: Moment)
    requires Shaped([cfg], s)
    ensures Run([cfg], s, ActionsOf(cfg, s, m)) == Elapsed(cfg, s, m)
  {
    var tick := Tick(Elapsed(cfg, s, m).now);
    var ticked := Step([cfg], s, tick);
    RunOne([cfg], s, tick);
    assert ticked == s.(now := Elapsed(cfg, s, m).now);
    assert s.threads == [s.threads[0]];
    if m.stop {
      RunOne([cfg], ticked, Stop(0));
      RunConcat([cfg], s, [tick], [Stop(0)]);
      assert Step([cfg], ticked, Stop(0)).threads == [Stopped(s.threads[0])];
    } else {
      assert [tick] + [] == [tick];
    }
  }

  lemma {:induction false} AfterIsARun(cfg: Config, s: State, env: seq<Moment>) returns (log: seq<Action>)
    requires Shaped([cfg], s)
    ensures Run([cfg], s, log) == After(cfg, s, env)
    decreases Rank(cfg, s.threads[0]), 0
  {
    if StepOf(cfg, s).None? {
      log := [];
    } else {
      StepIsShaped([cfg], s, Produce(0));
      RankFalls(cfg, 0, s.threads[0], s.lock, s.slots[0], s.now);
      var rest := PlayIsARun(cfg, Step([cfg], s, Produce(0)), env);
      log := [Produce(0)] + rest;
      assert log[1..] == rest;
    }
  }

  lemma {:induction false} PlayIsARun(cfg: Config, s: State, env: seq<Moment>) returns (log: seq<Action>)
    requires Shaped([cfg], s)
    ensures Run([cfg], s, log) == Play(cfg, s, env)
    decreases Rank(cfg, s.threads[0]), 1
  {
    if s.threads[0].pc.Done? {
      log := [];
    } else {
      var m := First(env);
      ElapsedIsARun(cfg, s, m);
      var rest := AfterIsARun(cfg, Elapsed(cfg, s, m), Later(env));
      log := ActionsOf(cfg, s, m) + rest;
      RunConcat([cfg], s, ActionsOf(cfg, s, m), rest);
    }
  }

  /** So every promise about schedules holds of it. */
  lemma OutcomeIsARun(cfg: Config, time: int, env: seq<Moment>) returns (log: seq<Action>)
    ensures Outcome(cfg, time, env) == AfterRun([cfg], time, log)
  {
    log := PlayIsARun(cfg, Init([cfg], time), env);
  }

  // ---- It ends, and without a stop it has applied everything ----

  /** No reader, and the lock taken by nobody else. */
  predicate Alone(s: State) {
    |s.threads| == 1 && s.reader.Outside? && s.lock == if Holding(s.threads[0].pc) then Writer(0) else Free
  }

  lemma AloneMoves(cfg: Config, s: State, m: Moment)
    requires Shaped([cfg], s) && Alone(s) && !s.threads[0].pc.Done?
    ensures var s' := Elapsed(cfg, s, m);
      && StepOf(cfg, s').Some? && Shaped([cfg], Step([cfg], s', Produce(0))) && Alone(Step([cfg], s', Produce(0)))
      && Step([cfg], s', Produce(0)).threads[0].stopRequested == (s.threads[0].stopRequested || m.stop)
  {
    StepIsShaped([cfg], Elapsed(cfg, s, m), Produce(0));
  }

  lemma {:induction false} PlayEnds(cfg: Config, s: State, env: seq<Moment>)
    requires Shaped([cfg], s) && Alone(s)
    ensures Play(cfg, s, env).threads[0].pc.Done?
    ensures !s.threads[0].stopRequested && NeverStops(env) ==> !Play(cfg, s, env).threads[0].stopRequested
    decreases Rank(cfg, s.threads[0])
  {
    if !s.threads[0].pc.Done? {
      var s' := Elapsed(cfg, s, First(env));
      AloneMoves(cfg, s, First(env));
      RankFalls(cfg, 0, s'.threads[0], s'.lock, s'.slots[0], s'.now);
      PlayEnds(cfg, Step([cfg], s', Produce(0)), Later(env));
    }
  }

  /** What the environment makes of a producer: its events in order, each due when the replay's
      origin says and not applied before, all of them if no stop comes. */
  lemma OutcomeMeaning(cfg: Config, time: int, env: seq<Moment>)
    ensures var t := Outcome(cfg, time, env).threads[0];
      && t.finished && |t.applied| <= |cfg.events|
      && (forall i: nat :: i < |t.applied| ==> OnTime(cfg, t, i))
      && (NeverStops(env) ==> |t.applied| == |cfg.events|)
  {
    var s := Outcome(cfg, time, env);
    var log := OutcomeIsARun(cfg, time, env);
    ReachableKept([cfg], time, log);
    PlayEnds(cfg, Init([cfg], time), env);
    assert ThreadKept([cfg][0], s.threads[0], s.now);
    forall i: nat | i < |s.threads[0].applied|
      ensures OnTime(cfg, s.threads[0], i)
    {
      assert Timely(cfg, s.threads[0], s.now, i);
    }
  }

  predicate OnTime(cfg: Config, t: Thread, i: nat)
    requires i < |t.applied|
  {
    && i < |cfg.events| && t.applied[i].event == cfg.events[i]
    && t.applied[i].target == Due(cfg, t.stall, i) <= t.applied[i].at
  }

  // ---- The machine's steps, with nobody else in it ----

  lemma AloneStep(cfg: Config, s: State, to: Thread)
    requires Shaped([cfg], s) && Alone(s) && StepAlone(cfg, s.threads[0], s.now) == Some(to)
    ensures Shaped([cfg], s.(threads := [to])) && Alone(s.(threads := [to]))
    ensures forall env :: After(cfg, s, env) == Play(cfg, s.(threads := [to]), env)
  {
    StepIsShaped([cfg], s, Produce(0));
    assert s.slots[0 := s.slots[0]] == s.slots;
    assert s.threads[0 := to] == [to];
    assert Step([cfg], s, Produce(0)) == s.(threads := [to]);
  }

  lemma WritingStep(cfg: Config, s: State, after: Pc)
    requires Shaped([cfg], s) && Alone(s) && WritesNext(s.threads[0].pc, after, s.now)
    ensures var s' := Step([cfg], s, Produce(0));
      && Shaped([cfg], s') && Alone(s') && s'.now == s.now && s'.threads == [s.threads[0].(pc := after)]
      && forall env :: After(cfg, s, env) == Play(cfg, s', env)
  {
    StepIsShaped([cfg], s, Produce(0));
  }

  lemma UnlockingStep(cfg: Config, s: State)
    requires Shaped([cfg], s) && Alone(s) && s.threads[0].pc.Unlocking?
    ensures var s', t := Step([cfg], s, Produce(0)), s.threads[0];
      && Shaped([cfg], s') && Alone(s') && s'.now == s.now
      && s'.threads == [t.(pc := Head, next := t.next + 1,
                           applied := t.applied + [Application(AtEvent(cfg, t), t.pc.target, t.pc.at)])]
      && forall env :: After(cfg, s, env) == Play(cfg, s', env)
  {
    StepIsShaped([cfg], s, Produce(0));
  }

  // ---- The loop ----

  class Runner {
    const cfg: Config
    var env: seq<Moment>
    var replayStart: int
    var stopRequested: bool
    var finished: bool
    var now: int
    var applied: seq<Application>

    /** The machine this run is at, and the one the environment leads it to. */
    ghost var s: State
    ghost const outcome: State

    /** The fields are those of the machine's only producer, which is at pc, before event next. */
    ghost predicate Follows(pc: Pc, next: nat, stalledOnce: bool)
      reads this
    {
      && Shaped([cfg], s) && Alone(s) && s.now == now
      && var t := s.threads[0];
      && t.pc == pc && t.next == next && t.stalledOnce == stalledOnce && t.replayStart == replayStart
      && t.stopRequested == stopRequested && t.finished == finished && t.applied == applied
    }

    /** Before the environment's next moment. */
    ghost predicate At(pc: Pc, next: nat, stalledOnce: bool)
      reads this
    {
      Follows(pc, next, stalledOnce) && Play(cfg, s, env) == outcome
    }

    /** Behind that moment, before the producer's step. */
    ghost predicate Poised(pc: Pc, next: nat, stalledOnce: bool)
      reads this
    {
      Follows(pc, next, stalledOnce) && After(cfg, s, env) == outcome
    }

    constructor (config: Config, time: int, environment: seq<Moment>)
      ensures cfg == config && outcome == Outcome(config, time, environment) && At(Head, 0, false)
    {
      cfg, env := config, environment;
      replayStart, stopRequested, finished := config.start, false, false;
      now, applied := time, [];
      s, outcome := Init([config], time), Outcome(config, time, environment);
    }

    /** Time passes and a stop may come. */
    method Elapse(ghost pc: Pc, ghost next: nat, ghost stalledOnce: bool)
      requires At(pc, next, stalledOnce) && !pc.Done? && Deadline(pc).None?
      modifies `now, `stopRequested, `env, `s
      ensures Poised(pc, next, stalledOnce)
      ensures old(now) <= now && (old(stopRequested) ==> stopRequested)
    {
      var m := First(env);
      s := Elapsed(cfg, s, m);
      now := now + m.delay;
      stopRequested := stopRequested || m.stop;
      env := Later(env);
    }

    /** wait_until and wait_for: back once the flag is set or the deadline has passed. */
    method WaitUntil(deadline: int, ghost pc: Pc, ghost next: nat, ghost stalledOnce: bool)
      requires At(pc, next, stalledOnce) && Deadline(pc) == Some(deadline)
      modifies `now, `stopRequested, `env, `s
      ensures Poised(pc, next, stalledOnce)
      ensures stopRequested || now >= deadline
    {
      var m := First(env);
      s := Elapsed(cfg, s, m);
      now := now + m.delay;
      stopRequested := stopRequested || m.stop;
      if !stopRequested && now < deadline {
        now := deadline;
      }
      env := Later(env);
    }

    /** The producer's step outside the update. */
    ghost method Advance(pc: Pc, next: nat, stalledOnce: bool, to: Thread)
      requires Poised(pc, next, stalledOnce) && StepAlone(cfg, s.threads[0], now) == Some(to)
      modifies `s
      ensures s == old(s).(threads := [to]) && Shaped([cfg], s) && Alone(s) && Play(cfg, s, env) == outcome
    {
      AloneStep(cfg, s, to);
      s := s.(threads := [to]);
    }

    /** The producer's step of the update, up to the last field. */
    ghost method Write(before: Pc, after: Pc, next: nat, stalledOnce: bool)
      requires Poised(before, next, stalledOnce) && WritesNext(before, after, now)
      modifies `s
      ensures At(after, next, stalledOnce)
    {
      WritingStep(cfg, s, after);
      s := Step([cfg], s, Produce(0));
    }

    method Run()
      requires At(Head, 0, false)
      modifies this
      ensures s == outcome && Follows(Done, s.threads[0].next, s.threads[0].stalledOnce)
    {
      var stalledOnce, i := false, 0;
      while i < |cfg.events|
        invariant i <= |cfg.events| && At(Head, i, stalledOnce)
      {
        var served;
        served, stalledOnce := ServeEvent(i, stalledOnce);
        if !served {
          break;
        }
        i := i + 1;
      }
      Finish(i, stalledOnce);
    }

    /** Behind the loop. */
    method Finish(i: nat, stalledOnce: bool)
      requires At(if i < |cfg.events| then Leaving else Head, i, stalledOnce)
      modifies `finished, `now, `stopRequested, `env, `s
      ensures At(Done, i, stalledOnce)
    {
      if i >= |cfg.events| {
        Elapse(Head, i, stalledOnce);
        Advance(Head, i, stalledOnce, s.threads[0].(pc := Leaving));
      }
      Elapse(Leaving, i, stalledOnce);
      Advance(Leaving, i, stalledOnce, s.threads[0].(pc := Done, finished := true));
      finished := true;
    }

    /** The loop body; not served means a stop was seen and the loop is left. */
    method ServeEvent(i: nat, stalledBefore: bool) returns (served: bool, stalledOnce: bool)
      requires i < |cfg.events| && At(Head, i, stalledBefore)
      modifies `now, `stopRequested, `replayStart, `applied, `env, `s
      ensures !served ==> stopRequested && At(Leaving, i, stalledOnce)
      ensures served ==> At(Head, i + 1, stalledOnce)
    {
      stalledOnce := stalledBefore;
      Elapse(Head, i, stalledOnce);
      if stopRequested {
        Advance(Head, i, stalledOnce, s.threads[0].(pc := Leaving));
        return false, stalledOnce;
      }
      var ev := cfg.events[i];
      if !stalledOnce && cfg.stallAfterMs >= 0 && ev.tsMs >= cfg.stallAfterMs {
        stalledOnce := true;
        var resumed := StallOut(i);
        if !resumed {
          return false, stalledOnce;
        }
      } else {
        Advance(Head, i, stalledOnce, StepHead(cfg, s.threads[0], now));
      }
      served := AwaitTarget(i, stalledOnce);
      if served {
        Apply(i, stalledOnce);
      }
    }

    /** The stall and the re-anchoring behind it. */
    method StallOut(i: nat) returns (resumed: bool)
      requires i < |cfg.events| && Poised(Head, i, false) && !stopRequested && Stalls(cfg, cfg.events[i])
      modifies `now, `stopRequested, `replayStart, `env, `s
      ensures !resumed ==> stopRequested && At(Leaving, i, true)
      ensures resumed ==> !stopRequested && At(Waiting(Target(replayStart, cfg.events[i].tsMs, cfg.speed)), i, true)
    {
      var until := now + Ms(cfg.stallDurationMs);
      Advance(Head, i, false, StepHead(cfg, s.threads[0], now));
      WaitUntil(until, Stalling(until), i, true);
      Advance(Stalling(until), i, true, s.threads[0].(pc := StallEnded));
      Elapse(StallEnded, i, true);
      resumed := Resume(i);
    }

    method Resume(i: nat) returns (resumed: bool)
      requires i < |cfg.events| && Poised(StallEnded, i, true)
      modifies `replayStart, `s
      ensures resumed == !stopRequested
      ensures !resumed ==> At(Leaving, i, true)
      ensures resumed ==> At(Waiting(Target(replayStart, cfg.events[i].tsMs, cfg.speed)), i, true)
    {
      Advance(StallEnded, i, true, StepStallEnded(cfg, s.threads[0], now));
      if stopRequested {
        return false;
      }
      replayStart := now - Ms(Offset(cfg.events[i].tsMs, cfg.speed));
      resumed := true;
    }

    /** The wait for the event's time and the look at the stop flag behind it. */
    method AwaitTarget(i: nat, stalledOnce: bool) returns (applies: bool)
      requires i < |cfg.events| && At(Waiting(Target(replayStart, cfg.events[i].tsMs, cfg.speed)), i, stalledOnce)
      modifies `now, `stopRequested, `env, `s
      ensures !applies ==> stopRequested && At(Leaving, i, stalledOnce)
      ensures applies ==>
        && !stopRequested && now >= Target(replayStart, cfg.events[i].tsMs, cfg.speed)
        && At(Locking(Target(replayStart, cfg.events[i].tsMs, cfg.speed)), i, stalledOnce)
    {
      var target := Target(replayStart, cfg.events[i].tsMs, cfg.speed);
      WaitUntil(target, Waiting(target), i, stalledOnce);
      Advance(Waiting(target), i, stalledOnce, s.threads[0].(pc := Woken(target)));
      Elapse(Woken(target), i, stalledOnce);
      Advance(Woken(target), i, stalledOnce, s.threads[0].(pc := if stopRequested then Leaving else Locking(target)));
      applies := !stopRequested;
    }

    /** ev.apply(): the update's critical section, reading the clock inside. */
    method Apply(i: nat, stalledOnce: bool)
      requires i < |cfg.events| && At(Locking(Target(replayStart, cfg.events[i].tsMs, cfg.speed)), i, stalledOnce)
      modifies `now, `stopRequested, `applied, `env, `s
      ensures At(Head, i + 1, stalledOnce)
      ensures |applied| == |old(applied)| + 1 && old(applied) <= applied
      ensures applied[|old(applied)|].event == cfg.events[i]
      ensures applied[|old(applied)|].target == Target(replayStart, cfg.events[i].tsMs, cfg.speed)
    {
      var g := Target(replayStart, cfg.events[i].tsMs, cfg.speed);
      LockAndWrite(g, i, stalledOnce);
      var at := ReadClock(g, i, stalledOnce);
      WriteField(WritingSource(g, at), Unlocking(g, at), i, stalledOnce);
      Unlock(i, g, at, stalledOnce);
    }

    method LockAndWrite(ghost g: int, ghost next: nat, ghost stalledOnce: bool)
      requires At(Locking(g), next, stalledOnce)
      modifies `now, `stopRequested, `env, `s
      ensures At(WritingTime(g), next, stalledOnce)
    {
      WriteField(Locking(g), WritingSample(g), next, stalledOnce);
      WriteField(WritingSample(g), WritingTime(g), next, stalledOnce);
    }

    method WriteField(ghost before: Pc, ghost after: Pc, ghost next: nat, ghost stalledOnce: bool)
      requires At(before, next, stalledOnce) && !before.WritingTime? && WritesNext(before, after, 0)
      modifies `now, `stopRequested, `env, `s
      ensures At(after, next, stalledOnce)
    {
      Elapse(before, next, stalledOnce);
      Write(before, after, next, stalledOnce);
    }

    method ReadClock(g: int, ghost next: nat, ghost stalledOnce: bool) returns (at: int)
      requires At(WritingTime(g), next, stalledOnce)
      modifies `now, `stopRequested, `env, `s
      ensures At(WritingSource(g, at), next, stalledOnce)
    {
      Elapse(WritingTime(g), next, stalledOnce);
      at := now;
      Write(WritingTime(g), WritingSource(g, at), next, stalledOnce);
    }

    method Unlock(i: nat, g: int, at: int, stalledOnce: bool)
      requires i < |cfg.events| && At(Unlocking(g, at), i, stalledOnce)
      modifies `now, `stopRequested, `applied, `env, `s
      ensures At(Head, i + 1, stalledOnce)
      ensures applied == old(applied) + [Application(cfg.events[i], g, at)]
    {
      Elapse(Unlocking(g, at), i, stalledOnce);
      UnlockingStep(cfg, s);
      s := Step([cfg], s, Produce(0));
      applied := applied + [Application(cfg.events[i], g, at)];
    }
  }

  /** Event i is due a time after the start that is its timestamp in replay time; behind a stall
      the start is moved so that the stalled event is due when the stall has ended. */
  ghost predicate DueInReplayTime(events: seq<Event>, start: int, speed: Speed, stall: Option<Stall>, i: nat, target: int)
    requires i < |events|
  {
    if stall.Some? && stall.value.resumed.Some? && stall.value.index <= i && stall.value.index < |events| then
      exists anchor: int :: Anchored(anchor, target, events[i].tsMs, stall.value.resumed.value,
                                     events[stall.value.index].tsMs, speed)
    else InReplayTime(target - start, events[i].tsMs, speed)
  }

  /** Both times lie behind one anchor by their timestamps in replay time. */
  predicate Anchored(anchor: int, a: int, tsA: int, b: int, tsB: int, speed: Speed) {
    InReplayTime(a - anchor, tsA, speed) && InReplayTime(b - anchor, tsB, speed)
  }

  lemma DueMeans(cfg: Config, stall: Option<Stall>, i: nat)
    requires i < |cfg.events|
    ensures DueInReplayTime(cfg.events, cfg.start, cfg.speed, stall, i, Due(cfg, stall, i))
  {
    var ts, anchor := cfg.events[i].tsMs, Origin(cfg, stall, i);
    TargetInReplayTime(anchor, ts, cfg.speed);
    if stall.Some? && stall.value.resumed.Some? && stall.value.index <= i {
      var e := cfg.events[stall.value.index];
      TargetInReplayTime(anchor, e.tsMs, cfg.speed);
      assert Anchored(anchor, Due(cfg, stall, i), ts, stall.value.resumed.value, e.tsMs, cfg.speed);
    }
  }

  /** The stall is before the first event at or after the configured time, and lasts its
      milliseconds; without one no event of that kind has been applied. */
  predicate StallIs(events: seq<Event>, afterMs: int, durationMs: int, stall: Option<Stall>, applied: nat) {
    match stall
    case None => forall i :: 0 <= i < applied && i < |events| ==> afterMs < 0 || events[i].tsMs < afterMs
    case Some(st) =>
      && 0 <= afterMs && st.index < |events| && afterMs <= events[st.index].tsMs
      && (forall i :: 0 <= i < st.index ==> events[i].tsMs < afterMs)
      && (applied > st.index ==> st.resumed.Some?)
      && (st.resumed.Some? ==> st.resumed.value - st.began >= durationMs * 1_000_000)
  }

  lemma StallMeans(cfg: Config, t: Thread, now: int)
    requires ThreadKept(cfg, t, now)
    ensures StallIs(cfg.events, cfg.stallAfterMs, cfg.stallDurationMs, t.stall, |t.applied|)
  {}

  /** What an environment makes of a producer with these settings. */
  ghost predicate Served(events: seq<Event>, start: int, speed: Speed, afterMs: int, durationMs: int, env: seq<Moment>,
                         applied: seq<Application>, stall: Option<Stall>) {
    && |applied| <= |events|
    && (forall i: nat :: i < |applied| ==> ServedAt(events, start, speed, applied, stall, i))
    && StallIs(events, afterMs, durationMs, stall, |applied|)
    && (NeverStops(env) ==> |applied| == |events|)
  }

  ghost predicate ServedAt(events: seq<Event>, start: int, speed: Speed, applied: seq<Application>,
                           stall: Option<Stall>, i: nat)
    requires i < |applied|
  {
    && i < |events| && applied[i].event == events[i] && applied[i].target <= applied[i].at
    && DueInReplayTime(events, start, speed, stall, i, applied[i].target)
  }

  lemma OutcomeIsServed(cfg: Config, time: int, env: seq<Moment>)
    ensures var t := Outcome(cfg, time, env).threads[0];
      Served(cfg.events, cfg.start, cfg.speed, cfg.stallAfterMs, cfg.stallDurationMs, env, t.applied, t.stall)
  {
    var s := Outcome(cfg, time, env);
    var t := s.threads[0];
    OutcomeMeaning(cfg, time, env);
    forall i: nat | i < |t.applied|
      ensures ServedAt(cfg.events, cfg.start, cfg.speed, t.applied, t.stall, i)
    {
      assert OnTime(cfg, t, i);
      DueMeans(cfg, t.stall, i);
    }
    var log := OutcomeIsARun(cfg, time, env);
    ReachableKept([cfg], time, log);
    assert ThreadKept([cfg][0], t, s.now);
    StallMeans(cfg, t, s.now);
  }

  /** Starting a producer in an environment: what it applies is the environment's outcome, and
      that is its events at their times. */
  method Start(p: SensorReplayProducer, time: int, env: seq<Moment>)
    returns (applied: seq<Application>, ghost log: seq<Action>, ghost stall: Option<Stall>)
    ensures Outcome(p.ConfigOf(0), time, env) == AfterRun([p.ConfigOf(0)], time, log)
    ensures var t := Outcome(p.ConfigOf(0), time, env).threads[0];
      && applied == t.applied && stall == t.stall && t.finished
      && forall i: nat :: i < |t.applied| ==> OnTime(p.ConfigOf(0), t, i)
    ensures Served(p.events, p.replayStart, p.speed, p.stallAfterMs, p.stallDurationMs, env, applied, stall)
    ensures IsSorted(p.events) ==> IsSorted(EventsOf(applied))
  {
    var runner := new Runner(p.ConfigOf(0), time, env);
    runner.Run();
    applied := runner.applied;
    log := OutcomeIsARun(p.ConfigOf(0), time, env);
    OutcomeMeaning(p.ConfigOf(0), time, env);
    OutcomeIsServed(p.ConfigOf(0), time, env);
    stall := Outcome(p.ConfigOf(0), time, env).threads[0].stall;
    SameOrder(p.events, applied, p.replayStart, p.speed, stall);
  }

  lemma SameOrder(events: seq<Event>, applied: seq<Application>, start: int, speed: Speed, stall: Option<Stall>)
    requires |applied| <= |events|
    requires forall i: nat :: i < |applied| ==> ServedAt(events, start, speed, applied, stall, i)
    ensures EventsOf(applied) == events[..|applied|]
  {
    forall i: nat | i < |applied|
      ensures EventsOf(applied)[i] == events[i]
    {
      assert ServedAt(events, start, speed, applied, stall, i);
    }
  }

  function EventsOf(applied: seq<Application>): seq<Event> {
    seq(|applied|, i requires 0 <= i < |applied| => applied[i].event)
  }

  /** A producer's life: made of events in any order, told to stall, started.  In every environment
      it applies a part of those events in the order of their timestamps, and all of them, each
      once, if no stop comes. */
  method Replay(unsorted: seq<Event>, start: int, factor: Speed, stallAfterMs: int, stallDurationMs: int,
                time: int, env: seq<Moment>) returns (applied: seq<Application>)
    ensures IsSorted(EventsOf(applied))
    ensures multiset(EventsOf(applied)) <= multiset(unsorted)
    ensures NeverStops(env) ==> multiset(EventsOf(applied)) == multiset(unsorted)
  {
    var p := new SensorReplayProducer(unsorted, start, factor);
    p.InjectStall(stallAfterMs, stallDurationMs);
    ghost var log, stall;
    applied, log, stall := Start(p, time, env);
    SameOrder(p.events, applied, p.replayStart, p.speed, stall);
    assert p.events == p.events[..|applied|] + p.events[|applied|..];
  }
}
