/** requestStop against one interruptible wait.  The wait tests the flag and blocks under its
    mutex; requestStop sets the flag and notifies without it, so its two steps fall anywhere.
    A blocked wait may also wake for no reason, and then tests the flag again. */
module StopWakeup {

  /** A thread in wait_until or wait_for: about to test the flag, between the test and the
      block, blocked, or back. */
  datatype Waiter = Testing | Blocking | Blocked | Returned

  datatype State = State(waiter: Waiter, stopRequested: bool)

  /** Test and Block are the wait's own steps, Wake is a spurious wake-up, SetFlag and Notify
      are the steps of requestStop, Expire is the deadline. */
  datatype Action = Test | Block | Wake | SetFlag | Notify | Expire

  function Step(s: State, a: Action): State {
    match a
    case Test => if s.waiter.Testing? then s.(waiter := if s.stopRequested then Returned else Blocking) else s
    case Block => if s.waiter.Blocking? then s.(waiter := Blocked) else s
    case Wake => if s.waiter.Blocked? then s.(waiter := Testing) else s
    case SetFlag => s.(stopRequested := true)
    case Notify => if s.waiter.Blocked? then s.(waiter := Testing) else s
    case Expire => if s.waiter.Blocked? then s.(waiter := Returned) else s
  }

  function Run(s: State, actions: seq<Action>): State
    decreases |actions|
  {
    if actions == [] then s else Run(Step(s, actions[0]), actions[1..])
  }

  /** The wait's own steps, and spurious wake-ups. */
  predicate Alone(actions: seq<Action>) {
    forall i :: 0 <= i < |actions| ==> actions[i].Test? || actions[i].Block? || actions[i].Wake?
  }

  /** A spurious wake-up finds the wait blocked. */
  predicate Wakes(s: State, actions: seq<Action>)
    decreases |actions|
  {
    actions != [] && ((actions[0].Wake? && s.waiter.Blocked?) || Wakes(Step(s, actions[0]), actions[1..]))
  }

  predicate NoWake(actions: seq<Action>) {
    forall i :: 0 <= i < |actions| ==> !actions[i].Wake?
  }

  lemma {:induction false} NoneWakes(s: State, actions: seq<Action>)
    requires NoWake(actions)
    ensures !Wakes(s, actions)
    decreases |actions|
  {
    if actions != [] {
      NoneWakes(Step(s, actions[0]), actions[1..]);
    }
  }

  /** The wait can take no step of its own. */
  predicate Settled(s: State) {
    Step(s, Test) == s && Step(s, Block) == s
  }

  predicate PastTest(w: Waiter) {
    w.Blocking? || w.Blocked?
  }

  /** With the flag set, a wait past its test stays there until a wake-up finds it blocked; one
      that is not, or no longer, returns. */
  lemma {:induction false} AloneUnderStop(s: State, actions: seq<Action>)
    requires s.stopRequested && Alone(actions)
    ensures var r := Run(s, actions);
      && r.stopRequested
      && (PastTest(r.waiter) <==> PastTest(s.waiter) && !Wakes(s, actions))
      && (r.waiter.Blocking? ==> s.waiter.Blocking?)
    decreases |actions|
  {
    if actions != [] {
      assert actions[0] in actions;
      AloneUnderStop(Step(s, actions[0]), actions[1..]);
    }
  }

  /** requestStop, with the wait alone between its two steps, and behind them until the wait can
      take no more. */
  function Stopped(s: State, between: seq<Action>, behind: seq<Action>): State {
    Run(Step(Run(Step(s, SetFlag), between), Notify), behind)
  }

  /** A stop ends a wait without its deadline unless the notification falls between the wait's
      test of the flag and its block; then only a spurious wake-up does. */
  lemma StopWakesUnlessBlocking(s: State, between: seq<Action>, behind: seq<Action>)
    requires Alone(between) && Alone(behind) && Settled(Stopped(s, between, behind))
    ensures var notified := Run(Step(s, SetFlag), between);
      && (Stopped(s, between, behind).waiter.Returned? <==> !notified.waiter.Blocking? || Wakes(notified, behind))
      && (Stopped(s, between, behind).waiter.Returned? || Stopped(s, between, behind).waiter.Blocked?)
      && (notified.waiter.Blocking? ==> s.waiter.Blocking?)
  {
    var notified := Run(Step(s, SetFlag), between);
    AloneUnderStop(Step(s, SetFlag), between);
    AloneUnderStop(Step(notified, Notify), behind);
  }

  /** With nothing between flag and notification: if the wait is blocked, or has not tested the
      flag, or is over, and otherwise only by a spurious wake-up. */
  lemma PromptStopWakesIff(s: State, behind: seq<Action>)
    requires Alone(behind) && Settled(Stopped(s, [], behind))
    ensures Stopped(s, [], behind).waiter.Returned? <==>
      s.waiter.Blocked? || s.waiter.Testing? || s.waiter.Returned? || Wakes(Step(s, SetFlag), behind)
  {
    StopWakesUnlessBlocking(s, [], behind);
  }

  /** A wait whose notification was lost stays blocked while nothing wakes it for no reason,
      and its deadline ends it. */
  lemma LostStopLastsToTheDeadline(s: State, behind: seq<Action>)
    requires s.waiter.Blocking? && Alone(behind) && NoWake(behind) && Settled(Stopped(s, [], behind))
    ensures Stopped(s, [], behind).waiter.Blocked? && Step(Stopped(s, [], behind), Expire).waiter.Returned?
  {
    StopWakesUnlessBlocking(s, [], behind);
    NoneWakes(Step(s, SetFlag), behind);
  }
}
