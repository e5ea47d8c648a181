/** A replay producer before it runs (sensor_producer.cpp): its sorted events, its timing and
    its stall. */
module ReplayProducer {
  import opened Options
  import opened Products
  import opened VehicleState

  datatype Event = Event(tsMs: int, sample: Sample)

  /** A positive speed factor num / den. */
  datatype Factor = Factor(num: int, den: int)

  type Speed = f: Factor | f.num > 0 && f.den > 0 witness Factor(1, 1)

  datatype Config = Config(
    events: seq<Event>, start: int, speed: Speed, stallAfterMs: int, stallDurationMs: int, staleAfterMs: int)

  /** static_cast<long long>(ts_ms / speed_factor): truncated toward zero. */
  function Offset(tsMs: int, speed: Speed): int {
    if tsMs >= 0 then tsMs * speed.den / speed.num else -(-tsMs * speed.den / speed.num)
  }

  /** When an event is due, counted from the replay's anchor. */
  function Target(anchor: int, tsMs: int, speed: Speed): int {
    anchor + Ms(Offset(tsMs, speed))
  }

  predicate IsSorted(events: seq<Event>) {
    forall i, j :: 0 <= i < j < |events| ==> events[i].tsMs <= events[j].tsMs
  }

  predicate Stalls(cfg: Config, e: Event) {
    cfg.stallAfterMs >= 0 && e.tsMs >= cfg.stallAfterMs
  }

  lemma QuotientGrows(a: int, b: int, n: int)
    requires 0 <= a <= b && n > 0
    ensures a / n <= b / n
  {
    var q := b / n - a / n;
    if q < 0 {
      assert n * (b / n) <= n * (a / n - 1) by {
        ProductGrows(b / n, a / n - 1, n);
      }
    }
  }

  /** Later timestamps are never due earlier. */
  lemma OffsetGrows(a: int, b: int, speed: Speed)
    requires a <= b
    ensures Offset(a, speed) <= Offset(b, speed)
  {
    ProductGrows(a, b, speed.den);
    if a >= 0 {
      ProductGrows(0, a, speed.den);
      QuotientGrows(a * speed.den, b * speed.den, speed.num);
    } else if b >= 0 {
      ProductGrows(0, -a, speed.den);
      ProductGrows(0, b, speed.den);
      QuotientGrows(0, -a * speed.den, speed.num);
      QuotientGrows(0, b * speed.den, speed.num);
    } else {
      ProductGrows(0, -b, speed.den);
      ProductGrows(-b, -a, speed.den);
      QuotientGrows(-b * speed.den, -a * speed.den, speed.num);
    }
  }

  /** q is ts * den / num truncated toward zero. */
  predicate Truncates(q: int, ts: int, num: int, den: int) {
    if ts >= 0 then q * num <= ts * den < (q + 1) * num else (q - 1) * num < ts * den <= q * num
  }

  lemma QuotientBounds(x: int, n: int)
    requires n > 0
    ensures x / n * n <= x < (x / n + 1) * n
  {
    assert x == n * (x / n) + x % n;
  }

  lemma OffsetTruncates(tsMs: int, speed: Speed)
    ensures Truncates(Offset(tsMs, speed), tsMs, speed.num, speed.den)
    ensures Offset(-tsMs, speed) == -Offset(tsMs, speed)
  {
    var x := if tsMs >= 0 then tsMs * speed.den else -tsMs * speed.den;
    QuotientBounds(x, speed.num);
    Negated(x / speed.num, speed.num);
    Negated(tsMs, speed.den);
  }

  lemma Negated(a: int, b: int)
    ensures -a * b == -(a * b) && (-a - 1) * b == -((a + 1) * b)
  {}

  /** This many nanoseconds are a whole number of milliseconds: the timestamp divided by the
      speed factor, truncated toward zero. */
  predicate InReplayTime(span: int, tsMs: int, speed: Speed) {
    span % 1_000_000 == 0 && Truncates(span / 1_000_000, tsMs, speed.num, speed.den)
  }

  lemma TargetInReplayTime(anchor: int, tsMs: int, speed: Speed)
    ensures InReplayTime(Target(anchor, tsMs, speed) - anchor, tsMs, speed)
  {
    OffsetTruncates(tsMs, speed);
  }

  class SensorReplayProducer {
    var events: seq<Event>
    var replayStart: int
    var speed: Speed
    var stallAfterMs: int
    var stallDurationMs: int

    function ConfigOf(staleAfterMs: int): Config
      reads this
    {
      Config(events, replayStart, speed, stallAfterMs, stallDurationMs, staleAfterMs)
    }

    constructor (unsorted: seq<Event>, start: int, factor: Speed)
      ensures IsSorted(events) && multiset(events) == multiset(unsorted)
      ensures replayStart == start && speed == factor && stallAfterMs == -1 && stallDurationMs == 0
    {
      events := unsorted;
      replayStart, speed := start, factor;
      stallAfterMs, stallDurationMs := -1, 0;
      new;
      SortEvents();
    }

    /** The sort of the constructor; any order of equal timestamps is as good. */
    method SortEvents()
      modifies `events
      ensures IsSorted(events) && multiset(events) == multiset(old(events))
    {
      var rest := events;
      events := [];
      while rest != []
        invariant IsSorted(events) && multiset(events) + multiset(rest) == multiset(old(events))
        decreases |rest|
      {
        assert rest == [rest[0]] + rest[1..];
        events := Inserted(events, rest[0]);
        rest := rest[1..];
      }
    }

    method InjectStall(afterMs: int, durationMs: int)
      modifies `stallAfterMs, `stallDurationMs
      ensures stallAfterMs == afterMs && stallDurationMs == durationMs
    {
      stallAfterMs := afterMs;
      stallDurationMs := durationMs;
    }
  }

  /** e put into its place. */
  function Inserted(events: seq<Event>, e: Event): (r: seq<Event>)
    requires IsSorted(events)
    ensures IsSorted(r) && multiset(r) == multiset(events) + multiset{e}
  {
    if events == [] || events[|events| - 1].tsMs <= e.tsMs then events + [e]
    else
      var n := |events| - 1;
      assert events == events[..n] + [events[n]];
      var r := Inserted(events[..n], e);
      LastIsGreatest(events[..n], e, r, events[n]);
      r + [events[n]]
  }

  lemma LastIsGreatest(before: seq<Event>, e: Event, r: seq<Event>, last: Event)
    requires multiset(r) == multiset(before) + multiset{e}
    requires e.tsMs <= last.tsMs && forall i :: 0 <= i < |before| ==> before[i].tsMs <= last.tsMs
    ensures forall i :: 0 <= i < |r| ==> r[i].tsMs <= last.tsMs
  {
    forall i | 0 <= i < |r|
      ensures r[i].tsMs <= last.tsMs
    {
      assert r[i] in multiset(r);
    }
  }
}
