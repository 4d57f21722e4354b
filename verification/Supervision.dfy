/** Keeping a lease alive while a subprocess runs: the polling loop of
    `SubprocessRunner.run` against lease sweeps.  Times are real numbers of seconds on one
    clock; the monotonic clock and the timestamp clock are taken to advance together. */
module Supervision {

  /** What happens to the supervised run, in order of effect.  A turn of the loop reads the
      clock at `at`; if it sends a heartbeat, that carries the timestamp `stamp` and is
      committed at `done`.  A sweep takes the lease if it has expired at its own time. */
  datatype Event = Turn(at: real, stamp: real, done: real) | Sweep(now: real)

  /** The heartbeat sent before the loop: its timestamp, and `last_hb`, read once it is over. */
  datatype Start = Start(stamp: real, lastBeat: real)

  predicate TimedStart(start: Start, h: real) {
    start.stamp <= start.lastBeat <= start.stamp + h
  }

  /** Turns begin at most `d` apart and end their work within `h`; a sweep falls between the
      end of the turn before it and the end of the turn after it. */
  predicate Timed(events: seq<Event>, at: real, done: real, d: real, h: real) {
    events == [] ||
    match events[0]
    case Turn(at', stamp, done') =>
      at <= at' <= at + d && at' <= stamp <= done' <= at' + h && done <= done' && Timed(events[1..], at', done', d, h)
    case Sweep(now) =>
      done <= now <= at + d + h && Timed(events[1..], at, now, d, h)
  }

  /** Does the lease survive every sweep, with heartbeats sent by the loop's rule? */
  predicate Survives(events: seq<Event>, lastBeat: real, expires: real, interval: real, lease: real) {
    events == [] ||
    match events[0]
    case Turn(at, stamp, _) =>
      if at - lastBeat >= interval then Survives(events[1..], at, stamp + lease, interval, lease)
      else Survives(events[1..], lastBeat, expires, interval, lease)
    case Sweep(now) =>
      !(expires < now) && Survives(events[1..], lastBeat, expires, interval, lease)
  }

  /** The loop itself, stopped by the first lost heartbeat. */
  method Supervise(events: seq<Event>, start: Start, interval: real, lease: real) returns (kept: bool)
    ensures kept == Survives(events, start.lastBeat, start.stamp + lease, interval, lease)
  {
    var lastBeat, expires := start.lastBeat, start.stamp + lease;
    var i := 0;
    while i < |events|
      invariant 0 <= i <= |events|
      invariant Survives(events, start.lastBeat, start.stamp + lease, interval, lease)
                <==> Survives(events[i..], lastBeat, expires, interval, lease)
    {
      assert events[i..][1..] == events[i + 1..];
      match events[i] {
        case Turn(at, stamp, _) =>
          if at - lastBeat >= interval {
            lastBeat, expires := at, stamp + lease;
          }
        case Sweep(now) =>
          if expires < now {
            return false;
          }
      }
      i := i + 1;
    }
    return true;
  }

  lemma {:induction false} LeaseKept(events: seq<Event>, at: real, done: real, lastBeat: real, stamp: real, d: real, h: real, interval: real, lease: real)
    requires Timed(events, at, done, d, h) && 0.0 < d && 0.0 <= h && 0.0 < interval
    requires interval + d + 2.0 * h <= lease
    requires lastBeat <= stamp + h && (at == lastBeat || at - lastBeat < interval)
    ensures Survives(events, lastBeat, stamp + lease, interval, lease)
  {
    if events != [] {
      match events[0]
      case Turn(at', stamp', done') =>
        if at' - lastBeat >= interval {
          LeaseKept(events[1..], at', done', at', stamp', d, h, interval, lease);
        } else {
          LeaseKept(events[1..], at', done', lastBeat, stamp, d, h, interval, lease);
        }
      case Sweep(now) =>
        LeaseKept(events[1..], at, now, lastBeat, stamp, d, h, interval, lease);
    }
  }

  ghost predicate AlwaysKept(d: real, h: real, interval: real, lease: real) {
    forall start: Start, events: seq<Event> ::
      TimedStart(start, h) && Timed(events, start.lastBeat, start.lastBeat, d, h) ==>
        Survives(events, start.lastBeat, start.stamp + lease, interval, lease)
  }

  /** Turns every `step` seconds until one more would reach the heartbeat interval. */
  function Climb(n: nat, at: real, step: real, tail: seq<Event>): seq<Event> {
    if n == 0 then tail else [Turn(at + step, at + step, at + step)] + Climb(n - 1, at + step, step, tail)
  }

  function ClimbEnd(n: nat, at: real, step: real): real {
    if n == 0 then at else ClimbEnd(n - 1, at + step, step)
  }

  lemma {:induction false} ClimbEndIsProduct(n: nat, at: real, step: real)
    ensures ClimbEnd(n, at, step) == at + n as real * step
  {
    if n != 0 {
      ClimbEndIsProduct(n - 1, at + step, step);
      assert (n - 1) as real * step == n as real * step - step;
    }
  }

  lemma {:induction false} ClimbEndAfter(n: nat, at: real, step: real)
    requires 0.0 <= step
    ensures at <= ClimbEnd(n, at, step)
  {
    if n != 0 {
      ClimbEndAfter(n - 1, at + step, step);
    }
  }

  lemma {:induction false} ClimbTimed(n: nat, at: real, step: real, tail: seq<Event>, d: real, h: real)
    requires 0.0 <= step <= d && 0.0 <= h
    requires Timed(tail, ClimbEnd(n, at, step), ClimbEnd(n, at, step), d, h)
    ensures Timed(Climb(n, at, step, tail), at, at, d, h)
  {
    if n != 0 {
      var rest := Climb(n - 1, at + step, step, tail);
      ClimbTimed(n - 1, at + step, step, tail, d, h);
      assert Climb(n, at, step, tail)[1..] == rest;
    }
  }

  lemma {:induction false} ClimbSurvives(n: nat, at: real, step: real, tail: seq<Event>, lastBeat: real, expires: real, interval: real, lease: real)
    requires 0.0 <= step && ClimbEnd(n, at, step) - lastBeat < interval
    ensures Survives(Climb(n, at, step, tail), lastBeat, expires, interval, lease) <==> Survives(tail, lastBeat, expires, interval, lease)
  {
    if n != 0 {
      var rest := Climb(n - 1, at + step, step, tail);
      ClimbEndAfter(n - 1, at + step, step);
      ClimbSurvives(n - 1, at + step, step, tail, lastBeat, expires, interval, lease);
      assert Climb(n, at, step, tail)[1..] == rest;
    }
  }

  lemma SmallerFactor(n: real, a: real, b: real)
    requires 0.0 < n && n * a <= n * b
    ensures a <= b
  {
  }

  lemma ShareIsSmall(reach: real, d: real, n: real)
    requires 0.0 < n && 0.0 < d && reach / d <= n
    ensures reach / n <= d && n * (reach / n) == reach
  {
    var q := reach / d;
    assert q * d == reach;
    SmallerFactor(1.0, q * d, n * d);
    SmallerFactor(n, reach / n, d);
  }

  lemma StepsExist(reach: real, d: real) returns (n: nat, step: real)
    requires 0.0 <= reach && 0.0 < d
    ensures 0.0 <= step <= d && n as real * step == reach
  {
    n := (reach / d).Floor + 1;
    step := reach / n as real;
    ShareIsSmall(reach, d, n as real);
  }

  /** The latest a sweep can come without the loop having renewed the lease. */
  lemma LeaseLost(d: real, h: real, interval: real, lease: real)
    requires 0.0 < d && 0.0 <= h && 0.0 < interval && lease < interval + d + 2.0 * h
    ensures !AlwaysKept(d, h, interval, lease)
  {
    var slack := interval + d + 2.0 * h - lease;
    var reach := if slack / 2.0 < interval then interval - slack / 2.0 else 0.0;
    var start := Start(0.0, h);
    var now := h + reach + d + h;
    var last := Turn(h + reach + d, h + reach + d, now);
    var tail := [Sweep(now), last];
    var n, step := StepsExist(reach, d);
    ClimbEndIsProduct(n, h, step);
    assert tail[1..] == [last] && [last][1..] == [];
    assert Timed([last], h + reach, now, d, h);
    ClimbTimed(n, h, step, tail, d, h);
    ClimbSurvives(n, h, step, tail, h, lease, interval, lease);
    assert !Survives(Climb(n, h, step, tail), start.lastBeat, start.stamp + lease, interval, lease);
  }

  /** No sweep, at any time and under any timing of the loop, takes the lease exactly when
      the interval, one turn and two heartbeat latencies fit into it. */
  lemma KeptIffFits(d: real, h: real, interval: real, lease: real)
    requires 0.0 < d && 0.0 <= h && 0.0 < interval
    ensures AlwaysKept(d, h, interval, lease) <==> interval + d + 2.0 * h <= lease
  {
    if interval + d + 2.0 * h <= lease {
      forall start: Start, events: seq<Event> | TimedStart(start, h) && Timed(events, start.lastBeat, start.lastBeat, d, h)
        ensures Survives(events, start.lastBeat, start.stamp + lease, interval, lease)
      {
        LeaseKept(events, start.lastBeat, start.lastBeat, start.lastBeat, start.stamp, d, h, interval, lease);
      }
    } else {
      LeaseLost(d, h, interval, lease);
    }
  }

  /** The interval every caller passes. */
  function HeartbeatInterval(leaseSeconds: int): real {
    if leaseSeconds as real / 3.0 < 1.0 then 1.0 else leaseSeconds as real / 3.0
  }

  /** With the interval the worker uses: from three seconds on, two thirds of the lease are
      left for the turn and the latencies; a lease of one second is never safe. */
  lemma WorkerLeaseKeptIff(leaseSeconds: int, d: real, h: real)
    requires 1 <= leaseSeconds && 0.0 < d && 0.0 <= h
    ensures 3 <= leaseSeconds ==>
              (AlwaysKept(d, h, HeartbeatInterval(leaseSeconds), leaseSeconds as real) <==> d + 2.0 * h <= leaseSeconds as real * 2.0 / 3.0)
    ensures leaseSeconds == 2 ==> (AlwaysKept(d, h, HeartbeatInterval(leaseSeconds), leaseSeconds as real) <==> d + 2.0 * h <= 1.0)
    ensures leaseSeconds == 1 ==> !AlwaysKept(d, h, HeartbeatInterval(leaseSeconds), leaseSeconds as real)
  {
    KeptIffFits(d, h, HeartbeatInterval(leaseSeconds), leaseSeconds as real);
  }
}
