/** Leases and retry times in terms of the clock: what a grant, a sweep and a requeue promise
    the run, over any history around them. */
module LeaseTimes {
  import opened Wrappers
  import opened Arithmetic
  import opened RunQueue
  import opened LeaseProtocol
  import Supervision

  // ----- A lease holds to its last microsecond, and no longer

  /** At this time the worker was given the run, or confirmed to have it, for so many seconds. */
  ghost predicate Granted(w: World, s: Step, r: RunId, worker: WorkerId, at: int, seconds: int) {
    Enabled(w, s) && r in w.db.runs &&
    match s
    case Claim(worker', now, lease, _, _, ids) => worker' == worker && r in ids && now == at && lease == seconds
    case Beat(f, now, lease) =>
      f.worker == worker && f.claim.id == r && now == at && lease == seconds
      && w.db.runs[r].status == Running && w.db.runs[r].claimedBy == Some(worker)
    case _ => false
  }

  /** Neither that worker on that run, nor a sweep after the deadline. */
  predicate Quiet(s: Step, r: RunId, worker: WorkerId, deadline: int) {
    match s
    case Beat(f, _, _) => !(f.worker == worker && f.claim.id == r)
    case Settle(f, _, _, _) => !(f.worker == worker && f.claim.id == r)
    case Fail(f, _, _, _, _) => !(f.worker == worker && f.claim.id == r)
    case Expire(now, _, _) => now <= deadline
    case _ => true
  }

  predicate AllQuiet(t: seq<Step>, r: RunId, worker: WorkerId, deadline: int) {
    forall i :: 0 <= i < |t| ==> Quiet(t[i], r, worker, deadline)
  }

  predicate Leased(row: Run, worker: WorkerId, deadline: int) {
    row.status == Running && row.claimedBy == Some(worker) && row.claimExpiresAt == Some(deadline)
  }

  lemma GrantLeases(w: World, s: Step, r: RunId, worker: WorkerId, at: int, seconds: int)
    requires Granted(w, s, r, worker, at, seconds)
    ensures r in Next(w, s).db.runs && Leased(Next(w, s).db.runs[r], worker, at + seconds * 1_000_000)
  {
  }

  lemma QuietStep(w: World, s: Step, r: RunId, worker: WorkerId, deadline: int)
    requires Enabled(w, s) && r in w.db.runs && Leased(w.db.runs[r], worker, deadline) && Quiet(s, r, worker, deadline)
    ensures r in Next(w, s).db.runs && Next(w, s).db.runs[r] == w.db.runs[r]
  {
  }

  lemma {:induction false} QuietHistory(w: World, t: seq<Step>, r: RunId, worker: WorkerId, deadline: int)
    requires Valid(w, t) && r in w.db.runs && Leased(w.db.runs[r], worker, deadline) && AllQuiet(t, r, worker, deadline)
    ensures r in Final(w, t).db.runs && Final(w, t).db.runs[r] == w.db.runs[r]
    decreases |t|
  {
    if t != [] {
      QuietStep(w, t[0], r, worker, deadline);
      QuietHistory(Next(w, t[0]), t[1..], r, worker, deadline);
    }
  }

  lemma SweepIsExact(w: World, sweep: Step, r: RunId, worker: WorkerId, deadline: int)
    requires sweep.Expire? && r in w.db.runs && Leased(w.db.runs[r], worker, deadline)
    ensures r in Next(w, sweep).db.runs
    ensures if sweep.now <= deadline then Next(w, sweep).db.runs[r] == w.db.runs[r]
            else Swept(w.db.runs[r], Next(w, sweep).db.runs[r], sweep.now, sweep.base, sweep.max)
  {
  }

  /** After a claim or heartbeat for so many seconds, and any history in which that worker does
      nothing more to the run, a sweep leaves the run as it is up to the last microsecond of
      the lease and settles it from the next one on. */
  lemma LeaseIsExact(w: World, s: Step, t: seq<Step>, sweep: Step, r: RunId, worker: WorkerId, at: int, seconds: int)
    requires Granted(w, s, r, worker, at, seconds) && Valid(Next(w, s), t) && AllQuiet(t, r, worker, at + seconds * 1_000_000)
    requires sweep.Expire?
    ensures var before := Final(Next(w, s), t); var after := Next(before, sweep);
            && r in before.db.runs && r in after.db.runs
            && before.db.runs[r].status == Running && before.db.runs[r].claimedBy == Some(worker)
            && if sweep.now <= at + seconds * 1_000_000 then after.db.runs[r] == before.db.runs[r]
               else Swept(before.db.runs[r], after.db.runs[r], sweep.now, sweep.base, sweep.max)
  {
    var deadline := at + seconds * 1_000_000;
    GrantLeases(w, s, r, worker, at, seconds);
    QuietHistory(Next(w, s), t, r, worker, deadline);
    SweepIsExact(Final(Next(w, s), t), sweep, r, worker, deadline);
  }

  /** What a claim may take, by its columns: queued rows that are available and have attempts
      left, and before them none that is available longer, or as long and older. */
  predicate MayTake(runs: map<RunId, Run>, locked: set<RunId>, now: int, r: RunId) {
    r in runs && runs[r].status == Queued && runs[r].availableAt <= now && runs[r].attemptCount < runs[r].maxAttempts && r !in locked
  }

  predicate NotAfter(a: Run, b: Run) {
    a.availableAt < b.availableAt || (a.availableAt == b.availableAt && a.createdAt <= b.createdAt)
  }

  lemma BatchByColumns(runs: map<RunId, Run>, locked: set<RunId>, now: int, limit: int, ids: set<RunId>)
    ensures IsClaimBatch(runs, locked, now, limit, ids) <==>
              ((forall r :: r in ids ==> MayTake(runs, locked, now, r)) && |ids| <= limit
               && (forall other :: MayTake(runs, locked, now, other) && other !in ids ==> |ids| == limit)
               && (forall r, other :: r in ids && MayTake(runs, locked, now, other) && other !in ids ==> NotAfter(runs[r], runs[other])))
  {
  }

  /** And what it makes of a row. */
  lemma ClaimedRow(runs: map<RunId, Run>, ids: set<RunId>, worker: WorkerId, now: int, seconds: int, r: RunId)
    requires r in runs
    ensures r in ClaimRows(runs, ids, worker, now, seconds)
    ensures var a, b := runs[r], ClaimRows(runs, ids, worker, now, seconds)[r];
            if r !in ids then b == a
            else
              && Leased(b, worker, now + seconds * 1_000_000) && b.attemptCount == a.attemptCount + 1 && b.errorMessage.None?
              && b.startedAt == (if a.startedAt.Some? then a.startedAt else Some(now))
              && SameRequest(a, b) && b.availableAt == a.availableAt && b.completedAt == a.completedAt
              && b.exitCode == a.exitCode && b.output == a.output
  {
  }

  // ----- A requeued run waits

  predicate ClaimsBefore(t: seq<Step>, due: int) {
    forall i :: 0 <= i < |t| && t[i].Claim? ==> t[i].now < due
  }

  lemma QueuedStep(w: World, s: Step, r: RunId, due: int)
    requires Enabled(w, s) && r in w.db.runs && w.db.runs[r].status == Queued && w.db.runs[r].availableAt == due
    requires s.Claim? ==> s.now < due
    ensures r in Next(w, s).db.runs && Next(w, s).db.runs[r] == w.db.runs[r]
  {
  }

  /** Whatever happens, a queued run stays in the queue until a claim at its time or later. */
  lemma {:induction false} QueuedUntilDue(w: World, t: seq<Step>, r: RunId, due: int)
    requires Valid(w, t) && ClaimsBefore(t, due)
    requires r in w.db.runs && w.db.runs[r].status == Queued && w.db.runs[r].availableAt == due
    ensures r in Final(w, t).db.runs && Final(w, t).db.runs[r] == w.db.runs[r]
    decreases |t|
  {
    if t != [] {
      QueuedStep(w, t[0], r, due);
      QueuedUntilDue(Next(w, t[0]), t[1..], r, due);
    }
  }

  /** When a running row goes back into the queue, and how long it is then to wait. */
  function Delay(s: Step, row: Run): int {
    match s
    case Expire(_, base, max) => BackoffSeconds(base, Max(0, max), row.attemptCount)
    case Fail(f, _, conf, _, _) => BackoffSeconds(conf.backoffBase, conf.backoffMax, f.claim.attemptCount)
    case Settle(f, _, conf, _) => BackoffSeconds(conf.backoffBase, conf.backoffMax, f.claim.attemptCount)
    case _ => 0
  }

  function TimeOf(s: Step): int {
    match s
    case Expire(now, _, _) => now
    case Fail(_, now, _, _, _) => now
    case Settle(_, now, _, _) => now
    case _ => 0
  }

  lemma FailureDue(db: Db, f: Flight, conf: Settings, now: int, exit: int, message: string, r: RunId)
    requires r in db.runs && db.runs[r].status == Running
    ensures r in SettleFailure(db, f.worker, f.claim, conf, now, exit, message).runs
    ensures var b := SettleFailure(db, f.worker, f.claim, conf, now, exit, message).runs[r];
            b.status == Queued ==>
              f.claim.id == r && b.availableAt == now + BackoffSeconds(conf.backoffBase, conf.backoffMax, f.claim.attemptCount) * 1_000_000
  {
  }

  lemma SettleDue(db: Db, f: Flight, now: int, conf: Settings, seen: Observed, r: RunId)
    requires r in db.runs && db.runs[r].status == Running
    ensures r in SettleDb(db, f, now, conf, seen).runs
    ensures var b := SettleDb(db, f, now, conf, seen).runs[r];
            b.status == Queued ==>
              f.claim.id == r && b.availableAt == now + BackoffSeconds(conf.backoffBase, conf.backoffMax, f.claim.attemptCount) * 1_000_000
  {
    if f.claim.id in db.runs {
      var plan := PlanOf(db.runs[f.claim.id], seen);
      if plan.Failure? {
        FailureDue(db, f, conf, now, plan.exit, plan.message, r);
      }
    }
  }

  lemma RequeueDue(w: World, s: Step, r: RunId)
    requires Enabled(w, s) && r in w.db.runs && w.db.runs[r].status == Running
    requires r in Next(w, s).db.runs && Next(w, s).db.runs[r].status == Queued
    ensures s.Expire? || ((s.Fail? || s.Settle?) && s.flight.claim.id == r)
    ensures Next(w, s).db.runs[r].availableAt == TimeOf(s) + Delay(s, w.db.runs[r]) * 1_000_000
  {
    match s
    case Fail(f, now, conf, exit, message) => FailureDue(w.db, f, conf, now, exit, message, r);
    case Settle(f, now, conf, seen) => SettleDue(w.db, f, now, conf, seen, r);
    case _ =>
  }

  /** A run that goes back into the queue is not claimed before its backoff has passed, by a
      sweep or a failure, over any history that follows. */
  lemma BackoffIsWaited(w: World, s: Step, t: seq<Step>, r: RunId)
    requires Enabled(w, s) && r in w.db.runs && w.db.runs[r].status == Running
    requires r in Next(w, s).db.runs && Next(w, s).db.runs[r].status == Queued && Valid(Next(w, s), t)
    requires ClaimsBefore(t, TimeOf(s) + Delay(s, w.db.runs[r]) * 1_000_000)
    ensures r in Final(Next(w, s), t).db.runs && Final(Next(w, s), t).db.runs[r] == Next(w, s).db.runs[r]
  {
    RequeueDue(w, s, r);
    QueuedUntilDue(Next(w, s), t, r, TimeOf(s) + Delay(s, w.db.runs[r]) * 1_000_000);
  }

  // ----- The supervision loop on the table

  function Micros(x: real): int {
    (x * 1_000_000.0).Floor
  }

  /** Timestamps are whole microseconds. */
  predicate Whole(x: real) {
    x * 1_000_000.0 == Micros(x) as real
  }

  predicate AllWhole(events: seq<Supervision.Event>) {
    forall i :: 0 <= i < |events| ==> if events[i].Turn? then Whole(events[i].stamp) else Whole(events[i].now)
  }

  /** The transactions behind the events of a supervised run. */
  function StepsOf(events: seq<Supervision.Event>, f: Flight, lastBeat: real, interval: real, lease: int, conf: Settings): seq<Step> {
    if events == [] then []
    else
      match events[0]
      case Turn(at, stamp, _) =>
        if at - lastBeat >= interval then [Beat(f, Micros(stamp), lease)] + StepsOf(events[1..], f, at, interval, lease, conf)
        else StepsOf(events[1..], f, lastBeat, interval, lease, conf)
      case Sweep(now) =>
        [Expire(Micros(now), conf.backoffBase, conf.backoffMax)] + StepsOf(events[1..], f, lastBeat, interval, lease, conf)
  }

  predicate StillHeld(w: World, f: Flight) {
    f.claim.id in w.db.runs && w.db.runs[f.claim.id].status == Running && w.db.runs[f.claim.id].claimedBy == Some(f.worker)
  }

  lemma StepFirst(w: World, s: Step, t: seq<Step>)
    requires Enabled(w, s) && Valid(Next(w, s), t)
    ensures Valid(w, [s] + t) && Final(w, [s] + t) == Final(Next(w, s), t)
  {
    assert ([s] + t)[0] == s && ([s] + t)[1..] == t;
  }

  lemma LostStep(w: World, f: Flight, s: Step)
    requires f in w.flights && !StillHeld(w, f) && ((s.Beat? && s.flight == f) || s.Expire?)
    ensures Enabled(w, s) && f in Next(w, s).flights && !StillHeld(Next(w, s), f)
  {
  }

  lemma {:induction false} LostForGood(w: World, f: Flight, events: seq<Supervision.Event>, lastBeat: real, interval: real, lease: int, conf: Settings)
    requires f in w.flights && !StillHeld(w, f)
    ensures Valid(w, StepsOf(events, f, lastBeat, interval, lease, conf))
    ensures !StillHeld(Final(w, StepsOf(events, f, lastBeat, interval, lease, conf)), f)
    decreases |events|
  {
    if events != [] {
      match events[0]
      case Turn(at, stamp, _) =>
        if at - lastBeat >= interval {
          var s := Beat(f, Micros(stamp), lease);
          LostStep(w, f, s);
          LostForGood(Next(w, s), f, events[1..], at, interval, lease, conf);
          StepFirst(w, s, StepsOf(events[1..], f, at, interval, lease, conf));
        } else {
          LostForGood(w, f, events[1..], lastBeat, interval, lease, conf);
        }
      case Sweep(now) =>
        var s := Expire(Micros(now), conf.backoffBase, conf.backoffMax);
        LostStep(w, f, s);
        LostForGood(Next(w, s), f, events[1..], lastBeat, interval, lease, conf);
        StepFirst(w, s, StepsOf(events[1..], f, lastBeat, interval, lease, conf));
    }
  }

  lemma WholeLater(x: real, seconds: int)
    requires Whole(x)
    ensures Whole(x + seconds as real) && Micros(x + seconds as real) == Micros(x) + seconds * 1_000_000
  {
    assert (x + seconds as real) * 1_000_000.0 == (Micros(x) + seconds * 1_000_000) as real;
  }

  lemma WholeOrder(x: real, y: real)
    requires Whole(x) && Whole(y)
    ensures x < y <==> Micros(x) < Micros(y)
  {
  }

  lemma BeatStep(w: World, f: Flight, expires: int, stamp: real, lease: int)
    requires f in w.flights && f.claim.id in w.db.runs && Leased(w.db.runs[f.claim.id], f.worker, expires) && Whole(stamp)
    ensures var s := Beat(f, Micros(stamp), lease);
            && Enabled(w, s) && f in Next(w, s).flights && f.claim.id in Next(w, s).db.runs
            && Leased(Next(w, s).db.runs[f.claim.id], f.worker, Micros(stamp + lease as real)) && Whole(stamp + lease as real)
  {
    WholeLater(stamp, lease);
  }

  lemma SweepStep(w: World, f: Flight, expires: real, now: real, conf: Settings)
    requires f in w.flights && f.claim.id in w.db.runs && Leased(w.db.runs[f.claim.id], f.worker, Micros(expires))
    requires Whole(expires) && Whole(now)
    ensures var s := Expire(Micros(now), conf.backoffBase, conf.backoffMax);
            && Enabled(w, s) && f in Next(w, s).flights
            && if expires < now then !StillHeld(Next(w, s), f)
               else f.claim.id in Next(w, s).db.runs && Next(w, s).db.runs[f.claim.id] == w.db.runs[f.claim.id]
  {
    WholeOrder(expires, now);
    SweepIsExact(w, Expire(Micros(now), conf.backoffBase, conf.backoffMax), f.claim.id, f.worker, Micros(expires));
  }

  /** The loop keeps its lease exactly when the transactions it and the sweeps commit leave the
      row with its worker: the events of `Supervise` are steps on the table. */
  lemma {:induction false} SurvivesOnTable(w: World, f: Flight, events: seq<Supervision.Event>, lastBeat: real, expires: real, interval: real, lease: int, conf: Settings)
    requires f in w.flights && f.claim.id in w.db.runs && Leased(w.db.runs[f.claim.id], f.worker, Micros(expires))
    requires AllWhole(events) && Whole(expires)
    ensures Valid(w, StepsOf(events, f, lastBeat, interval, lease, conf))
    ensures Supervision.Survives(events, lastBeat, expires, interval, lease as real)
       <==> StillHeld(Final(w, StepsOf(events, f, lastBeat, interval, lease, conf)), f)
    decreases |events|
  {
    if events != [] {
      assert AllWhole(events[1..]);
      match events[0]
      case Turn(at, stamp, _) =>
        if at - lastBeat >= interval {
          var s := Beat(f, Micros(stamp), lease);
          BeatStep(w, f, Micros(expires), stamp, lease);
          SurvivesOnTable(Next(w, s), f, events[1..], at, stamp + lease as real, interval, lease, conf);
          StepFirst(w, s, StepsOf(events[1..], f, at, interval, lease, conf));
        } else {
          SurvivesOnTable(w, f, events[1..], lastBeat, expires, interval, lease, conf);
        }
      case Sweep(now) =>
        var s := Expire(Micros(now), conf.backoffBase, conf.backoffMax);
        SweepStep(w, f, expires, now, conf);
        if expires < now {
          LostForGood(Next(w, s), f, events[1..], lastBeat, interval, lease, conf);
        } else {
          SurvivesOnTable(Next(w, s), f, events[1..], lastBeat, expires, interval, lease, conf);
        }
        StepFirst(w, s, StepsOf(events[1..], f, lastBeat, interval, lease, conf));
    }
  }
}
