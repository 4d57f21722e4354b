/** What the missing attempt number in the guards costs, and exactly when it costs nothing.
    The statements check `claimed_by` only; a worker that claims a run again while an older
    claim of the same run is still in flight cannot be told from its older self. */
module LeaseFencing {
  import opened Wrappers
  import opened RunQueue
  import opened LeaseProtocol
  import opened LeaseSafety

  /** Queued with no attempt left: no claim will ever take the row. */
  predicate Stranded(r: Run) {
    r.status == Queued && r.maxAttempts <= r.attemptCount
  }

  // ----- A stranded run is lost, and only a stranded run is

  lemma {:induction false} StrandedForever(w: World, t: seq<Step>, r: RunId)
    requires Valid(w, t) && r in w.db.runs && Stranded(w.db.runs[r])
    ensures r in Final(w, t).db.runs && Final(w, t).db.runs[r] == w.db.runs[r]
    decreases |t|
  {
    if t != [] {
      RowStep(w, t[0], r);
      StrandedForever(Next(w, t[0]), t[1..], r);
    }
  }

  ghost predicate CanFinish(w: World, r: RunId) {
    exists t: seq<Step> :: Finishes(w, t, r)
  }

  ghost predicate Finishes(w: World, t: seq<Step>, r: RunId) {
    Valid(w, t) && r in Final(w, t).db.runs && Terminal(Final(w, t).db.runs[r])
  }

  /** From a queued run with attempts left, claiming everything that is eligible is a step. */
  lemma ClaimAll(w: World, now: int)
    ensures var ids := set id | id in w.db.runs && Eligible(w.db.runs[id], now);
            Enabled(w, Claim("any", now, 0, |ids| + 1, {}, ids))
  {
  }

  // ----- Which settlements strand a run

  /** The failure transaction strands its run exactly when it matches the row although the
      row has used up its attempts and the claim it was handed had not. */
  lemma FailureStrandsIff(db: Db, worker: WorkerId, claim: RunClaim, conf: Settings, now: int, exit: int, message: string)
    requires claim.id in db.runs && RowOk(db.runs[claim.id]) && !Stranded(db.runs[claim.id])
    ensures Stranded(SettleFailure(db, worker, claim, conf, now, exit, message).runs[claim.id]) <==>
              (Holds(db.runs, claim.id, worker) && claim.attemptCount < claim.maxAttempts
               && db.runs[claim.id].attemptCount == db.runs[claim.id].maxAttempts)
  {
  }

  // ----- Discipline: no worker claims a run it still has in flight

  ghost predicate SelfReclaim(w: World, s: Step) {
    s.Claim? && exists f :: f in w.flights && f.worker == s.worker && f.claim.id in s.ids
  }

  ghost predicate Disciplined(w: World, t: seq<Step>)
    decreases |t|
  {
    t == [] || (!SelfReclaim(w, t[0]) && Disciplined(Next(w, t[0]), t[1..]))
  }

  // ----- Finishing without a self-reclaim

  ghost predicate CanFinishDisciplined(w: World, r: RunId) {
    exists t: seq<Step> :: Finishes(w, t, r) && Disciplined(w, t)
  }

  lemma FinishByStep(w: World, s: Step, r: RunId)
    requires Enabled(w, s) && !SelfReclaim(w, s) && CanFinishDisciplined(Next(w, s), r)
    ensures CanFinishDisciplined(w, r)
  {
    var t: seq<Step> :| Finishes(Next(w, s), t, r) && Disciplined(Next(w, s), t);
    assert ([s] + t)[0] == s && ([s] + t)[1..] == t;
    assert Finishes(w, [s] + t, r) && Disciplined(w, [s] + t);
  }

  /** One step on the way: a thread that ends, a sweep, or a claim when no thread is left. */
  lemma StepToFinish(w: World, r: RunId) returns (s: Step)
    requires RowsOk(w.db) && r in w.db.runs && !Stranded(w.db.runs[r]) && !Terminal(w.db.runs[r])
    ensures Enabled(w, s) && !SelfReclaim(w, s)
    ensures w.flights != {} ==> s.Abandon? && s.flight in w.flights
    ensures w.flights == {} && w.db.runs[r].status == Running ==> s == Expire(w.db.runs[r].claimExpiresAt.value + 1, 0, 0)
    ensures w.flights == {} && w.db.runs[r].status == Queued ==> s.Claim? && r in s.ids
  {
    var row := w.db.runs[r];
    if w.flights != {} {
      var f :| f in w.flights;
      s := Abandon(f);
    } else if row.status == Running {
      s := Expire(row.claimExpiresAt.value + 1, 0, 0);
    } else {
      ClaimAll(w, row.availableAt);
      var ids := set id | id in w.db.runs && Eligible(w.db.runs[id], row.availableAt);
      s := Claim("any", row.availableAt, 0, |ids| + 1, {}, ids);
    }
  }

  /** Any run that is not stranded can be finished by steps none of which is a self-reclaim. */
  lemma {:induction false} UnstrandedFinishes(w: World, r: RunId)
    requires RowsOk(w.db) && r in w.db.runs && !Stranded(w.db.runs[r])
    ensures CanFinishDisciplined(w, r)
    decreases Budget(w.db.runs[r]), |w.flights|
  {
    if Terminal(w.db.runs[r]) {
      assert Finishes(w, [], r) && Disciplined(w, []);
    } else {
      var s := StepToFinish(w, r);
      NearerToFinish(w, s, r);
      UnstrandedFinishes(Next(w, s), r);
      FinishByStep(w, s, r);
    }
  }

  lemma NearerToFinish(w: World, s: Step, r: RunId)
    requires RowsOk(w.db) && r in w.db.runs && !Stranded(w.db.runs[r]) && !Terminal(w.db.runs[r]) && Enabled(w, s)
    requires w.flights != {} ==> s.Abandon? && s.flight in w.flights
    requires w.flights == {} && w.db.runs[r].status == Running ==> s == Expire(w.db.runs[r].claimExpiresAt.value + 1, 0, 0)
    requires w.flights == {} && w.db.runs[r].status == Queued ==> s.Claim? && r in s.ids
    ensures RowsOk(Next(w, s).db) && r in Next(w, s).db.runs && !Stranded(Next(w, s).db.runs[r])
    ensures Budget(Next(w, s).db.runs[r]) < Budget(w.db.runs[r])
         || (Next(w, s).db == w.db && |Next(w, s).flights| < |w.flights|)
  {
    RowsOkStep(w, s);
    if w.flights == {} {
      BudgetStep(w, s, r);
    }
  }

  /** A run can still reach a final status exactly when it is not stranded. */
  lemma CanFinishIffNotStranded(w: World, r: RunId)
    requires RowsOk(w.db) && r in w.db.runs
    ensures CanFinish(w, r) <==> !Stranded(w.db.runs[r])
  {
    if Stranded(w.db.runs[r]) {
      forall t: seq<Step> | Valid(w, t)
        ensures !Finishes(w, t, r)
      {
        StrandedForever(w, t, r);
      }
    } else {
      UnstrandedFinishes(w, r);
    }
  }

  /** The claim carries the numbers its row had when it was made. */
  predicate Consistent(db: Db, f: Flight) {
    && f.claim.id in db.runs
    && f.claim.maxAttempts == db.runs[f.claim.id].maxAttempts
    && f.claim.attemptCount <= db.runs[f.claim.id].attemptCount
    && (Holds(db.runs, f.claim.id, f.worker) ==> f.claim.attemptCount == db.runs[f.claim.id].attemptCount)
  }

  ghost predicate OneFlightEach(flights: set<Flight>) {
    forall f, g :: f in flights && g in flights && f.worker == g.worker && f.claim.id == g.claim.id ==> f == g
  }

  ghost predicate NoneStranded(db: Db) {
    forall r :: r in db.runs ==> !Stranded(db.runs[r])
  }

  ghost predicate Fenced(w: World) {
    && RowsOk(w.db)
    && (forall f :: f in w.flights ==> Consistent(w.db, f))
    && OneFlightEach(w.flights)
    && NoneStranded(w.db)
  }

  lemma FlightStep(w: World, s: Step, f: Flight)
    requires Enabled(w, s) && Fenced(w) && !SelfReclaim(w, s) && f in Next(w, s).flights
    ensures Consistent(Next(w, s).db, f)
  {
    if f in w.flights {
      RowStep(w, s, f.claim.id);
    }
  }

  lemma FailStrandsNone(w: World, s: Step)
    requires Enabled(w, s) && Fenced(w) && s.Fail? && s.flight.claim.id in w.db.runs
    ensures !Stranded(Next(w, s).db.runs[s.flight.claim.id])
  {
    FailureStrandsIff(w.db, s.flight.worker, s.flight.claim, s.conf, s.now, s.exit, s.message);
  }

  lemma SettleStrandsNone(w: World, s: Step)
    requires Enabled(w, s) && Fenced(w) && s.Settle? && s.flight.claim.id in w.db.runs
    ensures !Stranded(Next(w, s).db.runs[s.flight.claim.id])
  {
    var plan := PlanOf(w.db.runs[s.flight.claim.id], s.seen);
    RowStep(w, s, s.flight.claim.id);
    if plan.Failure? {
      FailureStrandsIff(w.db, s.flight.worker, s.flight.claim, s.conf, s.now, plan.exit, plan.message);
    }
  }

  lemma StrandStep(w: World, s: Step, r: RunId)
    requires Enabled(w, s) && Fenced(w) && r in Next(w, s).db.runs
    ensures !Stranded(Next(w, s).db.runs[r])
  {
    if s.Fail? && s.flight.claim.id == r {
      FailStrandsNone(w, s);
    } else if s.Settle? && s.flight.claim.id == r {
      SettleStrandsNone(w, s);
    } else if r in w.db.runs {
      RowStep(w, s, r);
    }
  }

  lemma FencedStep(w: World, s: Step)
    requires Enabled(w, s) && Fenced(w) && !SelfReclaim(w, s)
    ensures Fenced(Next(w, s))
  {
    RowsOkStep(w, s);
    forall f | f in Next(w, s).flights
      ensures Consistent(Next(w, s).db, f)
    {
      FlightStep(w, s, f);
    }
    forall r | r in Next(w, s).db.runs
      ensures !Stranded(Next(w, s).db.runs[r])
    {
      StrandStep(w, s, r);
    }
  }

  /** A step keeps the fence exactly when it is not a self-reclaim. */
  lemma FenceKeptIffNoSelfReclaim(w: World, s: Step)
    requires Enabled(w, s) && Fenced(w)
    ensures Fenced(Next(w, s)) <==> !SelfReclaim(w, s)
  {
    if SelfReclaim(w, s) {
      var f :| f in w.flights && f.worker == s.worker && f.claim.id in s.ids;
      var row := w.db.runs[f.claim.id];
      var g := Flight(s.worker, RunClaim(f.claim.id, row.attemptCount + 1, row.maxAttempts));
      assert g in FlightsOf(w.db.runs, s.worker, s.ids);
      assert f != g;
      assert f in Next(w, s).flights && g in Next(w, s).flights;
    } else {
      FencedStep(w, s);
    }
  }

  /** In a disciplined history no run is ever stuck: at every point every run can finish, by
      steps that go on being disciplined. */
  lemma {:induction false} NeverStuck(w: World, t: seq<Step>, r: RunId)
    requires Fenced(w) && Valid(w, t) && Disciplined(w, t) && r in Final(w, t).db.runs
    ensures Fenced(Final(w, t)) && CanFinishDisciplined(Final(w, t), r)
    decreases |t|
  {
    if t == [] {
      UnstrandedFinishes(w, r);
    } else {
      FencedStep(w, t[0]);
      NeverStuck(Next(w, t[0]), t[1..], r);
    }
  }

  // ----- The worker-only guard refines a guard with an attempt number

  /** A thread whose claim is the row's current attempt. */
  predicate Current(db: Db, f: Flight) {
    f.claim.id in db.runs && db.runs[f.claim.id].attemptCount == f.claim.attemptCount
  }

  /** The protocol with fencing tokens: a thread whose attempt is over may end, and nothing else. */
  ghost function FencedNext(w: World, s: Step): World {
    match s
    case Beat(f, _, _) => if Current(w.db, f) then Next(w, s) else w
    case Settle(f, _, _, _) => if Current(w.db, f) then Next(w, s) else w.(flights := w.flights - {f})
    case Fail(f, _, _, _, _) => if Current(w.db, f) then Next(w, s) else w.(flights := w.flights - {f})
    case _ => Next(w, s)
  }

  ghost function FencedFinal(w: World, t: seq<Step>): World
    decreases |t|
  {
    if t == [] then w else FencedFinal(FencedNext(w, t[0]), t[1..])
  }

  lemma FencedNextAgrees(w: World, s: Step)
    requires Enabled(w, s) && Fenced(w)
    ensures FencedNext(w, s) == Next(w, s)
  {
    if (s.Beat? || s.Settle? || s.Fail?) && !Current(w.db, s.flight) {
      assert Consistent(w.db, s.flight);
      assert !Holds(w.db.runs, s.flight.claim.id, s.flight.worker);
    }
  }

  /** In a disciplined history the guard without attempt numbers and the guard with them
      produce the same database and the same threads, step for step: a claim that was lost,
      to another worker or to a later attempt, has no effect whatsoever. */
  lemma {:induction false} GuardsRefineFencing(w: World, t: seq<Step>)
    requires Fenced(w) && Valid(w, t) && Disciplined(w, t)
    ensures Final(w, t) == FencedFinal(w, t)
    decreases |t|
  {
    if t != [] {
      FencedNextAgrees(w, t[0]);
      FencedStep(w, t[0]);
      GuardsRefineFencing(Next(w, t[0]), t[1..]);
    }
  }

  // ----- The discipline is needed

  const FRESH_RUN := Run("ws", "cfg", Validate, false, None, 0, 2, Queued, 0, 0, None, None, None, None, None, None, None)

  function Alone(row: Run, flights: set<Flight>): World {
    World(Db(map["r" := row], map[], [], map[]), flights)
  }

  const EMPTY := World(Db(map[], map[], [], map[]), {})
  const FIRST := Flight("w", RunClaim("r", 1, 2))
  const SECOND_TRY := Flight("w", RunClaim("r", 2, 2))
  const CLAIMED := ClaimRow(FRESH_RUN, "w", 0, 1)
  const REQUEUED := ExpireRow(CLAIMED, 2 * SECOND, 0, 0)
  const RECLAIMED := ClaimRow(REQUEUED, "w", 3 * SECOND, 1)

  const ENQUEUE := Enqueue("r", FRESH_RUN)
  const CLAIM := Claim("w", 0, 1, 1, {}, {"r"})
  const SWEEP := Expire(2 * SECOND, 0, 0)
  const RECLAIM := Claim("w", 3 * SECOND, 1, 1, {}, {"r"})
  const LATE_FAILURE := Fail(FIRST, 3 * SECOND, Settings(1, 0, 0), 2, "boom")

  function FromReclaim(): seq<Step> {
    [RECLAIM] + [LATE_FAILURE]
  }

  function FromSweep(): seq<Step> {
    [SWEEP] + FromReclaim()
  }

  function FromClaim(): seq<Step> {
    [CLAIM] + FromSweep()
  }

  /** One worker with room for two threads: its first claim's lease expires, it claims the
      run again, then the first thread fails with its outdated attempt number. */
  function StrandingTrace(): seq<Step> {
    [ENQUEUE] + FromClaim()
  }

  lemma Unroll(w: World, s: Step, t: seq<Step>)
    ensures Valid(w, [s] + t) <==> Enabled(w, s) && Valid(Next(w, s), t)
    ensures Final(w, [s] + t) == Final(Next(w, s), t)
    ensures Disciplined(w, [s] + t) <==> !SelfReclaim(w, s) && Disciplined(Next(w, s), t)
  {
    assert ([s] + t)[1..] == t;
  }

  lemma OneRowClaims(row: Run, flights: set<Flight>, now: int)
    requires Eligible(row, now)
    ensures Enabled(Alone(row, flights), Claim("w", now, 1, 1, {}, {"r"}))
    ensures Next(Alone(row, flights), Claim("w", now, 1, 1, {}, {"r"}))
            == Alone(ClaimRow(row, "w", now, 1), flights + {Flight("w", RunClaim("r", row.attemptCount + 1, row.maxAttempts))})
  {
    assert |{"r"}| == 1;
    var runs := map["r" := row];
    assert FlightsOf(runs, "w", {"r"}) == {Flight("w", RunClaim("r", row.attemptCount + 1, row.maxAttempts))};
    assert ClaimRows(runs, {"r"}, "w", now, 1) == map["r" := ClaimRow(row, "w", now, 1)];
  }

  lemma StrandingStates()
    ensures Next(EMPTY, ENQUEUE) == Alone(FRESH_RUN, {})
    ensures Next(Alone(CLAIMED, {FIRST}), SWEEP) == Alone(REQUEUED, {FIRST})
    ensures Eligible(FRESH_RUN, 0) && Eligible(REQUEUED, 3 * SECOND)
    ensures SelfReclaim(Alone(REQUEUED, {FIRST}), RECLAIM)
    ensures RECLAIMED.status == Running && RECLAIMED.attemptCount == 2 && RECLAIMED.maxAttempts == 2
    ensures RECLAIMED.claimedBy == Some("w") && RECLAIMED.claimExpiresAt.Some?
    ensures RECLAIMED.output.None?
  {
    assert EMPTY.db.runs["r" := FRESH_RUN] == map["r" := FRESH_RUN];
    assert LeaseExpired(CLAIMED, 2 * SECOND);
    assert ExpireRows(map["r" := CLAIMED], 2 * SECOND, 0, 0) == map["r" := REQUEUED];
    assert FIRST in {FIRST} && FIRST.worker == RECLAIM.worker && FIRST.claim.id in RECLAIM.ids;
  }

  ghost predicate Dead(w: World) {
    "r" in w.db.runs && RowsOk(w.db) && !CanFinish(w, "r")
  }

  lemma LateFailureKills()
    ensures var w := Alone(RECLAIMED, {FIRST, SECOND_TRY});
            Valid(w, [LATE_FAILURE]) && Dead(Final(w, [LATE_FAILURE]))
  {
    StrandingStates();
    var w := Alone(RECLAIMED, {FIRST, SECOND_TRY});
    FailureStrandsIff(w.db, "w", FIRST.claim, Settings(1, 0, 0), 3 * SECOND, 2, "boom");
    RowsOkStep(w, LATE_FAILURE);
    CanFinishIffNotStranded(Next(w, LATE_FAILURE), "r");
    Unroll(w, LATE_FAILURE, []);
    assert [LATE_FAILURE] + [] == [LATE_FAILURE];
  }

  lemma ReclaimKills()
    ensures var w := Alone(REQUEUED, {FIRST});
            Valid(w, FromReclaim()) && !Disciplined(w, FromReclaim()) && Dead(Final(w, FromReclaim()))
  {
    StrandingStates();
    OneRowClaims(REQUEUED, {FIRST}, 3 * SECOND);
    assert {FIRST} + {SECOND_TRY} == {FIRST, SECOND_TRY};
    LateFailureKills();
    Unroll(Alone(REQUEUED, {FIRST}), RECLAIM, [LATE_FAILURE]);
  }

  lemma SweepKills()
    ensures var w := Alone(CLAIMED, {FIRST});
            Valid(w, FromSweep()) && !Disciplined(w, FromSweep()) && Dead(Final(w, FromSweep()))
  {
    StrandingStates();
    ReclaimKills();
    Unroll(Alone(CLAIMED, {FIRST}), SWEEP, FromReclaim());
  }

  lemma ClaimKills()
    ensures var w := Alone(FRESH_RUN, {});
            Valid(w, FromClaim()) && !Disciplined(w, FromClaim()) && Dead(Final(w, FromClaim()))
  {
    StrandingStates();
    OneRowClaims(FRESH_RUN, {}, 0);
    assert {} + {FIRST} == {FIRST};
    SweepKills();
    Unroll(Alone(FRESH_RUN, {}), CLAIM, FromSweep());
  }

  /** A valid history from the empty database, undisciplined in its second claim alone,
      after which the run can never finish. */
  lemma SelfReclaimStrands()
    ensures Fenced(EMPTY) && Valid(EMPTY, StrandingTrace()) && !Disciplined(EMPTY, StrandingTrace())
    ensures Dead(Final(EMPTY, StrandingTrace()))
  {
    StrandingStates();
    ClaimKills();
    Unroll(EMPTY, ENQUEUE, FromClaim());
  }
}
