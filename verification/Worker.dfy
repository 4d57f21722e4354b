/** One worker process: the scheduling loop that fills its threads, and the closing
    transactions of a thread (backend/src/ade_worker/worker.py). */
module WorkerLoop {
  import opened Wrappers
  import opened RunQueue
  import opened WorkerSession
  import opened LeaseProtocol
  import opened Settlement

  const CLAIM_BATCH_SIZE := 5

  ghost predicate NoneEligible(runs: map<RunId, Run>, now: int) {
    forall id :: id in runs ==> !Eligible(runs[id], now)
  }

  /** A claim batch of yet unknown size: eligible rows, none overtaking a row left behind. */
  ghost predicate PartialBatch(runs: map<RunId, Run>, now: int, ids: set<RunId>) {
    && (forall id :: id in ids ==> id in runs && Eligible(runs[id], now))
    && (forall other, id :: other in runs && Eligible(runs[other], now) && other !in ids && id in ids ==>
          !Earlier(runs[other], runs[id]))
  }

  lemma BatchIsApart(runs: map<RunId, Run>, ids: set<RunId>, batch: set<RunId>, limit: int, worker: WorkerId, now: int, lease: int)
    requires IsClaimBatch(ClaimRows(runs, ids, worker, now, lease), {}, now, limit, batch)
    ensures ids !! batch && |ids + batch| == |ids| + |batch|
    ensures forall id :: id in batch ==> id in runs
  {
    forall id | id in batch
      ensures id in runs && id !in ids
    {
      assert id in ClaimRows(runs, ids, worker, now, lease);
    }
  }

  lemma ClaimRowsTwice(runs: map<RunId, Run>, ids: set<RunId>, batch: set<RunId>, worker: WorkerId, now: int, lease: int)
    requires ids !! batch
    ensures ClaimRows(ClaimRows(runs, ids, worker, now, lease), batch, worker, now, lease) == ClaimRows(runs, ids + batch, worker, now, lease)
  {
  }

  /** A claim made after other claims extends them to one larger claim. */
  lemma PartialExtends(runs: map<RunId, Run>, ids: set<RunId>, batch: set<RunId>, limit: int, worker: WorkerId, now: int, lease: int)
    requires PartialBatch(runs, now, ids)
    requires IsClaimBatch(ClaimRows(runs, ids, worker, now, lease), {}, now, limit, batch)
    ensures ids !! batch && |ids + batch| == |ids| + |batch| && PartialBatch(runs, now, ids + batch)
    ensures ClaimRows(ClaimRows(runs, ids, worker, now, lease), batch, worker, now, lease) == ClaimRows(runs, ids + batch, worker, now, lease)
  {
    var later := ClaimRows(runs, ids, worker, now, lease);
    BatchIsApart(runs, ids, batch, limit, worker, now, lease);
    ClaimRowsTwice(runs, ids, batch, worker, now, lease);
    assert forall id :: id in runs && id !in ids ==> later[id] == runs[id];
  }

  lemma DropOfAppend<T>(s: seq<T>, t: seq<T>, n: nat)
    requires n <= |s|
    ensures (s + t)[n..] == s[n..] + t
  {
  }

  lemma ClaimsExtend(runs: map<RunId, Run>, ids: set<RunId>, held: seq<RunClaim>, batch: set<RunId>, claims: seq<RunClaim>, worker: WorkerId, now: int, lease: int)
    requires ids !! batch && ClaimsOf(runs, ids, held)
    requires ClaimsOf(ClaimRows(runs, batch, worker, now, lease), batch, claims)
    ensures ClaimsOf(ClaimRows(runs, batch, worker, now, lease), ids + batch, held + claims)
  {
  }

  /** Batches that stop at the limit, or when nothing is eligible any more, are one batch
      of that limit. */
  lemma PartialIsBatch(runs: map<RunId, Run>, ids: set<RunId>, limit: int, worker: WorkerId, now: int, lease: int)
    requires PartialBatch(runs, now, ids) && |ids| <= limit
    requires |ids| == limit || NoneEligible(ClaimRows(runs, ids, worker, now, lease), now)
    ensures IsClaimBatch(runs, {}, now, limit, ids)
  {
    var after := ClaimRows(runs, ids, worker, now, lease);
    forall other | other in runs && Eligible(runs[other], now) && other !in ids
      ensures |ids| == limit
    {
      assert after[other] == runs[other];
    }
  }

  /** The seconds `start` waits when it has nothing to claim, from the two timeouts and the
      next due time. */
  function WaitTime(listenTimeout: int, untilMaintenance: int, due: Option<int>, now: int): int {
    var wait := Max(0, Min(listenTimeout, untilMaintenance));
    if due.Some? then Min(wait, Max(0, due.value - now)) else wait
  }

  /** No wakeup is lost and none is early: during the wait no row is eligible, and a wait
      shorter than both timeouts ends at a moment some row becomes eligible. */
  lemma WaitIsExact(runs: map<RunId, Run>, now: int, due: Option<int>, listenTimeout: int, untilMaintenance: int)
    requires IsNextDue(runs, now, due) && NoneEligible(runs, now)
    ensures var wait := WaitTime(listenTimeout, untilMaintenance, due, now);
            && 0 <= wait <= Max(0, listenTimeout) && wait <= Max(0, untilMaintenance)
            && (forall at :: now <= at < now + wait ==> NoneEligible(runs, at))
            && (wait < Max(0, Min(listenTimeout, untilMaintenance)) ==> 0 < wait && !NoneEligible(runs, now + wait))
  {
    var wait := WaitTime(listenTimeout, untilMaintenance, due, now);
    forall at, id | now <= at < now + wait && id in runs
      ensures !Eligible(runs[id], at)
    {
      assert Eligible(runs[id], at) ==> Waiting(runs[id], now);
    }
    if wait < Max(0, Min(listenTimeout, untilMaintenance)) {
      var id :| id in runs && Waiting(runs[id], now) && runs[id].availableAt == due.value;
      assert Eligible(runs[id], now + wait);
    }
  }

  /** Running a claim to its end is one or two steps of the protocol, and ends the flight. */
  lemma ProcessRunIsSteps(w: World, f: Flight, now: int, conf: Settings, seen: Observed)
    requires f in w.flights && FreshUpload(w.db, seen)
    ensures var t := if StaysInFlight(w.db, f, seen)
                     then [Settle(f, now, conf, seen), Fail(f, now, conf, 2, STALE_SNAPSHOT)] else [Settle(f, now, conf, seen)];
            Valid(w, t) && Final(w, t) == World(ProcessRunDb(w.db, f, now, conf, seen), w.flights - {f})
  {
    var s := Settle(f, now, conf, seen);
    var g := Fail(f, now, conf, 2, STALE_SNAPSHOT);
    if StaysInFlight(w.db, f, seen) {
      assert [s, g][1..] == [g];
      assert Valid(Next(w, s), [g]);
      assert Final(Next(w, s), [g]) == Next(Next(w, s), g);
    } else {
      assert [s][1..] == [];
    }
  }

  class Worker {
    const id: WorkerId
    const concurrency: nat
    const conf: Settings
    const session: Session
    /** The claims whose threads have not been reaped yet. */
    var futures: seq<RunClaim>

    constructor (id: WorkerId, concurrency: nat, conf: Settings, session: Session)
      requires 1 <= concurrency
      ensures this.id == id && this.concurrency == concurrency && this.conf == conf && this.session == session
      ensures futures == []
    {
      this.id, this.concurrency, this.conf, this.session := id, concurrency, conf, session;
      futures := [];
    }

    /** `_drain`: batches of at most five, until no capacity or nothing eligible is left,
        claim exactly what one statement with the whole capacity as its limit would. */
    method Drain(now: int) returns (ghost ids: set<RunId>, claimed: nat)
      modifies this`futures, session`runs
      ensures IsClaimBatch(old(session.runs), {}, now, Max(0, concurrency - |old(futures)|), ids) || (ids == {} && concurrency <= |old(futures)|)
      ensures session.runs == ClaimRows(old(session.runs), ids, id, now, conf.leaseSeconds)
      ensures claimed == |ids| && |futures| == |old(futures)| + claimed
      ensures |futures| <= Max(concurrency, |old(futures)|)
      ensures old(futures) <= futures && ClaimsOf(session.runs, ids, futures[|old(futures)|..])
      ensures |futures| < concurrency ==> NoneEligible(session.runs, now)
    {
      ghost var runs0, held0 := session.runs, futures;
      claimed := 0;
      ids := {};
      var capacity := Max(0, concurrency - |futures|);
      assert ClaimRows(runs0, {}, id, now, conf.leaseSeconds) == runs0;
      if capacity <= 0 {
        return;
      }
      var open := true;
      while open && 0 < capacity
        invariant 0 <= capacity && capacity + |futures| == concurrency && claimed == |ids|
        invariant |futures| == |held0| + claimed && held0 <= futures
        invariant PartialBatch(runs0, now, ids)
        invariant session.runs == ClaimRows(runs0, ids, id, now, conf.leaseSeconds)
        invariant ClaimsOf(session.runs, ids, futures[|held0|..])
        invariant !open ==> NoneEligible(session.runs, now)
        decreases open, capacity
      {
        ghost var before, held := session.runs, futures[|held0|..];
        var batchSize := Min(CLAIM_BATCH_SIZE, capacity);
        var batch, claims := session.ClaimRuns(id, now, conf.leaseSeconds, batchSize, {});
        PartialExtends(runs0, ids, batch, batchSize, id, now, conf.leaseSeconds);
        if claims == [] {
          open := false;
          assert batch == {} && session.runs == before;
        } else {
          ClaimsExtend(before, ids, held, batch, claims, id, now, conf.leaseSeconds);
          ids := ids + batch;
          DropOfAppend(futures, claims, |held0|);
          futures := futures + claims;
          claimed := claimed + |claims|;
          capacity := capacity - |claims|;
        }
      }
      PartialIsBatch(runs0, ids, concurrency - |held0|, id, now, conf.leaseSeconds);
    }

    /** One turn of `start` after reaping: sweep if maintenance is due, fill the free
        threads, and if nothing was claimed compute how long to sleep. */
    method Turn(now: int, maintenanceDue: bool, listenTimeout: int, untilMaintenance: int)
      returns (ghost ids: set<RunId>, claimed: nat, wait: Option<int>)
      modifies this`futures, session`runs
      ensures var swept := if maintenanceDue then ExpireRows(old(session.runs), now, conf.backoffBase, conf.backoffMax) else old(session.runs);
              && (IsClaimBatch(swept, {}, now, Max(0, concurrency - |old(futures)|), ids) || (ids == {} && concurrency <= |old(futures)|))
              && session.runs == ClaimRows(swept, ids, id, now, conf.leaseSeconds)
      ensures claimed == |ids| && |futures| == |old(futures)| + claimed && |futures| <= Max(concurrency, |old(futures)|)
      ensures 0 < claimed <==> wait.None?
      ensures wait.Some? ==> 0 <= wait.value <= Max(0, listenTimeout) && wait.value <= Max(0, untilMaintenance)
      ensures wait.Some? && |futures| < concurrency ==>
                forall at :: now <= at < now + wait.value ==> NoneEligible(session.runs, at)
    {
      if maintenanceDue {
        var expired := session.ExpireRunLeases(now, conf.backoffBase, conf.backoffMax);
      }
      ids, claimed := {}, 0;
      assert ClaimRows(session.runs, {}, id, now, conf.leaseSeconds) == session.runs;
      if |futures| < concurrency {
        ids, claimed := Drain(now);
      }
      if 0 < claimed {
        wait := None;
      } else {
        var due := session.NextRunDueAt(now);
        wait := Some(WaitTime(listenTimeout, untilMaintenance, due, now));
        if |futures| < concurrency {
          WaitIsExact(session.runs, now, due, listenTimeout, untilMaintenance);
        }
      }
    }

    /** `process_run` from its decision on, with no other transaction in between. */
    method ProcessRun(claim: RunClaim, now: int, seen: Observed)
      modifies session
      ensures session.State() == ProcessRunDb(old(session.State()), Flight(id, claim), now, conf, seen)
      ensures if HeldBy(old(session.State()), Flight(id, claim))
              then ProcessedAs(old(session.State()), Flight(id, claim), now, conf, seen, session.State())
              else session.State() == old(session.State())
    {
      if claim.id !in session.runs {
        return;
      }
      var row := session.runs[claim.id];
      ProcessRunOutcome(session.State(), Flight(id, claim), now, conf, seen);
      match PlanOf(row, seen)
      case Lost =>
      case Failure(exit, message) =>
        session.HandleRunFailure(id, claim, conf, now, exit, message);
      case Complete(note, stored) =>
        session.HandleRunSuccess(id, claim.id, now, note, stored);
      case Activation(digest) =>
        var held := Holds(session.runs, claim.id, id);
        var committed := session.HandlePublish(id, claim, row.workspace, row.configuration, digest, now);
        if held && !committed {
          session.HandleRunFailure(id, claim, conf, now, 2, STALE_SNAPSHOT);
        }
    }
  }
}
