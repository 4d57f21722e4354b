/** What ends a run and how, in terms of what its thread observed and of the row alone. */
module Settlement {
  import opened Wrappers
  import opened RunQueue
  import opened LeaseProtocol

  // ----- Three ways a settlement can go

  predicate Prepared(seen: Observed) {
    seen.venv.VenvReady? && seen.pythonExists && seen.configDirExists
  }

  predicate EngineRan(r: Run, seen: Observed) {
    Prepared(seen) && !r.dryRun && seen.engine.Exited? && (r.operation == Process ==> seen.staging.Staged?)
  }

  predicate DigestMatches(r: Run, seen: Observed) {
    r.digestSnapshot.Some? && r.digestSnapshot.value != "" && r.digestSnapshot == seen.currentDigest
  }

  predicate DraftWaits(db: Db, r: Run) {
    r.configuration in db.configs && db.configs[r.configuration].workspace == r.workspace && db.configs[r.configuration].status == Draft
  }

  /** Prepared, and a dry run or an engine that exited with 0 and what the operation needs. */
  predicate Succeeds(db: Db, r: Run, seen: Observed) {
    Prepared(seen) &&
    (r.dryRun ||
     (EngineRan(r, seen) && seen.engine.code == 0 &&
      match r.operation
      case Validate => true
      case Publish => DigestMatches(r, seen) && DraftWaits(db, r)
      case Process =>
        !seen.engine.timedOut && !seen.upload.UploadFailed? && (seen.upload.Uploaded? ==> seen.upload.file in db.files)))
  }

  /** The observations that fail the run, each with its exit code. */
  predicate FailsWith(r: Run, seen: Observed, exit: int) {
    || (exit == 2 && (seen.venv.VenvFailed? || (seen.venv.VenvReady? && !Prepared(seen))))
    || (exit == 2 && Prepared(seen) && !r.dryRun && r.operation == Process && seen.staging.Rejected?)
    || (exit == 2 && EngineRan(r, seen) && seen.engine.code == 0 && r.operation == Publish && !DigestMatches(r, seen))
    || (exit == 2 && EngineRan(r, seen) && seen.engine.code == 0 && r.operation == Process && !seen.engine.timedOut && seen.upload.UploadFailed?)
    || (EngineRan(r, seen) && exit == seen.engine.code && (exit != 0 || (r.operation == Process && seen.engine.timedOut)))
  }

  /** The claim was found lost, or the transaction was rolled back. */
  predicate LeavesAlone(db: Db, r: Run, seen: Observed) {
    || seen.venv.VenvLost?
    || (Prepared(seen) && !r.dryRun && (r.operation == Process ==> seen.staging.Staged?) && seen.engine.HeartbeatLost?)
    || RolledBack(db, r, seen)
  }

  predicate RolledBack(db: Db, r: Run, seen: Observed) {
    EngineRan(r, seen) && seen.engine.code == 0 &&
    match r.operation
    case Validate => false
    case Publish => DigestMatches(r, seen) && !DraftWaits(db, r)
    case Process => !seen.engine.timedOut && seen.upload.Uploaded? && seen.upload.file !in db.files
  }

  /** The three exclude each other and leave nothing out. */
  lemma ExactlyOne(db: Db, r: Run, seen: Observed)
    ensures Succeeds(db, r, seen) ==> !LeavesAlone(db, r, seen) && forall exit :: !FailsWith(r, seen, exit)
    ensures LeavesAlone(db, r, seen) ==> forall exit :: !FailsWith(r, seen, exit)
    ensures !Succeeds(db, r, seen) && !LeavesAlone(db, r, seen) ==> exists exit :: FailsWith(r, seen, exit)
    ensures forall e, e' :: FailsWith(r, seen, e) && FailsWith(r, seen, e') ==> e == e'
  {
    if !Succeeds(db, r, seen) && !LeavesAlone(db, r, seen) {
      assert FailsWith(r, seen, 2) || (seen.engine.Exited? && FailsWith(r, seen, seen.engine.code));
    }
  }

  // ----- What each does to the row

  predicate HeldBy(db: Db, f: Flight) {
    f.claim.id in db.runs && db.runs[f.claim.id].status == Running && db.runs[f.claim.id].claimedBy == Some(f.worker)
  }

  /** The version an execution stores: none but that of a process run that uploaded one. */
  function OutputOf(r: Run, seen: Observed): Option<VersionId> {
    if !r.dryRun && r.operation == Process && seen.upload.Uploaded? then Some(seen.upload.version) else None
  }

  predicate Done(a: Run, b: Run, now: int, output: Option<VersionId>) {
    b.status == Succeeded && b.exitCode == Some(0) && b.completedAt == Some(now) && b.claimedBy.None? && b.claimExpiresAt.None?
    && b.attemptCount == a.attemptCount && b.output == output
  }

  /** Back in the queue for as long as the backoff says, or failed for good. */
  predicate FailedOrQueued(a: Run, b: Run, claim: RunClaim, conf: Settings, now: int, exit: int) {
    && b.claimedBy.None? && b.claimExpiresAt.None? && b.attemptCount == a.attemptCount && b.errorMessage.Some? && b.output.None?
    && if claim.attemptCount < claim.maxAttempts
       then b.status == Queued && b.exitCode.None? && b.completedAt.None?
         && b.availableAt == now + BackoffSeconds(conf.backoffBase, conf.backoffMax, claim.attemptCount) * SECOND
       else b.status == Failed && b.exitCode == Some(exit) && b.completedAt == Some(now)
  }

  lemma PlansFailure(r: Run, seen: Observed, exit: int)
    ensures FailsWith(r, seen, exit) <==> PlanOf(r, seen).Failure? && PlanOf(r, seen).exit == exit
  {
  }

  lemma PlansRest(db: Db, r: Run, seen: Observed)
    ensures var plan := PlanOf(r, seen);
            match plan
            case Lost => LeavesAlone(db, r, seen) && !Succeeds(db, r, seen)
            case Failure(_, _) => !Succeeds(db, r, seen) && !LeavesAlone(db, r, seen)
            case Activation(_) => OutputOf(r, seen) == None && Succeeds(db, r, seen) == DraftWaits(db, r) && LeavesAlone(db, r, seen) == !DraftWaits(db, r)
            case Complete(_, stored) =>
              var kept := stored.Some? ==> stored.value.0 in db.files;
              OutputOf(r, seen) == (if stored.Some? then Some(stored.value.1) else None) && Succeeds(db, r, seen) == kept && LeavesAlone(db, r, seen) == !kept
  {
  }

  lemma FailureOutcome(db: Db, f: Flight, now: int, conf: Settings, exit: int, message: string, r: Run, after: Run)
    requires HeldBy(db, f) && r == db.runs[f.claim.id]
    requires after == SettleFailure(db, f.worker, f.claim, conf, now, exit, message).runs[f.claim.id]
    ensures FailedOrQueued(r, after, f.claim, conf, now, exit) && after.status != Succeeded && after != r
  {
  }

  lemma SuccessOutcome(db: Db, f: Flight, now: int, note: Option<string>, stored: Option<(FileId, VersionId)>, r: Run, after: Run)
    requires HeldBy(db, f) && r == db.runs[f.claim.id]
    requires after == SettleSuccess(db, f.worker, f.claim.id, now, note, stored).runs[f.claim.id]
    ensures if stored.Some? ==> stored.value.0 in db.files
            then Done(r, after, now, if stored.Some? then Some(stored.value.1) else None) else after == r
  {
  }

  lemma PublishOutcome(db: Db, f: Flight, now: int, digest: string, r: Run, after: Run)
    requires HeldBy(db, f) && r == db.runs[f.claim.id]
    requires after == SettlePublish(db, f.worker, f.claim.id, now, digest).runs[f.claim.id]
    ensures if DraftWaits(db, r) then Done(r, after, now, None) else after == r
  {
  }

  /** What the settlement of a held run does to its row, for all observations. */
  lemma SettleOutcome(db: Db, f: Flight, now: int, conf: Settings, seen: Observed, r: Run, after: Run)
    requires HeldBy(db, f) && r == db.runs[f.claim.id] && after == SettleDb(db, f, now, conf, seen).runs[f.claim.id]
    ensures after.status == Succeeded <==> Succeeds(db, r, seen)
    ensures Succeeds(db, r, seen) ==> Done(r, after, now, OutputOf(r, seen))
    ensures forall exit :: FailsWith(r, seen, exit) ==> FailedOrQueued(r, after, f.claim, conf, now, exit)
    ensures after == r <==> LeavesAlone(db, r, seen)
  {
    var plan := PlanOf(r, seen);
    PlansRest(db, r, seen);
    forall exit | FailsWith(r, seen, exit)
      ensures plan.Failure? && plan.exit == exit
    {
      PlansFailure(r, seen, exit);
    }
    PlanOutcome(db, f, now, conf, plan, r, after);
  }

  lemma PlanOutcome(db: Db, f: Flight, now: int, conf: Settings, plan: Plan, r: Run, after: Run)
    requires HeldBy(db, f) && r == db.runs[f.claim.id]
    requires after == (match plan
                       case Lost => db
                       case Failure(exit, message) => SettleFailure(db, f.worker, f.claim, conf, now, exit, message)
                       case Complete(note, stored) => SettleSuccess(db, f.worker, f.claim.id, now, note, stored)
                       case Activation(digest) => SettlePublish(db, f.worker, f.claim.id, now, digest)).runs[f.claim.id]
    ensures match plan
            case Lost => after == r
            case Failure(exit, _) => FailedOrQueued(r, after, f.claim, conf, now, exit) && after.status != Succeeded && after != r
            case Activation(_) => if DraftWaits(db, r) then Done(r, after, now, None) else after == r
            case Complete(_, stored) =>
              if stored.Some? ==> stored.value.0 in db.files
              then Done(r, after, now, if stored.Some? then Some(stored.value.1) else None) else after == r
  {
    match plan
    case Lost =>
    case Failure(exit, message) => FailureOutcome(db, f, now, conf, exit, message, r, after);
    case Complete(note, stored) => SuccessOutcome(db, f, now, note, stored, r, after);
    case Activation(digest) => PublishOutcome(db, f, now, digest, r, after);
  }

  /** A settlement by a thread that no longer holds the run changes nothing at all. */
  lemma SettleUnheld(db: Db, f: Flight, now: int, conf: Settings, seen: Observed)
    requires !HeldBy(db, f)
    ensures SettleDb(db, f, now, conf, seen) == db
  {
  }

  /** What a whole `process_run` does when nobody interferes: its settlement and, after a
      rolled back publish, the failure transaction. */
  function ProcessRunDb(db: Db, f: Flight, now: int, conf: Settings, seen: Observed): Db {
    var settled := SettleDb(db, f, now, conf, seen);
    if StaysInFlight(db, f, seen) then SettleFailure(settled, f.worker, f.claim, conf, now, 2, STALE_SNAPSHOT) else settled
  }

  /** What running a held claim to its end leaves of its row: a publication that was rolled back
      is then failed with exit code 2, every other outcome is that of the settlement. */
  ghost predicate ProcessedAs(db: Db, f: Flight, now: int, conf: Settings, seen: Observed, after: Db)
    requires HeldBy(db, f)
  {
    f.claim.id in after.runs && var r, r' := db.runs[f.claim.id], after.runs[f.claim.id];
    var undone := RolledBack(db, r, seen) && r.operation == Publish;
    && (r'.status == Succeeded <==> Succeeds(db, r, seen))
    && (Succeeds(db, r, seen) ==> Done(r, r', now, OutputOf(r, seen)))
    && (forall exit :: FailsWith(r, seen, exit) ==> FailedOrQueued(r, r', f.claim, conf, now, exit))
    && (undone ==> FailedOrQueued(r, r', f.claim, conf, now, 2))
    && (r' == r <==> LeavesAlone(db, r, seen) && !undone)
  }

  lemma ProcessRunOutcome(db: Db, f: Flight, now: int, conf: Settings, seen: Observed)
    ensures if HeldBy(db, f) then ProcessedAs(db, f, now, conf, seen, ProcessRunDb(db, f, now, conf, seen))
            else ProcessRunDb(db, f, now, conf, seen) == db
  {
    if HeldBy(db, f) {
      var r, settled := db.runs[f.claim.id], SettleDb(db, f, now, conf, seen);
      SettleOutcome(db, f, now, conf, seen, r, settled.runs[f.claim.id]);
      if StaysInFlight(db, f, seen) {
        StaysWhenUndone(db, f, seen, r);
        FailureOutcome(settled, f, now, conf, 2, STALE_SNAPSHOT, r, ProcessRunDb(db, f, now, conf, seen).runs[f.claim.id]);
      }
      StaysWhenUndone(db, f, seen, r);
    } else {
      SettleUnheld(db, f, now, conf, seen);
    }
  }

  /** The thread lives on exactly after a publication that was rolled back. */
  lemma StaysWhenUndone(db: Db, f: Flight, seen: Observed, r: Run)
    requires HeldBy(db, f) && r == db.runs[f.claim.id]
    ensures StaysInFlight(db, f, seen) <==> RolledBack(db, r, seen) && r.operation == Publish
  {
  }
}
