/** The database session a worker writes through: each method is one helper of
    backend/src/ade_worker/db.py, or one transaction of backend/src/ade_worker/worker.py,
    updating the tables in place. */
module WorkerSession {
  import opened Wrappers
  import opened RunQueue

  ghost predicate ClaimsOf(runs: map<RunId, Run>, ids: set<RunId>, claims: seq<RunClaim>) {
    && |claims| == |ids|
    && (forall i, j :: 0 <= i < j < |claims| ==> claims[i].id != claims[j].id)
    && (forall i :: 0 <= i < |claims| ==>
          claims[i].id in ids && claims[i].id in runs
          && claims[i] == RunClaim(claims[i].id, runs[claims[i].id].attemptCount, runs[claims[i].id].maxAttempts))
  }

  /** The rows one expiry sweep settles. */
  function ExpiredIds(runs: map<RunId, Run>, now: int): set<RunId> {
    set id | id in runs && LeaseExpired(runs[id], now)
  }

  function ExhaustedIds(runs: map<RunId, Run>, now: int): set<RunId> {
    set id | id in runs && LeaseExpired(runs[id], now) && runs[id].attemptCount >= runs[id].maxAttempts
  }

  function RetriableIds(runs: map<RunId, Run>, now: int): set<RunId> {
    set id | id in runs && LeaseExpired(runs[id], now) && runs[id].attemptCount < runs[id].maxAttempts
  }

  /** `next_run_due_at` as a least upper-bound statement: the earliest time after `now` at
      which some queued row with attempts left becomes available. */
  ghost predicate IsNextDue(runs: map<RunId, Run>, now: int, due: Option<int>) {
    && (due.Some? ==> exists id :: id in runs && Waiting(runs[id], now) && runs[id].availableAt == due.value)
    && (forall id :: id in runs && Waiting(runs[id], now) ==> due.Some? && due.value <= runs[id].availableAt)
  }

  predicate Waiting(r: Run, now: int) {
    r.status == Queued && r.attemptCount < r.maxAttempts && now < r.availableAt
  }

  /** Rows taken so far, none passed over for a later one. */
  ghost predicate FirstTaken(runs: map<RunId, Run>, now: int, locked: set<RunId>, taken: set<RunId>) {
    && (forall id :: id in taken ==> id in runs && Eligible(runs[id], now) && id !in locked)
    && (forall id, other :: id in taken && other in runs && Eligible(runs[other], now) && other !in taken + locked ==>
          !Earlier(runs[other], runs[id]))
  }

  lemma OneMoreTaken(runs: map<RunId, Run>, now: int, locked: set<RunId>, taken: set<RunId>, id: RunId)
    requires FirstTaken(runs, now, locked, taken) && id in runs && Eligible(runs[id], now) && id !in taken + locked
    requires forall other :: other in runs && Eligible(runs[other], now) && other !in taken + locked ==> !Earlier(runs[other], runs[id])
    ensures FirstTaken(runs, now, locked, taken + {id})
  {
  }

  /** One claim for each row taken, with the attempt it is about to start. */
  ghost predicate ClaimsMade(runs: map<RunId, Run>, taken: set<RunId>, claims: seq<RunClaim>) {
    && |claims| == |taken|
    && (forall i, j :: 0 <= i < j < |claims| ==> claims[i].id != claims[j].id)
    && (forall i :: 0 <= i < |claims| ==>
          claims[i].id in taken && claims[i].id in runs
          && claims[i] == RunClaim(claims[i].id, runs[claims[i].id].attemptCount + 1, runs[claims[i].id].maxAttempts))
  }

  lemma OneMoreClaim(runs: map<RunId, Run>, taken: set<RunId>, claims: seq<RunClaim>, id: RunId)
    requires ClaimsMade(runs, taken, claims) && id in runs && id !in taken
    ensures ClaimsMade(runs, taken + {id}, claims + [RunClaim(id, runs[id].attemptCount + 1, runs[id].maxAttempts)])
  {
  }

  lemma MadeClaimsAre(runs: map<RunId, Run>, taken: set<RunId>, claims: seq<RunClaim>, worker: WorkerId, now: int, leaseSeconds: int)
    requires ClaimsMade(runs, taken, claims)
    ensures ClaimsOf(ClaimRows(runs, taken, worker, now, leaseSeconds), taken, claims)
  {
  }

  /** Row by row: a sweep settles exactly the running rows whose lease is over. */
  lemma SweepRows(runs: map<RunId, Run>, now: int, base: int, max: int, r: RunId)
    requires r in runs
    ensures r in ExpireRows(runs, now, base, max)
    ensures if runs[r].status == Running && runs[r].claimExpiresAt.Some? && runs[r].claimExpiresAt.value < now
            then Swept(runs[r], ExpireRows(runs, now, base, max)[r], now, base, max)
            else ExpireRows(runs, now, base, max)[r] == runs[r]
  {
  }

  /** The running rows whose lease is over, by their columns. */
  function Overdue(runs: map<RunId, Run>, now: int): set<RunId> {
    set id | id in runs && runs[id].status == Running && runs[id].claimExpiresAt.Some? && runs[id].claimExpiresAt.value < now
  }

  /** Exactly these rows are swept. */
  ghost predicate SweptOnly(before: map<RunId, Run>, after: map<RunId, Run>, ids: set<RunId>, now: int, base: int, max: int) {
    && after.Keys == before.Keys && ids <= before.Keys
    && (forall id :: id in before && id !in ids ==> after[id] == before[id])
    && (forall id :: id in ids ==> after[id] == ExpireRow(before[id], now, base, max))
  }

  lemma OverdueRows(runs: map<RunId, Run>, now: int)
    ensures Overdue(runs, now) == ExpiredIds(runs, now) == ExhaustedIds(runs, now) + RetriableIds(runs, now)
    ensures |Overdue(runs, now)| == |ExhaustedIds(runs, now)| + |RetriableIds(runs, now)|
  {
  }

  lemma SweepAllRows(runs: map<RunId, Run>, now: int, base: int, max: int)
    ensures forall id :: id in Overdue(runs, now) ==> Swept(runs[id], ExpireRows(runs, now, base, max)[id], now, base, max)
    ensures forall id :: id in runs && id !in Overdue(runs, now) ==> ExpireRows(runs, now, base, max)[id] == runs[id]
  {
    forall id | id in runs
      ensures if id in Overdue(runs, now) then Swept(runs[id], ExpireRows(runs, now, base, max)[id], now, base, max)
              else ExpireRows(runs, now, base, max)[id] == runs[id]
    {
      SweepRows(runs, now, base, max, id);
    }
  }

  /** The two statements together sweep every row once, and leave none to sweep. */
  lemma SweepsTogether(before: map<RunId, Run>, middle: map<RunId, Run>, after: map<RunId, Run>, now: int, base: int, max: int)
    requires SweptOnly(before, middle, ExhaustedIds(before, now), now, 0, 0)
    requires SweptOnly(middle, after, RetriableIds(middle, now), now, base, max)
    ensures after == ExpireRows(before, now, base, max) && ExpiredIds(after, now) == {}
    ensures |Overdue(before, now)| == |ExhaustedIds(before, now)| + |RetriableIds(middle, now)|
  {
    assert RetriableIds(middle, now) == RetriableIds(before, now);
    OverdueRows(before, now);
    forall id | id in before
      ensures after[id] == ExpireRow(before[id], now, base, max)
    {
      OneSweep(before, middle, after, now, base, max, id);
    }
    SweepLeavesNone(before, now, base, max);
  }

  lemma SweepLeavesNone(runs: map<RunId, Run>, now: int, base: int, max: int)
    ensures ExpiredIds(ExpireRows(runs, now, base, max), now) == {}
  {
  }

  lemma OneSweep(before: map<RunId, Run>, middle: map<RunId, Run>, after: map<RunId, Run>, now: int, base: int, max: int, id: RunId)
    requires SweptOnly(before, middle, ExhaustedIds(before, now), now, 0, 0) && RetriableIds(middle, now) == RetriableIds(before, now)
    requires SweptOnly(middle, after, RetriableIds(middle, now), now, base, max) && id in before
    ensures after[id] == ExpireRow(before[id], now, base, max)
  {
  }

  lemma {:induction false} NumbersBelow(versions: seq<FileVersion>, file: FileId)
    ensures forall i :: 0 <= i < |versions| && versions[i].file == file ==> versions[i].no <= MaxNo(versions, file)
  {
    if versions != [] {
      NumbersBelow(versions[..|versions| - 1], file);
    }
  }

  /** No row but this one changes, comes or goes. */
  predicate OthersKept(before: map<RunId, Run>, after: map<RunId, Run>, id: RunId) {
    after.Keys == before.Keys && forall r :: r in before && r != id ==> after[r] == before[r]
  }

  predicate SameQueueColumns(a: Run, b: Run) {
    SameRequest(a, b) && a.startedAt == b.startedAt && a.attemptCount == b.attemptCount && a.availableAt == b.availableAt
  }

  /** The claim is given up; request, start, attempts and earlier result are as they were. */
  predicate Released(a: Run, b: Run) {
    && b.claimedBy.None? && b.claimExpiresAt.None? && SameRequest(a, b) && b.startedAt == a.startedAt
    && b.attemptCount == a.attemptCount && b.exitCode == a.exitCode && b.output == a.output
  }

  class Session {
    var runs: map<RunId, Run>
    var files: map<FileId, File>
    var versions: seq<FileVersion>
    var configs: map<ConfigId, Config>

    function State(): Db
      reads this
    {
      Db(runs, files, versions, configs)
    }

    constructor (db: Db)
      ensures State() == db
    {
      runs, files, versions, configs := db.runs, db.files, db.versions, db.configs;
    }

    /** The next row of the claim order among the eligible rows not yet taken or locked. */
    method EarliestEligible(now: int, taken: set<RunId>) returns (found: Option<RunId>)
      ensures found.Some? ==> found.value in runs && Eligible(runs[found.value], now) && found.value !in taken
      ensures forall id :: id in runs && Eligible(runs[id], now) && id !in taken ==>
                found.Some? && !Earlier(runs[id], runs[found.value])
    {
      found := None;
      var pool := set id | id in runs && Eligible(runs[id], now) && id !in taken;
      while pool != {}
        invariant forall id :: id in pool ==> id in runs && Eligible(runs[id], now) && id !in taken
        invariant found.Some? ==> found.value in runs && Eligible(runs[found.value], now) && found.value !in taken
        invariant forall id :: id in runs && Eligible(runs[id], now) && id !in taken && id !in pool ==>
                    found.Some? && !Earlier(runs[id], runs[found.value])
        decreases |pool|
      {
        var id :| id in pool;
        pool := pool - {id};
        if found.None? || Earlier(runs[id], runs[found.value]) {
          found := Some(id);
        }
      }
    }

    /** `claim_runs`, while other sessions hold some rows locked. */
    method ClaimRuns(worker: WorkerId, now: int, leaseSeconds: int, limit: int, locked: set<RunId>) returns (ghost ids: set<RunId>, claims: seq<RunClaim>)
      modifies this`runs
      ensures IsClaimBatch(old(runs), locked, now, Max(1, limit), ids)
      ensures runs == ClaimRows(old(runs), ids, worker, now, leaseSeconds)
      ensures ClaimsOf(runs, ids, claims)
    {
      claims := [];
      var taken: set<RunId> := {};
      var open := true;
      while open && |taken| < Max(1, limit)
        invariant runs == old(runs) && |taken| <= Max(1, limit)
        invariant FirstTaken(runs, now, locked, taken) && ClaimsMade(runs, taken, claims)
        invariant !open ==> forall other :: other in runs && Eligible(runs[other], now) ==> other in taken + locked
        decreases open, Max(1, limit) - |taken|
      {
        var next := EarliestEligible(now, taken + locked);
        if next.None? {
          open := false;
        } else {
          var id := next.value;
          OneMoreTaken(runs, now, locked, taken, id);
          OneMoreClaim(runs, taken, claims, id);
          claims := claims + [RunClaim(id, runs[id].attemptCount + 1, runs[id].maxAttempts)];
          taken := taken + {id};
        }
      }
      ids := taken;
      MadeClaimsAre(runs, taken, claims, worker, now, leaseSeconds);
      runs := ClaimRows(runs, taken, worker, now, leaseSeconds);
    }

    method HeartbeatRun(id: RunId, worker: WorkerId, now: int, leaseSeconds: int) returns (ok: bool)
      modifies this`runs
      ensures ok == Holds(old(runs), id, worker)
      ensures runs == Heartbeat(old(runs), id, worker, now, leaseSeconds)
      ensures OthersKept(old(runs), runs, id) && (!ok ==> runs == old(runs))
      ensures ok ==>
        && runs[id].claimExpiresAt == Some(now + leaseSeconds * SECOND)
        && runs[id].(claimExpiresAt := old(runs)[id].claimExpiresAt) == old(runs)[id]
    {
      ok := id in runs && runs[id].status == Running && runs[id].claimedBy == Some(worker);
      if ok {
        runs := runs[id := runs[id].(claimExpiresAt := Some(now + leaseSeconds * SECOND))];
      }
    }

    method AckRunSuccess(id: RunId, worker: WorkerId, now: int) returns (ok: bool)
      modifies this`runs
      ensures ok == Holds(old(runs), id, worker)
      ensures runs == AckSuccess(old(runs), id, worker, now)
      ensures OthersKept(old(runs), runs, id) && (!ok ==> runs == old(runs))
      ensures ok ==>
        && runs[id].status == Succeeded && runs[id].completedAt == Some(now) && Released(old(runs)[id], runs[id])
        && runs[id].availableAt == old(runs)[id].availableAt && runs[id].errorMessage == old(runs)[id].errorMessage
    {
      ok := id in runs && runs[id].status == Running && runs[id].claimedBy == Some(worker);
      if ok {
        runs := runs[id := runs[id].(status := Succeeded, completedAt := Some(now), claimedBy := None, claimExpiresAt := None)];
      }
    }

    method AckRunFailure(id: RunId, worker: WorkerId, now: int, message: string, retryAt: Option<int>) returns (ok: bool)
      modifies this`runs
      ensures ok == Holds(old(runs), id, worker)
      ensures runs == AckFailure(old(runs), id, worker, now, message, retryAt)
      ensures OthersKept(old(runs), runs, id) && (!ok ==> runs == old(runs))
      ensures ok ==>
        && runs[id].errorMessage == Some(message) && Released(old(runs)[id], runs[id])
        && runs[id].status == (if retryAt.None? then Failed else Queued)
        && runs[id].completedAt == (if retryAt.None? then Some(now) else None)
        && runs[id].availableAt == (if retryAt.None? then old(runs)[id].availableAt else retryAt.value)
    {
      ok := id in runs && runs[id].status == Running && runs[id].claimedBy == Some(worker);
      if ok {
        var row := runs[id].(claimedBy := None, claimExpiresAt := None, errorMessage := Some(message));
        if retryAt.None? {
          row := row.(status := Failed, completedAt := Some(now));
        } else {
          row := row.(status := Queued, availableAt := retryAt.value, completedAt := None);
        }
        runs := runs[id := row];
      }
    }

    /** RUN_EXPIRE_TERMINAL_BULK. */
    method ExpireTerminalBulk(now: int) returns (count: nat)
      modifies this`runs
      ensures count == |ExhaustedIds(old(runs), now)|
      ensures SweptOnly(old(runs), runs, ExhaustedIds(old(runs), now), now, 0, 0)
    {
      var hit := ExhaustedIds(runs, now);
      count := |hit|;
      runs := map id | id in runs ::
        if id in hit then runs[id].(status := Failed, completedAt := Some(now), claimedBy := None, claimExpiresAt := None, errorMessage := Some("lease expired"))
        else runs[id];
    }

    /** RUN_EXPIRE_REQUEUE_BULK. */
    method ExpireRequeueBulk(now: int, base: int, max: int) returns (count: nat)
      modifies this`runs
      ensures count == |RetriableIds(old(runs), now)|
      ensures SweptOnly(old(runs), runs, RetriableIds(old(runs), now), now, base, max)
    {
      var hit := RetriableIds(runs, now);
      count := |hit|;
      runs := map id | id in runs ::
        if id in hit then runs[id].(status := Queued, availableAt := now + ExpireDelaySeconds(base, max, runs[id].attemptCount) * SECOND,
                                    claimedBy := None, claimExpiresAt := None, errorMessage := Some("lease expired"), completedAt := None)
        else runs[id];
    }

    /** `expire_run_leases`: two bulk updates, one after the other, meet the one-row
        specification, and the summed row counts are the number of expired leases. */
    method ExpireRunLeases(now: int, base: int, max: int) returns (count: nat)
      modifies this`runs
      ensures runs == ExpireRows(old(runs), now, base, max)
      ensures count == |Overdue(old(runs), now)| && runs.Keys == old(runs).Keys
      ensures forall id :: id in Overdue(old(runs), now) ==> Swept(old(runs)[id], runs[id], now, base, max)
      ensures forall id :: id in old(runs) && id !in Overdue(old(runs), now) ==> runs[id] == old(runs)[id]
      ensures ExpiredIds(runs, now) == {}
    {
      ghost var before := runs;
      var ended := ExpireTerminalBulk(now);
      ghost var middle := runs;
      var again := ExpireRequeueBulk(now, base, max);
      SweepsTogether(before, middle, runs, now, base, max);
      SweepAllRows(before, now, base, max);
      count := ended + again;
    }

    method NextRunDueAt(now: int) returns (due: Option<int>)
      ensures IsNextDue(runs, now, due)
    {
      due := None;
      var pool := set id | id in runs && Waiting(runs[id], now);
      while pool != {}
        invariant forall id :: id in pool ==> id in runs && Waiting(runs[id], now)
        invariant due.Some? ==> exists id :: id in runs && Waiting(runs[id], now) && runs[id].availableAt == due.value
        invariant forall id :: id in runs && Waiting(runs[id], now) && id !in pool ==> due.Some? && due.value <= runs[id].availableAt
        decreases |pool|
      {
        var id :| id in pool;
        pool := pool - {id};
        if due.None? || runs[id].availableAt < due.value {
          due := Some(runs[id].availableAt);
        }
      }
    }

    /** `ensure_output_file`: the live row with this key, inserted when there is none. */
    method EnsureOutputFile(workspace: WorkspaceId, nameKey: string, newId: FileId) returns (file: FileId)
      requires newId !in files
      modifies this`files
      ensures file in files && files[file].workspace == workspace && files[file].nameKey == nameKey && !files[file].deleted
      ensures files == if file in old(files) then old(files) else old(files)[newId := File(workspace, nameKey, false, None)]
      ensures file !in old(files) ==>
        forall f :: f in old(files) && old(files)[f].workspace == workspace && old(files)[f].nameKey == nameKey ==> old(files)[f].deleted
    {
      var found := set f | f in files && LiveOutput(files[f], workspace, nameKey);
      if found != {} {
        file :| file in found;
      } else {
        assert forall f :: f in files && LiveOutput(files[f], workspace, nameKey) ==> f in found;
        file := newId;
        files := files[newId := File(workspace, nameKey, false, None)];
      }
    }

    method CreateOutputFileVersion(file: FileId, id: VersionId, run: RunId)
      requires file in files
      modifies this`files, this`versions
      ensures versions == AppendVersion(old(versions), file, id, run)
      ensures |versions| == |old(versions)| + 1 && versions[..|old(versions)|] == old(versions)
      ensures var added := versions[|old(versions)|];
              && added.id == id && added.file == file && added.run == run
              && forall i :: 0 <= i < |old(versions)| && old(versions)[i].file == file ==> old(versions)[i].no < added.no
      ensures files == old(files)[file := old(files)[file].(current := Some(id))]
    {
      NumbersBelow(versions, file);
      var current := 0;
      var i := 0;
      while i < |versions|
        invariant 0 <= i <= |versions|
        invariant current == MaxNo(versions[..i], file)
      {
        assert versions[..i + 1][..i] == versions[..i];
        if versions[i].file == file {
          current := Max(current, versions[i].no);
        }
        i := i + 1;
      }
      assert versions[..i] == versions;
      versions := versions + [FileVersion(id, file, current + 1, run)];
      files := files[file := files[file].(current := Some(id))];
    }

    method RecordRunResult(id: RunId, completedAt: Option<int>, exitCode: Option<int>, output: Option<VersionId>, error: Option<string>)
      modifies this`runs
      ensures runs == RecordResult(old(runs), id, completedAt, exitCode, output, error)
      ensures OthersKept(old(runs), runs, id)
      ensures id in runs ==>
        && runs[id].completedAt == completedAt && runs[id].exitCode == exitCode && runs[id].output == output && runs[id].errorMessage == error
        && runs[id].status == old(runs)[id].status && runs[id].claimedBy == old(runs)[id].claimedBy
        && runs[id].claimExpiresAt == old(runs)[id].claimExpiresAt && SameQueueColumns(old(runs)[id], runs[id])
    {
      if id in runs {
        runs := runs[id := runs[id].(completedAt := completedAt, exitCode := exitCode, output := output, errorMessage := error)];
      }
    }

    method ActivateConfigurationPublish(workspace: WorkspaceId, id: ConfigId, digest: string, now: int) returns (ok: bool)
      modifies this`configs
      ensures ok == (id in old(configs) && old(configs)[id].workspace == workspace && old(configs)[id].status == Draft)
      ensures configs == Activate(old(configs), workspace, id, digest, now) && configs.Keys == old(configs).Keys
      ensures ok ==> configs[id] == old(configs)[id].(status := Active, digest := Some(digest), activatedAt := Some(now))
      ensures forall c :: c in configs && !(ok && c == id) ==>
        configs[c] == if c != id && old(configs)[c].workspace == workspace && old(configs)[c].status == Active
                      then old(configs)[c].(status := Archived) else old(configs)[c]
    {
      configs := ArchiveOthers(configs, workspace, id);
      ok := id in configs && configs[id].workspace == workspace && configs[id].status == Draft;
      if ok {
        configs := configs[id := configs[id].(status := Active, digest := Some(digest), activatedAt := Some(now))];
      }
    }

    // ----- Whole transactions

    /** `_handle_run_failure`. */
    method HandleRunFailure(worker: WorkerId, claim: RunClaim, conf: Settings, now: int, exit: int, message: string)
      modifies this
      ensures State() == SettleFailure(old(State()), worker, claim, conf, now, exit, message)
    {
      var retryAt := RetryAt(conf, claim, now);
      var ok := AckRunFailure(claim.id, worker, now, message, retryAt);
      if !ok {
        return;
      }
      if retryAt.None? {
        RecordRunResult(claim.id, Some(now), Some(exit), None, Some(message));
      } else {
        RecordRunResult(claim.id, None, None, None, Some(message));
      }
    }

    /** The closing transaction of a successful dry run, validation or process run. */
    method HandleRunSuccess(worker: WorkerId, id: RunId, now: int, note: Option<string>, upload: Option<(FileId, VersionId)>)
      modifies this
      ensures State() == SettleSuccess(old(State()), worker, id, now, note, upload)
    {
      var saved := runs;
      var ok := AckRunSuccess(id, worker, now);
      if !ok {
        return;
      }
      match upload
      case None =>
        RecordRunResult(id, Some(now), Some(0), None, note);
      case Some((file, version)) =>
        if file !in files {
          runs := saved;
          return;
        }
        CreateOutputFileVersion(file, version, id);
        RecordRunResult(id, Some(now), Some(0), Some(version), note);
    }

    /** The publish transaction.  `committed` tells apart a commit from a lost claim or
        from an activation that raised and was rolled back. */
    method HandlePublish(worker: WorkerId, claim: RunClaim, workspace: WorkspaceId, configuration: ConfigId, digest: string, now: int)
      returns (committed: bool)
      requires claim.id in runs && runs[claim.id].workspace == workspace && runs[claim.id].configuration == configuration
      modifies this
      ensures committed == PublishCommits(old(State()), worker, claim.id)
      ensures State() == SettlePublish(old(State()), worker, claim.id, now, digest)
    {
      var savedRuns, savedConfigs := runs, configs;
      committed := AckRunSuccess(claim.id, worker, now);
      if !committed {
        return;
      }
      committed := ActivateConfigurationPublish(workspace, configuration, digest, now);
      if !committed {
        runs, configs := savedRuns, savedConfigs;
        return;
      }
      RecordRunResult(claim.id, Some(now), Some(0), None, None);
    }
  }
}
