/** The tables the worker writes (backend/src/ade_worker/db.py) and the guarded
    updates it runs on them.  Every SQL statement has a specification function on
    the value of the table; class `Session` runs the statements in place. */
module RunQueue {
  import opened Wrappers
  import opened Arithmetic

  type RunId = string
  type WorkerId = string
  type WorkspaceId = string
  type ConfigId = string
  type FileId = string
  type VersionId = string

  /** Timestamps are counted in microseconds, the resolution of both clocks. */
  const SECOND: int := 1_000_000

  datatype Status = Queued | Running | Succeeded | Failed | Cancelled

  datatype Operation = Validate | Process | Publish

  datatype Run = Run(
    workspace: WorkspaceId, configuration: ConfigId, operation: Operation,
    dryRun: bool, digestSnapshot: Option<string>, createdAt: int, maxAttempts: int,
    status: Status, availableAt: int, attemptCount: int,
    claimedBy: Option<WorkerId>, claimExpiresAt: Option<int>,
    startedAt: Option<int>, completedAt: Option<int>,
    exitCode: Option<int>, errorMessage: Option<string>, output: Option<VersionId>)

  datatype File = File(workspace: WorkspaceId, nameKey: string, deleted: bool, current: Option<VersionId>)

  datatype FileVersion = FileVersion(id: VersionId, file: FileId, no: int, run: RunId)

  datatype ConfigStatus = Draft | Active | Archived

  datatype Config = Config(workspace: WorkspaceId, status: ConfigStatus, digest: Option<string>, activatedAt: Option<int>)

  /** What a claim hands to the worker thread that will execute the run. */
  datatype RunClaim = RunClaim(id: RunId, attemptCount: int, maxAttempts: int)

  /** All tables; `versions` lists its rows in insertion order. */
  datatype Db = Db(runs: map<RunId, Run>, files: map<FileId, File>, versions: seq<FileVersion>, configs: map<ConfigId, Config>)

  predicate Terminal(r: Run) {
    r.status == Succeeded || r.status == Failed || r.status == Cancelled
  }

  /** What a run was asked to do, and its limits. */
  predicate SameRequest(a: Run, b: Run) {
    && a.workspace == b.workspace && a.configuration == b.configuration && a.operation == b.operation && a.dryRun == b.dryRun
    && a.digestSnapshot == b.digestSnapshot && a.createdAt == b.createdAt && a.maxAttempts == b.maxAttempts
  }

  // ----- Retry delays

  /** `Settings.backoff_seconds`. */
  function BackoffSeconds(base: int, max: int, attemptCount: int): int {
    Min(max, Max(0, base) * Pow2(Max(attemptCount - 1, 0)))
  }

  /** The delay inside RUN_EXPIRE_REQUEUE_BULK, with its bind parameters. */
  function ExpireDelaySeconds(base: int, max: int, attemptCount: int): int {
    var delay := Max(0, base) * Pow2(Max(attemptCount - 1, 0));
    if Max(0, max) < delay then Max(0, max) else delay
  }

  /** The two implementations of the retry delay agree on every attempt exactly when
      the configured maximum is not negative (the settings model enforces that). */
  lemma {:induction false} BackoffFormsAgree(base: int, max: int)
    ensures (forall n: int :: BackoffSeconds(base, max, n) == ExpireDelaySeconds(base, max, n)) <==> 0 <= max
  {
    if max < 0 {
      assert Pow2(Max(1 - 1, 0)) == 1;
      assert BackoffSeconds(base, max, 1) != ExpireDelaySeconds(base, max, 1);
    }
  }

  /** Delays never shrink as attempts grow, and stay between zero and the maximum. */
  lemma {:induction false} BackoffMonotoneBounded(base: int, max: int, m: int, n: int)
    requires 0 <= max && m <= n
    ensures 0 <= BackoffSeconds(base, max, m) <= BackoffSeconds(base, max, n) <= max
  {
    Pow2Monotone(Max(m - 1, 0), Max(n - 1, 0));
    ScaleMonotone(Max(0, base), Pow2(Max(m - 1, 0)), Pow2(Max(n - 1, 0)));
  }

  /** The first delay is the base, and each further one twice that before, up to the maximum. */
  lemma BackoffDoubles(base: int, max: int, n: int)
    requires 0 <= max && 1 <= n
    ensures BackoffSeconds(base, max, 1) == Min(max, Max(0, base))
    ensures BackoffSeconds(base, max, n + 1) == Min(max, 2 * BackoffSeconds(base, max, n))
  {
    assert Pow2(0) == 1 && Pow2(n) == 2 * Pow2(n - 1);
    assert Max(0, base) * Pow2(n) == 2 * (Max(0, base) * Pow2(n - 1));
  }

  // ----- Statements on the runs table

  predicate Eligible(r: Run, now: int) {
    r.status == Queued && r.availableAt <= now && r.attemptCount < r.maxAttempts
  }

  /** Strictly earlier in `ORDER BY available_at, created_at`. */
  predicate Earlier(a: Run, b: Run) {
    a.availableAt < b.availableAt || (a.availableAt == b.availableAt && a.createdAt < b.createdAt)
  }

  /** What `SELECT .. ORDER BY .. FOR UPDATE SKIP LOCKED LIMIT n` may return: eligible
      rows nobody holds locked, at most n of them, and no row is left out while the
      limit is not reached or while a later row is taken. */
  ghost predicate IsClaimBatch(runs: map<RunId, Run>, locked: set<RunId>, now: int, limit: int, ids: set<RunId>) {
    && (forall id :: id in ids ==> id in runs && Eligible(runs[id], now) && id !in locked)
    && |ids| <= limit
    && (forall other :: other in runs && Eligible(runs[other], now) && other !in locked && other !in ids ==>
          |ids| == limit && forall id :: id in ids ==> !Earlier(runs[other], runs[id]))
  }

  function ClaimRow(r: Run, worker: WorkerId, now: int, leaseSeconds: int): Run {
    r.(status := Running, claimedBy := Some(worker), claimExpiresAt := Some(now + leaseSeconds * SECOND),
       startedAt := if r.startedAt.Some? then r.startedAt else Some(now),
       attemptCount := r.attemptCount + 1, errorMessage := None)
  }

  function ClaimRows(runs: map<RunId, Run>, ids: set<RunId>, worker: WorkerId, now: int, leaseSeconds: int): map<RunId, Run> {
    map id | id in runs :: if id in ids then ClaimRow(runs[id], worker, now, leaseSeconds) else runs[id]
  }

  /** The guard every statement of a worker thread carries in its WHERE clause. */
  predicate Holds(runs: map<RunId, Run>, id: RunId, worker: WorkerId) {
    id in runs && runs[id].status == Running && runs[id].claimedBy == Some(worker)
  }

  function Heartbeat(runs: map<RunId, Run>, id: RunId, worker: WorkerId, now: int, leaseSeconds: int): map<RunId, Run> {
    if Holds(runs, id, worker) then runs[id := runs[id].(claimExpiresAt := Some(now + leaseSeconds * SECOND))] else runs
  }

  function AckSuccess(runs: map<RunId, Run>, id: RunId, worker: WorkerId, now: int): map<RunId, Run> {
    if Holds(runs, id, worker) then
      runs[id := runs[id].(status := Succeeded, completedAt := Some(now), claimedBy := None, claimExpiresAt := None)]
    else runs
  }

  /** Terminal without a retry time, back in the queue with one. */
  function AckFailure(runs: map<RunId, Run>, id: RunId, worker: WorkerId, now: int, message: string, retryAt: Option<int>): map<RunId, Run> {
    if !Holds(runs, id, worker) then runs
    else if retryAt.None? then
      runs[id := runs[id].(status := Failed, completedAt := Some(now), claimedBy := None, claimExpiresAt := None, errorMessage := Some(message))]
    else
      runs[id := runs[id].(status := Queued, availableAt := retryAt.value, claimedBy := None, claimExpiresAt := None,
                           errorMessage := Some(message), completedAt := None)]
  }

  function RecordResult(runs: map<RunId, Run>, id: RunId, completedAt: Option<int>, exitCode: Option<int>, output: Option<VersionId>, error: Option<string>): map<RunId, Run> {
    if id in runs then
      runs[id := runs[id].(completedAt := completedAt, exitCode := exitCode, output := output, errorMessage := error)]
    else runs
  }

  predicate LeaseExpired(r: Run, now: int) {
    r.status == Running && r.claimExpiresAt.Some? && r.claimExpiresAt.value < now
  }

  /** What one expiry sweep makes of a single row. */
  function ExpireRow(r: Run, now: int, base: int, max: int): Run {
    if !LeaseExpired(r, now) then r
    else if r.attemptCount >= r.maxAttempts then
      r.(status := Failed, completedAt := Some(now), claimedBy := None, claimExpiresAt := None, errorMessage := Some("lease expired"))
    else
      r.(status := Queued, availableAt := now + ExpireDelaySeconds(base, max, r.attemptCount) * SECOND,
         claimedBy := None, claimExpiresAt := None, errorMessage := Some("lease expired"), completedAt := None)
  }

  function ExpireRows(runs: map<RunId, Run>, now: int, base: int, max: int): map<RunId, Run> {
    map id | id in runs :: ExpireRow(runs[id], now, base, max)
  }

  /** What a sweep leaves of a run whose lease is over. */
  predicate Swept(a: Run, b: Run, now: int, base: int, max: int) {
    && b.claimedBy.None? && b.claimExpiresAt.None? && b.attemptCount == a.attemptCount && b.errorMessage == Some("lease expired")
    && if a.attemptCount < a.maxAttempts
       then b.status == Queued && b.completedAt.None?
         && b.availableAt == now + BackoffSeconds(base, Max(0, max), a.attemptCount) * 1_000_000
       else b.status == Failed && b.completedAt == Some(now) && b.availableAt == a.availableAt
  }

  // ----- Statements on files, versions and configurations

  predicate LiveOutput(f: File, workspace: WorkspaceId, nameKey: string) {
    f.workspace == workspace && f.nameKey == nameKey && !f.deleted
  }

  function MaxNo(versions: seq<FileVersion>, file: FileId): int {
    if versions == [] then 0
    else
      var rest := MaxNo(versions[..|versions| - 1], file);
      var last := versions[|versions| - 1];
      if last.file == file then Max(rest, last.no) else rest
  }

  function AppendVersion(versions: seq<FileVersion>, file: FileId, id: VersionId, run: RunId): seq<FileVersion> {
    versions + [FileVersion(id, file, MaxNo(versions, file) + 1, run)]
  }

  function ArchiveOthers(configs: map<ConfigId, Config>, workspace: WorkspaceId, keep: ConfigId): map<ConfigId, Config> {
    map c | c in configs ::
      if c != keep && configs[c].workspace == workspace && configs[c].status == Active
      then configs[c].(status := Archived) else configs[c]
  }

  predicate Activatable(configs: map<ConfigId, Config>, workspace: WorkspaceId, id: ConfigId) {
    id in configs && configs[id].workspace == workspace && configs[id].status == Draft
  }

  function Activate(configs: map<ConfigId, Config>, workspace: WorkspaceId, id: ConfigId, digest: string, now: int): map<ConfigId, Config> {
    var archived := ArchiveOthers(configs, workspace, id);
    if Activatable(configs, workspace, id) then
      archived[id := archived[id].(status := Active, digest := Some(digest), activatedAt := Some(now))]
    else archived
  }

  // ----- Transactions of a worker thread

  /** The worker settings a settlement reads. */
  datatype Settings = Settings(leaseSeconds: int, backoffBase: int, backoffMax: int)

  /** `_retry_at`: decided from the attempt number the claim carried, not from the row. */
  function RetryAt(conf: Settings, claim: RunClaim, now: int): Option<int> {
    if claim.attemptCount < claim.maxAttempts then
      Some(now + BackoffSeconds(conf.backoffBase, conf.backoffMax, claim.attemptCount) * SECOND)
    else None
  }

  /** The transaction of `_handle_run_failure`. */
  function SettleFailure(db: Db, worker: WorkerId, claim: RunClaim, conf: Settings, now: int, exit: int, message: string): Db {
    if !Holds(db.runs, claim.id, worker) then db
    else
      var retryAt := RetryAt(conf, claim, now);
      var acked := AckFailure(db.runs, claim.id, worker, now, message, retryAt);
      db.(runs := if retryAt.None?
                  then RecordResult(acked, claim.id, Some(now), Some(exit), None, Some(message))
                  else RecordResult(acked, claim.id, None, None, None, Some(message)))
  }

  /** The success transaction of dry runs, validations and process runs.  A version that
      names a missing file breaks the foreign key: the exception rolls everything back. */
  function SettleSuccess(db: Db, worker: WorkerId, id: RunId, now: int, note: Option<string>, upload: Option<(FileId, VersionId)>): Db {
    if !Holds(db.runs, id, worker) then db
    else
      var acked := AckSuccess(db.runs, id, worker, now);
      match upload
      case None => db.(runs := RecordResult(acked, id, Some(now), Some(0), None, note))
      case Some((file, version)) =>
        if file !in db.files then db
        else db.(runs := RecordResult(acked, id, Some(now), Some(0), Some(version), note),
                 versions := AppendVersion(db.versions, file, version, id),
                 files := db.files[file := db.files[file].(current := Some(version))])
  }

  /** A publish commits only if the claim is still held and the draft is there to activate. */
  predicate PublishCommits(db: Db, worker: WorkerId, id: RunId) {
    Holds(db.runs, id, worker) && Activatable(db.configs, db.runs[id].workspace, db.runs[id].configuration)
  }

  /** The publish transaction: acknowledge, activate, record.  A failed activation raises
      inside the transaction, so nothing of it remains. */
  function SettlePublish(db: Db, worker: WorkerId, id: RunId, now: int, digest: string): Db {
    if !PublishCommits(db, worker, id) then db
    else
      var r := db.runs[id];
      db.(runs := RecordResult(AckSuccess(db.runs, id, worker, now), id, Some(now), Some(0), None, None),
          configs := Activate(db.configs, r.workspace, r.configuration, digest, now))
  }
}
