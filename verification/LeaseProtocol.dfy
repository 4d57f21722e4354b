/** The run queue as a distributed protocol: any number of worker threads, each holding
    an in-flight claim, interleave their transactions with lease sweeps.  Every
    transaction is one atomic step on the tables. */
module LeaseProtocol {
  import opened Wrappers
  import opened RunQueue

  /** A worker thread between its claim and the end of `process_run`. */
  datatype Flight = Flight(worker: WorkerId, claim: RunClaim)

  datatype World = World(db: Db, flights: set<Flight>)

  // ----- What process_run decides to do with its claim

  datatype Venv = VenvLost | VenvFailed(message: string) | VenvReady

  datatype Engine = HeartbeatLost | Exited(code: int, timedOut: bool)

  datatype Staging = Rejected(message: string) | Staged

  datatype Upload = NoOutput | UploadFailed(message: string) | Uploaded(file: FileId, version: VersionId)

  /** Everything `process_run` learns from the file system, the subprocess and blob storage. */
  datatype Observed = Observed(venv: Venv, pythonExists: bool, configDirExists: bool,
                               engine: Engine, currentDigest: Option<string>, staging: Staging, upload: Upload)

  datatype Plan =
    | Lost
    | Failure(exit: int, message: string)
    | Complete(note: Option<string>, stored: Option<(FileId, VersionId)>)
    | Activation(digest: string)

  const STALE_SNAPSHOT := "publish_stale_snapshot"

  function PlanOf(r: Run, seen: Observed): Plan {
    if seen.venv.VenvLost? then Lost
    else if seen.venv.VenvFailed? then Failure(2, seen.venv.message)
    else if !seen.pythonExists then Failure(2, "Environment missing on disk")
    else if !seen.configDirExists then Failure(2, "Missing config package dir")
    else if r.dryRun then Complete(Some("Dry run"), None)
    else match r.operation
      case Validate =>
        if seen.engine.HeartbeatLost? then Lost
        else if seen.engine.code == 0 then Complete(None, None)
        else Failure(seen.engine.code, "Validation failed")
      case Publish =>
        if seen.engine.HeartbeatLost? then Lost
        else if seen.engine.code != 0 then Failure(seen.engine.code, "Validation failed")
        else if seen.currentDigest.None? then Failure(2, STALE_SNAPSHOT)
        else if r.digestSnapshot.None? || r.digestSnapshot.value == "" || r.digestSnapshot != seen.currentDigest
          then Failure(2, STALE_SNAPSHOT)
        else Activation(r.digestSnapshot.value)
      case Process =>
        if seen.staging.Rejected? then Failure(2, seen.staging.message)
        else if seen.engine.HeartbeatLost? then Lost
        else if seen.engine.timedOut then Failure(seen.engine.code, "Run timed out")
        else if seen.engine.code != 0 then Failure(seen.engine.code, "Engine failed")
        else match seen.upload
          case NoOutput => Complete(None, None)
          case UploadFailed(message) => Failure(2, message)
          case Uploaded(file, version) => Complete(None, Some((file, version)))
  }

  // ----- Steps

  datatype Step =
    | Enqueue(id: RunId, run: Run)
    | AddDraft(config: ConfigId, workspace: WorkspaceId)
    | EnsureFile(file: FileId, workspace: WorkspaceId, nameKey: string)
    | Claim(worker: WorkerId, now: int, leaseSeconds: int, limit: int, locked: set<RunId>, ids: set<RunId>)
    | Beat(flight: Flight, now: int, leaseSeconds: int)
    | Settle(flight: Flight, now: int, conf: Settings, seen: Observed)
    | Fail(flight: Flight, now: int, conf: Settings, exit: int, message: string)
    | Abandon(flight: Flight)
    | Expire(now: int, base: int, max: int)

  predicate FreshRun(r: Run) {
    r.status == Queued && r.attemptCount == 0 && 0 < r.maxAttempts && r.claimedBy.None? && r.claimExpiresAt.None? && r.output.None?
  }

  ghost predicate FreshUpload(db: Db, seen: Observed) {
    seen.upload.Uploaded? ==> forall i :: 0 <= i < |db.versions| ==> db.versions[i].id != seen.upload.version
  }

  ghost predicate Enabled(w: World, s: Step) {
    match s
    case Enqueue(id, run) => id !in w.db.runs && FreshRun(run)
    case AddDraft(c, _) => c !in w.db.configs
    case EnsureFile(f, _, _) => f !in w.db.files
    case Claim(_, now, _, limit, locked, ids) => 0 < limit && IsClaimBatch(w.db.runs, locked, now, limit, ids)
    case Beat(f, _, _) => f in w.flights
    case Settle(f, _, _, seen) => f in w.flights && FreshUpload(w.db, seen)
    case Fail(f, _, _, _, _) => f in w.flights
    case Abandon(f) => f in w.flights
    case Expire(_, _, _) => true
  }

  ghost predicate HasLive(files: map<FileId, File>, workspace: WorkspaceId, nameKey: string) {
    exists f :: f in files && LiveOutput(files[f], workspace, nameKey)
  }

  function FlightsOf(runs: map<RunId, Run>, worker: WorkerId, ids: set<RunId>): set<Flight> {
    set id | id in ids && id in runs :: Flight(worker, RunClaim(id, runs[id].attemptCount + 1, runs[id].maxAttempts))
  }

  function SettleDb(db: Db, f: Flight, now: int, conf: Settings, seen: Observed): Db {
    if f.claim.id !in db.runs then db
    else match PlanOf(db.runs[f.claim.id], seen)
      case Lost => db
      case Failure(exit, message) => SettleFailure(db, f.worker, f.claim, conf, now, exit, message)
      case Complete(note, stored) => SettleSuccess(db, f.worker, f.claim.id, now, note, stored)
      case Activation(digest) => SettlePublish(db, f.worker, f.claim.id, now, digest)
  }

  /** The thread lives on after a publish transaction that was rolled back: it still has
      to run its failure transaction. */
  predicate StaysInFlight(db: Db, f: Flight, seen: Observed) {
    && Holds(db.runs, f.claim.id, f.worker)
    && PlanOf(db.runs[f.claim.id], seen).Activation?
    && !PublishCommits(db, f.worker, f.claim.id)
  }

  ghost function Next(w: World, s: Step): World {
    match s
    case Enqueue(id, run) => w.(db := w.db.(runs := w.db.runs[id := run]))
    case AddDraft(c, ws) => w.(db := w.db.(configs := w.db.configs[c := Config(ws, Draft, None, None)]))
    case EnsureFile(f, ws, key) =>
      if HasLive(w.db.files, ws, key) then w
      else w.(db := w.db.(files := w.db.files[f := File(ws, key, false, None)]))
    case Claim(worker, now, lease, _, _, ids) =>
      World(w.db.(runs := ClaimRows(w.db.runs, ids, worker, now, lease)), w.flights + FlightsOf(w.db.runs, worker, ids))
    case Beat(f, now, lease) => w.(db := w.db.(runs := Heartbeat(w.db.runs, f.claim.id, f.worker, now, lease)))
    case Settle(f, now, conf, seen) =>
      World(SettleDb(w.db, f, now, conf, seen), if StaysInFlight(w.db, f, seen) then w.flights else w.flights - {f})
    case Fail(f, now, conf, exit, message) =>
      World(SettleFailure(w.db, f.worker, f.claim, conf, now, exit, message), w.flights - {f})
    case Abandon(f) => w.(flights := w.flights - {f})
    case Expire(now, base, max) => w.(db := w.db.(runs := ExpireRows(w.db.runs, now, base, max)))
  }

  ghost predicate Valid(w: World, t: seq<Step>)
    decreases |t|
  {
    t == [] || (Enabled(w, t[0]) && Valid(Next(w, t[0]), t[1..]))
  }

  ghost function Final(w: World, t: seq<Step>): World
    decreases |t|
  {
    if t == [] then w else Final(Next(w, t[0]), t[1..])
  }

  // ----- Life of one row

  predicate BeatChange(a: Run, b: Run) {
    a.status == Running && b.claimExpiresAt.Some? && b == a.(claimExpiresAt := b.claimExpiresAt)
  }

  predicate ClaimChange(a: Run, b: Run) {
    a.status == Queued && a.attemptCount < a.maxAttempts && b.status == Running
    && b.attemptCount == a.attemptCount + 1 && b.claimedBy.Some? && b.claimExpiresAt.Some? && b.output == a.output
  }

  predicate LeaveChange(a: Run, b: Run) {
    a.status == Running && b.status != Running && b.status != Cancelled && b.attemptCount == a.attemptCount
    && b.claimedBy.None? && b.claimExpiresAt.None? && (b.output == a.output || b.output.None? || b.status == Succeeded)
  }

  predicate RowChange(a: Run, b: Run) {
    SameRequest(a, b) && (a == b || BeatChange(a, b) || ClaimChange(a, b) || LeaveChange(a, b))
  }

  lemma FailureChange(db: Db, worker: WorkerId, claim: RunClaim, conf: Settings, now: int, exit: int, message: string, r: RunId)
    requires r in db.runs
    ensures r in SettleFailure(db, worker, claim, conf, now, exit, message).runs
    ensures RowChange(db.runs[r], SettleFailure(db, worker, claim, conf, now, exit, message).runs[r])
  {
  }

  lemma SettleChange(db: Db, f: Flight, now: int, conf: Settings, seen: Observed, r: RunId)
    requires r in db.runs
    ensures r in SettleDb(db, f, now, conf, seen).runs
    ensures RowChange(db.runs[r], SettleDb(db, f, now, conf, seen).runs[r])
  {
    if f.claim.id in db.runs {
      match PlanOf(db.runs[f.claim.id], seen)
      case Lost =>
      case Failure(exit, message) => FailureChange(db, f.worker, f.claim, conf, now, exit, message, r);
      case Complete(note, stored) =>
      case Activation(digest) =>
    }
  }

  /** Every step treats every row as one move of a four-move automaton. */
  lemma RowStep(w: World, s: Step, r: RunId)
    requires Enabled(w, s) && r in w.db.runs
    ensures r in Next(w, s).db.runs && RowChange(w.db.runs[r], Next(w, s).db.runs[r])
  {
    match s
    case Settle(f, now, conf, seen) => SettleChange(w.db, f, now, conf, seen, r);
    case Fail(f, now, conf, exit, message) => FailureChange(w.db, f.worker, f.claim, conf, now, exit, message, r);
    case _ =>
  }

  predicate RowOk(r: Run) {
    && 0 <= r.attemptCount <= r.maxAttempts
    && (r.status == Running <==> r.claimedBy.Some?)
    && (r.status == Running <==> r.claimExpiresAt.Some?)
    && (r.output.Some? ==> r.status == Succeeded)
  }

  ghost predicate RowsOk(db: Db) {
    forall r :: r in db.runs ==> RowOk(db.runs[r])
  }

  lemma RowsOkStep(w: World, s: Step)
    requires Enabled(w, s) && RowsOk(w.db)
    ensures RowsOk(Next(w, s).db)
  {
    forall r | r in Next(w, s).db.runs
      ensures RowOk(Next(w, s).db.runs[r])
    {
      if r in w.db.runs {
        RowStep(w, s, r);
      }
    }
  }

  // ----- Output versions

  /** The version numbers of one file, oldest first. */
  function Numbers(versions: seq<FileVersion>, file: FileId): seq<int> {
    if versions == [] then []
    else
      var rest := Numbers(versions[..|versions| - 1], file);
      var last := versions[|versions| - 1];
      if last.file == file then rest + [last.no] else rest
  }

  function Latest(versions: seq<FileVersion>, file: FileId): Option<VersionId> {
    if versions == [] then None
    else
      var last := versions[|versions| - 1];
      if last.file == file then Some(last.id) else Latest(versions[..|versions| - 1], file)
  }

  predicate CountsUp(s: seq<int>) {
    forall i :: 0 <= i < |s| ==> s[i] == i + 1
  }

  ghost predicate VersionsOk(db: Db) {
    && (forall f :: CountsUp(Numbers(db.versions, f)))
    && (forall f :: f in db.files ==> db.files[f].current == Latest(db.versions, f))
    && (forall i :: 0 <= i < |db.versions| ==> db.versions[i].file in db.files && PaidFor(db, db.versions[i]))
    && (forall i, j :: 0 <= i < j < |db.versions| ==> db.versions[i].id != db.versions[j].id && db.versions[i].run != db.versions[j].run)
  }

  /** A version belongs to a succeeded run whose row points back at it. */
  predicate PaidFor(db: Db, v: FileVersion) {
    v.run in db.runs && db.runs[v.run].status == Succeeded && db.runs[v.run].output == Some(v.id)
  }

  lemma {:induction false} MaxNoIsCount(versions: seq<FileVersion>, file: FileId)
    requires CountsUp(Numbers(versions, file))
    ensures MaxNo(versions, file) == |Numbers(versions, file)|
  {
    if versions != [] {
      var front := versions[..|versions| - 1];
      var n := Numbers(front, file);
      assert forall i :: 0 <= i < |n| ==> Numbers(versions, file)[i] == n[i];
      MaxNoIsCount(front, file);
      if versions[|versions| - 1].file == file {
        assert Numbers(versions, file)[|n|] == versions[|versions| - 1].no;
      }
    }
  }

  lemma AppendKeepsVersions(db: Db, file: FileId, id: VersionId, run: RunId, other: FileId)
    requires forall f :: CountsUp(Numbers(db.versions, f))
    ensures var after := AppendVersion(db.versions, file, id, run);
            && CountsUp(Numbers(after, other))
            && Latest(after, other) == (if other == file then Some(id) else Latest(db.versions, other))
  {
    var after := AppendVersion(db.versions, file, id, run);
    assert after[..|after| - 1] == db.versions;
    MaxNoIsCount(db.versions, file);
    assert CountsUp(Numbers(db.versions, other));
  }

  // ----- Configurations

  ghost predicate OneActive(configs: map<ConfigId, Config>) {
    forall c, d :: c in configs && d in configs && configs[c].status == Active && configs[d].status == Active && configs[c].workspace == configs[d].workspace ==>
      c == d
  }

  /** A publish run that went through its activation, and what it left behind. */
  predicate Published(db: Db, r: Run) {
    && r.configuration in db.configs
    && db.configs[r.configuration].status != Draft
    && db.configs[r.configuration].workspace == r.workspace
    && r.digestSnapshot.Some? && db.configs[r.configuration].digest == r.digestSnapshot
  }

  ghost predicate PublishesOk(db: Db) {
    && OneActive(db.configs)
    && (forall r :: r in db.runs && db.runs[r].operation == Publish && !db.runs[r].dryRun && db.runs[r].status == Succeeded ==>
          Published(db, db.runs[r]))
  }

  ghost predicate FilesOk(files: map<FileId, File>) {
    forall f, g :: f in files && g in files && f != g && !files[f].deleted ==>
      !LiveOutput(files[g], files[f].workspace, files[f].nameKey)
  }

  ghost predicate Inv(w: World) {
    RowsOk(w.db) && VersionsOk(w.db) && PublishesOk(w.db) && FilesOk(w.db.files)
  }
}
