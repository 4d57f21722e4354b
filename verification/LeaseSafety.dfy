/** Safety of the lease protocol over every interleaving: the table invariants, and
    effects that happen once.  Nothing here assumes anything about which worker claims what. */
module LeaseSafety {
  import opened Wrappers
  import opened RunQueue
  import opened LeaseProtocol

  // ----- The invariant is kept by every step

  lemma TerminalRowsStay(w: World, s: Step, r: RunId)
    requires Enabled(w, s) && r in w.db.runs && Terminal(w.db.runs[r])
    ensures r in Next(w, s).db.runs && Next(w, s).db.runs[r] == w.db.runs[r]
  {
    RowStep(w, s, r);
  }

  lemma {:induction false} UnusedFile(versions: seq<FileVersion>, file: FileId)
    requires forall i :: 0 <= i < |versions| ==> versions[i].file != file
    ensures Latest(versions, file) == None
  {
    if versions != [] {
      UnusedFile(versions[..|versions| - 1], file);
    }
  }

  lemma PaidForStays(w: World, s: Step, v: FileVersion)
    requires Enabled(w, s) && PaidFor(w.db, v)
    ensures PaidFor(Next(w, s).db, v)
  {
    TerminalRowsStay(w, s, v.run);
  }

  /** Steps that leave the version table alone keep it in order. */
  lemma VersionsKept(w: World, s: Step)
    requires Enabled(w, s) && VersionsOk(w.db)
    requires Next(w, s).db.versions == w.db.versions && Next(w, s).db.files == w.db.files
    ensures VersionsOk(Next(w, s).db)
  {
    forall i | 0 <= i < |w.db.versions|
      ensures PaidFor(Next(w, s).db, w.db.versions[i])
    {
      PaidForStays(w, s, w.db.versions[i]);
    }
  }

  lemma VersionsEnsureFile(w: World, s: Step)
    requires Enabled(w, s) && VersionsOk(w.db) && s.EnsureFile?
    ensures VersionsOk(Next(w, s).db)
  {
    UnusedFile(w.db.versions, s.file);
    forall i | 0 <= i < |w.db.versions|
      ensures PaidFor(Next(w, s).db, w.db.versions[i])
    {
      PaidForStays(w, s, w.db.versions[i]);
    }
  }

  lemma UploadKeepsNumbers(db: Db, worker: WorkerId, id: RunId, now: int, note: Option<string>, file: FileId, version: VersionId, after: Db)
    requires VersionsOk(db) && Holds(db.runs, id, worker) && file in db.files
    requires after == SettleSuccess(db, worker, id, now, note, Some((file, version)))
    ensures forall f :: CountsUp(Numbers(after.versions, f))
    ensures forall f :: f in after.files ==> after.files[f].current == Latest(after.versions, f)
  {
    forall f
      ensures CountsUp(Numbers(after.versions, f))
      ensures f in after.files ==> after.files[f].current == Latest(after.versions, f)
    {
      AppendKeepsVersions(db, file, version, id, f);
    }
  }

  /** Storing an output adds the next number to its file, and the run that stores it had
      stored nothing before: the claim it holds shows it had not yet succeeded. */
  lemma VersionsUpload(db: Db, worker: WorkerId, id: RunId, now: int, note: Option<string>, file: FileId, version: VersionId)
    requires VersionsOk(db) && Holds(db.runs, id, worker) && file in db.files
    requires forall i :: 0 <= i < |db.versions| ==> db.versions[i].id != version
    ensures VersionsOk(SettleSuccess(db, worker, id, now, note, Some((file, version))))
  {
    var after := SettleSuccess(db, worker, id, now, note, Some((file, version)));
    UploadKeepsNumbers(db, worker, id, now, note, file, version, after);
    forall i | 0 <= i < |db.versions|
      ensures PaidFor(after, db.versions[i]) && db.versions[i].run != id
    {
      assert PaidFor(db, db.versions[i]);
    }
  }

  lemma VersionsStep(w: World, s: Step)
    requires Enabled(w, s) && VersionsOk(w.db)
    ensures VersionsOk(Next(w, s).db)
  {
    if s.EnsureFile? {
      VersionsEnsureFile(w, s);
    } else if Next(w, s).db.versions == w.db.versions && Next(w, s).db.files == w.db.files {
      VersionsKept(w, s);
    } else {
      var f := s.flight;
      var plan := PlanOf(w.db.runs[f.claim.id], s.seen);
      var (file, version) := plan.stored.value;
      assert s.seen.upload == Uploaded(file, version);
      VersionsUpload(w.db, f.worker, f.claim.id, s.now, plan.note, file, version);
    }
  }

  lemma ActivateOneActive(configs: map<ConfigId, Config>, workspace: WorkspaceId, id: ConfigId, digest: string, now: int)
    requires OneActive(configs) && Activatable(configs, workspace, id)
    ensures OneActive(Activate(configs, workspace, id, digest, now))
  {
  }

  lemma PublishedStays(w: World, s: Step, r: Run)
    requires Enabled(w, s) && Published(w.db, r)
    ensures Published(Next(w, s).db, r)
  {
  }

  /** A publish run turns successful only by a settlement that plans an activation. */
  lemma PublishSettles(w: World, s: Step, r: RunId)
    requires Enabled(w, s) && r in w.db.runs
    requires w.db.runs[r].operation == Publish && !w.db.runs[r].dryRun
    requires w.db.runs[r].status != Succeeded && Next(w, s).db.runs[r].status == Succeeded
    ensures s.Settle? && s.flight.claim.id == r && PlanOf(w.db.runs[r], s.seen).Activation?
  {
  }

  /** A publish run turns successful only in the transaction that activates its draft. */
  lemma NewlyPublished(w: World, s: Step, r: RunId)
    requires Enabled(w, s) && r in w.db.runs
    requires w.db.runs[r].operation == Publish && !w.db.runs[r].dryRun
    requires w.db.runs[r].status != Succeeded && Next(w, s).db.runs[r].status == Succeeded
    ensures Published(Next(w, s).db, Next(w, s).db.runs[r])
    ensures Next(w, s).db.configs[w.db.runs[r].configuration].status == Active
    ensures s.Settle? && s.seen.currentDigest == w.db.runs[r].digestSnapshot
  {
    PublishSettles(w, s, r);
  }

  lemma PublishedRunsStep(w: World, s: Step, r: RunId)
    requires Enabled(w, s) && PublishesOk(w.db) && r in Next(w, s).db.runs
    requires Next(w, s).db.runs[r].operation == Publish && !Next(w, s).db.runs[r].dryRun && Next(w, s).db.runs[r].status == Succeeded
    ensures Published(Next(w, s).db, Next(w, s).db.runs[r])
  {
    RowStep(w, s, r);
    if w.db.runs[r].status == Succeeded {
      PublishedStays(w, s, w.db.runs[r]);
    } else {
      NewlyPublished(w, s, r);
    }
  }

  lemma OneActiveStep(w: World, s: Step)
    requires Enabled(w, s) && OneActive(w.db.configs)
    ensures OneActive(Next(w, s).db.configs)
  {
    if s.Settle? && Next(w, s).db.configs != w.db.configs {
      var r := w.db.runs[s.flight.claim.id];
      ActivateOneActive(w.db.configs, r.workspace, r.configuration, r.digestSnapshot.value, s.now);
    }
  }

  lemma PublishesStep(w: World, s: Step)
    requires Enabled(w, s) && PublishesOk(w.db)
    ensures PublishesOk(Next(w, s).db)
  {
    var db := Next(w, s).db;
    forall r | r in db.runs && db.runs[r].operation == Publish && !db.runs[r].dryRun && db.runs[r].status == Succeeded
      ensures Published(db, db.runs[r])
    {
      PublishedRunsStep(w, s, r);
    }
    OneActiveStep(w, s);
  }

  lemma FilesStep(w: World, s: Step)
    requires Enabled(w, s) && FilesOk(w.db.files)
    ensures FilesOk(Next(w, s).db.files)
  {
    if s.EnsureFile? && !HasLive(w.db.files, s.workspace, s.nameKey) {
      assert forall f :: f in w.db.files ==> !LiveOutput(w.db.files[f], s.workspace, s.nameKey);
    }
  }

  lemma InvStep(w: World, s: Step)
    requires Enabled(w, s) && Inv(w)
    ensures Inv(Next(w, s))
  {
    RowsOkStep(w, s);
    VersionsStep(w, s);
    PublishesStep(w, s);
    FilesStep(w, s);
  }

  /** Whatever the workers do, in whatever order: running rows are exactly the claimed
      ones, attempts stay within the limit, every output file's versions are numbered
      1..n with the latest one current, no run has two versions, no workspace has two
      active configurations, and every published run's configuration carries its digest. */
  lemma {:induction false} InvAlways(w: World, t: seq<Step>)
    requires Inv(w) && Valid(w, t)
    ensures Inv(Final(w, t))
    decreases |t|
  {
    if t != [] {
      InvStep(w, t[0]);
      InvAlways(Next(w, t[0]), t[1..]);
    }
  }

  // ----- Effects happen once

  /** A settled run is settled for good: not one column of its row changes again. */
  lemma {:induction false} TerminalForever(w: World, t: seq<Step>, r: RunId)
    requires Valid(w, t) && r in w.db.runs && Terminal(w.db.runs[r])
    ensures r in Final(w, t).db.runs && Final(w, t).db.runs[r] == w.db.runs[r]
    decreases |t|
  {
    if t != [] {
      TerminalRowsStay(w, t[0], r);
      TerminalForever(Next(w, t[0]), t[1..], r);
    }
  }

  /** This step committed a transaction whose success acknowledgement of `r` matched its row. */
  ghost predicate Acknowledges(w: World, s: Step, r: RunId) {
    && s.Settle? && s.flight.claim.id == r && Holds(w.db.runs, r, s.flight.worker)
    && var plan := PlanOf(w.db.runs[r], s.seen);
       || (plan.Complete? && (plan.stored.Some? ==> plan.stored.value.0 in w.db.files))
       || (plan.Activation? && PublishCommits(w.db, s.flight.worker, r))
  }

  ghost function Acknowledgements(w: World, t: seq<Step>, r: RunId): nat
    decreases |t|
  {
    if t == [] then 0
    else (if Acknowledges(w, t[0], r) then 1 else 0) + Acknowledgements(Next(w, t[0]), t[1..], r)
  }

  ghost predicate HasSucceeded(w: World, r: RunId) {
    r in w.db.runs && w.db.runs[r].status == Succeeded
  }

  lemma AcknowledgeStep(w: World, s: Step, r: RunId)
    requires Enabled(w, s) && RowsOk(w.db)
    ensures Acknowledges(w, s, r) <==> !HasSucceeded(w, r) && HasSucceeded(Next(w, s), r)
  {
  }

  /** Over a whole run of the system the committed success acknowledgements of one run are
      exactly one if it ends up succeeded and none otherwise. */
  lemma {:induction false} AcknowledgedOnce(w: World, t: seq<Step>, r: RunId)
    requires Valid(w, t) && RowsOk(w.db) && !HasSucceeded(w, r)
    ensures Acknowledgements(w, t, r) == if HasSucceeded(Final(w, t), r) then 1 else 0
    decreases |t|
  {
    if t != [] {
      AcknowledgeStep(w, t[0], r);
      RowsOkStep(w, t[0]);
      if HasSucceeded(Next(w, t[0]), r) {
        NoMoreAcknowledgements(Next(w, t[0]), t[1..], r);
        TerminalForever(Next(w, t[0]), t[1..], r);
      } else {
        AcknowledgedOnce(Next(w, t[0]), t[1..], r);
      }
    }
  }

  lemma {:induction false} NoMoreAcknowledgements(w: World, t: seq<Step>, r: RunId)
    requires Valid(w, t) && HasSucceeded(w, r)
    ensures Acknowledgements(w, t, r) == 0
    decreases |t|
  {
    if t != [] {
      TerminalRowsStay(w, t[0], r);
      NoMoreAcknowledgements(Next(w, t[0]), t[1..], r);
    }
  }

  ghost function VersionsOfRun(versions: seq<FileVersion>, r: RunId): nat {
    if versions == [] then 0
    else VersionsOfRun(versions[..|versions| - 1], r) + (if versions[|versions| - 1].run == r then 1 else 0)
  }

  lemma {:induction false} NoVersionOf(versions: seq<FileVersion>, r: RunId)
    requires forall i :: 0 <= i < |versions| ==> versions[i].run != r
    ensures VersionsOfRun(versions, r) == 0
  {
    if versions != [] {
      NoVersionOf(versions[..|versions| - 1], r);
    }
  }

  lemma {:induction false} AtMostOneVersion(versions: seq<FileVersion>, r: RunId)
    requires forall i, j :: 0 <= i < j < |versions| ==> versions[i].run != versions[j].run
    ensures VersionsOfRun(versions, r) <= 1
  {
    if versions != [] {
      var front := versions[..|versions| - 1];
      if versions[|versions| - 1].run == r {
        NoVersionOf(front, r);
      } else {
        AtMostOneVersion(front, r);
      }
    }
  }

  /** At-least-once execution, at most one output: however often a run was executed, one
      version at most carries it, and only if the run succeeded. */
  lemma {:induction false} OneOutputPerRun(w: World, t: seq<Step>, r: RunId)
    requires Inv(w) && Valid(w, t)
    ensures VersionsOfRun(Final(w, t).db.versions, r) <= Acknowledgements(w, t, r) + (if HasSucceeded(w, r) then 1 else 0) <= 1
  {
    InvAlways(w, t);
    var db := Final(w, t).db;
    AtMostOneVersion(db.versions, r);
    if HasSucceeded(w, r) {
      NoMoreAcknowledgements(w, t, r);
    } else {
      AcknowledgedOnce(w, t, r);
      if !HasSucceeded(Final(w, t), r) {
        forall i | 0 <= i < |db.versions|
          ensures db.versions[i].run != r
        {
          assert PaidFor(db, db.versions[i]);
        }
        NoVersionOf(db.versions, r);
      }
    }
  }

  // ----- Attempts

  ghost function Claims(w: World, t: seq<Step>, r: RunId): nat
    decreases |t|
  {
    if t == [] then 0
    else (if t[0].Claim? && r in t[0].ids then 1 else 0) + Claims(Next(w, t[0]), t[1..], r)
  }

  /** `attempt_count` counts the claims, no more and no less, and they never exceed the limit. */
  lemma {:induction false} AttemptsCountClaims(w: World, t: seq<Step>, r: RunId)
    requires Valid(w, t) && RowsOk(w.db) && r in w.db.runs
    ensures r in Final(w, t).db.runs
    ensures Final(w, t).db.runs[r].attemptCount == w.db.runs[r].attemptCount + Claims(w, t, r)
    ensures w.db.runs[r].attemptCount + Claims(w, t, r) <= w.db.runs[r].maxAttempts
    decreases |t|
  {
    if t != [] {
      RowStep(w, t[0], r);
      RowsOkStep(w, t[0]);
      AttemptsCountClaims(Next(w, t[0]), t[1..], r);
    }
  }

  // ----- Every change but a heartbeat uses up a bounded budget

  function Budget(r: Run): nat
    requires RowOk(r)
  {
    if Terminal(r) then 0
    else 2 * (r.maxAttempts - r.attemptCount) + if r.status == Running then 1 else 0
  }

  ghost function Changes(w: World, t: seq<Step>, r: RunId): nat
    decreases |t|
  {
    if t == [] then 0
    else
      var next := Next(w, t[0]);
      (if r in w.db.runs && r in next.db.runs && next.db.runs[r] != w.db.runs[r] && !t[0].Beat? then 1 else 0)
      + Changes(next, t[1..], r)
  }

  /** No livelock: the steps that change a row, heartbeats aside, are at most twice its
      remaining attempts plus the one being executed. */
  lemma {:induction false} ChangesAreBounded(w: World, t: seq<Step>, r: RunId)
    requires Valid(w, t) && RowsOk(w.db) && r in w.db.runs
    ensures r in Final(w, t).db.runs && RowOk(Final(w, t).db.runs[r])
    ensures Changes(w, t, r) + Budget(Final(w, t).db.runs[r]) <= Budget(w.db.runs[r])
    decreases |t|
  {
    if t != [] {
      var next := Next(w, t[0]);
      BudgetStep(w, t[0], r);
      RowsOkStep(w, t[0]);
      ChangesAreBounded(next, t[1..], r);
    }
  }

  /** What each of the four moves of a row costs. */
  lemma MoveCosts(a: Run, b: Run)
    requires RowOk(a) && RowOk(b) && RowChange(a, b)
    ensures Budget(b) <= Budget(a)
    ensures a != b && !BeatChange(a, b) ==> Budget(b) < Budget(a)
  {
  }

  lemma OnlyBeatsBeat(w: World, s: Step, r: RunId)
    requires Enabled(w, s) && !s.Beat? && r in w.db.runs && r in Next(w, s).db.runs
    ensures BeatChange(w.db.runs[r], Next(w, s).db.runs[r]) ==> Next(w, s).db.runs[r] == w.db.runs[r]
  {
  }

  lemma BudgetStep(w: World, s: Step, r: RunId)
    requires Enabled(w, s) && RowsOk(w.db) && r in w.db.runs
    ensures r in Next(w, s).db.runs && RowOk(Next(w, s).db.runs[r])
    ensures Next(w, s).db.runs[r] != w.db.runs[r] && !s.Beat? ==> Budget(Next(w, s).db.runs[r]) < Budget(w.db.runs[r])
    ensures Budget(Next(w, s).db.runs[r]) <= Budget(w.db.runs[r])
  {
    RowStep(w, s, r);
    RowsOkStep(w, s);
    var after := Next(w, s).db.runs[r];
    MoveCosts(w.db.runs[r], after);
    if !s.Beat? {
      OnlyBeatsBeat(w, s, r);
    }
  }

  // ----- Publish is all or nothing

  /** The publish transaction on a database in which at most one configuration is active. */
  lemma PublishWrites(db: Db, worker: WorkerId, id: RunId, now: int, digest: string, r: Run, after: Db)
    requires OneActive(db.configs) && PublishCommits(db, worker, id) && r == db.runs[id] && after == SettlePublish(db, worker, id, now, digest)
    ensures after.runs == db.runs[id := after.runs[id]] && after.runs[id].status == Succeeded
    ensures after.configs.Keys == db.configs.Keys && after.configs[r.configuration].digest == Some(digest)
    ensures after.files == db.files && after.versions == db.versions
    ensures forall c :: c in after.configs && after.configs[c].workspace == r.workspace ==>
      (after.configs[c].status == Active <==> c == r.configuration)
    ensures forall c :: c in after.configs && (c == r.configuration || after.configs[c] != db.configs[c]) ==>
      after.configs[c].workspace == r.workspace
    ensures forall c :: c in after.configs && c != r.configuration && after.configs[c] != db.configs[c] ==>
      db.configs[c].status == Active && after.configs[c] == db.configs[c].(status := Archived)
  {
  }

  /** A publish settlement either leaves every table as it was, or the run succeeds, its
      draft is the one active configuration of the workspace with the matched digest, and
      whatever was active there before is archived. */
  lemma PublishAllOrNothing(w: World, s: Step)
    requires Enabled(w, s) && Inv(w) && s.Settle?
    requires s.flight.claim.id in w.db.runs && PlanOf(w.db.runs[s.flight.claim.id], s.seen).Activation?
    ensures var id := s.flight.claim.id; var r := w.db.runs[id]; var after := Next(w, s).db;
            if !PublishCommits(w.db, s.flight.worker, id) then after == w.db
            else
              && after.runs == w.db.runs[id := after.runs[id]] && after.runs[id].status == Succeeded
              && after.configs.Keys == w.db.configs.Keys
              && after.configs[r.configuration].digest == s.seen.currentDigest
              && (forall c :: c in after.configs && after.configs[c].workspace == r.workspace ==>
                    (after.configs[c].status == Active <==> c == r.configuration))
              && (forall c :: c in after.configs && (c == r.configuration || after.configs[c] != w.db.configs[c]) ==>
                    after.configs[c].workspace == r.workspace)
              && (forall c :: c in after.configs && c != r.configuration && after.configs[c] != w.db.configs[c] ==>
                    w.db.configs[c].status == Active && after.configs[c] == w.db.configs[c].(status := Archived))
              && after.files == w.db.files && after.versions == w.db.versions
  {
    var id := s.flight.claim.id;
    var r, digest := w.db.runs[id], PlanOf(w.db.runs[id], s.seen).digest;
    assert Next(w, s).db == SettlePublish(w.db, s.flight.worker, id, s.now, digest);
    if PublishCommits(w.db, s.flight.worker, id) {
      PublishWrites(w.db, s.flight.worker, id, s.now, digest, r, Next(w, s).db);
    }
  }

  /** Over every history, a publish run that succeeded published its configuration, unless
      it was a dry run: the dry-run branch is taken before the operation is looked at. */
  lemma {:induction false} PublishHistory(w: World, t: seq<Step>, r: RunId)
    requires Inv(w) && Valid(w, t) && HasSucceeded(Final(w, t), r)
    ensures var db := Final(w, t).db;
            db.runs[r].operation == Publish && !db.runs[r].dryRun ==> Published(db, db.runs[r]) && OneActive(db.configs)
  {
    InvAlways(w, t);
  }

  /** For a publish run about to be acknowledged, success publishes exactly when it is not a
      dry run: a dry run is acknowledged with no configuration touched. */
  lemma DryPublishActivatesNothing(w: World, s: Step, r: RunId)
    requires Enabled(w, s) && Inv(w) && r in w.db.runs && w.db.runs[r].operation == Publish
    requires Acknowledges(w, s, r)
    ensures Next(w, s).db.configs != w.db.configs <==> !w.db.runs[r].dryRun
    ensures !w.db.runs[r].dryRun ==> Published(Next(w, s).db, Next(w, s).db.runs[r])
  {
    if !w.db.runs[r].dryRun {
      NewlyPublished(w, s, r);
    }
  }

  /** The empty database is a start the invariant holds in. */
  lemma EmptyWorldOk()
    ensures Inv(World(Db(map[], map[], [], map[]), {}))
  {
    assert forall f :: Numbers([], f) == [];
  }
}
