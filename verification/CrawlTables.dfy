/**
 The rows the crawler and the Job Link console share, and what each SQL
 statement does to them (crawler/src/store.rs). A table is a map from its key.
 Every write that the crawler makes to `job_cache` is described twice: for the
 whole table, as the statements run, and for one row, which is the form the
 refinement of `ReconcileJob` and the histories build on.
 */
module CrawlTables {
  import opened Wrappers
  import opened Reconcile
  import opened Scope

  // ---------- rows ----------

  /** REVIEW, ACTIVE and DISABLED; the last two are also statuses of a job. */
  datatype Approval = Review | Approved | Paused

  datatype Source = Source(baseUrl: UrlText, approval: Approval)

  datatype Owner = Auto | Admin

  datatype JobKey = JobKey(source: nat, key: string)

  /** `posting` stands for the descriptive columns, which every upsert replaces together. */
  datatype Job = Job(contentHash: string, posting: string, url: UrlText, state: JobState,
                     location: Option<nat>, owner: Owner, lastSeen: nat)

  /** One observed posting; `location` is what its text resolved to when it was stored. */
  datatype Observation = Observation(key: string, contentHash: string, posting: string, url: UrlText,
                                     location: Option<nat>, declaredClosed: bool,
                                     valid: bool, locationTextValid: bool)

  datatype Counts = Counts(pagesSeen: nat, jobsSeen: nat, jobsCreated: nat, jobsUpdated: nat, jobsMissing: nat)

  datatype Report = Report(status: RunStatus, counts: Counts, errorCode: Option<string>, reconciliationSafe: bool)

  datatype Run = Run(source: nat, status: RunStatus, startedAt: nat, finishedAt: Option<nat>,
                     counts: Counts, errorCode: Option<string>)

  datatype RequestStatus = Pending | Running | Completed | Failed

  datatype Request = Request(source: nat, status: RequestStatus, requestedAt: nat, startedAt: Option<nat>,
                             finishedAt: Option<nat>, run: Option<nat>, errorCode: Option<string>)

  datatype Tables = Tables(sources: map<nat, Source>, jobs: map<JobKey, Job>,
                           runs: map<nat, Run>, requests: map<nat, Request>)

  datatype StorageError =
    | SourceSnapshotChanged | ObservationOutsideScope | InvalidObservation | InvalidLocationText
    | AlreadyFinalized | CheckViolation | ConnectionFailed

  datatype DeltaCounts = DeltaCounts(created: nat, updated: nat)

  function Row<K, V>(table: map<K, V>, key: K): Option<V> {
    if key in table then Some(table[key]) else None
  }

  // ---------- statements ----------

  /** `lock_active_source_snapshot`: the locked row must still be what the crawl started from. */
  predicate SnapshotHolds(sources: map<nat, Source>, source: nat, expectedBaseUrl: UrlText) {
    source in sources && sources[source].approval == Approved && sources[source].baseUrl == expectedBaseUrl
  }

  function Problem(scope: SourceScope, o: Observation): Option<StorageError> {
    if !Allows(scope, o.url) then Some(ObservationOutsideScope)
    else if !o.valid then Some(InvalidObservation)
    else if !o.locationTextValid then Some(InvalidLocationText)
    else None
  }

  predicate Acceptable(scope: SourceScope, batch: seq<Observation>) {
    forall o :: o in batch ==> Problem(scope, o).None?
  }

  function ObservedState(o: Observation): JobState {
    if o.declaredClosed then JobState(Closed, 2) else JobState(Active, 0)
  }

  /** The upsert. An ADMIN location stays, and an unresolved one never erases a resolved one. */
  function Upserted(row: Option<Job>, o: Observation, now: nat): Job {
    var (location, owner) :=
      match row
      case None => (o.location, Auto)
      case Some(job) =>
        (if job.owner == Admin || o.location.None? then job.location else o.location, job.owner);
    Job(o.contentHash, o.posting, o.url, ObservedState(o), location, owner, now)
  }

  /** The observations of a batch, stored one after another. */
  function UpsertAll(jobs: map<JobKey, Job>, source: nat, batch: seq<Observation>, now: nat): map<JobKey, Job> {
    if batch == [] then jobs
    else
      var before := UpsertAll(jobs, source, batch[..|batch| - 1], now);
      var o := batch[|batch| - 1];
      var key := JobKey(source, o.key);
      before[key := Upserted(Row(before, key), o, now)]
  }

  function Delta(jobs: map<JobKey, Job>, source: nat, batch: seq<Observation>, now: nat): DeltaCounts {
    if batch == [] then DeltaCounts(0, 0)
    else
      var front := batch[..|batch| - 1];
      var counts := Delta(jobs, source, front, now);
      var o := batch[|batch| - 1];
      match Row(UpsertAll(jobs, source, front, now), JobKey(source, o.key))
      case None => counts.(created := counts.created + 1)
      case Some(job) => if job.contentHash != o.contentHash then counts.(updated := counts.updated + 1) else counts
  }

  predicate Missed(job: Job, runStartedAt: nat) {
    Listed(job.state.status) && job.lastSeen < runStartedAt
  }

  function Aged(job: Job): Job {
    var next := job.state.missing + 1;
    job.(state := JobState(if next >= 2 then Closed else Verifying, if next < 2 then next else 2))
  }

  function MissedKeys(jobs: map<JobKey, Job>, source: nat, runStartedAt: nat): set<JobKey> {
    set k | k in jobs && k.source == source && Missed(jobs[k], runStartedAt)
  }

  /** The reconciliation UPDATE. */
  function AgeMissing(jobs: map<JobKey, Job>, source: nat, runStartedAt: nat): map<JobKey, Job> {
    map k | k in jobs :: if k in MissedKeys(jobs, source, runStartedAt) then Aged(jobs[k]) else jobs[k]
  }

  /** The UPDATE that a base-URL edit runs first. */
  function ClosedJob(job: Job): Job {
    if Listed(job.state.status) then job.(state := JobState(Closed, 2)) else job
  }

  function CloseSource(jobs: map<JobKey, Job>, source: nat): map<JobKey, Job> {
    map k | k in jobs :: if k.source == source then ClosedJob(jobs[k]) else jobs[k]
  }

  function AssignedJob(job: Job, location: Option<nat>): Job {
    job.(location := location, owner := if location.None? then Auto else Admin)
  }

  predicate Unfinished(runs: map<nat, Run>, run: nat) {
    run in runs && runs[run].finishedAt.None?
  }

  /** The CHECK constraints of `source_crawl_runs`: it cannot end before it started, and a failure has a code. */
  predicate RunChecks(row: Run) {
    && (row.finishedAt.Some? ==> row.finishedAt.value >= row.startedAt)
    && (row.status != Healthy ==> row.errorCode.Some? && row.errorCode.value != "")
  }

  function FinishedRow(row: Run, report: Report, finishedAt: nat): Run {
    row.(status := report.status, finishedAt := Some(finishedAt), counts := report.counts, errorCode := report.errorCode)
  }

  /** `finish_crawl_run_if_unfinished`: a compare-and-set on `finished_at IS NULL`. */
  function FinishRun(runs: map<nat, Run>, run: nat, report: Report, finishedAt: nat)
    : Result<(map<nat, Run>, bool), StorageError>
  {
    if !Unfinished(runs, run) then Ok((runs, false))
    else
      var row := FinishedRow(runs[run], report, finishedAt);
      if RunChecks(row) then Ok((runs[run := row], true)) else Err(CheckViolation)
  }

  /** All statements of the healthy transaction up to its commit. */
  function HealthyTransaction(t: Tables, run: nat, source: nat, baseUrl: UrlText, scope: SourceScope,
                              batch: seq<Observation>, report: Report, startedAt: nat, now: nat, finishedAt: nat)
    : Result<Tables, StorageError>
  {
    if !SnapshotHolds(t.sources, source, baseUrl) then Err(SourceSnapshotChanged)
    else if exists o :: o in batch && Problem(scope, o).Some? then Err(FirstProblem(scope, batch))
    else
      var stored := UpsertAll(t.jobs, source, batch, now);
      var delta := Delta(t.jobs, source, batch, now);
      var counts := report.counts.(jobsCreated := delta.created, jobsUpdated := delta.updated,
                                   jobsMissing := |MissedKeys(stored, source, startedAt)|);
      match FinishRun(t.runs, run, report.(counts := counts), finishedAt)
      case Err(e) => Err(e)
      case Ok((_, false)) => Err(AlreadyFinalized)
      case Ok((runs, true)) => Ok(t.(jobs := AgeMissing(stored, source, startedAt), runs := runs))
  }

  function FirstProblem(scope: SourceScope, batch: seq<Observation>): StorageError
    requires exists o :: o in batch && Problem(scope, o).Some?
  {
    if Problem(scope, batch[0]).Some? then Problem(scope, batch[0]).value
    else
      assert forall o :: o in batch ==> o == batch[0] || o in batch[1..];
      FirstProblem(scope, batch[1..])
  }

  // ---------- one row ----------

  /** What storing a batch leaves in the row of one key. */
  function Touched(row: Option<Job>, key: string, batch: seq<Observation>, now: nat): Option<Job> {
    if batch == [] then row
    else
      var before := Touched(row, key, batch[..|batch| - 1], now);
      var o := batch[|batch| - 1];
      if o.key == key then Some(Upserted(before, o, now)) else before
  }

  /** What the whole healthy transaction leaves in the row of one key. */
  function RowAfterCommit(row: Option<Job>, key: string, batch: seq<Observation>, now: nat, startedAt: nat): Option<Job> {
    var stored := Touched(row, key, batch, now);
    if stored.Some? && Missed(stored.value, startedAt) then Some(Aged(stored.value)) else stored
  }

  /** The last observation of a key decides: later ones overwrite earlier ones. */
  function LastFor(batch: seq<Observation>, key: string): (r: Option<Observation>)
    ensures r.None? <==> forall o :: o in batch ==> o.key != key
    ensures r.Some? ==> r.value in batch && r.value.key == key
  {
    if batch == [] then None
    else if batch[|batch| - 1].key == key then Some(batch[|batch| - 1])
    else
      var r := LastFor(batch[..|batch| - 1], key);
      assert batch == batch[..|batch| - 1] + [batch[|batch| - 1]];
      r
  }

  lemma {:induction false} UpsertAllRow(jobs: map<JobKey, Job>, source: nat, batch: seq<Observation>, now: nat, k: JobKey)
    ensures Row(UpsertAll(jobs, source, batch, now), k)
         == if k.source == source then Touched(Row(jobs, k), k.key, batch, now) else Row(jobs, k)
  {
    if batch != [] { UpsertAllRow(jobs, source, batch[..|batch| - 1], now, k); }
  }

  /** Row by row, the transaction's statements are `RowAfterCommit` on the source and nothing elsewhere. */
  lemma {:induction false} HealthyRows(jobs: map<JobKey, Job>, source: nat, batch: seq<Observation>, now: nat, startedAt: nat, k: JobKey)
    ensures Row(AgeMissing(UpsertAll(jobs, source, batch, now), source, startedAt), k)
         == if k.source == source then RowAfterCommit(Row(jobs, k), k.key, batch, now, startedAt) else Row(jobs, k)
  {
    UpsertAllRow(jobs, source, batch, now, k);
  }

  /** Last write wins: the stored row shows the last observation of its key, seen at the transaction's time. */
  lemma {:induction false} LastObservationWins(row: Option<Job>, key: string, batch: seq<Observation>, now: nat)
    ensures var last, after := LastFor(batch, key), Touched(row, key, batch, now);
            && (last.None? ==> after == row)
            && (last.Some? ==>
                  && after.Some?
                  && after.value.contentHash == last.value.contentHash
                  && after.value.posting == last.value.posting
                  && after.value.url == last.value.url
                  && after.value.state == ObservedState(last.value)
                  && after.value.lastSeen == now)
  {
    if batch != [] { LastObservationWins(row, key, batch[..|batch| - 1], now); }
  }

  /**
   The SQL refines `ReconcileJob`. An observed job, new or known, becomes what
   `ReconcileJob` says; an unobserved one does so exactly when it was not on
   the list of open jobs or was last seen before the run started.
   */
  lemma {:induction false} CommitRefinesReconcileJob(row: Option<Job>, key: string, batch: seq<Observation>, now: nat, startedAt: nat)
    requires startedAt <= now
    ensures var last, after := LastFor(batch, key), RowAfterCommit(row, key, batch, now, startedAt);
            && (last.Some? ==> after.Some? && forall before: JobState ::
                  after.value.state == ReconcileJob(before, Healthy, true, last.value.declaredClosed))
            && (last.None? && row.None? ==> after.None?)
            && (last.None? && row.Some? ==>
                  && after.Some?
                  && (var exact := after.value.state == ReconcileJob(row.value.state, Healthy, false, false);
                      exact <==> (!Listed(row.value.state.status) || row.value.lastSeen < startedAt)))
  {
    LastObservationWins(row, key, batch, now);
  }

  // ---------- counts ----------

  function SourceKeys(jobs: map<JobKey, Job>, source: nat): set<JobKey> {
    set k | k in jobs && k.source == source
  }

  lemma AgingKeepsKeys(jobs: map<JobKey, Job>, source: nat, startedAt: nat)
    ensures SourceKeys(AgeMissing(jobs, source, startedAt), source) == SourceKeys(jobs, source)
  {
  }

  lemma InsertGrows(jobs: map<JobKey, Job>, key: JobKey, job: Job)
    ensures |SourceKeys(jobs[key := job], key.source)| == |SourceKeys(jobs, key.source)| + (if key in jobs then 0 else 1)
  {
    if key in jobs {
      assert SourceKeys(jobs[key := job], key.source) == SourceKeys(jobs, key.source);
    } else {
      assert SourceKeys(jobs[key := job], key.source) == SourceKeys(jobs, key.source) + {key};
    }
  }

  lemma {:induction false} UpsertsGrow(jobs: map<JobKey, Job>, source: nat, batch: seq<Observation>, now: nat)
    ensures |SourceKeys(UpsertAll(jobs, source, batch, now), source)|
         == |SourceKeys(jobs, source)| + Delta(jobs, source, batch, now).created
  {
    if batch != [] {
      var front, o := batch[..|batch| - 1], batch[|batch| - 1];
      UpsertsGrow(jobs, source, front, now);
      var before := UpsertAll(jobs, source, front, now);
      var key := JobKey(source, o.key);
      InsertGrows(before, key, Upserted(Row(before, key), o, now));
    }
  }

  /** `jobs_created` is the growth of the source's cache. */
  lemma CreatedIsGrowth(jobs: map<JobKey, Job>, source: nat, batch: seq<Observation>, now: nat, startedAt: nat)
    ensures |SourceKeys(AgeMissing(UpsertAll(jobs, source, batch, now), source, startedAt), source)|
         == |SourceKeys(jobs, source)| + Delta(jobs, source, batch, now).created
  {
    UpsertsGrow(jobs, source, batch, now);
    AgingKeepsKeys(UpsertAll(jobs, source, batch, now), source, startedAt);
  }

  /** The content hash that the i-th observation of a batch is compared with. */
  function HashBefore(jobs: map<JobKey, Job>, source: nat, batch: seq<Observation>, i: nat): Option<string>
    requires i < |batch|
  {
    match LastFor(batch[..i], batch[i].key)
    case Some(earlier) => Some(earlier.contentHash)
    case None =>
      match Row(jobs, JobKey(source, batch[i].key))
      case Some(job) => Some(job.contentHash)
      case None => None
  }

  function ChangedAt(jobs: map<JobKey, Job>, source: nat, batch: seq<Observation>): set<nat> {
    set i: nat | i < |batch| && HashBefore(jobs, source, batch, i).Some?
                 && HashBefore(jobs, source, batch, i).value != batch[i].contentHash
  }

  lemma ChangedAtStep(jobs: map<JobKey, Job>, source: nat, batch: seq<Observation>)
    requires batch != []
    ensures var n := |batch| - 1;
            var before := HashBefore(jobs, source, batch, n);
            ChangedAt(jobs, source, batch) == ChangedAt(jobs, source, batch[..n])
              + (if before.Some? && before.value != batch[n].contentHash then {n} else {})
  {
    var n := |batch| - 1;
    var front := batch[..n];
    forall i: nat | i < n ensures HashBefore(jobs, source, batch, i) == HashBefore(jobs, source, front, i) {
      assert batch[..i] == front[..i];
    }
  }

  lemma StoredHashIsHashBefore(jobs: map<JobKey, Job>, source: nat, batch: seq<Observation>, now: nat)
    requires batch != []
    ensures var n := |batch| - 1;
            var stored := Row(UpsertAll(jobs, source, batch[..n], now), JobKey(source, batch[n].key));
            HashBefore(jobs, source, batch, n) == if stored.Some? then Some(stored.value.contentHash) else None
  {
    var n := |batch| - 1;
    var k := JobKey(source, batch[n].key);
    UpsertAllRow(jobs, source, batch[..n], now, k);
    LastObservationWins(Row(jobs, k), k.key, batch[..n], now);
  }

  /** `jobs_updated` counts the observations whose key was known under another hash. */
  lemma {:induction false} UpdatedCountsChanges(jobs: map<JobKey, Job>, source: nat, batch: seq<Observation>, now: nat)
    ensures Delta(jobs, source, batch, now).updated == |ChangedAt(jobs, source, batch)|
  {
    if batch != [] {
      var n := |batch| - 1;
      UpdatedCountsChanges(jobs, source, batch[..n], now);
      ChangedAtStep(jobs, source, batch);
      StoredHashIsHashBefore(jobs, source, batch, now);
      assert n !in ChangedAt(jobs, source, batch[..n]);
    }
  }

  /** The job was known before and the transaction changed its state. */
  predicate StateMoved(before: Option<Job>, after: Option<Job>) {
    before.Some? && after.Some? && before.value.state != after.value.state
  }

  /** `jobs_missing` counts the known, unobserved jobs whose state the transaction moved. */
  lemma {:induction false} MissingIsMoved(jobs: map<JobKey, Job>, source: nat, batch: seq<Observation>, now: nat, startedAt: nat, k: JobKey)
    requires startedAt <= now && k.source == source
    ensures k in MissedKeys(UpsertAll(jobs, source, batch, now), source, startedAt)
       <==> && LastFor(batch, k.key).None?
            && StateMoved(Row(jobs, k), RowAfterCommit(Row(jobs, k), k.key, batch, now, startedAt))
  {
    UpsertAllRow(jobs, source, batch, now, k);
    LastObservationWins(Row(jobs, k), k.key, batch, now);
  }
}
