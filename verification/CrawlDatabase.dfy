/**
 The crawler's database calls and `run_source`, in the order they run
 (crawler/src/store.rs, crawler/src/main.rs). Each call is proved against the
 statement functions of `CrawlTables`, which the interleaved model also uses.
 A call may fail before or after it took effect; `run_source` is run among
 other workers and admins, who may change the database between any two calls.
 */
module CrawlDatabase {
  import opened Wrappers
  import opened Reconcile
  import opened Scope
  import opened CrawlTables
  import opened CrawlProtocol
  import opened CrawlGuards

  /** The tables with nobody at work: what one statement does there is a step of `CrawlProtocol`. */
  function Quiet(t: Tables): State {
    State(t, 0, map[], map[], [])
  }

  function BegunRun(source: nat, now: nat): Run {
    Run(source, Anomaly, now, None, Counts(0, 0, 0, 0, 0), Some("crawl_started"))
  }

  /** Only a RUNNING request is attached or completed, and only one that has not ended is failed. */
  function Attached(requests: map<nat, Request>, request: nat, run: nat): map<nat, Request> {
    if request in requests && requests[request].status == Running then requests[request := requests[request].(run := Some(run))]
    else requests
  }

  function CompletedBy(requests: map<nat, Request>, request: nat, run: nat, now: nat): map<nat, Request> {
    if request in requests && requests[request].status == Running
    then requests[request := requests[request].(status := Completed, finishedAt := Some(now), run := Some(run))] else requests
  }

  function FailedWith(requests: map<nat, Request>, request: nat, run: Option<nat>, errorCode: string, now: nat): map<nat, Request> {
    if request in requests && requests[request].status in {Pending, Running}
    then requests[request := requests[request].(status := Failed, finishedAt := Some(now), errorCode := Some(errorCode),
                                                run := if run.Some? then run else requests[request].run)]
    else requests
  }

  /** The tables with one worker at work: what a call of `run_source` does there is the step of that worker. */
  function Alone(t: Tables, clock: nat, run: nat, w: Worker): State {
    State(t, clock, map[run := w], map[], [])
  }

  class Database {
    var sources: map<nat, Source>
    var jobs: map<JobKey, Job>
    var runs: map<nat, Run>
    var requests: map<nat, Request>

    function Contents(): Tables
      reads this
    {
      Tables(sources, jobs, runs, requests)
    }

    constructor ()
      ensures Contents() == Tables(map[], map[], map[], map[])
    {
      sources, jobs, runs, requests := map[], map[], map[], map[];
    }

    method LockActiveSourceSnapshot(source: nat, expectedBaseUrl: UrlText) returns (error: Option<StorageError>)
      ensures error == if SnapshotHolds(sources, source, expectedBaseUrl) then None else Some(SourceSnapshotChanged)
    {
      if source !in sources {
        return Some(SourceSnapshotChanged);
      }
      var row := sources[source];
      if row.approval != Approved || row.baseUrl != expectedBaseUrl {
        return Some(SourceSnapshotChanged);
      }
      return None;
    }

    /** On an error the rows stored so far stay written; the transaction around the call is rolled back. */
    method PersistHealthyObservations(source: nat, expectedBaseUrl: UrlText, scope: SourceScope,
                                      batch: seq<Observation>, now: nat)
      returns (r: Result<DeltaCounts, StorageError>)
      modifies this`jobs
      ensures r.Ok? <==> SnapshotHolds(sources, source, expectedBaseUrl) && Acceptable(scope, batch)
      ensures r.Ok? ==> jobs == UpsertAll(old(jobs), source, batch, now) && r.value == Delta(old(jobs), source, batch, now)
      ensures r.Err? ==> exists n: nat :: n <= |batch| && jobs == UpsertAll(old(jobs), source, batch[..n], now)
      ensures r.Err? && !SnapshotHolds(sources, source, expectedBaseUrl) ==> r.error == SourceSnapshotChanged
      ensures r.Err? && SnapshotHolds(sources, source, expectedBaseUrl) ==>
                exists n: nat :: n < |batch| && Acceptable(scope, batch[..n]) && Problem(scope, batch[n]) == Some(r.error)
    {
      var changed := LockActiveSourceSnapshot(source, expectedBaseUrl);
      assert batch[..0] == [];
      if changed.Some? {
        assert jobs == UpsertAll(old(jobs), source, batch[..0], now);
        return Err(changed.value);
      }
      var counts := DeltaCounts(0, 0);
      for i := 0 to |batch|
        invariant jobs == UpsertAll(old(jobs), source, batch[..i], now)
        invariant counts == Delta(old(jobs), source, batch[..i], now)
        invariant Acceptable(scope, batch[..i])
      {
        var o := batch[i];
        var next := batch[..i + 1];
        assert next[..i] == batch[..i] && next[i] == o && next == batch[..i] + [o];
        var problem := Problem(scope, o);
        if problem.Some? {
          return Err(problem.value);
        }
        var key := JobKey(source, o.key);
        var existing := Row(jobs, key);
        var changedHash := existing.None? || existing.value.contentHash != o.contentHash;
        jobs := jobs[key := Upserted(existing, o, now)];
        if existing.None? {
          counts := counts.(created := counts.created + 1);
        } else if changedHash {
          counts := counts.(updated := counts.updated + 1);
        }
      }
      assert batch[..|batch|] == batch;
      return Ok(counts);
    }

    method ReconcileMissingJobs(source: nat, runStartedAt: nat, expectedBaseUrl: UrlText)
      returns (r: Result<nat, StorageError>)
      modifies this`jobs
      ensures r.Ok? <==> SnapshotHolds(sources, source, expectedBaseUrl)
      ensures r.Ok? ==> r.value == |MissedKeys(old(jobs), source, runStartedAt)|
      ensures jobs == if r.Ok? then AgeMissing(old(jobs), source, runStartedAt) else old(jobs)
      ensures r.Err? ==> r.error == SourceSnapshotChanged
    {
      var changed := LockActiveSourceSnapshot(source, expectedBaseUrl);
      if changed.Some? {
        return Err(changed.value);
      }
      var aged := MissedKeys(jobs, source, runStartedAt);
      jobs := AgeMissing(jobs, source, runStartedAt);
      return Ok(|aged|);
    }

    method FinishCrawlRunIfUnfinished(run: nat, report: Report, finishedAt: nat) returns (r: Result<bool, StorageError>)
      modifies this`runs
      ensures match FinishRun(old(runs), run, report, finishedAt)
              case Ok((after, moved)) => r == Ok(moved) && runs == after
              case Err(e) => r == Err(e) && runs == old(runs)
    {
      if run !in runs || runs[run].finishedAt.Some? {
        return Ok(false);
      }
      var row := FinishedRow(runs[run], report, finishedAt);
      if !RunChecks(row) {
        return Err(CheckViolation);
      }
      runs := runs[run := row];
      return Ok(true);
    }

    method BeginCrawlRun(run: nat, source: nat, now: nat) returns (startedAt: nat)
      requires run !in runs
      modifies this`runs
      ensures startedAt == now
      ensures runs == old(runs)[run := BegunRun(source, now)]
    {
      runs := runs[run := BegunRun(source, now)];
      return now;
    }

    method AttachCrawlRequestRun(request: nat, run: nat)
      modifies this`requests
      ensures requests == Attached(old(requests), request, run)
    {
      if request in requests && requests[request].status == Running {
        requests := requests[request := requests[request].(run := Some(run))];
      }
    }

    method CompleteCrawlRequest(request: nat, run: nat, now: nat)
      modifies this`requests
      ensures requests == CompletedBy(old(requests), request, run, now)
    {
      if request in requests && requests[request].status == Running {
        requests := requests[request := requests[request].(status := Completed, finishedAt := Some(now), run := Some(run))];
      }
    }

    /** `COALESCE`: without a run the link stays. */
    method FailCrawlRequest(request: nat, run: Option<nat>, errorCode: string, now: nat)
      modifies this`requests
      ensures requests == FailedWith(old(requests), request, run, errorCode, now)
    {
      if request in requests && requests[request].status in {Pending, Running} {
        var row := requests[request];
        requests := requests[request := row.(status := Failed, finishedAt := Some(now), errorCode := Some(errorCode),
                                             run := if run.Some? then run else row.run)];
      }
    }

    /** The base-URL edit: lock the row, close the jobs of the old boundary if it changes, write the new one. */
    method UpdateJobLink(source: nat, base: UrlText) returns (found: bool)
      modifies this`sources, this`jobs
      ensures found == (source in old(sources))
      ensures !found ==> Contents() == old(Contents())
      ensures found ==> Contents() == Next(Quiet(old(Contents())), EditBaseUrl(source, base)).t
      ensures found ==>
                && sources == old(sources)[source := Source(base, Approved)]
                && jobs == if old(sources)[source].baseUrl != base then CloseSource(old(jobs), source) else old(jobs)
    {
      if source !in sources {
        return false;
      }
      var current := sources[source].baseUrl;
      if current != base {
        jobs := CloseSource(jobs, source);
      }
      sources := sources[source := Source(base, Approved)];
      return true;
    }

    method SetJobLinkStatus(source: nat, approval: Approval) returns (found: bool)
      modifies this`sources
      ensures found == (source in old(sources))
      ensures Contents() == if found then Next(Quiet(old(Contents())), SetStatus(source, approval)).t else old(Contents())
    {
      found := source in sources;
      if found {
        sources := sources[source := sources[source].(approval := approval)];
      }
    }

    /** `locations` are the IDs that exist; assigning an unknown one or to an unknown job changes nothing. */
    method AssignJobLocation(job: JobKey, location: Option<nat>, locations: set<nat>) returns (placed: bool)
      modifies this`jobs
      ensures placed == ((location.Some? ==> location.value in locations) && job in old(jobs))
      ensures Contents() == if placed then Next(Quiet(old(Contents())), AssignLocation(job, location)).t else old(Contents())
    {
      if location.Some? && location.value !in locations {
        return false;
      }
      if job !in jobs {
        return false;
      }
      jobs := jobs[job := AssignedJob(jobs[job], location)];
      return true;
    }

    /** Job writes, aging and the run's end in one transaction: all of it is published, or none. */
    method PersistHealthyRun(run: nat, source: nat, base: UrlText, scope: SourceScope, batch: seq<Observation>,
                             report: Report, startedAt: nat, now: nat, finishedAt: nat)
      returns (outcome: Outcome)
      modifies this`jobs, this`runs
      ensures outcome == NotDone ==> Contents() == old(Contents())
      ensures outcome != NotDone ==>
                HealthyTransaction(old(Contents()), run, source, base, scope, batch, report, startedAt, now, finishedAt)
                == Ok(Contents())
      ensures outcome != NotDone ==>
                && run in runs && runs[run].finishedAt.Some? && runs[run].status == report.status
                && Acceptable(scope, batch)
    {
      var jobsBefore, runsBefore := jobs, runs;
      outcome := NotDone;
      var delta := PersistHealthyObservations(source, base, scope, batch, now);
      if delta.Ok? {
        var missing := ReconcileMissingJobs(source, startedAt, base);
        if missing.Ok? {
          var counts := report.counts.(jobsCreated := delta.value.created, jobsUpdated := delta.value.updated,
                                       jobsMissing := missing.value);
          var finished := FinishCrawlRunIfUnfinished(run, report.(counts := counts), finishedAt);
          if finished == Ok(true) {
            outcome := *;
          }
        }
      }
      if outcome == NotDone {
        jobs, runs := jobsBefore, runsBefore;
      }
    }
  }

  // ---------- the calls are the worker's steps ----------

  lemma BeginIsStep(t: Tables, run: nat, source: nat, base: UrlText, serving: Option<nat>, now: nat)
    requires run !in t.runs && source in t.sources
    requires serving.Some? ==> Claimed(t.requests, serving) && t.requests[serving.value].source == source
    ensures var s, step := State(t, now, map[], map[], []), Begin(run, source, base, serving, Done);
            Enabled(s, step) && Next(s, step).t == t.(runs := t.runs[run := BegunRun(source, now)])
  {
  }

  lemma AttachIsStep(t: Tables, now: nat, run: nat, w: Worker)
    requires w.pc == Attaching && w.request.Some?
    ensures var s, step := Alone(t, now, run, w), Attach(run, Done);
            Enabled(s, step) && Next(s, step).t == t.(requests := Attached(t.requests, w.request.value, run))
  {
  }

  lemma CompareIsStep(t: Tables, now: nat, run: nat, w: Worker, finishedAt: nat)
    requires w.pc.Finalizing? || w.pc.Recovering?
    ensures var s := Alone(t, now, run, w);
            var step := if w.pc.Finalizing? then Finalize(run, Done, finishedAt) else Recover(run, Done, finishedAt);
            && Enabled(s, step)
            && Next(s, step).t == match FinishRun(t.runs, run, w.pc.report, finishedAt)
                                  case Ok((after, _)) => t.(runs := after)
                                  case Err(_) => t
  {
  }

  lemma CompleteIsStep(t: Tables, now: nat, run: nat, w: Worker)
    requires w.pc == Completing && w.request.Some?
    ensures var s, step := Alone(t, now, run, w), Complete(run, Done);
            Enabled(s, step) && Next(s, step).t == t.(requests := CompletedBy(t.requests, w.request.value, run, now))
  {
  }

  lemma FailIsStep(t: Tables, now: nat, run: nat, w: Worker)
    requires w.pc == Returned(false) && w.request.Some?
    ensures var s, step := Alone(t, now, run, w), FailRequest(run, Done);
            Enabled(s, step) && Next(s, step).t == t.(requests := FailedWith(t.requests, w.request.value, None, "worker_failed", now))
  {
  }

  /** What a healthy transaction writes, laid over the table it read, is the table it leaves. */
  lemma WritesAreAll(jobs: map<JobKey, Job>, source: nat, batch: seq<Observation>, now: nat, startedAt: nat)
    ensures var after := AgeMissing(UpsertAll(jobs, source, batch, now), source, startedAt);
            jobs + Writes(jobs, after, source, batch) == after
  {
    var after := AgeMissing(UpsertAll(jobs, source, batch, now), source, startedAt);
    forall k: JobKey ensures Row(jobs + Writes(jobs, after, source, batch), k) == Row(after, k) {
      HealthyRows(jobs, source, batch, now, startedAt, k);
      LastObservationWins(Row(jobs, k), k.key, batch, now);
    }
    RowsMakeTables(jobs + Writes(jobs, after, source, batch), after);
  }

  /** The transaction is two steps: what it writes while it is open, and its commit, are together what it does at once. */
  lemma PersistIsTwoSteps(t: Tables, clock: nat, run: nat, w: Worker, now: nat, finishedAt: nat)
    requires w.pc.Persisting? && NewScope(w.base).Ok? && w.startedAt <= now <= clock
    requires HealthyTransaction(t, run, w.source, w.base, NewScope(w.base).value, w.pc.batch, w.pc.report, w.startedAt, now, finishedAt).Ok?
    ensures var s, open, commit := Alone(t, clock, run, w), OpenTransaction(run, now, finishedAt), Commit(run, Done);
            && Enabled(s, open) && Enabled(Next(s, open), commit)
            && Ok(Next(Next(s, open), commit).t) ==
               HealthyTransaction(t, run, w.source, w.base, NewScope(w.base).value, w.pc.batch, w.pc.report, w.startedAt, now, finishedAt)
  {
    WritesAreAll(t.jobs, w.source, w.pc.batch, now, w.startedAt);
    EndingFrame(Next(Alone(t, clock, run, w), OpenTransaction(run, now, finishedAt)), Commit(run, Done));
  }

  lemma RowsMakeTables<K, V>(a: map<K, V>, b: map<K, V>)
    requires forall k :: Row(a, k) == Row(b, k)
    ensures a == b
  {
    forall k ensures k in a <==> k in b { assert Row(a, k) == Row(b, k); }
    forall k | k in a ensures a[k] == b[k] { assert Row(a, k) == Row(b, k); }
  }

  // ---------- run_source among others ----------

  /** Any number of steps by others. It changes nothing here; callers know of it only what it ensures. */
  method Interfere(db: Database, run: nat, request: Option<nat>)
    modifies db
    ensures OthersMay(old(db.Contents()), db.Contents(), run, request)
  {
  }

  /** The request is still to be ended, or this run completed it and is finished. */
  predicate Served(t: Tables, run: nat, request: nat) {
    && request in t.requests
    && (|| t.requests[request].status == Running
        || (&& t.requests[request].status == Completed && t.requests[request].run == Some(run)
            && run in t.runs && t.runs[run].finishedAt.Some?))
  }

  predicate Claimed(requests: map<nat, Request>, request: Option<nat>) {
    request.Some? && request.value in requests && requests[request.value].status == Running
  }

  /** The compare-and-set, and the read that settles a lost race; an error may come after the effect. */
  method FinalizeRun(db: Database, run: nat, request: Option<nat>, report: Report, finishedAt: nat, recovering: bool)
    returns (ok: bool)
    requires run in db.runs && (db.runs[run].finishedAt.None? ==> report.status != Healthy)
    modifies db
    ensures run in db.runs
    ensures ok ==> db.runs[run].finishedAt.Some?
    ensures old(db.runs[run].finishedAt.Some?) ==> db.runs[run] == old(db.runs[run])
    ensures old(db.runs[run].finishedAt.None?) && db.runs[run].finishedAt.Some? ==> db.runs[run].status != Healthy
    ensures db.runs[run].startedAt == old(db.runs[run].startedAt)
    ensures old(Claimed(db.requests, request)) ==> Claimed(db.requests, request)
    decreases !recovering
  {
    Interfere(db, run, request);
    var reached: bool, heard: bool := *, *;
    var moved: Result<bool, StorageError> := Err(ConnectionFailed);
    if reached {
      moved := db.FinishCrawlRunIfUnfinished(run, report, finishedAt);
    }
    if moved.Err? || !heard {
      if recovering {
        return false;
      }
      ok := FinalizeRun(db, run, request, report, finishedAt, true);
      return;
    }
    if moved == Ok(true) {
      return true;
    }
    Interfere(db, run, request);
    var readFailed: bool := *;
    return !readFailed && run in db.runs && db.runs[run].finishedAt.Some?;
  }

  method CompleteRequest(db: Database, request: Option<nat>, run: nat, now: nat) returns (ok: bool)
    requires run in db.runs && db.runs[run].finishedAt.Some?
    modifies db
    ensures run in db.runs && db.runs[run] == old(db.runs[run])
    ensures forall q :: q in db.requests ==> q in old(db.requests)
    ensures forall q :: q in db.requests && db.requests[q] != old(db.requests)[q] ==>
              request == Some(q) && db.requests[q].status == Completed && db.requests[q].run == Some(run)
    ensures old(Claimed(db.requests, request)) ==> Served(db.Contents(), run, request.value)
    ensures ok && old(Claimed(db.requests, request)) ==> db.requests[request.value].status == Completed
  {
    if request.None? {
      return true;
    }
    var outcome: Outcome := *;
    if outcome != NotDone {
      db.CompleteCrawlRequest(request.value, run, now);
    }
    return outcome == Done;
  }

  /** The healthy branch: the transaction, and the recovery when its outcome was not heard. */
  method PersistOrRecover(db: Database, run: nat, source: nat, base: UrlText, request: Option<nat>, scope: SourceScope,
                          batch: seq<Observation>, report: Report, startedAt: nat, now: nat, finishedAt: nat)
    returns (ok: bool, published: bool)
    requires run in db.runs && db.runs[run].finishedAt.None? && report.status == Healthy
    modifies db
    ensures run in db.runs
    ensures ok ==> db.runs[run].finishedAt.Some?
    ensures db.runs[run].finishedAt.Some? && db.runs[run].status == Healthy <==> published
    ensures published ==> Acceptable(scope, batch)
    ensures old(Claimed(db.requests, request)) ==> Claimed(db.requests, request)
  {
    var outcome := db.PersistHealthyRun(run, source, base, scope, batch, report, startedAt, now, finishedAt);
    published := outcome != NotDone;
    if outcome == Done {
      return true, true;
    }
    ok := FinalizeRun(db, run, request, AnomalyReport(report, "persistence_failed"), finishedAt, true);
  }

  /**
   `run_source`. `crawled` is what the crawl of the source returned. Ok means
   the run is finished and the claimed request COMPLETED with it; and whatever
   was lost on the way, a finished run is HEALTHY exactly when its transaction
   was published, and the request is RUNNING until a finished run completes it.
   */
  method RunSource(db: Database, run: nat, source: nat, base: UrlText, request: Option<nat>,
                   crawled: Report, batch: seq<Observation>, now: nat, later: nat, finishedAt: nat)
    returns (ok: bool, published: bool)
    requires run !in db.runs
    modifies db
    ensures ok ==> run in db.runs && db.runs[run].finishedAt.Some?
    ensures run in db.runs ==> (db.runs[run].finishedAt.Some? && db.runs[run].status == Healthy <==> published)
    ensures published ==> crawled.status == Healthy && crawled.reconciliationSafe && NewScope(base).Ok?
                          && Acceptable(NewScope(base).value, batch)
    ensures old(Claimed(db.requests, request)) ==> Served(db.Contents(), run, request.value)
    ensures ok && old(Claimed(db.requests, request)) ==> db.requests[request.value].status == Completed
  {
    published := false;
    var began: Outcome := *;
    if began == NotDone {
      return false, false;
    }
    var startedAt := db.BeginCrawlRun(run, source, now);
    if began == Lost {
      return false, false;
    }
    if request.Some? {
      Interfere(db, run, request);
      var attached: Outcome := *;
      if attached != NotDone {
        db.AttachCrawlRequestRun(request.value, run);
      }
      if attached != Done {
        return false, false;
      }
    }
    Interfere(db, run, request);
    var report := crawled;
    var scope := NewScope(base);
    if report.status == Healthy && (scope.Err? || !report.reconciliationSafe) {
      report := AnomalyReport(report, if scope.Err? then "source_scope_invalid" else "reconciliation_not_authorized");
    }
    if report.status == Healthy {
      ok, published := PersistOrRecover(db, run, source, base, request, scope.value, batch, report, startedAt, later, finishedAt);
    } else {
      ok := FinalizeRun(db, run, request, report, finishedAt, false);
    }
    if !ok {
      return;
    }
    Interfere(db, run, request);
    ok := CompleteRequest(db, request, run, later);
  }
}
