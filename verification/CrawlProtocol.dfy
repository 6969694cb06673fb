/**
 Crawl runs against admin edits, interleaved (crawler/src/main.rs).

 A worker is one call of `run_source`; it is known by the run row it opened.
 Each step is one statement or transaction. The healthy transaction alone is
 split: its statements run while it holds the source row and its run row
 locked (`OpenTransaction`), and its end is a later step, because the commit
 can be decided after the worker has given up waiting for the reply. While a
 transaction is open, every other writer of the same source row, of the rows it
 has written or of its run row waits, that is, its step is not enabled.

 Assumed: `now()` is the transaction's start and never goes back, and
 `started_at` is the `now()` of the transaction that opened the run.
 */
module CrawlProtocol {
  import opened Wrappers
  import opened Reconcile
  import opened Scope
  import opened CrawlTables

  /** `Lost`: the statement took effect, but its reply did not arrive. */
  datatype Outcome = Done | Lost | NotDone

  datatype Pc =
    | Attaching | Crawling
    | Persisting(batch: seq<Observation>, report: Report)
    | Committing(report: Report)
    | Finalizing(report: Report)
    | Recovering(report: Report)
    | Completing
    | Returned(ok: bool)

  datatype Worker = Worker(source: nat, base: UrlText, request: Option<nat>, startedAt: nat, pc: Pc)

  /** A healthy transaction between its last statement and its end: what it will publish. */
  datatype OpenTx = OpenTx(source: nat, base: UrlText, batch: seq<Observation>, now: nat, startedAt: nat,
                           writes: map<JobKey, Job>, runRow: Run)

  /** The committed transactions that wrote `job_cache`, in commit order. */
  datatype Event =
    | Crawled(run: nat, source: nat, batch: seq<Observation>, now: nat, startedAt: nat)
    | Rebased(source: nat)
    | Assigned(job: JobKey, location: Option<nat>)

  datatype State = State(t: Tables, clock: nat, workers: map<nat, Worker>, open: map<nat, OpenTx>, log: seq<Event>)

  datatype Step =
    | Tick
    | CreateSource(source: nat, base: UrlText)
    | EditBaseUrl(source: nat, base: UrlText)
    | SetStatus(source: nat, approval: Approval)
    | AssignLocation(job: JobKey, location: Option<nat>)
    | Enqueue(request: nat, source: nat)
    | Claim(request: nat)
    | GiveUp(request: nat)
    | Begin(run: nat, source: nat, base: UrlText, serving: Option<nat>, outcome: Outcome)
    | Attach(run: nat, outcome: Outcome)
    | Crawl(run: nat, report: Report, batch: seq<Observation>)
    | OpenTransaction(run: nat, now: nat, finishedAt: nat)
    | TransactionFails(run: nat)
    | Commit(run: nat, outcome: Outcome)
    | LoseConnection(run: nat)
    | LateEnd(run: nat, committed: bool)
    | Finalize(run: nat, outcome: Outcome, finishedAt: nat)
    | Recover(run: nat, outcome: Outcome, finishedAt: nat)
    | Complete(run: nat, outcome: Outcome)
    | FailRequest(run: nat, outcome: Outcome)
    | Crash(run: nat)

  // ---------- the steps ----------

  predicate SourceLocked(s: State, source: nat) {
    exists run :: run in s.open && s.open[run].source == source
  }

  predicate JobLocked(s: State, job: JobKey) {
    exists run :: run in s.open && job in s.open[run].writes
  }

  predicate At(s: State, run: nat) { run in s.workers }

  /** A claimed request whose claimer has not begun a run for it. */
  predicate Unserved(s: State, request: nat) {
    && request in s.t.requests && s.t.requests[request].status == Running
    && forall run :: run in s.workers ==> s.workers[run].request != Some(request)
  }

  function AnomalyReport(report: Report, code: string): Report {
    report.(status := Anomaly, errorCode := Some(code),
            counts := report.counts.(jobsCreated := 0, jobsUpdated := 0, jobsMissing := 0))
  }

  /** Where `run_source` goes once the crawl has returned a report. */
  function AfterCrawl(base: UrlText, report: Report, batch: seq<Observation>): Pc {
    if report.status != Healthy then Finalizing(report)
    else if NewScope(base).Err? then Finalizing(AnomalyReport(report, "source_scope_invalid"))
    else if !report.reconciliationSafe then Finalizing(AnomalyReport(report, "reconciliation_not_authorized"))
    else Persisting(batch, report)
  }

  function Transaction(s: State, run: nat, now: nat, finishedAt: nat): Result<Tables, StorageError>
    requires At(s, run) && s.workers[run].pc.Persisting? && NewScope(s.workers[run].base).Ok?
  {
    var w := s.workers[run];
    HealthyTransaction(s.t, run, w.source, w.base, NewScope(w.base).value, w.pc.batch, w.pc.report,
                       w.startedAt, now, finishedAt)
  }

  /** The rows a healthy transaction has written, and so keeps locked. */
  function Writes(before: map<JobKey, Job>, after: map<JobKey, Job>, source: nat, batch: seq<Observation>): map<JobKey, Job> {
    map k | k in after && k.source == source
            && (LastFor(batch, k.key).Some? || k !in before || before[k] != after[k]) :: after[k]
  }

  predicate Enabled(s: State, step: Step) {
    match step
    case Tick => true
    case CreateSource(source, _) => source !in s.t.sources
    case EditBaseUrl(source, _) => source in s.t.sources && !SourceLocked(s, source)
    case SetStatus(source, _) => source in s.t.sources && !SourceLocked(s, source)
    case AssignLocation(job, _) => job in s.t.jobs && !JobLocked(s, job)
    case Enqueue(request, source) =>
      request !in s.t.requests && source in s.t.sources && s.t.sources[source].approval == Approved
    case Claim(request) =>
      request in s.t.requests && s.t.requests[request].status == Pending
      && s.t.requests[request].source in s.t.sources
      && s.t.sources[s.t.requests[request].source].approval == Approved
    case GiveUp(request) => Unserved(s, request)
    case Begin(run, source, _, serving, outcome) =>
      && run !in s.t.runs && run !in s.workers && source in s.t.sources && outcome != NotDone
      && (serving.Some? ==> Unserved(s, serving.value) && s.t.requests[serving.value].source == source)
    case Attach(run, _) => At(s, run) && s.workers[run].pc == Attaching
    case Crawl(run, _, _) => At(s, run) && s.workers[run].pc == Crawling
    case OpenTransaction(run, now, finishedAt) =>
      && At(s, run) && s.workers[run].pc.Persisting? && NewScope(s.workers[run].base).Ok?
      && !SourceLocked(s, s.workers[run].source)
      && s.workers[run].startedAt <= now <= s.clock
      && Transaction(s, run, now, finishedAt).Ok?
    case TransactionFails(run) => At(s, run) && s.workers[run].pc.Persisting?
    case Commit(run, _) => At(s, run) && s.workers[run].pc.Committing? && run in s.open
    case LoseConnection(run) => At(s, run) && s.workers[run].pc.Committing?
    case LateEnd(run, _) => run in s.open && At(s, run) && !s.workers[run].pc.Committing?
    case Finalize(run, _, _) => At(s, run) && s.workers[run].pc.Finalizing? && run !in s.open
    case Recover(run, _, _) => At(s, run) && s.workers[run].pc.Recovering? && run !in s.open
    case Complete(run, _) => At(s, run) && s.workers[run].pc == Completing
    case FailRequest(run, _) => At(s, run) && s.workers[run].pc == Returned(false) && s.workers[run].request.Some?
    case Crash(run) => At(s, run) && !s.workers[run].pc.Returned?
  }

  function Goto(s: State, run: nat, pc: Pc): State
    requires At(s, run)
  {
    s.(workers := s.workers[run := s.workers[run].(pc := pc)])
  }

  function Publish(s: State, run: nat): State
    requires run in s.open
  {
    var x := s.open[run];
    s.(t := s.t.(jobs := s.t.jobs + x.writes, runs := s.t.runs[run := x.runRow]),
       open := s.open - {run},
       log := s.log + [Crawled(run, x.source, x.batch, x.now, x.startedAt)])
  }

  /** A compare-and-set on the run row, then the read that settles a lost race. */
  function CompareAndSet(s: State, run: nat, report: Report, outcome: Outcome, finishedAt: nat, onError: Pc): State
    requires At(s, run)
  {
    match FinishRun(s.t.runs, run, report, finishedAt)
    case Err(_) => Goto(s, run, onError)
    case Ok((runs, true)) =>
      if outcome == NotDone then Goto(s, run, onError)
      else Goto(s.(t := s.t.(runs := runs)), run, if outcome == Done then Completing else onError)
    case Ok((_, false)) =>
      if outcome == NotDone then Goto(s, run, onError)
      else if outcome == Done && run in s.t.runs && s.t.runs[run].finishedAt.Some? then Goto(s, run, Completing)
      else Goto(s, run, Returned(false))
  }

  function UpdateRequest(s: State, request: nat, row: Request): State {
    s.(t := s.t.(requests := s.t.requests[request := row]))
  }

  function CompleteRequest(s: State, request: nat, run: nat): State {
    if request in s.t.requests && s.t.requests[request].status == Running then
      UpdateRequest(s, request, s.t.requests[request].(status := Completed, finishedAt := Some(s.clock), run := Some(run)))
    else s
  }

  /** `COALESCE(NULL, source_run_id)`: the run link stays. */
  function FailRequestRow(s: State, request: nat): State {
    if request in s.t.requests && s.t.requests[request].status in {Pending, Running} then
      UpdateRequest(s, request, s.t.requests[request].(status := Failed, finishedAt := Some(s.clock), errorCode := Some("worker_failed")))
    else s
  }

  function Next(s: State, step: Step): State
    requires Enabled(s, step)
  {
    match step
    case Tick => s.(clock := s.clock + 1)
    case CreateSource(source, base) =>
      s.(t := s.t.(sources := s.t.sources[source := Source(base, Approved)]))
    case EditBaseUrl(source, base) =>
      var changed := s.t.sources[source].baseUrl != base;
      s.(t := s.t.(sources := s.t.sources[source := Source(base, Approved)],
                   jobs := if changed then CloseSource(s.t.jobs, source) else s.t.jobs),
         log := if changed then s.log + [Rebased(source)] else s.log)
    case SetStatus(source, approval) =>
      s.(t := s.t.(sources := s.t.sources[source := s.t.sources[source].(approval := approval)]))
    case AssignLocation(job, location) =>
      s.(t := s.t.(jobs := s.t.jobs[job := AssignedJob(s.t.jobs[job], location)]),
         log := s.log + [Assigned(job, location)])
    case Enqueue(request, source) => UpdateRequest(s, request, Request(source, Pending, s.clock, None, None, None, None))
    case Claim(request) =>
      UpdateRequest(s, request, s.t.requests[request].(status := Running, startedAt := Some(s.clock)))
    case GiveUp(request) => FailRequestRow(s, request)
    case Begin(run, source, base, serving, outcome) =>
      s.(t := s.t.(runs := s.t.runs[run := Run(source, Anomaly, s.clock, None, Counts(0, 0, 0, 0, 0), Some("crawl_started"))]),
         workers := s.workers[run := Worker(source, base, serving, s.clock,
           if outcome == Lost then Returned(false) else if serving.Some? then Attaching else Crawling)])
    case Attach(run, outcome) =>
      var request := s.workers[run].request;
      var attached :=
        if outcome != NotDone && request.Some? && request.value in s.t.requests && s.t.requests[request.value].status == Running
        then UpdateRequest(s, request.value, s.t.requests[request.value].(run := Some(run))) else s;
      Goto(attached, run, if outcome == Done then Crawling else Returned(false))
    case Crawl(run, report, batch) => Goto(s, run, AfterCrawl(s.workers[run].base, report, batch))
    case OpenTransaction(run, now, finishedAt) =>
      var w := s.workers[run];
      var after := Transaction(s, run, now, finishedAt).value;
      var x := OpenTx(w.source, w.base, w.pc.batch, now, w.startedAt,
                      Writes(s.t.jobs, after.jobs, w.source, w.pc.batch), after.runs[run]);
      Goto(s, run, Committing(w.pc.report)).(open := s.open[run := x])
    case TransactionFails(run) =>
      Goto(s, run, Recovering(AnomalyReport(s.workers[run].pc.report, "persistence_failed")))
    case Commit(run, outcome) =>
      var doubt := Recovering(AnomalyReport(s.workers[run].pc.report, "persistence_failed"));
      if outcome == NotDone then Goto(s.(open := s.open - {run}), run, doubt)
      else Goto(Publish(s, run), run, if outcome == Done then Completing else doubt)
    case LoseConnection(run) =>
      Goto(s, run, Recovering(AnomalyReport(s.workers[run].pc.report, "persistence_failed")))
    case LateEnd(run, committed) =>
      if committed then Publish(s, run) else s.(open := s.open - {run})
    case Finalize(run, outcome, finishedAt) =>
      var report := s.workers[run].pc.report;
      CompareAndSet(s, run, report, outcome, finishedAt, Recovering(report))
    case Recover(run, outcome, finishedAt) =>
      CompareAndSet(s, run, s.workers[run].pc.report, outcome, finishedAt, Returned(false))
    case Complete(run, outcome) =>
      var request := s.workers[run].request;
      var completed := if outcome != NotDone && request.Some? then CompleteRequest(s, request.value, run) else s;
      Goto(completed, run, Returned(outcome == Done || request.None?))
    case FailRequest(run, outcome) =>
      if outcome == NotDone then s else FailRequestRow(s, s.workers[run].request.value)
    case Crash(run) => Goto(s, run, Returned(false))
  }

  function Start(clock: nat): State {
    State(Tables(map[], map[], map[], map[]), clock, map[], map[], [])
  }

  /** Every state of a run of the system: it starts empty and each next state is one enabled step away. */
  ghost predicate IsRun(states: seq<State>, steps: seq<Step>) {
    && |states| == |steps| + 1
    && states[0] == Start(states[0].clock)
    && forall i :: 0 <= i < |steps| ==> Enabled(states[i], steps[i]) && states[i + 1] == Next(states[i], steps[i])
  }

  // ---------- what every committed state keeps ----------

  /** Each row of the log, applied to the row of one job. */
  function Apply(row: Option<Job>, e: Event, k: JobKey): Option<Job> {
    match e
    case Crawled(_, source, batch, now, startedAt) =>
      if source == k.source then RowAfterCommit(row, k.key, batch, now, startedAt) else row
    case Rebased(source) => if source == k.source && row.Some? then Some(ClosedJob(row.value)) else row
    case Assigned(job, location) => if job == k && row.Some? then Some(AssignedJob(row.value, location)) else row
  }

  function Replay(log: seq<Event>, k: JobKey): Option<Job> {
    if log == [] then None else Apply(Replay(log[..|log| - 1], k), log[|log| - 1], k)
  }

  predicate HasCrawled(log: seq<Event>, run: nat) {
    exists i :: 0 <= i < |log| && log[i].Crawled? && log[i].run == run
  }

  /** `job_cache` is the serial replay of the committed transactions. */
  ghost predicate JobsAreReplay(s: State) {
    forall k: JobKey :: Row(s.t.jobs, k) == Replay(s.log, k)
  }

  /** An open job's URL is inside the boundary its source has now. */
  ghost predicate ListedJobsInScope(s: State) {
    forall k :: k in s.t.jobs && Listed(s.t.jobs[k].state.status) ==>
      k.source in s.t.sources && InScope(s.t.sources[k.source].baseUrl, s.t.jobs[k].url)
  }

  /** A run is HEALTHY exactly when its job writes are committed, and then once. */
  ghost predicate HealthyMeansCommitted(s: State) {
    && (forall run :: run in s.t.runs ==>
          (s.t.runs[run].finishedAt.Some? && s.t.runs[run].status == Healthy <==> HasCrawled(s.log, run)))
    && (forall i, j :: 0 <= i < j < |s.log| && s.log[i].Crawled? && s.log[j].Crawled? ==> s.log[i].run != s.log[j].run)
    && (forall i :: 0 <= i < |s.log| && s.log[i].Crawled? ==>
          && s.log[i].run in s.t.runs
          && s.log[i].startedAt == s.t.runs[s.log[i].run].startedAt <= s.log[i].now)
  }

  predicate WorkerKnows(s: State, run: nat)
    requires run in s.workers
  {
    var pc := s.workers[run].pc;
    && run in s.t.runs
    && s.workers[run].startedAt == s.t.runs[run].startedAt <= s.clock
    && (pc in {Completing, Returned(true)} ==> s.t.runs[run].finishedAt.Some?)
    && (pc.Finalizing? || pc.Recovering? ==> pc.report.status != Healthy)
    && (pc.Persisting? ==> run !in s.open && pc.report.status == Healthy)
    && (pc in {Attaching, Crawling, Completing} || pc.Finalizing? ==> run !in s.open)
    && (pc.Persisting? || pc.Committing? ==> NewScope(s.workers[run].base).Ok?)
  }

  ghost predicate WorkersKnowTheirRun(s: State) {
    forall run {:trigger WorkerKnows(s, run)} :: run in s.workers ==> WorkerKnows(s, run)
  }

  predicate CompletedByRun(s: State, q: nat)
    requires q in s.t.requests
  {
    && s.t.requests[q].run.Some?
    && s.t.requests[q].run.value in s.t.runs
    && s.t.runs[s.t.requests[q].run.value].finishedAt.Some?
  }

  ghost predicate CompletedRequestsHaveFinishedRun(s: State) {
    forall q :: q in s.t.requests && s.t.requests[q].status == Completed ==> CompletedByRun(s, q)
  }

  /** The rows a transaction wrote without having observed them. */
  function AgedKeys(x: OpenTx): set<JobKey> {
    set k | k in x.writes && LastFor(x.batch, k.key).None?
  }

  /** What an open transaction holds is still what its statements saw. */
  ghost predicate OpenTxValid(s: State, run: nat)
    requires run in s.open
  {
    var x := s.open[run];
    && run in s.workers
    && Unfinished(s.t.runs, run)
    && SnapshotHolds(s.t.sources, x.source, x.base)
    && NewScope(x.base).Ok? && Acceptable(NewScope(x.base).value, x.batch)
    && x.startedAt == s.t.runs[run].startedAt == x.runRow.startedAt
    && x.startedAt <= x.now <= s.clock
    && x.runRow.status == Healthy && x.runRow.finishedAt.Some?
    && (forall k :: k in x.writes ==> k.source == x.source)
    && (forall k: JobKey :: k.source == x.source ==>
          RowAfterCommit(Row(s.t.jobs, k), k.key, x.batch, x.now, x.startedAt)
          == (if k in x.writes then Some(x.writes[k]) else Row(s.t.jobs, k)))
    && (forall k: JobKey :: k.source == x.source && LastFor(x.batch, k.key).Some? ==> k in x.writes)
    && (forall k :: k in x.writes && LastFor(x.batch, k.key).None? ==> StateMoved(Row(s.t.jobs, k), Some(x.writes[k])))
  }

  predicate CountsRecorded(s: State, run: nat)
    requires run in s.open
  {
    var x := s.open[run];
    && x.runRow.counts.jobsCreated == |x.writes.Keys - s.t.jobs.Keys|
    && x.runRow.counts.jobsMissing == |AgedKeys(x)|
  }

  predicate OnePerSource(open: map<nat, OpenTx>) {
    forall a, b :: a in open && b in open && open[a].source == open[b].source ==> a == b
  }

  ghost predicate OpenTxsValid(s: State) {
    && (forall run {:trigger OpenTxValid(s, run)} :: run in s.open ==> OpenTxValid(s, run))
    && (forall run {:trigger CountsRecorded(s, run)} :: run in s.open ==> CountsRecorded(s, run))
    && OnePerSource(s.open)
  }

  ghost predicate Inv(s: State) {
    && JobsAreReplay(s)
    && ListedJobsInScope(s)
    && HealthyMeansCommitted(s)
    && WorkersKnowTheirRun(s)
    && CompletedRequestsHaveFinishedRun(s)
    && OpenTxsValid(s)
  }

  lemma StartKeepsInv(clock: nat)
    ensures Inv(Start(clock))
  {
  }

  // ---------- what a step leaves alone ----------

  /** Steps that write neither `job_sources` nor `job_cache`. */
  predicate LeavesJobs(step: Step) {
    match step
    case CreateSource(_, _) => false
    case EditBaseUrl(_, _) => false
    case SetStatus(_, _) => false
    case AssignLocation(_, _) => false
    case Commit(_, outcome) => outcome == NotDone
    case LateEnd(_, committed) => !committed
    case _ => true
  }

  predicate Compares(step: Step) { step.Finalize? || step.Recover? }

  function StepWorker(step: Step): Option<nat> {
    match step
    case Begin(run, _, _, _, _) => Some(run)
    case Attach(run, _) => Some(run)
    case Crawl(run, _, _) => Some(run)
    case OpenTransaction(run, _, _) => Some(run)
    case TransactionFails(run) => Some(run)
    case Commit(run, _) => Some(run)
    case LoseConnection(run) => Some(run)
    case LateEnd(run, _) => Some(run)
    case Finalize(run, _, _) => Some(run)
    case Recover(run, _, _) => Some(run)
    case Complete(run, _) => Some(run)
    case FailRequest(run, _) => Some(run)
    case Crash(run) => Some(run)
    case _ => None
  }

  /** Only the run row and where its worker stands. */
  predicate OnRunAlone(s: State, s': State) {
    && s'.t.sources == s.t.sources && s'.t.jobs == s.t.jobs && s'.t.requests == s.t.requests
    && s'.clock == s.clock && s'.open == s.open && s'.log == s.log
  }

  lemma GotoFrame(s: State, runs: map<nat, Run>, run: nat, pc: Pc)
    requires At(s, run)
    ensures OnRunAlone(s, Goto(s, run, pc)) && OnRunAlone(s, Goto(s.(t := s.t.(runs := runs)), run, pc))
  {
  }

  lemma CompareAndSetFrame(s: State, run: nat, report: Report, outcome: Outcome, finishedAt: nat, onError: Pc)
    requires At(s, run)
    ensures OnRunAlone(s, CompareAndSet(s, run, report, outcome, finishedAt, onError))
  {
    match FinishRun(s.t.runs, run, report, finishedAt)
    case Ok((runs, true)) =>
      GotoFrame(s, runs, run, if outcome == Done then Completing else onError);
      GotoFrame(s, runs, run, onError);
    case _ =>
      GotoFrame(s, s.t.runs, run, onError);
      GotoFrame(s, s.t.runs, run, Completing);
      GotoFrame(s, s.t.runs, run, Returned(false));
  }

  lemma CompareAndSetMoves(s: State, run: nat, report: Report, outcome: Outcome, finishedAt: nat, onError: Pc)
    requires At(s, run)
    ensures var s' := CompareAndSet(s, run, report, outcome, finishedAt, onError);
            && (exists pc :: pc in {Completing, onError, Returned(false)}
                  && s'.workers == s.workers[run := s.workers[run].(pc := pc)])
            && (s'.t.runs == s.t.runs
                || (Unfinished(s.t.runs, run) && s'.t.runs == s.t.runs[run := FinishedRow(s.t.runs[run], report, finishedAt)]))
            && (s'.workers[run].pc == Completing && onError != Completing ==> run in s'.t.runs && s'.t.runs[run].finishedAt.Some?)
  {
    var s' := CompareAndSet(s, run, report, outcome, finishedAt, onError);
    assert s'.workers == s.workers[run := s.workers[run].(pc := s'.workers[run].pc)];
  }

  lemma ComparingStep(s: State, step: Step)
    requires Enabled(s, step) && Compares(step)
    ensures var s' := Next(s, step); var run := step.run; var report := s.workers[run].pc.report;
            && OnRunAlone(s, s')
            && (exists pc :: pc in {Completing, Recovering(report), Returned(false)}
                  && s'.workers == s.workers[run := s.workers[run].(pc := pc)])
            && (s'.t.runs == s.t.runs
                || (Unfinished(s.t.runs, run) && s'.t.runs == s.t.runs[run := FinishedRow(s.t.runs[run], report, step.finishedAt)]))
            && (s'.workers[run].pc == Completing ==> run in s'.t.runs && s'.t.runs[run].finishedAt.Some?)
  {
    var run, report := step.run, s.workers[step.run].pc.report;
    var onError := if step.Finalize? then Recovering(report) else Returned(false);
    CompareAndSetFrame(s, run, report, step.outcome, step.finishedAt, onError);
    CompareAndSetMoves(s, run, report, step.outcome, step.finishedAt, onError);
  }

  predicate ByAdmin(step: Step) {
    step.Tick? || step.CreateSource? || step.EditBaseUrl? || step.SetStatus? || step.AssignLocation?
  }

  predicate OnQueue(step: Step) { step.Enqueue? || step.Claim? || step.GiveUp? || step.FailRequest? }

  predicate Reports(step: Step) { step.Attach? || step.Complete? }

  predicate Moves(step: Step) { step.Crawl? || step.TransactionFails? || step.LoseConnection? || step.Crash? }

  predicate Ends(step: Step) { step.Commit? || step.LateEnd? }

  /** Only this worker moves on; what it was begun with stays. */
  ghost predicate OnlyMoves(s: State, s': State, run: nat) {
    run in s.workers && run in s'.workers && s'.workers == s.workers[run := s.workers[run].(pc := s'.workers[run].pc)]
  }

  /** Workers and transactions of others stay; nobody is gone. */
  ghost predicate OthersStay(s: State, s': State, w: Option<nat>) {
    && s.clock <= s'.clock
    && s.workers.Keys <= s'.workers.Keys
    && (forall r :: r in s.workers && Some(r) != w ==> s'.workers[r] == s.workers[r])
    && (forall r :: r in s'.workers ==> r in s.workers || Some(r) == w)
    && (forall r :: r in s'.open ==> r in s.open || Some(r) == w)
  }

  /** What a step leaves alone, told by its kind. */
  ghost predicate Frame(s: State, s': State, step: Step) {
    && OthersStay(s, s', StepWorker(step))
    && (LeavesJobs(step) ==> s'.t.sources == s.t.sources && s'.t.jobs == s.t.jobs && s'.log == s.log)
    && (!Compares(step) && !step.Begin? && !Ends(step) ==> s'.t.runs == s.t.runs)
    && (!step.OpenTransaction? && !Ends(step) ==> s'.open == s.open)
    && (!OnQueue(step) && !Reports(step) ==> s'.t.requests == s.t.requests)
    && (!ByAdmin(step) ==> s'.t.sources == s.t.sources)
    && (!step.Begin? ==> s'.workers == s.workers || (StepWorker(step).Some? && OnlyMoves(s, s', StepWorker(step).value)))
  }

  lemma AdminFrame(s: State, step: Step)
    requires Enabled(s, step) && ByAdmin(step)
    ensures Frame(s, Next(s, step), step) && Next(s, step).workers == s.workers
  {
  }

  lemma QueueFrame(s: State, step: Step)
    requires Enabled(s, step) && OnQueue(step)
    ensures Frame(s, Next(s, step), step) && Next(s, step).workers == s.workers
  {
  }

  lemma AttachFrame(s: State, step: Step)
    requires Enabled(s, step) && step.Attach?
    ensures Frame(s, Next(s, step), step) && OnlyMoves(s, Next(s, step), step.run)
  {
  }

  lemma CompleteFrame(s: State, step: Step)
    requires Enabled(s, step) && step.Complete?
    ensures Frame(s, Next(s, step), step) && OnlyMoves(s, Next(s, step), step.run)
  {
  }

  /** Moving a worker on changes nothing else. */
  lemma GotoMoves(s: State, run: nat, pc: Pc, step: Step)
    requires At(s, run) && Moves(step) && step.run == run
    ensures Frame(s, Goto(s, run, pc), step) && OnlyMoves(s, Goto(s, run, pc), run)
  {
  }

  lemma MoveFrame(s: State, step: Step)
    requires Enabled(s, step) && Moves(step)
    ensures Frame(s, Next(s, step), step) && OnlyMoves(s, Next(s, step), step.run)
  {
    GotoMoves(s, step.run, Next(s, step).workers[step.run].pc, step);
  }

  lemma BeginFrame(s: State, step: Step)
    requires Enabled(s, step) && step.Begin?
    ensures Frame(s, Next(s, step), step)
    ensures var run, runs := step.run, Next(s, step).t.runs;
            run !in s.t.runs && run in runs && runs == s.t.runs[run := runs[run]] && runs[run].finishedAt.None?
  {
  }

  lemma OpeningFrame(s: State, step: Step)
    requires Enabled(s, step) && step.OpenTransaction?
    ensures Frame(s, Next(s, step), step) && OnlyMoves(s, Next(s, step), step.run)
    ensures var run, open := step.run, Next(s, step).open; run in open && open == s.open[run := open[run]]
  {
  }

  lemma EndingFrame(s: State, step: Step)
    requires Enabled(s, step) && Ends(step)
    ensures Frame(s, Next(s, step), step) && OnlyMoves(s, Next(s, step), step.run)
    ensures var s', run := Next(s, step), step.run;
            && run in s.open && s'.open == s.open - {run} && s'.clock == s.clock
            && s'.t == (if LeavesJobs(step) then s.t else Publish(s, run).t)
            && s'.log == (if LeavesJobs(step) then s.log else Publish(s, run).log)
  {
  }

  lemma ComparingFrame(s: State, step: Step)
    requires Enabled(s, step) && Compares(step)
    ensures Frame(s, Next(s, step), step) && OnlyMoves(s, Next(s, step), step.run)
  {
    ComparingStep(s, step);
  }

  lemma StepFrame(s: State, step: Step)
    requires Enabled(s, step)
    ensures Frame(s, Next(s, step), step)
  {
    if ByAdmin(step) {
      AdminFrame(s, step);
    } else if OnQueue(step) {
      QueueFrame(s, step);
    } else if step.Attach? {
      AttachFrame(s, step);
    } else if step.Complete? {
      CompleteFrame(s, step);
    } else if Moves(step) {
      MoveFrame(s, step);
    } else if step.Begin? {
      BeginFrame(s, step);
    } else if step.OpenTransaction? {
      OpeningFrame(s, step);
    } else if Ends(step) {
      EndingFrame(s, step);
    } else {
      ComparingFrame(s, step);
    }
  }
}
