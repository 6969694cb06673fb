/**
 The manual "crawl now" queue (crawler/src/store.rs, `process_one_pending_request`
 in crawler/src/main.rs) under the table's CHECK constraint: a row may carry
 `finished_at` only if it carries `started_at`
 (database/migrations/000008_settings_and_crawl_requests.up.sql).

 The statement that is meant to fail the requests of inactive sources sets
 `finished_at` on PENDING rows, which have never started. The constraint
 rejects it, so it never changes a row; and because it runs first, one such
 request keeps every other one waiting.
 */
module CrawlRequests {
  import opened Wrappers
  import opened Reconcile
  import opened Scope
  import opened CrawlTables
  import opened CrawlProtocol
  import opened CrawlInvariant
  import opened CrawlGuards
  import opened CrawlDatabase

  predicate RequestChecks(row: Request) {
    && (row.finishedAt.Some? ==> row.startedAt.Some? && row.finishedAt.value >= row.startedAt.value)
    && (row.status == Failed ==> row.errorCode.Some? && row.errorCode.value != "")
  }

  predicate SourceActive(sources: map<nat, Source>, source: nat) {
    source in sources && sources[source].approval == Approved
  }

  /** A PENDING request whose source is gone or not ACTIVE. */
  predicate Stranded(t: Tables, q: nat) {
    q in t.requests && t.requests[q].status == Pending && !SourceActive(t.sources, t.requests[q].source)
  }

  predicate Claimable(t: Tables, q: nat) {
    q in t.requests && t.requests[q].status == Pending && SourceActive(t.sources, t.requests[q].source)
  }

  /** `ORDER BY requested_at, id`. */
  predicate Before(requests: map<nat, Request>, p: nat, q: nat)
    requires p in requests && q in requests
  {
    requests[p].requestedAt < requests[q].requestedAt || (requests[p].requestedAt == requests[q].requestedAt && p < q)
  }

  /** The first in order of those that no other session has locked. */
  predicate IsOldestFree(t: Tables, locked: set<nat>, q: nat) {
    && Claimable(t, q) && q !in locked
    && forall p :: p in t.requests && Claimable(t, p) && p !in locked && p != q ==> Before(t.requests, q, p)
  }

  /** PENDING rows are untouched since they were inserted. */
  predicate PendingUnstarted(requests: map<nat, Request>) {
    forall q :: q in requests && requests[q].status == Pending ==> requests[q].startedAt.None?
  }

  function MarkInactive(t: Tables, now: nat): Result<Tables, StorageError> {
    var updated := map q | q in t.requests ::
      if Stranded(t, q) then t.requests[q].(status := Failed, finishedAt := Some(now), errorCode := Some("source_inactive"))
      else t.requests[q];
    if forall q :: q in t.requests && Stranded(t, q) ==> RequestChecks(updated[q]) then Ok(t.(requests := updated))
    else Err(CheckViolation)
  }

  lemma {:induction false} OldestExists(t: Tables, claimable: set<nat>) returns (q: nat)
    requires claimable != {} && forall p :: p in claimable ==> p in t.requests
    ensures q in claimable && forall p :: p in claimable && p != q ==> Before(t.requests, q, p)
    decreases claimable
  {
    q :| q in claimable;
    if claimable != {q} {
      var r := OldestExists(t, claimable - {q});
      assert Before(t.requests, r, q) || Before(t.requests, q, r);
      assert forall p :: p in claimable ==> p == q || p in claimable - {q};
      if Before(t.requests, r, q) { q := r; }
    }
  }

  function Started(t: Tables, q: nat, now: nat): Tables
    requires q in t.requests
  {
    t.(requests := t.requests[q := t.requests[q].(status := Running, startedAt := Some(now))])
  }

  method MarkInactiveCrawlRequests(db: Database, now: nat) returns (error: Option<StorageError>)
    modifies db`requests
    ensures match MarkInactive(old(db.Contents()), now)
            case Ok(after) => error.None? && db.Contents() == after
            case Err(e) => error == Some(e) && db.Contents() == old(db.Contents())
  {
    match MarkInactive(db.Contents(), now)
    case Ok(after) => db.requests := after.requests; return None;
    case Err(e) => return Some(e);
  }

  /** `FOR UPDATE SKIP LOCKED`: the oldest claimable request that no other session is claiming becomes RUNNING. */
  method ClaimNextCrawlRequest(db: Database, locked: set<nat>, now: nat) returns (claimed: Option<nat>)
    modifies db`requests
    ensures claimed.None? <==> forall q :: q in old(db.requests) && Claimable(old(db.Contents()), q) ==> q in locked
    ensures claimed.None? ==> db.Contents() == old(db.Contents())
    ensures claimed.Some? ==>
              && IsOldestFree(old(db.Contents()), locked, claimed.value)
              && db.Contents() == Started(old(db.Contents()), claimed.value, now)
  {
    var t := db.Contents();
    var free := set q | q in t.requests && Claimable(t, q) && q !in locked;
    if free == {} {
      assert forall q :: q in t.requests && Claimable(t, q) && q !in locked ==> q in free;
      return None;
    }
    ghost var oldest := OldestExists(t, free);
    assert IsOldestFree(t, locked, oldest);
    var q :| q in free && IsOldestFree(t, locked, q);
    db.requests := Started(t, q, now).requests;
    return Some(q);
  }

  /** `StatementFailed`: a connection, the claim or a runtime heartbeat failed; nothing is recovered then. */
  datatype WorkerError = MarkFailed(cause: StorageError) | StatementFailed | RunFailed | RecoveryFailed

  /** `fail_crawl_request` after a failed run; an error may come after the effect. */
  method RecoverRequest(db: Database, run: nat, request: nat, now: nat) returns (recovered: bool)
    requires Served(db.Contents(), run, request)
    modifies db`requests
    ensures request in db.requests
    ensures || Served(db.Contents(), run, request)
            || (db.requests[request].status == Failed && db.requests[request].errorCode == Some("worker_failed"))
    ensures recovered ==> RequestEnded(db.requests[request])
  {
    var outcome: Outcome := *;
    if outcome != NotDone {
      db.FailCrawlRequest(request, None, "worker_failed", now);
    }
    return outcome == Done;
  }

  /**
   `process_one_pending_request` among others; `claimed` is the request it made
   RUNNING, heard of or not. While a request is stranded it claims nothing. It
   returns true only with the claimed request COMPLETED by its finished run.
   After an error of the run the request has ended, COMPLETED or FAILED, unless
   the recovery failed as well; after any other error it may stay RUNNING.
   */
  method ProcessOnePendingRequest(db: Database, locked: set<nat>, run: nat, crawled: Report, batch: seq<Observation>,
                                  now: nat, later: nat, finishedAt: nat)
    returns (r: Result<bool, WorkerError>, claimed: Option<nat>, published: bool)
    requires PendingUnstarted(db.requests) && run !in db.runs
    modifies db
    ensures (exists q :: q in old(db.requests) && Stranded(old(db.Contents()), q)) ==>
              r.Err? && claimed.None? && db.Contents() == old(db.Contents())
    ensures r.Err? && r.error.MarkFailed? ==> exists q :: q in old(db.requests) && Stranded(old(db.Contents()), q)
    ensures r == Ok(false) ==> claimed.None? && forall q :: q in db.requests && Claimable(db.Contents(), q) ==> q in locked
    ensures r == Ok(true) ==>
              && claimed.Some? && claimed.value in db.requests && db.requests[claimed.value].status == Completed
              && db.requests[claimed.value].run == Some(run) && run in db.runs && db.runs[run].finishedAt.Some?
    ensures r == Err(RunFailed) ==>
              claimed.Some? && claimed.value in db.requests && RequestEnded(db.requests[claimed.value])
    ensures claimed.Some? ==> claimed.value !in locked && r != Ok(false)
    ensures run in db.runs ==> (db.runs[run].finishedAt.Some? && db.runs[run].status == Healthy <==> published)
    ensures published ==> crawled.status == Healthy && crawled.reconciliationSafe
  {
    claimed, published := None, false;
    var connected: bool := *;
    if !connected {
      return Err(StatementFailed), claimed, published;
    }
    MarkInactiveNeverMarks(db.Contents(), now);
    var error := MarkInactiveCrawlRequests(db, now);
    if error.Some? {
      return Err(MarkFailed(error.value)), claimed, published;
    }
    Interfere(db, run, None);
    var reached: bool, heard: bool := *, *;
    if reached {
      claimed := ClaimNextCrawlRequest(db, locked, now);
    }
    if !reached || !heard {
      return Err(StatementFailed), claimed, published;
    }
    if claimed.None? {
      return Ok(false), claimed, published;
    }
    var q := claimed.value;
    var source := db.requests[q].source;
    var base := db.sources[source].baseUrl;
    var marked: bool := *;
    if !marked {
      return Err(StatementFailed), claimed, published;
    }
    Interfere(db, run, claimed);
    var ok: bool;
    ok, published := RunSource(db, run, source, base, claimed, crawled, batch, now, later, finishedAt);
    if ok {
      var idle: bool := *;
      return if idle then Ok(true) else Err(StatementFailed), claimed, published;
    }
    var recovered := RecoverRequest(db, run, q, later);
    return Err(if recovered then RunFailed else RecoveryFailed), claimed, published;
  }

  /**
   The statement succeeds exactly when no request is stranded, that is, when it
   has nothing to do: it never fails a request.
   */
  lemma MarkInactiveNeverMarks(t: Tables, now: nat)
    requires PendingUnstarted(t.requests)
    ensures MarkInactive(t, now).Ok? <==> forall q :: q in t.requests ==> !Stranded(t, q)
    ensures MarkInactive(t, now).Ok? ==> MarkInactive(t, now).value == t
  {
    var updated := map q | q in t.requests ::
      if Stranded(t, q) then t.requests[q].(status := Failed, finishedAt := Some(now), errorCode := Some("source_inactive"))
      else t.requests[q];
    forall q | q in t.requests && Stranded(t, q) ensures !RequestChecks(updated[q]) {
      assert t.requests[q].startedAt.None?;
    }
    if forall q :: q in t.requests ==> !Stranded(t, q) {
      assert updated == t.requests;
    }
  }

  lemma StepKeepsPendingUnstarted(s: State, step: Step)
    requires Enabled(s, step) && PendingUnstarted(s.t.requests)
    ensures PendingUnstarted(Next(s, step).t.requests)
  {
    if !OnQueue(step) && !Reports(step) {
      StepFrame(s, step);
    }
  }

  /** On every run of the crawler and the admins, a PENDING request has not started. */
  lemma {:induction false} PendingIsUnstarted(states: seq<State>, steps: seq<Step>, i: nat)
    requires IsRun(states, steps) && i < |states|
    ensures PendingUnstarted(states[i].t.requests)
  {
    if i > 0 {
      PendingIsUnstarted(states, steps, i - 1);
      StepKeepsPendingUnstarted(states[i - 1], steps[i - 1]);
    }
  }

  // ---------- how long the queue stays blocked ----------

  /** The steps after which a source is active. */
  predicate Activates(step: Step, source: nat) {
    match step
    case CreateSource(x, _) => x == source
    case EditBaseUrl(x, _) => x == source
    case SetStatus(x, approval) => x == source && approval == Approved
    case _ => false
  }

  lemma OnlyActivatingActivates(s: State, step: Step, source: nat)
    requires Enabled(s, step) && !Activates(step, source) && !SourceActive(s.t.sources, source)
    ensures !SourceActive(Next(s, step).t.sources, source)
  {
    if !ByAdmin(step) {
      StepFrame(s, step);
    }
  }

  lemma StrandedStep(s: State, step: Step, request: nat)
    requires Enabled(s, step) && Linked(s) && Stranded(s.t, request) && !Activates(step, s.t.requests[request].source)
    ensures Stranded(Next(s, step).t, request) && Next(s, step).t.requests[request] == s.t.requests[request]
  {
    OnlyActivatingActivates(s, step, s.t.requests[request].source);
    RequestStep(s, step, request);
  }

  lemma {:induction false} StaysStranded(states: seq<State>, steps: seq<Step>, i: nat, j: nat, request: nat)
    requires IsRun(states, steps) && i <= j < |states| && Stranded(states[i].t, request)
    requires forall n :: i <= n < j ==> !Activates(steps[n], states[i].t.requests[request].source)
    ensures Stranded(states[j].t, request) && states[j].t.requests[request] == states[i].t.requests[request]
  {
    if i < j {
      StaysStranded(states, steps, i, j - 1, request);
      EveryStateIsLinked(states, steps, j - 1);
      StrandedStep(states[j - 1], steps[j - 1], request);
    }
  }

  /** One stranded request keeps the statement failing, at any time, until its source is made active again. */
  lemma BlockedUntilActivated(states: seq<State>, steps: seq<Step>, i: nat, j: nat, request: nat, now: nat)
    requires IsRun(states, steps) && i <= j < |states| && Stranded(states[i].t, request)
    requires forall n :: i <= n < j ==> !Activates(steps[n], states[i].t.requests[request].source)
    ensures MarkInactive(states[j].t, now) == Err(CheckViolation)
  {
    StaysStranded(states, steps, i, j, request);
    PendingIsUnstarted(states, steps, j);
    MarkInactiveNeverMarks(states[j].t, now);
  }

  // ---------- a run that blocks ----------

  /** Two sources, a request for each, and then the second source is paused. */
  function BlockingSteps(base: UrlText): seq<Step> {
    [CreateSource(1, base), CreateSource(2, base), Enqueue(7, 2), Enqueue(8, 1), SetStatus(2, Paused)]
  }

  function Waiting(source: nat): Request {
    Request(source, Pending, 0, None, None, None, None)
  }

  function BlockingState(base: UrlText, n: nat): State {
    var one := Source(base, Approved);
    var two := if n < 5 then one else Source(base, Paused);
    var sources := if n == 0 then map[] else if n == 1 then map[1 := one] else map[1 := one, 2 := two];
    var requests := if n < 3 then map[] else if n == 3 then map[7 := Waiting(2)] else map[7 := Waiting(2), 8 := Waiting(1)];
    State(Tables(sources, map[], map[], requests), 0, map[], map[], [])
  }

  lemma BlockingStep(base: UrlText, n: nat)
    requires n < 5
    ensures Enabled(BlockingState(base, n), BlockingSteps(base)[n])
    ensures Next(BlockingState(base, n), BlockingSteps(base)[n]) == BlockingState(base, n + 1)
  {
    if n == 0 { } else if n == 1 { } else if n == 2 { } else if n == 3 { } else { }
  }

  /** A run after which one paused source's request makes the statement fail while another request could be claimed. */
  lemma StrandedRequestBlocksOthers(base: UrlText, now: nat) returns (states: seq<State>, steps: seq<Step>)
    ensures IsRun(states, steps) && steps == BlockingSteps(base)
    ensures var t := states[5].t; Claimable(t, 8) && Stranded(t, 7) && MarkInactive(t, now) == Err(CheckViolation)
  {
    steps := BlockingSteps(base);
    states := seq(6, n requires 0 <= n => BlockingState(base, n));
    forall n: nat | n < 5 ensures Enabled(states[n], steps[n]) && states[n + 1] == Next(states[n], steps[n]) {
      BlockingStep(base, n);
    }
    PendingIsUnstarted(states, steps, 5);
    assert Stranded(states[5].t, 7);
    MarkInactiveNeverMarks(states[5].t, now);
  }
}
