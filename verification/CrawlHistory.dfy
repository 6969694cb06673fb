/**
 What the log of committed transactions says about one job: why it is closed,
 which location it shows, and when the clocks make the SQL follow
 `ReconcileJob` to the letter. The log is the one `CrawlProtocol` keeps;
 `CrawlInvariant` proves that `job_cache` is its replay.
 */
module CrawlHistory {
  import opened Wrappers
  import opened Reconcile
  import opened Scope
  import opened CrawlTables
  import opened CrawlProtocol
  import opened CrawlInvariant

  // ---------- why a job is closed ----------

  ghost predicate Sights(e: Event, k: JobKey) {
    e.Crawled? && e.source == k.source && LastFor(e.batch, k.key).Some?
  }

  /** The run neither observed the job nor started before it was last observed. */
  ghost predicate Misses(e: Event, k: JobKey, lastSeen: nat) {
    e.Crawled? && e.source == k.source && LastFor(e.batch, k.key).None? && lastSeen < e.startedAt
  }

  ghost predicate DeclaredClosed(e: Event, k: JobKey)
    requires Sights(e, k)
  {
    LastFor(e.batch, k.key).value.declaredClosed
  }

  ghost predicate MissedAfter(log: seq<Event>, k: JobKey, lastSeen: nat, i: int, a: int) {
    i < a < |log| && 0 <= a && Misses(log[a], k, lastSeen)
  }

  ghost predicate MissedTwice(log: seq<Event>, k: JobKey, lastSeen: nat, i: int) {
    exists a, b :: a < b && MissedAfter(log, k, lastSeen, i, a) && MissedAfter(log, k, lastSeen, i, b)
  }

  ghost predicate RebasedAfter(log: seq<Event>, source: nat, i: int) {
    exists j :: i < j < |log| && 0 <= j && log[j] == Rebased(source)
  }

  /** The i-th event is the last sighting, and it and what follows account for the job's state. */
  ghost predicate Explains(log: seq<Event>, k: JobKey, i: nat, job: Job)
  {
    && i < |log| && Sights(log[i], k)
    && (forall j :: i < j < |log| ==> !Sights(log[j], k))
    && job.lastSeen == log[i].now
    && (job.state == JobState(Active, 0)
        || (job.state == JobState(Verifying, 1) && exists a :: MissedAfter(log, k, job.lastSeen, i, a))
        || (job.state == JobState(Closed, 2)
            && (DeclaredClosed(log[i], k) || RebasedAfter(log, k.source, i) || MissedTwice(log, k, job.lastSeen, i))))
  }

  ghost predicate Timed(log: seq<Event>) {
    forall i :: 0 <= i < |log| && log[i].Crawled? ==> log[i].startedAt <= log[i].now
  }

  lemma SightingExplains(log: seq<Event>, e: Event, k: JobKey, row: Option<Job>)
    requires Sights(e, k) && e.startedAt <= e.now
    ensures var after := Apply(row, e, k); after.Some? && Explains(log + [e], k, |log|, after.value)
  {
    LastObservationWins(row, k.key, e.batch, e.now);
    assert (log + [e])[|log|] == e;
  }

  lemma OlderMissStays(log: seq<Event>, e: Event, k: JobKey, lastSeen: nat, i: nat)
    ensures (exists a :: MissedAfter(log, k, lastSeen, i, a)) ==> exists a :: MissedAfter(log + [e], k, lastSeen, i, a)
    ensures MissedTwice(log, k, lastSeen, i) ==> MissedTwice(log + [e], k, lastSeen, i)
    ensures RebasedAfter(log, k.source, i) ==> RebasedAfter(log + [e], k.source, i)
  {
    if exists a :: MissedAfter(log, k, lastSeen, i, a) {
      var a :| MissedAfter(log, k, lastSeen, i, a);
      assert MissedAfter(log + [e], k, lastSeen, i, a);
    }
    if MissedTwice(log, k, lastSeen, i) {
      var a, b :| a < b && MissedAfter(log, k, lastSeen, i, a) && MissedAfter(log, k, lastSeen, i, b);
      assert MissedAfter(log + [e], k, lastSeen, i, a) && MissedAfter(log + [e], k, lastSeen, i, b);
    }
    if RebasedAfter(log, k.source, i) {
      var j :| i < j < |log| && 0 <= j && log[j] == Rebased(k.source);
      assert (log + [e])[j] == Rebased(k.source);
    }
  }

  lemma MissExplains(log: seq<Event>, e: Event, k: JobKey, i: nat, job: Job)
    requires Explains(log, k, i, job) && Misses(e, k, job.lastSeen) && Listed(job.state.status)
    ensures Explains(log + [e], k, i, Aged(job))
  {
    var l := log + [e];
    assert l[|log|] == e && forall j :: 0 <= j < |log| ==> l[j] == log[j];
    assert MissedAfter(l, k, job.lastSeen, i, |log|);
    if job.state == JobState(Verifying, 1) {
      var a :| MissedAfter(log, k, job.lastSeen, i, a);
      assert MissedAfter(l, k, job.lastSeen, i, a);
      assert MissedTwice(l, k, job.lastSeen, i);
    }
  }

  lemma RebaseExplains(log: seq<Event>, k: JobKey, i: nat, job: Job)
    requires Explains(log, k, i, job)
    ensures Explains(log + [Rebased(k.source)], k, i, ClosedJob(job))
  {
    var l := log + [Rebased(k.source)];
    assert l[|log|] == Rebased(k.source) && forall j :: 0 <= j < |log| ==> l[j] == log[j];
    OlderMissStays(log, Rebased(k.source), k, job.lastSeen, i);
    assert RebasedAfter(l, k.source, i);
  }

  lemma NeutralExplains(log: seq<Event>, e: Event, k: JobKey, i: nat, job: Job, after: Job)
    requires Explains(log, k, i, job) && !Sights(e, k)
    requires after.state == job.state && after.lastSeen == job.lastSeen
    ensures Explains(log + [e], k, i, after)
  {
    var l := log + [e];
    assert l[|log|] == e && forall j :: 0 <= j < |log| ==> l[j] == log[j];
    OlderMissStays(log, e, k, job.lastSeen, i);
  }

  /** Every replayed row has its explanation in the log. */
  lemma {:induction false} ReplayIsExplained(log: seq<Event>, k: JobKey) returns (i: nat)
    requires Timed(log)
    ensures Replay(log, k).Some? ==> Explains(log, k, i, Replay(log, k).value)
  {
    i := 0;
    if log != [] {
      var front, e := log[..|log| - 1], log[|log| - 1];
      assert log == front + [e];
      var row := Replay(front, k);
      i := ReplayIsExplained(front, k);
      if Sights(e, k) {
        i := |front|;
        SightingExplains(front, e, k, row);
      } else if row.Some? {
        StepIsExplained(front, e, k, i, row.value);
      } else if e.Crawled? && e.source == k.source {
        LastObservationWins(row, k.key, e.batch, e.now);
      }
    }
  }

  lemma StepIsExplained(log: seq<Event>, e: Event, k: JobKey, i: nat, job: Job)
    requires Explains(log, k, i, job) && !Sights(e, k)
    ensures Apply(Some(job), e, k).Some? && Explains(log + [e], k, i, Apply(Some(job), e, k).value)
  {
    if e.Crawled? && e.source == k.source {
      LastObservationWins(Some(job), k.key, e.batch, e.now);
      if Missed(job, e.startedAt) {
        MissExplains(log, e, k, i, job);
      } else {
        NeutralExplains(log, e, k, i, job, job);
      }
    } else if e == Rebased(k.source) {
      RebaseExplains(log, k, i, job);
    } else {
      NeutralExplains(log, e, k, i, job, Apply(Some(job), e, k).value);
    }
  }

  /**
   On every run of the system: ACTIVE always comes with 0 missing cycles,
   VERIFYING with 1 and CLOSED with 2; and a job that is CLOSED although its
   last sighting did not declare it closed and no base-URL edit followed was
   missed by two distinct HEALTHY runs, finished, that both started after that sighting.
   */
  lemma ClosedJobHasCause(states: seq<State>, steps: seq<Step>, n: nat, k: JobKey)
    requires IsRun(states, steps) && n < |states| && k in states[n].t.jobs
    ensures var s, job := states[n], states[n].t.jobs[k];
            && job.state in {JobState(Active, 0), JobState(Verifying, 1), JobState(Closed, 2)}
            && (job.state.status == Closed ==>
                  exists i :: 0 <= i < |s.log| && Sights(s.log[i], k) && job.lastSeen == s.log[i].now
                    && (DeclaredClosed(s.log[i], k) || RebasedAfter(s.log, k.source, i) || ClosedByTwoRuns(s, k, i)))
  {
    EveryStateKeepsInv(states, steps, n);
    var s, job := states[n], states[n].t.jobs[k];
    assert Row(s.t.jobs, k) == Replay(s.log, k);
    var i := ReplayIsExplained(s.log, k);
    if job.state.status == Closed && MissedTwice(s.log, k, job.lastSeen, i) {
      var a, b :| a < b && MissedAfter(s.log, k, job.lastSeen, i, a) && MissedAfter(s.log, k, job.lastSeen, i, b);
      MissIsHealthyRun(s, k, a, job.lastSeen);
      MissIsHealthyRun(s, k, b, job.lastSeen);
      assert s.log[a].run != s.log[b].run;
      assert MissedByRun(s, k, s.log[a].run, job.lastSeen) && MissedByRun(s, k, s.log[b].run, job.lastSeen);
      assert ClosedByTwoRuns(s, k, i);
    }
  }

  /** A finished HEALTHY run of the job's source that started after `lastSeen`. */
  ghost predicate MissedByRun(s: State, k: JobKey, run: nat, lastSeen: nat) {
    && run in s.t.runs
    && s.t.runs[run].status == Healthy && s.t.runs[run].finishedAt.Some?
    && lastSeen < s.t.runs[run].startedAt
    && exists j :: 0 <= j < |s.log| && s.log[j].Crawled? && s.log[j].run == run && s.log[j].source == k.source
                   && LastFor(s.log[j].batch, k.key).None?
  }

  ghost predicate ClosedByTwoRuns(s: State, k: JobKey, i: nat)
    requires i < |s.log| && s.log[i].Crawled?
  {
    exists first, second :: first != second
      && MissedByRun(s, k, first, s.log[i].now) && MissedByRun(s, k, second, s.log[i].now)
  }

  lemma MissIsHealthyRun(s: State, k: JobKey, a: int, lastSeen: nat)
    requires Inv(s) && 0 <= a < |s.log| && Misses(s.log[a], k, lastSeen)
    ensures MissedByRun(s, k, s.log[a].run, lastSeen)
  {
    assert HasCrawled(s.log, s.log[a].run);
  }

  // ---------- which location a job shows ----------

  /** What happened to a job's location, in order: a sighting with what it resolved to, or an admin's choice. */
  datatype Touch = Sighted(resolved: Option<nat>) | Placed(chosen: Option<nat>)

  function BatchTouches(batch: seq<Observation>, key: string): seq<Touch> {
    if batch == [] then []
    else
      var o := batch[|batch| - 1];
      BatchTouches(batch[..|batch| - 1], key) + (if o.key == key then [Sighted(o.location)] else [])
  }

  function Touches(log: seq<Event>, k: JobKey): seq<Touch> {
    if log == [] then []
    else
      var front := log[..|log| - 1];
      Touches(front, k) +
      match log[|log| - 1]
      case Crawled(_, source, batch, _, _) => if source == k.source then BatchTouches(batch, k.key) else []
      case Assigned(job, location) => if job == k && Replay(front, k).Some? then [Placed(location)] else []
      case Rebased(_) => []
  }

  ghost predicate LastPlacedAt(touches: seq<Touch>, p: int) {
    && -1 <= p < |touches|
    && (p >= 0 ==> touches[p].Placed?)
    && forall q :: p < q < |touches| ==> touches[q].Sighted?
  }

  ghost predicate ResolvedLastAt(touches: seq<Touch>, from: int, r: int) {
    && from < r < |touches| && 0 <= r && touches[r].Sighted? && touches[r].resolved.Some?
    && forall q :: r < q < |touches| ==> touches[q].Sighted? && touches[q].resolved.None?
  }

  /**
   The ownership rule. If the last admin choice named a location, the job is
   ADMIN and shows it. Otherwise it is AUTO and shows the last location that was
   resolved since that choice cleared it, or since the job first appeared.
   */
  ghost predicate FollowsOwnershipRule(touches: seq<Touch>, location: Option<nat>, owner: Owner) {
    exists p :: LastPlacedAt(touches, p) &&
      if p >= 0 && touches[p].chosen.Some? then owner == Admin && location == touches[p].chosen
      else
        && owner == Auto
        && (location.Some? ==> exists r :: ResolvedLastAt(touches, p, r) && touches[r].resolved == location)
        && (location.None? ==> forall q :: p < q < |touches| ==> touches[q] == Sighted(None))
  }

  lemma SightingFollows(touches: seq<Touch>, row: Option<Job>, o: Observation, now: nat)
    requires row.None? ==> touches == []
    requires row.Some? ==> FollowsOwnershipRule(touches, row.value.location, row.value.owner)
    ensures var after := Upserted(row, o, now);
            FollowsOwnershipRule(touches + [Sighted(o.location)], after.location, after.owner)
  {
    var after, t := Upserted(row, o, now), touches + [Sighted(o.location)];
    var n := |touches|;
    assert t[n] == Sighted(o.location) && forall q :: 0 <= q < n ==> t[q] == touches[q];
    if row.None? {
      assert LastPlacedAt(t, -1);
      if o.location.Some? { assert ResolvedLastAt(t, -1, 0); }
    } else {
      var p :| LastPlacedAt(touches, p) &&
        if p >= 0 && touches[p].chosen.Some? then row.value.owner == Admin && row.value.location == touches[p].chosen
        else
          && row.value.owner == Auto
          && (row.value.location.Some? ==> exists r :: ResolvedLastAt(touches, p, r) && touches[r].resolved == row.value.location)
          && (row.value.location.None? ==> forall q :: p < q < |touches| ==> touches[q] == Sighted(None));
      assert LastPlacedAt(t, p);
      if !(p >= 0 && touches[p].chosen.Some?) {
        if o.location.Some? {
          assert ResolvedLastAt(t, p, n);
        } else if row.value.location.Some? {
          var r :| ResolvedLastAt(touches, p, r) && touches[r].resolved == row.value.location;
          assert ResolvedLastAt(t, p, r);
        }
      }
    }
  }

  lemma PlacingFollows(touches: seq<Touch>, job: Job, chosen: Option<nat>)
    ensures var after := AssignedJob(job, chosen);
            FollowsOwnershipRule(touches + [Placed(chosen)], after.location, after.owner)
  {
    assert LastPlacedAt(touches + [Placed(chosen)], |touches|);
  }

  lemma {:induction false} BatchFollows(touches: seq<Touch>, row: Option<Job>, batch: seq<Observation>, key: string, now: nat)
    requires row.None? ==> touches == []
    requires row.Some? ==> FollowsOwnershipRule(touches, row.value.location, row.value.owner)
    ensures var after, t := Touched(row, key, batch, now), touches + BatchTouches(batch, key);
            && (after.None? ==> t == [])
            && (after.Some? ==> FollowsOwnershipRule(t, after.value.location, after.value.owner))
  {
    var t := touches + BatchTouches(batch, key);
    if batch == [] {
      assert t == touches;
    } else {
      var front, o := batch[..|batch| - 1], batch[|batch| - 1];
      BatchFollows(touches, row, front, key, now);
      if o.key == key {
        SightingFollows(touches + BatchTouches(front, key), Touched(row, key, front, now), o, now);
        assert t == touches + BatchTouches(front, key) + [Sighted(o.location)];
      } else {
        assert t == touches + BatchTouches(front, key);
      }
    }
  }

  lemma {:induction false} ReplayFollowsOwnershipRule(log: seq<Event>, k: JobKey)
    ensures Replay(log, k).None? ==> Touches(log, k) == []
    ensures Replay(log, k).Some? ==>
              FollowsOwnershipRule(Touches(log, k), Replay(log, k).value.location, Replay(log, k).value.owner)
  {
    if log != [] {
      var front, e := log[..|log| - 1], log[|log| - 1];
      ReplayFollowsOwnershipRule(front, k);
      match e
      case Crawled(_, source, batch, now, _) =>
        if source == k.source {
          BatchFollows(Touches(front, k), Replay(front, k), batch, k.key, now);
        } else {
          assert Touches(front, k) + [] == Touches(front, k);
        }
      case Assigned(job, location) =>
        if job == k && Replay(front, k).Some? {
          PlacingFollows(Touches(front, k), Replay(front, k).value, location);
        } else {
          assert Touches(front, k) + [] == Touches(front, k);
        }
      case Rebased(_) => assert Touches(front, k) + [] == Touches(front, k);
    }
  }

  /** Over every history of crawls, aging, edits and assignments, each row obeys the ownership rule. */
  lemma LocationsFollowOwnershipRule(states: seq<State>, steps: seq<Step>, n: nat, k: JobKey)
    requires IsRun(states, steps) && n < |states| && k in states[n].t.jobs
    ensures FollowsOwnershipRule(Touches(states[n].log, k), states[n].t.jobs[k].location, states[n].t.jobs[k].owner)
  {
    EveryStateKeepsInv(states, steps, n);
    assert Row(states[n].t.jobs, k) == Replay(states[n].log, k);
    ReplayFollowsOwnershipRule(states[n].log, k);
  }

  // ---------- one worker and an advancing clock ----------

  /** The lifecycle without clocks: `ReconcileJob` applied to each healthy run, and the closing of a base-URL edit. */
  function Lifecycle(log: seq<Event>, k: JobKey): Option<JobState> {
    if log == [] then None
    else
      var before := Lifecycle(log[..|log| - 1], k);
      match log[|log| - 1]
      case Crawled(_, source, batch, _, _) =>
        if source != k.source then before
        else
          var last := LastFor(batch, k.key);
          if last.Some? then
            Some(ReconcileJob(if before.Some? then before.value else JobState(Active, 0), Healthy, true, last.value.declaredClosed))
          else if before.Some? then Some(ReconcileJob(before.value, Healthy, false, false))
          else None
      case Rebased(source) =>
        if source == k.source && before.Some? && Listed(before.value.status) then Some(JobState(Closed, 2)) else before
      case Assigned(_, _) => before
  }

  /** Each healthy run of a source started after the previous one's transaction. */
  ghost predicate RunsInTurn(log: seq<Event>) {
    forall i, j :: 0 <= i < j < |log| && log[i].Crawled? && log[j].Crawled? && log[i].source == log[j].source
      ==> log[i].now < log[j].startedAt
  }

  lemma {:induction false} ReplayIsLifecycle(log: seq<Event>, k: JobKey)
    requires Timed(log) && RunsInTurn(log)
    ensures Lifecycle(log, k) == if Replay(log, k).Some? then Some(Replay(log, k).value.state) else None
  {
    if log != [] {
      var front, e := log[..|log| - 1], log[|log| - 1];
      ReplayIsLifecycle(front, k);
      var row := Replay(front, k);
      if e.Crawled? && e.source == k.source {
        CommitRefinesReconcileJob(row, k.key, e.batch, e.now, e.startedAt);
        if row.Some? {
          var i := ReplayIsExplained(front, k);
          assert log[i] == front[i] && log[|log| - 1] == e;
          assert row.value.lastSeen < e.startedAt;
        }
      }
    }
  }

  /** One worker: a run begins only when every earlier call has returned and the clock has passed every transaction. */
  ghost predicate BeginsAlone(s: State, step: Step) {
    step.Begin? ==>
      && (forall run :: run in s.workers ==> s.workers[run].pc.Returned?)
      && (forall run :: run in s.open ==> s.open[run].now < s.clock)
      && (forall i :: 0 <= i < |s.log| && s.log[i].Crawled? ==> s.log[i].now < s.clock)
  }

  ghost predicate OneWorkerAtATime(states: seq<State>, steps: seq<Step>) {
    IsRun(states, steps) && forall i :: 0 <= i < |steps| ==> BeginsAlone(states[i], steps[i])
  }

  ghost predicate BeforeTransaction(pc: Pc) {
    pc.Attaching? || pc.Crawling? || pc.Persisting?
  }

  ghost predicate LoggedBeforeOpen(s: State) {
    forall run, i :: run in s.open && 0 <= i < |s.log| && s.log[i].Crawled? && s.log[i].source == s.open[run].source
      ==> s.log[i].now < s.open[run].startedAt
  }

  ghost predicate LoggedBeforeWorkers(s: State) {
    forall run, i :: run in s.workers && BeforeTransaction(s.workers[run].pc) && 0 <= i < |s.log| && s.log[i].Crawled?
      ==> s.log[i].now < s.workers[run].startedAt
  }

  ghost predicate OpenBeforeWorkers(s: State) {
    forall run, other :: run in s.workers && BeforeTransaction(s.workers[run].pc) && other in s.open
      ==> s.open[other].now < s.workers[run].startedAt
  }

  ghost predicate OneActiveWorker(s: State) {
    forall a, b :: a in s.workers && b in s.workers && !s.workers[a].pc.Returned? && !s.workers[b].pc.Returned? ==> a == b
  }

  ghost predicate InTurn(s: State) {
    && RunsInTurn(s.log)
    && LoggedBeforeOpen(s)
    && LoggedBeforeWorkers(s)
    && OpenBeforeWorkers(s)
    && OneActiveWorker(s)
  }

  /** A commit: the transaction leaves `open` and its event joins the log. */
  ghost predicate Lands(s: State, s': State, run: nat) {
    && run in s.open
    && s'.open == s.open - {run} && s'.workers == s.workers
    && |s'.log| == |s.log| + 1 && s'.log[..|s.log|] == s.log
    && var e, x := s'.log[|s.log|], s.open[run];
       e.Crawled? && e.source == x.source && e.now == x.now && e.startedAt == x.startedAt
  }

  lemma LandingKeepsRunsInTurn(s: State, s': State, run: nat)
    requires Lands(s, s', run) && RunsInTurn(s.log) && LoggedBeforeOpen(s)
    ensures RunsInTurn(s'.log)
  {
    assert forall i :: 0 <= i < |s.log| ==> s'.log[i] == s.log[i];
  }

  lemma LandingKeepsLoggedBeforeOpen(s: State, s': State, run: nat)
    requires Lands(s, s', run) && LoggedBeforeOpen(s)
    requires forall other :: other in s.open && other != run ==> s.open[other].source != s.open[run].source
    ensures LoggedBeforeOpen(s')
  {
    assert forall i :: 0 <= i < |s.log| ==> s'.log[i] == s.log[i];
  }

  lemma LandingKeepsLoggedBeforeWorkers(s: State, s': State, run: nat)
    requires Lands(s, s', run) && LoggedBeforeWorkers(s) && OpenBeforeWorkers(s)
    ensures LoggedBeforeWorkers(s')
  {
    assert forall i :: 0 <= i < |s.log| ==> s'.log[i] == s.log[i];
  }

  lemma PublishLands(s: State, run: nat)
    requires run in s.open
    ensures Lands(s, Publish(s, run), run)
  {
  }

  lemma PublishKeepsTurns(s: State, run: nat)
    requires OpenTxsValid(s) && InTurn(s) && run in s.open
    ensures InTurn(Publish(s, run))
  {
    var s' := Publish(s, run);
    PublishLands(s, run);
    LandingKeepsRunsInTurn(s, s', run);
    LandingKeepsLoggedBeforeOpen(s, s', run);
    LandingKeepsLoggedBeforeWorkers(s, s', run);
  }

  lemma MoveKeepsTurns(s: State, s': State, run: nat)
    requires InTurn(s) && run in s.workers && run in s'.workers
    requires s'.log == s.log && s'.open == s.open
    requires s'.workers == s.workers[run := s.workers[run].(pc := s'.workers[run].pc)]
    requires BeforeTransaction(s'.workers[run].pc) ==> BeforeTransaction(s.workers[run].pc)
    requires !s'.workers[run].pc.Returned? ==> !s.workers[run].pc.Returned?
    ensures InTurn(s')
  {
  }

  lemma AppendKeepsTurns(s: State, s': State, e: Event)
    requires InTurn(s) && !e.Crawled?
    requires s'.log == s.log + [e] && s'.open == s.open && s'.workers == s.workers
    ensures InTurn(s')
  {
    assert s'.log[|s.log|] == e;
    assert forall i :: 0 <= i < |s.log| ==> s'.log[i] == s.log[i];
  }

  /** An open transaction is dropped: rolled back. */
  lemma DropKeepsTurns(s: State, run: nat)
    requires InTurn(s)
    ensures InTurn(s.(open := s.open - {run}))
  {
  }

  lemma DropEndKeepsTurns(s: State, step: Step)
    requires InTurn(s) && Enabled(s, step) && Ends(step) && LeavesJobs(step)
    ensures InTurn(Next(s, step))
  {
    EndingFrame(s, step);
    DropKeepsTurns(s, step.run);
    MoveKeepsTurns(s.(open := s.open - {step.run}), Next(s, step), step.run);
  }

  lemma EndKeepsTurns(s: State, step: Step)
    requires OpenTxsValid(s) && InTurn(s) && Enabled(s, step) && Ends(step)
    ensures InTurn(Next(s, step))
  {
    if LeavesJobs(step) {
      DropEndKeepsTurns(s, step);
    } else {
      EndingFrame(s, step);
      PublishKeepsTurns(s, step.run);
      MoveKeepsTurns(Publish(s, step.run), Next(s, step), step.run);
    }
  }

  /** The only worker still busy opens its transaction. */
  ghost predicate Opens(s: State, s': State, run: nat) {
    && run in s.workers && BeforeTransaction(s.workers[run].pc)
    && run in s'.workers && s'.workers[run].pc.Committing?
    && s'.workers == s.workers[run := s'.workers[run]]
    && s'.log == s.log
    && run in s'.open && s'.open == s.open[run := s'.open[run]]
    && s'.open[run].startedAt == s.workers[run].startedAt
  }

  lemma OpeningKeepsTurns(s: State, s': State, run: nat)
    requires Opens(s, s', run) && InTurn(s)
    ensures InTurn(s')
  {
    assert !s.workers[run].pc.Returned?;
    assert forall other :: other in s'.workers ==> !BeforeTransaction(s'.workers[other].pc);
  }

  lemma OpenKeepsTurns(s: State, step: Step)
    requires InTurn(s) && Enabled(s, step) && step.OpenTransaction?
    ensures InTurn(Next(s, step))
  {
    assert Opens(s, Next(s, step), step.run);
    OpeningKeepsTurns(s, Next(s, step), step.run);
  }

  lemma MovingKeepsTurns(s: State, step: Step)
    requires InTurn(s) && Enabled(s, step) && Moves(step)
    ensures InTurn(Next(s, step))
  {
    MoveFrame(s, step);
    MoveKeepsTurns(s, Next(s, step), step.run);
  }

  lemma ReportKeepsTurns(s: State, step: Step)
    requires InTurn(s) && Enabled(s, step) && Reports(step)
    ensures InTurn(Next(s, step))
  {
    StepFrame(s, step);
    MoveKeepsTurns(s, Next(s, step), step.run);
  }

  lemma CompareKeepsTurns(s: State, step: Step)
    requires InTurn(s) && Enabled(s, step) && Compares(step)
    ensures InTurn(Next(s, step))
  {
    ComparingStep(s, step);
    MoveKeepsTurns(s, Next(s, step), step.run);
  }

  lemma AdminKeepsTurns(s: State, step: Step)
    requires InTurn(s) && Enabled(s, step) && (step.EditBaseUrl? || step.AssignLocation?)
    ensures InTurn(Next(s, step))
  {
    if step.AssignLocation? {
      AppendKeepsTurns(s, Next(s, step), Assigned(step.job, step.location));
    } else if s.t.sources[step.source].baseUrl != step.base {
      AppendKeepsTurns(s, Next(s, step), Rebased(step.source));
    }
  }

  lemma QuietKeepsTurns(s: State, step: Step)
    requires InTurn(s) && Enabled(s, step) && !step.EditBaseUrl? && !step.AssignLocation?
    requires StepWorker(step).None? || step.FailRequest?
    ensures InTurn(Next(s, step))
  {
    QuietStep(s, step);
  }

  lemma StepKeepsTurns(s: State, step: Step)
    requires Inv(s) && InTurn(s) && Enabled(s, step) && BeginsAlone(s, step)
    ensures InTurn(Next(s, step))
  {
    if Compares(step) {
      CompareKeepsTurns(s, step);
    } else if Ends(step) {
      EndKeepsTurns(s, step);
    } else if step.OpenTransaction? {
      OpenKeepsTurns(s, step);
    } else if step.EditBaseUrl? || step.AssignLocation? {
      AdminKeepsTurns(s, step);
    } else if step.Begin? {
      BeginKeepsTurns(s, step);
    } else if Moves(step) {
      MovingKeepsTurns(s, step);
    } else if Reports(step) {
      ReportKeepsTurns(s, step);
    } else {
      QuietKeepsTurns(s, step);
    }
  }

  lemma BeginKeepsTurns(s: State, step: Step)
    requires InTurn(s) && Enabled(s, step) && BeginsAlone(s, step) && step.Begin?
    ensures InTurn(Next(s, step))
  {
  }

  lemma QuietStep(s: State, step: Step)
    requires Enabled(s, step) && !step.EditBaseUrl? && !step.AssignLocation?
    requires StepWorker(step).None? || step.FailRequest?
    ensures var s' := Next(s, step); s'.log == s.log && s'.open == s.open && s'.workers == s.workers
  {
  }

  lemma {:induction false} EveryStateInTurn(states: seq<State>, steps: seq<Step>, n: nat)
    requires OneWorkerAtATime(states, steps) && n < |states|
    ensures InTurn(states[n])
  {
    if n > 0 {
      EveryStateInTurn(states, steps, n - 1);
      EveryStateKeepsInv(states, steps, n - 1);
      StepKeepsTurns(states[n - 1], steps[n - 1]);
    }
  }

  /** With one worker and a clock that advances between its transactions, every job follows `ReconcileJob` exactly. */
  lemma OneWorkerFollowsReconcileJob(states: seq<State>, steps: seq<Step>, n: nat, k: JobKey)
    requires OneWorkerAtATime(states, steps) && n < |states|
    ensures Lifecycle(states[n].log, k)
         == if k in states[n].t.jobs then Some(states[n].t.jobs[k].state) else None
  {
    EveryStateInTurn(states, steps, n);
    EveryStateKeepsInv(states, steps, n);
    assert Row(states[n].t.jobs, k) == Replay(states[n].log, k);
    ReplayIsLifecycle(states[n].log, k);
  }
}
