/**
 The invariant of `CrawlProtocol`: every step keeps it, and what that means for
 whole runs.
 */
module CrawlInvariant {
  import opened Wrappers
  import opened Reconcile
  import opened Scope
  import opened CrawlTables
  import opened CrawlProtocol
  import opened CrawlTransactions

  lemma PublishRow(s: State, run: nat, k: JobKey)
    requires run in s.open && OpenTxValid(s, run)
    ensures Row(Publish(s, run).t.jobs, k) == Apply(Row(s.t.jobs, k), Publish(s, run).log[|s.log|], k)
  {
  }

  lemma ReplayExtends(log: seq<Event>, e: Event, k: JobKey)
    ensures Replay(log + [e], k) == Apply(Replay(log, k), e, k)
  {
    assert (log + [e])[..|log|] == log;
  }

  lemma PublishKeepsReplay(s: State, run: nat)
    requires Inv(s) && run in s.open
    ensures JobsAreReplay(Publish(s, run))
  {
    var s' := Publish(s, run);
    forall k: JobKey ensures Row(s'.t.jobs, k) == Replay(s'.log, k) {
      PublishRow(s, run, k);
      ReplayExtends(s.log, s'.log[|s.log|], k);
    }
  }

  lemma EditKeepsReplay(s: State, source: nat, base: UrlText)
    requires JobsAreReplay(s) && Enabled(s, EditBaseUrl(source, base))
    ensures JobsAreReplay(Next(s, EditBaseUrl(source, base)))
  {
    forall k: JobKey ensures Row(Next(s, EditBaseUrl(source, base)).t.jobs, k) == Replay(Next(s, EditBaseUrl(source, base)).log, k) {
      ReplayExtends(s.log, Rebased(source), k);
    }
  }

  lemma AssignKeepsReplay(s: State, job: JobKey, location: Option<nat>)
    requires JobsAreReplay(s) && Enabled(s, AssignLocation(job, location))
    ensures JobsAreReplay(Next(s, AssignLocation(job, location)))
  {
    forall k: JobKey ensures Row(Next(s, AssignLocation(job, location)).t.jobs, k) == Replay(Next(s, AssignLocation(job, location)).log, k) {
      ReplayExtends(s.log, Assigned(job, location), k);
    }
  }

  lemma OtherAdminsKeepReplay(s: State, step: Step)
    requires JobsAreReplay(s) && Enabled(s, step) && (step.CreateSource? || step.SetStatus?)
    ensures JobsAreReplay(Next(s, step))
  {
    assert Next(s, step).t.jobs == s.t.jobs && Next(s, step).log == s.log;
  }

  lemma EndingKeepsReplay(s: State, step: Step)
    requires Inv(s) && Enabled(s, step) && Ends(step)
    ensures JobsAreReplay(Next(s, step))
  {
    EndingFrame(s, step);
    PublishKeepsReplay(s, step.run);
  }

  lemma KeepsReplay(s: State, step: Step)
    requires Inv(s) && Enabled(s, step)
    ensures JobsAreReplay(Next(s, step))
  {
    if step.EditBaseUrl? {
      EditKeepsReplay(s, step.source, step.base);
    } else if step.AssignLocation? {
      AssignKeepsReplay(s, step.job, step.location);
    } else if step.CreateSource? || step.SetStatus? {
      OtherAdminsKeepReplay(s, step);
    } else if Ends(step) {
      EndingKeepsReplay(s, step);
    } else {
      StepFrame(s, step);
    }
  }

  lemma PublishKeepsScope(s: State, run: nat)
    requires Inv(s) && run in s.open
    ensures ListedJobsInScope(Publish(s, run))
  {
    var s' := Publish(s, run);
    var x := s.open[run];
    assert OpenTxValid(s, run);
    forall k | k in s'.t.jobs && Listed(s'.t.jobs[k].state.status)
      ensures k.source in s'.t.sources && InScope(s'.t.sources[k.source].baseUrl, s'.t.jobs[k].url)
    {
      if k in x.writes {
        LastObservationWins(Row(s.t.jobs, k), k.key, x.batch, x.now);
        assert Some(x.writes[k]) == RowAfterCommit(Row(s.t.jobs, k), k.key, x.batch, x.now, x.startedAt);
        var last := LastFor(x.batch, k.key);
        if last.Some? {
          assert Problem(NewScope(x.base).value, last.value).None?;
        }
      }
    }
  }

  /** An edit that moves the boundary closes every job of its source. */
  lemma EditKeepsScope(s: State, source: nat, base: UrlText)
    requires ListedJobsInScope(s) && Enabled(s, EditBaseUrl(source, base))
    ensures ListedJobsInScope(Next(s, EditBaseUrl(source, base)))
  {
  }

  lemma AdminKeepsScope(s: State, step: Step)
    requires ListedJobsInScope(s) && Enabled(s, step) && ByAdmin(step)
    ensures ListedJobsInScope(Next(s, step))
  {
    if step.EditBaseUrl? {
      EditKeepsScope(s, step.source, step.base);
    }
  }

  lemma EndingKeepsScope(s: State, step: Step)
    requires Inv(s) && Enabled(s, step) && Ends(step)
    ensures ListedJobsInScope(Next(s, step))
  {
    EndingFrame(s, step);
    PublishKeepsScope(s, step.run);
  }

  lemma KeepsScope(s: State, step: Step)
    requires Inv(s) && Enabled(s, step)
    ensures ListedJobsInScope(Next(s, step))
  {
    if ByAdmin(step) {
      AdminKeepsScope(s, step);
    } else if Ends(step) {
      EndingKeepsScope(s, step);
    } else {
      StepFrame(s, step);
    }
  }

  lemma PublishKeepsHealthy(s: State, run: nat)
    requires Inv(s) && run in s.open
    ensures HealthyMeansCommitted(Publish(s, run))
  {
    var s' := Publish(s, run);
    assert OpenTxValid(s, run);
    assert !HasCrawled(s.log, run);
    var n := |s.log|;
    assert s'.log[n].Crawled? && s'.log[n].run == run;
    assert forall i :: 0 <= i < n ==> s'.log[i] == s.log[i];
    forall r | r in s'.t.runs
      ensures s'.t.runs[r].finishedAt.Some? && s'.t.runs[r].status == Healthy <==> HasCrawled(s'.log, r)
    {
      if r != run {
        if HasCrawled(s'.log, r) {
          var i :| 0 <= i < |s'.log| && s'.log[i].Crawled? && s'.log[i].run == r;
          assert s.log[i].Crawled? && s.log[i].run == r;
        }
        if HasCrawled(s.log, r) {
          var i :| 0 <= i < |s.log| && s.log[i].Crawled? && s.log[i].run == r;
          assert s'.log[i].Crawled? && s'.log[i].run == r;
        }
      }
    }
  }

  lemma AppendKeepsHealthy(s: State, s': State, e: Event)
    requires HealthyMeansCommitted(s) && !e.Crawled?
    requires s'.log == s.log + [e] && s'.t.runs == s.t.runs
    ensures HealthyMeansCommitted(s')
  {
    assert forall i :: 0 <= i < |s.log| ==> s'.log[i] == s.log[i];
    assert s'.log[|s.log|] == e;
    forall r ensures HasCrawled(s.log, r) <==> HasCrawled(s'.log, r) {
      if HasCrawled(s.log, r) {
        var i :| 0 <= i < |s.log| && s.log[i].Crawled? && s.log[i].run == r;
        assert s'.log[i].Crawled? && s'.log[i].run == r;
      }
    }
  }

  /** A run that ends by comparison ends as an ANOMALY or an error, and has not been crawled. */
  lemma UnhealthyEndKeepsHealthy(s: State, s': State, run: nat, row: Run)
    requires HealthyMeansCommitted(s) && Unfinished(s.t.runs, run)
    requires s'.log == s.log && s'.t.runs == s.t.runs[run := row] && row.status != Healthy && row.startedAt == s.t.runs[run].startedAt
    ensures HealthyMeansCommitted(s')
  {
  }

  lemma ComparingKeepsHealthy(s: State, step: Step)
    requires Inv(s) && Enabled(s, step) && Compares(step)
    ensures HealthyMeansCommitted(Next(s, step))
  {
    ComparingStep(s, step);
    assert WorkerKnows(s, step.run);
    if Next(s, step).t.runs != s.t.runs {
      UnhealthyEndKeepsHealthy(s, Next(s, step), step.run, Next(s, step).t.runs[step.run]);
    }
  }

  lemma BeginKeepsHealthy(s: State, step: Step)
    requires Inv(s) && Enabled(s, step) && step.Begin?
    ensures HealthyMeansCommitted(Next(s, step))
  {
    assert !HasCrawled(s.log, step.run);
  }

  lemma AdminKeepsHealthy(s: State, step: Step)
    requires HealthyMeansCommitted(s) && Enabled(s, step) && ByAdmin(step)
    ensures HealthyMeansCommitted(Next(s, step))
  {
    if step.EditBaseUrl? && s.t.sources[step.source].baseUrl != step.base {
      AppendKeepsHealthy(s, Next(s, step), Rebased(step.source));
    } else if step.AssignLocation? {
      AppendKeepsHealthy(s, Next(s, step), Assigned(step.job, step.location));
    }
  }

  lemma EndingKeepsHealthy(s: State, step: Step)
    requires Inv(s) && Enabled(s, step) && Ends(step)
    ensures HealthyMeansCommitted(Next(s, step))
  {
    EndingFrame(s, step);
    PublishKeepsHealthy(s, step.run);
  }

  lemma KeepsHealthy(s: State, step: Step)
    requires Inv(s) && Enabled(s, step)
    ensures HealthyMeansCommitted(Next(s, step))
  {
    if Compares(step) {
      ComparingKeepsHealthy(s, step);
    } else if step.Begin? {
      BeginKeepsHealthy(s, step);
    } else if ByAdmin(step) {
      AdminKeepsHealthy(s, step);
    } else if Ends(step) {
      EndingKeepsHealthy(s, step);
    } else {
      StepFrame(s, step);
    }
  }

  /** The row is still there, unchanged if it was finished. */
  predicate RunStays(s: State, s': State, run: nat)
    requires run in s.t.runs
  {
    && run in s'.t.runs && s'.t.runs[run].startedAt == s.t.runs[run].startedAt
    && (s.t.runs[run].finishedAt.Some? ==> s'.t.runs[run] == s.t.runs[run])
  }

  lemma ComparingKeepsRun(s: State, step: Step, run: nat)
    requires Enabled(s, step) && Compares(step) && run in s.t.runs
    ensures RunStays(s, Next(s, step), run)
  {
    ComparingStep(s, step);
  }

  lemma EndingKeepsRun(s: State, step: Step, run: nat)
    requires Inv(s) && Enabled(s, step) && Ends(step) && run in s.t.runs
    ensures RunStays(s, Next(s, step), run)
  {
    EndingFrame(s, step);
    assert OpenTxValid(s, step.run);
  }

  /** A finished run row never changes again, whatever the step. */
  lemma FinishedRunIsFrozen(s: State, step: Step, run: nat)
    requires Inv(s) && Enabled(s, step) && run in s.t.runs
    ensures RunStays(s, Next(s, step), run)
  {
    if Compares(step) {
      ComparingKeepsRun(s, step, run);
    } else if Ends(step) {
      EndingKeepsRun(s, step, run);
    } else if step.Begin? {
      BeginFrame(s, step);
    } else {
      StepFrame(s, step);
    }
  }

  /** A step by one worker, or by none: the others keep what they know as long as runs stay finished. */
  lemma OthersStillKnow(s: State, s': State, moved: Option<nat>)
    requires WorkersKnowTheirRun(s) && OthersStay(s, s', moved)
    requires forall r :: r in s.t.runs ==> RunStays(s, s', r)
    requires moved.Some? && moved.value in s'.workers ==> WorkerKnows(s', moved.value)
    ensures WorkersKnowTheirRun(s')
  {
    forall r | r in s'.workers ensures WorkerKnows(s', r) {
      if Some(r) != moved { assert WorkerKnows(s, r); }
    }
  }

  lemma ComparingStepKnows(s: State, step: Step)
    requires Inv(s) && Enabled(s, step) && Compares(step)
    ensures step.run in Next(s, step).workers && WorkerKnows(Next(s, step), step.run)
  {
    ComparingStep(s, step);
    assert WorkerKnows(s, step.run);
  }

  lemma EndingStepKnows(s: State, step: Step)
    requires Inv(s) && Enabled(s, step) && Ends(step)
    ensures step.run in Next(s, step).workers && WorkerKnows(Next(s, step), step.run)
  {
    assert OpenTxValid(s, step.run);
    assert WorkerKnows(s, step.run);
  }

  lemma OpenRunsHaveWorkers(s: State)
    requires Inv(s)
    ensures s.open.Keys <= s.workers.Keys
  {
    forall run | run in s.open ensures run in s.workers { assert OpenTxValid(s, run); }
  }

  lemma MovingStepKnows(s: State, step: Step)
    requires Inv(s) && Enabled(s, step) && Moves(step)
    ensures step.run in Next(s, step).workers && WorkerKnows(Next(s, step), step.run)
  {
    assert WorkerKnows(s, step.run);
  }

  lemma RequestStepKnows(s: State, step: Step)
    requires Inv(s) && Enabled(s, step) && (Reports(step) || step.FailRequest?)
    ensures step.run in Next(s, step).workers && WorkerKnows(Next(s, step), step.run)
  {
    assert WorkerKnows(s, step.run);
  }

  lemma OpeningStepKnows(s: State, step: Step)
    requires Inv(s) && Enabled(s, step) && step.OpenTransaction?
    ensures step.run in Next(s, step).workers && WorkerKnows(Next(s, step), step.run)
  {
    assert WorkerKnows(s, step.run);
  }

  lemma BeginStepKnows(s: State, step: Step)
    requires Inv(s) && Enabled(s, step) && step.Begin?
    ensures step.run in Next(s, step).workers && WorkerKnows(Next(s, step), step.run)
  {
    OpenRunsHaveWorkers(s);
  }

  lemma WorkerStepKnows(s: State, step: Step, run: nat)
    requires Inv(s) && Enabled(s, step) && StepWorker(step) == Some(run)
    ensures run in Next(s, step).workers && WorkerKnows(Next(s, step), run)
  {
    if Compares(step) {
      ComparingStepKnows(s, step);
    } else if Ends(step) {
      EndingStepKnows(s, step);
    } else if step.Begin? {
      BeginStepKnows(s, step);
    } else if step.OpenTransaction? {
      OpeningStepKnows(s, step);
    } else if Moves(step) {
      MovingStepKnows(s, step);
    } else {
      RequestStepKnows(s, step);
    }
  }

  lemma KeepsWorkers(s: State, step: Step)
    requires Inv(s) && Enabled(s, step)
    ensures WorkersKnowTheirRun(Next(s, step))
  {
    var s' := Next(s, step);
    forall r | r in s.t.runs ensures RunStays(s, s', r) {
      FinishedRunIsFrozen(s, step, r);
    }
    StepFrame(s, step);
    if StepWorker(step).Some? {
      WorkerStepKnows(s, step, StepWorker(step).value);
    }
    OthersStillKnow(s, s', StepWorker(step));
  }

  /** Only a worker's completion completes a request. */
  lemma QueueCompletesNothing(s: State, step: Step, q: nat)
    requires Enabled(s, step) && OnQueue(step) && q in Next(s, step).t.requests && Next(s, step).t.requests[q].status == Completed
    ensures q in s.t.requests && s.t.requests[q] == Next(s, step).t.requests[q]
  {
  }

  lemma AttachCompletesNothing(s: State, step: Step, q: nat)
    requires Enabled(s, step) && step.Attach? && q in Next(s, step).t.requests && Next(s, step).t.requests[q].status == Completed
    ensures q in s.t.requests && s.t.requests[q] == Next(s, step).t.requests[q]
  {
  }

  lemma CompletionIsByRun(s: State, step: Step, q: nat)
    requires Inv(s) && Enabled(s, step) && step.Complete? && q in Next(s, step).t.requests && Next(s, step).t.requests[q].status == Completed
    ensures CompletedByRun(Next(s, step), q)
  {
    assert WorkerKnows(s, step.run);
  }

  lemma KeepsRequests(s: State, step: Step)
    requires Inv(s) && Enabled(s, step)
    ensures CompletedRequestsHaveFinishedRun(Next(s, step))
  {
    var s' := Next(s, step);
    forall r | r in s.t.runs ensures RunStays(s, s', r) {
      FinishedRunIsFrozen(s, step, r);
    }
    StepFrame(s, step);
    forall q | q in s'.t.requests && s'.t.requests[q].status == Completed ensures CompletedByRun(s', q) {
      if step.Complete? {
        CompletionIsByRun(s, step, q);
      } else {
        if OnQueue(step) {
          QueueCompletesNothing(s, step, q);
        } else if step.Attach? {
          AttachCompletesNothing(s, step, q);
        }
        assert CompletedByRun(s, q);
      }
    }
  }

  lemma StepKeepsInv(s: State, step: Step)
    requires Inv(s) && Enabled(s, step)
    ensures Inv(Next(s, step))
  {
    KeepsReplay(s, step);
    KeepsScope(s, step);
    KeepsHealthy(s, step);
    KeepsWorkers(s, step);
    KeepsRequests(s, step);
    KeepsOpenTxs(s, step);
  }

  // ---------- whole runs ----------

  lemma {:induction false} EveryStateKeepsInv(states: seq<State>, steps: seq<Step>, i: nat)
    requires IsRun(states, steps) && i < |states|
    ensures Inv(states[i])
  {
    if i == 0 {
      StartKeepsInv(states[0].clock);
    } else {
      EveryStateKeepsInv(states, steps, i - 1);
      StepKeepsInv(states[i - 1], steps[i - 1]);
    }
  }

  /** Under every interleaving, each open job is inside the boundary its source has now. */
  lemma OpenJobsStayInScope(states: seq<State>, steps: seq<Step>, i: nat, k: JobKey)
    requires IsRun(states, steps) && i < |states|
    requires k in states[i].t.jobs && Listed(states[i].t.jobs[k].state.status)
    ensures k.source in states[i].t.sources
    ensures InScope(states[i].t.sources[k.source].baseUrl, states[i].t.jobs[k].url)
  {
    EveryStateKeepsInv(states, steps, i);
  }

  /** Once finished, a run row is the same in every later state. */
  lemma {:induction false} FinalisedOnce(states: seq<State>, steps: seq<Step>, i: nat, j: nat, run: nat)
    requires IsRun(states, steps) && i <= j < |states|
    requires run in states[i].t.runs && states[i].t.runs[run].finishedAt.Some?
    ensures run in states[j].t.runs && states[j].t.runs[run] == states[i].t.runs[run]
  {
    if i < j {
      FinalisedOnce(states, steps, i, j - 1, run);
      EveryStateKeepsInv(states, steps, j - 1);
      FinishedRunIsFrozen(states[j - 1], steps[j - 1], run);
    }
  }

  /**
   Whatever commits, aborts or goes unheard: a finished run is HEALTHY exactly
   when its job writes are committed; `run_source` returns Ok only for a
   finished run; a request is COMPLETED only once its run is finished.
   */
  lemma OutcomesAreConsistent(states: seq<State>, steps: seq<Step>, i: nat, run: nat)
    requires IsRun(states, steps) && i < |states|
    ensures var s := states[i];
            && (run in s.t.runs ==>
                  (s.t.runs[run].finishedAt.Some? && s.t.runs[run].status == Healthy <==> HasCrawled(s.log, run)))
            && (run in s.workers && s.workers[run].pc == Returned(true) ==>
                  run in s.t.runs && s.t.runs[run].finishedAt.Some?)
            && (forall q :: q in s.t.requests && s.t.requests[q].status == Completed ==>
                  && s.t.requests[q].run.Some?
                  && s.t.requests[q].run.value in s.t.runs
                  && s.t.runs[s.t.requests[q].run.value].finishedAt.Some?)
  {
    EveryStateKeepsInv(states, steps, i);
    if run in states[i].workers { assert WorkerKnows(states[i], run); }
  }

  /** Under every interleaving, `job_cache` equals the serial replay of the transactions in commit order. */
  lemma CommitsAreSerialisable(states: seq<State>, steps: seq<Step>, i: nat, k: JobKey)
    requires IsRun(states, steps) && i < |states|
    ensures Row(states[i].t.jobs, k) == Replay(states[i].log, k)
  {
    EveryStateKeepsInv(states, steps, i);
  }
}
