/**
 Open transactions of `CrawlProtocol`: what one holds when it opens, that no
 step of others takes it away, and that its commit does what its counts say.
 */
module CrawlTransactions {
  import opened Wrappers
  import opened Reconcile
  import opened Scope
  import opened CrawlTables
  import opened CrawlProtocol

  lemma OpenedRowValid(s: State, run: nat, now: nat, finishedAt: nat, k: JobKey)
    requires Enabled(s, OpenTransaction(run, now, finishedAt)) && k.source == s.workers[run].source
    ensures var x := Next(s, OpenTransaction(run, now, finishedAt)).open[run];
            && RowAfterCommit(Row(s.t.jobs, k), k.key, x.batch, x.now, x.startedAt)
               == (if k in x.writes then Some(x.writes[k]) else Row(s.t.jobs, k))
            && (LastFor(x.batch, k.key).Some? ==> k in x.writes)
            && (k in x.writes && LastFor(x.batch, k.key).None? ==> StateMoved(Row(s.t.jobs, k), Some(x.writes[k])))
  {
    var w := s.workers[run];
    HealthyRows(s.t.jobs, w.source, w.pc.batch, now, w.startedAt, k);
    LastObservationWins(Row(s.t.jobs, k), k.key, w.pc.batch, now);
    assert Row(Transaction(s, run, now, finishedAt).value.jobs, k)
        == RowAfterCommit(Row(s.t.jobs, k), k.key, w.pc.batch, now, w.startedAt);
  }

  lemma OpenedIsValid(s: State, run: nat, now: nat, finishedAt: nat)
    requires Inv(s) && Enabled(s, OpenTransaction(run, now, finishedAt))
    ensures OpenTxValid(Next(s, OpenTransaction(run, now, finishedAt)), run)
  {
    var s' := Next(s, OpenTransaction(run, now, finishedAt));
    var x := s'.open[run];
    assert WorkerKnows(s, run);
    var scope := NewScope(x.base).value;
    assert Acceptable(scope, x.batch) by {
      forall o | o in x.batch ensures Problem(scope, o).None? { }
    }
    forall k: JobKey | k.source == x.source
      ensures RowAfterCommit(Row(s'.t.jobs, k), k.key, x.batch, x.now, x.startedAt)
              == (if k in x.writes then Some(x.writes[k]) else Row(s'.t.jobs, k))
      ensures LastFor(x.batch, k.key).Some? ==> k in x.writes
      ensures k in x.writes && LastFor(x.batch, k.key).None? ==> StateMoved(Row(s.t.jobs, k), Some(x.writes[k]))
    {
      OpenedRowValid(s, run, now, finishedAt, k);
    }
  }

  lemma OpenedRow(s: State, run: nat, now: nat, finishedAt: nat, k: JobKey)
    requires Inv(s) && Enabled(s, OpenTransaction(run, now, finishedAt)) && k.source == s.workers[run].source
    ensures var x := Next(s, OpenTransaction(run, now, finishedAt)).open[run];
            var after := Transaction(s, run, now, finishedAt).value;
            var stored := UpsertAll(s.t.jobs, x.source, x.batch, now);
            && (k in s.t.jobs ==> k in after.jobs)
            && (k in after.jobs && k !in s.t.jobs ==> k in x.writes)
            && (k in x.writes ==> k in after.jobs)
            && (k in MissedKeys(stored, x.source, x.startedAt) <==> k in x.writes && LastFor(x.batch, k.key).None?)
  {
    var w := s.workers[run];
    HealthyRows(s.t.jobs, w.source, w.pc.batch, now, w.startedAt, k);
    LastObservationWins(Row(s.t.jobs, k), k.key, w.pc.batch, now);
    MissingIsMoved(s.t.jobs, w.source, w.pc.batch, now, w.startedAt, k);
  }

  lemma GrowthIsNewKeys(before: map<JobKey, Job>, after: map<JobKey, Job>, source: nat, added: set<JobKey>)
    requires forall k :: k in SourceKeys(after, source) <==> k in SourceKeys(before, source) || k in added
    requires added !! SourceKeys(before, source)
    ensures |SourceKeys(after, source)| == |SourceKeys(before, source)| + |added|
  {
    assert SourceKeys(after, source) == SourceKeys(before, source) + added;
  }

  lemma OpenedRunRow(s: State, run: nat, now: nat, finishedAt: nat)
    requires Enabled(s, OpenTransaction(run, now, finishedAt))
    ensures var x := Next(s, OpenTransaction(run, now, finishedAt)).open[run];
            && x.runRow.counts.jobsCreated == Delta(s.t.jobs, x.source, x.batch, now).created
            && x.runRow.counts.jobsMissing == |MissedKeys(UpsertAll(s.t.jobs, x.source, x.batch, now), x.source, x.startedAt)|
  {
  }

  /** The transaction leaves its source's old keys, and those of its own that are new. */
  lemma OpenedKeys(s: State, run: nat, now: nat, finishedAt: nat, k: JobKey)
    requires Inv(s) && Enabled(s, OpenTransaction(run, now, finishedAt))
    ensures var x := Next(s, OpenTransaction(run, now, finishedAt)).open[run];
            k in SourceKeys(Transaction(s, run, now, finishedAt).value.jobs, x.source)
            <==> k in SourceKeys(s.t.jobs, x.source) || k in x.writes.Keys - s.t.jobs.Keys
  {
    if k.source == s.workers[run].source {
      OpenedRow(s, run, now, finishedAt, k);
    }
  }

  lemma OpenedCreates(s: State, run: nat, now: nat, finishedAt: nat)
    requires Inv(s) && Enabled(s, OpenTransaction(run, now, finishedAt))
    ensures var x := Next(s, OpenTransaction(run, now, finishedAt)).open[run];
            Delta(s.t.jobs, x.source, x.batch, now).created == |x.writes.Keys - s.t.jobs.Keys|
  {
    var x := Next(s, OpenTransaction(run, now, finishedAt)).open[run];
    var after := Transaction(s, run, now, finishedAt).value;
    forall k: JobKey
      ensures k in SourceKeys(after.jobs, x.source) <==> k in SourceKeys(s.t.jobs, x.source) || k in x.writes.Keys - s.t.jobs.Keys
    {
      OpenedKeys(s, run, now, finishedAt, k);
    }
    CreatedIsGrowth(s.t.jobs, x.source, x.batch, now, x.startedAt);
    GrowthIsNewKeys(s.t.jobs, after.jobs, x.source, x.writes.Keys - s.t.jobs.Keys);
  }

  lemma OpenedAges(s: State, run: nat, now: nat, finishedAt: nat)
    requires Inv(s) && Enabled(s, OpenTransaction(run, now, finishedAt))
    ensures var x := Next(s, OpenTransaction(run, now, finishedAt)).open[run];
            MissedKeys(UpsertAll(s.t.jobs, x.source, x.batch, now), x.source, x.startedAt) == AgedKeys(x)
  {
    var x := Next(s, OpenTransaction(run, now, finishedAt)).open[run];
    var missed := MissedKeys(UpsertAll(s.t.jobs, x.source, x.batch, now), x.source, x.startedAt);
    forall k: JobKey ensures k in missed <==> k in AgedKeys(x) {
      if k.source == x.source { OpenedRow(s, run, now, finishedAt, k); }
    }
  }

  lemma OpenedCounts(s: State, run: nat, now: nat, finishedAt: nat)
    requires Inv(s) && Enabled(s, OpenTransaction(run, now, finishedAt))
    ensures CountsRecorded(Next(s, OpenTransaction(run, now, finishedAt)), run)
  {
    OpenedRunRow(s, run, now, finishedAt);
    OpenedCreates(s, run, now, finishedAt);
    OpenedAges(s, run, now, finishedAt);
  }

  /** The open jobs of a source that a batch did not name and whose state changed. */
  function MovedUnseen(before: map<JobKey, Job>, after: map<JobKey, Job>, source: nat, batch: seq<Observation>): set<JobKey> {
    set k | k in before && k.source == source && LastFor(batch, k.key).None? && StateMoved(Row(before, k), Row(after, k))
  }

  lemma PublishAddsNewKeys(s: State, run: nat)
    requires run in s.open && OpenTxValid(s, run)
    ensures var x := s.open[run];
            |SourceKeys(Publish(s, run).t.jobs, x.source)| == |SourceKeys(s.t.jobs, x.source)| + |x.writes.Keys - s.t.jobs.Keys|
  {
    GrowthIsNewKeys(s.t.jobs, Publish(s, run).t.jobs, s.open[run].source, s.open[run].writes.Keys - s.t.jobs.Keys);
  }

  lemma PublishMovesAged(s: State, run: nat)
    requires run in s.open && OpenTxValid(s, run)
    ensures AgedKeys(s.open[run]) == MovedUnseen(s.t.jobs, Publish(s, run).t.jobs, s.open[run].source, s.open[run].batch)
  {
    var x := s.open[run];
    forall k: JobKey
      ensures k in AgedKeys(x) <==> k in MovedUnseen(s.t.jobs, Publish(s, run).t.jobs, x.source, x.batch)
    {
      if k.source == x.source { AgedIsMoved(s, run, k); }
    }
  }

  /** The counts a healthy run reports are what its commit did: rows added, and open jobs moved unseen. */
  lemma CommitMatchesCounts(s: State, run: nat)
    requires Inv(s) && run in s.open
    ensures var s' := Publish(s, run); var x := s.open[run];
            && |SourceKeys(s'.t.jobs, x.source)| == |SourceKeys(s.t.jobs, x.source)| + s'.t.runs[run].counts.jobsCreated
            && s'.t.runs[run].counts.jobsMissing == |MovedUnseen(s.t.jobs, s'.t.jobs, x.source, x.batch)|
  {
    assert OpenTxValid(s, run);
    assert CountsRecorded(s, run);
    PublishAddsNewKeys(s, run);
    PublishMovesAged(s, run);
  }

  lemma AgedIsMoved(s: State, run: nat, k: JobKey)
    requires run in s.open && OpenTxValid(s, run) && k.source == s.open[run].source
    ensures k in AgedKeys(s.open[run])
       <==> k in MovedUnseen(s.t.jobs, Publish(s, run).t.jobs, k.source, s.open[run].batch)
  {
    var x := s.open[run];
    LastObservationWins(Row(s.t.jobs, k), k.key, x.batch, x.now);
    assert RowAfterCommit(Row(s.t.jobs, k), k.key, x.batch, x.now, x.startedAt)
        == (if k in x.writes then Some(x.writes[k]) else Row(s.t.jobs, k));
  }

  lemma AssignmentCommutes(row: Job, location: Option<nat>, key: string, batch: seq<Observation>, now: nat, startedAt: nat)
    requires LastFor(batch, key).None?
    requires RowAfterCommit(Some(row), key, batch, now, startedAt) == Some(row)
    ensures RowAfterCommit(Some(AssignedJob(row, location)), key, batch, now, startedAt) == Some(AssignedJob(row, location))
  {
    LastObservationWins(Some(row), key, batch, now);
    LastObservationWins(Some(AssignedJob(row, location)), key, batch, now);
  }

  /** A state change that leaves an open transaction's source, rows and run row alone leaves it valid. */
  lemma UntouchedTxStaysValid(s: State, s': State, run: nat)
    requires run in s.open && OpenTxValid(s, run)
    requires run in s'.open && s'.open[run] == s.open[run] && run in s'.workers
    requires s.clock <= s'.clock
    requires Undisturbed(s, s', run)
    ensures OpenTxValid(s', run)
  {
  }

  /** An assigned row that the transaction has not written commutes with its commit. */
  lemma AssignedRow(s: State, job: JobKey, location: Option<nat>, run: nat, k: JobKey)
    requires run in s.open && OpenTxValid(s, run) && job in s.t.jobs && job !in s.open[run].writes && k.source == s.open[run].source
    ensures var x, row := s.open[run], Row(s.t.jobs[job := AssignedJob(s.t.jobs[job], location)], k);
            && RowAfterCommit(row, k.key, x.batch, x.now, x.startedAt) == (if k in x.writes then Some(x.writes[k]) else row)
            && (k in x.writes ==> row == Row(s.t.jobs, k))
  {
    var x := s.open[run];
    if k == job {
      assert RowAfterCommit(Row(s.t.jobs, k), k.key, x.batch, x.now, x.startedAt) == Row(s.t.jobs, k);
      AssignmentCommutes(s.t.jobs[job], location, job.key, x.batch, x.now, x.startedAt);
    } else {
      assert RowAfterCommit(Row(s.t.jobs, k), k.key, x.batch, x.now, x.startedAt)
          == (if k in x.writes then Some(x.writes[k]) else Row(s.t.jobs, k));
    }
  }

  lemma AssignedTxStaysValid(s: State, job: JobKey, location: Option<nat>, run: nat)
    requires Inv(s) && Enabled(s, AssignLocation(job, location)) && run in s.open
    ensures OpenTxValid(Next(s, AssignLocation(job, location)), run)
  {
    assert OpenTxValid(s, run);
    assert job !in s.open[run].writes;
    forall k: JobKey | k.source == s.open[run].source
      ensures var x, row := s.open[run], Row(Next(s, AssignLocation(job, location)).t.jobs, k);
              && RowAfterCommit(row, k.key, x.batch, x.now, x.startedAt) == (if k in x.writes then Some(x.writes[k]) else row)
              && (k in x.writes ==> row == Row(s.t.jobs, k))
    {
      AssignedRow(s, job, location, run, k);
    }
  }

  lemma PublishKeepsOthersValid(s: State, run: nat, other: nat)
    requires Inv(s) && run in s.open && other in s.open && other != run
    ensures OpenTxValid(Publish(s, run), other)
  {
    assert OpenTxValid(s, run) && OpenTxValid(s, other);
    UntouchedTxStaysValid(s, Publish(s, run), other);
  }

  /** What a transaction relies on while it is open. */
  ghost predicate Undisturbed(s: State, s': State, other: nat)
    requires other in s.open
  {
    var x := s.open[other];
    && other in s.t.runs
    && Unfinished(s'.t.runs, other)
    && SnapshotHolds(s'.t.sources, x.source, x.base)
    && s'.t.runs[other].startedAt == s.t.runs[other].startedAt
    && (forall k: JobKey :: k.source == x.source ==> Row(s'.t.jobs, k) == Row(s.t.jobs, k))
  }

  lemma AdminStepIsBlocked(s: State, step: Step, other: nat)
    requires Inv(s) && Enabled(s, step) && ByAdmin(step) && !step.AssignLocation?
    requires other in s.open
    ensures Undisturbed(s, Next(s, step), other)
  {
    assert OpenTxValid(s, other);
    if step.EditBaseUrl? || step.SetStatus? { assert step.source != s.open[other].source; }
  }

  lemma ComparingLeavesUndisturbed(s: State, step: Step, other: nat)
    requires Inv(s) && Enabled(s, step) && Compares(step) && other in s.open
    ensures Undisturbed(s, Next(s, step), other)
  {
    assert OpenTxValid(s, other);
    ComparingStep(s, step);
  }

  lemma BeginLeavesUndisturbed(s: State, step: Step, other: nat)
    requires Inv(s) && Enabled(s, step) && step.Begin? && other in s.open
    ensures Undisturbed(s, Next(s, step), other)
  {
    assert OpenTxValid(s, other);
    BeginFrame(s, step);
  }

  lemma StepLeavesTxUndisturbed(s: State, step: Step, other: nat)
    requires Inv(s) && Enabled(s, step) && !step.AssignLocation? && !Ends(step)
    requires other in s.open
    ensures Undisturbed(s, Next(s, step), other)
  {
    if Compares(step) {
      ComparingLeavesUndisturbed(s, step, other);
    } else if ByAdmin(step) {
      AdminStepIsBlocked(s, step, other);
    } else if step.Begin? {
      BeginLeavesUndisturbed(s, step, other);
    } else {
      assert OpenTxValid(s, other);
      StepFrame(s, step);
    }
  }

  lemma EndingKeepsOthersValid(s: State, step: Step, other: nat)
    requires Inv(s) && Enabled(s, step) && Ends(step)
    requires other in s.open && other != step.run
    ensures OpenTxValid(Next(s, step), other)
  {
    EndingFrame(s, step);
    assert OpenTxValid(s, other);
    if LeavesJobs(step) {
      UntouchedTxStaysValid(s, Next(s, step), other);
    } else {
      PublishKeepsOthersValid(s, step.run, other);
      UntouchedTxStaysValid(Publish(s, step.run), Next(s, step), other);
    }
  }

  lemma KeepsOpenTx(s: State, step: Step, run: nat)
    requires Inv(s) && Enabled(s, step) && run in Next(s, step).open
    ensures OpenTxValid(Next(s, step), run)
  {
    if step.OpenTransaction? && step.run == run {
      OpenedIsValid(s, run, step.now, step.finishedAt);
    } else {
      OthersWereOpen(s, step, run);
      if step.AssignLocation? {
        AssignedTxStaysValid(s, step.job, step.location, run);
      } else if Ends(step) {
        EndingKeepsOthersValid(s, step, run);
      } else {
        assert OpenTxValid(s, run);
        StepLeavesTxUndisturbed(s, step, run);
        UntouchedTxStaysValid(s, Next(s, step), run);
      }
    }
  }

  /** A transaction that is open after a step was open before, unless the step opened it. */
  lemma OthersWereOpen(s: State, step: Step, run: nat)
    requires Enabled(s, step) && run in Next(s, step).open && !(step.OpenTransaction? && step.run == run)
    ensures run in s.open && Next(s, step).open[run] == s.open[run] && s.clock <= Next(s, step).clock
    ensures run in s.workers ==> run in Next(s, step).workers
    ensures Ends(step) ==> run != step.run
  {
    StepFrame(s, step);
    if step.OpenTransaction? {
      OpeningFrame(s, step);
    } else if Ends(step) {
      EndingFrame(s, step);
    }
  }

  /** The rows an open transaction will add stay absent: nobody else inserts into its source. */
  lemma KeepsCounts(s: State, step: Step, run: nat)
    requires Inv(s) && Enabled(s, step) && run in Next(s, step).open
    ensures CountsRecorded(Next(s, step), run)
  {
    if step.OpenTransaction? && step.run == run {
      OpenedCounts(s, run, step.now, step.finishedAt);
    } else {
      OthersWereOpen(s, step, run);
      assert CountsRecorded(s, run);
      forall k | k in s.open[run].writes ensures k in s.t.jobs <==> k in Next(s, step).t.jobs {
        KeysOfOpenSource(s, step, run, k);
      }
      SameNewKeys(s.open[run].writes, s.t.jobs, Next(s, step).t.jobs);
    }
  }

  lemma SameNewKeys(writes: map<JobKey, Job>, before: map<JobKey, Job>, after: map<JobKey, Job>)
    requires forall k :: k in writes ==> (k in before <==> k in after)
    ensures writes.Keys - after.Keys == writes.Keys - before.Keys
  {
  }

  lemma EndingKeepsKeys(s: State, step: Step, run: nat, k: JobKey)
    requires Inv(s) && Enabled(s, step) && Ends(step) && run in s.open && run != step.run && k in s.open[run].writes
    ensures k in s.t.jobs <==> k in Next(s, step).t.jobs
  {
    EndingFrame(s, step);
    assert OpenTxValid(s, run) && OpenTxValid(s, step.run);
  }

  lemma KeysOfOpenSource(s: State, step: Step, run: nat, k: JobKey)
    requires Inv(s) && Enabled(s, step) && run in s.open && (Ends(step) ==> run != step.run)
    requires k in s.open[run].writes
    ensures k in s.t.jobs <==> k in Next(s, step).t.jobs
  {
    if step.AssignLocation? {
      assert Next(s, step).t.jobs.Keys == s.t.jobs.Keys;
    } else if Ends(step) {
      EndingKeepsKeys(s, step, run, k);
    } else {
      assert OpenTxValid(s, run);
      StepLeavesTxUndisturbed(s, step, run);
      assert Row(Next(s, step).t.jobs, k) == Row(s.t.jobs, k);
    }
  }

  lemma OpeningKeepsOnePerSource(s: State, step: Step)
    requires OnePerSource(s.open) && Enabled(s, step) && step.OpenTransaction?
    ensures OnePerSource(Next(s, step).open)
  {
    OpeningFrame(s, step);
    forall r | r in s.open ensures Next(s, step).open[step.run].source != s.open[r].source { }
  }

  lemma OneTxPerSource(s: State, step: Step)
    requires Inv(s) && Enabled(s, step)
    ensures OnePerSource(Next(s, step).open)
  {
    if step.OpenTransaction? {
      OpeningKeepsOnePerSource(s, step);
    } else if Ends(step) {
      EndingFrame(s, step);
    } else {
      StepFrame(s, step);
    }
  }

  lemma KeepsOpenTxs(s: State, step: Step)
    requires Inv(s) && Enabled(s, step)
    ensures OpenTxsValid(Next(s, step))
  {
    var s' := Next(s, step);
    forall run | run in s'.open ensures OpenTxValid(s', run) {
      KeepsOpenTx(s, step, run);
    }
    forall run | run in s'.open ensures CountsRecorded(s', run) {
      KeepsCounts(s, step, run);
    }
    OneTxPerSource(s, step);
  }
}
