/**
 What the guards of the crawler's statements buy over whole runs of
 `CrawlProtocol`: a request is served by one worker and ends once, a run row is
 as it was begun or finished for good, and a worker may rely on its rows while
 others act (crawler/src/store.rs, crawler/src/main.rs).
 */
module CrawlGuards {
  import opened Wrappers
  import opened Reconcile
  import opened Scope
  import opened CrawlTables
  import opened CrawlProtocol
  import opened CrawlTransactions
  import opened CrawlInvariant

  // ---------- requests ----------

  predicate RequestEnded(row: Request) {
    row.status == Completed || row.status == Failed
  }

  /** Who changes a request: its claim, its claimer that began no run, or the worker that serves it. */
  predicate MayChange(s: State, step: Step, request: nat) {
    || step == Claim(request) || step == GiveUp(request)
    || (StepWorker(step).Some? && StepWorker(step).value in s.workers && s.workers[StepWorker(step).value].request == Some(request))
  }

  /** What a step may make of a request. */
  predicate RequestGoesOn(s: State, s': State, step: Step, request: nat)
    requires request in s.t.requests
  {
    && request in s'.t.requests
    && (s'.t.requests[request] != s.t.requests[request] ==> MayChange(s, step, request) && !RequestEnded(s.t.requests[request]))
    && s'.t.requests[request].source == s.t.requests[request].source
    && (s'.t.requests[request].status == Pending ==> s.t.requests[request].status == Pending)
  }

  lemma QueueStep(s: State, step: Step, request: nat)
    requires Enabled(s, step) && OnQueue(step) && request in s.t.requests
    ensures RequestGoesOn(s, Next(s, step), step, request)
  {
  }

  lemma AttachStep(s: State, step: Step, request: nat)
    requires Enabled(s, step) && step.Attach? && request in s.t.requests
    ensures RequestGoesOn(s, Next(s, step), step, request)
  {
  }

  lemma CompleteStep(s: State, step: Step, request: nat)
    requires Enabled(s, step) && step.Complete? && request in s.t.requests
    ensures RequestGoesOn(s, Next(s, step), step, request)
  {
  }

  lemma RequestStep(s: State, step: Step, request: nat)
    requires Enabled(s, step) && request in s.t.requests
    ensures RequestGoesOn(s, Next(s, step), step, request)
  {
    if OnQueue(step) {
      QueueStep(s, step, request);
    } else if step.Attach? {
      AttachStep(s, step, request);
    } else if step.Complete? {
      CompleteStep(s, step, request);
    } else {
      StepFrame(s, step);
    }
  }

  /** A COMPLETED or FAILED request is the same in every later state. */
  lemma {:induction false} EndedRequestStays(states: seq<State>, steps: seq<Step>, i: nat, j: nat, request: nat)
    requires IsRun(states, steps) && i <= j < |states|
    requires request in states[i].t.requests && RequestEnded(states[i].t.requests[request])
    ensures request in states[j].t.requests && states[j].t.requests[request] == states[i].t.requests[request]
  {
    if i < j {
      EndedRequestStays(states, steps, i, j - 1, request);
      RequestStep(states[j - 1], steps[j - 1], request);
    }
  }

  /** Each worker keeps to the source of its run and of its request, which has been claimed. */
  ghost predicate WorkersKeepToSource(s: State) {
    forall run :: run in s.workers ==>
      && run in s.t.runs && s.t.runs[run].source == s.workers[run].source
      && (s.workers[run].request.Some? ==>
            && s.workers[run].request.value in s.t.requests
            && s.t.requests[s.workers[run].request.value].source == s.workers[run].source
            && s.t.requests[s.workers[run].request.value].status != Pending)
  }

  ghost predicate OneWorkerPerRequest(s: State) {
    forall a, b :: a in s.workers && b in s.workers && s.workers[a].request.Some? && s.workers[a].request == s.workers[b].request ==> a == b
  }

  /** A request's run link names the worker that serves it. */
  ghost predicate LinksAreServed(s: State) {
    forall q :: q in s.t.requests && s.t.requests[q].run.Some? ==>
      s.t.requests[q].run.value in s.workers && s.workers[s.t.requests[q].run.value].request == Some(q)
  }

  /** What a step does to the workers: only a begin adds one, and what a worker was begun with stays. */
  predicate WorkerGoesOn(s: State, s': State, step: Step, run: nat)
    requires run in s'.workers
  {
    var w := s'.workers[run];
    if run in s.workers then
      w.source == s.workers[run].source && w.base == s.workers[run].base && w.request == s.workers[run].request
    else
      && step.Begin? && step.run == run && w.source == step.source && w.request == step.serving
      && (step.serving.Some? ==> Unserved(s, step.serving.value) && s.t.requests[step.serving.value].source == step.source)
      && run in s'.t.runs && s'.t.runs[run].source == step.source
      && s'.t.requests == s.t.requests
  }

  lemma BegunWorker(s: State, step: Step, run: nat)
    requires Enabled(s, step) && step.Begin? && run in Next(s, step).workers
    ensures WorkerGoesOn(s, Next(s, step), step, run)
  {
  }

  lemma WorkersOf(s: State, step: Step, run: nat)
    requires Enabled(s, step) && run in Next(s, step).workers
    ensures WorkerGoesOn(s, Next(s, step), step, run)
  {
    if step.Begin? {
      BegunWorker(s, step, run);
    } else {
      StepFrame(s, step);
    }
  }

  /** An open transaction is its worker's: the source, the base URL and the run row. */
  ghost predicate TxOfItsWorker(s: State) {
    forall run :: run in s.open ==>
      && run in s.workers && s.open[run].source == s.workers[run].source && s.open[run].base == s.workers[run].base
      && s.open[run].runRow.source == s.workers[run].source
  }

  ghost predicate Linked(s: State) {
    WorkersKeepToSource(s) && OneWorkerPerRequest(s) && LinksAreServed(s) && TxOfItsWorker(s)
  }

  lemma OpenedTx(s: State, step: Step)
    requires Enabled(s, step) && step.OpenTransaction? && step.run in s.t.runs
    ensures var x := Next(s, step).open[step.run];
            x.source == s.workers[step.run].source && x.base == s.workers[step.run].base && x.runRow.source == s.t.runs[step.run].source
  {
  }

  lemma KeepsTxOfItsWorker(s: State, step: Step)
    requires Linked(s) && Enabled(s, step)
    ensures TxOfItsWorker(Next(s, step))
  {
    var s' := Next(s, step);
    if step.OpenTransaction? {
      OpeningFrame(s, step);
      OpenedTx(s, step);
    }
    forall run | run in s'.open
      ensures run in s'.workers && s'.open[run].source == s'.workers[run].source && s'.open[run].base == s'.workers[run].base
      ensures s'.open[run].runRow.source == s'.workers[run].source
    {
      if !(step.OpenTransaction? && step.run == run) { OthersWereOpen(s, step, run); }
      WorkersOf(s, step, run);
    }
  }

  lemma EndingKeepsSource(s: State, step: Step, run: nat)
    requires Linked(s) && Enabled(s, step) && Ends(step) && run in s.t.runs
    ensures run in Next(s, step).t.runs && Next(s, step).t.runs[run].source == s.t.runs[run].source
  {
    EndingFrame(s, step);
  }

  lemma RunKeepsSource(s: State, step: Step, run: nat)
    requires Linked(s) && Enabled(s, step) && run in s.t.runs
    ensures run in Next(s, step).t.runs && Next(s, step).t.runs[run].source == s.t.runs[run].source
  {
    if Compares(step) {
      ComparingStep(s, step);
    } else if Ends(step) {
      EndingKeepsSource(s, step, run);
    } else if step.Begin? {
      BeginFrame(s, step);
    } else {
      StepFrame(s, step);
    }
  }

  lemma KeepsWorkersToSource(s: State, step: Step)
    requires Linked(s) && Enabled(s, step)
    ensures WorkersKeepToSource(Next(s, step))
  {
    var s' := Next(s, step);
    forall run | run in s'.workers
      ensures run in s'.t.runs && s'.t.runs[run].source == s'.workers[run].source
      ensures s'.workers[run].request.Some? ==>
                && s'.workers[run].request.value in s'.t.requests
                && s'.t.requests[s'.workers[run].request.value].source == s'.workers[run].source
                && s'.t.requests[s'.workers[run].request.value].status != Pending
    {
      WorkersOf(s, step, run);
      if run in s.workers {
        RunKeepsSource(s, step, run);
        if s.workers[run].request.Some? { RequestStep(s, step, s.workers[run].request.value); }
      }
    }
  }

  lemma KeepsOneWorker(s: State, step: Step)
    requires Linked(s) && Enabled(s, step)
    ensures OneWorkerPerRequest(Next(s, step))
  {
    var s' := Next(s, step);
    forall a, b | a in s'.workers && b in s'.workers && s'.workers[a].request.Some? && s'.workers[a].request == s'.workers[b].request
      ensures a == b
    {
      WorkersOf(s, step, a);
      WorkersOf(s, step, b);
    }
  }

  /** Only the worker that serves a request writes its run link, and writes itself. */
  predicate LinkIsOwn(s: State, s': State, step: Step, request: nat)
    requires request in s'.t.requests
  {
    var link := s'.t.requests[request].run;
    || link.None?
    || (request in s.t.requests && s.t.requests[request].run == link)
    || (StepWorker(step) == link && link.value in s.workers && s.workers[link.value].request == Some(request))
  }

  lemma QueueLink(s: State, step: Step, request: nat)
    requires Enabled(s, step) && OnQueue(step) && request in Next(s, step).t.requests
    ensures LinkIsOwn(s, Next(s, step), step, request)
  {
  }

  lemma ReportedLink(s: State, step: Step, request: nat)
    requires Enabled(s, step) && Reports(step) && request in Next(s, step).t.requests
    ensures LinkIsOwn(s, Next(s, step), step, request)
  {
  }

  lemma LinkStep(s: State, step: Step, request: nat)
    requires Enabled(s, step) && request in Next(s, step).t.requests
    ensures LinkIsOwn(s, Next(s, step), step, request)
  {
    if OnQueue(step) {
      QueueLink(s, step, request);
    } else if Reports(step) {
      ReportedLink(s, step, request);
    } else {
      StepFrame(s, step);
    }
  }

  lemma KeepsLinksServed(s: State, step: Step)
    requires Linked(s) && Enabled(s, step)
    ensures LinksAreServed(Next(s, step))
  {
    var s' := Next(s, step);
    StepFrame(s, step);
    forall q | q in s'.t.requests && s'.t.requests[q].run.Some?
      ensures s'.t.requests[q].run.value in s'.workers && s'.workers[s'.t.requests[q].run.value].request == Some(q)
    {
      LinkStep(s, step, q);
      WorkersOf(s, step, s'.t.requests[q].run.value);
    }
  }

  lemma {:induction false} EveryStateIsLinked(states: seq<State>, steps: seq<Step>, i: nat)
    requires IsRun(states, steps) && i < |states|
    ensures Linked(states[i])
  {
    if i > 0 {
      EveryStateIsLinked(states, steps, i - 1);
      KeepsWorkersToSource(states[i - 1], steps[i - 1]);
      KeepsOneWorker(states[i - 1], steps[i - 1]);
      KeepsLinksServed(states[i - 1], steps[i - 1]);
      KeepsTxOfItsWorker(states[i - 1], steps[i - 1]);
    }
  }

  /** On every run: a request's run link names the run of the one worker that serves it, and that run crawls the requested source. */
  lemma LinkedRunServesRequest(states: seq<State>, steps: seq<Step>, i: nat, request: nat)
    requires IsRun(states, steps) && i < |states|
    requires request in states[i].t.requests && states[i].t.requests[request].run.Some?
    ensures var s := states[i]; var run := s.t.requests[request].run.value;
            && run in s.t.runs && s.t.runs[run].source == s.t.requests[request].source
            && forall other :: other in s.workers && s.workers[other].request == Some(request) <==> other == run
  {
    EveryStateIsLinked(states, steps, i);
  }

  // ---------- runs ----------

  predicate AsBegun(row: Run) {
    row.status == Anomaly && row.counts == Counts(0, 0, 0, 0, 0) && row.errorCode == Some("crawl_started")
  }

  /** What a crash leaves behind: a run that has not finished is as it was begun, an ANOMALY without counts. */
  lemma {:induction false} UnfinishedRunIsAsBegun(states: seq<State>, steps: seq<Step>, i: nat, run: nat)
    requires IsRun(states, steps) && i < |states| && Unfinished(states[i].t.runs, run)
    ensures AsBegun(states[i].t.runs[run])
  {
    if i > 0 {
      EveryStateKeepsInv(states, steps, i - 1);
      UnfinishedStep(states[i - 1], steps[i - 1], run);
      if Unfinished(states[i - 1].t.runs, run) { UnfinishedRunIsAsBegun(states, steps, i - 1, run); }
    }
  }

  lemma BegunRow(s: State, step: Step)
    requires Enabled(s, step) && step.Begin?
    ensures step.run in Next(s, step).t.runs && AsBegun(Next(s, step).t.runs[step.run])
  {
  }

  predicate AsBegunOrBefore(s: State, s': State, run: nat)
    requires Unfinished(s'.t.runs, run)
  {
    AsBegun(s'.t.runs[run]) || (Unfinished(s.t.runs, run) && s'.t.runs[run] == s.t.runs[run])
  }

  lemma ComparingUnfinished(s: State, step: Step, run: nat)
    requires Enabled(s, step) && Compares(step) && Unfinished(Next(s, step).t.runs, run)
    ensures AsBegunOrBefore(s, Next(s, step), run)
  {
    ComparingStep(s, step);
  }

  lemma EndingUnfinished(s: State, step: Step, run: nat)
    requires Inv(s) && Enabled(s, step) && Ends(step) && Unfinished(Next(s, step).t.runs, run)
    ensures AsBegunOrBefore(s, Next(s, step), run)
  {
    EndingFrame(s, step);
    assert OpenTxValid(s, step.run);
  }

  lemma UnfinishedStep(s: State, step: Step, run: nat)
    requires Inv(s) && Enabled(s, step) && Unfinished(Next(s, step).t.runs, run)
    ensures AsBegunOrBefore(s, Next(s, step), run)
  {
    if Compares(step) {
      ComparingUnfinished(s, step, run);
    } else if Ends(step) {
      EndingUnfinished(s, step, run);
    } else if step.Begin? {
      BeginFrame(s, step);
      BegunRow(s, step);
    } else {
      StepFrame(s, step);
    }
  }

  /**
   Whenever a crawl is published, its source is approved and still has the base
   URL its worker was started with, and every observation is inside it. Pausing
   a source or moving it therefore stops every publication that has not begun
   its transaction.
   */
  lemma PublishesIntoActiveSource(states: seq<State>, steps: seq<Step>, i: nat)
    requires IsRun(states, steps) && i < |steps|
    requires |states[i + 1].log| > |states[i].log| && states[i + 1].log[|states[i].log|].Crawled?
    ensures var s, e := states[i], states[i + 1].log[|states[i].log|];
            && e.run in s.workers && e.source == s.workers[e.run].source
            && SnapshotHolds(s.t.sources, e.source, s.workers[e.run].base)
            && NewScope(s.workers[e.run].base).Ok? && Acceptable(NewScope(s.workers[e.run].base).value, e.batch)
  {
    EveryStateKeepsInv(states, steps, i);
    EveryStateIsLinked(states, steps, i);
    LoggedStep(states[i], steps[i]);
  }

  lemma LoggedStep(s: State, step: Step)
    requires Inv(s) && Enabled(s, step) && |Next(s, step).log| > |s.log| && Next(s, step).log[|s.log|].Crawled?
    ensures var e := Next(s, step).log[|s.log|];
            && e.run in s.open && e.source == s.open[e.run].source && e.batch == s.open[e.run].batch && OpenTxValid(s, e.run)
  {
    if Ends(step) {
      EndingFrame(s, step);
      assert OpenTxValid(s, step.run);
    } else if !ByAdmin(step) {
      StepFrame(s, step);
    }
  }

  // ---------- what a worker relies on ----------

  /** What others may do to the tables while worker `run` serves `request`. */
  ghost predicate OthersMay(before: Tables, after: Tables, run: nat, request: Option<nat>) {
    && before.runs.Keys <= after.runs.Keys && (run in after.runs ==> run in before.runs)
    && (forall r :: r in before.runs && (r == run || before.runs[r].finishedAt.Some?) ==> after.runs[r] == before.runs[r])
    && before.requests.Keys <= after.requests.Keys
    && (forall q :: q in before.requests && RequestEnded(before.requests[q]) ==> after.requests[q] == before.requests[q])
    && (request.Some? && request.value in before.requests && before.requests[request.value].status == Running ==>
          after.requests[request.value] == before.requests[request.value])
  }

  /** The steps of worker `run`, and those that are its request's claimer's to make. */
  predicate ActsFor(step: Step, run: nat, request: Option<nat>) {
    || StepWorker(step) == Some(run)
    || (request.Some? && (step == GiveUp(request.value) || (step.Begin? && step.serving == request)))
  }

  ghost predicate NobodyElseServes(s: State, run: nat, request: Option<nat>) {
    forall other :: other in s.workers && request.Some? && s.workers[other].request == request ==> other == run
  }

  lemma OthersLeaveRun(s: State, step: Step, run: nat)
    requires Enabled(s, step) && StepWorker(step) != Some(run)
    ensures Row(Next(s, step).t.runs, run) == Row(s.t.runs, run)
  {
    if Compares(step) {
      ComparingStep(s, step);
    } else if Ends(step) {
      EndingFrame(s, step);
    } else if step.Begin? {
      BeginFrame(s, step);
    } else {
      StepFrame(s, step);
    }
  }

  lemma OthersLeaveFinished(s: State, step: Step, run: nat)
    requires Inv(s) && Enabled(s, step) && StepWorker(step) != Some(run)
    ensures var before, after := s.t.runs, Next(s, step).t.runs;
            && before.Keys <= after.Keys && (run in after ==> run in before)
            && (forall r :: r in before && (r == run || before[r].finishedAt.Some?) ==> after[r] == before[r])
  {
    OthersLeaveRun(s, step, run);
    forall r | r in s.t.runs ensures RunStays(s, Next(s, step), r) {
      FinishedRunIsFrozen(s, step, r);
    }
  }

  lemma OthersLeaveOneRequest(s: State, step: Step, run: nat, request: Option<nat>, q: nat)
    requires Enabled(s, step) && !ActsFor(step, run, request) && NobodyElseServes(s, run, request) && q in s.t.requests
    ensures q in Next(s, step).t.requests
    ensures RequestEnded(s.t.requests[q]) || (request == Some(q) && s.t.requests[q].status == Running) ==>
              Next(s, step).t.requests[q] == s.t.requests[q]
  {
    RequestStep(s, step, q);
  }

  lemma OthersLeaveRequest(s: State, step: Step, run: nat, request: Option<nat>)
    requires Enabled(s, step) && !ActsFor(step, run, request) && NobodyElseServes(s, run, request)
    ensures var before, after := s.t.requests, Next(s, step).t.requests;
            && before.Keys <= after.Keys
            && (forall q :: q in before && RequestEnded(before[q]) ==> after[q] == before[q])
            && (request.Some? && request.value in before && before[request.value].status == Running ==>
                  after[request.value] == before[request.value])
  {
    forall q | q in s.t.requests
      ensures q in Next(s, step).t.requests
      ensures RequestEnded(s.t.requests[q]) || (request == Some(q) && s.t.requests[q].status == Running) ==>
                Next(s, step).t.requests[q] == s.t.requests[q]
    {
      OthersLeaveOneRequest(s, step, run, request, q);
    }
  }

  lemma NobodyElseStarts(s: State, step: Step, run: nat, request: Option<nat>)
    requires Enabled(s, step) && !ActsFor(step, run, request) && NobodyElseServes(s, run, request)
    ensures NobodyElseServes(Next(s, step), run, request)
  {
    var s' := Next(s, step);
    forall other | other in s'.workers && request.Some? && s'.workers[other].request == request ensures other == run {
      WorkersOf(s, step, other);
    }
  }

  /** Every step that is not this worker's keeps what it relies on. */
  lemma OtherStepsMay(s: State, step: Step, run: nat, request: Option<nat>)
    requires Inv(s) && Enabled(s, step) && !ActsFor(step, run, request) && NobodyElseServes(s, run, request)
    ensures OthersMay(s.t, Next(s, step).t, run, request) && NobodyElseServes(Next(s, step), run, request)
  {
    OthersLeaveFinished(s, step, run);
    OthersLeaveRequest(s, step, run, request);
    NobodyElseStarts(s, step, run, request);
  }

  /** So over any stretch of a run in which only others act. */
  lemma {:induction false} OthersMayOverRuns(states: seq<State>, steps: seq<Step>, i: nat, j: nat, run: nat, request: Option<nat>)
    requires IsRun(states, steps) && i <= j < |states| && NobodyElseServes(states[i], run, request)
    requires forall n :: i <= n < j ==> !ActsFor(steps[n], run, request)
    ensures OthersMay(states[i].t, states[j].t, run, request) && NobodyElseServes(states[j], run, request)
  {
    if i < j {
      OthersMayOverRuns(states, steps, i, j - 1, run, request);
      EveryStateKeepsInv(states, steps, j - 1);
      OtherStepsMay(states[j - 1], steps[j - 1], run, request);
    }
  }
}
