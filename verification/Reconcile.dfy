/** A job's lifecycle as one pure step (crawler/src/reconcile.rs). */
module Reconcile {

  datatype RunStatus = Healthy | SourceError | ParserError | Anomaly

  datatype JobStatus = Active | Verifying | Closed | Expired | Disabled

  /** `missing` counts consecutive healthy cycles without an observation, capped at 2. */
  datatype JobState = JobState(status: JobStatus, missing: nat)

  predicate Listed(status: JobStatus) {
    status == Active || status == Verifying
  }

  function ReconcileJob(state: JobState, run: RunStatus, observed: bool, declaredClosed: bool): JobState {
    if declaredClosed then JobState(Closed, 2)
    else if run != Healthy then state
    else if observed then JobState(Active, 0)
    else if Listed(state.status) then
      var cycles := if state.missing + 1 < 2 then state.missing + 1 else 2;
      JobState(if cycles >= 2 then Closed else Verifying, cycles)
    else state
  }
}
