/**
 The Home repository's calls and the service's cleanup
 (backend/internal/repository/postgres_home_sections.go,
 backend/internal/service/home_section_service.go). Each repository call is one
 transaction; the steps of the others between two calls are those of
 `HomeAssets`.
 */
module HomeCleanup {
  import opened Wrappers
  import opened HomeAssets

  /** A queue row besides its asset: attempts made, next attempt due, creation time. */
  datatype Lease = Lease(attempts: nat, due: nat, created: nat)

  /** A claimed row: its ID, its asset, and how often it has been tried. */
  datatype CleanupJob = CleanupJob(id: nat, asset: nat, attempts: nat)

  datatype HomeError = SectionNotFound | MediaLimit | MediaNotFound | StorageFailed | DatabaseFailed

  datatype Outcome = Done | DoneUnheard | NotDone

  class HomeStore {
    var t: Tables
    var leases: map<nat, Lease>
    var destroyed: set<nat>

    constructor (sections: map<nat, Option<nat>>, media: map<nat, nat>)
      ensures t == Tables(sections, media, map[]) && destroyed == {} && Valid()
    {
      t, leases, destroyed := Tables(sections, media, map[]), map[], {};
    }

    ghost predicate Valid()
      reads this
    {
      && leases.Keys == t.queue.Keys
      && forall i, j :: i in t.queue && j in t.queue && t.queue[i] == t.queue[j] ==> i == j
    }

    /** The guarded insert: an asset that a row still names, or that is queued, is left alone. */
    method EnqueueHomeAssetCleanup(asset: nat, job: nat, now: nat)
      requires Valid() && job !in t.queue
      modifies this`t, this`leases
      ensures Valid() && t.sections == old(t.sections) && t.media == old(t.media)
      ensures forall a :: Queued(t, a) <==> Queued(old(t), a) || (a == asset && !Referenced(t, a))
      ensures forall j :: j in old(t.queue) ==> j in t.queue && t.queue[j] == old(t.queue)[j] && leases[j] == old(leases)[j]
      ensures forall j :: j in t.queue ==> j in old(t.queue) || j == job
    {
      QueueGrows(t, job, Unreferenced(t, Some(asset)), asset);
      if !Referenced(t, asset) && !Queued(t, asset) {
        ghost var before := t;
        forall a ensures Queued(t.(queue := t.queue[job := asset]), a) <==> Queued(t, a) || a == asset {
          QueueGrows(t, job, Some(asset), a);
        }
        t := t.(queue := t.queue[job := asset]);
        leases := leases[job := Lease(0, now, now)];
        SameRowsSameReferences(before, t, asset);
      }
    }

    /** Exactly the asset the upsert took out of its slot is queued, unless another row names it. */
    method UpsertHomeSection(slot: nat, asset: Option<nat>, job: nat, now: nat)
      requires Valid() && job !in t.queue
      modifies this`t, this`leases
      ensures Valid() && t.media == old(t.media)
      ensures t.sections == old(t.sections)[slot := Written(old(t), slot, asset)]
      ensures forall a :: Queued(t, a) <==> Queued(old(t), a) || (SectionHolds(old(t), slot, a) && !Referenced(t, a))
      ensures forall j :: j in t.queue ==> j in old(t.queue) || j == job
    {
      var previous := if slot in t.sections then t.sections[slot] else None;
      ghost var before := t;
      t := t.(sections := t.sections[slot := Written(t, slot, asset)]);
      assert forall a :: Queued(t, a) <==> Queued(before, a);
      if previous.Some? && previous != t.sections[slot] {
        EnqueueHomeAssetCleanup(previous.value, job, now);
      } else if previous.Some? {
        assert SectionHolds(t, slot, previous.value);
      }
    }

    method CreateHomeSectionMedia(media: nat, asset: nat) returns (error: Option<HomeError>)
      requires Valid() && media !in t.media
      modifies this`t
      ensures Valid() && t.sections == old(t.sections) && t.queue == old(t.queue)
      ensures error == if 4 !in old(t.sections) then Some(SectionNotFound)
                       else if |old(t.media)| >= MAX_MEDIA then Some(MediaLimit) else None
      ensures t.media == if error.None? then old(t.media)[media := asset] else old(t.media)
    {
      if 4 !in t.sections {
        return Some(SectionNotFound);
      }
      if |t.media| >= MAX_MEDIA {
        return Some(MediaLimit);
      }
      t := t.(media := t.media[media := asset]);
      return None;
    }

    method DeleteHomeSectionMedia(media: nat, job: nat, now: nat) returns (error: Option<HomeError>)
      requires Valid() && job !in t.queue
      modifies this`t, this`leases
      ensures Valid() && t.sections == old(t.sections) && t.media == old(t.media) - {media}
      ensures error == if media in old(t.media) then None else Some(MediaNotFound)
      ensures forall a :: Queued(t, a) <==> Queued(old(t), a) || (MediaHolds(old(t), media, a) && !Referenced(t, a))
    {
      if media !in t.media {
        return Some(MediaNotFound);
      }
      var asset := t.media[media];
      ghost var before := t;
      t := t.(media := t.media - {media});
      assert forall a :: Queued(t, a) <==> Queued(before, a);
      EnqueueHomeAssetCleanup(asset, job, now);
      return None;
    }

    // ---------- claims ----------

    predicate Claimable(job: nat, now: nat)
      reads this
      requires Valid()
    {
      job in t.queue && leases[job].due <= now && !Referenced(t, t.queue[job])
    }

    /**
     The first due jobs whose asset no row names, oldest due first, at most
     `limit` of them (10 when not positive, never over 100). Each gets a lease.
     */
    method ClaimHomeAssetCleanup(limit: int, retrySeconds: int, now: nat) returns (jobs: seq<CleanupJob>)
      requires Valid()
      modifies this`leases
      ensures Valid() && |jobs| <= BatchSize(limit)
      ensures forall i :: 0 <= i < |jobs| ==> old(Claimable(jobs[i].id, now)) && t.queue[jobs[i].id] == jobs[i].asset
      ensures forall i :: 0 <= i < |jobs| ==>
                jobs[i].id in old(leases) && jobs[i].attempts == old(leases)[jobs[i].id].attempts + 1
      ensures forall i, k :: 0 <= i < k < |jobs| ==> jobs[i].id != jobs[k].id && !Sooner(old(leases), jobs[k].id, jobs[i].id)
      ensures forall j :: j in t.queue && old(Claimable(j, now)) && j !in Ids(jobs) ==>
                |jobs| == BatchSize(limit) && forall i :: 0 <= i < |jobs| ==> !Sooner(old(leases), j, jobs[i].id)
      ensures forall j :: j in t.queue ==> leases[j] == if j in Ids(jobs)
                                                        then old(leases)[j].(attempts := old(leases)[j].attempts + 1,
                                                                             due := now + LeaseSeconds(retrySeconds))
                                                        else old(leases)[j]
    {
      var due := set j | j in t.queue && Claimable(j, now);
      var ids := PickSoonest(leases, due, BatchSize(limit));
      jobs := Jobs(ids, t.queue, leases);
      assert Ids(jobs) == ids;
      var seconds := LeaseSeconds(retrySeconds);
      leases := map j | j in leases :: if j in ids then Lease(leases[j].attempts + 1, now + seconds, leases[j].created) else leases[j];
    }

    method CompleteHomeAssetCleanup(job: nat)
      requires Valid()
      modifies this`t, this`leases
      ensures Valid() && t == old(t).(queue := old(t.queue) - {job}) && leases == old(leases) - {job}
    {
      t := t.(queue := t.queue - {job});
      leases := leases - {job};
    }
  }

  /** The rows returned by the claim, with the attempt now counted. */
  function Jobs(ids: seq<nat>, queue: map<nat, nat>, leases: map<nat, Lease>): seq<CleanupJob>
    requires forall i :: 0 <= i < |ids| ==> ids[i] in queue && ids[i] in leases
  {
    seq(|ids|, i requires 0 <= i < |ids| => CleanupJob(ids[i], queue[ids[i]], leases[ids[i]].attempts + 1))
  }

  function Ids(jobs: seq<CleanupJob>): seq<nat> {
    seq(|jobs|, i requires 0 <= i < |jobs| => jobs[i].id)
  }

  function BatchSize(limit: int): nat {
    if limit <= 0 then 10 else if limit > 100 then 100 else limit
  }

  function LeaseSeconds(retrySeconds: int): nat {
    if retrySeconds < 1 then 60 else retrySeconds
  }

  predicate Sooner(leases: map<nat, Lease>, a: nat, b: nat) {
    && a in leases && b in leases
    && (leases[a].due < leases[b].due || (leases[a].due == leases[b].due && leases[a].created < leases[b].created))
  }

  lemma {:induction false} SoonestExists(leases: map<nat, Lease>, left: set<nat>) returns (first: nat)
    requires left != {} && left <= leases.Keys
    ensures first in left && forall k :: k in left ==> !Sooner(leases, k, first)
    decreases left
  {
    first :| first in left;
    if left != {first} {
      var start := first;
      var other := SoonestExists(leases, left - {start});
      if Sooner(leases, other, start) { first := other; }
      forall k | k in left ensures !Sooner(leases, k, first) {
        assert k == start || !Sooner(leases, k, other);
      }
    }
  }

  /** ORDER BY ... LIMIT: the soonest, in order. */
  method PickSoonest(leases: map<nat, Lease>, due: set<nat>, limit: nat) returns (jobs: seq<nat>)
    requires due <= leases.Keys
    ensures |jobs| <= limit && forall i :: 0 <= i < |jobs| ==> jobs[i] in due
    ensures forall i, k :: 0 <= i < k < |jobs| ==> jobs[i] != jobs[k] && !Sooner(leases, jobs[k], jobs[i])
    ensures forall j :: j in due && j !in jobs ==> |jobs| == limit && forall i :: 0 <= i < |jobs| ==> !Sooner(leases, j, jobs[i])
  {
    var left := due;
    jobs := [];
    while |jobs| < limit && left != {}
      invariant |jobs| <= limit && left <= due
      invariant forall i :: 0 <= i < |jobs| ==> jobs[i] in due && jobs[i] !in left
      invariant forall j :: j in due ==> j in left || j in jobs
      invariant forall i, k :: 0 <= i < k < |jobs| ==> jobs[i] != jobs[k] && !Sooner(leases, jobs[k], jobs[i])
      invariant forall j, i :: j in left && 0 <= i < |jobs| ==> !Sooner(leases, j, jobs[i])
      decreases |left|
    {
      ghost var first := SoonestExists(leases, left);
      var next :| next in left && forall k :: k in left ==> !Sooner(leases, k, next);
      left := left - {next};
      jobs := jobs + [next];
    }
  }

  // ---------- the service ----------

  function FirstError(results: seq<Option<HomeError>>): Option<HomeError> {
    if results == [] then None
    else if FirstError(results[..|results| - 1]).Some? then FirstError(results[..|results| - 1])
    else results[|results| - 1]
  }

  lemma {:induction false} FirstErrorIsFirst(results: seq<Option<HomeError>>)
    ensures FirstError(results).None? <==> forall i :: 0 <= i < |results| ==> results[i].None?
    ensures FirstError(results).Some? ==>
              exists i :: 0 <= i < |results| && results[i] == FirstError(results) && forall k :: 0 <= k < i ==> results[k].None?
  {
    if results != [] {
      var front := results[..|results| - 1];
      FirstErrorIsFirst(front);
      if FirstError(front).Some? {
        var i :| 0 <= i < |front| && front[i] == FirstError(front) && forall k :: 0 <= k < i ==> front[k].None?;
        assert results[i] == front[i];
        assert forall k :: 0 <= k < i ==> results[k] == front[k];
      } else {
        assert forall k :: 0 <= k < |front| ==> results[k] == front[k];
      }
    }
  }

  lemma FirstErrorOfMore(results: seq<Option<HomeError>>, result: Option<HomeError>)
    ensures FirstError(results + [result]) == if FirstError(results).Some? then FirstError(results) else result
  {
    assert (results + [result])[..|results|] == results;
  }

  /** No row names a destroyed asset. */
  predicate Unnamed(t: Tables, gone: set<nat>) {
    forall a :: a in gone ==> !Referenced(t, a)
  }

  /** No row names a claimed asset, and the claimed rows that are left are still about the assets claimed. */
  predicate Held(t: Tables, gone: set<nat>, jobs: seq<CleanupJob>) {
    && Unnamed(t, gone)
    && forall i :: 0 <= i < |jobs| ==>
         !Referenced(t, jobs[i].asset) && (jobs[i].id in t.queue ==> t.queue[jobs[i].id] == jobs[i].asset)
  }

  /** Claimed rows come to be gone only when their asset is destroyed, and never come back. */
  predicate KeepsClaims(before: Tables, after: Tables, gone: set<nat>, gone': set<nat>, jobs: seq<CleanupJob>) {
    && gone <= gone' && Held(after, gone', jobs)
    && (forall i :: 0 <= i < |jobs| && jobs[i].id in after.queue ==> jobs[i].id in before.queue)
    && (forall i :: 0 <= i < |jobs| && jobs[i].id in before.queue && jobs[i].id !in after.queue ==> jobs[i].asset in gone')
  }

  predicate AreClaimed(s: State, jobs: seq<CleanupJob>) {
    forall i :: 0 <= i < |jobs| ==> jobs[i].asset in s.claimed && jobs[i].id in s.jobs
  }

  /** Every step of every session keeps the claims of a worker. */
  lemma StepsKeepClaims(s: State, step: Step, jobs: seq<CleanupJob>)
    requires Safe(s) && Enabled(s, step) && Held(s.t, s.destroyed, jobs) && AreClaimed(s, jobs)
    ensures KeepsClaims(s.t, Next(s, step).t, s.destroyed, Next(s, step).destroyed, jobs)
  {
    StepKeepsSafe(s, step);
    StepsStayClaimed(s, step, jobs);
    DestroyedStays(s, step);
    forall i | 0 <= i < |jobs|
      ensures var before, after := s.t.queue, Next(s, step).t.queue;
              && (jobs[i].id in after ==> jobs[i].id in before && after[jobs[i].id] == jobs[i].asset)
              && (jobs[i].id in before && jobs[i].id !in after ==> jobs[i].asset in Next(s, step).destroyed)
    {
      StepKeepsJob(s, step, jobs[i].id, jobs[i].asset);
    }
    SafeIsHeld(Next(s, step), jobs);
  }

  predicate HandsOut(step: Step, job: nat) {
    (step.Commit? || step.Enqueue?) && step.job == job
  }

  lemma QueuedUpLeavesJobFree(t: Tables, other: nat, asset: Option<nat>, job: nat)
    requires job !in t.queue && job != other
    ensures job !in QueuedUp(t, other, asset).queue
  {
  }

  lemma CommitLeavesJobFree(t: Tables, x: Tx, other: nat, job: nat)
    requires job !in t.queue && job != other
    ensures job !in Committed(t, x, other).queue
  {
    match x
    case SlotWritten(slot, a, _, enqueue) => QueuedUpLeavesJobFree(WithSection(t, slot, Written(t, slot, a)), other, enqueue, job);
    case MediaDeleted(media, _, enqueue) => QueuedUpLeavesJobFree(t.(media := t.media - {media}), other, enqueue, job);
    case _ =>
  }

  lemma StepLeavesJobFree(s: State, step: Step, job: nat)
    requires Enabled(s, step) && !HandsOut(step, job) && job !in s.t.queue
    ensures job !in Next(s, step).t.queue
  {
    if step.Commit? {
      CommitLeavesJobFree(s.t, s.txs[step.tx], step.job, job);
    } else if step.Enqueue? {
      QueuedUpLeavesJobFree(s.t, step.job, Unreferenced(s.t, Some(step.queued)), job);
    }
  }

  lemma CommitKeepsJob(t: Tables, x: Tx, other: nat, job: nat)
    requires job in t.queue && job != other
    ensures job in Committed(t, x, other).queue && Committed(t, x, other).queue[job] == t.queue[job]
  {
  }

  /** A row that has been handed out stays as it is, or goes because its asset is destroyed. */
  lemma StepKeepsJob(s: State, step: Step, job: nat, asset: nat)
    requires Safe(s) && Enabled(s, step) && job in s.jobs && (job in s.t.queue ==> s.t.queue[job] == asset)
    ensures var before, after := s.t.queue, Next(s, step).t.queue;
            && (job in after ==> job in before && after[job] == asset)
            && (job in before && job !in after ==> asset in s.destroyed)
  {
    if job !in s.t.queue {
      StepLeavesJobFree(s, step, job);
    } else if step.Commit? {
      CommitKeepsJob(s.t, s.txs[step.tx], step.job, job);
    } else {
      OtherStepsKeepJob(s, step, job);
    }
  }

  lemma SafeIsHeld(s: State, jobs: seq<CleanupJob>)
    requires Safe(s) && AreClaimed(s, jobs)
    requires forall i :: 0 <= i < |jobs| && jobs[i].id in s.t.queue ==> s.t.queue[jobs[i].id] == jobs[i].asset
    ensures Held(s.t, s.destroyed, jobs)
  {
    forall a | a in s.destroyed ensures !Referenced(s.t, a) {
      assert a in s.claimed;
    }
    forall i | 0 <= i < |jobs| ensures !Referenced(s.t, jobs[i].asset) {
      assert jobs[i].asset in s.claimed;
    }
  }

  lemma StepsStayClaimed(s: State, step: Step, jobs: seq<CleanupJob>)
    requires Enabled(s, step) && AreClaimed(s, jobs)
    ensures AreClaimed(Next(s, step), jobs)
  {
  }

  lemma KeepsCompose(a: Tables, b: Tables, c: Tables, gone: set<nat>, gone': set<nat>, gone'': set<nat>, jobs: seq<CleanupJob>)
    requires KeepsClaims(a, b, gone, gone', jobs) && KeepsClaims(b, c, gone', gone'', jobs)
    ensures KeepsClaims(a, c, gone, gone'', jobs)
  {
  }

  lemma RunStepKeepsClaims(states: seq<State>, steps: seq<Step>, k: nat, jobs: seq<CleanupJob>)
    requires IsRun(states, steps) && k < |steps|
    requires Held(states[k].t, states[k].destroyed, jobs) && AreClaimed(states[k], jobs)
    ensures KeepsClaims(states[k].t, states[k + 1].t, states[k].destroyed, states[k + 1].destroyed, jobs)
    ensures AreClaimed(states[k + 1], jobs)
  {
    EveryStateIsSafe(states, steps, k);
    assert StepAt(states, steps, k);
    StepsKeepClaims(states[k], steps[k], jobs);
    StepsStayClaimed(states[k], steps[k], jobs);
  }

  /** So does any stretch of a run. */
  lemma {:induction false} RunsKeepClaims(states: seq<State>, steps: seq<Step>, i: nat, j: nat, jobs: seq<CleanupJob>)
    requires IsRun(states, steps) && i <= j < |states|
    requires Held(states[i].t, states[i].destroyed, jobs) && AreClaimed(states[i], jobs)
    ensures KeepsClaims(states[i].t, states[j].t, states[i].destroyed, states[j].destroyed, jobs) && AreClaimed(states[j], jobs)
  {
    if i < j {
      RunsKeepClaims(states, steps, i, j - 1, jobs);
      RunStepKeepsClaims(states, steps, j - 1, jobs);
      KeepsCompose(states[i].t, states[j - 1].t, states[j].t, states[i].destroyed, states[j - 1].destroyed, states[j].destroyed, jobs);
    }
  }

  /** Any number of steps by other sessions. It changes nothing here; callers know of it only what it ensures. */
  method Interfere(store: HomeStore, jobs: seq<CleanupJob>)
    requires store.Valid() && Held(store.t, store.destroyed, jobs)
    modifies store
    ensures store.Valid() && KeepsClaims(old(store.t), store.t, old(store.destroyed), store.destroyed, jobs)
  {
  }

  /** One job: the provider's delete, then the row. Either may fail, and a completion may be done and not heard of. */
  method ProcessCleanupJob(store: HomeStore, jobs: seq<CleanupJob>, k: nat) returns (result: Option<HomeError>)
    requires store.Valid() && Held(store.t, store.destroyed, jobs) && k < |jobs|
    modifies store
    ensures store.Valid() && KeepsClaims(old(store.t), store.t, old(store.destroyed), store.destroyed, jobs)
    ensures result != Some(StorageFailed) ==> jobs[k].asset in store.destroyed
    ensures result.None? ==> jobs[k].id !in store.t.queue
  {
    Interfere(store, jobs);
    var destroyOk: bool, completed: Outcome := *, *;
    if !destroyOk {
      return Some(StorageFailed);
    }
    store.destroyed := store.destroyed + {jobs[k].asset};
    Interfere(store, jobs);
    if completed != NotDone {
      ghost var before := store.t;
      store.CompleteHomeAssetCleanup(jobs[k].id);
      forall a ensures Referenced(store.t, a) <==> Referenced(before, a) {
        SameRowsSameReferences(before, store.t, a);
      }
    }
    return if completed == Done then None else Some(DatabaseFailed);
  }

  /**
   `processCleanupBatch` among other sessions. A claimed job leaves the queue
   only after its asset is destroyed; a failed delete, or a completion that
   failed, leaves the row to be tried again. No row names an asset that is
   destroyed, then or afterwards. The error returned is the first there was.
   */
  method ProcessCleanupBatch(store: HomeStore, now: nat)
    returns (firstErr: Option<HomeError>, jobs: seq<CleanupJob>, ghost results: seq<Option<HomeError>>)
    requires store.Valid() && Unnamed(store.t, store.destroyed)
    modifies store
    ensures store.Valid() && KeepsClaims(old(store.t), store.t, old(store.destroyed), store.destroyed, jobs)
    ensures forall i :: 0 <= i < |jobs| ==> jobs[i].id in old(store.t.queue) && old(store.t.queue)[jobs[i].id] == jobs[i].asset
    ensures |results| == |jobs| && firstErr == FirstError(results) && Reported(store.t, store.destroyed, jobs, results)
  {
    ghost var before, gone := store.t, store.destroyed;
    jobs := store.ClaimHomeAssetCleanup(10, 60, now);
    firstErr, results := None, [];
    var i := 0;
    while i < |jobs|
      invariant 0 <= i <= |jobs| && store.Valid() && |results| == i
      invariant KeepsClaims(before, store.t, gone, store.destroyed, jobs)
      invariant firstErr == FirstError(results) && Reported(store.t, store.destroyed, jobs, results)
    {
      ghost var middle, middleGone := store.t, store.destroyed;
      var result := ProcessCleanupJob(store, jobs, i);
      FirstErrorOfMore(results, result);
      if result.Some? && firstErr.None? {
        firstErr := result;
      }
      ReportedExtends(middle, store.t, middleGone, store.destroyed, jobs, results, result);
      results := results + [result];
      i := i + 1;
    }
  }

  /** No error: the asset is destroyed and the row gone. An error of the database's: the asset is destroyed. */
  predicate Reported(t: Tables, gone: set<nat>, jobs: seq<CleanupJob>, results: seq<Option<HomeError>>) {
    && |results| <= |jobs|
    && (forall i :: 0 <= i < |results| ==> (results[i].None? ==> jobs[i].id !in t.queue))
    && (forall i :: 0 <= i < |results| ==> (results[i] != Some(StorageFailed) ==> jobs[i].asset in gone))
  }

  lemma ReportedExtends(middle: Tables, after: Tables, gone: set<nat>, gone': set<nat>, jobs: seq<CleanupJob>,
                        results: seq<Option<HomeError>>, result: Option<HomeError>)
    requires Reported(middle, gone, jobs, results) && |results| < |jobs| && KeepsClaims(middle, after, gone, gone', jobs)
    requires result.None? ==> jobs[|results|].id !in after.queue
    requires result != Some(StorageFailed) ==> jobs[|results|].asset in gone'
    ensures Reported(after, gone', jobs, results + [result])
  {
    forall i | 0 <= i < |results| ensures (results + [result])[i] == results[i] { }
  }

  // ---------- uploads whose write went unheard ----------

  predicate InHand(t: Tables, gone: set<nat>, asset: nat) {
    Referenced(t, asset) || Queued(t, asset) || asset in gone
  }

  lemma {:induction false} LostWithin(states: seq<State>, steps: seq<Step>, i: nat, j: nat, asset: nat) returns (k: nat)
    requires IsRun(states, steps) && i <= j < |states| && Accounted(states[i], asset) && !Accounted(states[j], asset)
    ensures i <= k < j && Accounted(states[k], asset) && !Accounted(states[k + 1], asset)
  {
    k := j - 1;
    if !Accounted(states[k], asset) {
      k := LostWithin(states, steps, i, k, asset);
    }
  }

  /** A stretch of a run loses no asset but what one of its commits loses unnoticed. */
  lemma RunsLoseOnlyUnnoticed(states: seq<State>, steps: seq<Step>, i: nat, j: nat, asset: nat)
    requires IsRun(states, steps) && i <= j < |states| && InHand(states[i].t, states[i].destroyed, asset)
    requires forall k :: i <= k < j && steps[k].Commit? ==> !LosesUnnoticed(states, steps, k, steps[k].tx, asset)
    ensures InHand(states[j].t, states[j].destroyed, asset)
  {
    if !Accounted(states[j], asset) {
      var k := LostWithin(states, steps, i, j, asset);
      LostExactlyWhenUnnoticed(states, steps, k, asset);
    }
  }

  /** A job ID that the others are not given does not appear in the queue. */
  lemma {:induction false} RunsLeaveJobFree(states: seq<State>, steps: seq<Step>, i: nat, j: nat, job: nat)
    requires IsRun(states, steps) && i <= j < |states| && job !in states[i].t.queue
    requires forall k :: i <= k < j ==> !HandsOut(steps[k], job)
    ensures job !in states[j].t.queue
  {
    if i < j {
      RunsLeaveJobFree(states, steps, i, j - 1, job);
      assert StepAt(states, steps, j - 1);
      StepLeavesJobFree(states[j - 1], steps[j - 1], job);
    }
  }

  /** Steps by other sessions, to one that holds a fresh job ID; `lost` is what their commits lose unnoticed. */
  method InterfereWithUpload(store: HomeStore, job: nat) returns (ghost lost: set<nat>)
    requires store.Valid()
    modifies store
    ensures store.Valid() && (job !in old(store.t.queue) ==> job !in store.t.queue)
    ensures forall a :: InHand(old(store.t), old(store.destroyed), a) && a !in lost ==> InHand(store.t, store.destroyed, a)
  {
    lost := {};
  }

  /**
   The end of the service's `Upsert` and `CreateMedia`, among other sessions:
   when the write of an uploaded asset is not heard of, the asset is queued
   unless a row names it by then. Only a failed enqueue can leave an unwritten
   upload behind, and only another session's commit can lose the image that the
   upload replaced.
   */
  method UpsertUploaded(store: HomeStore, slot: nat, asset: nat, job: nat, job': nat, now: nat)
    returns (error: Option<HomeError>, recorded: bool, ghost lost: set<nat>)
    requires store.Valid() && job !in store.t.queue && job' !in store.t.queue && job != job'
    requires !Referenced(store.t, asset)
    modifies store
    ensures store.Valid()
    ensures error.None? ==> SectionHolds(store.t, slot, asset) && lost == {} && store.destroyed == old(store.destroyed)
    ensures recorded ==> Referenced(store.t, asset) || Queued(store.t, asset)
    ensures error.None? ==> recorded
    ensures forall a :: SectionHolds(old(store.t), slot, a) && a != asset && a !in lost ==> InHand(store.t, store.destroyed, a)
    ensures error.None? ==>
              forall a :: SectionHolds(old(store.t), slot, a) && a != asset ==> Referenced(store.t, a) || Queued(store.t, a)
  {
    var outcome: Outcome := *;
    ghost var before := store.t;
    if outcome != NotDone {
      store.UpsertHomeSection(slot, Some(asset), job, now);
      assert SectionHolds(store.t, slot, asset);
    }
    assert forall a :: SectionHolds(before, slot, a) && a != asset ==> Referenced(store.t, a) || Queued(store.t, a);
    if outcome == Done {
      return None, true, {};
    }
    lost := InterfereWithUpload(store, job');
    var heard: bool := *;
    recorded := false;
    if heard {
      ghost var middle := store.t;
      store.EnqueueHomeAssetCleanup(asset, job', now);
      forall a ensures Referenced(middle, a) <==> Referenced(store.t, a) { SameRowsSameReferences(middle, store.t, a); }
      recorded := true;
    }
    return Some(DatabaseFailed), recorded, lost;
  }
}
