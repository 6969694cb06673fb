/**
 Home sections, their media and the asset cleanup queue
 (backend/internal/repository/postgres_home_sections.go,
 backend/internal/service/home_section_service.go), all sessions together.
 An upsert is three steps: it reads its slot's row, which locks the row only if
 there is one; it writes, deciding what to enqueue from what is committed then;
 it commits. The provider delete happens outside any transaction. Uploaded
 asset IDs are fresh, and each is meant for one row.
 */
module HomeAssets {
  import opened Wrappers

  /** `sections` by slot (an asset or none), `media` of slot 4 by ID, `queue` of assets by cleanup job. */
  datatype Tables = Tables(sections: map<nat, Option<nat>>, media: map<nat, nat>, queue: map<nat, nat>)

  datatype Tx =
    | SlotRead(slot: nat, asset: Option<nat>, row: Option<Option<nat>>)
    | SlotWritten(slot: nat, asset: Option<nat>, row: Option<Option<nat>>, enqueue: Option<nat>)
    | MediaInserted(media: nat, added: nat)
    | MediaDeleted(media: nat, taken: nat, enqueue: Option<nat>)

  datatype Claim = Claim(job: nat, asset: nat, destroyed: bool)

  /**
   `intended` are the assets already meant for a row, `owned` those a committed
   row has held, `claimed` those a cleanup worker has claimed, `jobs` the job
   IDs handed out: all from the start of the run.
   */
  datatype State = State(t: Tables, txs: map<nat, Tx>, workers: map<nat, Claim>, destroyed: set<nat>,
                         uploaded: set<nat>, intended: set<nat>, owned: set<nat>, claimed: set<nat>, jobs: set<nat>)

  datatype Step =
    | Upload(id: nat)
    | ReadSlot(tx: nat, slot: nat, asset: Option<nat>)
    | WriteSlot(tx: nat)
    | InsertMedia(tx: nat, media: nat, added: nat)
    | DeleteMedia(tx: nat, media: nat)
    | Commit(tx: nat, job: nat)
    | Drop(tx: nat)
    | Enqueue(job: nat, queued: nat)
    | ClaimJob(worker: nat, job: nat)
    | Destroy(worker: nat, ok: bool)
    | Complete(worker: nat)
    | Abandon(worker: nat)

  const MAX_MEDIA := 10

  // ---------- references and locks ----------

  predicate SectionHolds(t: Tables, slot: nat, asset: nat) {
    slot in t.sections && t.sections[slot] == Some(asset)
  }

  predicate MediaHolds(t: Tables, media: nat, asset: nat) {
    media in t.media && t.media[media] == asset
  }

  predicate Referenced(t: Tables, asset: nat) {
    (exists q :: q in t.sections && SectionHolds(t, q, asset)) || (exists m :: m in t.media && MediaHolds(t, m, asset))
  }

  predicate Queued(t: Tables, asset: nat) {
    exists j :: j in t.queue && t.queue[j] == asset
  }

  predicate HoldsSlot(x: Tx, slot: nat) {
    match x
    case SlotRead(q, _, row) => q == slot && row.Some?
    case SlotWritten(q, _, _, _) => q == slot
    case MediaInserted(_, _) => slot == 4
    case MediaDeleted(_, _, _) => false
  }

  predicate SlotFree(s: State, slot: nat) {
    forall x :: x in s.txs ==> !HoldsSlot(s.txs[x], slot)
  }

  predicate MediaFree(s: State, media: nat) {
    forall x :: x in s.txs && (s.txs[x].MediaInserted? || s.txs[x].MediaDeleted?) ==> s.txs[x].media != media
  }

  // ---------- the steps ----------

  /** The slot's asset after the upsert: an upsert without an image keeps what is there. */
  function Written(t: Tables, slot: nat, asset: Option<nat>): Option<nat> {
    if asset.Some? then asset else if slot in t.sections then t.sections[slot] else None
  }

  function WithSection(t: Tables, slot: nat, asset: Option<nat>): Tables {
    t.(sections := t.sections[slot := asset])
  }

  /** The guarded insert: nothing that is still referenced is enqueued. */
  function Unreferenced(t: Tables, asset: Option<nat>): Option<nat> {
    if asset.Some? && !Referenced(t, asset.value) then asset else None
  }

  function QueuedUp(t: Tables, job: nat, asset: Option<nat>): Tables {
    if asset.Some? && !Queued(t, asset.value) then t.(queue := t.queue[job := asset.value]) else t
  }

  /** What an upsert decides to enqueue: the asset it read, if it is replaced and nothing committed still names it. */
  function UpsertEnqueues(t: Tables, slot: nat, asset: Option<nat>, row: Option<Option<nat>>): Option<nat> {
    if row.Some? && row.value != Written(t, slot, asset)
    then Unreferenced(WithSection(t, slot, Written(t, slot, asset)), row.value)
    else None
  }

  predicate Fresh(s: State, asset: nat) {
    asset in s.uploaded && asset !in s.intended
  }

  predicate NewAsset(x: Tx, asset: nat) {
    match x
    case SlotRead(_, a, _) => a == Some(asset)
    case SlotWritten(_, a, _, _) => a == Some(asset)
    case MediaInserted(_, a) => a == asset
    case MediaDeleted(_, _, _) => false
  }

  predicate Enabled(s: State, step: Step) {
    match step
    case Upload(asset) => asset !in s.uploaded && asset !in s.intended && asset !in s.owned
    case ReadSlot(x, slot, asset) => x !in s.txs && (slot in s.t.sections ==> SlotFree(s, slot)) && (asset.Some? ==> Fresh(s, asset.value))
    case WriteSlot(x) =>
      x in s.txs && s.txs[x].SlotRead? && (s.txs[x].row.None? ==> SlotFree(s, s.txs[x].slot))
    case InsertMedia(x, media, asset) =>
      && x !in s.txs && 4 in s.t.sections && SlotFree(s, 4) && |s.t.media| < MAX_MEDIA
      && media !in s.t.media && MediaFree(s, media) && Fresh(s, asset)
    case DeleteMedia(x, media) => x !in s.txs && media in s.t.media && MediaFree(s, media)
    case Commit(x, job) =>
      && x in s.txs && !s.txs[x].SlotRead? && job !in s.jobs
      // an unheard commit lands, if at all, before its asset is first claimed
      && forall a :: a in s.claimed ==> !NewAsset(s.txs[x], a)
    case Drop(x) => x in s.txs
    case Enqueue(job, asset) => job !in s.jobs && asset in s.uploaded
    case ClaimJob(w, job) => w !in s.workers && job in s.t.queue && !Referenced(s.t, s.t.queue[job])
    case Destroy(w, _) => w in s.workers && !s.workers[w].destroyed
    case Complete(w) => w in s.workers && s.workers[w].destroyed
    case Abandon(w) => w in s.workers
  }

  function Committed(t: Tables, x: Tx, job: nat): Tables {
    match x
    case SlotRead(_, _, _) => t
    case SlotWritten(slot, asset, _, enqueue) => QueuedUp(WithSection(t, slot, Written(t, slot, asset)), job, enqueue)
    case MediaInserted(media, asset) => t.(media := t.media[media := asset])
    case MediaDeleted(media, _, enqueue) => QueuedUp(t.(media := t.media - {media}), job, enqueue)
  }

  function Added(x: Tx): set<nat> {
    match x
    case SlotRead(_, _, _) => {}
    case SlotWritten(_, asset, _, _) => if asset.Some? then {asset.value} else {}
    case MediaInserted(_, asset) => {asset}
    case MediaDeleted(_, _, _) => {}
  }

  function Opened(s: State, x: nat, tx: Tx, asset: Option<nat>): State {
    s.(txs := s.txs[x := tx], intended := if asset.Some? then s.intended + {asset.value} else s.intended)
  }

  function Next(s: State, step: Step): State
    requires Enabled(s, step)
  {
    match step
    case Upload(asset) => s.(uploaded := s.uploaded + {asset})
    case ReadSlot(x, slot, asset) =>
      Opened(s, x, SlotRead(slot, asset, if slot in s.t.sections then Some(s.t.sections[slot]) else None), asset)
    case WriteSlot(x) =>
      var r := s.txs[x];
      s.(txs := s.txs[x := SlotWritten(r.slot, r.asset, r.row, UpsertEnqueues(s.t, r.slot, r.asset, r.row))])
    case InsertMedia(x, media, asset) => Opened(s, x, MediaInserted(media, asset), Some(asset))
    case DeleteMedia(x, media) =>
      var enqueue := Unreferenced(s.t.(media := s.t.media - {media}), Some(s.t.media[media]));
      Opened(s, x, MediaDeleted(media, s.t.media[media], enqueue), None)
    case Commit(x, job) =>
      s.(t := Committed(s.t, s.txs[x], job), txs := s.txs - {x}, owned := s.owned + Added(s.txs[x]), jobs := s.jobs + {job})
    case Drop(x) => s.(txs := s.txs - {x})
    case Enqueue(job, asset) => s.(t := QueuedUp(s.t, job, Unreferenced(s.t, Some(asset))), jobs := s.jobs + {job})
    case ClaimJob(w, job) =>
      s.(workers := s.workers[w := Claim(job, s.t.queue[job], false)], claimed := s.claimed + {s.t.queue[job]})
    case Destroy(w, ok) =>
      if ok then s.(workers := s.workers[w := s.workers[w].(destroyed := true)], destroyed := s.destroyed + {s.workers[w].asset})
      else s.(workers := s.workers - {w})
    case Complete(w) => s.(t := s.t.(queue := s.t.queue - {s.workers[w].job}), workers := s.workers - {w})
    case Abandon(w) => s.(workers := s.workers - {w})
  }

  // ---------- what every step keeps ----------

  predicate ClaimValid(s: State, c: Claim) {
    && c.asset in s.claimed && c.job in s.jobs
    && (c.job in s.t.queue ==> s.t.queue[c.job] == c.asset)
    && (c.destroyed ==> c.asset in s.destroyed)
  }

  /** A lock holder's view of its row is what is committed. */
  predicate TxValid(t: Tables, x: Tx) {
    match x
    case SlotRead(slot, _, row) => row.Some? ==> slot in t.sections && t.sections[slot] == row.value
    case SlotWritten(slot, _, row, _) => row.Some? ==> slot in t.sections && t.sections[slot] == row.value
    case MediaInserted(media, _) => media !in t.media && 4 in t.sections && |t.media| < MAX_MEDIA
    case MediaDeleted(media, taken, _) => MediaHolds(t, media, taken)
  }

  ghost predicate LocksExclusive(s: State) {
    && (forall x, y, slot :: x in s.txs && y in s.txs && HoldsSlot(s.txs[x], slot) && HoldsSlot(s.txs[y], slot) ==> x == y)
    && (forall x, y :: x in s.txs && y in s.txs && OnMedia(s.txs[x]) && OnMedia(s.txs[y]) && s.txs[x].media == s.txs[y].media ==> x == y)
  }

  predicate OnMedia(x: Tx) {
    x.MediaInserted? || x.MediaDeleted?
  }

  ghost predicate Safe(s: State) {
    && (forall a {:trigger Referenced(s.t, a)} :: a in s.claimed ==> !Referenced(s.t, a))
    && s.destroyed <= s.claimed
    && (forall w {:trigger s.workers[w]} :: w in s.workers ==> ClaimValid(s, s.workers[w]))
    && (forall j :: j in s.t.queue ==> j in s.jobs)
  }

  ghost predicate Sound(s: State) {
    && (forall x {:trigger s.txs[x]} :: x in s.txs ==> TxValid(s.t, s.txs[x]))
    && LocksExclusive(s)
    && |s.t.media| <= MAX_MEDIA
  }

  /** A commit adds no reference but to the asset it brings. */
  lemma CommitReferences(t: Tables, x: Tx, job: nat, asset: nat)
    requires Referenced(Committed(t, x, job), asset)
    ensures Referenced(t, asset) || NewAsset(x, asset)
  {
    var t' := Committed(t, x, job);
    if q :| q in t'.sections && SectionHolds(t', q, asset) {
      if q in t.sections && SectionHolds(t, q, asset) { } else { assert x.SlotWritten? && x.slot == q; }
    } else {
      var m :| m in t'.media && MediaHolds(t', m, asset);
      if m in t.media && MediaHolds(t, m, asset) { } else { assert x.MediaInserted? && x.media == m; }
    }
  }

  lemma SameRowsSameReferences(t: Tables, t': Tables, asset: nat)
    requires t'.sections == t.sections && t'.media == t.media
    ensures Referenced(t', asset) <==> Referenced(t, asset)
  {
    assert forall q :: SectionHolds(t, q, asset) <==> SectionHolds(t', q, asset);
    assert forall m :: MediaHolds(t, m, asset) <==> MediaHolds(t', m, asset);
  }

  lemma ClaimedStayUnreferenced(s: State, step: Step, a: nat)
    requires Safe(s) && Enabled(s, step) && a in Next(s, step).claimed
    ensures !Referenced(Next(s, step).t, a)
  {
    var s' := Next(s, step);
    if step.Commit? {
      if Referenced(s'.t, a) { CommitReferences(s.t, s.txs[step.tx], step.job, a); }
    } else {
      SameRowsSameReferences(s.t, s'.t, a);
    }
  }

  lemma StepKeepsSafe(s: State, step: Step)
    requires Safe(s) && Enabled(s, step)
    ensures Safe(Next(s, step))
  {
    var s' := Next(s, step);
    forall a {:trigger Referenced(s'.t, a)} | a in s'.claimed ensures !Referenced(s'.t, a) {
      ClaimedStayUnreferenced(s, step, a);
    }
    forall w | w in s'.workers ensures ClaimValid(s', s'.workers[w]) {
      assert w in s.workers ==> ClaimValid(s, s.workers[w]);
    }
  }

  lemma LocksStayExclusive(s: State, step: Step)
    requires LocksExclusive(s) && Enabled(s, step)
    ensures LocksExclusive(Next(s, step))
  {
  }

  /** Only the holder of a row's lock changes the row. */
  lemma CommitKeepsOtherTxs(s: State, x: nat, job: nat, y: nat)
    requires Sound(s) && Enabled(s, Commit(x, job)) && y in s.txs && y != x
    ensures TxValid(Next(s, Commit(x, job)).t, s.txs[y])
  {
    var a, b := s.txs[x], s.txs[y];
    assert TxValid(s.t, a) && TxValid(s.t, b);
    if a.SlotWritten? { assert HoldsSlot(a, a.slot); }
    if b.SlotRead? || b.SlotWritten? { assert b.row.Some? ==> HoldsSlot(b, b.slot); }
    if a.MediaInserted? { assert HoldsSlot(a, 4); }
    if b.MediaInserted? { assert HoldsSlot(b, 4); }
  }

  lemma StepKeepsSound(s: State, step: Step)
    requires Sound(s) && Enabled(s, step)
    ensures Sound(Next(s, step))
  {
    var s' := Next(s, step);
    LocksStayExclusive(s, step);
    forall x | x in s'.txs ensures TxValid(s'.t, s'.txs[x]) {
      assert x in s.txs ==> TxValid(s.t, s.txs[x]);
      if step.Commit? { CommitKeepsOtherTxs(s, step.tx, step.job, x); }
    }
    if step.Commit? {
      assert TxValid(s.t, s.txs[step.tx]);
      MediaCount(s.t, s.txs[step.tx], step.job);
    }
  }

  lemma MediaCount(t: Tables, x: Tx, job: nat)
    requires TxValid(t, x) && |t.media| <= MAX_MEDIA
    ensures |Committed(t, x, job).media| <= MAX_MEDIA
  {
    if x.MediaDeleted? {
      assert (t.media - {x.media}).Keys == t.media.Keys - {x.media};
    }
  }

  // ---------- one owner for each asset ----------

  ghost predicate DistinctRows(t: Tables) {
    && (forall p, q, a :: SectionHolds(t, p, a) && SectionHolds(t, q, a) ==> p == q)
    && (forall m, n, a :: MediaHolds(t, m, a) && MediaHolds(t, n, a) ==> m == n)
    && (forall q, m, a :: SectionHolds(t, q, a) ==> !MediaHolds(t, m, a))
  }

  /** What an open transaction decided to enqueue is the asset its commit takes out of its row. */
  predicate Decided(t: Tables, x: Tx) {
    match x
    case SlotWritten(slot, asset, row, enqueue) =>
      enqueue == if row.Some? && asset.Some? then row.value else None
    case MediaDeleted(media, _, enqueue) => media in t.media && enqueue == Some(t.media[media])
    case _ => true
  }

  predicate NewTo(s: State, x: Tx) {
    forall a :: a in Brought(x) ==> a in s.intended && a !in s.owned
  }

  function Brought(x: Tx): set<nat> {
    match x
    case SlotRead(_, asset, _) => if asset.Some? then {asset.value} else {}
    case SlotWritten(_, asset, _, _) => if asset.Some? then {asset.value} else {}
    case MediaInserted(_, asset) => {asset}
    case MediaDeleted(_, _, _) => {}
  }

  ghost predicate OneOwner(s: State) {
    && DistinctRows(s.t)
    && (forall q, a :: SectionHolds(s.t, q, a) ==> a in s.owned)
    && (forall m, a :: MediaHolds(s.t, m, a) ==> a in s.owned)
    && s.owned <= s.intended
    && (forall x {:trigger s.txs[x]} :: x in s.txs ==> NewTo(s, s.txs[x]) && Decided(s.t, s.txs[x]))
    && (forall x, y, a :: x in s.txs && y in s.txs && a in Brought(s.txs[x]) && a in Brought(s.txs[y]) ==> x == y)
  }

  lemma WriteDecides(s: State, x: nat)
    requires Sound(s) && OneOwner(s) && Enabled(s, WriteSlot(x))
    ensures Decided(s.t, Next(s, WriteSlot(x)).txs[x])
  {
    var r := s.txs[x];
    assert TxValid(s.t, r);
    if r.row.Some? && r.row.value.Some? && r.asset.Some? {
      var p, t' := r.row.value.value, WithSection(s.t, r.slot, r.asset);
      assert r.asset.value in Brought(r);
      assert SectionHolds(s.t, r.slot, p);
      forall q | q in t'.sections ensures !SectionHolds(t', q, p) {
        if q != r.slot { assert SectionHolds(t', q, p) ==> SectionHolds(s.t, q, p); }
      }
      forall m ensures !MediaHolds(t', m, p) {
        assert MediaHolds(t', m, p) ==> MediaHolds(s.t, m, p);
      }
    }
  }

  lemma DeleteDecides(s: State, x: nat, media: nat)
    requires OneOwner(s) && Enabled(s, DeleteMedia(x, media))
    ensures Decided(s.t, Next(s, DeleteMedia(x, media)).txs[x])
  {
    var p, t' := s.t.media[media], s.t.(media := s.t.media - {media});
    assert MediaHolds(s.t, media, p);
    forall q ensures !SectionHolds(t', q, p) {
      assert SectionHolds(t', q, p) ==> SectionHolds(s.t, q, p);
    }
    forall m ensures !MediaHolds(t', m, p) {
      assert MediaHolds(t', m, p) ==> MediaHolds(s.t, m, p) && m != media;
    }
  }

  lemma CommitKeepsDistinctRows(s: State, x: nat, job: nat)
    requires Sound(s) && OneOwner(s) && Enabled(s, Commit(x, job))
    ensures var s' := Next(s, Commit(x, job));
            && DistinctRows(s'.t)
            && (forall q, a :: SectionHolds(s'.t, q, a) ==> a in s'.owned)
            && (forall m, a :: MediaHolds(s'.t, m, a) ==> a in s'.owned)
  {
    var y, s' := s.txs[x], Next(s, Commit(x, job));
    assert NewTo(s, y) && TxValid(s.t, y);
    forall q: nat, a: nat | SectionHolds(s'.t, q, a)
      ensures SectionHolds(s.t, q, a) || (y.SlotWritten? && q == y.slot && y.asset == Some(a) && a !in s.owned)
    {
      if y.SlotWritten? && y.asset.Some? { assert y.asset.value in Brought(y); }
    }
    forall m: nat, a: nat | MediaHolds(s'.t, m, a)
      ensures MediaHolds(s.t, m, a) || (y.MediaInserted? && m == y.media && y.added == a && a !in s.owned)
    {
      if y.MediaInserted? { assert y.added in Brought(y); }
    }
  }

  lemma CommitKeepsDecisions(s: State, x: nat, job: nat, y: nat)
    requires Sound(s) && OneOwner(s) && Enabled(s, Commit(x, job)) && y in s.txs && y != x
    ensures NewTo(Next(s, Commit(x, job)), s.txs[y]) && Decided(Next(s, Commit(x, job)).t, s.txs[y])
  {
    var a, b := s.txs[x], s.txs[y];
    assert NewTo(s, b) && Decided(s.t, b) && NewTo(s, a);
    forall asset | asset in Brought(b) ensures asset !in Added(a) {
      assert Added(a) <= Brought(a);
    }
    assert TxValid(s.t, a);
    if b.MediaDeleted? && a.MediaDeleted? { assert OnMedia(a) && OnMedia(b); }
  }

  lemma OpeningKeepsOneOwner(s: State, step: Step)
    requires Sound(s) && OneOwner(s) && Enabled(s, step)
    requires step.ReadSlot? || step.WriteSlot? || step.InsertMedia? || step.DeleteMedia?
    ensures OneOwner(Next(s, step))
  {
    var s' := Next(s, step);
    if step.WriteSlot? { WriteDecides(s, step.tx); }
    if step.DeleteMedia? { DeleteDecides(s, step.tx, step.media); }
    forall x | x in s'.txs ensures NewTo(s', s'.txs[x]) && Decided(s'.t, s'.txs[x]) {
      assert x in s.txs ==> NewTo(s, s.txs[x]) && Decided(s.t, s.txs[x]);
    }
    forall x, y, a | x in s'.txs && y in s'.txs && a in Brought(s'.txs[x]) && a in Brought(s'.txs[y]) ensures x == y {
      assert x in s.txs ==> NewTo(s, s.txs[x]);
      assert y in s.txs ==> NewTo(s, s.txs[y]);
    }
  }

  lemma StepKeepsOneOwner(s: State, step: Step)
    requires Sound(s) && OneOwner(s) && Enabled(s, step)
    ensures OneOwner(Next(s, step))
  {
    var s' := Next(s, step);
    if step.Commit? {
      CommitKeepsDistinctRows(s, step.tx, step.job);
      forall x | x in s'.txs ensures NewTo(s', s'.txs[x]) && Decided(s'.t, s'.txs[x]) {
        CommitKeepsDecisions(s, step.tx, step.job, x);
      }
      assert NewTo(s, s.txs[step.tx]) && Added(s.txs[step.tx]) <= Brought(s.txs[step.tx]);
    } else if step.ReadSlot? || step.WriteSlot? || step.InsertMedia? || step.DeleteMedia? {
      OpeningKeepsOneOwner(s, step);
    } else {
      OtherStepsKeepOneOwner(s, step);
    }
  }

  lemma OtherStepsKeepOneOwner(s: State, step: Step)
    requires OneOwner(s) && Enabled(s, step)
    requires !step.Commit? && !step.ReadSlot? && !step.WriteSlot? && !step.InsertMedia? && !step.DeleteMedia?
    ensures OneOwner(Next(s, step))
  {
    var s' := Next(s, step);
    assert forall q, a :: SectionHolds(s'.t, q, a) <==> SectionHolds(s.t, q, a);
    assert forall m, a :: MediaHolds(s'.t, m, a) <==> MediaHolds(s.t, m, a);
    forall x | x in s'.txs ensures NewTo(s', s'.txs[x]) && Decided(s'.t, s'.txs[x]) {
      assert NewTo(s, s.txs[x]) && Decided(s.t, s.txs[x]);
    }
  }

  // ---------- what becomes of an asset ----------

  /** Still named by a row, waiting in the queue, or destroyed. */
  predicate Accounted(s: State, asset: nat) {
    Referenced(s.t, asset) || Queued(s.t, asset) || asset in s.destroyed
  }

  /** An upsert that found no row commits its image over the image of a row that has appeared since, and nothing queued that. */
  predicate RacingFirstWrite(s: State, x: nat, lost: nat) {
    && x in s.txs && s.txs[x].SlotWritten? && s.txs[x].row.None? && s.txs[x].asset.Some?
    && SectionHolds(s.t, s.txs[x].slot, lost) && !Queued(s.t, lost)
  }

  lemma QueueGrows(t: Tables, job: nat, added: Option<nat>, asset: nat)
    requires job !in t.queue
    ensures Queued(QueuedUp(t, job, added), asset) <==> Queued(t, asset) || added == Some(asset)
  {
    var t' := QueuedUp(t, job, added);
    if Queued(t, asset) {
      var j :| j in t.queue && t.queue[j] == asset;
      assert j in t'.queue && t'.queue[j] == asset;
    } else if added == Some(asset) {
      assert job in t'.queue && t'.queue[job] == asset;
    }
    assert forall j :: j in t'.queue ==> j == job || j in t.queue;
  }

  lemma CommitQueues(t: Tables, x: Tx, job: nat, asset: nat)
    requires job !in t.queue
    ensures Queued(Committed(t, x, job), asset) <==>
              Queued(t, asset) || ((x.SlotWritten? || x.MediaDeleted?) && x.enqueue == Some(asset))
  {
    match x
    case SlotWritten(slot, a, _, enqueue) => QueueGrows(WithSection(t, slot, Written(t, slot, a)), job, enqueue, asset);
    case MediaDeleted(media, _, enqueue) => QueueGrows(t.(media := t.media - {media}), job, enqueue, asset);
    case _ =>
  }

  /** The commit takes the asset out of the transaction's own row. */
  predicate TakesOut(t: Tables, x: Tx, asset: nat) {
    || (x.SlotWritten? && SectionHolds(t, x.slot, asset) && Written(t, x.slot, x.asset) != Some(asset))
    || (x.MediaDeleted? && MediaHolds(t, x.media, asset))
  }

  ghost predicate NoOtherRowNames(t: Tables, x: Tx, asset: nat) {
    && (forall q :: SectionHolds(t, q, asset) ==> x.SlotWritten? && q == x.slot)
    && (forall m :: MediaHolds(t, m, asset) ==> x.MediaDeleted? && m == x.media)
  }

  /** The last row to name the asset gives it up, it is not queued, and the transaction did not decide to queue it. */
  ghost predicate LosingCommit(s: State, x: nat, asset: nat) {
    && x in s.txs && TakesOut(s.t, s.txs[x], asset) && NoOtherRowNames(s.t, s.txs[x], asset)
    && !Queued(s.t, asset) && s.txs[x].enqueue != Some(asset)
  }

  lemma CommitKeepsOtherSection(t: Tables, x: Tx, job: nat, asset: nat, slot: nat)
    requires SectionHolds(t, slot, asset) && !SectionHolds(Committed(t, x, job), slot, asset)
    ensures x.SlotWritten? && slot == x.slot && Written(t, x.slot, x.asset) != Some(asset)
  {
  }

  lemma CommitKeepsOtherMedium(t: Tables, x: Tx, job: nat, asset: nat, media: nat)
    requires TxValid(t, x) && MediaHolds(t, media, asset) && !MediaHolds(Committed(t, x, job), media, asset)
    ensures x.MediaDeleted? && media == x.media
  {
  }

  lemma CommitKeepsOtherRows(t: Tables, x: Tx, job: nat, asset: nat)
    requires TxValid(t, x) && Referenced(t, asset) && !Referenced(Committed(t, x, job), asset)
    ensures TakesOut(t, x, asset) && NoOtherRowNames(t, x, asset)
  {
    var t' := Committed(t, x, job);
    forall q: nat | SectionHolds(t, q, asset) ensures x.SlotWritten? && q == x.slot && Written(t, x.slot, x.asset) != Some(asset) {
      assert !SectionHolds(t', q, asset);
      CommitKeepsOtherSection(t, x, job, asset, q);
    }
    forall m: nat | MediaHolds(t, m, asset) ensures x.MediaDeleted? && m == x.media {
      assert !MediaHolds(t', m, asset);
      CommitKeepsOtherMedium(t, x, job, asset, m);
    }
  }

  lemma CommitGivesUp(t: Tables, x: Tx, job: nat, asset: nat)
    requires TakesOut(t, x, asset) && NoOtherRowNames(t, x, asset)
    ensures !Referenced(Committed(t, x, job), asset)
  {
    var t' := Committed(t, x, job);
    forall q: nat ensures !SectionHolds(t', q, asset) {
      assert SectionHolds(t', q, asset) ==> SectionHolds(t, q, asset);
    }
    forall m: nat ensures !MediaHolds(t', m, asset) {
      assert MediaHolds(t', m, asset) ==> MediaHolds(t, m, asset);
    }
  }

  lemma TakenOutIsReferenced(t: Tables, x: Tx, asset: nat)
    requires TakesOut(t, x, asset)
    ensures Referenced(t, asset)
  {
    if x.SlotWritten? { assert SectionHolds(t, x.slot, asset); } else { assert MediaHolds(t, x.media, asset); }
  }

  lemma CommitLosesExactly(s: State, x: nat, job: nat, asset: nat)
    requires Safe(s) && Sound(s) && Enabled(s, Commit(x, job)) && Accounted(s, asset)
    ensures !Accounted(Next(s, Commit(x, job)), asset) <==> LosingCommit(s, x, asset)
  {
    var y, t' := s.txs[x], Next(s, Commit(x, job)).t;
    CommitQueues(s.t, y, job, asset);
    assert TxValid(s.t, y);
    if LosingCommit(s, x, asset) {
      CommitGivesUp(s.t, y, job, asset);
      TakenOutIsReferenced(s.t, y, asset);
    } else if Referenced(s.t, asset) && !Referenced(t', asset) {
      CommitKeepsOtherRows(s.t, y, job, asset);
    }
  }

  lemma QueuedUpKeepsRows(t: Tables, job: nat, asset: Option<nat>)
    ensures QueuedUp(t, job, asset).sections == t.sections && QueuedUp(t, job, asset).media == t.media
  {
  }

  lemma OtherStepsKeepRows(s: State, step: Step)
    requires Enabled(s, step) && !step.Commit?
    ensures Next(s, step).t.sections == s.t.sections && Next(s, step).t.media == s.t.media
  {
    if step.Enqueue? {
      QueuedUpKeepsRows(s.t, step.job, Unreferenced(s.t, Some(step.queued)));
    }
  }

  lemma DestroyedStays(s: State, step: Step)
    requires Enabled(s, step)
    ensures s.destroyed <= Next(s, step).destroyed
  {
  }

  /** A job leaves the queue only once its asset is destroyed. */
  lemma OtherStepsKeepJob(s: State, step: Step, job: nat)
    requires Safe(s) && Enabled(s, step) && !step.Commit? && job in s.t.queue
    ensures var s' := Next(s, step);
            (job in s'.t.queue && s'.t.queue[job] == s.t.queue[job]) || s.t.queue[job] in s.destroyed
  {
    if step.Complete? {
      assert ClaimValid(s, s.workers[step.worker]);
    }
  }

  lemma OtherStepsLoseNothing(s: State, step: Step, asset: nat)
    requires Safe(s) && Enabled(s, step) && !step.Commit? && Accounted(s, asset)
    ensures Accounted(Next(s, step), asset)
  {
    OtherStepsKeepRows(s, step);
    DestroyedStays(s, step);
    SameRowsSameReferences(s.t, Next(s, step).t, asset);
    if Queued(s.t, asset) {
      var j :| j in s.t.queue && s.t.queue[j] == asset;
      OtherStepsKeepJob(s, step, j);
    }
  }

  /**
   The exact condition, whatever rows share assets: an asset that was named,
   queued or destroyed stops being so exactly when a commit takes it out of the
   last row that names it without queueing it.
   */
  lemma LostExactlyByLosingCommit(s: State, step: Step, asset: nat)
    requires Safe(s) && Sound(s) && Enabled(s, step) && Accounted(s, asset)
    ensures !Accounted(Next(s, step), asset) <==> step.Commit? && LosingCommit(s, step.tx, asset)
  {
    if step.Commit? {
      CommitLosesExactly(s, step.tx, step.job, asset);
    } else {
      OtherStepsLoseNothing(s, step, asset);
    }
  }

  /** Where each asset has one row, that is exactly the racing first write. */
  lemma LostExactlyByRacingFirstWrite(s: State, step: Step, asset: nat)
    requires Safe(s) && Sound(s) && OneOwner(s) && Enabled(s, step) && Accounted(s, asset)
    ensures !Accounted(Next(s, step), asset) <==> step.Commit? && RacingFirstWrite(s, step.tx, asset)
  {
    LostExactlyByLosingCommit(s, step, asset);
    if step.Commit? {
      var y := s.txs[step.tx];
      assert Decided(s.t, y) && TxValid(s.t, y) && NewTo(s, y);
      if RacingFirstWrite(s, step.tx, asset) { assert y.asset.value in Brought(y); }
    }
  }

  // ---------- whole runs ----------

  ghost predicate Starts(s: State) {
    && s.txs == map[] && s.workers == map[] && s.destroyed == {} && s.claimed == {}
    && s.owned <= s.intended
    && (forall q, a :: SectionHolds(s.t, q, a) ==> a in s.owned)
    && (forall m, a :: MediaHolds(s.t, m, a) ==> a in s.owned)
    && (forall j :: j in s.t.queue ==> j in s.jobs)
    && |s.t.media| <= MAX_MEDIA
  }

  predicate StepAt(states: seq<State>, steps: seq<Step>, i: nat)
    requires i < |steps| < |states|
  {
    Enabled(states[i], steps[i]) && states[i + 1] == Next(states[i], steps[i])
  }

  ghost predicate IsRun(states: seq<State>, steps: seq<Step>) {
    && |states| == |steps| + 1 && Starts(states[0])
    && forall i {:trigger StepAt(states, steps, i)} :: 0 <= i < |steps| ==> StepAt(states, steps, i)
  }

  lemma {:induction false} EveryStateIsSafe(states: seq<State>, steps: seq<Step>, i: nat)
    requires IsRun(states, steps) && i < |states|
    ensures Safe(states[i]) && Sound(states[i])
    ensures DistinctRows(states[0].t) ==> OneOwner(states[i])
  {
    if i > 0 {
      assert StepAt(states, steps, i - 1);
      EveryStateIsSafe(states, steps, i - 1);
      StepKeepsSafe(states[i - 1], steps[i - 1]);
      StepKeepsSound(states[i - 1], steps[i - 1]);
      if DistinctRows(states[0].t) { StepKeepsOneOwner(states[i - 1], steps[i - 1]); }
    }
  }

  /**
   No asset is ever destroyed while a row names it, and none that is being
   destroyed comes to be named: whatever rows the run starts from, shared
   assets included. There are never more than ten media.
   */
  lemma NeverDestroyedWhileReferenced(states: seq<State>, steps: seq<Step>, i: nat, asset: nat)
    requires IsRun(states, steps) && i < |states| && Referenced(states[i].t, asset)
    ensures asset !in states[i].destroyed
    ensures forall w :: w in states[i].workers ==> states[i].workers[w].asset != asset
    ensures |states[i].t.media| <= 10
  {
    EveryStateIsSafe(states, steps, i);
    forall w | w in states[i].workers ensures states[i].workers[w].asset != asset {
      assert ClaimValid(states[i], states[i].workers[w]);
    }
  }

  lemma NewlyOwnedIsReferenced(s: State, step: Step, asset: nat)
    requires Enabled(s, step) && asset in Next(s, step).owned && asset !in s.owned
    ensures Referenced(Next(s, step).t, asset)
  {
    var t', x := Next(s, step).t, s.txs[step.tx];
    if x.SlotWritten? { assert SectionHolds(t', x.slot, asset); } else { assert MediaHolds(t', x.media, asset); }
  }

  // ---------- when the decision was taken ----------

  /** The step in which a transaction decides what it will queue. */
  predicate Decides(step: Step, x: nat) {
    (step.WriteSlot? || step.DeleteMedia?) && step.tx == x
  }

  /** When the transaction decided, a row other than its own still named the asset. */
  ghost predicate NamedElsewhere(t: Tables, x: Tx, asset: nat) {
    || (exists q :: SectionHolds(t, q, asset) && !(x.SlotWritten? && q == x.slot))
    || (exists m :: MediaHolds(t, m, asset) && !(x.MediaDeleted? && m == x.media))
  }

  ghost predicate LastDecision(steps: seq<Step>, d: int, k: nat, x: nat) {
    0 <= d < k <= |steps| && Decides(steps[d], x) && forall e :: d < e < k ==> !Decides(steps[e], x)
  }

  /** What an open transaction carries is what it decided in its last deciding step. */
  lemma {:induction false} DecisionWasTaken(states: seq<State>, steps: seq<Step>, k: nat, x: nat) returns (d: nat)
    requires IsRun(states, steps) && k < |states| && x in states[k].txs
    requires states[k].txs[x].SlotWritten? || states[k].txs[x].MediaDeleted?
    ensures LastDecision(steps, d, k, x)
    ensures x in states[d + 1].txs && states[d + 1].txs[x] == states[k].txs[x]
  {
    assert k > 0 && StepAt(states, steps, k - 1);
    if Decides(steps[k - 1], x) {
      d := k - 1;
    } else {
      d := DecisionWasTaken(states, steps, k - 1, x);
    }
  }

  /** A write queues the asset it read and replaces exactly when no other row names it. */
  lemma WriteQueuesUnlessNamed(s: State, x: nat, asset: nat)
    requires Sound(s) && Enabled(s, WriteSlot(x)) && s.txs[x].row == Some(Some(asset)) && s.txs[x].asset.Some? && s.txs[x].asset != Some(asset)
    ensures var y := Next(s, WriteSlot(x)).txs[x]; y.enqueue == Some(asset) <==> !NamedElsewhere(s.t, y, asset)
  {
    var r, y := s.txs[x], Next(s, WriteSlot(x)).txs[x];
    var t' := WithSection(s.t, r.slot, r.asset);
    assert forall q: nat :: SectionHolds(t', q, asset) <==> SectionHolds(s.t, q, asset) && q != r.slot;
    assert forall m: nat :: MediaHolds(t', m, asset) <==> MediaHolds(s.t, m, asset);
  }

  lemma DeleteQueuesUnlessNamed(s: State, x: nat, media: nat, asset: nat)
    requires Enabled(s, DeleteMedia(x, media)) && MediaHolds(s.t, media, asset)
    ensures var y := Next(s, DeleteMedia(x, media)).txs[x]; y.enqueue == Some(asset) <==> !NamedElsewhere(s.t, y, asset)
  {
    var t' := s.t.(media := s.t.media - {media});
    assert forall q: nat :: SectionHolds(t', q, asset) <==> SectionHolds(s.t, q, asset);
    assert forall m: nat :: MediaHolds(t', m, asset) <==> MediaHolds(s.t, m, asset) && m != media;
  }

  lemma QueuesUnlessNamedWhenDecided(states: seq<State>, steps: seq<Step>, k: nat, x: nat, asset: nat) returns (d: nat)
    requires IsRun(states, steps) && k < |states| && x in states[k].txs && TakesOut(states[k].t, states[k].txs[x], asset)
    ensures LastDecision(steps, d, k, x)
    ensures var y := states[k].txs[x];
            y.enqueue != Some(asset) <==> (y.SlotWritten? && y.row.None?) || NamedElsewhere(states[d].t, y, asset)
  {
    var y := states[k].txs[x];
    d := DecisionWasTaken(states, steps, k, x);
    EveryStateIsSafe(states, steps, k);
    EveryStateIsSafe(states, steps, d);
    assert TxValid(states[k].t, y);
    assert StepAt(states, steps, d);
    if y.MediaDeleted? {
      DeleteQueuesUnlessNamed(states[d], x, y.media, asset);
    } else if y.row.Some? {
      WriteQueuesUnlessNamed(states[d], x, asset);
    }
  }

  /**
   A commit that loses an asset, told by what the sessions did: it takes the
   asset out of the last row that names it, nothing has queued it, and either
   the upsert had found no row to read, or some other row still named the asset
   when the transaction decided what to queue.
   */
  ghost predicate LosesUnnoticed(states: seq<State>, steps: seq<Step>, k: nat, x: nat, asset: nat)
    requires k < |states|
  {
    && x in states[k].txs && TakesOut(states[k].t, states[k].txs[x], asset)
    && NoOtherRowNames(states[k].t, states[k].txs[x], asset) && !Queued(states[k].t, asset)
    && ((states[k].txs[x].SlotWritten? && states[k].txs[x].row.None?)
        || exists d: nat :: LastDecision(steps, d, k, x) && d < |states| && NamedElsewhere(states[d].t, states[k].txs[x], asset))
  }

  /** The exact condition on every run, from any rows, shared assets included. */
  lemma LostExactlyWhenUnnoticed(states: seq<State>, steps: seq<Step>, k: nat, asset: nat)
    requires IsRun(states, steps) && k < |steps| && Accounted(states[k], asset)
    ensures !Accounted(states[k + 1], asset) <==> steps[k].Commit? && LosesUnnoticed(states, steps, k, steps[k].tx, asset)
  {
    EveryStateIsSafe(states, steps, k);
    assert StepAt(states, steps, k);
    LostExactlyByLosingCommit(states[k], steps[k], asset);
    if steps[k].Commit? && steps[k].tx in states[k].txs && TakesOut(states[k].t, states[k].txs[steps[k].tx], asset) {
      var x := steps[k].tx;
      var d := QueuesUnlessNamedWhenDecided(states, steps, k, x, asset);
      assert forall e: nat :: LastDecision(steps, e, k, x) ==> e == d;
    }
  }

  /** An owned asset that is not accounted for was lost at some step. */
  lemma {:induction false} LossHappens(states: seq<State>, steps: seq<Step>, i: nat, asset: nat) returns (k: nat)
    requires IsRun(states, steps) && i < |states| && asset in states[i].owned && !Accounted(states[i], asset)
    requires asset in states[0].owned ==> Accounted(states[0], asset)
    ensures k < i && Accounted(states[k], asset) && !Accounted(states[k + 1], asset)
  {
    k := i - 1;
    assert StepAt(states, steps, k);
    if asset !in states[k].owned {
      NewlyOwnedIsReferenced(states[k], steps[k], asset);
    } else if !Accounted(states[k], asset) {
      k := LossHappens(states, steps, k, asset);
    }
  }

  /**
   From any rows: an asset that a committed row once held, and that was
   accounted for at the start, is for ever named, queued or destroyed unless some
   commit loses it unnoticed; through failed deletes, crashes and commits that
   were not heard of.
   */
  lemma OwnedAssetsAreAccounted(states: seq<State>, steps: seq<Step>, i: nat, asset: nat)
    requires IsRun(states, steps) && i < |states| && asset in states[i].owned
    requires asset in states[0].owned ==> Accounted(states[0], asset)
    requires forall k :: 0 <= k < i && steps[k].Commit? ==> !LosesUnnoticed(states, steps, k, steps[k].tx, asset)
    ensures Accounted(states[i], asset)
  {
    if !Accounted(states[i], asset) {
      var k := LossHappens(states, steps, i, asset);
      LostExactlyWhenUnnoticed(states, steps, k, asset);
    }
  }

  // ---------- a rule that loses nothing ----------

  /** Every image is written to a slot that already has its row. */
  ghost predicate WritesToKnownSlots(states: seq<State>, steps: seq<Step>) {
    forall k :: 0 <= k < |steps| && k < |states| && steps[k].ReadSlot? && steps[k].asset.Some? ==> steps[k].slot in states[k].t.sections
  }

  predicate RowWasRead(x: Tx) {
    (x.SlotRead? || x.SlotWritten?) && x.asset.Some? ==> x.row.Some?
  }

  lemma {:induction false} RowsWereRead(states: seq<State>, steps: seq<Step>, i: nat, x: nat)
    requires IsRun(states, steps) && WritesToKnownSlots(states, steps) && i < |states| && x in states[i].txs
    ensures RowWasRead(states[i].txs[x])
  {
    assert i > 0 && StepAt(states, steps, i - 1);
    if x in states[i - 1].txs { RowsWereRead(states, steps, i - 1, x); }
  }

  lemma KnownSlotStepLosesNothing(states: seq<State>, steps: seq<Step>, k: nat, asset: nat)
    requires IsRun(states, steps) && DistinctRows(states[0].t) && WritesToKnownSlots(states, steps)
    requires k < |steps| && Accounted(states[k], asset)
    ensures Accounted(states[k + 1], asset)
  {
    EveryStateIsSafe(states, steps, k);
    assert StepAt(states, steps, k);
    LostExactlyByRacingFirstWrite(states[k], steps[k], asset);
    if steps[k].Commit? { RowsWereRead(states, steps, k, steps[k].tx); }
  }

  /** With one row for each asset at the start, and images written to known slots only, nothing is ever lost. */
  lemma KnownSlotsLoseNothing(states: seq<State>, steps: seq<Step>, i: nat, asset: nat)
    requires IsRun(states, steps) && DistinctRows(states[0].t) && WritesToKnownSlots(states, steps)
    requires i < |states| && asset in states[i].owned
    requires asset in states[0].owned ==> Accounted(states[0], asset)
    ensures Accounted(states[i], asset)
  {
    if !Accounted(states[i], asset) {
      var k := LossHappens(states, steps, i, asset);
      KnownSlotStepLosesNothing(states, steps, k, asset);
    }
  }

  // ---------- two runs that lose an asset ----------

  function Home(sections: map<nat, Option<nat>>, txs: map<nat, Tx>, uploaded: set<nat>, intended: set<nat>, owned: set<nat>,
                jobs: set<nat>): State {
    State(Tables(sections, map[], map[]), txs, map[], {}, uploaded, intended, owned, {}, jobs)
  }

  const R1 := SlotRead(1, Some(8), None)
  const R2 := SlotRead(1, Some(9), None)
  const W1 := SlotWritten(1, Some(8), None, None)
  const W2 := SlotWritten(1, Some(9), None, None)

  function RaceState(k: nat): State {
    if k == 0 then Home(map[], map[], {8, 9}, {}, {}, {})
    else if k == 1 then Home(map[], map[1 := R1], {8, 9}, {8}, {}, {})
    else if k == 2 then Home(map[], map[1 := R1, 2 := R2], {8, 9}, {8, 9}, {}, {})
    else if k == 3 then Home(map[], map[1 := W1, 2 := R2], {8, 9}, {8, 9}, {}, {})
    else if k == 4 then Home(map[1 := Some(8)], map[2 := R2], {8, 9}, {8, 9}, {8}, {0})
    else if k == 5 then Home(map[1 := Some(8)], map[2 := W2], {8, 9}, {8, 9}, {8}, {0})
    else Home(map[1 := Some(9)], map[], {8, 9}, {8, 9}, {8, 9}, {0, 1})
  }

  function RaceStep(k: nat): Step {
    if k == 0 then ReadSlot(1, 1, Some(8)) else if k == 1 then ReadSlot(2, 1, Some(9))
    else if k == 2 then WriteSlot(1) else if k == 3 then Commit(1, 0)
    else if k == 4 then WriteSlot(2) else Commit(2, 1)
  }

  lemma RaceReads(k: nat)
    requires k < 2
    ensures Enabled(RaceState(k), RaceStep(k)) && Next(RaceState(k), RaceStep(k)) == RaceState(k + 1)
  {
  }

  lemma RaceWrites(k: nat)
    requires k == 2 || k == 4
    ensures Enabled(RaceState(k), RaceStep(k)) && Next(RaceState(k), RaceStep(k)) == RaceState(k + 1)
  {
  }

  /** The commit of an upsert that brings an image and queues nothing. */
  lemma PlainCommit(s: State, x: nat, job: nat, slot: nat, asset: nat)
    requires x in s.txs && s.txs[x].SlotWritten? && s.txs[x].slot == slot && s.txs[x].asset == Some(asset)
    requires s.txs[x].enqueue.None? && job !in s.jobs && s.claimed == {}
    ensures Enabled(s, Commit(x, job))
    ensures Next(s, Commit(x, job)) == s.(t := s.t.(sections := s.t.sections[slot := Some(asset)]), txs := s.txs - {x},
                                          owned := s.owned + {asset}, jobs := s.jobs + {job})
  {
  }

  lemma FirstCommit()
    ensures Enabled(RaceState(3), RaceStep(3)) && Next(RaceState(3), RaceStep(3)) == RaceState(4)
  {
    PlainCommit(RaceState(3), 1, 0, 1, 8);
    FirstCommitted();
  }

  lemma FirstCommitted()
    ensures var s := RaceState(3);
            RaceState(4) == s.(t := s.t.(sections := s.t.sections[1 := Some(8)]), txs := s.txs - {1},
                               owned := s.owned + {8}, jobs := s.jobs + {0})
  {
    var txs: map<nat, Tx> := map[1 := W1, 2 := R2];
    assert txs - {1} == map[2 := R2];
  }

  lemma SecondCommit()
    ensures Enabled(RaceState(5), RaceStep(5)) && Next(RaceState(5), RaceStep(5)) == RaceState(6)
  {
    PlainCommit(RaceState(5), 2, 1, 1, 9);
    var txs: map<nat, Tx> := map[2 := W2];
    assert txs - {2} == map[];
    var sections: map<nat, Option<nat>> := map[1 := Some(8)];
    assert sections[1 := Some(9)] == map[1 := Some(9)];
  }

  /** Two first writes of one slot: both found no row, and the second replaces the image 8 of the first unnoticed. */
  lemma TwoFirstWritesLoseAnAsset() returns (states: seq<State>, steps: seq<Step>)
    ensures IsRun(states, steps) && DistinctRows(states[0].t)
    ensures 8 in states[|steps|].owned && !Accounted(states[|steps|], 8)
  {
    states, steps := seq(7, k requires 0 <= k => RaceState(k)), seq(6, k requires 0 <= k => RaceStep(k));
    forall k | 0 <= k < 6 ensures StepAt(states, steps, k) {
      RaceRuns(k);
    }
    RaceLosesImage();
  }

  lemma RaceRuns(k: nat)
    requires k < 6
    ensures Enabled(RaceState(k), RaceStep(k)) && Next(RaceState(k), RaceStep(k)) == RaceState(k + 1)
  {
    if k < 2 {
      RaceReads(k);
    } else if k == 3 {
      FirstCommit();
    } else if k == 5 {
      SecondCommit();
    } else {
      RaceWrites(k);
    }
  }

  lemma RaceLosesImage()
    ensures DistinctRows(RaceState(0).t) && 8 in RaceState(6).owned && !Accounted(RaceState(6), 8)
  {
  }

  const S1 := SlotRead(1, Some(8), Some(Some(7)))
  const S2 := SlotRead(2, Some(9), Some(Some(7)))
  const T1 := SlotWritten(1, Some(8), Some(Some(7)), None)
  const T2 := SlotWritten(2, Some(9), Some(Some(7)), None)

  function SharedState(k: nat): State {
    if k == 0 then Home(map[1 := Some(7), 2 := Some(7)], map[], {7, 8, 9}, {7}, {7}, {})
    else if k == 1 then Home(map[1 := Some(7), 2 := Some(7)], map[1 := S1], {7, 8, 9}, {7, 8}, {7}, {})
    else if k == 2 then Home(map[1 := Some(7), 2 := Some(7)], map[1 := S1, 2 := S2], {7, 8, 9}, {7, 8, 9}, {7}, {})
    else if k == 3 then Home(map[1 := Some(7), 2 := Some(7)], map[1 := T1, 2 := S2], {7, 8, 9}, {7, 8, 9}, {7}, {})
    else if k == 4 then Home(map[1 := Some(7), 2 := Some(7)], map[1 := T1, 2 := T2], {7, 8, 9}, {7, 8, 9}, {7}, {})
    else if k == 5 then Home(map[1 := Some(8), 2 := Some(7)], map[2 := T2], {7, 8, 9}, {7, 8, 9}, {7, 8}, {0})
    else Home(map[1 := Some(8), 2 := Some(9)], map[], {7, 8, 9}, {7, 8, 9}, {7, 8, 9}, {0, 1})
  }

  function SharedStep(k: nat): Step {
    if k == 0 then ReadSlot(1, 1, Some(8)) else if k == 1 then ReadSlot(2, 2, Some(9))
    else if k == 2 then WriteSlot(1) else if k == 3 then WriteSlot(2)
    else if k == 4 then Commit(1, 0) else Commit(2, 1)
  }

  lemma SharedReads(k: nat)
    requires k < 2
    ensures Enabled(SharedState(k), SharedStep(k)) && Next(SharedState(k), SharedStep(k)) == SharedState(k + 1)
  {
  }

  /** Each write still sees the other slot's committed row. */
  lemma SharedWrites(k: nat)
    requires k == 2 || k == 3
    ensures Enabled(SharedState(k), SharedStep(k)) && Next(SharedState(k), SharedStep(k)) == SharedState(k + 1)
  {
    var t := SharedState(k).t;
    if k == 2 { assert SectionHolds(WithSection(t, 1, Some(8)), 2, 7); } else { assert SectionHolds(WithSection(t, 2, Some(9)), 1, 7); }
  }

  lemma FirstSharedCommit()
    ensures Enabled(SharedState(4), SharedStep(4)) && Next(SharedState(4), SharedStep(4)) == SharedState(5)
  {
    PlainCommit(SharedState(4), 1, 0, 1, 8);
    var txs: map<nat, Tx> := map[1 := T1, 2 := T2];
    assert txs - {1} == map[2 := T2];
    var sections: map<nat, Option<nat>> := map[1 := Some(7), 2 := Some(7)];
    assert sections[1 := Some(8)] == map[1 := Some(8), 2 := Some(7)];
  }

  lemma SecondSharedCommit()
    ensures Enabled(SharedState(5), SharedStep(5)) && Next(SharedState(5), SharedStep(5)) == SharedState(6)
  {
    PlainCommit(SharedState(5), 2, 1, 2, 9);
    var txs: map<nat, Tx> := map[2 := T2];
    assert txs - {2} == map[];
    var sections: map<nat, Option<nat>> := map[1 := Some(8), 2 := Some(7)];
    assert sections[2 := Some(9)] == map[1 := Some(8), 2 := Some(9)];
  }

  /**
   Two slots that share an old image 7: each upsert still sees the other's row,
   so neither queues the image, and both commit. Images with one owner never
   meet this.
   */
  lemma TwoReplacementsLoseASharedAsset() returns (states: seq<State>, steps: seq<Step>)
    ensures IsRun(states, steps) && !DistinctRows(states[0].t)
    ensures 7 in states[|steps|].owned && !Accounted(states[|steps|], 7)
    ensures forall k :: 0 <= k < |steps| && steps[k].Commit? ==> !RacingFirstWrite(states[k], steps[k].tx, 7)
  {
    states, steps := seq(7, k requires 0 <= k => SharedState(k)), seq(6, k requires 0 <= k => SharedStep(k));
    forall k | 0 <= k < 6 ensures StepAt(states, steps, k) {
      SharedRuns(k);
    }
    SharedImageIsLost();
    SharedHasNoRace(4);
    SharedHasNoRace(5);
  }

  lemma SharedRuns(k: nat)
    requires k < 6
    ensures Enabled(SharedState(k), SharedStep(k)) && Next(SharedState(k), SharedStep(k)) == SharedState(k + 1)
  {
    if k < 2 {
      SharedReads(k);
    } else if k < 4 {
      SharedWrites(k);
    } else if k == 4 {
      FirstSharedCommit();
    } else {
      SecondSharedCommit();
    }
  }

  lemma SharedImageIsLost()
    ensures !DistinctRows(SharedState(0).t) && 7 in SharedState(6).owned && !Accounted(SharedState(6), 7)
  {
    assert SectionHolds(SharedState(0).t, 1, 7) && SectionHolds(SharedState(0).t, 2, 7);
  }

  lemma SharedHasNoRace(k: nat)
    requires k == 4 || k == 5
    ensures !RacingFirstWrite(SharedState(k), SharedStep(k).tx, 7)
  {
  }
}
