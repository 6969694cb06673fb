/**
 Deleting a CV while others delete and complete scans
 (backend/internal/repository/postgres_client_cv.go, `CompleteScan` in
 postgres_scans.go). Each step is one SQL statement under Read Committed: it
 sees what is committed when it runs, and its own transaction's writes. A
 transaction's writes become visible at its commit; the rows it has written or
 locked stay locked until then, and a statement that needs such a row waits
 (its step is not enabled). A profile may be shared by several scans.
 */
module CvDeletion {
  import opened Wrappers

  datatype Scan = Scan(owner: Option<nat>, parsing: bool, profile: Option<nat>)

  datatype Tx =
    | Deleting(scan: nat, user: Option<nat>)                      // DELETE of the scan not done yet
    | Deleted(scan: nat, profile: Option<nat>)                    // scan row deleted, profile known
    | ProfileLocked(scan: nat, profile: Option<nat>)              // SELECT ... FOR UPDATE done
    | Checked(scan: nat, profile: Option<nat>, orphan: bool)      // orphan DELETE done
    | Completing(scan: nat, profile: Option<nat>)                 // new profile inserted
    | Completed(scan: nat, profile: Option<nat>)                  // scan updated and finished
    | Ended(error: Option<TxError>)

  datatype TxError = ScanNotFound | ProfileGone | InvalidScanState | RolledBack

  datatype State = State(scans: map<nat, Scan>, profiles: set<nat>, txs: map<nat, Tx>)

  datatype Step =
    | CreateScan(scan: nat, owner: Option<nat>)
    | FailScan(scan: nat)
    | BeginDelete(tx: nat, scan: nat, user: Option<nat>)
    | DeleteScan(tx: nat)
    | LockProfile(tx: nat)
    | DeleteOrphan(tx: nat)
    | BeginComplete(tx: nat, scan: nat, profile: nat)
    | UpdateScan(tx: nat)
    | Commit(tx: nat)
    | Rollback(tx: nat)

  // ---------- row locks ----------

  predicate HoldsScan(x: Tx, scan: nat) {
    (x.Deleted? || x.ProfileLocked? || x.Checked? || x.Completed?) && x.scan == scan
  }

  predicate HoldsProfile(x: Tx, profile: nat) {
    (x.ProfileLocked? || x.Checked?) && x.profile == Some(profile)
  }

  predicate ScanLocked(s: State, scan: nat) {
    exists t :: t in s.txs && HoldsScan(s.txs[t], scan)
  }

  predicate ProfileIsLocked(s: State, profile: nat) {
    exists t :: t in s.txs && HoldsProfile(s.txs[t], profile)
  }

  // ---------- the steps ----------

  predicate Owned(scan: Scan, user: Option<nat>) {
    user.None? || scan.owner == user
  }

  predicate References(s: State, scan: nat, profile: nat) {
    scan in s.scans && s.scans[scan].profile == Some(profile)
  }

  /** A new profile's ID is in use nowhere, not even in another open transaction. */
  predicate FreshProfile(s: State, profile: nat) {
    && profile !in s.profiles
    && (forall t :: t in s.txs && !s.txs[t].Ended? && !s.txs[t].Deleting? ==> s.txs[t].profile != Some(profile))
  }

  predicate Enabled(s: State, step: Step) {
    match step
    case CreateScan(scan, _) => scan !in s.scans
    case FailScan(scan) => scan in s.scans && s.scans[scan].parsing && !ScanLocked(s, scan)
    case BeginDelete(t, _, _) => t !in s.txs
    case DeleteScan(t) => t in s.txs && s.txs[t].Deleting? && !ScanLocked(s, s.txs[t].scan)
    case LockProfile(t) =>
      t in s.txs && s.txs[t].Deleted? && s.txs[t].profile.Some? && !ProfileIsLocked(s, s.txs[t].profile.value)
    case DeleteOrphan(t) => t in s.txs && s.txs[t].ProfileLocked?
    case BeginComplete(t, _, profile) => t !in s.txs && FreshProfile(s, profile)
    case UpdateScan(t) => t in s.txs && s.txs[t].Completing? && !ScanLocked(s, s.txs[t].scan)
    case Commit(t) =>
      t in s.txs && (s.txs[t].Checked? || s.txs[t].Completed? || (s.txs[t].Deleted? && s.txs[t].profile.None?))
    case Rollback(t) => t in s.txs && !s.txs[t].Ended?
  }

  function Put(s: State, t: nat, x: Tx): State {
    s.(txs := s.txs[t := x])
  }

  function Next(s: State, step: Step): State
    requires Enabled(s, step)
  {
    match step
    case CreateScan(scan, owner) => s.(scans := s.scans[scan := Scan(owner, true, None)])
    case FailScan(scan) => s.(scans := s.scans[scan := s.scans[scan].(parsing := false)])
    case BeginDelete(t, scan, user) => Put(s, t, Deleting(scan, user))
    case DeleteScan(t) =>
      var x := s.txs[t];
      if x.scan in s.scans && Owned(s.scans[x.scan], x.user) then Put(s, t, Deleted(x.scan, s.scans[x.scan].profile))
      else Put(s, t, Ended(Some(ScanNotFound)))
    case LockProfile(t) =>
      var x := s.txs[t];
      if x.profile.value in s.profiles then Put(s, t, ProfileLocked(x.scan, x.profile))
      else Put(s, t, Ended(Some(ProfileGone)))
    case DeleteOrphan(t) =>
      var x := s.txs[t];
      var remains := exists r :: r in s.scans && r != x.scan && s.scans[r].profile == x.profile;
      Put(s, t, Checked(x.scan, x.profile, !remains))
    case BeginComplete(t, scan, profile) => Put(s, t, Completing(scan, Some(profile)))
    case UpdateScan(t) =>
      var x := s.txs[t];
      if x.scan in s.scans && s.scans[x.scan].parsing then Put(s, t, Completed(x.scan, x.profile))
      else Put(s, t, Ended(Some(InvalidScanState)))
    case Commit(t) => Put(Publish(s, s.txs[t]), t, Ended(None))
    case Rollback(t) => Put(s, t, Ended(Some(RolledBack)))
  }

  function Publish(s: State, x: Tx): State {
    match x
    case Deleted(scan, _) => s.(scans := s.scans - {scan})
    case Checked(scan, profile, orphan) =>
      s.(scans := s.scans - {scan}, profiles := if orphan && profile.Some? then s.profiles - {profile.value} else s.profiles)
    case Completed(scan, profile) =>
      if scan in s.scans && profile.Some? then
        s.(scans := s.scans[scan := s.scans[scan].(parsing := false, profile := profile)], profiles := s.profiles + {profile.value})
      else s
    case _ => s
  }

  // ---------- the invariant ----------

  /** Every profile has a scan, and every profile a scan names exists. */
  ghost predicate Consistent(s: State) {
    && (forall p :: p in s.profiles ==> exists r :: References(s, r, p))
    && (forall r :: r in s.scans && s.scans[r].profile.Some? ==> s.scans[r].profile.value in s.profiles)
    && (forall r :: r in s.scans && s.scans[r].parsing ==> s.scans[r].profile.None?)
  }

  /** Some committed scan other than the one being deleted names the profile. */
  ghost predicate ReferencedElsewhere(s: State, scan: nat, profile: nat) {
    exists r :: r != scan && References(s, r, profile)
  }

  ghost predicate TxValid(s: State, x: Tx) {
    match x
    case Deleted(scan, profile) => scan in s.scans && s.scans[scan].profile == profile
    case ProfileLocked(scan, profile) => scan in s.scans && s.scans[scan].profile == profile && profile.Some?
    case Checked(scan, profile, orphan) =>
      && scan in s.scans && s.scans[scan].profile == profile && profile.Some?
      && (orphan <==> !ReferencedElsewhere(s, scan, profile.value))
    case Completing(_, profile) => profile.Some? && profile.value !in s.profiles
    case Completed(scan, profile) =>
      scan in s.scans && s.scans[scan].parsing && profile.Some? && profile.value !in s.profiles
    case _ => true
  }

  ghost predicate LocksExclusive(s: State) {
    && (forall a, b, scan :: a in s.txs && b in s.txs && HoldsScan(s.txs[a], scan) && HoldsScan(s.txs[b], scan) ==> a == b)
    && (forall a, b, p :: a in s.txs && b in s.txs && HoldsProfile(s.txs[a], p) && HoldsProfile(s.txs[b], p) ==> a == b)
  }

  predicate Creates(x: Tx, profile: nat) {
    (x.Completing? || x.Completed?) && x.profile == Some(profile)
  }

  ghost predicate NewProfilesDistinct(s: State) {
    forall a, b, p :: a in s.txs && b in s.txs && Creates(s.txs[a], p) && Creates(s.txs[b], p) ==> a == b
  }

  ghost predicate Inv(s: State) {
    && Consistent(s)
    && (forall t {:trigger s.txs[t]} :: t in s.txs ==> TxValid(s, s.txs[t]))
    && LocksExclusive(s)
    && NewProfilesDistinct(s)
    && (forall t :: t in s.txs ==> s.txs[t] != Ended(Some(ProfileGone)))
  }

  // ---------- each step keeps it ----------

  /** The row locks that a transaction's next statement holds are its own already, or free. */
  ghost predicate LocksAreFree(s: State, t: nat, x: Tx) {
    && (forall other, scan :: other in s.txs && other != t && HoldsScan(x, scan) ==> !HoldsScan(s.txs[other], scan))
    && (forall other, p :: other in s.txs && other != t && HoldsProfile(x, p) ==> !HoldsProfile(s.txs[other], p))
  }

  lemma PutKeepsLocks(s: State, s': State, t: nat)
    requires LocksExclusive(s) && t in s'.txs && s'.txs == s.txs[t := s'.txs[t]] && LocksAreFree(s, t, s'.txs[t])
    ensures LocksExclusive(s')
  {
  }

  lemma StatementTakesFreeLocks(s: State, step: Step)
    requires LocksExclusive(s) && Enabled(s, step) && !step.CreateScan? && !step.FailScan?
    ensures var s', t := Next(s, step), step.tx;
            t in s'.txs && s'.txs == s.txs[t := s'.txs[t]] && LocksAreFree(s, t, s'.txs[t])
  {
  }

  lemma KeepsLocks(s: State, step: Step)
    requires Inv(s) && Enabled(s, step)
    ensures LocksExclusive(Next(s, step))
  {
    if !step.CreateScan? && !step.FailScan? {
      StatementTakesFreeLocks(s, step);
      PutKeepsLocks(s, Next(s, step), step.tx);
    }
  }

  lemma KeepsNewProfilesDistinct(s: State, step: Step)
    requires Inv(s) && Enabled(s, step)
    ensures NewProfilesDistinct(Next(s, step))
  {
  }

  /** The profile is still there when the lock is granted: the scan being deleted still names it in every committed state. */
  lemma ProfileNeverGone(s: State, t: nat)
    requires Inv(s) && Enabled(s, LockProfile(t))
    ensures s.txs[t].profile.value in s.profiles
    ensures Next(s, LockProfile(t)).txs[t] == ProfileLocked(s.txs[t].scan, s.txs[t].profile)
  {
    assert TxValid(s, s.txs[t]);
  }

  lemma OrphanStepValid(s: State, t: nat)
    requires Inv(s) && Enabled(s, DeleteOrphan(t))
    ensures TxValid(s, Next(s, DeleteOrphan(t)).txs[t])
  {
    var x := s.txs[t];
    assert TxValid(s, x);
    if ReferencedElsewhere(s, x.scan, x.profile.value) {
      var r :| r != x.scan && References(s, r, x.profile.value);
      assert r in s.scans && s.scans[r].profile == x.profile;
    } else {
      forall r | r in s.scans && r != x.scan ensures s.scans[r].profile != x.profile {
        assert !References(s, r, x.profile.value);
      }
    }
  }

  /** Committing a deletion keeps the tables consistent, because only the profile's lock holder can end its last reference. */
  lemma DeletionKeepsConsistent(s: State, t: nat)
    requires Inv(s) && Enabled(s, Commit(t)) && !s.txs[t].Completed?
    ensures Consistent(Next(s, Commit(t)))
  {
    var x, s' := s.txs[t], Next(s, Commit(t));
    assert TxValid(s, x);
    forall p | p in s'.profiles ensures exists r :: References(s', r, p) {
      if Some(p) == x.profile {
        assert ReferencedElsewhere(s, x.scan, p);
        var r :| r != x.scan && References(s, r, p);
        assert References(s', r, p);
      } else {
        var r :| References(s, r, p);
        assert References(s', r, p);
      }
    }
    forall r | r in s'.scans && s'.scans[r].profile.Some? ensures s'.scans[r].profile.value in s'.profiles {
      if x.Checked? && x.orphan && s'.scans[r].profile == x.profile {
        assert r != x.scan && References(s, r, x.profile.value);
      }
    }
  }

  lemma CompletionKeepsConsistent(s: State, t: nat)
    requires Inv(s) && Enabled(s, Commit(t)) && s.txs[t].Completed?
    ensures Consistent(Next(s, Commit(t)))
  {
    var x, s' := s.txs[t], Next(s, Commit(t));
    assert TxValid(s, x);
    forall p | p in s'.profiles ensures exists r :: References(s', r, p) {
      if Some(p) == x.profile {
        assert References(s', x.scan, p);
      } else {
        var r :| References(s, r, p);
        assert References(s', r, p);
      }
    }
  }

  lemma OtherStepsKeepConsistent(s: State, step: Step)
    requires Inv(s) && Enabled(s, step) && !step.Commit?
    ensures Consistent(Next(s, step))
  {
    var s' := Next(s, step);
    forall p | p in s'.profiles ensures exists r :: References(s', r, p) {
      var r :| References(s, r, p);
      assert References(s', r, p);
    }
  }

  /** A commit leaves the other transactions' view of their own rows as it was. */
  lemma CommitKeepsOthers(s: State, t: nat, other: nat)
    requires Inv(s) && Enabled(s, Commit(t)) && other in s.txs && other != t
    ensures TxValid(Next(s, Commit(t)), s.txs[other])
  {
    var x, y, s' := s.txs[t], s.txs[other], Next(s, Commit(t));
    assert TxValid(s, x) && TxValid(s, y);
    assert HoldsScan(x, x.scan);
    assert (y.Deleted? || y.ProfileLocked? || y.Completed?) ==> HoldsScan(y, y.scan);
    if y.Checked? {
      CheckedSurvives(s, t, other);
    } else if (y.Completing? || y.Completed?) && x.Completed? && x.profile == y.profile {
      assert Creates(x, x.profile.value) && Creates(y, x.profile.value);
    }
  }

  lemma CheckedSurvives(s: State, t: nat, other: nat)
    requires Inv(s) && Enabled(s, Commit(t)) && other in s.txs && other != t && s.txs[other].Checked?
    ensures TxValid(Next(s, Commit(t)), s.txs[other])
  {
    var x, y, s' := s.txs[t], s.txs[other], Next(s, Commit(t));
    assert TxValid(s, x) && TxValid(s, y);
    var p := y.profile.value;
    assert HoldsProfile(y, p) && HoldsScan(y, y.scan) && HoldsScan(x, x.scan);
    assert x.Checked? ==> !HoldsProfile(x, p);
    assert x.profile != y.profile;
    if ReferencedElsewhere(s, y.scan, p) {
      var r :| r != y.scan && References(s, r, p);
      assert References(s', r, p);
    }
    if ReferencedElsewhere(s', y.scan, p) {
      var r :| r != y.scan && References(s', r, p);
      assert References(s, r, p);
    }
  }

  /** New and failed scans name no profile and are locked by nobody. */
  lemma ScanStepsKeepTxs(s: State, step: Step, t: nat)
    requires Inv(s) && Enabled(s, step) && (step.CreateScan? || step.FailScan?) && t in s.txs
    ensures TxValid(Next(s, step), s.txs[t])
  {
    var y, s' := s.txs[t], Next(s, step);
    assert TxValid(s, y);
    forall r, p ensures References(s, r, p) <==> References(s', r, p) { }
    if step.FailScan? { assert !HoldsScan(y, step.scan); }
    if y.Checked? {
      var p := y.profile.value;
      if ReferencedElsewhere(s, y.scan, p) {
        var r :| r != y.scan && References(s, r, p);
        assert References(s', r, p);
      }
      if ReferencedElsewhere(s', y.scan, p) {
        var r :| r != y.scan && References(s', r, p);
        assert References(s, r, p);
      }
    }
  }

  lemma SameTablesKeepTx(s: State, s': State, x: Tx)
    requires TxValid(s, x) && s'.scans == s.scans && s'.profiles == s.profiles
    ensures TxValid(s', x)
  {
    if x.Checked? {
      var p := x.profile.value;
      assert forall r :: References(s, r, p) <==> References(s', r, p);
      if ReferencedElsewhere(s, x.scan, p) {
        var r :| r != x.scan && References(s, r, p);
        assert References(s', r, p);
      }
      if ReferencedElsewhere(s', x.scan, p) {
        var r :| r != x.scan && References(s', r, p);
        assert References(s, r, p);
      }
    }
  }

  predicate StatementStep(step: Step) {
    !step.Commit? && !step.CreateScan? && !step.FailScan?
  }

  /** Statements change no committed row; they only move their own transaction on. */
  lemma StatementOwnTxValid(s: State, step: Step)
    requires Inv(s) && Enabled(s, step) && StatementStep(step)
    ensures step.tx in Next(s, step).txs && TxValid(s, Next(s, step).txs[step.tx])
    ensures Next(s, step).txs[step.tx] != Ended(Some(ProfileGone))
  {
    if step.LockProfile? {
      ProfileNeverGone(s, step.tx);
      assert TxValid(s, s.txs[step.tx]);
    } else if step.DeleteOrphan? {
      OrphanStepValid(s, step.tx);
    } else if step.UpdateScan? {
      assert TxValid(s, s.txs[step.tx]);
    }
  }

  lemma KeepsTxs(s: State, step: Step, t: nat)
    requires Inv(s) && Enabled(s, step) && t in Next(s, step).txs
    ensures TxValid(Next(s, step), Next(s, step).txs[t])
    ensures Next(s, step).txs[t] != Ended(Some(ProfileGone))
  {
    var s' := Next(s, step);
    if step.Commit? {
      if t != step.tx { CommitKeepsOthers(s, step.tx, t); }
    } else if step.CreateScan? || step.FailScan? {
      ScanStepsKeepTxs(s, step, t);
    } else if t == step.tx {
      StatementOwnTxValid(s, step);
      SameTablesKeepTx(s, s', s'.txs[t]);
    } else {
      assert s'.txs[t] == s.txs[t];
      SameTablesKeepTx(s, s', s.txs[t]);
    }
  }

  lemma StepKeepsInv(s: State, step: Step)
    requires Inv(s) && Enabled(s, step)
    ensures Inv(Next(s, step))
  {
    var s' := Next(s, step);
    if step.Commit? {
      if s.txs[step.tx].Completed? { CompletionKeepsConsistent(s, step.tx); } else { DeletionKeepsConsistent(s, step.tx); }
    } else {
      OtherStepsKeepConsistent(s, step);
    }
    forall t | t in s'.txs
      ensures TxValid(s', s'.txs[t]) && s'.txs[t] != Ended(Some(ProfileGone))
    {
      KeepsTxs(s, step, t);
    }
    KeepsLocks(s, step);
    KeepsNewProfilesDistinct(s, step);
  }

  /** Runs start from any consistent tables, shared profiles included, with no transaction open. */
  ghost predicate IsRun(states: seq<State>, steps: seq<Step>) {
    && |states| == |steps| + 1
    && Consistent(states[0]) && states[0].txs == map[]
    && forall i :: 0 <= i < |steps| ==> Enabled(states[i], steps[i]) && states[i + 1] == Next(states[i], steps[i])
  }

  lemma {:induction false} EveryStateKeepsInv(states: seq<State>, steps: seq<Step>, i: nat)
    requires IsRun(states, steps) && i < |states|
    ensures Inv(states[i])
  {
    if i > 0 {
      EveryStateKeepsInv(states, steps, i - 1);
      StepKeepsInv(states[i - 1], steps[i - 1]);
    }
  }

  /**
   Under every interleaving of the statements, each committed state has a scan
   for every profile and a profile for every scan that names one, and no
   transaction ever ends because the profile it wants to lock is gone.
   */
  lemma ProfilesAreNeverOrphanedOrLost(states: seq<State>, steps: seq<Step>, i: nat)
    requires IsRun(states, steps) && i < |states|
    ensures Consistent(states[i])
    ensures forall t :: t in states[i].txs ==> states[i].txs[t] != Ended(Some(ProfileGone))
  {
    EveryStateKeepsInv(states, steps, i);
  }

  // ---------- waiting ----------

  predicate WaitsFor(s: State, a: nat, b: nat) {
    && a in s.txs && b in s.txs
    && (((s.txs[a].Deleting? || s.txs[a].Completing?) && HoldsScan(s.txs[b], s.txs[a].scan))
        || (s.txs[a].Deleted? && s.txs[a].profile.Some? && HoldsProfile(s.txs[b], s.txs[a].profile.value)))
  }

  function Rank(x: Tx): nat {
    if x.Deleting? || x.Completing? then 0 else if x.Deleted? then 1 else 2
  }

  ghost predicate WaitingChain(s: State, chain: seq<nat>) {
    forall i :: 0 <= i < |chain| - 1 ==> WaitsFor(s, chain[i], chain[i + 1])
  }

  lemma {:induction false} WaitingChainRises(s: State, chain: seq<nat>)
    requires |chain| >= 2 && WaitingChain(s, chain)
    ensures chain[0] in s.txs && chain[|chain| - 1] in s.txs
    ensures Rank(s.txs[chain[0]]) < Rank(s.txs[chain[|chain| - 1]])
  {
    assert WaitsFor(s, chain[0], chain[1]);
    if |chain| > 2 {
      forall i | 0 <= i < |chain[1..]| - 1 ensures WaitsFor(s, chain[1..][i], chain[1..][i + 1]) {
        assert WaitsFor(s, chain[i + 1], chain[i + 2]);
      }
      WaitingChainRises(s, chain[1..]);
    }
  }

  /** The waits-for graph has no cycle: no deadlock can arise. */
  lemma NoDeadlock(s: State, chain: seq<nat>)
    requires |chain| >= 2 && WaitingChain(s, chain)
    ensures chain[0] != chain[|chain| - 1]
  {
    WaitingChainRises(s, chain);
  }

  // ---------- one deletion on its own ----------

  class CvTables {
    var scans: map<nat, Scan>
    var profiles: set<nat>

    constructor (scans: map<nat, Scan>, profiles: set<nat>)
      ensures this.scans == scans && this.profiles == profiles
    {
      this.scans, this.profiles := scans, profiles;
    }

    /** The deleted scan did not name the profile, or another scan still does. */
    ghost predicate KeepsProfile(deleted: Scan, profile: nat)
      reads this
    {
      deleted.profile == Some(profile) ==> exists r :: r in scans && scans[r].profile == Some(profile)
    }

    /** `deleteCVScan`: the scan goes, and its profile with it exactly when no other scan names it. */
    method DeleteCvScan(scan: nat, user: Option<nat>) returns (error: Option<TxError>)
      requires Consistent(State(scans, profiles, map[]))
      modifies this
      ensures error == if scan in old(scans) && Owned(old(scans)[scan], user) then None else Some(ScanNotFound)
      ensures error.Some? ==> scans == old(scans) && profiles == old(profiles)
      ensures error.None? ==> scans == old(scans) - {scan}
      ensures error.None? ==> forall p :: p in profiles <==> (p in old(profiles) && KeepsProfile(old(scans)[scan], p))
      ensures Consistent(State(scans, profiles, map[]))
    {
      ghost var before := State(scans, profiles, map[]);
      if scan !in scans || !Owned(scans[scan], user) {
        return Some(ScanNotFound);
      }
      var profile := scans[scan].profile;
      scans := scans - {scan};
      if profile.Some? {
        if profile.value !in profiles {
          return Some(ProfileGone);
        }
        if !exists r :: r in scans && scans[r].profile == profile {
          profiles := profiles - {profile.value};
        }
      }
      ghost var after := State(scans, profiles, map[]);
      forall p | p in profiles ensures exists r :: References(after, r, p) {
        var r :| References(before, r, p);
        if r == scan {
          var q :| q in scans && scans[q].profile == profile;
          assert References(after, q, p);
        } else {
          assert References(after, r, p);
        }
      }
      return None;
    }
  }
}
