/**
 The life of a scan (backend/internal/repository/postgres_scans.go,
 backend/internal/service/scan_service.go) over the tables of
 database/migrations/000001_initial_schema.up.sql. Row locks hold back a status
 update, or a deletion, while a completion is open on the same scan.
 */
module ScanLifecycle {
  import opened Wrappers

  datatype Status = Received | Parsing | Matching | Completed | Failed | Unsupported(text: string)

  datatype Scan = Scan(status: Status, profile: Option<nat>, errorCode: Option<string>)

  /** Points in hundredths: the columns are numeric(5, 2). */
  datatype Score = Score(required: int, role: int, experience: int, seniority: int, preferred: int, percent: int,
                         distance: Option<int>)

  datatype Match = Match(job: nat, score: Score)

  /** `matches` holds the rows of each scan, by job: the table keeps (scan, job) unique. */
  datatype Tables = Tables(scans: map<nat, Scan>, profiles: set<nat>, matches: map<nat, map<nat, Score>>, jobs: set<nat>)

  datatype ScanError = LocationNotFound | InvalidScanState | ScanNotFound | CheckViolation | ConnectionFailed

  // ---------- the CHECK constraints ----------

  predicate Blank(s: string) {
    forall i :: 0 <= i < |s| ==> s[i] in " \t\n\r"
  }

  /** `btrim` removes spaces only. */
  predicate SqlBlank(s: string) {
    forall i :: 0 <= i < |s| ==> s[i] == ' '
  }

  predicate RowChecks(row: Scan) {
    && !row.status.Unsupported?
    && (row.status.Matching? || row.status.Completed? ==> row.profile.Some?)
    && (row.status.Failed? ==> row.errorCode.Some? && !SqlBlank(row.errorCode.value))
  }

  predicate ScoreChecks(s: Score) {
    && 0 <= s.required <= 3500 && 0 <= s.role <= 2500 && 0 <= s.experience <= 1500
    && 0 <= s.seniority <= 1500 && 0 <= s.preferred <= 1000 && 0 <= s.percent <= 10000
    && s.percent == s.required + s.role + s.experience + s.seniority + s.preferred
    && (s.distance.Some? ==> s.distance.value >= 0)
  }

  // ---------- SetStatus ----------

  /** The WHERE clause of the guarded update. */
  predicate Guard(row: Scan, status: Status, code: Option<string>) {
    || (row.status.Received? && status.Parsing?)
    || (row.status.Parsing? && (status.Matching? || status.Failed?))
    || (row.status.Matching? && (status.Completed? || status.Failed?))
    || (row.status.Failed? && status.Failed? && code.Some? && row.errorCode == code)
  }

  function StatusUpdated(t: Tables, id: nat, status: Status, code: Option<string>): Result<Tables, ScanError> {
    if status.Unsupported? || (status.Failed? && (code.None? || Blank(code.value))) then Err(InvalidScanState)
    else if id !in t.scans || !Guard(t.scans[id], status, code) then Err(ScanNotFound)
    else
      var row := t.scans[id].(status := status, errorCode := code);
      if RowChecks(row) then Ok(t.(scans := t.scans[id := row])) else Err(CheckViolation)
  }

  /**
   On committed tables the four guarded transitions come down to one: only a
   failure can be recorded, on a PARSING scan, or again on a FAILED one with the
   same code. MATCHING never passes, because no profile is attached yet.
   */
  lemma SetStatusOnlyFails(t: Tables, id: nat, status: Status, code: Option<string>)
    requires Valid(t)
    ensures StatusUpdated(t, id, status, code).Ok? <==>
              && id in t.scans && status == Failed && code.Some? && !Blank(code.value)
              && (t.scans[id].status == Parsing || t.scans[id] == Scan(Failed, None, code))
    ensures StatusUpdated(t, id, status, code).Ok? ==>
              StatusUpdated(t, id, status, code).value == t.(scans := t.scans[id := Scan(Failed, None, code)])
    ensures id in t.scans && t.scans[id].status == Parsing && status == Matching ==>
              StatusUpdated(t, id, status, code) == Err(CheckViolation)
  {
    if id in t.scans {
      assert RowValid(t, t.scans[id]);
    }
  }

  // ---------- CompleteScan ----------

  function MatchesOf(t: Tables, scan: nat): map<nat, Score> {
    if scan in t.matches then t.matches[scan] else map[]
  }

  predicate Accepted(jobs: set<nat>, rows: map<nat, Score>, m: Match) {
    m.job in jobs && m.job !in rows && ScoreChecks(m.score)
  }

  function Inserted(jobs: set<nat>, rows: map<nat, Score>, ms: seq<Match>): Result<map<nat, Score>, ScanError>
    decreases ms
  {
    if ms == [] then Ok(rows)
    else if !Accepted(jobs, rows, ms[0]) then Err(CheckViolation)
    else Inserted(jobs, rows[ms[0].job := ms[0].score], ms[1..])
  }

  function Published(t: Tables, scan: nat, profile: nat, rows: map<nat, Score>): Tables
    requires scan in t.scans
  {
    t.(scans := t.scans[scan := t.scans[scan].(status := Completed, profile := Some(profile))],
       profiles := t.profiles + {profile},
       matches := t.matches[scan := rows])
  }

  function ScanCompleted(t: Tables, scan: nat, profile: nat, ms: seq<Match>): Result<Tables, ScanError> {
    if scan !in t.scans || !t.scans[scan].status.Parsing? then Err(InvalidScanState)
    else
      match Inserted(t.jobs, MatchesOf(t, scan), ms)
      case Ok(rows) => Ok(Published(t, scan, profile, rows))
      case Err(e) => Err(e)
  }

  /** Every match is a known job, listed once and new to the scan, with a score the checks accept. */
  predicate ListAccepted(jobs: set<nat>, rows: map<nat, Score>, ms: seq<Match>) {
    && (forall i :: 0 <= i < |ms| ==> Accepted(jobs, rows, ms[i]))
    && (forall i, j :: 0 <= i < j < |ms| ==> ms[i].job != ms[j].job)
  }

  /** All or nothing: one refused row refuses the list; an accepted list is stored row for row. */
  lemma {:induction false} InsertedExactly(jobs: set<nat>, rows: map<nat, Score>, ms: seq<Match>)
    ensures Inserted(jobs, rows, ms).Ok? <==> ListAccepted(jobs, rows, ms)
    ensures Inserted(jobs, rows, ms).Ok? ==> StoresExactly(rows, ms, Inserted(jobs, rows, ms).value)
    decreases ms
  {
    if ms != [] && Accepted(jobs, rows, ms[0]) {
      var rows', rest := rows[ms[0].job := ms[0].score], ms[1..];
      InsertedExactly(jobs, rows', rest);
      assert forall i :: 0 < i < |ms| ==> ms[i] == rest[i - 1];
      if ListAccepted(jobs, rows, ms) {
        forall i | 0 <= i < |rest| ensures Accepted(jobs, rows', rest[i]) {
          assert Accepted(jobs, rows, ms[i + 1]) && ms[0].job != ms[i + 1].job;
        }
      }
      if ListAccepted(jobs, rows', rest) {
        forall i | 0 <= i < |ms| ensures Accepted(jobs, rows, ms[i]) {
          if i > 0 { assert Accepted(jobs, rows', rest[i - 1]); }
        }
        forall i, j | 0 <= i < j < |ms| ensures ms[i].job != ms[j].job {
          assert Accepted(jobs, rows', rest[j - 1]);
          if i > 0 { assert rest[i - 1].job != rest[j - 1].job; }
        }
        StoresOneMore(jobs, rows, ms);
      }
    }
  }

  ghost predicate StoresExactly(rows: map<nat, Score>, ms: seq<Match>, stored: map<nat, Score>) {
    && (forall i :: 0 <= i < |ms| ==> ms[i].job in stored && stored[ms[i].job] == ms[i].score)
    && (forall job :: job in rows ==> job in stored && stored[job] == rows[job])
    && (forall job :: job in stored ==> job in rows || exists i :: 0 <= i < |ms| && ms[i].job == job)
  }

  lemma StoresOneMore(jobs: set<nat>, rows: map<nat, Score>, ms: seq<Match>)
    requires ms != [] && Accepted(jobs, rows, ms[0])
    requires Inserted(jobs, rows, ms).Ok?
    requires StoresExactly(rows[ms[0].job := ms[0].score], ms[1..], Inserted(jobs, rows, ms).value)
    ensures StoresExactly(rows, ms, Inserted(jobs, rows, ms).value)
  {
    var stored, rest, rows' := Inserted(jobs, rows, ms).value, ms[1..], rows[ms[0].job := ms[0].score];
    forall i | 0 <= i < |ms| ensures ms[i].job in stored && stored[ms[i].job] == ms[i].score {
      if i > 0 { assert ms[i] == rest[i - 1]; } else { assert ms[0].job in rows'; }
    }
    forall job | job in rows ensures job in stored && stored[job] == rows[job] {
      assert job in rows' && job != ms[0].job;
    }
    forall job | job in stored && job !in rows ensures exists i :: 0 <= i < |ms| && ms[i].job == job {
      if job == ms[0].job {
        assert ms[0].job == job;
      } else {
        var i :| 0 <= i < |rest| && rest[i].job == job;
        assert ms[i + 1].job == job;
      }
    }
  }

  // ---------- committed tables ----------

  predicate RowValid(t: Tables, row: Scan) {
    && (row.status.Parsing? || row.status.Completed? || row.status.Failed?)
    && (row.profile.Some? <==> row.status.Completed?)
    && (row.profile.Some? ==> row.profile.value in t.profiles)
    && (row.status.Failed? ==> row.errorCode.Some? && !Blank(row.errorCode.value))
  }

  predicate RowsValid(t: Tables, scan: nat, rows: map<nat, Score>) {
    && (rows != map[] ==> scan in t.scans && t.scans[scan].status.Completed?)
    && (forall job :: job in rows ==> job in t.jobs && ScoreChecks(rows[job]))
  }

  /** PARSING, COMPLETED and FAILED only; a profile exactly in COMPLETED; matches only for COMPLETED. */
  ghost predicate Valid(t: Tables) {
    && (forall id {:trigger t.scans[id]} :: id in t.scans ==> RowValid(t, t.scans[id]))
    && (forall id {:trigger MatchesOf(t, id)} :: RowsValid(t, id, MatchesOf(t, id)))
  }

  predicate Terminal(row: Scan) {
    row.status.Completed? || row.status.Failed?
  }

  /** What may happen to a scan: it is deleted, stays, or leaves PARSING once and for all. */
  predicate Evolves(a: Tables, b: Tables, id: nat) {
    id in a.scans && id in b.scans ==>
      && (Terminal(a.scans[id]) ==> b.scans[id] == a.scans[id] && MatchesOf(b, id) == MatchesOf(a, id))
      && (b.scans[id].status.Parsing? ==> a.scans[id].status.Parsing?)
  }

  /** What a later state of the tables may say of a scan. IDs are random and never used again. */
  predicate Later(a: Tables, b: Tables, scan: nat) {
    Evolves(a, b, scan) && (scan !in a.scans ==> scan !in b.scans)
  }

  lemma PublishedIsValid(t: Tables, scan: nat, profile: nat, ms: seq<Match>)
    requires Valid(t) && ScanCompleted(t, scan, profile, ms).Ok?
    ensures var t' := ScanCompleted(t, scan, profile, ms).value;
            && Valid(t') && StoresExactly(map[], ms, MatchesOf(t', scan))
            && forall id :: Evolves(t, t', id)
  {
    var t' := ScanCompleted(t, scan, profile, ms).value;
    assert RowsValid(t, scan, MatchesOf(t, scan));
    InsertedExactly(t.jobs, map[], ms);
    var rows := Inserted(t.jobs, map[], ms).value;
    forall id ensures RowsValid(t', id, MatchesOf(t', id)) {
      assert RowsValid(t, id, MatchesOf(t, id));
      if id == scan {
        forall job | job in rows ensures job in t'.jobs && ScoreChecks(rows[job]) {
          var i :| 0 <= i < |ms| && ms[i].job == job;
          assert Accepted(t.jobs, map[], ms[i]);
        }
      }
    }
    forall id | id in t'.scans ensures RowValid(t', t'.scans[id]) {
      assert id in t.scans && RowValid(t, t.scans[id]);
    }
  }

  // ---------- all sessions together ----------

  /** A completion that holds its scan's row lock: it has inserted its profile and some of its matches. */
  datatype Completion = Completion(scan: nat, profile: nat, matches: seq<Match>)

  /** `used` are the scan IDs handed out so far. */
  datatype State = State(t: Tables, open: map<nat, Completion>, used: set<nat>)

  datatype Step =
    | CreateScan(scan: nat)
    | SetStatus(scan: nat, status: Status, code: Option<string>)
    | DeleteScan(scan: nat)
    | AddJob(job: nat)
    | BeginCompletion(tx: nat, scan: nat, profile: nat)
    | InsertMatch(tx: nat, m: Match)
    | Commit(tx: nat)
    | Rollback(tx: nat)

  predicate Locked(s: State, scan: nat) {
    exists x :: x in s.open && s.open[x].scan == scan
  }

  /** A step that needs a locked row waits: it is not enabled. */
  predicate Enabled(s: State, step: Step) {
    match step
    case CreateScan(scan) => scan !in s.used
    case SetStatus(scan, _, _) => !Locked(s, scan)
    case DeleteScan(scan) => scan in s.t.scans && !Locked(s, scan)
    case AddJob(_) => true
    case BeginCompletion(x, scan, profile) => x !in s.open && !Locked(s, scan) && profile !in s.t.profiles
    case InsertMatch(x, _) => x in s.open
    case Commit(x) => x in s.open
    case Rollback(x) => x in s.open
  }

  function Removed(t: Tables, scan: nat): Tables
    requires scan in t.scans
  {
    var shared := exists r :: r in t.scans && r != scan && t.scans[r].profile == t.scans[scan].profile;
    t.(scans := t.scans - {scan},
       matches := t.matches - {scan},
       profiles := if t.scans[scan].profile.Some? && !shared then t.profiles - {t.scans[scan].profile.value} else t.profiles)
  }

  function Next(s: State, step: Step): State
    requires Enabled(s, step)
  {
    match step
    case CreateScan(scan) => s.(t := s.t.(scans := s.t.scans[scan := Scan(Parsing, None, None)]), used := s.used + {scan})
    case SetStatus(scan, status, code) =>
      (match StatusUpdated(s.t, scan, status, code)
       case Ok(t) => s.(t := t)
       case Err(_) => s)
    case DeleteScan(scan) => s.(t := Removed(s.t, scan))
    case AddJob(job) => s.(t := s.t.(jobs := s.t.jobs + {job}))
    case BeginCompletion(x, scan, profile) =>
      if scan in s.t.scans && s.t.scans[scan].status.Parsing? then s.(open := s.open[x := Completion(scan, profile, [])]) else s
    case InsertMatch(x, m) =>
      var c := s.open[x];
      if Inserted(s.t.jobs, MatchesOf(s.t, c.scan), c.matches + [m]).Ok?
      then s.(open := s.open[x := c.(matches := c.matches + [m])])
      else s.(open := s.open - {x})
    case Commit(x) =>
      var c := s.open[x];
      (match ScanCompleted(s.t, c.scan, c.profile, c.matches)
       case Ok(t) => s.(t := t, open := s.open - {x})
       case Err(_) => s.(open := s.open - {x}))
    case Rollback(x) => s.(open := s.open - {x})
  }

  predicate OpenValid(t: Tables, c: Completion) {
    && c.scan in t.scans && t.scans[c.scan] == Scan(Parsing, None, None)
    && Inserted(t.jobs, MatchesOf(t, c.scan), c.matches).Ok?
  }

  /** Scan IDs in the table have been handed out. */
  ghost predicate InUse(s: State) {
    forall id :: id in s.t.scans ==> id in s.used
  }

  ghost predicate ParsingHasNoCode(t: Tables) {
    forall id {:trigger t.scans[id]} :: id in t.scans && t.scans[id].status.Parsing? ==> t.scans[id].errorCode.None?
  }

  ghost predicate OneCompletionPerScan(open: map<nat, Completion>) {
    forall x, y :: x in open && y in open && open[x].scan == open[y].scan ==> x == y
  }

  ghost predicate Inv(s: State) {
    && Valid(s.t)
    && InUse(s)
    && ParsingHasNoCode(s.t)
    && (forall x {:trigger s.open[x]} :: x in s.open ==> OpenValid(s.t, s.open[x]))
    && OneCompletionPerScan(s.open)
  }

  lemma RemovedIsValid(t: Tables, scan: nat)
    requires Valid(t) && scan in t.scans
    ensures Valid(Removed(t, scan)) && forall id :: Evolves(t, Removed(t, scan), id)
  {
    var t' := Removed(t, scan);
    forall id | id in t'.scans ensures RowValid(t', t'.scans[id]) {
      assert RowValid(t, t.scans[id]);
    }
    forall id ensures RowsValid(t', id, MatchesOf(t', id)) {
      assert RowsValid(t, id, MatchesOf(t, id));
    }
  }

  lemma StatusUpdatedIsValid(t: Tables, scan: nat, status: Status, code: Option<string>)
    requires Valid(t) && StatusUpdated(t, scan, status, code).Ok?
    ensures var t' := StatusUpdated(t, scan, status, code).value;
            Valid(t') && forall id :: Evolves(t, t', id)
  {
    var t' := StatusUpdated(t, scan, status, code).value;
    SetStatusOnlyFails(t, scan, status, code);
    forall id | id in t'.scans ensures RowValid(t', t'.scans[id]) {
      assert RowValid(t, t.scans[id]);
    }
    forall id ensures RowsValid(t', id, MatchesOf(t', id)) {
      assert RowsValid(t, id, MatchesOf(t, id));
    }
  }

  /** Every step keeps the committed tables valid and moves each scan only as `Evolves` allows. */
  lemma StepKeepsValid(s: State, step: Step)
    requires Inv(s) && Enabled(s, step)
    ensures Valid(Next(s, step).t) && forall id :: Evolves(s.t, Next(s, step).t, id)
  {
    var t, t' := s.t, Next(s, step).t;
    if step.Commit? {
      var c := s.open[step.tx];
      if ScanCompleted(t, c.scan, c.profile, c.matches).Ok? { PublishedIsValid(t, c.scan, c.profile, c.matches); }
    } else if step.DeleteScan? {
      RemovedIsValid(t, step.scan);
    } else if step.SetStatus? {
      if StatusUpdated(t, step.scan, step.status, step.code).Ok? { StatusUpdatedIsValid(t, step.scan, step.status, step.code); }
    } else {
      forall id | id in t'.scans ensures RowValid(t', t'.scans[id]) {
        assert id in t.scans ==> RowValid(t, t.scans[id]);
      }
      forall id ensures RowsValid(t', id, MatchesOf(t', id)) {
        assert RowsValid(t, id, MatchesOf(t, id));
      }
    }
  }

  lemma MoreJobsAccept(jobs: set<nat>, jobs': set<nat>, rows: map<nat, Score>, ms: seq<Match>)
    requires jobs <= jobs' && Inserted(jobs, rows, ms).Ok?
    ensures Inserted(jobs', rows, ms).Ok?
  {
    InsertedExactly(jobs, rows, ms);
    InsertedExactly(jobs', rows, ms);
    forall i | 0 <= i < |ms| ensures Accepted(jobs', rows, ms[i]) {
      assert Accepted(jobs, rows, ms[i]);
    }
  }

  /** A row that is locked keeps its completion's grounds. */
  lemma StepKeepsOpen(s: State, step: Step, x: nat)
    requires Inv(s) && Enabled(s, step) && x in Next(s, step).open
    ensures OpenValid(Next(s, step).t, Next(s, step).open[x])
  {
    var s' := Next(s, step);
    if x in s.open {
      var c := s.open[x];
      assert OpenValid(s.t, c);
      assert Locked(s, c.scan);
      if step.SetStatus? {
        SetStatusOnlyFails(s.t, step.scan, step.status, step.code);
      } else if step.AddJob? {
        MoreJobsAccept(s.t.jobs, s'.t.jobs, MatchesOf(s.t, c.scan), c.matches);
      }
    } else {
      assert step.BeginCompletion?;
      assert RowValid(s.t, s.t.scans[step.scan]);
    }
  }

  lemma StepKeepsScanRows(s: State, step: Step)
    requires Inv(s) && Enabled(s, step)
    ensures InUse(Next(s, step)) && ParsingHasNoCode(Next(s, step).t)
  {
    if step.SetStatus? { SetStatusOnlyFails(s.t, step.scan, step.status, step.code); }
  }

  lemma StepKeepsCompletionsApart(s: State, step: Step)
    requires Inv(s) && Enabled(s, step)
    ensures OneCompletionPerScan(Next(s, step).open)
  {
  }

  lemma StepKeepsInv(s: State, step: Step)
    requires Inv(s) && Enabled(s, step)
    ensures Inv(Next(s, step))
  {
    var s' := Next(s, step);
    StepKeepsValid(s, step);
    forall x | x in s'.open ensures OpenValid(s'.t, s'.open[x]) {
      StepKeepsOpen(s, step, x);
    }
    StepKeepsScanRows(s, step);
    StepKeepsCompletionsApart(s, step);
  }

  /** Only its own creation brings a scan about. */
  lemma OthersStepIsLater(s: State, step: Step, scan: nat)
    requires Inv(s) && Enabled(s, step) && step != CreateScan(scan)
    ensures Valid(Next(s, step).t) && Later(s.t, Next(s, step).t, scan)
  {
    StepKeepsValid(s, step);
    assert Evolves(s.t, Next(s, step).t, scan);
    if scan !in s.t.scans {
      OthersCreateOthers(s, step, scan);
    }
  }

  lemma OthersCreateOthers(s: State, step: Step, scan: nat)
    requires Enabled(s, step) && step != CreateScan(scan) && scan !in s.t.scans
    ensures scan !in Next(s, step).t.scans
  {
  }

  ghost predicate IsRun(states: seq<State>, steps: seq<Step>) {
    && |states| == |steps| + 1
    && states[0] == State(Tables(map[], {}, map[], {}), map[], {})
    && forall i :: 0 <= i < |steps| ==> Enabled(states[i], steps[i]) && states[i + 1] == Next(states[i], steps[i])
  }

  lemma {:induction false} EveryStateKeepsInv(states: seq<State>, steps: seq<Step>, i: nat)
    requires IsRun(states, steps) && i < |states|
    ensures Inv(states[i])
  {
    if i > 0 {
      EveryStateKeepsInv(states, steps, i - 1);
      StepKeepsInv(states[i - 1], steps[i - 1]);
    }
  }

  lemma StepIsLater(states: seq<State>, steps: seq<Step>, k: nat, scan: nat)
    requires IsRun(states, steps) && k < |steps| && steps[k] != CreateScan(scan)
    ensures Later(states[k].t, states[k + 1].t, scan)
  {
    EveryStateKeepsInv(states, steps, k);
    OthersStepIsLater(states[k], steps[k], scan);
  }

  lemma {:induction false} TablesAreLater(states: seq<State>, steps: seq<Step>, i: nat, j: nat, scan: nat)
    requires IsRun(states, steps) && i <= j < |states|
    requires forall k :: i <= k < j ==> steps[k] != CreateScan(scan)
    ensures Later(states[i].t, states[j].t, scan)
  {
    if i < j {
      TablesAreLater(states, steps, i, j - 1, scan);
      StepIsLater(states, steps, j - 1, scan);
      LaterComposes(states[i].t, states[j - 1].t, states[j].t, scan);
    }
  }

  /** What a session may rely on between two of its calls, over any stretch in which it creates no scan itself. */
  lemma OthersAreLater(states: seq<State>, steps: seq<Step>, i: nat, j: nat, scan: nat)
    requires IsRun(states, steps) && i <= j < |states|
    requires forall k :: i <= k < j ==> steps[k] != CreateScan(scan)
    ensures Valid(states[j].t) && Later(states[i].t, states[j].t, scan)
  {
    EveryStateKeepsInv(states, steps, j);
    TablesAreLater(states, steps, i, j, scan);
  }

  lemma LaterComposes(a: Tables, b: Tables, c: Tables, scan: nat)
    requires Later(a, b, scan) && Later(b, c, scan)
    ensures Later(a, c, scan)
  {
  }

  /**
   On every run a committed scan is PARSING, COMPLETED or FAILED; a profile is
   attached exactly in COMPLETED, and exists; match rows belong to COMPLETED
   scans, each with a score the table's checks accept.
   */
  lemma CommittedScansAreWhole(states: seq<State>, steps: seq<Step>, i: nat, id: nat)
    requires IsRun(states, steps) && i < |states|
    ensures var t := states[i].t;
            && (id in t.scans ==>
                  && t.scans[id].status in {Parsing, Completed, Failed}
                  && (t.scans[id].profile.Some? <==> t.scans[id].status == Completed)
                  && (t.scans[id].profile.Some? ==> t.scans[id].profile.value in t.profiles))
            && (forall job :: job in MatchesOf(t, id) ==>
                  id in t.scans && t.scans[id].status == Completed && ScoreChecks(MatchesOf(t, id)[job]))
  {
    EveryStateKeepsInv(states, steps, i);
    assert RowsValid(states[i].t, id, MatchesOf(states[i].t, id));
  }

  /** A finished scan is never changed: for the rest of the run its row and matches stay, unless it is deleted for good. */
  lemma {:induction false} FinishedScanIsFrozen(states: seq<State>, steps: seq<Step>, i: nat, j: nat, id: nat)
    requires IsRun(states, steps) && i <= j < |states|
    requires id in states[i].t.scans && Terminal(states[i].t.scans[id])
    ensures id in states[j].t.scans ==>
              states[j].t.scans[id] == states[i].t.scans[id] && MatchesOf(states[j].t, id) == MatchesOf(states[i].t, id)
    ensures id in states[j].used
  {
    EveryStateKeepsInv(states, steps, i);
    if j > i {
      FinishedScanIsFrozen(states, steps, i, j - 1, id);
      EveryStateKeepsInv(states, steps, j - 1);
      StepKeepsValid(states[j - 1], steps[j - 1]);
      assert Evolves(states[j - 1].t, states[j].t, id);
    }
  }

  /** A commit always lands: nothing that was checked can have changed under the lock. It publishes the whole list, once. */
  lemma CommitPublishes(s: State, x: nat)
    requires Inv(s) && x in s.open
    ensures var c, t' := s.open[x], Next(s, Commit(x)).t;
            && c.scan in t'.scans && t'.scans[c.scan] == Scan(Completed, Some(c.profile), None)
            && StoresExactly(map[], c.matches, MatchesOf(t', c.scan))
  {
    var c := s.open[x];
    assert OpenValid(s.t, c);
    PublishedIsValid(s.t, c.scan, c.profile, c.matches);
  }

  /** A scan becomes COMPLETED by its own completion's commit and in no other way. */
  lemma OnlyCommitsComplete(s: State, step: Step, id: nat)
    requires Inv(s) && Enabled(s, step) && id in Next(s, step).t.scans && Next(s, step).t.scans[id].status.Completed?
    requires id in s.t.scans ==> !s.t.scans[id].status.Completed?
    ensures step.Commit? && s.open[step.tx].scan == id
  {
    if step.SetStatus? { SetStatusOnlyFails(s.t, step.scan, step.status, step.code); }
  }

  /** The worker that lost the acknowledgement and reports a failure changes nothing. */
  lemma FailureAfterCompletionIsRefused(states: seq<State>, steps: seq<Step>, i: nat, j: nat, x: nat, code: Option<string>)
    requires IsRun(states, steps) && i < j < |states| && steps[i] == Commit(x) && code.Some? && !Blank(code.value)
    ensures StatusUpdated(states[j].t, states[i].open[x].scan, Failed, code) == Err(ScanNotFound)
  {
    EveryStateKeepsInv(states, steps, i);
    CommitPublishes(states[i], x);
    FinishedScanIsFrozen(states, steps, i + 1, j, states[i].open[x].scan);
  }

  // ---------- the repository and the worker ----------

  datatype Outcome = Done | DoneUnheard | NotDone

  class ScanStore {
    var t: Tables

    constructor (tables: Tables)
      ensures t == tables
    {
      t := tables;
    }

    method SetStatus(scan: nat, status: Status, code: Option<string>) returns (error: Option<ScanError>)
      modifies this
      ensures match StatusUpdated(old(t), scan, status, code)
              case Ok(after) => error.None? && t == after
              case Err(e) => error == Some(e) && t == old(t)
    {
      match StatusUpdated(t, scan, status, code)
      case Ok(after) => t := after; return None;
      case Err(e) => return Some(e);
    }

    /** The transaction up to its commit: `work` is what it alone sees, and nothing is published on an error. */
    method CompleteScan(scan: nat, profile: nat, matches: seq<Match>) returns (error: Option<ScanError>)
      requires profile !in t.profiles
      modifies this
      ensures match ScanCompleted(old(t), scan, profile, matches)
              case Ok(after) => error.None? && t == after
              case Err(e) => error == Some(e) && t == old(t)
    {
      var work := t.(profiles := t.profiles + {profile});
      if scan !in work.scans || !work.scans[scan].status.Parsing? {
        return Some(InvalidScanState);
      }
      work := work.(scans := work.scans[scan := work.scans[scan].(profile := Some(profile), status := Matching)]);
      var rows: map<nat, Score> := MatchesOf(t, scan);
      var i := 0;
      while i < |matches|
        invariant 0 <= i <= |matches| && t == old(t)
        invariant Inserted(t.jobs, rows, matches[i..]) == Inserted(t.jobs, MatchesOf(t, scan), matches)
      {
        assert matches[i..][1..] == matches[i + 1..];
        if !Accepted(work.jobs, rows, matches[i]) {
          return Some(CheckViolation);
        }
        rows := rows[matches[i].job := matches[i].score];
        i := i + 1;
      }
      if !work.scans[scan].status.Matching? {
        return Some(InvalidScanState);
      }
      t := work.(scans := work.scans[scan := work.scans[scan].(status := Completed)], matches := work.matches[scan := rows]);
      return None;
    }

    /** Both statements of the insert, committed together: the RECEIVED row is never seen. */
    method InsertParsingScan(activeLocation: bool, scan: nat) returns (error: Option<ScanError>)
      requires scan !in t.scans
      modifies this
      ensures error == if activeLocation then None else Some(LocationNotFound)
      ensures t == if activeLocation then old(t).(scans := old(t).scans[scan := Scan(Parsing, None, None)]) else old(t)
    {
      if !activeLocation {
        return Some(LocationNotFound);
      }
      var row := Scan(Received, None, None);
      if row.status.Received? {
        t := t.(scans := t.scans[scan := row.(status := Parsing)]);
      }
      return None;
    }
  }

  /** Callers may count on no more than this from the steps of the other sessions. It changes nothing here. */
  method Interfere(db: ScanStore, scan: nat)
    requires Valid(db.t)
    modifies db
    ensures Valid(db.t) && Later(old(db.t), db.t, scan)
  {
  }

  /** `CreateScanForClient`: an ID is returned only for a scan that is committed and PARSING, heard of or read back. */
  method CreateScanForClient(db: ScanStore, activeLocation: bool, scan: nat) returns (r: Result<nat, ScanError>)
    requires Valid(db.t) && scan !in db.t.scans
    modifies db
    ensures Valid(db.t)
    ensures r.Ok? ==> r.value == scan && scan in db.t.scans && db.t.scans[scan].status == Parsing
    ensures !activeLocation ==> r.Err? && db.t == old(db.t)
  {
    var outcome: Outcome := *;
    var error := None;
    if !activeLocation || outcome != NotDone {
      error := db.InsertParsingScan(activeLocation, scan);
    }
    if error.Some? {
      return Err(error.value);
    }
    NewScanIsValid(old(db.t), db.t, scan);
    if outcome == Done {
      return Ok(scan);
    }
    Interfere(db, scan);
    var readFailed: bool := *;
    if !readFailed && scan in db.t.scans && db.t.scans[scan].status == Parsing {
      return Ok(scan);
    }
    return Err(ConnectionFailed);
  }

  lemma NewScanIsValid(a: Tables, b: Tables, scan: nat)
    requires Valid(a) && scan !in a.scans
    requires b == a || b == a.(scans := a.scans[scan := Scan(Parsing, None, None)])
    ensures Valid(b)
  {
    forall id | id in b.scans ensures RowValid(b, b.scans[id]) {
      assert id in a.scans ==> RowValid(a, a.scans[id]);
    }
    forall id ensures RowsValid(b, id, MatchesOf(b, id)) {
      assert RowsValid(a, id, MatchesOf(a, id));
    }
  }

  /** Two attempts, as the update may be done and yet not heard of. Success means the failure is recorded. */
  method SetFailedStatus(db: ScanStore, scan: nat, code: string) returns (error: Option<ScanError>)
    requires Valid(db.t) && !Blank(code)
    modifies db
    ensures Valid(db.t) && Later(old(db.t), db.t, scan)
    ensures error.None? ==> scan in db.t.scans && db.t.scans[scan] == Scan(Failed, None, Some(code))
    ensures scan in old(db.t).scans && old(db.t).scans[scan].status.Completed? ==> error.Some?
  {
    error := Some(ConnectionFailed);
    var attempt := 0;
    while attempt < 2
      invariant Valid(db.t) && Later(old(db.t), db.t, scan)
      invariant error.Some?
    {
      Interfere(db, scan);
      var outcome: Outcome := *;
      error := Some(ConnectionFailed);
      if outcome != NotDone {
        ghost var before := db.t;
        SetStatusOnlyFails(before, scan, Failed, Some(code));
        error := db.SetStatus(scan, Failed, Some(code));
        if error.None? { StatusUpdatedIsValid(before, scan, Failed, Some(code)); }
        if outcome == DoneUnheard {
          error := Some(ConnectionFailed);
        }
      }
      if error.None? {
        return;
      }
      attempt := attempt + 1;
    }
  }

  /**
   `processInBackground`: parsing and matching may fail early; otherwise the scan
   is completed, and any error, a lost acknowledgement included, is reported.
   When nothing is logged the scan is finished; when the completion landed, the
   scan stays COMPLETED whatever is reported afterwards.
   */
  method ProcessInBackground(db: ScanStore, scan: nat, earlyFailure: Option<string>, profile: nat, matches: seq<Match>)
    returns (logged: bool, landed: bool)
    requires Valid(db.t) && (earlyFailure.Some? ==> !Blank(earlyFailure.value))
    modifies db
    ensures Valid(db.t) && Later(old(db.t), db.t, scan)
    ensures !logged ==> scan in db.t.scans && Terminal(db.t.scans[scan])
    ensures landed && scan in db.t.scans ==> db.t.scans[scan].status == Completed
    ensures !logged && earlyFailure.Some? ==> db.t.scans[scan] == Scan(Failed, None, earlyFailure)
  {
    landed := false;
    var failure := earlyFailure;
    Interfere(db, scan);
    if failure.None? {
      var outcome: Outcome := *;
      var error := Some(ConnectionFailed);
      if outcome != NotDone && profile !in db.t.profiles {
        ghost var before := db.t;
        error := db.CompleteScan(scan, profile, matches);
        landed := error.None?;
        if landed { PublishedIsValid(before, scan, profile, matches); }
        if outcome == DoneUnheard {
          error := Some(ConnectionFailed);
        }
      }
      if error.None? {
        return false, true;
      }
      failure := Some("scan_results_failed");
      assert failure.value[0] == 's';
    }
    var updateError := SetFailedStatus(db, scan, failure.value);
    return updateError.Some?, landed;
  }
}
