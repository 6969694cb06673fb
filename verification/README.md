# Verified model of the job crawler and its API

A crawler written in Rust and an API written in Go share one PostgreSQL
database. This Dafny project models the transactions they run against each
other, the durable queues they keep, and the algorithms that decide what is
crawled, matched and shown, and proves what every run of them keeps.

Check the whole project with `dafny verify dfyconfig.toml`.

## What is modelled

| Module | What it models |
|---|---|
| `AddressFilter` | the public-address tests of both programs: bit masks, byte loops, range tables |
| `Scope` | URL boundaries: canonical paths, hosts and ports, the allow test |
| `Reconcile` | a job's lifecycle, the pure specification |
| `CrawlTables` | the shared tables, each SQL statement of the crawler, and the same for one row |
| `CrawlProtocol` | crawl workers against admins, statement by statement, with open transactions, row locks, lost replies and crashes |
| `CrawlTransactions`, `CrawlInvariant` | what open transactions hold, and the invariant that every step and run keeps |
| `CrawlHistory` | what the log of committed transactions says about one job |
| `CrawlGuards` | what the guards of the statements buy over whole runs, and what a worker may rely on while others act |
| `CrawlDatabase` | the database calls and `run_source`, in place, among other sessions |
| `CrawlRequests` | the manual crawl queue against its CHECK constraint, and the worker's loop body |
| `JobPostings`, `CrawlReports` | from JSON-LD documents to postings, pages, and the report that authorises reconciliation |
| `CvDeletion` | shared CV profiles under Read Committed statements and row locks |
| `ScanLifecycle` | scans, their profiles and matches, and the worker that reports on them |
| `HomeAssets`, `HomeCleanup` | Home images, their cleanup queue, and the provider's delete outside any transaction |
| `RateLimiter` | the bounded fixed-window limiter |
| `ScriptScanner`, `PdfLiterals` | the JSON-LD script scanner and the PDF literal-string reader |
| `Normalize`, `RoleFamily` | text normalisation over an abstract alphabet, and the role families that rest on it |
| `MatchScoring`, `ScoreRounding`, `MatchRanking` | scores in exact arithmetic, the rounding the table checks, their ordering, and their publication |
| `Wrappers`, `Collections` | options and results; parts of sequences and sizes of sets |

Code that changes state is a class or a method proved against a function; the
interleavings of several sessions are state machines over the same functions.
A method marked `Interfere` stands for the steps of other sessions between two
calls: it does nothing, and callers know of it only what it ensures, which is
proved of every stretch of a run in which the caller takes no step
(`CrawlGuards.OthersMayOverRuns`, `ScanLifecycle.OthersAreLater`,
`HomeCleanup.RunsKeepClaims`, `RunsLoseOnlyUnnoticed` and `RunsLeaveJobFree`).
A value assigned `*` is an outcome the program cannot choose: a commit that is
heard, lost, or done and not heard of.

## Assumptions

- `now()` is a transaction's start and never goes back; `started_at` and
  `requested_at` default to it.
- The exact per-job refinement (`CrawlHistory.OneWorkerFollowsReconcileJob`)
  also assumes one worker and a clock that strictly advances between its
  transactions. Without that, `CrawlTables.CommitRefinesReconcileJob` says
  when a single commit agrees with the lifecycle and when it does not.
- A batch may hold a key twice: postings are told apart within a page only. The
  last one wins.
- Row locks are held to the end of a transaction, and a statement that needs a
  locked row waits. Generated IDs are fresh and never used again.
- Uploaded Home assets have fresh IDs. A commit that was not heard of lands, if
  at all, before its asset is first claimed for cleanup.
- The limiter's clock readings do not go back in the order its lock is taken,
  and its keys are not empty.
- The address tables follow section 3.1 of RFC 4632, with IPv4-mapped addresses
  of section 2.5.5.2 of RFC 4291. Paths are walked as in section 5.2.4 of
  RFC 3986, except that empty segments are dropped and the result ends with a
  slash. PDF literals are a subset of section 7.3.4.2 of ISO 32000-1.

## Where the code does less than it says

- `mark_inactive_crawl_requests` is meant to fail the pending requests of
  sources that are no longer active. The table's check refuses a `finished_at`
  without a `started_at`, so the statement fails whenever it has anything to
  do, and the queue behind it stops until the source is made active again
  (`CrawlRequests.MarkInactiveNeverMarks`, `BlockedUntilActivated`).
- The deletion of its Job Link aside, nothing but its own claimer or worker
  ever ends a RUNNING request
  (`CrawlGuards.OthersMayOverRuns`): one whose claim went unheard, or whose
  worker stopped, stays RUNNING.
- The match table wants the percentage to be the sum of the rounded parts, but
  the percentage is rounded on its own. One score that misses by a hundredth
  keeps the whole scan from completing
  (`ScoreRounding.AcceptedExactlyWhenRemaindersCancel`,
  `MatchRanking.PublishedExactlyWhenAllRemaindersCancel`). A score in which at
  most one part is not in whole hundredths is always accepted
  (`ScoreRounding.OneFractionalPartIsAccepted`).
- The Home upsert locks its slot only if the row exists, and a transaction
  looks for other references before it commits. So two first writes can lose
  the first one's image, and two replacements an old image that both rows share
  (`HomeAssets.TwoFirstWritesLoseAnAsset`, `TwoReplacementsLoseASharedAsset`).
  When exactly an image is lost is `LostExactlyByLosingCommit` for a step and
  `LostExactlyWhenUnnoticed` for a run, from any rows; with one row for each
  image and writes to known slots only, never (`KnownSlotsLoseNothing`). No
  image is ever deleted while a row names it.
- Adjacent PDF literals lose text (`PdfLiterals.RoundTripExactlyWhenSeparated`).
- Normal forms are not always fixed points: decomposition can carry them over
  the length limit (`Normalize.FixedPointWithinLimit`).
- The guarded status update lists a move to MATCHING, but no committed scan can
  make it (`ScanLifecycle.SetStatusOnlyFails`).
- `reconcile_job` closes a job that its source declares closed even in an
  unhealthy run; the store writes nothing then, so the refinement is stated
  for healthy runs.
- One page in scope without a job posting makes the run an ANOMALY
  (`CrawlReports.BuildReport`), so the crawl's own report is never HEALTHY with
  reconciliation unauthorised, and the later test for that in `run_source`
  never acts on it.

## Model

| member | source | states |
|---|---|---|
| `AddressFilter.MaskIsInterval` | crawler/src/scope.rs:308-324 | testing an address against a masked network is testing that it lies in the network's block, for every prefix and both widths |
| `AddressFilter.ByteTestIsWordTest` | backend/internal/service/job_link.go:287-294 | Go's byte-by-byte containment decides the same as one test on the whole address |
| `AddressFilter.GoTestIsBlock` | backend/internal/service/job_link.go:275-294 | a Go range contains exactly the addresses of its block |
| `AddressFilter.GoTableIsInRustTable` | backend/internal/service/job_link.go:246-258 | every IPv6 range the API lists, the crawler lists too |
| `AddressFilter.RustAcceptsExactly` | crawler/src/scope.rs:276-306 | of the IPv6 addresses that are not IPv4-mapped the crawler accepts exactly 2000::/4 less 2001::/23, 2001:db8::/32 and 2002::/16 |
| `AddressFilter.GoAcceptsExactly` | backend/internal/service/job_link.go:262-273 | so does the API |
| `AddressFilter.FiltersAgree` | crawler/src/scope.rs:233-243 | the crawler and the API accept the same addresses, over all of IPv4 and IPv6, though their tables differ |
| `Scope.CanonicalPath` | crawler/src/scope.rs:193-208 | the segment stack computes the canonical path |
| `Scope.SegmentsAreClean` | crawler/src/scope.rs:195-203 | the kept segments are never empty, "." or ".." and hold no slash |
| `Scope.CanonicalIsIdempotent` | crawler/src/scope.rs:193-208 | canonicalising twice changes nothing, for every path |
| `Scope.PathIsUnderIsSegmentPrefix` | crawler/src/scope.rs:189-191 | the text test on canonical paths holds exactly when the prefix's segments lead the candidate's |
| `Scope.EquivalentHostsShareCanonicalForm` | crawler/src/scope.rs:145-187 | two hosts are equivalent exactly when their canonical forms are equal, and those are fixed points |
| `Scope.ScopeMeaning` | crawler/src/scope.rs:44-65 | a URL is allowed exactly when scheme, canonical host, effective port and leading segments agree with the base URL |
| `Scope.BaseIsInScope` | crawler/src/scope.rs:29-38 | a usable base URL lies in its own boundary |
| `Scope.ScopeIsTransitive` | crawler/src/scope.rs:51-65 | a boundary drawn inside another allows nothing the outer one does not |
| `CrawlTables.LastObservationWins` | crawler/src/store.rs:392-437 | after a batch a row shows the last observation of its key, seen at the transaction's time |
| `CrawlTables.HealthyRows` | crawler/src/store.rs:506-586 | row by row, the upserts and the aging are one row function on the source and touch no other source |
| `CrawlTables.CommitRefinesReconcileJob` | crawler/src/reconcile.rs:47-82 | what the SQL leaves in a row is what the pure lifecycle says for a healthy run; for an unobserved open job exactly when it was last seen before the run started |
| `CrawlTables.CreatedIsGrowth` | crawler/src/store.rs:426-437 | the created count is the growth of the source's cache, repeated keys included |
| `CrawlTables.UpdatedCountsChanges` | crawler/src/store.rs:397-437 | the updated count is the number of observations whose key was known under another hash |
| `CrawlTables.MissingIsMoved` | crawler/src/store.rs:448-463 | the aged jobs are exactly the known, unobserved jobs whose state the transaction moved |
| `CrawlInvariant.StepKeepsInv` | crawler/src/main.rs:292-451 | every statement of the worker and every admin edit keeps the whole invariant, whatever transactions are open |
| `CrawlInvariant.EveryStateKeepsInv` | crawler/src/main.rs:292-451 | so does every run, from empty tables |
| `CrawlInvariant.OpenJobsStayInScope` | backend/internal/repository/postgres_job_links.go:238-293 | under every interleaving each ACTIVE or VERIFYING job's URL is allowed by its source's present base URL |
| `CrawlInvariant.FinishedRunIsFrozen` | crawler/src/store.rs:322-348 | no step changes a finished run |
| `CrawlInvariant.FinalisedOnce` | crawler/src/main.rs:502-550 | a run is finalised at most once: its row is the same in all later states |
| `CrawlInvariant.OutcomesAreConsistent` | crawler/src/main.rs:377-451 | a finished run is HEALTHY exactly when its job writes are committed; Ok means finished; a COMPLETED request names a finished run; whatever commits, aborts or goes unheard |
| `CrawlInvariant.CommitsAreSerialisable` | crawler/src/main.rs:377-409 | the job cache equals the replay of the committed transactions in commit order |
| `CrawlTransactions.CommitMatchesCounts` | crawler/src/store.rs:374-463 | the counts a healthy run reports are what its commit did, even when others committed while it was open |
| `CrawlHistory.ClosedJobHasCause` | crawler/src/store.rs:578-586 | a CLOSED job was declared closed, or closed by a base-URL edit, or missed by two distinct HEALTHY runs that both started after it was last seen; ACTIVE, VERIFYING and CLOSED carry 0, 1 and 2 missed cycles |
| `CrawlHistory.LocationsFollowOwnershipRule` | backend/internal/repository/postgres_locations.go:69-79 | an ADMIN job shows the last assigned location, an AUTO job the last one resolved since it appeared or was cleared |
| `CrawlHistory.OneWorkerFollowsReconcileJob` | crawler/src/reconcile.rs:47-82 | with one worker and a clock that advances between its transactions every job follows the pure lifecycle exactly |
| `CrawlGuards.EndedRequestStays` | crawler/src/store.rs:257-304 | a COMPLETED or FAILED request is the same in every later state: no attach, completion, failure or claim touches it again |
| `CrawlGuards.LinkedRunServesRequest` | crawler/src/store.rs:257-271 | on every run a request's run link names the run of the one worker that serves it, and that run crawls the requested source |
| `CrawlGuards.UnfinishedRunIsAsBegun` | crawler/src/store.rs:306-320 | a run that has not finished, after a crash too, is as it was begun: an ANOMALY without counts, never HEALTHY |
| `CrawlGuards.PublishesIntoActiveSource` | backend/internal/repository/postgres_job_links.go:299-308 | whenever a crawl is published its source is approved and still has the base URL its worker was started with, and every observation is inside it, whatever pauses and edits are interleaved |
| `CrawlGuards.OtherStepsMay` | crawler/src/main.rs:292-451 | no step of another session changes a worker's run, the request it serves, a finished run or an ended request |
| `CrawlGuards.OthersMayOverRuns` | crawler/src/main.rs:292-451 | nor does any stretch of a run in which only others act, so only its own worker or claimer ends a RUNNING request |
| `CrawlDatabase.Database.LockActiveSourceSnapshot` | crawler/src/store.rs:465-488 | an error exactly when the source is gone, not approved, or has another base URL |
| `CrawlDatabase.Database.PersistHealthyObservations` | crawler/src/store.rs:363-446 | succeeds exactly when the snapshot holds and every observation is acceptable; else the error is the first problem and only the rows before it are written |
| `CrawlDatabase.Database.ReconcileMissingJobs` | crawler/src/store.rs:448-463 | ages exactly the missed jobs and returns how many |
| `CrawlDatabase.Database.FinishCrawlRunIfUnfinished` | crawler/src/store.rs:322-348 | the compare-and-set: moves an unfinished run once, or says that it did not |
| `CrawlDatabase.Database.UpdateJobLink` | backend/internal/repository/postgres_job_links.go:238-293 | is the base-URL step of the state machine: a changed URL closes the source's open jobs in the same transaction; an unchanged one touches no job |
| `CrawlDatabase.Database.AssignJobLocation` | backend/internal/repository/postgres_locations.go:178-202 | is the assignment step of the state machine, and acts only for a known job and location |
| `CrawlDatabase.Database.PersistHealthyRun` | crawler/src/main.rs:377-409 | writes, aging and the run's end are published together or not at all |
| `CrawlDatabase.FinalizeRun` | crawler/src/main.rs:502-550 | Ok only for a finished run; recovery never makes a run HEALTHY nor changes one that was finished, whatever was lost on the way |
| `CrawlDatabase.PersistOrRecover` | crawler/src/main.rs:377-439 | after an unheard commit the run ends HEALTHY exactly when the transaction was published |
| `CrawlDatabase.RunSource` | crawler/src/main.rs:292-451 | Ok means the run is finished and the claimed request COMPLETED with it; a finished run is HEALTHY exactly when published; published only after a healthy, authoritative crawl whose every observation is in scope; until then the request stays RUNNING |
| `CrawlDatabase.CompareIsStep` | crawler/src/main.rs:502-550 | the compare-and-set that ends a run is the worker's finalizing or recovering step, errors included |
| `CrawlDatabase.AttachIsStep` | crawler/src/store.rs:257-271 | attaching the run is the worker's step, and likewise `BeginIsStep`, `CompleteIsStep` and `FailIsStep` for the other statements |
| `CrawlDatabase.PersistIsTwoSteps` | crawler/src/main.rs:377-409 | the healthy transaction as one call does what its opening and its commit do as two steps: the rows held, laid over the table, are the table it leaves |
| `CrawlRequests.MarkInactiveNeverMarks` | database/migrations/000008_settings_and_crawl_requests.up.sql:30 | the statement succeeds exactly when no request is stranded, so it never fails one: it sets `finished_at` without `started_at` |
| `CrawlRequests.BlockedUntilActivated` | crawler/src/main.rs:208-229 | on every run one stranded request keeps the statement failing, and with it the queue, until an admin makes its source active again |
| `CrawlRequests.StrandedRequestBlocksOthers` | crawler/src/store.rs:206-220 | a concrete run, two sources with a request each and then one paused, after which the statement fails while the other request could be claimed |
| `CrawlRequests.ClaimNextCrawlRequest` | crawler/src/store.rs:222-255 | claims the oldest claimable request that no other session has locked, or nothing exactly when all claimable ones are locked |
| `CrawlRequests.ProcessOnePendingRequest` | crawler/src/main.rs:208-263 | claims nothing while a request is stranded; true only with the claimed request COMPLETED by its finished run; after a failed run the request is COMPLETED or FAILED unless the recovery failed too; false only when every claimable request is locked |
| `CrawlRequests.PendingIsUnstarted` | crawler/src/store.rs:222-255 | on every run a PENDING request has no start time |
| `JobPostings.CollectJobPostings` | crawler/src/crawl.rs:188-203 | the walk appends the collected postings to those already there |
| `JobPostings.CollectsEveryPosting` | crawler/src/crawl.rs:188-215 | the walk finds exactly the objects typed as job postings at places that arrays and "@graph" members lead to, each place once and in document order |
| `CrawlReports.ParseJobPostingHtml` | crawler/src/crawl.rs:131-161 | the postings of all documents are built in order; one rejected posting rejects the page; otherwise each key once |
| `CrawlReports.AuthoritativeExactlyWithPosting` | crawler/src/crawl.rs:142-161 | a page is authoritative exactly when some document has a posting at some place and none on the page is rejected |
| `CrawlReports.FirstPerKeyIsFirst` | crawler/src/crawl.rs:149-156 | within a page every key is kept once, with its first posting |
| `CrawlReports.BuildReport` | crawler/src/crawl.rs:620-702 | HEALTHY exactly when the crawl ended well, saw a page in scope, and every page in scope was fetched, parsed and held a posting; then reconciliation is authorised and all observations are reported |
| `CrawlReports.KeysMayRepeatAcrossPages` | crawler/src/crawl.rs:657-660 | across pages a key can come twice |
| `CvDeletion.ProfileNeverGone` | backend/internal/repository/postgres_client_cv.go:183-191 | the locking read finds the profile: the deleted scan still names it in every committed state |
| `CvDeletion.DeletionKeepsConsistent` | backend/internal/repository/postgres_client_cv.go:165-197 | a deletion's commit leaves no profile without a scan and no scan without its profile |
| `CvDeletion.CompletionKeepsConsistent` | backend/internal/repository/postgres_scans.go:381-427 | so does a completion's commit |
| `CvDeletion.CommitKeepsOthers` | backend/internal/repository/postgres_client_cv.go:165-197 | a commit leaves every other open transaction's decision right |
| `CvDeletion.StepKeepsInv` | backend/internal/repository/postgres_client_cv.go:165-197 | every statement keeps the invariant, under Read Committed with row locks |
| `CvDeletion.ProfilesAreNeverOrphanedOrLost` | backend/internal/repository/postgres_client_cv.go:165-197 | over every interleaving every profile has a scan and every profile a scan names exists; no deletion meets a vanished profile |
| `CvDeletion.NoDeadlock` | backend/internal/repository/postgres_client_cv.go:183-194 | the waits-for graph has no cycle |
| `CvDeletion.CvTables.DeleteCvScan` | backend/internal/repository/postgres_client_cv.go:165-197 | alone: the scan goes, and its profile exactly when no other scan names it |
| `ScanLifecycle.SetStatusOnlyFails` | backend/internal/repository/postgres_scans.go:39-48 | on committed tables the guarded update passes exactly for recording a failure, first or repeated with the same code; MATCHING never passes |
| `ScanLifecycle.InsertedExactly` | database/migrations/000001_initial_schema.up.sql:229-258 | a list of matches is stored row for row exactly when every row meets the checks, the job is known and no job comes twice |
| `ScanLifecycle.PublishedIsValid` | backend/internal/repository/postgres_scans.go:381-427 | completing a scan keeps the tables valid and stores exactly its matches |
| `ScanLifecycle.StepKeepsInv` | backend/internal/repository/postgres_scans.go:153-218 | every session's step keeps the invariant |
| `ScanLifecycle.CommittedScansAreWhole` | backend/internal/repository/postgres_scans.go:153-181 | on every run committed scans are PARSING, COMPLETED or FAILED, an existing profile is attached exactly in COMPLETED, and match rows, with scores the checks accept, exist only there |
| `ScanLifecycle.FinishedScanIsFrozen` | backend/internal/repository/postgres_scans.go:39-48 | neither COMPLETED nor FAILED is ever left, and the matches stay |
| `ScanLifecycle.CommitPublishes` | backend/internal/repository/postgres_scans.go:404-426 | a commit always lands under its lock and publishes the whole list |
| `ScanLifecycle.OnlyCommitsComplete` | backend/internal/repository/postgres_scans.go:130-133 | a scan becomes COMPLETED by its own completion's commit and in no other way |
| `ScanLifecycle.FailureAfterCompletionIsRefused` | backend/internal/service/scan_service.go:181-193 | a failure reported after a completion that went unheard changes nothing |
| `ScanLifecycle.OthersAreLater` | backend/internal/service/scan_service.go:162-194 | over any stretch in which a session does not create the scan itself, an absent scan stays absent, a terminal one stays as it is and PARSING never comes back |
| `ScanLifecycle.ScanStore.CompleteScan` | backend/internal/repository/postgres_scans.go:381-427 | all or nothing: the profile, the status and every match, or an error and no change |
| `ScanLifecycle.ScanStore.InsertParsingScan` | backend/internal/repository/postgres_scans.go:160-173 | the RECEIVED row is never visible |
| `ScanLifecycle.CreateScanForClient` | backend/internal/repository/postgres_scans.go:153-198 | an ID is returned only for a scan that is committed and PARSING, heard of or read back |
| `ScanLifecycle.SetFailedStatus` | backend/internal/service/scan_service.go:234-246 | success means the failure is recorded, also when the first attempt landed unheard; a completed scan is never touched |
| `ScanLifecycle.ProcessInBackground` | backend/internal/service/scan_service.go:162-194 | when nothing is logged the scan is finished; a completion that landed stays COMPLETED |
| `HomeAssets.StepKeepsSafe` | backend/internal/repository/postgres_home_sections.go:131-163 | no step makes a row name a claimed asset; only claimed assets are destroyed |
| `HomeAssets.StepKeepsSound` | backend/internal/repository/postgres_home_sections.go:122-126 | locked rows stay as their holder read them, and there are never more than ten media |
| `HomeAssets.StepKeepsOneOwner` | backend/internal/repository/postgres_home_sections.go:290-357 | with fresh uploads each asset keeps to one row, and open transactions enqueue exactly what they take out |
| `HomeAssets.LostExactlyByLosingCommit` | backend/internal/repository/postgres_home_sections.go:290-400 | whatever rows share images: an asset stops being named, queued or destroyed exactly when a commit takes it out of the last row that names it, it is not queued, and the transaction did not decide to queue it |
| `HomeAssets.LostExactlyWhenUnnoticed` | backend/internal/repository/postgres_home_sections.go:128-140 | on every run from any rows, a transaction did not decide so exactly when its upsert had found no row, or another row still named the asset when it decided |
| `HomeAssets.LostExactlyByRacingFirstWrite` | backend/internal/repository/postgres_home_sections.go:290-323 | where each asset has one row, an asset is lost exactly when a first write that found no row replaces an image that has appeared since and is not queued |
| `HomeAssets.NeverDestroyedWhileReferenced` | backend/internal/service/home_section_service.go:352-386 | over all runs, shared old assets and racing first writes included, nothing that a row names is destroyed or being destroyed |
| `HomeAssets.OwnedAssetsAreAccounted` | backend/internal/repository/postgres_home_sections.go:290-400 | from any rows: unless some commit loses it unnoticed, every asset a row once held is for ever named, queued or destroyed, across crashes, failed deletes and unheard commits |
| `HomeAssets.KnownSlotsLoseNothing` | backend/internal/repository/postgres_home_sections.go:290-323 | with one row for each asset at the start and images written to slots that have a row, nothing is ever lost |
| `HomeAssets.TwoFirstWritesLoseAnAsset` | backend/internal/repository/postgres_home_sections.go:297-318 | a concrete run in which two first writes of a slot lose the first one's image |
| `HomeAssets.TwoReplacementsLoseASharedAsset` | backend/internal/repository/postgres_home_sections.go:128-140 | a concrete run in which two slots sharing an old image are replaced together and neither queues it |
| `HomeCleanup.HomeStore.EnqueueHomeAssetCleanup` | backend/internal/repository/postgres_home_sections.go:402-408 | queues the asset exactly when no row names it and it is not queued |
| `HomeCleanup.HomeStore.UpsertHomeSection` | backend/internal/repository/postgres_home_sections.go:290-323 | queues exactly the asset taken out of the slot, unless another row names it |
| `HomeCleanup.HomeStore.CreateHomeSectionMedia` | backend/internal/repository/postgres_home_sections.go:325-357 | adds one medium, or says why not: no section, or ten already |
| `HomeCleanup.HomeStore.DeleteHomeSectionMedia` | backend/internal/repository/postgres_home_sections.go:377-400 | removes the medium and queues its asset together |
| `HomeCleanup.HomeStore.ClaimHomeAssetCleanup` | backend/internal/repository/postgres_home_sections.go:410-438 | the soonest due jobs without a reference, in order, up to the clamped limit, each with a new lease |
| `HomeCleanup.PickSoonest` | backend/internal/repository/postgres_home_sections.go:142-163 | ordered, distinct, and nothing sooner left out |
| `HomeCleanup.FirstErrorIsFirst` | backend/internal/service/home_section_service.go:366-385 | the error returned for a batch is the first there was |
| `HomeCleanup.StepsKeepClaims` | backend/internal/service/home_section_service.go:352-386 | every step of every session leaves claimed assets unnamed, and their jobs in the queue until the asset is destroyed |
| `HomeCleanup.RunsKeepClaims` | backend/internal/service/home_section_service.go:352-386 | so does any stretch of a run |
| `HomeCleanup.RunsLoseOnlyUnnoticed` | backend/internal/repository/postgres_home_sections.go:128-140 | a stretch of a run keeps an asset named, queued or destroyed unless one of its commits loses it unnoticed |
| `HomeCleanup.ProcessCleanupBatch` | backend/internal/service/home_section_service.go:352-386 | among other sessions, a job leaves the queue only after its asset is destroyed; failed deletes stay queued; only claimed, unnamed assets are destroyed; the error is the first there was |
| `HomeCleanup.UpsertUploaded` | backend/internal/service/home_section_service.go:199-213 | among other sessions, an upload whose write went unheard is queued or named by a row, unless queuing failed too; the image it replaced is named, queued or destroyed unless another session's commit loses it |
| `RateLimiter.Limiter.CleanupExpired` | backend/internal/httpapi/middleware.go:67-73 | exactly the unexpired buckets stay |
| `RateLimiter.Limiter.EvictOldest` | backend/internal/httpapi/middleware.go:75-89 | an oldest bucket goes and no other |
| `RateLimiter.Limiter.Allow` | backend/internal/httpapi/middleware.go:37-65 | one call is one step of the limiter |
| `RateLimiter.StaysBounded` | backend/internal/httpapi/middleware.go:18-28 | at most 10000 buckets, each with a count in 1..limit, on every run |
| `RateLimiter.LiveEvictionMeansAllLive` | backend/internal/httpapi/middleware.go:47-55 | a live bucket is evicted only when all 10000 are live, even when cleanup is throttled |
| `RateLimiter.CleanupsAreThrottled` | backend/internal/httpapi/middleware.go:48-51 | two cleanups are at least a second apart, or a window if that is shorter |
| `RateLimiter.WindowGrants` | backend/internal/httpapi/middleware.go:59-64 | a window of the unbounded limiter grants its first `limit` requests and no more |
| `RateLimiter.DecidesAsUnbounded` | backend/internal/httpapi/middleware.go:37-65 | for every key never evicted while live the answers are those of the unbounded fixed-window limiter |
| `ScriptScanner.FindsWhatOccurs` | crawler/src/crawl.rs:167-176 | a search finds a place no later than any occurrence |
| `ScriptScanner.TrimDropsOuterSpace` | crawler/src/crawl.rs:178 | trimming removes white space at the ends, all of it and nothing else |
| `ScriptScanner.JsonLdScriptBodies` | crawler/src/crawl.rs:163-186 | the cursor loop computes the bodies; it strictly advances on any input |
| `ScriptScanner.RoundTrip` | crawler/src/crawl.rs:163-186 | for any page of texts and script elements the scanner returns exactly the trimmed JSON-LD bodies, in order |
| `PdfLiterals.ExtractLiterals` | backend/internal/processor/extractor.go:86-127 | the nested byte loop terminates and writes no more bytes than it reads |
| `PdfLiterals.RoundTripExactlyWhenSeparated` | backend/internal/processor/extractor.go:87-127 | a document's literals come back, each with a newline, exactly when no literal begins right after another ends |
| `PdfLiterals.WrittenReadsBack` | backend/internal/processor/extractor.go:95-109 | any byte string can be escaped as a literal and is read back |
| `PdfLiterals.StringsComeBack` | backend/internal/processor/extractor.go:86-127 | any strings, written as separated literals, come back line by line |
| `Normalize.Normalize` | backend/internal/location/normalize.go:16-40 | the character loop computes the normal form |
| `Normalize.NormalizedIsTidy` | backend/internal/location/normalize.go:23-39 | the result is letters and digits in words separated by single spaces, with none at the ends |
| `Normalize.NormalizedKeepsWords` | backend/internal/location/normalize.go:25-38 | its words are the input's, letter for letter and in order |
| `Normalize.FixedPointWithinLimit` | backend/internal/location/normalize.go:16-20 | normalising again changes nothing exactly when the result has at most 512 characters |
| `Normalize.NotAlwaysAFixedPoint` | backend/internal/location/normalize.go:22 | a value of 171 syllables normalises to 513 letters, and those to nothing |
| `RoleFamily.PaddedTestIsWholeWords` | backend/internal/processor/matcher.go:154-158 | the padded substring test holds exactly when the term's words occur consecutively and whole |
| `RoleFamily.MatchesWholeWords` | backend/internal/processor/matcher.go:153-164 | so it does on normalised texts, for every value and every term with a word in it |
| `RoleFamily.FamilyIsFirstMatch` | backend/internal/processor/matcher.go:155-163 | the first matching rule gives the family |
| `RoleFamily.DetectRoleFamily` | backend/internal/processor/matcher.go:153-164 | the nested loops compute the family |
| `MatchScoring.BuildNormalizedSet` | backend/internal/processor/matcher.go:166-176 | the set of the values' nonempty normal forms |
| `MatchScoring.UniqueNormalized` | backend/internal/processor/matcher.go:178-185 | each normal form once, in any order |
| `MatchScoring.CountedIsCommon` | backend/internal/processor/matcher.go:49-56 | the counting loop counts the common elements |
| `MatchScoring.WeightedOverlap` | backend/internal/processor/matcher.go:43-57 | the share of the candidate's values that the profile has, of the weight |
| `MatchScoring.PreferredDomainPoints` | backend/internal/processor/matcher.go:113-127 | the same for preferred skills and domains together, out of ten |
| `MatchScoring.OverlapExtremes` | backend/internal/processor/matcher.go:43-57 | all the weight exactly when every target is matched and there is one, nothing exactly when none is |
| `MatchScoring.RoleRelevance` | backend/internal/processor/matcher.go:59-93 | equal families 25, different 0, otherwise the best role's share of common words |
| `MatchScoring.RolePointsBounds` | backend/internal/processor/matcher.go:59-93 | between 0 and 25 |
| `MatchScoring.SharedRoleFitsFully` | backend/internal/processor/matcher.go:59-93 | a profile role that reads as the candidate's earns all 25 points exactly when the two families do not differ |
| `MatchScoring.WordlessRoleFitsEverything` | backend/internal/processor/matcher.go:84-87 | a candidate role without letters is "contained" in every profile role and earns all 25 points |
| `MatchScoring.ExperienceExtremes` | backend/internal/processor/matcher.go:95-100 | full points exactly from a positive minimum on, and more years never lower them |
| `MatchScoring.ScoreCandidate` | backend/internal/processor/matcher.go:14-41 | an error exactly for an unusable candidate or profile, else the rounded points |
| `MatchScoring.PointsInRange` | backend/internal/processor/matcher.go:25-29 | each part lies within its weight |
| `MatchScoring.PercentIsCloseToItsParts` | backend/internal/processor/matcher.go:31-39 | the percentage lies in 0..100 and within 0.02 of the sum of its rounded parts |
| `ScoreRounding.HundredthsOfShare` | backend/internal/processor/matcher.go:187-189 | the rounded points of m of n values are (200 w m + n) / 2n hundredths in whole numbers |
| `ScoreRounding.RolePointsOfParts` | backend/internal/processor/matcher.go:59-93 | the role points are 25 times k of l: the share of the best role, compared in whole numbers |
| `ScoreRounding.AcceptedExactlyWhenRemaindersCancel` | database/migrations/000001_initial_schema.up.sql:244-257 | the table accepts a candidate's score exactly when the centred remainders of its counts (m of n required, k of l role words, the years of the minimum, m' of n' preferred) add up to at least minus and less than plus half a hundredth |
| `ScoreRounding.OneFractionalPartIsAccepted` | database/migrations/000001_initial_schema.up.sql:250-256 | a score in which at most one part is not in whole hundredths is always accepted |
| `ScoreRounding.OneSixthAndOneThirdAreRefused` | database/migrations/000001_initial_schema.up.sql:250-256 | 5.83 and 3.33 make 9.16 but the percentage is 9.17: the table refuses the row |
| `ScoreRounding.OneOfSixAndOneOfThreeAreRefused` | backend/internal/processor/matcher.go:31-39 | so is every candidate matched on one of six required and one of three preferred skills and nothing else |
| `MatchScoring.MoreSkillsNeverLower` | backend/internal/processor/matcher.go:43-57 | adding profile skills or domains lowers no part of a score and not the percentage |
| `MatchScoring.OrderAndRepetitionDoNotMatter` | backend/internal/processor/matcher.go:166-185 | scores depend on the sets of skills and domains only |
| `MatchRanking.BeforeIsStrictAndTotal` | backend/internal/processor/engine.go:66-80 | the comparator is a strict order, total on different job IDs |
| `MatchRanking.OrderedReads` | backend/internal/processor/engine.go:66-80 | in an ordered list percentages fall, known distances come first and rise, and jobs break ties |
| `MatchRanking.OrderIsUnique` | backend/internal/processor/engine.go:66-80 | a bag of matches has one ordered arrangement |
| `MatchRanking.SortMatches` | backend/internal/processor/engine.go:66-80 | the sort yields an ordered arrangement of the same matches |
| `MatchRanking.RankCandidates` | backend/internal/processor/engine.go:58-80 | every candidate scored and ordered, or an error when one cannot be scored |
| `MatchRanking.RankingIgnoresCandidateOrder` | backend/internal/processor/engine.go:54-80 | the ranking does not depend on the order of the candidates |
| `MatchRanking.PublishedExactlyWhenAllRemaindersCancel` | backend/internal/repository/postgres_scans.go:414-418 | a ranking is published exactly when the remainders cancel for every candidate: one refused score keeps the whole scan from completing |

## Left out

- `DeleteJobLink`, creating and listing Job Links, and the approval evidence columns: single statements around the rows that are modelled.
- Descriptive job columns are one value, replaced together by each upsert; `updated_at` columns are not kept.
- Counts are unbounded numbers: `i32` overflow of the page and job counters is not modelled.
- The at-most-one active request per source (a partial unique index) is not required, so the crawl model allows more queues than the database does.
- CrawlRequests.ProcessOnePendingRequest: of the runtime heartbeat only its failure is modelled, not its table.
- CrawlReports.ParseJobPostingHtml: takes the parsed JSON documents; turning one posting into an observation (dates, salaries, coordinates, hashes) is a parameter.
- Scope.ScopeMeaning: URL parsing is not modelled; a URL comes with its parsed parts, and the Go form of a Job Link is not compared with the Rust one.
- ScriptScanner.JsonLdScriptBodies: works on code points instead of bytes; the search for the JSON-LD media type in a tag is a search of the page between two places.
- PdfLiterals.ExtractLiterals: the size limit and the clean-up of the text (NUL bytes, invalid UTF-8, outer white space) are not modelled.
- Normalize.Normalize: case folding and canonical decomposition act on one character at a time; reordering of combining marks, which are all dropped, is not modelled.
- RoleFamily.DetectRoleFamily: takes the table of families as a parameter.
- MatchScoring.ScoreCandidate: real numbers instead of floating point; the upper-casing and case-folding of modes and seniorities are parameters.
- MatchRanking.SortMatches: an insertion on sequences stands for the library's stable sort in place; job IDs are numbers, ordered as their text is.
- ScanLifecycle.CreateScanForClient: the location snapshot and the owner of a scan are not kept. A scan whose commit was not heard of and could not be read back stays PARSING with no worker; nothing in the source ends it, and nothing here says otherwise.
- ScanLifecycle.ProcessInBackground: reading, parsing and matching before the completion either fail with a code or give the matches; temporary files, deadlines and shutdown are not modelled.
- CvDeletion.ProfilesAreNeverOrphanedOrLost: deletions by the cascade from a client user are not modelled.
- HomeCleanup.StepsKeepClaims: in `HomeAssets` every queued asset is claimable at any time, whatever its lease, which allows more runs than the database does.
- HomeAssets.OwnedAssetsAreAccounted: an upload that no row ever held can be lost by a crash before it is written or queued; only assets that a committed row once held are followed.
- Texts, sort orders and layouts of Home sections and media, and the ordering of HTTP handlers around the services.
- Sign-in, sessions, mail, maps, the language model, the crawler library, DNS and robots rules, configuration, runtime heartbeats and the user interface.
