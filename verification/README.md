# Verified model of the EVE Sentry state machines

The server and desktop code keep several small protocols consistent while workers, uploads and restarts
interleave. This project models those protocols in Dafny and proves what they keep over whole runs.

- **Personnel archive** (`RefreshJobs`, `Identities`, `NewestCell`, `Sightings`, `ArchiveRuns`,
  `PersonnelArchive`, `PersonnelPolicy`): a leased job queue with fencing tokens, revisions and backoff; an
  identity table with a permanent name index; last-writer-wins affiliation and organization rows. Each public
  method is one transaction; an error rolls it back.
- **Hot cache and import** (`PersonnelRuntime`, `RefreshBatches`, `PersonnelBackfill`): a bounded LRU with a
  reverse name index in front of the archive, and a restartable import through savepoints.
- **Monitoring authority** (`SourceAuthority`, `Takeover`, `SupersededStandby`, `CaptureState`, `RosterWait`,
  `AuthoritativeItems`, `CaptureFence`, `ZeroEvents`): election of one primary detector per system, takeovers
  that requeue rows in place, capture fencing, lease expiry, and clear or unknown events.
- **Event log, projection and bot** (`SystemState`, `BotBridge`): the append statement and its per-system
  projection with retention and backfill; the bot's consumer that mixes paged replay with snapshots.
- **Organization relations** (`RelationViews`, `RelationRefresh`): prioritised classification that stops at
  unknown sources, compare-and-swap snapshots, and a memoised view under concurrent writers and readers.
- **Concurrent protocols** (`EsiWorker`, `TokenStore`, `Transport`, `ContactHttp`): the deduplicating worker,
  token refresh against login and logout, the shared rate limiter and connection pool, and bounded contact
  paging.

Objects that the source updates in place are classes; each method is proved against a function of the old
state, and the run-level theorems are lemmas about those functions. Where threads interleave, a `Step` datatype
names the code sections between which others may act, `Next` is one section, and a run is any sequence of them.
Where coroutines or other processes interfere, nondeterministic choice inside the methods stands for them; what
a pass or a refresh finds outside is an input, and a ghost count of failed calls lets a contract say what happens
when none fails.

Modelling decisions:

- Time is `real`, given by the caller; calls of the clock inside one function share one value, except in the
  transport and the bot, where time passes between steps. Random jitter, `uuid4` tokens (fresh, non-empty) and
  disk failures are parameters.
- `key` (name folding of a stripped name), `canon` (the jsonb value of a payload text) and `digest` (the context
  hash) are arbitrary functions; nothing is assumed about them. The collation of job keys is any strict total order.
- The permit interval is positive: the constructor rejects any other rate.
- Defaults come from `app/esi/personnel_schema.sql` and `app/esi/relation_schema.sql`: profiles and jobs start at
  revision 1, relation snapshots at revision 0.
- The frame-accept step is modelled as: an accepted capture replaces or adds one presence row of its client.

Three properties are false of the code as first stated, and are proved with their exact condition:

- A takeover makes the chosen standby primary if and only if no window anywhere in the table names it as its
  legacy parent (`TakeoverElectsChosen`). The loops look only at residents, the later election at all rows, so
  one departed window defeats the takeover (`MissingRosterElectsNobodyNew`, `TruncatedElectsNobodyNew`).
- Rebuilding the projection from an empty table equals the kept one if and only if log retention has left the
  last alert of every system (`RebuildFromEmpty`); `PruningDefeatsRebuild` reaches a store where it has not. The
  backfill is a no-op in every reachable state all the same.
- Pending worker tasks are always served, and idle is set exactly when none is pending, if and only if no idle
  timeout seen before a submit is acted on after a close (`EveryRun`, `ServedUnlessStranded`). The race is
  `CloseCanStrand`; closing only while nothing is pending rules it out (`ClosingIdleNeverStrands`).

## Model

| member | source | states |
|---|---|---|
| PersonnelPolicy.RetryDelay | app/esi/personnel_policy.py:77-81 | errors exactly on bad arguments; otherwise the larger of the upstream's wish and the jittered backoff, never under 4 s and within five minutes unless upstream asks for more |
| PersonnelPolicy.BackoffDoubles | app/esi/personnel_policy.py:80 | the backoff starts at 5 s and doubles with every failure up to five minutes |
| PersonnelPolicy.RetryDelayGrows | app/esi/personnel_policy.py:77-81 | more failures never shorten the wait |
| PersonnelPolicy.RefreshDue | app/esi/personnel_policy.py:63-74 | within an hour of the fetch, no later than upstream's own deadline, and at one of the two |
| PersonnelPolicy.Tier | app/esi/personnel_policy.py:49-60 | tier 1 exactly for active characters; the others by whether they were seen within a day, a week, a month |
| RefreshJobs.UpsertAllSettles | app/esi/personnel_archive.py:309-332 | any sequence of requests leaves the least priority, the least due time unless backing off, and the lease fields untouched |
| RefreshJobs.SettledOnce | app/esi/personnel_archive.py:309-332 | that description determines the schedule, whatever the order or repetition of requests |
| RefreshJobs.RequestOrderIrrelevant | app/esi/personnel_archive.py:309-332 | requests in any order and with any repetition leave the same schedules |
| RefreshJobs.UpsertAllSplits | app/esi/personnel_archive.py:104-122 | cutting a batch into chunks changes nothing |
| RefreshJobs.UpsertMeans | app/esi/personnel_archive.py:319-332 | what one request does to its job and to all others, promote-only or not |
| RefreshJobs.UpsertRevision | app/esi/personnel_archive.py:319-331 | a request moves the revision of a job exactly when it moves its schedule, and never a backed-off due time |
| RefreshJobs.UpsertAllRevision | app/esi/personnel_archive.py:93-122 | over any batch priority and due time only fall, and the revision stands still if and only if both do |
| RefreshJobs.MergeIsLeast | app/esi/personnel_archive.py:95-103 | merged duplicates carry the least priority and the least due time, each from some request |
| RefreshJobs.MergedJobSettles | app/esi/personnel_archive.py:93-122 | one job after a merged batch is what its requests one by one would leave |
| RefreshJobs.BatchEqualsOneByOne | app/esi/personnel_archive.py:93-122 | a merged batch leaves the schedules that single requests in any order leave |
| RefreshJobs.ExpediteOnlyAdvances | app/esi/personnel_archive.py:334-345 | expediting spares leases and retries, never postpones, and moves the revision exactly when it moves the due time |
| RefreshJobs.ExpediteActs | app/esi/personnel_archive.py:340-345 | expediting acts if and only if it is that character's affiliation job, neither leased nor retrying, due after both the new time and the next minute |
| RefreshJobs.TakeAllAt | app/esi/personnel_archive.py:370-377 | a claim stamps exactly the claimed rows with token, end and revision |
| RefreshJobs.SelectionIsUnique | app/esi/personnel_archive.py:364-369 | what a claim selects is determined by the table, the rows other sessions lock, and its arguments |
| RefreshJobs.SelectionMeans | app/esi/personnel_archive.py:359-369 | selected rows are due, unleased, in their lane and in claim order; such a row is left behind only when the limit is reached, and only for rows that are no later |
| Identities.SaveIdentityKeepsIndex | app/esi/personnel_archive.py:203-248 | each profile keeps exactly one active key, that of its name; keys never change owner; revisions never fall; first seen is never after last seen; also when a conflict rolls back |
| Identities.SaveIdentityMeans | app/esi/personnel_archive.py:203-248 | what an identity write leaves, field by field: refused exactly for bad values or news under a key of another character; news carries name and check time under an active key it owns; sighting times widen; every other profile stays |
| Identities.FindNameIsScan | app/esi/personnel_archive.py:167-177 | the name index answers exactly what a scan of all profiles would, for at most one profile |
| Identities.SaveAffiliationKeepsIndex | app/esi/personnel_archive.py:254-276 | affiliation writes leave names and owners alone and never lower a revision |
| Identities.SaveAffiliationMeans | app/esi/personnel_archive.py:254-276 | what an affiliation write leaves, field by field, and when it is refused |
| NewestCell.NewerAllIsNewest | app/esi/personnel_archive.py:269-276 | a run of timestamped writes leaves a newest one, and equal timestamps keep the stored one |
| NewestCell.ArrivalOrderIrrelevant | app/esi/personnel_archive.py:269-276 | with distinct timestamps every order and duplication of writes ends alike |
| Identities.SaveAffiliationsRefinesCell | app/esi/personnel_archive.py:254-276 | the affiliation columns of a character behave as one newest-wins cell |
| Identities.AffiliationOrderIrrelevant | app/esi/personnel_archive.py:254-276 | every arrival order, with any duplication, of the same affiliation updates ends in the same row |
| Identities.SaveOrganizationsRefinesCell | app/esi/personnel_archive.py:282-294 | an organization row behaves as one newest-wins cell |
| Identities.SaveOrganizationMeans | app/esi/personnel_archive.py:282-294 | what an organization write leaves, and when it is refused |
| Identities.OrganizationOrderIrrelevant | app/esi/personnel_archive.py:282-294 | organization names converge whatever the order and duplication of results |
| Sightings.SightAllIsLatest | app/esi/personnel_archive.py:124-139 | sightings move last-seen of known characters to the latest of all, and nothing else |
| Sightings.MergedEqualsOneByOne | app/esi/personnel_archive.py:124-139 | merging sightings to the latest per character equals applying them one by one in any order |
| Sightings.SightAllKeepsIndex | app/esi/personnel_archive.py:124-139 | sightings keep the name index, the owners and first seen before last seen |
| Sightings.Merge | app/esi/personnel_archive.py:125-129 | an invalid sighting errors before any write; otherwise the latest per character remains |
| ArchiveRuns.BatchErrorIsFinal | app/esi/batch_connections.py:21-31 | an error in a nested transaction fails the whole batch |
| ArchiveRuns.BatchIsARun | app/esi/personnel_batches.py:57-96 | a batch that succeeds is the run of its finishes and fails, so the run theorems hold for batches |
| ArchiveRuns.LeasedIffNewestUnsettled | app/esi/personnel_archive.py:443-448 | a lease is honoured if and only if it is the newest claim of its job, not over and not settled before |
| ArchiveRuns.RunsAreFenced | app/esi/personnel_archive.py:347-448 | over any interleaving of requests, expedites, claims, finishes, fails and saves, each row mirrors its newest claim, and every write is inside a granted lease and the only one under its token |
| ArchiveRuns.EveryRunIsFenced | app/esi/personnel_archive.py:347-448 | the same for every run from the empty archive |
| ArchiveRuns.FinishedOnlyByNewest | app/esi/personnel_archive.py:380-402 | a finish that writes is by the newest claimant, before its lease ends, and the first under its token |
| ArchiveRuns.FinishMeans | app/esi/personnel_archive.py:380-420 | finish answers true if and only if the lease is held and its result fits and is accepted; then exactly that result is in its table and exactly that job is freed and rescheduled; otherwise nothing changed |
| ArchiveRuns.WriteResultMeans | app/esi/personnel_archive.py:404-420 | the result of each kind reaches its own table under the newest-wins rule, and no other row or table moves |
| ArchiveRuns.StaleLeaseIsInert | app/esi/personnel_archive.py:389-392 | a superseded, expired or settled lease's finish or fail changes nothing |
| ArchiveRuns.BackoffSurvivesRuns | app/esi/personnel_archive.py:309-378 | while a job backs off, no sequence of other operations lets a claim return it before its due time |
| ArchiveRuns.FailedJobWaits | app/esi/personnel_archive.py:422-441 | after a fail at t with delay d, the next claim of that job in any run is not before t + d, and d respects the upstream's wish |
| ArchiveRuns.FailMeans | app/esi/personnel_archive.py:422-441 | fail answers true exactly for a held lease under a safe category, and then only that job is counted, backed off and freed |
| ArchiveRuns.RevisionPinsSchedule | app/esi/personnel_archive.py:93-122 | while nobody claims or settles a job, over any run its revision stands still if and only if its schedule does |
| ArchiveRuns.FinishRespectsMovedSchedule | app/esi/personnel_archive.py:389-402 | finish takes the worker's schedule exactly when the revision stood still; a schedule moved during the lease stays; failures are forgotten |
| ArchiveRuns.RunsKeepIndex | app/esi/personnel_archive.py:203-248 | the name index and permanent owners hold over every run |
| ArchiveRuns.NameNeverChangesHands | app/esi/personnel_archive.py:226-234 | two profiles that carry one folded name at any two times of a run are one character |
| PersonnelArchive.CleanMeans | app/esi/personnel_archive.py:309-317 | a request is accepted exactly for a name or a positive id as its kind demands, a priority from 0 to 5 and a time; the job key is built from it |
| PersonnelArchive.PersonnelArchive.Commit | app/esi/personnel_archive.py:198-201 | committed rows keep their key's owner for good |
| PersonnelArchive.PersonnelArchive.RequestRefresh | app/esi/personnel_archive.py:309-332 | validates, then upserts one job; errors write nothing |
| PersonnelArchive.PersonnelArchive.RequestRefreshMany | app/esi/personnel_archive.py:93-122 | all or nothing; merges and chunks, and without promote-only leaves the schedules of single requests |
| PersonnelArchive.PersonnelArchive.MergeRequests | app/esi/personnel_archive.py:95-102 | errors exactly when some request is invalid; otherwise the least schedule per key |
| PersonnelArchive.PersonnelArchive.UpsertChunks | app/esi/personnel_archive.py:104-122 | the chunk loop equals one pass over all rows |
| PersonnelArchive.PersonnelArchive.ObserveMany | app/esi/personnel_archive.py:124-139 | all or nothing; last-seen times as if each sighting was applied in order |
| PersonnelArchive.PersonnelArchive.ExpediteStaleAffiliation | app/esi/personnel_archive.py:334-345 | pulls only unleased, not failed, later-due affiliation jobs forward |
| PersonnelArchive.PersonnelArchive.First | app/esi/personnel_archive.py:359-368 | returns the first candidate in claim order, ties broken by the collation of the keys |
| PersonnelArchive.PersonnelArchive.SelectDue | app/esi/personnel_archive.py:364-369 | due, unleased, unlocked rows of the lane, each once, in claim order, none passed over for a later one or while there is room |
| PersonnelArchive.PersonnelArchive.Claim | app/esi/personnel_archive.py:347-378 | leases exactly the selected rows under fresh tokens at their current revision; errors change nothing |
| PersonnelArchive.PersonnelArchive.LeaseRows | app/esi/personnel_archive.py:370-377 | the per-row loop stamps every selected row and returns its lease |
| PersonnelArchive.PersonnelArchive.WriteLeased | app/esi/personnel_archive.py:404-420 | the result of a lease reaches its own table under the newest-wins rule, every other row stays, or an error leaves every table alone |
| PersonnelArchive.PersonnelArchive.Finish | app/esi/personnel_archive.py:380-402 | when it answers true the result is stored and the job acknowledged and rescheduled, both or neither, and no other row moves; keeps the index and every committed row's owner |
| PersonnelArchive.PersonnelArchive.Fail | app/esi/personnel_archive.py:422-441 | backs the leased job off under a safe error category and frees it; any other category errors, and nothing else is written |
| PersonnelArchive.PersonnelArchive.Settle | app/esi/personnel_batches.py:58-96 | one lease of a batch: acknowledged with its result, or failed as unknown upstream |
| PersonnelArchive.PersonnelArchive.FinishBatch | app/esi/personnel_batches.py:57-96 | the whole batch or, after an error anywhere, the archive exactly as before |
| PersonnelArchive.PersonnelArchive.SaveIdentity | app/esi/personnel_archive.py:198-248 | one identity transaction with the outcome of SaveIdentityMeans; keeps the index |
| PersonnelArchive.PersonnelArchive.SaveAffiliation | app/esi/personnel_archive.py:250-276 | one affiliation transaction with the outcome of SaveAffiliationMeans; keeps the index |
| PersonnelArchive.PersonnelArchive.SaveOrganization | app/esi/personnel_archive.py:278-294 | errors exactly on bad input and writes nothing then; otherwise the row ends as the newest of stored and new, the answer says whether it changed, and no other organization moves |
| PersonnelArchive.PersonnelArchive.FindNames | app/esi/personnel_archive.py:167-177 | exactly the profiles that carry a wanted name, each the permanent owner of its key; errors on empty names and oversized lists |
| PersonnelArchive.ClaimIsEnabled | app/esi/personnel_archive.py:347-378 | what claim selects and leases is a step of the archive's runs |
| PersonnelRuntime.PutKeepsInverse | app/esi/personnel_runtime.py:208-219 | remembering a row keeps the name index the exact inverse of the hot rows, through renames and stale rows, and lowers no revision |
| PersonnelRuntime.PutIsYoungest | app/esi/personnel_runtime.py:208-219 | a row that is not older replaces the hot one and becomes the youngest, every other row keeps row and place, and it is announced exactly when a listener would see a difference |
| PersonnelRuntime.PutAllKeepsInverse | app/esi/personnel_runtime.py:202-219 | the same for a batch of rows |
| PersonnelRuntime.EvictKeepsYoungest | app/esi/personnel_runtime.py:220-223 | eviction keeps exactly the youngest rows, unchanged, forgets exactly the deadlines of the rows it takes, and the index still inverts the rest |
| PersonnelRuntime.PutAllKeepsYoung | app/esi/personnel_runtime.py:202-219 | rows just read from the archive are the youngest of the cache afterwards, whatever came before |
| PersonnelRuntime.PutAllSources | app/esi/personnel_runtime.py:202-219 | a hot row was there before or was just put |
| PersonnelRuntime.PutAllNeverAges | app/esi/personnel_runtime.py:208-218 | putting rows loses none and lowers no revision |
| PersonnelRuntime.ChangesAreAnnounced | app/esi/personnel_runtime.py:213-216 | whatever a listener would see change is announced |
| PersonnelRuntime.CurrentRowsGetIn | app/esi/personnel_runtime.py:208-219 | rows just read from the archive always replace hot ones: no stale copy of theirs survives |
| PersonnelRuntime.PersonnelRuntime.ArchiveStepKeepsCache | app/esi/personnel_runtime.py:98-101 | archive transactions of other workers cannot invalidate the cache |
| PersonnelRuntime.PersonnelRuntime.RowsAreOwned | app/esi/personnel_runtime.py:89-93 | every hot row's key is owned by its character in the archive |
| PersonnelRuntime.PersonnelRuntime.Remember | app/esi/personnel_runtime.py:195-223 | size within the bound, exact inverse index, only committed rows, no lowered revision, every visible change announced, deadlines of evicted rows dropped |
| PersonnelRuntime.PersonnelRuntime.PutEach | app/esi/personnel_runtime.py:202-219 | the row loop |
| PersonnelRuntime.PersonnelRuntime.EvictOldest | app/esi/personnel_runtime.py:220-223 | the eviction loop |
| PersonnelRuntime.PersonnelRuntime.EvictOne | app/esi/personnel_runtime.py:221-223 | one eviction takes the oldest row, its index entry and its deadline |
| PersonnelRuntime.PersonnelRuntime.Lookup | app/esi/personnel_runtime.py:87-119 | a hit of either layer is a committed row of the key's permanent owner, hot from then on; a miss means no archived profile carries the name or the archive is down, and changes nothing |
| PersonnelRuntime.PersonnelRuntime.CommitRefreshBatch | app/esi/personnel_batches.py:50-116 | a rollback leaves archive and cache as they were; after success every hot row is an old one or the archive's own, no completed character or member of a renamed organization has a stale one, all of them are hot if they fit, nothing grew older, and every visible change is announced |
| PersonnelRuntime.PersonnelRuntime.BuildSteps | app/esi/personnel_batches.py:58-92 | the loop plans exactly the steps of the leases, or errors when one of them does |
| PersonnelRuntime.PersonnelRuntime.NoteDeadlines | app/esi/personnel_batches.py:105-106 | the deadline of each completed affiliation, the last one winning |
| PersonnelRuntime.PersonnelRuntime.Publish | app/esi/personnel_batches.py:111-114 | publishing in chunks makes the given characters hot if they fit, leaves no stale row of theirs and announces every visible change |
| RefreshBatches.StepsAreEach | app/esi/personnel_batches.py:58-92 | a batch errors if and only if some lease does, and otherwise takes one step per lease |
| RefreshBatches.ScheduleIsAccepted | app/esi/personnel_batches.py:65-93 | the schedule a batch asks for is always accepted, and its result fits the leased entity |
| RefreshBatches.StepCarriesAnswer | app/esi/personnel_batches.py:58-93 | exactly what was fetched is written for the leased entity, with its schedule and priority; nothing found fails the lease; a row of the wrong shape raises |
| RefreshBatches.AffiliationRefreshedInTime | app/esi/personnel_batches.py:85-88 | an affiliation is due again at its hour or upstream's earlier expiry, not before and not after, but never within the next minute |
| RefreshBatches.CharactersAreThose | app/esi/personnel_batches.py:94-107 | exactly the characters of completed identity and affiliation steps |
| RefreshBatches.MembersAreThose | app/esi/personnel_batches.py:108-110 | exactly the hot members of renamed organizations |
| RefreshBatches.DeadlineIsLast | app/esi/personnel_batches.py:105-106 | a character's deadline is that of its last completed affiliation, 0 when upstream gave none |
| RefreshBatches.DeadlineKept | app/esi/personnel_batches.py:105-106 | without a completed affiliation the deadline stays |
| PersonnelBackfill.StepsAreOnePass | app/esi/personnel_backfill.py:16-74 | however the import is cut into steps and restarts, each row is imported once and in order |
| PersonnelBackfill.StepTwice | app/esi/personnel_backfill.py:16-74 | two steps equal one step over both pages |
| PersonnelBackfill.ImportOneMeans | app/esi/personnel_backfill.py:62-69 | a refused identity is only counted as rejected; any other is written, and counted as imported when it was news |
| PersonnelBackfill.ImportEachKeepsIndex | app/esi/personnel_backfill.py:59-69 | the name index survives rejected conflicts; every update is counted at most once |
| PersonnelBackfill.PersonnelBackfill.Import | app/esi/personnel_backfill.py:62-69 | one savepoint: imported, ignored or rejected alone |
| PersonnelBackfill.PersonnelBackfill.ImportRow | app/esi/personnel_backfill.py:60-69 | all updates of one report, then the cursor |
| PersonnelBackfill.PersonnelBackfill.Step | app/esi/personnel_backfill.py:16-74 | one bounded page from the cursor; errors exactly on a bad limit |
| SourceAuthority.ParentOf | app/server/source_authority.py:59-62 | a window id names a parent that is itself no window id |
| SourceAuthority.ParentOfMeans | app/server/source_authority.py:59-62 | a client id has exactly the parent that is followed by the first marker and a non-empty window name without a colon |
| SourceAuthority.Retired | app/server/source_authority.py:47-63 | exactly the parents named by detector presence windows, departed ones included |
| SourceAuthority.RankIsTransitive | app/server/source_authority.py:72-80 | rank is a transitive order |
| SourceAuthority.RankIsOrder | app/server/source_authority.py:72-80 | any two rows compare one way only |
| SourceAuthority.PrimaryIsLeast | app/server/source_authority.py:66-89 | a row is primary if and only if it is the least candidate, ties to the earlier row |
| SourceAuthority.ElectionMeans | app/server/source_authority.py:30-89 | of the rows on duty that no listed window supersedes, the one that joined first is primary, when no two joined together |
| SourceAuthority.ResidentsHavePrimary | app/server/source_authority.py:47-89 | a non-empty set of residents always has a primary, because a window is never a superseded parent |
| AuthoritativeItems.Authoritative | app/server/source_authority.py:92-114 | keeps exactly manual rows and the active primary's rows, in order |
| AuthoritativeItems.OthersSpeakFreely | app/server/source_authority.py:92-114 | query rows never represent a system; manual rows, and detectors of unmonitored systems, always do |
| AuthoritativeItems.OneDetectorSpeaks | app/server/source_authority.py:92-114 | selected detector rows of a monitored system share one identity, that of an active resident |
| AuthoritativeItems.TakeoverShowsChosen | app/server/source_authority.py:92-114 | after a takeover exactly the chosen detector's rows represent the system |
| Takeover.DisplaceStep | app/server/capture_state.py:73-78 | a turn either stops at the chosen row or shrinks the residents without losing it |
| Takeover.DisplaceIsSafe | app/server/capture_state.py:68-80 | with or without superseded parents: the loop ends, never displaces the chosen row, touches only residents, each once and behind every earlier order, and writes nothing else |
| Takeover.DisplacesThoseBefore | app/server/capture_state.py:217-229 | without superseded residents exactly those ranked before the chosen row are displaced, in their old order |
| Takeover.TakeoverRotates | app/server/capture_state.py:217-229 | the new rank order is a rotation of the old one at the chosen row |
| Takeover.ChosenHeadsTheRest | app/server/capture_state.py:217-229 | whoever stays in the queue ranks after the chosen row |
| Takeover.TakeoverElectsChosen | app/server/capture_state.py:68-80 | afterwards the chosen standby is primary if and only if no window of the whole table superseded it |
| Takeover.WindowParent | app/server/source_authority.py:59-62 | a concrete window id and the parent it retires |
| SupersededStandby.MissingRosterElectsNobodyNew | app/server/capture_state.py:41-80 | a table where the primary misses its names, a proven standby is chosen and the loop runs, yet the standby is not primary afterwards |
| SupersededStandby.TruncatedElectsNobodyNew | app/server/capture_state.py:189-229 | on the same table the takeover from a truncated primary fails in the same way |
| CaptureState.RetriesDoNotCount | app/server/capture_state.py:18-38 | an upload retry neither counts again nor restarts the grace period |
| CaptureState.Standby | app/server/capture_state.py:53-70 | the chosen row is a qualified resident other than the primary; none is chosen only if none qualifies |
| CaptureState.StandbyIsOldest | app/server/capture_state.py:70 | no qualified, unsuperseded resident ranks before the chosen one |
| CaptureState.MissingRosterPromotesProven | app/server/capture_state.py:41-80 | a missing roster promotes only a standby that sees hostiles and reads their names, and makes it primary unless superseded |
| CaptureState.TruncatedYieldsToGood | app/server/capture_state.py:189-229 | a repeatedly truncated primary yields only to a fresh standby that is clear or complete |
| CaptureState.DisplaceLoop | app/server/capture_state.py:71-80 | the in-place loop over shared rows equals the takeover function |
| CaptureState.ReconcileMissingRoster | app/server/capture_state.py:41-80 | the table and the displaced rows after reconciliation |
| CaptureState.ReplaceTruncatedPrimary | app/server/capture_state.py:189-229 | the table and the displaced rows after a quality takeover |
| CaptureState.StandbyMeans | app/server/capture_state.py:53-70 | a standby is chosen exactly when some resident other than the primary qualifies, by icons, samples, fingerprints and 45 s; then it is the first of them in rank |
| CaptureState.TakeoversReconcile | app/server/capture_state.py:186-229 | the two takeovers in order: who is primary afterwards, which rows were displaced and why, and that otherwise nothing moved |
| CaptureState.SampledMeans | app/server/capture_state.py:172-185 | what one sample leaves in its row, and that only its roster moves |
| CaptureState.RecordMeans | app/server/capture_state.py:153-230 | the whole recording: the sampled row, then both takeovers on the sampled table |
| CaptureState.RecordRosterQuality | app/server/capture_state.py:153-230 | samples the presence once per sequence; afterwards a primary that waited 15 s over three frames, or was cut off three times, has yielded to the oldest qualified standby unless a window superseded that one, exactly the displaced rows are reported, and in all other cases no join order moved |
| CaptureState.ExpiryIsComplete | app/server/capture_state.py:233-253 | no resident keeps a lease older than 45 s; nobody becomes resident; only clients with an expired lease change |
| CaptureState.ExpiryMeans | app/server/capture_state.py:233-253 | exactly the active or resident rows of a client with a resident row older than 45 s turn inactive as capture_stale; all else stays |
| CaptureState.ExpiryIsIdempotent | app/server/capture_state.py:233-253 | a second expiry at the same time changes nothing |
| CaptureState.ExpireCaptures | app/server/capture_state.py:233-253 | the in-place loop equals the expiry function and counts the rows it deactivates |
| RosterWait.WaitCountsNewFrames | app/server/capture_state.py:18-38 | over a run of unreadable frames the count is exactly the frames newer than all before, and the wait starts at the first |
| RosterWait.MissingNeedsThreeFrames | app/server/capture_state.py:18-52 | a roster counts as missing if and only if three such frames came and 15 s passed since the first; retries never get there |
| RosterWait.RecordKeepsSampling | app/server/capture_state.py:172-178 | recording keeps at most five samples per row, of strictly newer frames, through takeovers too |
| CaptureFence.LatestIsGreatest | app/server/capture_state.py:111-124 | the newest capture is a capture of that client and none is newer |
| CaptureFence.UploadKeepsFence | app/server/capture_state.py:107-134 | an accepted frame keeps one session per epoch and never moves the newest capture back |
| CaptureFence.AcceptsExactlyNewer | app/server/capture_state.py:107-134 | a frame is accepted if and only if its epoch exceeds all accepted ones, or it names the newest epoch, that epoch's session and no older sequence; before a first capture every frame is |
| CaptureFence.AcceptedIsStored | app/server/capture_state.py:107-134 | an accepted frame is in its slot, or one more row, and counts from then on; no other row moves |
| CaptureFence.RunsAreFenced | app/server/capture_state.py:107-134 | over any run: newest (epoch, sequence) never falls, one session per epoch, accepted captures are dominated |
| CaptureFence.CapturelessRefused | app/server/capture_state.py:118-121 | after its first capture a client's captureless uploads are refused for good |
| CaptureFence.OcrMatchesNewestFrame | app/server/capture_state.py:129-133 | an OCR upload is accepted if and only if it has the session and picture of the newest accepted frame and is not ahead of it |
| ZeroEvents.ClearsAreProven | app/server/capture_state.py:256-308 | an added clear needs a resident primary showing zero and no independent positive |
| ZeroEvents.LostZeroIsUnknown | app/server/capture_state.py:309-337 | a lost zero primary without successor or other event yields unknown, never clear |
| ZeroEvents.FinalMeans | app/server/capture_state.py:256-338 | each system's event and exactly when, field by field: the clear of its zero primary unless known hostile, else the last given event, else the unknown of its first lost zero, else none |
| ZeroEvents.ClearsRestOnLiveZeros | app/server/capture_state.py:233-308 | after expiry an added clear rests on a resident zero row of that system whose lease is at most 45 s old or was never timed |
| ZeroEvents.ExpiredZeroIsUnknown | app/server/capture_state.py:233-338 | an expired zero primary, alone in its system, turns unknown through expiry and reconciliation |
| ZeroEvents.ByEntity | app/server/capture_state.py:297 | the dictionary holds the last event of each system |
| ZeroEvents.AddClears | app/server/capture_state.py:298-308 | the loop over primaries adds exactly the proven clears |
| ZeroEvents.AddLosses | app/server/capture_state.py:309-337 | the loop over lost zeros adds exactly the first unknown where nothing else is known |
| ZeroEvents.ReconcileZeroEvents | app/server/capture_state.py:286-338 | at most one event per system, and each system's event is the clear, else the given one, else the unknown |
| SystemState.AppendKeepsSound | app/server/system_state.py:39-68 | an append keeps order, unique keys, the projection and the absence of repeats |
| SystemState.RunsStaySound | app/server/system_state.py:19-68 | over any run of appends, retention and backfills: the projection is the last alert per system, keys are unique, no alert repeats its predecessor's payload |
| SystemState.EveryRunIsSound | app/server/system_state.py:19-68 | the same for every run from the empty store |
| SystemState.BackfillIsNoop | app/server/system_state.py:19-35 | in every reachable state the backfill changes nothing |
| SystemState.RebuildFromEmpty | app/server/system_state.py:19-35 | a rebuild from empty equals the kept projection if and only if retention left every last alert |
| SystemState.PruningDefeatsRebuild | app/server/system_state.py:19-35 | a reachable store, two appends and one pruning from empty, whose projection a rebuild from nothing does not give back |
| SystemState.Database.AppendEvent | app/server/system_state.py:39-68 | a new key whose system is unprojected or has another payload is logged under the next number and, if an alert, becomes that system's state; otherwise log and projection stay |
| SystemState.AppendIsThat | app/server/system_state.py:39-68 | the append statement is determined by that description |
| SystemState.ReachableStoresAreNumbered | app/server/system_state.py:39-68 | in every reachable store the next number exceeds all logged ones |
| SystemState.Database.Migrate | app/server/system_state.py:71-74 | the backfill, system by system |
| SystemState.ProjectActiveItems | app/server/system_state.py:77-155 | raw rows exactly of uncovered systems, in order, then one node per live state and one per person in it; unknown and clear states show nothing |
| SystemState.NothingElseShown | app/server/system_state.py:77-155 | the items are exactly those rows and nodes |
| SystemState.NodesAre | app/server/system_state.py:92-154 | a node is shown if and only if a live state or a person in one calls for it |
| BotBridge.Bridge.SaveCursor | app/server/qq_bot_runtime.py:177 | the persisted cursor moves only over reached events, even when the write fails half-way |
| BotBridge.Bridge.ReplayEvent | app/server/qq_bot_runtime.py:258-270 | the cursor passes an event only after it was processed |
| BotBridge.Bridge.ReplayPage | app/server/qq_bot_runtime.py:248-270 | a page is worked through in order up to the watermark; every event passed was processed |
| BotBridge.Bridge.Replay | app/server/qq_bot_runtime.py:233-275 | replay ends; success leaves nothing committed behind up to the watermark; failure leaves a sound cursor |
| BotBridge.Bridge.Deliver | app/server/qq_bot_runtime.py:164-178 | a delivered snapshot is not older than the cursor of a baseline, and covers what it skips; success has delivered it and persisted its watermark |
| BotBridge.Bridge.Load | app/server/qq_bot_runtime.py:119-124 | after a failure the cursor restarts from the persisted one |
| BotBridge.Bridge.Consume | app/server/qq_bot_runtime.py:180-194 | replays through a snapshot and delivers it at exactly its watermark, then follows the log: a pass that meets no failure leaves nothing committed behind, every event passed was processed and the cursor is persisted |
| BotBridge.Bridge.Turn | app/server/qq_bot_runtime.py:118-194 | one pass: with a baseline it follows the log to its end; without one, or reconciling, it delivers exactly a ready fitting snapshot and otherwise waits; anything else needs a failed call or an expired event; keeps the no-gap invariant throughout |
| BotBridge.Bridge.Tick | app/server/qq_bot_runtime.py:117-208 | the same with the exception handlers, after which the loaded cursor is the persisted one |
| BotBridge.Bridge.Run | app/server/qq_bot_runtime.py:114-208 | in every run the persisted cursor never falls and passes no event neither processed nor covered by a delivered snapshot; with a baseline no delivered snapshot is older than the cursor; a run from a baseline without failure or rate limit processes every committed event one by one |
| RelationViews.Search | app/esi/organization_relations.py:85-92 | the source loop equals the prioritised lookup |
| RelationViews.Annotate | app/esi/organization_relations.py:61-98 | own corporation, own alliance, first listing, neutral or pending, each exactly when the source says so; old standings stripped, nothing else moved |
| RelationViews.JudgeMeans | app/esi/organization_relations.py:61-98 | the mark of every profile, over the view and the profile alone: own organization first, then the first listing with every source before it usable, neutral exactly when every source is usable and lists neither, pending in the remaining cases |
| RelationViews.LookMeans | app/esi/organization_relations.py:85-92 | what a search finds: the first listing, an unusable source before any listing, or neither |
| RelationViews.HitIsFirstKnown | app/esi/organization_relations.py:85-92 | a standing is used if and only if it is the first listing with every source before it known |
| RelationViews.LosingSourcesOnlyUndecides | app/esi/organization_relations.py:61-98 | more usable sources never change a decision; losing sources only turns decisions into pending |
| RelationViews.OnlyUsableEntriesMatter | app/esi/organization_relations.py:61-98 | annotation depends on no entry of an unusable source |
| RelationViews.AnnotationForgetsOldStanding | app/esi/organization_relations.py:62-66 | annotation is idempotent and no earlier standing leaks through |
| RelationRefresh.RelationArchive.Load | app/esi/relation_archive.py:31-47 | the loaded table is the one saved under the loaded revision |
| RelationRefresh.RelationArchive.Save | app/esi/relation_archive.py:49-84 | compare and swap: exactly a writer of the stored revision without an older success gets in; a loser changes nothing, a winner's table is that of the new revision for good |
| RelationRefresh.FailureNeverRenews | app/esi/relation_refresh.py:113-147 | a failed attempt keeps table and deadlines, so it makes nothing usable; a 401 or 403 ends use; a success carries the upstream deadline |
| RelationRefresh.AttemptMeans | app/esi/relation_refresh.py:113-147 | the source an attempt computes, field by field, with the exact next attempt time of a success |
| RelationRefresh.DoublingDoubles | app/esi/relation_refresh.py:139 | the wait starts at 30 s and doubles with every failure up to five minutes |
| RelationRefresh.RefreshedBeforeExpiry | app/esi/relation_refresh.py:125-135 | a success is retried within five minutes and, where possible, 30 s before its table expires |
| RelationRefresh.OrganizationRelations.MemoMatches | app/esi/relation_refresh.py:42-53 | an equal memo key means equal knowledge, because a revision determines the table |
| RelationRefresh.OrganizationRelations.CurrentView | app/esi/relation_refresh.py:42-53 | the memoised view shows the current tables, each usable exactly within its hour and its deadline, and annotates every profile as a rebuilt view would |
| RelationRefresh.OrganizationRelations.Reset | app/esi/relation_refresh.py:55-60 | after losing the authority every annotation is pending |
| RelationRefresh.OrganizationRelations.LoadSource | app/esi/relation_refresh.py:96-102 | the committed row of that source, unusable until read successfully in this runtime, keeping a failure's retry time |
| RelationRefresh.OrganizationRelations.ActivateContext | app/esi/relation_refresh.py:78-105 | a new context isolates the old tables and starts with nothing usable; the same context keeps its sources |
| RelationRefresh.OrganizationRelations.LoadContext | app/esi/relation_refresh.py:81-102 | a storage error leaves the new context isolated and empty |
| RelationRefresh.OrganizationRelations.SaveSource | app/esi/relation_refresh.py:107-111 | the result is this writer's next revision, or the row of another writer that was faster; only a storage error gives none |
| RelationRefresh.OrganizationRelations.Publish | app/esi/relation_refresh.py:186-189 | publishing keeps the memo correct |
| RelationRefresh.OrganizationRelations.RefreshSource | app/esi/relation_refresh.py:113-154 | a due source becomes the attempt's result under the next revision, the row of a faster writer, or on a storage error only the old table without a revoked permission; others stay |
| RelationRefresh.OrganizationRelations.RefreshSources | app/esi/relation_refresh.py:173-207 | while the authority holds every source comes to its own outcome, due ones refreshed and others untouched; losing it at any check isolates everything; the memo stays correct throughout |
| RelationRefresh.OrganizationRelations.StoreResult | app/esi/relation_refresh.py:148-154 | the three outcomes of saving a computed source |
| RelationRefresh.OrganizationRelations.NoteOwnFailure | app/esi/relation_refresh.py:181-192 | a failed read of the own organization keeps the data of the same authority, nothing after 401, 403 or a lost authority, and waits for the longest of its reasons |
| RelationRefresh.OrganizationRelations.RefreshOwn | app/esi/relation_refresh.py:169-193 | the read goes on only with the context of the current authority and its own organization |
| RelationRefresh.OrganizationRelations.Refresh | app/esi/relation_refresh.py:156-217 | a refresh that keeps its authority and meets no storage error reads the own organization when due and brings every source of it to its outcome; afterwards only data of the loaded authority can classify, and without one everything is pending |
| EsiWorker.SubmitKeeps | app/server/esi_worker.py:31-43 | a submit adds its key and task once |
| EsiWorker.FinishKeeps | app/server/esi_worker.py:91-100 | finishing removes exactly the running key |
| EsiWorker.StepKeepsInv | app/server/esi_worker.py:31-100 | every step keeps: one live thread, pending keys are exactly those running, queued or in hand, each once, and accepted tasks in order |
| EsiWorker.ServedUnlessStranded | app/server/esi_worker.py:73-83 | a step keeps pending work served and idle exact unless it is an idle exit after close with work pending |
| EsiWorker.StrandedForGood | app/server/esi_worker.py:49-83 | work stranded by that step is never picked up again |
| EsiWorker.RunsFrom | app/server/esi_worker.py:31-100 | both, over any run from any sound state |
| EsiWorker.EveryRun | app/server/esi_worker.py:31-100 | in every interleaving, close included, no accepted task is lost from the account or queued twice, and work is served if and only if no step strands it |
| EsiWorker.WithoutClose | app/server/esi_worker.py:31-100 | without close a live thread serves pending work, and idle is set exactly when everything accepted is finished |
| EsiWorker.ClosingIdleNeverStrands | app/server/esi_worker.py:45-60 | closing only while nothing is pending is safe |
| EsiWorker.CloseCanStrand | app/server/esi_worker.py:49-83 | a reachable state with idle set, no thread, and an accepted task queued |
| EsiWorker.DrainFinishes | app/server/esi_worker.py:72-100 | the serving thread alone can always finish everything accepted |
| EsiWorker.ClosedWorkerExits | app/server/esi_worker.py:49-90 | after close the thread can always finish what was accepted and exit, so joining it ends |
| EsiWorker.EsiWorker.EnsureThread | app/server/esi_worker.py:62-70 | starts a thread exactly when none is alive |
| EsiWorker.EsiWorker.BeginSubmit | app/server/esi_worker.py:31-42 | the caller is told true exactly when the task was accepted, with its key pending and a live thread to serve it; otherwise nothing changed |
| EsiWorker.EsiWorker.EndSubmit | app/server/esi_worker.py:42-43 | the accepted work item enters the queue, last |
| EsiWorker.EsiWorker.CloseQueue | app/server/esi_worker.py:49-58 | closes once, with one stop item for a live thread |
| EsiWorker.EsiWorker.Fetch | app/server/esi_worker.py:72-76 | the next queue item and only that, or a timeout of an empty queue |
| EsiWorker.EsiWorker.OnTimeout | app/server/esi_worker.py:76-83 | the thread ends exactly when nothing is pending or the worker is closed |
| EsiWorker.EsiWorker.OnStop | app/server/esi_worker.py:84-89 | the stop item ends the thread and nothing else |
| EsiWorker.EsiWorker.OnDone | app/server/esi_worker.py:91-100 | the task counts as finished, its key is free, and idle is set when none is pending, whether or not the handler raised |
| TokenStore.StepKeepsInv | app/esi/session.py:111-128 | every step keeps the stored token at the end of the latest login's chain and the exchange log free of unexplained repeats |
| TokenStore.PublishExtendsLine | app/esi/sso.py:248-254 | a refresh publishes only over the very revision it exchanged |
| TokenStore.StoredDescendsFromLatest | app/esi/session.py:111-128 | in every interleaving the stored token is the latest login or its chain of exchanges, each of the revision just before; after a logout there is none |
| TokenStore.ChainStaysRefreshable | app/esi/session.py:118-124 | a refresh never loses the means to refresh again |
| TokenStore.EachRevisionExchangedOnce | app/esi/session.py:111-128 | while saves succeed a stored revision is exchanged at most once |
| TokenStore.FailedSaveRepeats | app/esi/session.py:120-127 | after a failed save the same revision is exchanged again |
| TokenStore.EsiTokenStore.Save | app/esi/sso.py:211-229 | file and revision move together or not at all |
| TokenStore.EsiTokenStore.LogIn | app/esi/sso.py:211-229 | the login is what is stored, under the next revision, and starts a new chain |
| TokenStore.EsiTokenStore.Clear | app/esi/sso.py:231-238 | nothing is stored, under the next revision; a missing file is no error |
| TokenStore.EsiTokenStore.SaveIfUnchanged | app/esi/sso.py:248-254 | saves exactly when revision and token are those loaded |
| TokenStore.EsiTokenStore.BeginRefresh | app/esi/session.py:111-119 | exactly the stored, refreshable token is exchanged; an already replaced one is answered with its replacement |
| TokenStore.EsiTokenStore.Receive | app/esi/session.py:120-124 | the exchanged token is what will be stored; only an absent refresh token is inherited |
| TokenStore.EsiTokenStore.PublishRefresh | app/esi/session.py:125-128 | stored and handed out together, exactly when the store still holds the exchanged token and revision and the disk works |
| Transport.RateIsBounded | app/esi/transport.py:64-76 | for any number of callers, k + 1 permits in a window of length T have k * interval <= T |
| Transport.PausesHold | app/esi/transport.py:78-90 | no permit comes within five minutes of a 420 or 429, nor before the delay it asked for |
| Transport.EveryRun | app/esi/transport.py:64-161 | permits are an interval apart; free and used slots add up to the size; no connection is shared or leaked |
| Transport.WindowSpread | app/esi/transport.py:64-76 | permits inside a window are spread by the interval |
| Transport.StepKeepsRate | app/esi/transport.py:64-90 | each step keeps the spacing and the pauses |
| Transport.StepKeepsPool | app/esi/transport.py:93-161 | each step keeps the slots and the connections apart |
| Transport.EsiConnections.TakeSlot | app/esi/transport.py:100-104 | the most recently returned slot, or none |
| Transport.EsiConnections.AwaitSlot | app/esi/transport.py:100-104 | no slot only when the time is over and none is free |
| Transport.EsiConnections.TryPermit | app/esi/transport.py:66-73 | the locked section: a permit exactly when in time and nothing blocks, and then the next one an interval later |
| Transport.EsiConnections.OpenConnection | app/esi/transport.py:110-117 | a connection idle for under 20 s is used again, an older one is closed and replaced by a new one |
| Transport.EsiConnections.PauseAll | app/esi/transport.py:78-90 | a 420 or 429 pauses everybody for five minutes or the longer time it states, and shortens no earlier pause |
| Transport.EsiConnections.PutSlot | app/esi/transport.py:157-161 | the slot goes back last; a reusable connection with it, any other one closed |
| Transport.EsiConnections.AwaitPermit | app/esi/transport.py:64-76 | always ends, whatever the other callers do: with a permit, or when none can come before the deadline |
| Transport.SleepSpends | app/esi/transport.py:64-76 | every vain wake-up costs a twentieth of a second, another caller's permit, or a new pause |
| Transport.RunsGoOn | app/esi/transport.py:64-90 | over any run time only passes, permits push the next one out by an interval, pauses reach five minutes ahead |
| Transport.EsiConnections.Request | app/esi/transport.py:93-161 | on every path the slot goes back; a request is sent only with a slot and then a permit; success is exactly a complete reply below 300; a throttling reply announces its pause; a call gives up unsent only when no permit can come in time |
| ContactHttp.UsableIsFresh | app/esi/contact_http.py:46-74 | what may still be used is fresh by sections 4.2.1 and 4.2.3 of RFC 9111, with sound headers, and at most five minutes old |
| ContactHttp.FreshIsUsable | app/esi/contact_http.py:46-74 | and is refused no earlier than the cap, max-age and Expires demand |
| ContactHttp.ValidateRows | app/esi/contact_http.py:77-93 | accepts exactly well-formed rows without duplicate contacts |
| ContactHttp.NextPage | app/esi/contact_http.py:139-193 | one page is added, or the snapshot cannot be coherent |
| ContactHttp.ReadPages | app/esi/contact_http.py:139-193 | the paging loop ends and gives up only when no coherent snapshot exists |
| ContactHttp.FewerTogether | app/esi/contact_http.py:139-193 | the pages of a coherent snapshot are coherent from the start |
| ContactHttp.EarliestIsMin | app/esi/contact_http.py:189-197 | the deadline is the earliest of all pages |
| ContactHttp.SnapshotIsRead | app/esi/contact_http.py:139-207 | pages that fit together, each a full body or after a 304 the cached one under the fresh dates, are what a read puts together, whole and in order |
| ContactHttp.CoherentIsSnapshot | app/esi/contact_http.py:139-207 | and whatever a read accepts is such a snapshot |
| ContactHttp.ContactHttpReader.Read | app/esi/contact_http.py:130-207 | succeeds if and only if all pages form a coherent, bounded, fresh snapshot, and then gives its rows in page order until the earliest deadline; an error leaves the cache as it was |
| ContactHttp.ContactHttpReader.CommitPages | app/esi/contact_http.py:198-204 | only a storable snapshot is cached, the six latest contexts at most |

## Left out

- request_refresh_many with promote-only against single requests: merging takes the least due time of all duplicates, so the two differ by design.
- ArchiveRuns.EveryRunIsFenced: in runs a claim may take any eligible rows; the order in which it selects them is stated for SelectDue.
- get_profiles, get_organizations, page, observe, due_work and statistics of the archive: plain reads and one update that is a special case of the sightings.
- PersonnelRuntime.PersonnelRuntime.Lookup: the refresh it schedules for stale rows is not modelled; `profile`, `request`, `drain_requests`, counters and the thread pool loop are left out.
- PersonnelRuntime.PersonnelRuntime.CommitRefreshBatch: the negative cache, the counters and the scheduling of the published rows are left out, as is the order in which changed characters are published.
- background_slots and classification_profile of the policy: short case tables. schedule_profiles only issues requests and expedites, which are modelled.
- The standings cache and the snapshot of the authenticated session.
- PersonnelBackfill.PersonnelBackfill.Step: the stream of rows is an input; the parsing of stored reports and the second stream, the legacy cache, are left out.
- Takeover.TakeoverRotates: stated for residents of which none is a superseded parent; with one, only the safety of DisplaceIsSafe and the election of TakeoverElectsChosen hold.
- Join orders below zero, rows that are equal copies of one another (each row is one object), and capture_payload's validation of single fields; capture_guard only repeats the scan of capture_is_current.
- The frame-accept step in the store is not part of this model beyond its effect on one presence row.
- ZeroEvents.ReconcileZeroEvents: the order of the resulting list is not stated; the payload fields that are always empty or zero are left out.
- SystemState.ProjectActiveItems: metadata that is only copied from a payload is one opaque field, and the fixed fields of every node are left out.
- realtime_event_payload: a reading of its one branch settles it.
- BotBridge.Bridge.Run: exact equality of the bot's view with the projection when the ready marker is lost is not claimed; the one-slot wake-up queue, the retry delays and the relay's own deduplication are left out.
- BotBridge.Bridge.Replay: the log is not pruned while the bot runs, and a snapshot shows a committed prefix of the log.
- RelationRefresh.OrganizationRelations.Refresh: loading tokens and asking for the authority again may give anything at any check; whether the view changed, its return value, is not stated, nor is the lock that turns a second refresh away.
- EsiWorker.EsiWorker.BeginSubmit: keys are already stripped text; a thread that cannot be started and a handler that ends its thread with a non-Exception are not modelled.
- EsiWorker.EsiWorker.CloseQueue: waiting for the thread is not part of the method; that the wait can end is ClosedWorkerExits.
- TokenStore.EsiTokenStore.Save: encryption, unreadable files and other processes that rewrite the token file are not modelled; the login manager, PKCE and the HTTP exchange are left out, and its outcome is an input.
- Transport.EsiConnections.Request: sockets, TLS, the deadline while reading a body and metrics are left out; the reply is an input.
- ContactHttp.ContactHttpReader.Read: JSON decoding, request headers, metrics and log lines are left out; `no-store` counts as present whenever the parsed directive is.
- Chat parsing, OCR name cleanup, verdict and score tables, settings, maps, command line scripts and the user interface: pure parsing or tables that a reading of the branches settles.
