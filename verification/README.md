# Verified models of the agentic security intelligence runtime

Dafny models of the stateful core of the `agentic_security` package, with proofs of what that core is for: which
runs of the job protocol are possible, what the append-only ledgers force, and where a store agrees with something
simpler. `dafny verify dfyconfig.toml` checks everything. Nothing was executed.

Code that changes state in place (stores, repositories, caches, loops) is a class or a method whose `ensures` equates
the new state with a specification function of the old state. The lemmas are about those functions and about all runs
over them. Code that only computes is a function.

## The modules

| files | what they model |
|---|---|
| `IsoTime`, `Text` | the fixed-width time text of the job tables, and text order by code point |
| `JobTable`, `JobStore` | the `jobs` and `pipeline_leases` tables; `JobStore`, one transaction a method |
| `JobSystem` | any number of workers, enqueuers and crashes interleaved, a step system with the process lock; its invariant |
| `JobSafety`, `JobProgress`, `JobFairness` | interleaving safety and execution bounds; termination and draining; first in, first out |
| `JobWorker` | `Worker.run_once` over the store, and the run of the step system it stands for |
| `ReviewLedger`, `ReviewTables` | the human-gated review queue: CHECKs, trigger, partial unique indexes, and the queries that rely on its shape |
| `Lifecycle` | the availability history of systems and agents, and the preview-to-GA velocity query |
| `AssertionLedger` | assertions by ontology key, their observations, the current scope |
| `Taxonomy` | loading the chain of taxonomy versions, and seeding or verifying the ledger with it |
| `ResponseCache` | the two-file response cache under overlapping, abandoned and damaged writes, against the plain cache |
| `SnapshotPersistence` | persisting a collection run: dedupe, counts, rows against files, undo |
| `Manifest` | the publication manifest: path-component order against text order |
| `LineText`, `EvidenceAnchor` | the line stage of text normalisation; offset anchors against line anchors |
| `BundleHash`, `PathScan` | the artifact hash of a manifest; the token rule of the public-data scan on its paths |
| `Publisher` | the draft-only publisher as a protocol: any number of publishers, cut off anywhere, with people at work on the remote |
| `Common`, `Hashing` | `Option`, `Result`; symbolic SHA-256 |

## What is proved, and where the code falls short of it

* Jobs. In every interleaving at most one job is in hand. The row of a job in hand is not touched by anyone else, even
  after its lease has expired, because the lock and not the lease protects it; so `finish` never raises "job is not
  running". Two RUNNING rows are possible, never three, and two arise exactly when a lease that recovery had respected
  runs out before the claim.
* Progress. Over any run, n accepted jobs make at most n(2M + 2) status moves. Recovery followed by claim lowers the
  total if and only if recovery finds an orphan, or a job is queued and no lease is left at the claim. A lease that is
  unexpired at recovery and has run out only at the claim is not enough: its holder stays RUNNING and, with nothing
  queued, that round does nothing. When no lease is left at recovery the round always makes progress, and so the queue
  drains through crashes.
* Order. With increasing transaction times the queue is strictly first in, first out. Times are read before the
  transaction begins, so they need not increase; `EnqueueRank` and `RecoverRank` say exactly how many new or requeued
  jobs overtake a waiting one then.
* Reviews. The separate table rules together make each candidate's rows one linked history with one tip, and the four
  ways of counting pending reviews agree. A confirmed decision can be stored if and only if the reviewed row is still
  the whole history and the new identifier is unused.
* Claims. Two calls share an assertion exactly when they make the same claim, as long as no slot but the last holds a
  colon, the separator of the key.
* Assertions. The law is that every assertion reflects its observations and no two share an identifier. It can be
  broken, because a creation that the assertion's own validator refuses has already appended its observation. A call
  keeps the law if and only if it meets a condition on the ledger before it: a creation needs an identifier no
  assertion has, under which there is nothing but repetitions of its own observation; a refused creation must tell the
  assertion with its identifier, if any, nothing new; an attached call always keeps the law. Over any calls the law
  holds throughout if and only if every call meets its condition, and fresh identifiers do.
* Snapshots. A run, killed or not, keeps every stored row's file if and only if the identifiers it writes under are
  those of no stored row; new content under a stored identifier makes the run raise and removes the stored row's file.
  Rows and files match one to one if and only if, besides, no kill comes between a file's writing and its removal.
* Manifest. `export` sorts paths by component, the validator also demands text order. The validator accepts what
  `export` wrote if and only if no two files straddle: no file lies below a directory whose name is a proper prefix of
  a sibling name that continues with a character below `/`. The one file written today never straddles.
* Anchors. On normalised text, the line range found by counting newlines is accepted if and only if the quote occupies
  whole lines.
* Artifact hash. As a mere function of a list it determines the list, among all with at least as many entries, if and
  only if no path holds a newline right after a colon and 64 hexadecimal digits. What is hashed is a manifest that the
  validator has accepted, and the validator scans the manifest's own text: it refuses every such path, so equal hashes
  mean equal manifests' files.
* Publisher. Publishers may overlap: the command-line command takes no lock. Over every interleaving, accepted pushes
  equal deletions of the branch plus the present branch plus fast-forwards, there are no more fast-forwards than merges
  that kept the branch's commits, and pull requests equal closings plus the open one. So as long as people neither delete
  the branch nor close or merge the pull request there is at most one push, one pull request and one success that claims
  to be new. Two runs show why: after a deletion, and after a merge with no deletion at all, a publisher that had looked
  before publishes a second time. Publishers that do not overlap publish once whatever people do to the pull request. A
  run in which every command works succeeds if and only if the artifact type can be published and reported, and there is
  a branch already or main does not hold this very bundle at that time. An artifact type that begins with a dash passes
  the first check, is pushed and gets its pull request, and is never reported as published.
* Response cache. Only metadata that damage leaves readable, with the hash of the content, goes unnoticed.

## Conventions

* Times are instants in microseconds; `IsoTime.IsoIsOrderEmbedding` justifies reading SQL text comparisons as
  comparisons of instants. The safety theorems put no condition on the clock. The fairness theorem asks for increasing
  transaction times, where it needs them.
* A transaction, a file replacement and a remote command are atomic steps. SHA-256 is symbolic: a digest is its
  preimage. Writing a model as JSON and reading it back is taken to give the same value.
* Identifiers and clock readings are arguments.

## Model

| member | source | states |
|---|---|---|
| IsoTime.IsoIsOrderEmbedding | src/agentic_security/jobs/store.py:27-28 | text order of the stored times is chronological order, in both directions and for at-most, for every UTC time of the years 1 to 9999; equal text is one instant (section 5.1 of RFC 3339) |
| IsoTime.DecimalOrder | src/agentic_security/jobs/store.py:27-28 | zero-padded decimals of one width compare as text exactly as their numbers do |
| IsoTime.GregorianDays | src/agentic_security/jobs/store.py:27-28 | the instants compared are counted in the Gregorian calendar, leap years by the rule of 4, 100 and 400 |
| JobTable.FirstExists | src/agentic_security/jobs/store.py:289-293 | every non-empty set of rows has a first one in (queued, created, identifier) order |
| JobTable.HeadIsUnique | src/agentic_security/jobs/store.py:289-293 | the row `LIMIT 1` picks is determined |
| JobTable.HeadIsOldest | src/agentic_security/jobs/store.py:289-293 | a row is the head exactly when it is queued and no queued row was queued earlier, or together but created earlier, or alike in both with a lesser identifier |
| JobTable.EnqueueDecides | src/agentic_security/jobs/store.py:35-109 | exactly one answer is possible: acceptance for an unused key and identifier, otherwise what is stored under the key decides |
| JobTable.AcceptedAsMade | src/agentic_security/jobs/store.py:75-95 | an accepted request is stored as it was made, QUEUED and dated now, and no other row and no lease changes |
| JobTable.RepetitionIsReplayed | src/agentic_security/jobs/store.py:35-109 | repeating a request just accepted replays it, and any other under its key is a conflict |
| JobTable.FinishExactly | src/agentic_security/jobs/store.py:320-355 | `finish` takes effect exactly for a terminal status on a RUNNING row, and then changes that row's status, time and reasons and its own lease and nothing else |
| JobStore.JobStore.Enqueue | src/agentic_security/jobs/store.py:52-109 | a new key adds one QUEUED row; a used key replays the same request or is a conflict; a taken identifier is an error; nothing else changes and keys stay unique |
| JobStore.JobStore.RecoverInterrupted | src/agentic_security/jobs/store.py:219-273 | the loop leaves the tables as if each running row without an unexpired lease was requeued or failed once from its original content, in any order, and the result counts exactly these rows |
| JobStore.JobStore.ClaimNext | src/agentic_security/jobs/store.py:275-318 | with a lease left or nothing queued only expired leases go; otherwise the head of the queue becomes RUNNING under a fresh lease |
| JobStore.JobStore.Finish | src/agentic_security/jobs/store.py:320-355 | only a terminal status on a RUNNING row changes anything; the row is closed and its own lease dropped |
| JobSystem.RecoverRunning | src/agentic_security/jobs/store.py:223-239 | after recovery the RUNNING rows are the earlier ones that hold the unexpired lease |
| JobSystem.RunKeepsInv | src/agentic_security/jobs/worker.py:86-121 | every run of workers, enqueuers, crashes and expiries keeps: one worker inside, its job RUNNING, lease holders RUNNING, at most two RUNNING rows, every start accounted for by a retry, keys unique |
| JobSystem.MoveKeepsRunning | src/agentic_security/jobs/lock.py:48-63 | when the worker inside moves, every other worker is outside afterwards, and the RUNNING rows are as the invariant says |
| JobSystem.StepKeepsLock | src/agentic_security/jobs/lock.py:48-63 | after every step only the holder of the lock is inside `run_once`, and no worker has seen `finish` raise |
| JobSystem.FinishStep | src/agentic_security/jobs/store.py:320-355 | in a reachable state a worker that closes its job always finds it RUNNING |
| JobSystem.StepSameRequests | src/agentic_security/jobs/store.py:219-355 | only `enqueue` adds rows, and no transaction changes a row's type, requester, key or creation time |
| JobSafety.OneExecutor | src/agentic_security/jobs/worker.py:86-121 | in every interleaving at most one worker has a job in hand |
| JobSafety.FinishNeverRaises | src/agentic_security/jobs/store.py:347-348 | no reachable worker has seen "job is not running", and none is about to |
| JobSafety.LiveJobUntouched | src/agentic_security/jobs/worker.py:86-121 | a job with a live executor stays RUNNING with an unchanged row through any events, recoveries after lease expiry included, until its worker closes it or dies |
| JobSafety.RunningJobs | src/agentic_security/jobs/store.py:219-318 | lease holders are RUNNING; never more than two RUNNING rows |
| JobSafety.AfterRecovery | src/agentic_security/jobs/store.py:222-239 | right after recovery the RUNNING rows are exactly the unexpired lease's holder |
| JobSafety.AfterClaim | src/agentic_security/jobs/store.py:275-318 | a claim leaves one RUNNING row, or two exactly when a lease that recovery had respected expired before the claim |
| JobSafety.TwoRunningReachable | src/agentic_security/jobs/store.py:219-318 | the bound of two is reached by a crash and an expiry between recovery and claim |
| JobSafety.AcceptedKey | src/agentic_security/jobs/store.py:35-109 | an accepted key names one unchanging request for good; starts are retries plus one unless queued, retries never pass the limit, so at most limit + 1 executions |
| JobSafety.ReplayForever | src/agentic_security/jobs/store.py:35-45 | after any further events the same request replays its job, and a different one under that key is a conflict |
| JobSafety.AcceptedForGood | src/agentic_security/jobs/store.py:35-109 | a request accepted at any moment of any run is answered for good: the same one is a replay, another under its key a conflict, whatever happens in between |
| JobSafety.RunEvolves | src/agentic_security/jobs/store.py:219-355 | rows are never removed, retry counts never fall, terminal rows never change |
| JobSafety.RowsAreShaped | src/agentic_security/jobs/store.py:236-355 | in every reachable table the start, end, update, failure and message columns fit the status; a requeued job carries no trace of its failure, and a job says it was stopped only with all retries used |
| JobSafety.LeasesAreDated | src/agentic_security/jobs/store.py:275-318 | the lease always dates from its holder's present start and runs for the lease time from then |
| JobProgress.RecoverMoves | src/agentic_security/jobs/store.py:236-272 | recovery moves exactly the orphans and lowers the total by one for each |
| JobProgress.ClaimMoves | src/agentic_security/jobs/store.py:275-318 | a claim moves exactly the head of the queue and lowers the total by one |
| JobProgress.FinishMoves | src/agentic_security/jobs/store.py:320-355 | a finish moves exactly the worker's job and lowers the total |
| JobProgress.MovesBounded | src/agentic_security/jobs/store.py:219-355 | over any run, what is left plus the moves made never exceeds what was there plus what accepted jobs brought |
| JobProgress.MovesPerJob | src/agentic_security/jobs/store.py:219-355 | from the empty tables n accepted jobs make at most n(2M + 2) status moves |
| JobProgress.RoundProgress | src/agentic_security/jobs/worker.py:90-96 | the exact condition under which recovery and claim of one round lower the total |
| JobProgress.UnleasedRound | src/agentic_security/jobs/worker.py:90-96 | without an unexpired lease at recovery a round makes progress unless every job is finished |
| JobProgress.QueueDrains | src/agentic_security/jobs/worker.py:86-121 | with no request accepted, as many unleased rounds as the starting total leave every job finished, whatever crashes lie between |
| JobFairness.EnqueueRank | src/agentic_security/jobs/store.py:76-95 | a new request overtakes a waiting job exactly when its own (time, time, identifier) sorts first |
| JobFairness.RecoverRank | src/agentic_security/jobs/store.py:241-255 | recovery at any time sets a waiting job back by exactly the requeued jobs whose new (time, time, identifier) sorts first |
| JobFairness.LaterRecoveryKeepsRank | src/agentic_security/jobs/store.py:241-255 | a recovery later than the time a job was queued at lets nobody overtake it |
| JobFairness.ClaimRank | src/agentic_security/jobs/store.py:289-311 | a claim of another job moves a waiting job up by exactly one |
| JobFairness.FirstInFirstOut | src/agentic_security/jobs/store.py:289-311 | with increasing times a job with r queued jobs in front is exactly start number r of any run, or the run has fewer starts and the job has moved up by each |
| JobFairness.StartsAreNew | src/agentic_security/jobs/store.py:289-311 | the starts counted during a run are the ones the system records |
| JobWorker.RunOnceEffect | src/agentic_security/jobs/worker.py:86-121 | an undisturbed `run_once` inside the step system has the combined effect of recover, claim and finish, and gives the lock back |
| JobWorker.RunOnceClosesItsJob | src/agentic_security/jobs/worker.py:97-121 | it closes the job it claims, SUCCEEDED exactly when the executor returned, otherwise with the category and message the executor gave or those of an unexpected failure, and drops the lease |
| JobWorker.Worker.RunOnceOnStore | src/agentic_security/jobs/worker.py:86-121 | the calls on the store have that same effect; without the lock nothing changes; the answer says whether a job was worked on |
| ReviewLedger.TriggerComparesProposals | src/agentic_security/storage/schema.sql:182-207 | the trigger's column comparison is equality of the whole machine proposal |
| ReviewLedger.InsertExtends | src/agentic_security/storage/schema.sql:150-207 | an accepted row always extends its candidate's history at the end |
| ReviewLedger.HistoriesAreLinked | src/agentic_security/storage/schema.sql:150-207 | in every reachable table each candidate has one PENDING root, then decided rows each naming the one before, one proposal throughout |
| ReviewLedger.ConfirmedForever | src/agentic_security/storage/repositories.py:512-524 | a recorded confirmed change stays recorded and backed by a CONFIRMED review |
| ReviewLedger.TipIsNewest | src/agentic_security/storage/read_models.py:250-260 | a row has no successor exactly when it is the newest of its candidate |
| ReviewLedger.PendingCountsAgree | src/agentic_security/jobs/store.py:205-217 | the SQL count, the unlimited pending list, the pending latest reviews and the one-row histories are equally many |
| ReviewLedger.UndecidedAt | src/agentic_security/jobs/store.py:357-388 | the pending rows belong to exactly the candidates whose history is the machine proposal alone |
| ReviewLedger.QueriesAnswer | src/agentic_security/storage/read_models.py:250-260 | both queries answer in table order, each row once, with exactly the rows no other row follows, the pending list with the PENDING ones among them |
| ReviewLedger.LimitTakesOldest | src/agentic_security/jobs/store.py:357-388 | a limit keeps the oldest entries of the pending list |
| ReviewLedger.RowsAreWhole | src/agentic_security/models.py:707-738 | every row of a reachable table is a whole proposal or a whole decision |
| ReviewLedger.ChecksAgree | src/agentic_security/storage/schema.sql:166-180 | the table's CHECKs and the validator ask for the same, but for the impacts that only the validator asks for |
| ReviewLedger.ProposalInsertsIff | src/agentic_security/storage/repositories.py:477-510 | a pending row is taken exactly as a whole proposal, the first of a stored candidate, under an unused identifier and a known methodology |
| ReviewLedger.DecisionInsertsIff | src/agentic_security/storage/schema.sql:180-211 | a decided row is taken exactly as a whole decision on top of its candidate's history, with the proposal unchanged |
| ReviewLedger.ChangeIsRecordedIff | src/agentic_security/storage/repositories.py:512-524 | a change is recorded exactly when a human confirmed it at a time, its review is stored CONFIRMED and its identifier is new |
| ReviewLedger.DailyStatusMeaning | src/agentic_security/editorial/reports.py:27-41 | on the ledger's own data each of the five statuses is chosen exactly when its meaning holds, REVIEW_PENDING when nothing is confirmed and some material candidate has no human decision |
| ReviewLedger.CreationInserts | src/agentic_security/changes/review.py:15-25 | a machine proposal can be stored exactly when its candidate is stored and has no review yet, its methodology is known and its identifier is unused |
| ReviewLedger.ProposalIsMade | src/agentic_security/changes/review.py:15-25 | a proposal is made exactly when identifier and subtype fit, and carries the diff's identifier and the classifier's answer |
| ReviewLedger.ConfirmationIsMade | src/agentic_security/models.py:691-738 | a confirmation of a stored review is made exactly when the review is undecided, a material classification names impacts, and an identifier passed in matches its pattern |
| ReviewLedger.ConfirmationInserts | src/agentic_security/changes/review.py:28-57 | a confirmed review can be stored exactly when the reviewed row is still the whole history and the new identifier is unused |
| ReviewLedger.ConfirmationIsOnRecord | src/agentic_security/changes/review.py:28-57 | a stored confirmation is its candidate's one latest review, field by field as the reviewer made it, beside the unchanged proposal |
| ReviewLedger.DecisionSettles | src/agentic_security/storage/repositories.py:477-510 | storing a decision takes exactly its candidate off the pending list |
| ReviewTables.ReviewTables.AddDiff | src/agentic_security/storage/repositories.py:462-475 | a diff is added unless its identifier is taken |
| ReviewTables.ReviewTables.AddReview | src/agentic_security/storage/repositories.py:477-510 | a review is added exactly when validator, CHECKs, keys, trigger and indexes admit it |
| ReviewTables.ReviewTables.AddConfirmedChange | src/agentic_security/storage/repositories.py:512-524 | a change is recorded exactly when human-confirmed, backed by a CONFIRMED review and new |
| Lifecycle.AllowedMeansAdvance | src/agentic_security/lifecycle/state_machine.py:5-30 | the transition table allows anything from UNKNOWN and otherwise exactly the later stages |
| Lifecycle.TransitionValidIff | src/agentic_security/lifecycle/state_machine.py:33-41 | an event is valid after a history exactly when that is empty, or its last event is of the same entity, retrieved no later, and UNKNOWN or of an earlier stage |
| Lifecycle.AppendedIff | src/agentic_security/storage/repositories.py:257-275 | the table takes an event exactly when its identifier is new, what it references is there and it may follow |
| Lifecycle.HistoryShape | src/agentic_security/lifecycle/state_machine.py:33-41 | under any interleaving of appends a history is UNKNOWN repeated, then at most five strictly advancing stages, retrieved in order |
| Lifecycle.GaIsUniqueAndLast | src/agentic_security/lifecycle/state_machine.py:5-41 | GA occurs at most once and after every preview |
| Lifecycle.GroupBySystem | src/agentic_security/trend_primitives/queries.py:11-14 | grouping yields for each system exactly its history |
| Lifecycle.PreviewToGaVelocity | src/agentic_security/trend_primitives/queries.py:10-31 | the loops compute the velocity of exactly the measured systems |
| Lifecycle.MeasuredMeans | src/agentic_security/trend_primitives/queries.py:15-31 | a system is measured exactly when it has a dated preview of one of the three kinds and a dated GA event |
| Lifecycle.VelocityUsesTheOnlyGa | src/agentic_security/trend_primitives/queries.py:10-31 | on reachable tables the velocity subtracts the first dated preview from the only GA event, retrieved no earlier |
| Lifecycle.VelocityStartsAtFirst | src/agentic_security/trend_primitives/queries.py:16-30 | the preview it starts from is the system's first dated one |
| Lifecycle.DaysMean | src/agentic_security/trend_primitives/queries.py:30 | the velocity is the number of whole days, rounded down |
| Lifecycle.LifecycleTable.HistoryOf | src/agentic_security/storage/repositories.py:241-255 | reads back exactly the entity's rows in order |
| Lifecycle.LifecycleTable.AppendEvent | src/agentic_security/storage/repositories.py:257-275 | appends exactly when the transition is valid, the identifier new and both references exist |
| AssertionLedger.CallKeepsLawIff | src/agentic_security/assertions/service.py:41-104 | one call of any kind keeps the law exactly when it meets its condition on the ledger before it |
| AssertionLedger.AttachingKeepsLaw | src/agentic_security/assertions/service.py:60-82 | an attached call keeps the law whatever identifiers it comes with |
| AssertionLedger.LawfulIffAllFit | src/agentic_security/assertions/service.py:41-104 | over any calls, refused ones included, the law holds throughout exactly when every call meets its condition |
| AssertionLedger.AssertionsReflectObservations | src/agentic_security/assertions/service.py:41-104 | after any calls with compatible identifiers each key has one assertion whose evidence is the first-occurrence dedupe of its observations' evidence in call order |
| AssertionLedger.CoreIsFrozen | src/agentic_security/assertions/service.py:76-104 | identity, statement and first sighting never change after creation |
| AssertionLedger.EverythingIsTraced | src/agentic_security/assertions/service.py:56-104 | after any calls every assertion is, field by field, the one some call asked for that nothing refuses (so none is DISPUTED), and every observation is that of some admitted call |
| AssertionLedger.AdmittedIsRecorded | src/agentic_security/assertions/service.py:56-104 | an admitted call adds exactly its own observation and any other call nothing; its key is stored afterwards exactly when it was, or nothing refuses the assertion |
| AssertionLedger.KeyMeansSameClaim | src/agentic_security/assertions/identity.py:6-9 | slots whose fields but the last hold no colon share a key exactly when system, agent, subject, action and object agree |
| AssertionLedger.AttachedIffSameClaim | src/agentic_security/assertions/service.py:56-82 | after any calls with such slots an admitted call is attached exactly when a stored assertion makes the same claim, and to that one |
| AssertionLedger.ParaphraseMeans | src/agentic_security/assertions/service.py:72 | an observation is marked a paraphrase exactly when it says something other than its assertion |
| AssertionLedger.DedupeFold | src/agentic_security/assertions/service.py:76-82 | deduplicating step by step equals deduplicating the whole list |
| AssertionLedger.CurrentScopeIsLatest | src/agentic_security/derivations.py:49-56 | the current scope is that of the observation with the greatest (time, identifier) |
| AssertionLedger.RefusedCreationLeavesAnOrphan | src/agentic_security/assertions/service.py:75-104 | a creation refused for its state or its version identifiers leaves an observation that a later creation with its identifier and other evidence does not reflect |
| AssertionLedger.AssertionLedger.Upsert | src/agentic_security/assertions/service.py:41-104 | creates, attaches or refuses; what only the assertion's validator refuses (DISPUTED, malformed methodology or taxonomy identifier) has its observation appended already |
| AssertionLedger.NewestObservation | src/agentic_security/derivations.py:49-56 | the loop finds the observation of the assertion that `max` by (time, identifier) answers with |
| AssertionLedger.AssertionLedger.ScopeOf | src/agentic_security/assertions/service.py:37-39 | without an observation of the assertion the default scope, otherwise the scope of one of its observations that none of them is later than |
| Taxonomy.LoadChain | src/agentic_security/storage/initialization.py:67-87 | terminates on every finite directory and returns the root-first history of the configured version exactly when there is one |
| Taxonomy.ForcedOnce | src/agentic_security/storage/initialization.py:71-87 | what has been followed is the end of every possible history, so the history is unique |
| Taxonomy.PredecessorApplied | src/agentic_security/storage/schema.sql:9-14 | seeding root first, the referenced predecessor is always there already |
| Taxonomy.RowsDetermineHistory | src/agentic_security/storage/initialization.py:105-126 | the seeded rows determine the history they came from, every field and the order |
| Taxonomy.MetadataTables.InsertTaxonomy | src/agentic_security/storage/schema.sql:9-14 | the insert meets the primary key and the foreign key of `taxonomy_versions` |
| Taxonomy.MetadataTables.ApplyTaxonomies | src/agentic_security/storage/initialization.py:90-126 | succeeds exactly when nothing stored disagrees (seeding) or everything is there (verifying), and then holds exactly the authoritative rows |
| Taxonomy.MetadataTables.ApplyMethodology | src/agentic_security/storage/initialization.py:127-154 | the same for the one methodology row |
| Taxonomy.MetadataTables.Apply | src/agentic_security/storage/initialization.py:90-154 | the same for both tables, and a failure changes nothing |
| Taxonomy.InitializeTwiceAndVerify | src/agentic_security/storage/initialization.py:157-186 | after a first seeding that succeeds a second one succeeds without change and verification succeeds; after one that fails both fail |
| ResponseCache.NeverAMixture | src/agentic_security/collection/base.py:75-115 | under any overlap, abandonment or damage of either file a returned response is the content and type of one single earlier put for that URI, unless damage left readable metadata with the hash of that content |
| ResponseCache.ForgeryIsBelieved | src/agentic_security/collection/base.py:75-91 | metadata that damage left readable with the right hash is believed |
| ResponseCache.PutAlone | src/agentic_security/collection/base.py:93-115 | the steps of a put with nothing between them leave the files that the sequential put leaves |
| ResponseCache.GetAlone | src/agentic_security/collection/base.py:75-91 | the steps of a get with nothing between them answer as the sequential get and change no file |
| ResponseCache.RefinesPlainCache | src/agentic_security/collection/base.py:51-115 | used one call at a time within the age limit the file cache answers every call sequence as the plain map does |
| ResponseCache.ExpiredIsAbsent | src/agentic_security/collection/base.py:75-91 | a put is read back until it is older than the limit, and not after |
| ResponseCache.RetrievalCache.GetPlain | src/agentic_security/collection/base.py:55-56 | answers as the plain map |
| ResponseCache.RetrievalCache.PutPlain | src/agentic_security/collection/base.py:58-59 | sets one entry of the plain map |
| ResponseCache.PersistentRetrievalCache.GetFile | src/agentic_security/collection/base.py:75-91 | absent, expired, damaged or the stored response |
| ResponseCache.PersistentRetrievalCache.PutFile | src/agentic_security/collection/base.py:93-115 | a put cut off after either replacement never mixes two responses and never touches another URI |
| SnapshotPersistence.NewRowsDedupe | src/agentic_security/collection/service.py:166-185 | the new rows extend distinct rows, cover every fetched pair, were all fetched and repeat no stored pair |
| SnapshotPersistence.RunStoresEveryPair | src/agentic_security/collection/service.py:173-185 | a run that does not raise leaves a row with the source and the hash of every fetched snapshot, and has added only fetched ones whose source and hash were missing |
| SnapshotPersistence.RunFailsIff | src/agentic_security/collection/service.py:161-190 | a run raises exactly when the commit or a needed save fails, a new row's identifier is taken or repeated, or its source is unknown; the UNIQUE triple never refuses one |
| SnapshotPersistence.SyncReadsBack | src/agentic_security/collection/service.py:198-213 | every fetched source reads back unchanged exactly when the batch gives each identifier one source |
| SnapshotPersistence.RestoredExactlyWhenFresh | src/agentic_security/collection/service.py:186-190 | the undo restores the files exactly when no written identifier was stored |
| SnapshotPersistence.RunKeepsRowsFilesIff | src/agentic_security/collection/service.py:161-190 | a run, killed or not, keeps every stored row's file exactly when it writes under no stored identifier |
| SnapshotPersistence.RunKeepsFilesIff | src/agentic_security/collection/service.py:161-196 | rows and files stay matched one to one exactly when, besides, no written file is left behind |
| SnapshotPersistence.UnkilledLeavesNothing | src/agentic_security/collection/service.py:186-190 | a failed run that is not killed leaves no file behind |
| SnapshotPersistence.KilledLeavesIffWritten | src/agentic_security/collection/service.py:176-190 | a run killed before its undo leaves a file behind exactly when it had written one |
| SnapshotPersistence.ReusedIdentifierLosesAFile | src/agentic_security/collection/service.py:176-190 | new content under a stored identifier makes the run raise and removes the stored row's file |
| SnapshotPersistence.RunsKeepDistinct | src/agentic_security/collection/service.py:161-196 | over any runs, failed and killed ones included, rows are only added and no source stores one hash twice |
| SnapshotPersistence.RunsKeepPairsDifferent | src/agentic_security/collection/service.py:173-185 | over any runs no two rows have both source and hash in common |
| SnapshotPersistence.RunsKeepSourcesKnown | src/agentic_security/storage/repositories.py:94-115 | over any runs every row names a stored source |
| SnapshotPersistence.RunsKeepRowsFilesIff | src/agentic_security/collection/service.py:161-196 | over any runs, killed ones included, stored rows always have their files exactly when identifiers are fresh |
| SnapshotPersistence.RunsKeepFilesIff | src/agentic_security/collection/service.py:161-196 | over any runs rows and files match throughout exactly when identifiers are fresh and no kill leaves a file behind |
| SnapshotPersistence.CollectionStore.SyncSource | src/agentic_security/storage/repositories.py:62-87 | afterwards the source is stored as given and no other row has changed |
| SnapshotPersistence.CollectionStore.AddRow | src/agentic_security/storage/repositories.py:94-115 | a row is added exactly when its identifier is new, its source known and its triple unused |
| SnapshotPersistence.CollectionStore.SaveAndAdd | src/agentic_security/collection/service.py:183-185 | the file is written unless its save fails, and then the row is added exactly when it is admitted |
| SnapshotPersistence.CollectionStore.AddSnapshots | src/agentic_security/collection/service.py:166-185 | the loop writes the files of the new rows up to the first refusal; on success created and duplicates add up to the batch |
| SnapshotPersistence.CollectionStore.VerifyPersisted | src/agentic_security/collection/service.py:198-223 | true exactly when the sources read back and each new row has its file |
| SnapshotPersistence.CollectionStore.Unlink | src/agentic_security/collection/service.py:186-190 | removes exactly the files of the first `count` rows listed |
| SnapshotPersistence.CollectionStore.PersistRows | src/agentic_security/collection/service.py:161-190 | all new rows and files, or rows and sources as before and the written files removed as far as the undo got |
| SnapshotPersistence.CollectionStore.Persist | src/agentic_security/collection/service.py:161-196 | fetched = persisted + duplicate on success, the later check fails exactly for an inconsistent batch, and the tables end as the run specification says |
| Manifest.OrdersAgree | src/agentic_security/publishing/validation.py:297-306 | path-component order and POSIX text order agree on two paths exactly when they do not straddle |
| Manifest.PosixInjective | src/agentic_security/publishing/validation.py:284-289 | different valid paths have different POSIX text |
| Manifest.SortedIsFixed | src/agentic_security/publishing/validation.py:297-299 | comparing with the stably sorted list tests exactly that the list is in text order |
| Manifest.AcceptedEnumerates | src/agentic_security/publishing/validation.py:292-312 | an accepted manifest lists each bundle file exactly once with its hash, and nothing else |
| Manifest.ManifestPinsBundle | src/agentic_security/publishing/validation.py:292-312 | one manifest is accepted with one bundle only |
| Manifest.ExportValidates | src/agentic_security/publishing/projection.py:95-111 | the order, enumeration and hash checks accept what `export` wrote exactly when no two files straddle |
| Manifest.OnlyExportIsAccepted | src/agentic_security/publishing/validation.py:292-312 | these checks accept one manifest of a bundle at most, the one `export` writes, and that exactly without straddling files |
| Manifest.LedgerExportValidates | src/agentic_security/publishing/projection.py:95-111 | the bundle written today always passes the order, enumeration and hash checks |
| Manifest.StraddlingBundleIsRefused | src/agentic_security/publishing/validation.py:297-306 | a bundle with `data/ledger.json` and `data-old.json` is refused |
| LineText.NormalizeLoop | src/agentic_security/normalization.py:16-22 | the loop computes the line stage |
| LineText.NormalizedLines | src/agentic_security/normalization.py:16-22 | the output is the kept lines joined, and splits back into exactly these |
| LineText.NormalizeIdempotent | src/agentic_security/normalization.py:16-22 | the line stage is idempotent |
| LineText.KeptIff | src/agentic_security/normalization.py:16-22 | a text is a kept line exactly when some line says it, compacted, and it is neither empty nor page chrome |
| LineText.CollapseKeepsWords | src/agentic_security/normalization.py:18 | collapsing blanks changes no word |
| LineText.StripMeans | src/agentic_security/normalization.py:18 | stripping takes all white space off both ends and nothing else |
| LineText.SplitKeepsText | src/agentic_security/normalization.py:17 | splitting into lines loses the line breaks and nothing else |
| LineText.CaseDoesNotMatter | src/agentic_security/normalization.py:19 | whether a line is page chrome does not depend on the case of its letters |
| LineText.SplitJoin | src/agentic_security/normalization.py:16-22 | joining clean lines and splitting gives the lines back |
| EvidenceAnchor.LineQuoteIffWhole | src/agentic_security/evidence/validation.py:38-48 | the counted lines join to the quote exactly when it occupies whole lines |
| EvidenceAnchor.AnchorResolvesIffWholeLines | src/agentic_security/evidence/validation.py:15-50 | an anchor made from an offset always passes the offset checks, and the line check exactly for whole lines |
| EvidenceAnchor.PlainAnchorResolvesIff | src/agentic_security/evidence/validation.py:15-50 | on a snapshot without git any anchor at all resolves exactly when it is the one made from its own offsets |
| EvidenceAnchor.GitAnchorResolvesIff | src/agentic_security/evidence/validation.py:15-50 | on a git snapshot any anchor at all resolves exactly when all but its lines is as made from its offsets, its provenance is the snapshot's, and its lines join to its quote |
| EvidenceAnchor.ResolvedQuoteIsThere | src/agentic_security/evidence/validation.py:15-27 | an anchor that resolves quotes the snapshot's text at its offsets and names the snapshot by identifier and hash |
| BundleHash.ArtifactHashInjective | src/agentic_security/publishing/github.py:65-67 | among lists whose paths do not imitate, the artifact hash determines every path and file hash, in order |
| BundleHash.ImitationCollides | src/agentic_security/publishing/github.py:65-67 | every list with an imitating path has another with one more entry and the same hash |
| BundleHash.DeterminedIffPlain | src/agentic_security/publishing/github.py:65-67 | the hash determines a list among all with at least as many entries exactly when no path imitates |
| BundleHash.Normalise | src/agentic_security/publishing/github.py:65-67 | taking imitating paths apart ends in a list without any, with the same hash, longer unless there was none |
| BundleHash.NewlinePathCollides | src/agentic_security/publishing/github.py:65-67 | as a mere function, the hash of one entry whose path imitates is that of two entries |
| PathScan.ImitationIsRefused | src/agentic_security/publishing/validation.py:144-151 | every path without empty components that imitates the end of a hash line holds a token that the scan refuses |
| PathScan.ScannedHashInjective | src/agentic_security/publishing/validation.py:292-312 | two manifests whose file paths passed the scan have one artifact hash only if they list the same files and hashes |
| PathScan.PosixHasNoEmptyComponent | src/agentic_security/publishing/validation.py:284-289 | the path of a file has no empty component, so it is never scanned as a URL |
| PathScan.LoneHashRefusedIff | src/agentic_security/publishing/validation.py:144-151 | hexadecimal digits alone are refused exactly from 32 to 128 of them, but for the length allowed there |
| PathScan.CollidingPathIsRefused | src/agentic_security/publishing/validation.py:168-191 | the path of `NewlinePathCollides` is refused |
| Publisher.StepKeepsInv | src/agentic_security/publishing/github.py:253-452 | every command of any publisher, every cut and every act of people keeps the counts of pushes, branches, pull requests and claims in balance |
| Publisher.EffectsAreConserved | src/agentic_security/publishing/github.py:253-452 | over every interleaving pushes equal deletions plus the present branch plus fast-forwards, fast-forwards are at most the merges that kept commits, pull requests equal closings plus the open one, and no more successes claim to be new than there are pull requests |
| Publisher.NeverPublishesTwice | src/agentic_security/publishing/github.py:253-452 | any number of overlapping publishers make at most one push, one pull request and one success that is not a duplicate, every success naming that pull request, as long as nobody deletes the branch or closes the pull request |
| Publisher.RemovalAllowsASecond | src/agentic_security/publishing/github.py:316-452 | with a closed pull request and a deleted branch, a publisher that had looked before publishes a second time |
| Publisher.MergeAllowsASecond | src/agentic_security/publishing/github.py:349-424 | after a merge that kept the commits, a publisher that had looked before clones main, pushes a fast-forward and opens a second pull request, without any deletion |
| Publisher.SoloPublishesOnce | src/agentic_security/publishing/github.py:316-452 | publishers that do not overlap publish once even if people remove the branch or the pull request |
| Publisher.PhaseFallsOnlyByDeletion | src/agentic_security/publishing/github.py:316-452 | the only step back of the remote is to delete a branch that has no pull request |
| Publisher.PhaseNeverFalls | src/agentic_security/publishing/github.py:316-452 | over any run the remote only moves from nothing to branch to pull request, exactly when nobody deletes a branch without one |
| Publisher.SuccessMeansPublished | src/agentic_security/publishing/github.py:179-251 | while people leave the branch and its pull request alone, a success of any publisher means that the branch holds this artifact under one open draft, and no publisher changes main |
| Publisher.ExistingBranchMustHold | src/agentic_security/publishing/github.py:179-251 | with a branch there, a run answers or goes on exactly when the branch changes `publication/` only and holds the artifact's files and metadata, whoever changed it |
| Publisher.ListingIsFaithful | src/agentic_security/publishing/github.py:96-160 | a listing sees the newest pull request, goes on with a draft only and misses none |
| Publisher.CreateIsFollowedUp | src/agentic_security/publishing/github.py:253-294 | whatever becomes of the create command the run looks for the pull request, so that a lost answer is made up for by a duplicate result |
| Publisher.CreatedIsVerified | src/agentic_security/publishing/github.py:283-294 | a result after creating names the newest pull request, a draft, and is new only if this run opened it |
| Publisher.SmoothOutcome | src/agentic_security/publishing/github.py:296-452 | from any remote whatever, a run in which every command works reports exactly the result its branch, pull request and main call for, and if it reports at all the branch holds the artifact and the newest pull request is a draft |
| Publisher.SmoothRunSucceedsIff | src/agentic_security/publishing/github.py:316-452 | after any runs, cut off anywhere, and any other changes of main, a run in which every command works adds a success exactly when the type can be published and reported, and there is a branch already or main does not hold this very bundle then; the success is new exactly when there was no branch |
| Publisher.LeadingDashNeverSucceeds | src/agentic_security/publishing/github.py:54-62 | an artifact type with a leading dash is never reported as published |
| Publisher.LeadingDashIsPublished | src/agentic_security/publishing/github.py:302-308 | yet it passes the first check, is pushed and gets an open pull request |

## Left out

- Network clients, robots rules, the git and `gh` command lines, the command-line interface, the web service, the site and runtime configuration: plumbing around the modelled state.
- Heartbeat threads and job listings: they do not change job state.
- `run_forever` and the executors themselves: an executor is its outcome, returned, failed with a category, or failed unexpectedly.
- More than one lease name: the store uses one, so the lease table is an optional row.
- The two safe messages the runtime writes into a job row are names and not texts.
- The store without the process lock: there is no fencing token, so the theorems on a live job need the lock.
- HTML unescaping and tag stripping in `normalize_v1`: the whole function is not idempotent because of unescaping.
- The content scan of the bundle validator (secret patterns, entropy), but for the rule on hexadecimal tokens as it meets a manifest's paths; so the manifest theorems speak of the order, enumeration and hash checks.
- The patterns on identifiers: whether an identifier matches is an argument where it decides something (`Fits`).
- The stage and backup renames of `export`, and the markdown texts of briefs and packs.
- The keyword rules that classify a diff: what they propose is an argument of `CreateReview`.
- Contradiction resolution: it updates a status column but not the payload that readers use, so no agreement holds there.
- Derived labels such as freshness, autonomy and independence: small decision tables.
- The `subject_type` and `scope_key` slots and the panels of an assertion; every observation is recorded as accepted, as `upsert` does.
- AssertionLedger.AssertionsReflectObservations: requires compatible identifiers, a condition on the calls alone; the exact condition, which also looks at the ledger, is `CallFits`, and `LawfulIffAllFit` states it over all calls.
- Publisher.NeverPublishesTwice: the listing of pull requests is exact, pull requests are not reopened, people add commits to the branch but do not reset it to older ones, and each publisher has a worktree of its own, while two on one machine would share a directory.
- SnapshotPersistence.CollectionStore.AddSnapshots: a single file write is atomic, and another process writing the same store meanwhile is not modelled. A process killed after the commit leaves what a successful run leaves.
- Publisher commands that only read or only touch the local worktree are merged with the next one; the worktree itself is rebuilt by every run and has no state here.
- Memory exhaustion, disk limits and partial writes inside one file.
