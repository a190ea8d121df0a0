/**
 The `jobs` and `pipeline_leases` tables and the effect of one committed transaction on them.
 Times are instants in microseconds; IsoTime proves that the text columns compare the same way.
 */
module JobTable {
  import opened Common
  import Text

  type JobId = string

  datatype JobType = Collect | Research | Daily | WeeklyPack | PublicationExport | PublicationPr

  datatype Status = Queued | Running | Succeeded | Failed | Cancelled

  predicate Terminal(s: Status) {
    s.Succeeded? || s.Failed? || s.Cancelled?
  }

  datatype FailureCategory =
    | ConfigurationUnavailable | ProviderUnavailable | CollectionFailed | DiskGuard | LedgerUnavailable
    | GithubAuthUnavailable | PublicationValidationFailed | ConcurrencyTimeout | Interrupted | InternalError

  /** The two fixed texts the runtime writes are named rather than spelled out; an executor's own is kept. */
  datatype Message = StoppedBeforeCompletion | FailedUnexpectedly | Safe(text: string)

  datatype Job = Job(
    jobType: JobType, requestedBy: string, key: string, createdAt: int, queuedAt: int,
    startedAt: Option<int>, finishedAt: Option<int>, updatedAt: int, status: Status, retries: nat,
    failure: Option<FailureCategory>, message: Option<Message>)

  datatype Lease = Lease(holder: JobId, acquiredAt: int, expiresAt: int)

  /** `jobs` by primary key, and the row of the one lease name in use. */
  datatype Db = Db(jobs: map<JobId, Job>, lease: Option<Lease>)

  const EMPTY := Db(map[], None)

  const MICROS_PER_SECOND := 1_000_000

  /** The UNIQUE constraint on `idempotency_key`. */
  ghost predicate UniqueKeys(jobs: map<JobId, Job>) {
    forall i, j | i in jobs && j in jobs && jobs[i].key == jobs[j].key :: i == j
  }

  ghost predicate HasKey(jobs: map<JobId, Job>, key: string) {
    exists i :: i in jobs && jobs[i].key == key
  }

  /** What an accepted request fixes for good. */
  predicate SameRequest(a: Job, b: Job) {
    a.jobType == b.jobType && a.requestedBy == b.requestedBy && a.key == b.key && a.createdAt == b.createdAt
  }

  // ----- enqueue -----

  datatype Enqueued = Accepted(id: JobId) | Replayed(id: JobId) | Conflict | IdTaken

  function NewJob(now: int, jobType: JobType, requestedBy: string, key: string): Job {
    Job(jobType, requestedBy, key, now, now, None, None, now, Queued, 0, None, None)
  }

  ghost predicate EnqueueOutcome(db: Db, jobType: JobType, requestedBy: string, key: string, id: JobId, r: Enqueued) {
    match r
    case Replayed(i) =>
      i in db.jobs && db.jobs[i].key == key && db.jobs[i].jobType == jobType && db.jobs[i].requestedBy == requestedBy
    case Conflict =>
      exists i :: i in db.jobs && db.jobs[i].key == key
          && (db.jobs[i].jobType != jobType || db.jobs[i].requestedBy != requestedBy)
    case IdTaken => !HasKey(db.jobs, key) && id in db.jobs
    case Accepted(i) => !HasKey(db.jobs, key) && i == id && id !in db.jobs
  }

  /** The table after an enqueue with the fresh identifier `id`: a used key or identifier changes nothing. */
  ghost function Enqueue(db: Db, now: int, jobType: JobType, requestedBy: string, key: string, id: JobId): Db {
    if HasKey(db.jobs, key) || id in db.jobs then db
    else db.(jobs := db.jobs[id := NewJob(now, jobType, requestedBy, key)])
  }

  /** Exactly one answer is possible: acceptance for an unused key and identifier, otherwise what is there decides. */
  lemma EnqueueDecides(db: Db, jobType: JobType, requestedBy: string, key: string, id: JobId, r: Enqueued)
    requires UniqueKeys(db.jobs)
    ensures EnqueueOutcome(db, jobType, requestedBy, key, id, r) <==>
              if forall i | i in db.jobs ::
                  db.jobs[i].key != key then r == if id in db.jobs then IdTaken else Accepted(id)
              else
                exists i :: i in db.jobs && db.jobs[i].key == key
                            && r == if db.jobs[i].jobType == jobType && db.jobs[i].requestedBy == requestedBy
                                    then Replayed(i) else Conflict
  {
  }

  /** An accepted request is there, waiting, as it was made, and nothing else has changed. */
  lemma AcceptedAsMade(db: Db, now: int, jobType: JobType, requestedBy: string, key: string, id: JobId)
    requires !HasKey(db.jobs, key) && id !in db.jobs
    ensures var t := Enqueue(db, now, jobType, requestedBy, key, id);
            && t.jobs.Keys == db.jobs.Keys + {id} && t.lease == db.lease
            && (forall i | i in db.jobs :: t.jobs[i] == db.jobs[i])
            && t.jobs[id].jobType == jobType && t.jobs[id].requestedBy == requestedBy && t.jobs[id].key == key
            && t.jobs[id].status == Queued && t.jobs[id].retries == 0
            && t.jobs[id].createdAt == t.jobs[id].queuedAt == t.jobs[id].updatedAt == now
  {
  }

  /** Repeating a request just accepted replays it, and any other request under its key is a conflict. */
  lemma RepetitionIsReplayed(db: Db, now: int, jobType: JobType, requestedBy: string, key: string, id: JobId,
                             laterType: JobType, laterBy: string, newId: JobId, r: Enqueued)
    requires UniqueKeys(db.jobs) && !HasKey(db.jobs, key) && id !in db.jobs
    requires EnqueueOutcome(Enqueue(db, now, jobType, requestedBy, key, id), laterType, laterBy, key, newId, r)
    ensures r == if laterType == jobType && laterBy == requestedBy then Replayed(id) else Conflict
  {
    var t := Enqueue(db, now, jobType, requestedBy, key, id);
    AcceptedAsMade(db, now, jobType, requestedBy, key, id);
    assert t.jobs[id].key == key && HasKey(t.jobs, key);
    assert forall i | i in t.jobs && t.jobs[i].key == key :: i == id;
  }

  // ----- leases -----

  /** `DELETE FROM pipeline_leases WHERE expires_at<=?` */
  function Purge(lease: Option<Lease>, now: int): Option<Lease> {
    if lease.Some? && lease.value.expiresAt <= now then None else lease
  }

  predicate Holds(lease: Option<Lease>, id: JobId) {
    lease.Some? && lease.value.holder == id
  }

  // ----- recover_interrupted -----

  function Interrupt(job: Job, now: int, maxRetries: nat): Job {
    if job.retries < maxRetries then
      job.(status := Queued, startedAt := None, queuedAt := now, updatedAt := now, retries := job.retries + 1,
           failure := None, message := None)
    else
      job.(status := Failed, finishedAt := Some(now), updatedAt := now, failure := Some(Interrupted),
           message := Some(StoppedBeforeCompletion))
  }

  function RunningIds(jobs: map<JobId, Job>): set<JobId> {
    set id | id in jobs && jobs[id].status == Running
  }

  function QueuedIds(jobs: map<JobId, Job>): set<JobId> {
    set id | id in jobs && jobs[id].status == Queued
  }

  /** The running rows that no unexpired lease protects. */
  function Orphans(db: Db, now: int): set<JobId> {
    set id | id in RunningIds(db.jobs) && !Holds(Purge(db.lease, now), id)
  }

  function InterruptAll(jobs: map<JobId, Job>, ids: set<JobId>, now: int, maxRetries: nat): map<JobId, Job> {
    map id | id in jobs :: if id in ids then Interrupt(jobs[id], now, maxRetries) else jobs[id]
  }

  function Recover(db: Db, now: int, maxRetries: nat): Db {
    Db(InterruptAll(db.jobs, Orphans(db, now), now, maxRetries), Purge(db.lease, now))
  }

  // ----- claim_next -----

  /** `ORDER BY queued_at,created_at,job_id` */
  predicate Ahead(a: Job, i: JobId, b: Job, j: JobId) {
    a.queuedAt < b.queuedAt
    || (a.queuedAt == b.queuedAt && (a.createdAt < b.createdAt || (a.createdAt == b.createdAt && Text.Less(i, j))))
  }

  ghost predicate IsHead(jobs: map<JobId, Job>, i: JobId) {
    i in QueuedIds(jobs) && forall j | j in QueuedIds(jobs) && j != i :: Ahead(jobs[i], i, jobs[j], j)
  }

  lemma HeadIsUnique(jobs: map<JobId, Job>, i: JobId, j: JobId)
    requires IsHead(jobs, i) && IsHead(jobs, j)
    ensures i == j
  {
    if i != j && Text.Less(i, j) {
      Text.LessAsymmetric(i, j);
    }
  }

  lemma AheadTotal(a: Job, i: JobId, b: Job, j: JobId)
    ensures i == j || Ahead(a, i, b, j) || Ahead(b, j, a, i)
  {
    Text.LessTotal(i, j);
  }

  lemma AheadTransitive(a: Job, i: JobId, b: Job, j: JobId, c: Job, k: JobId)
    requires Ahead(a, i, b, j) && Ahead(b, j, c, k)
    ensures Ahead(a, i, c, k)
  {
    if Text.Less(i, j) && Text.Less(j, k) {
      Text.LessTransitive(i, j, k);
    }
  }

  lemma AheadIrreflexive(a: Job, i: JobId)
    ensures !Ahead(a, i, a, i)
  {
    Text.LessIrreflexive(i);
  }

  /** Every finite non-empty set of rows has a first row in queue order. */
  lemma {:induction false} FirstExists(jobs: map<JobId, Job>, ids: set<JobId>) returns (i: JobId)
    requires ids != {} && ids <= jobs.Keys
    ensures i in ids && forall j | j in ids && j != i :: Ahead(jobs[i], i, jobs[j], j)
  {
    var x :| x in ids;
    var rest := ids - {x};
    i := x;
    if rest == {} {
      assert ids == {x};
    } else {
      var y := FirstExists(jobs, rest);
      AheadTotal(jobs[x], x, jobs[y], y);
      if Ahead(jobs[y], y, jobs[x], x) {
        i := y;
      } else {
        forall j | j in rest && j != y
          ensures Ahead(jobs[x], x, jobs[j], j)
        {
          AheadTransitive(jobs[x], x, jobs[y], y, jobs[j], j);
        }
      }
    }
  }

  lemma HeadExists(jobs: map<JobId, Job>)
    requires QueuedIds(jobs) != {}
    ensures exists i :: IsHead(jobs, i)
  {
    var i := FirstExists(jobs, QueuedIds(jobs));
    assert IsHead(jobs, i);
  }

  ghost function Head(jobs: map<JobId, Job>): (i: JobId)
    requires QueuedIds(jobs) != {}
    ensures IsHead(jobs, i)
  {
    HeadExists(jobs);
    var i :| IsHead(jobs, i);
    i
  }

  /**
   `a` was queued first, or created first of two queued together, or has the lesser identifier of two alike in both.
   */
  ghost predicate NoLater(a: Job, i: JobId, b: Job, j: JobId) {
    && a.queuedAt <= b.queuedAt
    && (a.queuedAt == b.queuedAt ==> a.createdAt <= b.createdAt)
    && (a.queuedAt == b.queuedAt && a.createdAt == b.createdAt ==> Text.AtMost(i, j))
  }

  /** The head is the queued row that no queued row comes before, column by column. */
  lemma HeadIsOldest(jobs: map<JobId, Job>, i: JobId)
    ensures IsHead(jobs, i) <==>
              && i in jobs && jobs[i].status == Queued
              && forall j | j in jobs && jobs[j].status == Queued :: NoLater(jobs[i], i, jobs[j], j)
  {
    if i in jobs && jobs[i].status == Queued {
      forall j | j in jobs && jobs[j].status == Queued
        ensures j != i ==> (Ahead(jobs[i], i, jobs[j], j) <==> NoLater(jobs[i], i, jobs[j], j))
        ensures NoLater(jobs[i], i, jobs[i], i)
      {
      }
      assert forall j | j in QueuedIds(jobs) :: j in jobs && jobs[j].status == Queued;
      assert forall j | j in jobs && jobs[j].status == Queued :: j in QueuedIds(jobs);
    }
  }

  function Start(job: Job, now: int): Job {
    job.(status := Running, startedAt := Some(now), updatedAt := now)
  }

  ghost predicate CanClaim(db: Db, now: int) {
    Purge(db.lease, now).None? && QueuedIds(db.jobs) != {}
  }

  ghost function Claim(db: Db, now: int, leaseSeconds: int): Db {
    if CanClaim(db, now) then
      var i := Head(db.jobs);
      Db(db.jobs[i := Start(db.jobs[i], now)], Some(Lease(i, now, now + leaseSeconds * MICROS_PER_SECOND)))
    else
      db.(lease := Purge(db.lease, now))
  }

  // ----- finish -----

  datatype Finished = Done | NotTerminal | NotRunning

  function FinishOutcome(db: Db, id: JobId, status: Status): Finished {
    if !Terminal(status) then NotTerminal
    else if id !in RunningIds(db.jobs) then NotRunning
    else Done
  }

  function Close(job: Job, now: int, status: Status, failure: Option<FailureCategory>, message: Option<Message>): Job {
    job.(status := status, finishedAt := Some(now), updatedAt := now, failure := failure, message := message)
  }

  function Finish(db: Db, now: int, id: JobId, status: Status, failure: Option<FailureCategory>,
      message: Option<Message>): Db {
    if FinishOutcome(db, id, status) != Done then db
    else Db(db.jobs[id := Close(db.jobs[id], now, status, failure, message)],
            if Holds(db.lease, id) then None else db.lease)
  }

  /** `finish` changes a RUNNING row only, to the status, time and reasons given, and drops its own lease only. */
  lemma FinishExactly(db: Db, now: int, id: JobId, status: Status, failure: Option<FailureCategory>,
      message: Option<Message>)
    ensures var t, r := Finish(db, now, id, status, failure, message), FinishOutcome(db, id, status);
            && (r == NotTerminal <==> status == Queued || status == Running)
            && (r == Done <==>
                  (status == Succeeded || status == Failed || status == Cancelled)
                  && id in db.jobs && db.jobs[id].status == Running)
            && (r != Done ==> t == db)
            && (r == Done ==>
                  && t.jobs.Keys == db.jobs.Keys && (forall i | i in db.jobs && i != id :: t.jobs[i] == db.jobs[i])
                  && SameRequest(t.jobs[id], db.jobs[id])
                  && t.jobs[id].status == status && t.jobs[id].finishedAt == Some(now) && t.jobs[id].updatedAt == now
                  && t.jobs[id].failure == failure && t.jobs[id].message == message
                  && t.jobs[id].startedAt == db.jobs[id].startedAt && t.jobs[id].retries == db.jobs[id].retries
                  && t.lease == if db.lease.Some? && db.lease.value.holder == id then None else db.lease)
  {
  }
}
