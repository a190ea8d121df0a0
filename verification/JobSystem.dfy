/**
 The whole job system: any number of workers in any interleaving with enqueuers, a clock that may
 read anything, and a crash possible between any two steps.  Each store method is one atomic step.
 A crash gives the process lock back but leaves the job row RUNNING and the lease in place.
 */
module JobSystem {
  import opened Common
  import opened JobTable

  type WorkerId = nat

  datatype Config = Config(maxRetries: nat, leaseSeconds: int)

  /** How the executor ended. */
  datatype Outcome = Completed | ExecutionError(category: FailureCategory, message: string) | Unexpected

  /** Where a worker stands in `run_once`; the lock is held from Locked to Leaving. */
  datatype Pc =
    | Idle | Locked | Recovered | Executing(job: JobId) | Closing(job: JobId, outcome: Outcome) | Leaving
    | Raised // `finish` raised "job is not running"

  /** `started` lists the job of every successful claim so far. */
  datatype Sys = Sys(db: Db, lock: Option<WorkerId>, pcs: map<WorkerId, Pc>, started: seq<JobId>)

  datatype Event =
    | Enqueue(now: int, jobType: JobType, requestedBy: string, key: string, id: JobId)
    | TryLock(w: WorkerId)
    | Recover(w: WorkerId, now: int)
    | Claim(w: WorkerId, now: int)
    | Execute(w: WorkerId, outcome: Outcome)
    | Finish(w: WorkerId, now: int)
    | Release(w: WorkerId)
    | Crash(w: WorkerId)

  const INIT := Sys(EMPTY, None, map[], [])

  function At(s: Sys, w: WorkerId): Pc {
    if w in s.pcs then s.pcs[w] else Idle
  }

  function Move(s: Sys, w: WorkerId, pc: Pc): Sys {
    s.(pcs := s.pcs[w := pc])
  }

  function Unlock(s: Sys, w: WorkerId): Sys {
    Move(s, w, Idle).(lock := if s.lock == Some(w) then None else s.lock)
  }

  function FinalStatus(o: Outcome): Status {
    if o.Completed? then Succeeded else Failed
  }

  function FinalCategory(o: Outcome): Option<FailureCategory> {
    match o
    case Completed => None
    case ExecutionError(category, _) => Some(category)
    case Unexpected => Some(InternalError)
  }

  function FinalMessage(o: Outcome): Option<Message> {
    match o
    case Completed => None
    case ExecutionError(_, message) => Some(Safe(message))
    case Unexpected => Some(FailedUnexpectedly)
  }

  ghost function CloseJob(db: Db, now: int, job: JobId, o: Outcome): Db {
    JobTable.Finish(db, now, job, FinalStatus(o), FinalCategory(o), FinalMessage(o))
  }

  /** One atomic step; an event whose worker is elsewhere in `run_once` does nothing. */
  ghost function Step(c: Config, s: Sys, e: Event): Sys {
    match e
    case Enqueue(now, jobType, requestedBy, key, id) =>
      s.(db := JobTable.Enqueue(s.db, now, jobType, requestedBy, key, id))
    case TryLock(w) =>
      if At(s, w).Idle? && s.lock.None? then Move(s, w, Locked).(lock := Some(w)) else s
    case Recover(w, now) =>
      if At(s, w).Locked? then Move(s, w, Recovered).(db := JobTable.Recover(s.db, now, c.maxRetries)) else s
    case Claim(w, now) =>
      if !At(s, w).Recovered? then s
      else
        var db := JobTable.Claim(s.db, now, c.leaseSeconds);
        if CanClaim(s.db, now) then
          var i := Head(s.db.jobs);
          Move(s, w, Executing(i)).(db := db, started := s.started + [i])
        else
          Move(s, w, Leaving).(db := db)
    case Execute(w, outcome) =>
      if At(s, w).Executing? then Move(s, w, Closing(At(s, w).job, outcome)) else s
    case Finish(w, now) =>
      if !At(s, w).Closing? then s
      else
        var Closing(job, o) := At(s, w);
        if FinishOutcome(s.db, job, FinalStatus(o)) != Done then Move(s, w, Raised)
        else Move(s, w, Leaving).(db := CloseJob(s.db, now, job, o))
    case Release(w) =>
      if At(s, w).Leaving? || At(s, w).Raised? then Unlock(s, w) else s
    case Crash(w) =>
      if At(s, w).Idle? then s else Unlock(s, w)
  }

  ghost function Run(c: Config, s: Sys, es: seq<Event>): Sys
    decreases |es|
  {
    if es == [] then s else Run(c, Step(c, s, es[0]), es[1..])
  }

  lemma {:induction false} RunSplit(c: Config, s: Sys, es: seq<Event>, fs: seq<Event>)
    ensures Run(c, s, es + fs) == Run(c, Run(c, s, es), fs)
    decreases |es|
  {
    if es == [] {
      assert es + fs == fs;
    } else {
      assert (es + fs)[1..] == es[1..] + fs;
      RunSplit(c, Step(c, s, es[0]), es[1..], fs);
    }
  }

  // ----- the invariant -----

  function Starts(s: Sys, j: JobId): nat {
    multiset(s.started)[j]
  }

  function HolderSet(lease: Option<Lease>): set<JobId> {
    if lease.Some? then {lease.value.holder} else {}
  }

  predicate InHand(pc: Pc) {
    pc.Executing? || pc.Closing?
  }

  /** Only the lock holder is inside `run_once`, and `finish` has never raised. */
  ghost predicate LockInv(s: Sys) {
    && (forall w: WorkerId :: At(s, w).Idle? || s.lock == Some(w))
    && (forall w: WorkerId :: !At(s, w).Raised?)
  }

  /** A job in hand, and the holder of a lease, is a RUNNING row; there are never more than two such rows. */
  ghost predicate RunningInv(s: Sys) {
    && (forall w: WorkerId | InHand(At(s, w)) :: At(s, w).job in RunningIds(s.db.jobs))
    && HolderSet(s.db.lease) <= RunningIds(s.db.jobs)
    && (forall w: WorkerId | At(s, w).Recovered? :: RunningIds(s.db.jobs) <= HolderSet(s.db.lease))
    && |RunningIds(s.db.jobs)| <= 2
  }

  predicate Accounted(c: Config, job: Job, starts: nat) {
    job.retries <= c.maxRetries && starts == job.retries + (if job.status.Queued? then 0 else 1)
  }

  /** Every attempt is accounted for: one for each requeue, and one for leaving the queue the last time. */
  ghost predicate AttemptInv(c: Config, s: Sys) {
    && (forall j | j in s.db.jobs :: Accounted(c, s.db.jobs[j], Starts(s, j)))
    && (forall j | j !in s.db.jobs :: Starts(s, j) == 0)
  }

  ghost predicate Inv(c: Config, s: Sys) {
    UniqueKeys(s.db.jobs) && LockInv(s) && RunningInv(s) && AttemptInv(c, s)
  }

  // ----- what one transaction does to the set of RUNNING rows -----

  lemma EnqueueRunning(db: Db, now: int, jobType: JobType, requestedBy: string, key: string, id: JobId)
    ensures RunningIds(JobTable.Enqueue(db, now, jobType, requestedBy, key, id).jobs) == RunningIds(db.jobs)
  {
  }

  /** Exactly the unexpired lease's holder survives recovery as RUNNING. */
  lemma RecoverRunning(db: Db, now: int, maxRetries: nat)
    ensures RunningIds(JobTable.Recover(db, now, maxRetries).jobs)
            == RunningIds(db.jobs) * HolderSet(Purge(db.lease, now))
  {
    var after := JobTable.Recover(db, now, maxRetries).jobs;
    forall id
      ensures id in RunningIds(after) <==> id in RunningIds(db.jobs) && Holds(Purge(db.lease, now), id)
    {
      if id in RunningIds(db.jobs) && !Holds(Purge(db.lease, now), id) {
        assert id in Orphans(db, now);
      }
    }
  }

  lemma ClaimRunning(db: Db, now: int, leaseSeconds: int)
    requires CanClaim(db, now)
    ensures RunningIds(JobTable.Claim(db, now, leaseSeconds).jobs) == RunningIds(db.jobs) + {Head(db.jobs)}
    ensures Head(db.jobs) !in RunningIds(db.jobs)
  {
    assert Head(db.jobs) in QueuedIds(db.jobs);
  }

  lemma CloseRunning(db: Db, now: int, job: JobId, o: Outcome)
    requires job in RunningIds(db.jobs)
    ensures RunningIds(CloseJob(db, now, job, o).jobs) == RunningIds(db.jobs) - {job}
  {
  }

  lemma SubsetSize(a: set<JobId>, b: set<JobId>)
    requires a <= b
    ensures |a| <= |b|
  {
    assert b == a + (b - a);
  }

  // ----- every step keeps the invariant -----

  lemma StepKeepsLock(c: Config, s: Sys, e: Event)
    requires Inv(c, s)
    ensures LockInv(Step(c, s, e))
  {
    var t := Step(c, s, e);
    if e.Finish? && At(s, e.w).Closing? {
      assert InHand(At(s, e.w));
      assert FinishOutcome(s.db, At(s, e.w).job, FinalStatus(At(s, e.w).outcome)) == Done;
    }
    if !e.Enqueue? {
      forall w: WorkerId
        ensures (At(t, w).Idle? || t.lock == Some(w)) && !At(t, w).Raised?
      {
        assert At(s, w).Idle? || s.lock == Some(w);
        assert !At(s, w).Raised?;
        assert At(s, e.w).Idle? || s.lock == Some(e.w);
        assert w != e.w ==> At(t, w) == At(s, w);
      }
    } else {
      assert forall w: WorkerId :: At(t, w) == At(s, w);
    }
  }

  lemma EnqueueKeepsRunning(c: Config, s: Sys, e: Event)
    requires Inv(c, s) && e.Enqueue?
    ensures RunningInv(Step(c, s, e))
  {
    var t := Step(c, s, e);
    EnqueueRunning(s.db, e.now, e.jobType, e.requestedBy, e.key, e.id);
    assert t.db.lease == s.db.lease;
    assert forall w: WorkerId :: At(t, w) == At(s, w);
  }

  /** A step of the worker inside: every other worker is outside before and after, so only its own place matters. */
  lemma MoveKeepsRunning(c: Config, s: Sys, t: Sys, w: WorkerId, pc: Pc)
    requires Inv(c, s) && !At(s, w).Idle? && t.pcs == s.pcs[w := pc]
    requires InHand(pc) ==> pc.job in RunningIds(t.db.jobs)
    requires HolderSet(t.db.lease) <= RunningIds(t.db.jobs) && |RunningIds(t.db.jobs)| <= 2
    requires pc.Recovered? ==> RunningIds(t.db.jobs) <= HolderSet(t.db.lease)
    ensures forall v: WorkerId :: At(t, v) == if v == w then pc else Idle
    ensures RunningInv(t)
  {
    forall v: WorkerId
      ensures At(t, v) == if v == w then pc else Idle
    {
      assert At(s, v).Idle? || s.lock == Some(v);
      assert At(s, w).Idle? || s.lock == Some(w);
    }
  }

  lemma RecoverKeepsRunning(c: Config, s: Sys, e: Event)
    requires Inv(c, s) && e.Recover? && At(s, e.w).Locked?
    ensures RunningInv(Step(c, s, e))
  {
    var t := Step(c, s, e);
    RecoverRunning(s.db, e.now, c.maxRetries);
    SubsetSize(RunningIds(t.db.jobs), RunningIds(s.db.jobs));
    MoveKeepsRunning(c, s, t, e.w, Recovered);
  }

  lemma ClaimKeepsRunning(c: Config, s: Sys, e: Event)
    requires Inv(c, s) && e.Claim? && At(s, e.w).Recovered? && CanClaim(s.db, e.now)
    ensures RunningInv(Step(c, s, e))
  {
    var t := Step(c, s, e);
    var i := Head(s.db.jobs);
    SubsetSize(RunningIds(s.db.jobs), HolderSet(s.db.lease));
    ClaimRunning(s.db, e.now, c.leaseSeconds);
    assert t.db == JobTable.Claim(s.db, e.now, c.leaseSeconds) && HolderSet(t.db.lease) == {i};
    MoveKeepsRunning(c, s, t, e.w, Executing(i));
  }

  lemma EmptyClaimKeepsRunning(c: Config, s: Sys, e: Event)
    requires Inv(c, s) && e.Claim? && At(s, e.w).Recovered? && !CanClaim(s.db, e.now)
    ensures RunningInv(Step(c, s, e))
  {
    var t := Step(c, s, e);
    assert t.db.jobs == s.db.jobs && HolderSet(t.db.lease) <= HolderSet(s.db.lease);
    MoveKeepsRunning(c, s, t, e.w, Leaving);
  }

  /** `finish` finds the row RUNNING, closes it and drops its lease. */
  lemma FinishStep(c: Config, s: Sys, e: Event)
    requires Inv(c, s) && e.Finish? && At(s, e.w).Closing?
    ensures At(s, e.w).job in RunningIds(s.db.jobs)
    ensures Step(c, s, e) == Move(s, e.w, Leaving).(db := CloseJob(s.db, e.now, At(s, e.w).job, At(s, e.w).outcome))
  {
    assert InHand(At(s, e.w));
  }

  /** The closed row is RUNNING no more and holds no lease; all else stays. */
  lemma CloseLease(db: Db, now: int, job: JobId, o: Outcome)
    requires job in RunningIds(db.jobs)
    ensures HolderSet(CloseJob(db, now, job, o).lease) == HolderSet(db.lease) - {job}
  {
  }

  lemma FinishKeepsRunning(c: Config, s: Sys, e: Event)
    requires Inv(c, s) && e.Finish? && At(s, e.w).Closing?
    ensures RunningInv(Step(c, s, e))
  {
    var Closing(job, o) := At(s, e.w);
    FinishStep(c, s, e);
    CloseRunning(s.db, e.now, job, o);
    CloseLease(s.db, e.now, job, o);
    var db := CloseJob(s.db, e.now, job, o);
    SubsetSize(RunningIds(db.jobs), RunningIds(s.db.jobs));
    MoveKeepsRunning(c, s, Move(s, e.w, Leaving).(db := db), e.w, Leaving);
  }

  lemma StepKeepsRunning(c: Config, s: Sys, e: Event)
    requires Inv(c, s)
    ensures RunningInv(Step(c, s, e))
  {
    var t := Step(c, s, e);
    if e.Enqueue? {
      EnqueueKeepsRunning(c, s, e);
    } else if e.Recover? && At(s, e.w).Locked? {
      RecoverKeepsRunning(c, s, e);
    } else if e.Claim? && At(s, e.w).Recovered? && CanClaim(s.db, e.now) {
      ClaimKeepsRunning(c, s, e);
    } else if e.Claim? && At(s, e.w).Recovered? {
      EmptyClaimKeepsRunning(c, s, e);
    } else if e.Finish? && At(s, e.w).Closing? {
      FinishKeepsRunning(c, s, e);
    } else {
      assert t.db == s.db;
      assert forall w: WorkerId | w != e.w :: At(t, w) == At(s, w);
      assert InHand(At(t, e.w)) ==> InHand(At(s, e.w)) && At(t, e.w).job == At(s, e.w).job;
      assert At(t, e.w).Recovered? ==> At(s, e.w).Recovered?;
    }
  }

  lemma ClaimKeepsAttempts(c: Config, s: Sys, e: Event)
    requires Inv(c, s) && e.Claim? && At(s, e.w).Recovered? && CanClaim(s.db, e.now)
    ensures AttemptInv(c, Step(c, s, e))
  {
    var t := Step(c, s, e);
    var i := Head(s.db.jobs);
    assert i in QueuedIds(s.db.jobs);
    assert forall j :: Starts(t, j) == Starts(s, j) + (if j == i then 1 else 0);
    assert forall j | j in t.db.jobs :: j in s.db.jobs;
  }

  lemma RecoverKeepsAttempts(c: Config, s: Sys, e: Event)
    requires Inv(c, s) && e.Recover? && At(s, e.w).Locked?
    ensures AttemptInv(c, Step(c, s, e))
  {
    var t := Step(c, s, e);
    var orphans := Orphans(s.db, e.now);
    assert t.db.jobs == InterruptAll(s.db.jobs, orphans, e.now, c.maxRetries);
    forall j | j in t.db.jobs
      ensures Accounted(c, t.db.jobs[j], Starts(t, j))
    {
      assert Accounted(c, s.db.jobs[j], Starts(s, j));
    }
  }

  lemma FinishKeepsAttempts(c: Config, s: Sys, e: Event)
    requires Inv(c, s) && e.Finish? && At(s, e.w).Closing?
    ensures AttemptInv(c, Step(c, s, e))
  {
    FinishStep(c, s, e);
    var t := Step(c, s, e);
    assert t.started == s.started && t.db.jobs.Keys == s.db.jobs.Keys;
    forall j | j in t.db.jobs
      ensures Accounted(c, t.db.jobs[j], Starts(t, j))
    {
      assert Accounted(c, s.db.jobs[j], Starts(s, j));
    }
  }

  lemma EnqueueKeepsAttempts(c: Config, s: Sys, e: Event)
    requires Inv(c, s) && e.Enqueue?
    ensures AttemptInv(c, Step(c, s, e))
  {
  }

  /** The events that change rows already there, in the place where they take effect. */
  ghost predicate Acts(s: Sys, e: Event) {
    || (e.Recover? && At(s, e.w).Locked?)
    || (e.Claim? && At(s, e.w).Recovered? && CanClaim(s.db, e.now))
    || (e.Finish? && At(s, e.w).Closing?)
  }

  lemma QuietStep(c: Config, s: Sys, e: Event)
    requires !e.Enqueue? && !Acts(s, e)
    ensures Step(c, s, e).db.jobs == s.db.jobs && Step(c, s, e).started == s.started
  {
  }

  lemma SameRowsKeepAttempts(c: Config, s: Sys, t: Sys)
    requires AttemptInv(c, s) && t.db.jobs == s.db.jobs && t.started == s.started
    ensures AttemptInv(c, t)
  {
    assert forall j :: Starts(t, j) == Starts(s, j);
  }

  lemma StepKeepsAttempts(c: Config, s: Sys, e: Event)
    requires Inv(c, s)
    ensures AttemptInv(c, Step(c, s, e))
  {
    if e.Enqueue? {
      EnqueueKeepsAttempts(c, s, e);
    } else if !Acts(s, e) {
      QuietStep(c, s, e);
      SameRowsKeepAttempts(c, s, Step(c, s, e));
    } else if e.Recover? {
      RecoverKeepsAttempts(c, s, e);
    } else if e.Claim? {
      ClaimKeepsAttempts(c, s, e);
    } else {
      FinishKeepsAttempts(c, s, e);
    }
  }

  /** Transactions on the rows there are change no request. */
  ghost predicate SameRequests(a: map<JobId, Job>, b: map<JobId, Job>) {
    a.Keys == b.Keys && forall j | j in a :: SameRequest(a[j], b[j])
  }

  lemma SameRequestsKeepKeys(a: map<JobId, Job>, b: map<JobId, Job>)
    requires UniqueKeys(a) && SameRequests(a, b)
    ensures UniqueKeys(b)
  {
    forall i, j | i in b && j in b && b[i].key == b[j].key
      ensures i == j
    {
      assert SameRequest(a[i], b[i]) && SameRequest(a[j], b[j]);
    }
  }

  lemma ClaimSameRequests(db: Db, now: int, leaseSeconds: int)
    ensures SameRequests(db.jobs, JobTable.Claim(db, now, leaseSeconds).jobs)
  {
    if CanClaim(db, now) {
      assert Head(db.jobs) in QueuedIds(db.jobs);
    }
  }

  lemma RecoverSameRequests(db: Db, now: int, maxRetries: nat)
    ensures SameRequests(db.jobs, JobTable.Recover(db, now, maxRetries).jobs)
  {
  }

  lemma FinishSameRequests(db: Db, now: int, job: JobId, o: Outcome)
    ensures SameRequests(db.jobs, CloseJob(db, now, job, o).jobs)
  {
  }

  lemma EnqueueKeepsKeys(db: Db, now: int, jobType: JobType, requestedBy: string, key: string, id: JobId)
    requires UniqueKeys(db.jobs)
    ensures UniqueKeys(JobTable.Enqueue(db, now, jobType, requestedBy, key, id).jobs)
  {
    if !HasKey(db.jobs, key) {
      assert forall j | j in db.jobs :: db.jobs[j].key != key;
    }
  }

  /** Every step but an enqueue leaves the requests as they are. */
  lemma StepSameRequests(c: Config, s: Sys, e: Event)
    requires !e.Enqueue?
    ensures SameRequests(s.db.jobs, Step(c, s, e).db.jobs)
  {
    if e.Claim? {
      ClaimSameRequests(s.db, e.now, c.leaseSeconds);
    } else if e.Recover? {
      RecoverSameRequests(s.db, e.now, c.maxRetries);
    } else if e.Finish? && At(s, e.w).Closing? {
      FinishSameRequests(s.db, e.now, At(s, e.w).job, At(s, e.w).outcome);
    }
  }

  lemma StepKeepsKeys(c: Config, s: Sys, e: Event)
    requires Inv(c, s)
    ensures UniqueKeys(Step(c, s, e).db.jobs)
  {
    if e.Enqueue? {
      EnqueueKeepsKeys(s.db, e.now, e.jobType, e.requestedBy, e.key, e.id);
    } else {
      StepSameRequests(c, s, e);
      SameRequestsKeepKeys(s.db.jobs, Step(c, s, e).db.jobs);
    }
  }

  lemma StepKeepsInv(c: Config, s: Sys, e: Event)
    requires Inv(c, s)
    ensures Inv(c, Step(c, s, e))
  {
    StepKeepsLock(c, s, e);
    StepKeepsRunning(c, s, e);
    StepKeepsKeys(c, s, e);
    StepKeepsAttempts(c, s, e);
  }

  lemma {:induction false} RunKeepsInv(c: Config, s: Sys, es: seq<Event>)
    requires Inv(c, s)
    ensures Inv(c, Run(c, s, es))
    decreases |es|
  {
    if es != [] {
      StepKeepsInv(c, s, es[0]);
      RunKeepsInv(c, Step(c, s, es[0]), es[1..]);
    }
  }

  lemma InitInv(c: Config)
    ensures Inv(c, INIT)
  {
  }
}
