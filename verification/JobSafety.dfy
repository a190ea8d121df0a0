/** What every run of the job system keeps, from the empty tables on. */
module JobSafety {
  import opened Common
  import opened JobTable
  import opened JobSystem

  lemma ReachableInv(c: Config, es: seq<Event>)
    ensures Inv(c, Run(c, INIT, es))
  {
    InitInv(c);
    RunKeepsInv(c, INIT, es);
  }

  // ----- interleaving safety -----

  /** In every interleaving, crash and lease expiry included, at most one job is in hand. */
  lemma OneExecutor(c: Config, es: seq<Event>, v: WorkerId, w: WorkerId)
    ensures var s := Run(c, INIT, es); InHand(At(s, v)) && InHand(At(s, w)) ==> v == w
  {
    ReachableInv(c, es);
  }

  /** `finish` never raises "job is not running": whenever a worker is about to close its job, the row is RUNNING. */
  lemma FinishNeverRaises(c: Config, es: seq<Event>, w: WorkerId)
    ensures var s := Run(c, INIT, es);
            !At(s, w).Raised?
            && (At(s, w).Closing? ==> FinishOutcome(s.db, At(s, w).job, FinalStatus(At(s, w).outcome)) == Done)
  {
    ReachableInv(c, es);
    var s := Run(c, INIT, es);
    if At(s, w).Closing? {
      assert InHand(At(s, w));
    }
  }

  predicate EndsHold(e: Event, w: WorkerId) {
    e == Crash(w) || (e.Finish? && e.w == w)
  }

  lemma LiveJobStep(c: Config, s: Sys, e: Event, w: WorkerId)
    requires Inv(c, s) && InHand(At(s, w)) && !EndsHold(e, w)
    ensures var t := Step(c, s, e); var j := At(s, w).job;
            InHand(At(t, w)) && At(t, w).job == j && j in t.db.jobs && t.db.jobs[j] == s.db.jobs[j]
  {
    assert At(s, w).job in RunningIds(s.db.jobs);
    match e {
      case Enqueue(_, _, _, _, _) =>
      case _ =>
        assert e.w != w ==> At(s, e.w).Idle?;
    }
  }

  /**
   A job with a live executor stays RUNNING and its row stays untouched through any events of anyone,
   recoveries after its lease has expired included, until its own worker closes it or dies.
   */
  lemma {:induction false} LiveJobUntouched(c: Config, s: Sys, fs: seq<Event>, w: WorkerId)
    requires Inv(c, s) && InHand(At(s, w))
    requires forall e | e in fs :: !EndsHold(e, w)
    ensures var t := Run(c, s, fs); var j := At(s, w).job;
            InHand(At(t, w)) && At(t, w).job == j && j in RunningIds(t.db.jobs) && t.db.jobs[j] == s.db.jobs[j]
    decreases |fs|
  {
    if fs != [] {
      LiveJobStep(c, s, fs[0], w);
      StepKeepsInv(c, s, fs[0]);
      LiveJobUntouched(c, Step(c, s, fs[0]), fs[1..], w);
    }
  }

  // ----- lock and lease together -----

  /** A lease holder is a RUNNING job; there are at most two RUNNING jobs. */
  lemma RunningJobs(c: Config, es: seq<Event>)
    ensures var db := Run(c, INIT, es).db; HolderSet(db.lease) <= RunningIds(db.jobs) && |RunningIds(db.jobs)| <= 2
  {
    ReachableInv(c, es);
  }

  /** Recovery leaves exactly the unexpired lease's holder RUNNING. */
  lemma AfterRecovery(c: Config, es: seq<Event>, w: WorkerId, now: int)
    requires At(Run(c, INIT, es), w).Locked?
    ensures var db := Run(c, INIT, es).db; var t := Step(c, Run(c, INIT, es), Event.Recover(w, now));
            RunningIds(t.db.jobs) == HolderSet(Purge(db.lease, now)) == HolderSet(t.db.lease)
  {
    ReachableInv(c, es);
    RecoverRunning(Run(c, INIT, es).db, now, c.maxRetries);
  }

  /**
   A claim leaves one RUNNING job, or two exactly when a lease that recovery had respected ran out before the claim.
   */
  lemma AfterClaim(c: Config, es: seq<Event>, w: WorkerId, now: int)
    requires At(Run(c, INIT, es), w).Recovered? && CanClaim(Run(c, INIT, es).db, now)
    ensures var db := Run(c, INIT, es).db; var t := Step(c, Run(c, INIT, es), Event.Claim(w, now));
            |RunningIds(t.db.jobs)| == (if db.lease.Some? then 2 else 1)
            && (db.lease.Some? ==> db.lease.value.expiresAt <= now)
  {
    ReachableInv(c, es);
    var s := Run(c, INIT, es);
    ClaimRunning(s.db, now, c.leaseSeconds);
    assert RunningIds(s.db.jobs) == HolderSet(s.db.lease);
    if s.db.lease.Some? {
      assert Head(s.db.jobs) != s.db.lease.value.holder;
      assert RunningIds(s.db.jobs) + {Head(s.db.jobs)} == {s.db.lease.value.holder, Head(s.db.jobs)};
    }
  }

  lemma OneMoreStep(c: Config, es: seq<Event>, e: Event)
    ensures Run(c, INIT, es + [e]) == Step(c, Run(c, INIT, es), e)
  {
    RunSplit(c, INIT, es, [e]);
    assert [e][1..] == [];
  }

  lemma TwoQueued(c: Config) returns (es: seq<Event>, i: JobId, j: JobId)
    ensures var s := Run(c, INIT, es);
            i != j && QueuedIds(s.db.jobs) == {i, j} && RunningIds(s.db.jobs) == {} && s.db.lease.None?
                && s.lock.None? && s.pcs == map[]
  {
    var e1, e2 := Event.Enqueue(0, Daily, "u", "a", "a"), Event.Enqueue(0, Daily, "u", "b", "b");
    OneMoreStep(c, [], e1);
    OneMoreStep(c, [e1], e2);
    assert Run(c, INIT, [e1]).db.jobs == map["a" := NewJob(0, Daily, "u", "a")];
    es, i, j := [e1] + [e2], "a", "b";
    assert Run(c, INIT, es).db.jobs == map["a" := NewJob(0, Daily, "u", "a"), "b" := NewJob(0, Daily, "u", "b")];
  }

  /** Where worker 0 stands when it has recovered, claimed and died, all at time 0. */
  ghost function Died(c: Config, s: Sys): Sys {
    Step(c, Step(c, Step(c, Step(c, s, TryLock(0)), Event.Recover(0, 0)), Event.Claim(0, 0)), Crash(0))
  }

  lemma QuietRecovery(c: Config, s: Sys)
    requires RunningIds(s.db.jobs) == {} && s.db.lease.None? && s.lock.None? && s.pcs == map[]
    ensures var t := Step(c, Step(c, s, TryLock(0)), Event.Recover(0, 0));
            t == Sys(s.db, Some(0), map[0 := Recovered], s.started)
  {
    assert Orphans(s.db, 0) == {};
    assert InterruptAll(s.db.jobs, {}, 0, c.maxRetries) == s.db.jobs;
  }

  lemma DiesHoldingLease(c: Config, s: Sys, i: JobId, j: JobId)
    requires i != j && QueuedIds(s.db.jobs) == {i, j} && RunningIds(s.db.jobs) == {} && s.db.lease.None?
            && s.lock.None? && s.pcs == map[]
    ensures var t := Died(c, s); var id := Head(s.db.jobs);
            t.lock.None? && At(t, 1).Idle? && QueuedIds(t.db.jobs) != {}
            && t.db.lease == Some(Lease(id, 0, c.leaseSeconds * MICROS_PER_SECOND)) && id in RunningIds(t.db.jobs)
  {
    QuietRecovery(c, s);
    var u := Step(c, Step(c, s, TryLock(0)), Event.Recover(0, 0));
    var t := Step(c, u, Event.Claim(0, 0));
    var id := Head(s.db.jobs);
    assert t.db == Db(s.db.jobs[id := Start(s.db.jobs[id], 0)], Some(Lease(id, 0, c.leaseSeconds * MICROS_PER_SECOND)));
    assert (if id == i then j else i) in QueuedIds(t.db.jobs);
  }

  /** A worker that has just claimed one of two queued jobs dies. */
  lemma DiesAfterClaim(c: Config) returns (es: seq<Event>, id: JobId)
    ensures var s := Run(c, INIT, es);
            s.lock.None? && At(s, 1).Idle? && QueuedIds(s.db.jobs) != {}
            && s.db.lease == Some(Lease(id, 0, c.leaseSeconds * MICROS_PER_SECOND)) && id in RunningIds(s.db.jobs)
  {
    var before, i, j := TwoQueued(c);
    var e1, e2 := Event.Recover(0, 0), Event.Claim(0, 0);
    OneMoreStep(c, before, TryLock(0));
    OneMoreStep(c, before + [TryLock(0)], e1);
    OneMoreStep(c, before + [TryLock(0)] + [e1], e2);
    OneMoreStep(c, before + [TryLock(0)] + [e1] + [e2], Crash(0));
    es, id := before + [TryLock(0)] + [e1] + [e2] + [Crash(0)], Head(Run(c, INIT, before).db.jobs);
    assert Run(c, INIT, es) == Died(c, Run(c, INIT, before));
    DiesHoldingLease(c, Run(c, INIT, before), i, j);
  }

  /**
   The bound of two is reached: the next worker respects the dead one's lease, which then runs out before its claim.
   */
  lemma TwoRunningReachable(c: Config)
    requires c.leaseSeconds > 0
    ensures exists es :: |RunningIds(Run(c, INIT, es).db.jobs)| == 2
  {
    var es, id := DiesAfterClaim(c);
    var expiry := c.leaseSeconds * MICROS_PER_SECOND;
    var e1, e2 := Event.Recover(1, 0), Event.Claim(1, expiry);
    OneMoreStep(c, es, TryLock(1));
    OneMoreStep(c, es + [TryLock(1)], e1);
    OneMoreStep(c, es + [TryLock(1)] + [e1], e2);
    var s := Run(c, INIT, es + [TryLock(1)] + [e1]);
    var waiting :| waiting in QueuedIds(Run(c, INIT, es).db.jobs);
    assert waiting in QueuedIds(s.db.jobs) && CanClaim(s.db, expiry);
    AfterClaim(c, es + [TryLock(1)] + [e1], 1, expiry);
    assert |RunningIds(Run(c, INIT, es + [TryLock(1)] + [e1] + [e2]).db.jobs)| == 2;
  }

  // ----- rows over a run -----

  /** How one row may have changed: the request never, the retry count upwards only, a finished row not at all. */
  predicate Evolves(a: Job, b: Job) {
    SameRequest(a, b) && a.retries <= b.retries && (Terminal(a.status) ==> a == b)
  }

  ghost predicate TableEvolves(a: map<JobId, Job>, b: map<JobId, Job>) {
    forall j | j in a :: j in b && Evolves(a[j], b[j])
  }

  lemma StepEvolves(c: Config, s: Sys, e: Event)
    ensures TableEvolves(s.db.jobs, Step(c, s, e).db.jobs)
  {
    var t := Step(c, s, e);
    if e.Claim? && At(s, e.w).Recovered? && CanClaim(s.db, e.now) {
      assert Head(s.db.jobs) in QueuedIds(s.db.jobs);
    } else if e.Recover? && At(s, e.w).Locked? {
      assert t.db.jobs == InterruptAll(s.db.jobs, Orphans(s.db, e.now), e.now, c.maxRetries);
    }
  }

  lemma {:induction false} RunEvolves(c: Config, s: Sys, es: seq<Event>)
    ensures TableEvolves(s.db.jobs, Run(c, s, es).db.jobs)
    decreases |es|
  {
    if es != [] {
      StepEvolves(c, s, es[0]);
      RunEvolves(c, Step(c, s, es[0]), es[1..]);
    }
  }

  /**
   What a row's other columns say goes with its status, and its last update was the move to that status; no run cancels
   a job, and one never requeued was queued when it was created.
   */
  predicate Shaped(c: Config, job: Job) {
    (job.retries == 0 ==> job.queuedAt == job.createdAt) &&
    match job.status
    case Queued =>
      job.startedAt.None? && job.finishedAt.None? && job.failure.None? && job.message.None?
      && job.updatedAt == job.queuedAt
    case Running =>
      job.startedAt == Some(job.updatedAt) && job.finishedAt.None? && job.failure.None? && job.message.None?
    case Succeeded =>
      job.startedAt.Some? && job.finishedAt == Some(job.updatedAt) && job.failure.None? && job.message.None?
    case Failed =>
      job.startedAt.Some? && job.finishedAt == Some(job.updatedAt) && job.failure.Some? && job.message.Some?
      && (job.message == Some(StoppedBeforeCompletion) ==>
            job.failure == Some(Interrupted) && job.retries >= c.maxRetries)
    case Cancelled => false
  }

  ghost predicate TableShaped(c: Config, jobs: map<JobId, Job>) {
    forall j | j in jobs :: Shaped(c, jobs[j])
  }

  lemma ClaimKeepsShape(c: Config, db: Db, now: int)
    requires TableShaped(c, db.jobs)
    ensures TableShaped(c, JobTable.Claim(db, now, c.leaseSeconds).jobs)
  {
    if CanClaim(db, now) {
      assert Head(db.jobs) in QueuedIds(db.jobs);
    }
  }

  lemma RecoverKeepsShape(c: Config, db: Db, now: int)
    requires TableShaped(c, db.jobs)
    ensures TableShaped(c, JobTable.Recover(db, now, c.maxRetries).jobs)
  {
    var after := JobTable.Recover(db, now, c.maxRetries).jobs;
    forall j | j in after
      ensures Shaped(c, after[j])
    {
      assert Shaped(c, db.jobs[j]);
    }
  }

  lemma CloseKeepsShape(c: Config, db: Db, now: int, i: JobId, o: Outcome)
    requires TableShaped(c, db.jobs)
    ensures TableShaped(c, CloseJob(db, now, i, o).jobs)
  {
    if i in RunningIds(db.jobs) {
      assert Shaped(c, db.jobs[i]);
    }
  }

  lemma StepKeepsShape(c: Config, s: Sys, e: Event)
    requires TableShaped(c, s.db.jobs)
    ensures TableShaped(c, Step(c, s, e).db.jobs)
  {
    if e.Claim? {
      ClaimKeepsShape(c, s.db, e.now);
    } else if e.Recover? {
      RecoverKeepsShape(c, s.db, e.now);
    } else if e.Finish? && At(s, e.w).Closing? {
      CloseKeepsShape(c, s.db, e.now, At(s, e.w).job, At(s, e.w).outcome);
    }
  }

  lemma {:induction false} RunKeepsShape(c: Config, s: Sys, es: seq<Event>)
    requires TableShaped(c, s.db.jobs)
    ensures TableShaped(c, Run(c, s, es).db.jobs)
    decreases |es|
  {
    if es != [] {
      StepKeepsShape(c, s, es[0]);
      RunKeepsShape(c, Step(c, s, es[0]), es[1..]);
    }
  }

  /**
   Every reachable row: a queued or running one carries no trace of an earlier attempt's failure, a failed one
   always says why, and it says "stopped before completion" only when all its retries are used up.
   */
  lemma RowsAreShaped(c: Config, es: seq<Event>)
    ensures var jobs := Run(c, INIT, es).db.jobs;
            TableShaped(c, jobs)
            && forall j | j in jobs && jobs[j].message == Some(StoppedBeforeCompletion) ::
                  jobs[j].retries == c.maxRetries
  {
    RunKeepsShape(c, INIT, es);
    ReachableInv(c, es);
    var s := Run(c, INIT, es);
    forall j | j in s.db.jobs && s.db.jobs[j].message == Some(StoppedBeforeCompletion)
      ensures s.db.jobs[j].retries == c.maxRetries
    {
      assert Shaped(c, s.db.jobs[j]) && Accounted(c, s.db.jobs[j], Starts(s, j));
    }
  }

  /** The lease dates from the attempt its holder is making. */
  ghost predicate LeaseDated(c: Config, db: Db) {
    db.lease.Some? ==>
      var l := db.lease.value;
      l.holder in db.jobs && db.jobs[l.holder].startedAt == Some(l.acquiredAt)
      && l.expiresAt == l.acquiredAt + c.leaseSeconds * 1_000_000
  }

  lemma StepKeepsLeaseDated(c: Config, s: Sys, e: Event)
    requires Inv(c, s) && LeaseDated(c, s.db)
    ensures LeaseDated(c, Step(c, s, e).db)
  {
    if e.Finish? && At(s, e.w).Closing? {
      FinishStep(c, s, e);
    } else if e.Recover? && At(s, e.w).Locked? {
      assert Step(c, s, e).db == JobTable.Recover(s.db, e.now, c.maxRetries);
    } else if e.Claim? && At(s, e.w).Recovered? {
      assert Step(c, s, e).db == JobTable.Claim(s.db, e.now, c.leaseSeconds);
    }
  }

  lemma {:induction false} RunKeepsLeaseDated(c: Config, s: Sys, es: seq<Event>)
    requires Inv(c, s) && LeaseDated(c, s.db)
    ensures LeaseDated(c, Run(c, s, es).db)
    decreases |es|
  {
    if es != [] {
      StepKeepsLeaseDated(c, s, es[0]);
      StepKeepsInv(c, s, es[0]);
      RunKeepsLeaseDated(c, Step(c, s, es[0]), es[1..]);
    }
  }

  /** In every reachable state the lease was taken when its holder's present attempt started, and runs from then. */
  lemma LeasesAreDated(c: Config, es: seq<Event>)
    ensures LeaseDated(c, Run(c, INIT, es).db)
  {
    InitInv(c);
    RunKeepsLeaseDated(c, INIT, es);
  }

  /** An accepted idempotency key names one unchanging request for good, executed at most `maxRetries` + 1 times. */
  lemma AcceptedKey(c: Config, es: seq<Event>, fs: seq<Event>, i: JobId)
    requires i in Run(c, INIT, es).db.jobs
    ensures var a := Run(c, INIT, es).db.jobs; var t := Run(c, INIT, es + fs);
            i in t.db.jobs && Evolves(a[i], t.db.jobs[i])
            && (forall j | j in t.db.jobs && t.db.jobs[j].key == a[i].key :: j == i)
            && t.db.jobs[i].retries <= c.maxRetries
            && Starts(t, i) == t.db.jobs[i].retries + (if t.db.jobs[i].status.Queued? then 0 else 1)
            && Starts(t, i) <= c.maxRetries + 1
  {
    RunSplit(c, INIT, es, fs);
    RunEvolves(c, Run(c, INIT, es), fs);
    ReachableInv(c, es + fs);
    var t := Run(c, INIT, es + fs);
    assert Accounted(c, t.db.jobs[i], Starts(t, i));
  }

  /** Whatever happens in between, repeating a request replays its job and changing it is a conflict. */
  lemma ReplayForever(c: Config, es: seq<Event>, fs: seq<Event>, i: JobId, jobType: JobType, requestedBy: string,
      newId: JobId, r: Enqueued)
    requires i in Run(c, INIT, es).db.jobs
    requires EnqueueOutcome(Run(c, INIT, es + fs).db, jobType, requestedBy, Run(c, INIT, es).db.jobs[i].key, newId, r)
    ensures var a := Run(c, INIT, es).db.jobs[i];
            r == if jobType == a.jobType && requestedBy == a.requestedBy then Replayed(i) else Conflict
  {
    AcceptedKey(c, es, fs, i);
    assert HasKey(Run(c, INIT, es + fs).db.jobs, Run(c, INIT, es).db.jobs[i].key);
  }

  /**
   A request accepted at any moment of any run is answered for good: whatever happens afterwards, the same request is
   a replay of it and any other under its key a conflict.
   */
  lemma AcceptedForGood(c: Config, es: seq<Event>, e: Event, fs: seq<Event>, laterType: JobType, laterBy: string,
                        newId: JobId, r: Enqueued)
    requires e.Enqueue? && !HasKey(Run(c, INIT, es).db.jobs, e.key) && e.id !in Run(c, INIT, es).db.jobs
    requires EnqueueOutcome(Run(c, INIT, (es + [e]) + fs).db, laterType, laterBy, e.key, newId, r)
    ensures r == if laterType == e.jobType && laterBy == e.requestedBy then Replayed(e.id) else Conflict
  {
    OneMoreStep(c, es, e);
    AcceptedAsMade(Run(c, INIT, es).db, e.now, e.jobType, e.requestedBy, e.key, e.id);
    ReplayForever(c, es + [e], fs, e.id, laterType, laterBy, newId, r);
  }
}
