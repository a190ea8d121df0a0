/** Termination: how many status moves a run can hold, and why the queue drains despite crashes. */
module JobProgress {
  import opened JobTable
  import opened JobSystem

  function Weight(c: Config, job: Job): nat {
    if job.retries > c.maxRetries then 0
    else if job.status.Queued? then 2 * (c.maxRetries - job.retries) + 2
    else if job.status.Running? then 2 * (c.maxRetries - job.retries) + 1
    else 0
  }

  ghost function Total(c: Config, jobs: map<JobId, Job>): nat {
    if jobs == map[] then 0
    else
      var i :| i in jobs;
      Weight(c, jobs[i]) + Total(c, jobs - {i})
  }

  /** The sum may be taken in any order. */
  lemma {:induction false} TotalAt(c: Config, jobs: map<JobId, Job>, i: JobId)
    requires i in jobs
    ensures Total(c, jobs) == Weight(c, jobs[i]) + Total(c, jobs - {i})
    decreases |jobs|
  {
    var k :| k in jobs && Total(c, jobs) == Weight(c, jobs[k]) + Total(c, jobs - {k});
    if k != i {
      TotalAt(c, jobs - {k}, i);
      TotalAt(c, jobs - {i}, k);
      assert jobs - {k} - {i} == jobs - {i} - {k};
    }
  }

  lemma TotalUpdate(c: Config, jobs: map<JobId, Job>, i: JobId, job: Job)
    ensures Total(c, jobs[i := job]) == Total(c, jobs) + Weight(c, job) - (if i in jobs then Weight(c, jobs[i]) else 0)
  {
    TotalAt(c, jobs[i := job], i);
    if i in jobs {
      TotalAt(c, jobs, i);
      assert jobs[i := job] - {i} == jobs - {i};
    } else {
      assert jobs[i := job] - {i} == jobs;
    }
  }

  /** The rows whose status a transaction moved. */
  function Moved(a: map<JobId, Job>, b: map<JobId, Job>): set<JobId> {
    set i | i in a && i in b && b[i].status != a[i].status
  }

  lemma {:induction false} InterruptLowers(c: Config, jobs: map<JobId, Job>, ids: set<JobId>, now: int)
    requires ids <= RunningIds(jobs)
    requires forall i | i in jobs :: jobs[i].retries <= c.maxRetries
    ensures Total(c, InterruptAll(jobs, ids, now, c.maxRetries)) + |ids| == Total(c, jobs)
    decreases |ids|
  {
    if ids == {} {
      assert InterruptAll(jobs, ids, now, c.maxRetries) == jobs;
    } else {
      var i :| i in ids;
      InterruptLowers(c, jobs, ids - {i}, now);
      var rest := InterruptAll(jobs, ids - {i}, now, c.maxRetries);
      assert InterruptAll(jobs, ids, now, c.maxRetries) == rest[i := Interrupt(jobs[i], now, c.maxRetries)];
      TotalUpdate(c, rest, i, Interrupt(jobs[i], now, c.maxRetries));
    }
  }

  lemma RowsWithinLimit(c: Config, s: Sys)
    requires Inv(c, s)
    ensures forall i | i in s.db.jobs :: s.db.jobs[i].retries <= c.maxRetries
  {
    assert forall i | i in s.db.jobs :: Accounted(c, s.db.jobs[i], Starts(s, i));
  }

  lemma RecoverLowers(c: Config, db: Db, now: int)
    requires forall i | i in db.jobs :: db.jobs[i].retries <= c.maxRetries
    ensures var after := JobTable.Recover(db, now, c.maxRetries).jobs;
            Moved(db.jobs, after) == Orphans(db, now) && Total(c, after) + |Orphans(db, now)| == Total(c, db.jobs)
            && after.Keys == db.jobs.Keys
  {
    var after := JobTable.Recover(db, now, c.maxRetries).jobs;
    assert after == InterruptAll(db.jobs, Orphans(db, now), now, c.maxRetries);
    forall i | i in db.jobs
      ensures after[i].status != db.jobs[i].status <==> i in Orphans(db, now)
    {
    }
    InterruptLowers(c, db.jobs, Orphans(db, now), now);
  }

  lemma ClaimLowers(c: Config, db: Db, now: int)
    requires CanClaim(db, now) && forall i | i in db.jobs :: db.jobs[i].retries <= c.maxRetries
    ensures var after := JobTable.Claim(db, now, c.leaseSeconds).jobs;
            Moved(db.jobs, after) == {Head(db.jobs)} && Total(c, after) + 1 == Total(c, db.jobs)
            && after.Keys == db.jobs.Keys
  {
    var i := Head(db.jobs);
    assert i in QueuedIds(db.jobs);
    TotalUpdate(c, db.jobs, i, Start(db.jobs[i], now));
  }

  lemma RecoverMoves(c: Config, s: Sys, w: WorkerId, now: int)
    requires Inv(c, s) && At(s, w).Locked?
    ensures var t := Step(c, s, Event.Recover(w, now));
            Moved(s.db.jobs, t.db.jobs) == Orphans(s.db, now)
            && Total(c, t.db.jobs) + |Orphans(s.db, now)| == Total(c, s.db.jobs)
            && t.db.jobs.Keys == s.db.jobs.Keys
  {
    assert Step(c, s, Event.Recover(w, now)).db == JobTable.Recover(s.db, now, c.maxRetries);
    RowsWithinLimit(c, s);
    RecoverLowers(c, s.db, now);
  }

  lemma ClaimMoves(c: Config, s: Sys, w: WorkerId, now: int)
    requires Inv(c, s) && At(s, w).Recovered? && CanClaim(s.db, now)
    ensures var t := Step(c, s, Event.Claim(w, now));
            Moved(s.db.jobs, t.db.jobs) == {Head(s.db.jobs)}
            && Total(c, t.db.jobs) + 1 == Total(c, s.db.jobs)
            && t.db.jobs.Keys == s.db.jobs.Keys
  {
    assert Step(c, s, Event.Claim(w, now)).db == JobTable.Claim(s.db, now, c.leaseSeconds);
    RowsWithinLimit(c, s);
    ClaimLowers(c, s.db, now);
  }

  lemma FinishMoves(c: Config, s: Sys, w: WorkerId, now: int)
    requires Inv(c, s) && At(s, w).Closing?
    ensures var t := Step(c, s, Event.Finish(w, now));
            Moved(s.db.jobs, t.db.jobs) == {At(s, w).job}
            && Total(c, t.db.jobs) + 1 <= Total(c, s.db.jobs)
            && t.db.jobs.Keys == s.db.jobs.Keys
  {
    FinishStep(c, s, Event.Finish(w, now));
    RowsWithinLimit(c, s);
    CloseMoves(c, s.db, now, At(s, w).job, At(s, w).outcome);
  }

  lemma CloseMoves(c: Config, db: Db, now: int, i: JobId, o: Outcome)
    requires i in RunningIds(db.jobs) && db.jobs[i].retries <= c.maxRetries
    ensures var after := CloseJob(db, now, i, o);
            Moved(db.jobs, after.jobs) == {i} && Total(c, after.jobs) + 1 <= Total(c, db.jobs)
                && after.jobs.Keys == db.jobs.Keys
  {
    TotalUpdate(c, db.jobs, i, Close(db.jobs[i], now, FinalStatus(o), FinalCategory(o), FinalMessage(o)));
  }

  /** The total a freshly accepted job brings: two moves for each attempt allowed. */
  function PerJob(c: Config): nat {
    2 * c.maxRetries + 2
  }

  lemma AcceptMoves(c: Config, jobs: map<JobId, Job>, id: JobId, job: Job)
    requires id !in jobs && job.status.Queued? && job.retries == 0
    ensures Total(c, jobs[id := job]) == Total(c, jobs) + PerJob(c)
    ensures Moved(jobs, jobs[id := job]) == {}
    ensures |jobs[id := job]| == |jobs| + 1
  {
    TotalUpdate(c, jobs, id, job);
    assert jobs[id := job].Keys == jobs.Keys + {id};
    assert |jobs[id := job]| == |jobs[id := job].Keys|;
  }

  /** The table either gains one accepted row, or gains none and loses at least one from its total per moved row. */
  ghost predicate Descends(c: Config, a: map<JobId, Job>, b: map<JobId, Job>) {
    (|b| == |a| && Total(c, b) + |Moved(a, b)| <= Total(c, a))
    || (|b| == |a| + 1 && Total(c, b) == Total(c, a) + PerJob(c) && Moved(a, b) == {})
  }

  lemma SameKeysDescend(c: Config, a: map<JobId, Job>, b: map<JobId, Job>)
    requires a.Keys == b.Keys && Total(c, b) + |Moved(a, b)| <= Total(c, a)
    ensures Descends(c, a, b)
  {
    assert |a| == |a.Keys| && |b| == |b.Keys|;
  }

  lemma EnqueueDescends(c: Config, db: Db, e: Event)
    requires e.Enqueue?
    ensures Descends(c, db.jobs, JobTable.Enqueue(db, e.now, e.jobType, e.requestedBy, e.key, e.id).jobs)
  {
    if HasKey(db.jobs, e.key) || e.id in db.jobs {
      assert Moved(db.jobs, db.jobs) == {};
    } else {
      AcceptMoves(c, db.jobs, e.id, NewJob(e.now, e.jobType, e.requestedBy, e.key));
    }
  }

  lemma ActiveStep(c: Config, s: Sys, e: Event)
    requires Inv(c, s) && Acts(s, e)
    ensures var t := Step(c, s, e);
            t.db.jobs.Keys == s.db.jobs.Keys
                && Total(c, t.db.jobs) + |Moved(s.db.jobs, t.db.jobs)| <= Total(c, s.db.jobs)
  {
    if e.Recover? {
      RecoverMoves(c, s, e.w, e.now);
    } else if e.Claim? {
      ClaimMoves(c, s, e.w, e.now);
    } else {
      FinishMoves(c, s, e.w, e.now);
    }
  }

  lemma StepMoves(c: Config, s: Sys, e: Event)
    requires Inv(c, s)
    ensures Descends(c, s.db.jobs, Step(c, s, e).db.jobs)
  {
    if e.Enqueue? {
      EnqueueDescends(c, s.db, e);
    } else if Acts(s, e) {
      ActiveStep(c, s, e);
      SameKeysDescend(c, s.db.jobs, Step(c, s, e).db.jobs);
    } else {
      QuietStep(c, s, e);
      assert Moved(s.db.jobs, s.db.jobs) == {};
    }
  }

  /** All status moves of a run, counted row by row. */
  ghost function Moves(c: Config, s: Sys, es: seq<Event>): nat
    decreases |es|
  {
    if es == [] then 0
    else
      var t := Step(c, s, es[0]);
      |Moved(s.db.jobs, t.db.jobs)| + Moves(c, t, es[1..])
  }

  /** What `n` accepted jobs bring. */
  function Budget(c: Config, n: nat): nat {
    if n == 0 then 0 else PerJob(c) + Budget(c, n - 1)
  }

  lemma {:induction false} BudgetIsProduct(c: Config, n: nat)
    ensures Budget(c, n) == n * (2 * c.maxRetries + 2)
  {
    if n > 0 {
      BudgetIsProduct(c, n - 1);
    }
  }

  /** Total plus moves made never exceeds what was there plus what newly accepted jobs bring. */
  lemma {:induction false} MovesBounded(c: Config, s: Sys, es: seq<Event>)
    requires Inv(c, s)
    ensures var t := Run(c, s, es);
            Total(c, t.db.jobs) + Moves(c, s, es) + Budget(c, |s.db.jobs|)
            <= Total(c, s.db.jobs) + Budget(c, |t.db.jobs|)
    decreases |es|
  {
    if es != [] {
      StepMoves(c, s, es[0]);
      StepKeepsInv(c, s, es[0]);
      MovesBounded(c, Step(c, s, es[0]), es[1..]);
    }
  }

  /** Over any run from the start, n accepted jobs make at most n(2M + 2) status moves in all. */
  lemma MovesPerJob(c: Config, es: seq<Event>)
    ensures var n := |Run(c, INIT, es).db.jobs|; Moves(c, INIT, es) <= n * (2 * c.maxRetries + 2)
  {
    InitInv(c);
    MovesBounded(c, INIT, es);
    BudgetIsProduct(c, |Run(c, INIT, es).db.jobs|);
  }

  // ----- draining -----

  ghost predicate Drained(jobs: map<JobId, Job>) {
    forall i | i in jobs :: Terminal(jobs[i].status)
  }

  lemma DrainedIffZero(c: Config, s: Sys)
    requires Inv(c, s)
    ensures Drained(s.db.jobs) <==> Total(c, s.db.jobs) == 0
  {
    RowsWithinLimit(c, s);
    if Drained(s.db.jobs) {
      TotalOfFinished(c, s.db.jobs);
    } else {
      var i :| i in s.db.jobs && !Terminal(s.db.jobs[i].status);
      TotalAt(c, s.db.jobs, i);
    }
  }

  lemma {:induction false} TotalOfFinished(c: Config, jobs: map<JobId, Job>)
    requires Drained(jobs)
    ensures Total(c, jobs) == 0
    decreases |jobs|
  {
    if jobs != map[] {
      var i :| i in jobs;
      TotalAt(c, jobs, i);
      TotalOfFinished(c, jobs - {i});
    }
  }

  /** Recovery at `t1` and claim at `t2` by the lock holder, as in `run_once`. */
  ghost function Round(c: Config, s: Sys, w: WorkerId, t1: int, t2: int): Sys {
    Step(c, Step(c, s, Event.Recover(w, t1)), Event.Claim(w, t2))
  }

  lemma RoundClaims(c: Config, s: Sys, w: WorkerId, t1: int, t2: int)
    requires Inv(c, s) && At(s, w).Locked?
    ensures var r := JobTable.Recover(s.db, t1, c.maxRetries);
            Total(c, Round(c, s, w, t1, t2).db.jobs) + (if CanClaim(r, t2) then 1 else 0) == Total(c, r.jobs)
  {
    var e := Event.Recover(w, t1);
    var r := Step(c, s, e);
    StepKeepsInv(c, s, e);
    assert r.db == JobTable.Recover(s.db, t1, c.maxRetries) && At(r, w).Recovered?;
    if CanClaim(r.db, t2) {
      ClaimMoves(c, r, w, t2);
    } else {
      QuietStep(c, r, Event.Claim(w, t2));
    }
  }

  /** Without orphans recovery changes no row. */
  lemma NoOrphansNoChange(db: Db, now: int, maxRetries: nat)
    requires Orphans(db, now) == {}
    ensures JobTable.Recover(db, now, maxRetries) == Db(db.jobs, Purge(db.lease, now))
  {
  }

  /** The exact condition under which recovery followed by claim makes progress. */
  lemma RoundProgress(c: Config, s: Sys, w: WorkerId, t1: int, t2: int)
    requires Inv(c, s) && At(s, w).Locked?
    ensures Total(c, Round(c, s, w, t1, t2).db.jobs) <= Total(c, s.db.jobs)
    ensures Total(c, Round(c, s, w, t1, t2).db.jobs) < Total(c, s.db.jobs)
       <==> Orphans(s.db, t1) != {} || (QueuedIds(s.db.jobs) != {} && Purge(Purge(s.db.lease, t1), t2).None?)
  {
    RowsWithinLimit(c, s);
    RecoverLowers(c, s.db, t1);
    RoundClaims(c, s, w, t1, t2);
    if Orphans(s.db, t1) == {} {
      NoOrphansNoChange(s.db, t1, c.maxRetries);
    }
  }

  /** A round that finds no unexpired lease at recovery lowers the total, unless every job is finished. */
  lemma UnleasedRound(c: Config, s: Sys, w: WorkerId, t1: int, t2: int)
    requires Inv(c, s) && At(s, w).Locked? && Purge(s.db.lease, t1).None? && !Drained(s.db.jobs)
    ensures Total(c, Round(c, s, w, t1, t2).db.jobs) < Total(c, s.db.jobs)
  {
    RoundProgress(c, s, w, t1, t2);
    var i :| i in s.db.jobs && !Terminal(s.db.jobs[i].status);
    if s.db.jobs[i].status.Running? {
      assert i in Orphans(s.db, t1);
    } else {
      assert i in QueuedIds(s.db.jobs);
    }
  }

  /** Any events that accept no request, crashes included, then a round of `run_once` by `w`. */
  datatype Span = Span(before: seq<Event>, w: WorkerId, t1: int, t2: int)

  ghost function After(c: Config, s: Sys, x: Span): Sys {
    Round(c, Run(c, s, x.before), x.w, x.t1, x.t2)
  }

  ghost predicate Unleased(c: Config, s: Sys, x: Span) {
    var u := Run(c, s, x.before);
    u.db.jobs.Keys == s.db.jobs.Keys && At(u, x.w).Locked? && Purge(u.db.lease, x.t1).None?
  }

  ghost predicate UnleasedSpans(c: Config, s: Sys, xs: seq<Span>)
    decreases |xs|
  {
    xs == [] || (Unleased(c, s, xs[0]) && UnleasedSpans(c, After(c, s, xs[0]), xs[1..]))
  }

  ghost function AfterAll(c: Config, s: Sys, xs: seq<Span>): Sys
    decreases |xs|
  {
    if xs == [] then s else AfterAll(c, After(c, s, xs[0]), xs[1..])
  }

  lemma RoundKeepsInv(c: Config, s: Sys, w: WorkerId, t1: int, t2: int)
    requires Inv(c, s)
    ensures Inv(c, Round(c, s, w, t1, t2))
  {
    StepKeepsInv(c, s, Event.Recover(w, t1));
    StepKeepsInv(c, Step(c, s, Event.Recover(w, t1)), Event.Claim(w, t2));
  }

  lemma SpanLowers(c: Config, s: Sys, x: Span)
    requires Inv(c, s) && Unleased(c, s, x)
    ensures Inv(c, After(c, s, x))
    ensures Total(c, After(c, s, x).db.jobs) <= Total(c, s.db.jobs)
    ensures Total(c, s.db.jobs) > 0 ==> Total(c, After(c, s, x).db.jobs) < Total(c, s.db.jobs)
  {
    var u := Run(c, s, x.before);
    RunKeepsInv(c, s, x.before);
    MovesBounded(c, s, x.before);
    assert |u.db.jobs| == |u.db.jobs.Keys| == |s.db.jobs.Keys| == |s.db.jobs|;
    RoundKeepsInv(c, u, x.w, x.t1, x.t2);
    RoundProgress(c, u, x.w, x.t1, x.t2);
    DrainedIffZero(c, u);
    if Total(c, u.db.jobs) > 0 {
      UnleasedRound(c, u, x.w, x.t1, x.t2);
    }
  }

  /**
   The queue drains: with no request accepted, as many unleased rounds as the starting total leave every
   job finished, whatever crashes and other events lie between the rounds.
   */
  lemma {:induction false} QueueDrains(c: Config, s: Sys, xs: seq<Span>)
    requires Inv(c, s) && UnleasedSpans(c, s, xs) && |xs| >= Total(c, s.db.jobs)
    ensures Drained(AfterAll(c, s, xs).db.jobs)
    decreases |xs|
  {
    if xs == [] {
      DrainedIffZero(c, s);
    } else {
      SpanLowers(c, s, xs[0]);
      QueueDrains(c, After(c, s, xs[0]), xs[1..]);
    }
  }
}
