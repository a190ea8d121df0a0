/** The queue is strictly first in, first out, once transaction times never repeat. */
module JobFairness {
  import opened JobTable
  import opened JobSystem

  /** The queued jobs that would be claimed before `j`. */
  ghost function InFront(jobs: map<JobId, Job>, j: JobId): set<JobId>
    requires j in jobs
  {
    set k | k in QueuedIds(jobs) && Ahead(jobs[k], k, jobs[j], j)
  }

  ghost function Rank(jobs: map<JobId, Job>, j: JobId): nat
    requires j in jobs
  {
    |InFront(jobs, j)|
  }

  lemma EnqueueInFront(jobs: map<JobId, Job>, n: Job, id: JobId, j: JobId, k: JobId)
    requires j in jobs && id !in jobs && n.status.Queued?
    ensures k in InFront(jobs[id := n], j) <==> k in InFront(jobs, j) || (k == id && Ahead(n, id, jobs[j], j))
  {
  }

  /** An accepted request overtakes `j` exactly when its own key (time, time, identifier) sorts first. */
  lemma EnqueueRank(db: Db, now: int, jobType: JobType, requestedBy: string, key: string, id: JobId, j: JobId)
    requires j in db.jobs && !HasKey(db.jobs, key) && id !in db.jobs
    ensures var n := NewJob(now, jobType, requestedBy, key);
            Rank(JobTable.Enqueue(db, now, jobType, requestedBy, key, id).jobs, j)
            == Rank(db.jobs, j) + (if Ahead(n, id, db.jobs[j], j) then 1 else 0)
  {
    var n := NewJob(now, jobType, requestedBy, key);
    var after := db.jobs[id := n];
    forall k
      ensures k in InFront(after, j) <==> k in InFront(db.jobs, j) || (k == id && Ahead(n, id, db.jobs[j], j))
    {
      EnqueueInFront(db.jobs, n, id, j, k);
    }
    assert InFront(after, j) == InFront(db.jobs, j) + if Ahead(n, id, db.jobs[j], j) then {id} else {};
    assert id !in InFront(db.jobs, j);
  }

  /** The jobs that recovery puts back into the queue ahead of `j`. */
  ghost function Overtakers(db: Db, now: int, maxRetries: nat, j: JobId): set<JobId>
    requires j in db.jobs
  {
    set k | k in Orphans(db, now) && db.jobs[k].retries < maxRetries
            && Ahead(Interrupt(db.jobs[k], now, maxRetries), k, db.jobs[j], j)
  }

  lemma RecoverInFront(db: Db, now: int, maxRetries: nat, j: JobId, k: JobId)
    requires j in QueuedIds(db.jobs) && k in db.jobs
    ensures var after := JobTable.Recover(db, now, maxRetries).jobs;
            && j in after && after[j] == db.jobs[j]
            && (k in InFront(after, j) <==> k in InFront(db.jobs, j) || k in Overtakers(db, now, maxRetries, j))
  {
    assert j !in Orphans(db, now);
    if k in Orphans(db, now) {
      assert k !in QueuedIds(db.jobs);
    }
  }

  /** Recovery sets a waiting job back by exactly the requeued jobs whose new (time, time, identifier) sorts first. */
  lemma RecoverRank(db: Db, now: int, maxRetries: nat, j: JobId)
    requires j in QueuedIds(db.jobs)
    ensures var after := JobTable.Recover(db, now, maxRetries).jobs;
            && j in QueuedIds(after) && after[j] == db.jobs[j]
            && Rank(after, j) == Rank(db.jobs, j) + |Overtakers(db, now, maxRetries, j)|
  {
    var after := JobTable.Recover(db, now, maxRetries).jobs;
    RecoverInFront(db, now, maxRetries, j, j);
    forall k | k in after
      ensures k in InFront(after, j) <==> k in InFront(db.jobs, j) || k in Overtakers(db, now, maxRetries, j)
    {
      RecoverInFront(db, now, maxRetries, j, k);
    }
    assert InFront(after, j) == InFront(db.jobs, j) + Overtakers(db, now, maxRetries, j);
    assert InFront(db.jobs, j) !! Overtakers(db, now, maxRetries, j);
  }

  /** A recovery later than the time a job was queued at lets nobody overtake it. */
  lemma LaterRecoveryKeepsRank(db: Db, now: int, maxRetries: nat, j: JobId)
    requires j in QueuedIds(db.jobs) && db.jobs[j].queuedAt < now
    ensures Rank(JobTable.Recover(db, now, maxRetries).jobs, j) == Rank(db.jobs, j)
  {
    RecoverRank(db, now, maxRetries, j);
    assert Overtakers(db, now, maxRetries, j) == {};
  }

  lemma ClaimRank(db: Db, now: int, leaseSeconds: int, j: JobId)
    requires CanClaim(db, now) && j in QueuedIds(db.jobs) && j != Head(db.jobs)
    ensures var after := JobTable.Claim(db, now, leaseSeconds).jobs;
            j in QueuedIds(after) && after[j] == db.jobs[j] && Rank(after, j) == Rank(db.jobs, j) - 1
  {
    var i := Head(db.jobs);
    var after := JobTable.Claim(db, now, leaseSeconds).jobs;
    assert Ahead(db.jobs[i], i, db.jobs[j], j);
    assert InFront(db.jobs, j) == InFront(after, j) + {i};
    assert i !in InFront(after, j);
  }

  lemma HeadRank(jobs: map<JobId, Job>)
    requires QueuedIds(jobs) != {}
    ensures Head(jobs) in jobs && Rank(jobs, Head(jobs)) == 0
  {
    var i := Head(jobs);
    assert i in QueuedIds(jobs);
    forall k | k in QueuedIds(jobs)
      ensures !Ahead(jobs[k], k, jobs[i], i)
    {
      if k == i {
        AheadIrreflexive(jobs[i], i);
      } else if Ahead(jobs[k], k, jobs[i], i) {
        AheadTransitive(jobs[i], i, jobs[k], k, jobs[i], i);
        AheadIrreflexive(jobs[i], i);
      }
    }
    assert InFront(jobs, i) == {};
  }

  // ----- runs whose transaction times strictly increase -----

  predicate Timed(e: Event) {
    e.Enqueue? || e.Recover? || e.Claim? || e.Finish?
  }

  function Time(e: Event): int
    requires Timed(e)
  {
    match e
    case Enqueue(now, _, _, _, _) => now
    case Recover(_, now) => now
    case Claim(_, now) => now
    case Finish(_, now) => now
  }

  /** Every transaction is later than `last` and than all before it. */
  predicate Increasing(es: seq<Event>, last: int)
    decreases |es|
  {
    if es == [] then true
    else if Timed(es[0]) then last < Time(es[0]) && Increasing(es[1..], Time(es[0]))
    else Increasing(es[1..], last)
  }

  /** `j` waits and no transaction after `last` can be stamped earlier than it. */
  ghost predicate Waiting(s: Sys, j: JobId, last: int) {
    j in QueuedIds(s.db.jobs) && s.db.jobs[j].queuedAt <= last
  }

  lemma StepRank(c: Config, s: Sys, e: Event, j: JobId, last: int)
    requires Waiting(s, j, last) && (Timed(e) ==> last < Time(e))
    ensures var t := Step(c, s, e);
            (t.started == s.started && Waiting(t, j, last) && Rank(t.db.jobs, j) == Rank(s.db.jobs, j))
            || (t.started == s.started + [j] && Rank(s.db.jobs, j) == 0)
            || (exists i :: i != j && t.started == s.started + [i] && Waiting(t, j, last)
                            && Rank(t.db.jobs, j) == Rank(s.db.jobs, j) - 1)
  {
    var t := Step(c, s, e);
    if e.Enqueue? {
      if t.db != s.db {
        EnqueueRank(s.db, e.now, e.jobType, e.requestedBy, e.key, e.id, j);
      }
    } else if e.Recover? && At(s, e.w).Locked? {
      RecoverRank(s.db, e.now, c.maxRetries, j);
      LaterRecoveryKeepsRank(s.db, e.now, c.maxRetries, j);
    } else if e.Claim? && At(s, e.w).Recovered? && CanClaim(s.db, e.now) {
      HeadRank(s.db.jobs);
      if Head(s.db.jobs) != j {
        ClaimRank(s.db, e.now, c.leaseSeconds, j);
      }
    } else if e.Finish? && At(s, e.w).Closing? {
      FinishRank(s.db, e.now, At(s, e.w).job, At(s, e.w).outcome, j);
    } else {
      assert t.db.jobs == s.db.jobs;
    }
  }

  lemma FinishRank(db: Db, now: int, i: JobId, o: Outcome, j: JobId)
    requires j in QueuedIds(db.jobs)
    ensures var after := CloseJob(db, now, i, o).jobs;
            j in QueuedIds(after) && after[j] == db.jobs[j] && Rank(after, j) == Rank(db.jobs, j)
  {
    assert InFront(CloseJob(db, now, i, o).jobs, j) == InFront(db.jobs, j);
  }

  function NewStart(s: Sys, t: Sys): seq<JobId> {
    if |t.started| > |s.started| then [t.started[|s.started|]] else []
  }

  /** The jobs started during a run. */
  ghost function NewStarts(c: Config, s: Sys, es: seq<Event>): seq<JobId>
    decreases |es|
  {
    if es == [] then []
    else
      var t := Step(c, s, es[0]);
      NewStart(s, t) + NewStarts(c, t, es[1..])
  }

  lemma StepStarts(c: Config, s: Sys, e: Event)
    ensures Step(c, s, e).started == s.started + NewStart(s, Step(c, s, e))
  {
    assert s.started + [] == s.started;
  }

  lemma {:induction false} StartsAreNew(c: Config, s: Sys, es: seq<Event>)
    ensures Run(c, s, es).started == s.started + NewStarts(c, s, es)
    decreases |es|
  {
    if es == [] {
      assert s.started + [] == s.started;
    } else {
      var t := Step(c, s, es[0]);
      StepStarts(c, s, es[0]);
      StartsAreNew(c, t, es[1..]);
      Associative(s.started, NewStart(s, t), NewStarts(c, t, es[1..]));
    }
  }

  lemma Associative(a: seq<JobId>, b: seq<JobId>, d: seq<JobId>)
    ensures (a + b) + d == a + (b + d)
  {
  }

  /**
   No overtaking: a queued job with `r` queued jobs in front of it is exactly the start number `r` (from 0)
   of any run whose transaction times increase, or that run has fewer starts and the job has moved up by each.
   */
  lemma {:induction false} FirstInFirstOut(c: Config, s: Sys, es: seq<Event>, last: int, j: JobId)
    requires Waiting(s, j, last) && Increasing(es, last)
    ensures var news, r, t := NewStarts(c, s, es), Rank(s.db.jobs, j), Run(c, s, es);
            if |news| > r then news[r] == j && j !in news[..r]
            else j !in news && j in QueuedIds(t.db.jobs) && Rank(t.db.jobs, j) == r - |news|
    decreases |es|
  {
    if es != [] {
      var e := es[0];
      var t := Step(c, s, e);
      var next := if Timed(e) then Time(e) else last;
      StepRank(c, s, e, j, last);
      if t.started == s.started {
        FirstInFirstOut(c, t, es[1..], next, j);
        assert NewStarts(c, s, es) == NewStarts(c, t, es[1..]);
      } else if t.started == s.started + [j] {
        assert NewStarts(c, s, es)[0] == j;
      } else {
        var i :| i != j && t.started == s.started + [i];
        FirstInFirstOut(c, t, es[1..], next, j);
        var rest, r := NewStarts(c, t, es[1..]), Rank(t.db.jobs, j);
        assert NewStarts(c, s, es) == [i] + rest;
        if |rest| > r {
          assert ([i] + rest)[..r + 1] == [i] + rest[..r];
        }
      }
    }
  }
}
