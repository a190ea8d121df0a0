/** `Worker.run_once` as a sequence of calls on one store, proved to be the matching run of the system. */
module JobWorker {
  import opened Common
  import opened JobTable
  import opened JobSystem
  import opened JobStore

  /** The moments at which an undisturbed `run_once` commits, and how its executor ends. */
  datatype Script = Script(recoverAt: int, claimAt: int, outcome: Outcome, finishAt: int)

  /**
   The events of one undisturbed `run_once`: a refused lock or an empty queue leaves the later ones without effect.
   */
  function RunOnceEvents(w: WorkerId, x: Script): seq<Event> {
    [TryLock(w), Event.Recover(w, x.recoverAt), Event.Claim(w, x.claimAt), Execute(w, x.outcome),
     Event.Finish(w, x.finishAt), Release(w)]
  }

  ghost function RunOnce(c: Config, s: Sys, w: WorkerId, x: Script): Sys {
    Run(c, s, RunOnceEvents(w, x))
  }

  /** The rows `run_once` itself decides on, once it holds the lock. */
  ghost function Recovery(c: Config, db: Db, x: Script): Db {
    JobTable.Recover(db, x.recoverAt, c.maxRetries)
  }

  ghost function Effect(c: Config, db: Db, x: Script): Db {
    var r := Recovery(c, db, x);
    var claimed := JobTable.Claim(r, x.claimAt, c.leaseSeconds);
    if CanClaim(r, x.claimAt) then CloseJob(claimed, x.finishAt, Head(r.jobs), x.outcome) else claimed
  }

  lemma OpeningSteps(c: Config, s: Sys, w: WorkerId, x: Script)
    requires At(s, w).Idle? && s.lock.None?
    ensures var t := Step(c, Step(c, Step(c, s, TryLock(w)), Event.Recover(w, x.recoverAt)), Event.Claim(w, x.claimAt));
            var r := Recovery(c, s.db, x);
            t.db == JobTable.Claim(r, x.claimAt, c.leaseSeconds) && t.lock == Some(w)
            && At(t, w) == (if CanClaim(r, x.claimAt) then Executing(Head(r.jobs)) else Leaving)
            && t.started == s.started + (if CanClaim(r, x.claimAt) then [Head(r.jobs)] else [])
  {
    var s1 := Step(c, s, TryLock(w));
    assert s1 == Move(s, w, Locked).(lock := Some(w)) && At(s1, w).Locked?;
    var s2 := Step(c, s1, Event.Recover(w, x.recoverAt));
    assert s2.db == Recovery(c, s.db, x) && At(s2, w).Recovered?;
    assert s.started + [] == s.started;
  }

  lemma ClosingSteps(c: Config, s: Sys, w: WorkerId, x: Script)
    requires s.lock == Some(w)
    requires At(s, w).Leaving? || (At(s, w).Executing? && At(s, w).job in RunningIds(s.db.jobs))
    ensures var t := Step(c, Step(c, Step(c, s, Execute(w, x.outcome)), Event.Finish(w, x.finishAt)), Release(w));
            t.db == (if At(s, w).Executing? then CloseJob(s.db, x.finishAt, At(s, w).job, x.outcome) else s.db)
            && t.lock.None? && At(t, w).Idle? && t.started == s.started
  {
    var s1 := Step(c, s, Execute(w, x.outcome));
    assert s1.db == s.db && s1.lock == Some(w);
    if At(s, w).Executing? {
      assert At(s1, w) == Closing(At(s, w).job, x.outcome);
    }
    var s2 := Step(c, s1, Event.Finish(w, x.finishAt));
    assert At(s2, w).Leaving? && s2.lock == Some(w);
  }

  /** An undisturbed `run_once` from outside leaves the worker outside and its effect on the tables. */
  lemma RunOnceEffect(c: Config, s: Sys, w: WorkerId, x: Script)
    requires Inv(c, s) && s.lock.None?
    ensures var t := RunOnce(c, s, w, x); var r := Recovery(c, s.db, x);
            t.db == Effect(c, s.db, x) && t.lock.None? && At(t, w).Idle?
            && t.started == s.started + (if CanClaim(r, x.claimAt) then [Head(r.jobs)] else [])
  {
    assert At(s, w).Idle?;
    OpeningSteps(c, s, w, x);
    var r := Recovery(c, s.db, x);
    if CanClaim(r, x.claimAt) {
      ClaimRunning(r, x.claimAt, c.leaseSeconds);
    }
    var u := Step(c, Step(c, Step(c, s, TryLock(w)), Event.Recover(w, x.recoverAt)), Event.Claim(w, x.claimAt));
    ClosingSteps(c, u, w, x);
    SixSteps(c, s, TryLock(w), Event.Recover(w, x.recoverAt), Event.Claim(w, x.claimAt), Execute(w, x.outcome),
             Event.Finish(w, x.finishAt), Release(w));
  }

  lemma SixSteps(c: Config, s: Sys, e1: Event, e2: Event, e3: Event, e4: Event, e5: Event, e6: Event)
    ensures Run(c, s, [e1, e2, e3, e4, e5, e6])
         == Step(c, Step(c, Step(c, Step(c, Step(c, Step(c, s, e1), e2), e3), e4), e5), e6)
  {
    var es := [e1, e2, e3, e4, e5, e6];
    RunSplit(c, s, [e1, e2, e3], [e4, e5, e6]);
    assert es == [e1, e2, e3] + [e4, e5, e6];
    ThreeSteps(c, s, e1, e2, e3);
    ThreeSteps(c, Run(c, s, [e1, e2, e3]), e4, e5, e6);
  }

  lemma ThreeSteps(c: Config, s: Sys, e1: Event, e2: Event, e3: Event)
    ensures Run(c, s, [e1, e2, e3]) == Step(c, Step(c, Step(c, s, e1), e2), e3)
  {
    assert [e1, e2, e3][1..] == [e2, e3] && [e2, e3][1..] == [e3] && [e3][1..] == [];
    calc {
      Run(c, s, [e1, e2, e3]);
      Run(c, Step(c, s, e1), [e2, e3]);
      Run(c, Step(c, Step(c, s, e1), e2), [e3]);
      Run(c, Step(c, Step(c, Step(c, s, e1), e2), e3), []);
    }
  }

  /** An undisturbed `run_once` closes the job it claims with the status its executor earned. */
  lemma RunOnceClosesItsJob(c: Config, db: Db, x: Script)
    requires CanClaim(Recovery(c, db, x), x.claimAt)
    ensures var i := Head(Recovery(c, db, x).jobs);
            i in Effect(c, db, x).jobs && Effect(c, db, x).lease.None?
            && Effect(c, db, x).jobs[i].status == (if x.outcome.Completed? then Succeeded else Failed)
            && Effect(c, db, x).jobs[i].finishedAt == Some(x.finishAt)
            && Effect(c, db, x).jobs[i].startedAt == Some(x.claimAt)
            && (x.outcome.Completed? ==>
                  Effect(c, db, x).jobs[i].failure.None? && Effect(c, db, x).jobs[i].message.None?)
            && (x.outcome.ExecutionError? ==>
                  Effect(c, db, x).jobs[i].failure == Some(x.outcome.category)
                  && Effect(c, db, x).jobs[i].message == Some(Safe(x.outcome.message)))
            && (x.outcome.Unexpected? ==>
                  Effect(c, db, x).jobs[i].failure == Some(InternalError)
                  && Effect(c, db, x).jobs[i].message == Some(FailedUnexpectedly))
  {
    ClaimRunning(Recovery(c, db, x), x.claimAt, c.leaseSeconds);
  }

  class Worker {
    const config: Config
    const store: JobStore

    constructor (config: Config, store: JobStore)
      ensures this.config == config && this.store == store
    {
      this.config := config;
      this.store := store;
    }

    /** `acquired` is what the non-blocking lock attempt answered. */
    method RunOnceOnStore(acquired: bool, x: Script) returns (worked: bool)
      requires store.Valid()
      modifies store
      ensures store.Valid()
      ensures store.State() == if acquired then Effect(config, old(store.State()), x) else old(store.State())
      ensures worked <==> acquired && CanClaim(Recovery(config, old(store.State()), x), x.claimAt)
    {
      if !acquired {
        return false;
      }
      var _ := store.RecoverInterrupted(x.recoverAt, config.maxRetries);
      ghost var recovered := store.State();
      var job := store.ClaimNext(x.claimAt, config.leaseSeconds);
      if job.None? {
        return false;
      }
      ClaimRunning(recovered, x.claimAt, config.leaseSeconds);
      var _ := store.Finish(x.finishAt, job.value, FinalStatus(x.outcome), FinalCategory(x.outcome),
          FinalMessage(x.outcome));
      return true;
    }
  }
}
