/** `JobStore`: each method is one immediate transaction, proved against its effect on the tables. */
module JobStore {
  import opened Common
  import opened JobTable

  lemma InterruptNone(jobs: map<JobId, Job>, now: int, maxRetries: nat)
    ensures InterruptAll(jobs, {}, now, maxRetries) == jobs
  {
  }

  /** The running rows outside `rows` that the lease does not protect. */
  function Unprotected(table: map<JobId, Job>, lease: Option<Lease>, rows: set<JobId>): set<JobId> {
    set id | id in RunningIds(table) && id !in rows && !Holds(lease, id)
  }

  /** What the recovery loop keeps: the rows already taken are interrupted, from their original content, and counted. */
  ghost predicate InterruptedOutside(table: map<JobId, Job>, lease: Option<Lease>, rows: set<JobId>,
                                     jobs: map<JobId, Job>, recovered: nat, now: int, maxRetries: nat) {
    var done := Unprotected(table, lease, rows);
    jobs == InterruptAll(table, done, now, maxRetries) && recovered == |done|
  }

  lemma InterruptOneMore(table: map<JobId, Job>, lease: Option<Lease>, rows: set<JobId>, id: JobId,
                         jobs: map<JobId, Job>, recovered: nat, now: int, maxRetries: nat)
    requires rows <= RunningIds(table) && id in rows
    requires InterruptedOutside(table, lease, rows, jobs, recovered, now, maxRetries)
    ensures id in jobs
    ensures Holds(lease, id) ==> InterruptedOutside(table, lease, rows - {id}, jobs, recovered, now, maxRetries)
    ensures !Holds(lease, id) ==>
              InterruptedOutside(table, lease, rows - {id}, jobs[id := Interrupt(jobs[id], now, maxRetries)],
                  recovered + 1, now, maxRetries)
  {
    var done, next := Unprotected(table, lease, rows), Unprotected(table, lease, rows - {id});
    if Holds(lease, id) {
      assert next == done;
    } else {
      assert next == done + {id} && id !in done;
      InterruptAlso(table, done, id, now, maxRetries);
    }
  }

  lemma InterruptAlso(table: map<JobId, Job>, done: set<JobId>, id: JobId, now: int, maxRetries: nat)
    requires id in table && id !in done
    ensures InterruptAll(table, done, now, maxRetries)[id] == table[id]
    ensures InterruptAll(table, done, now, maxRetries)[id := Interrupt(table[id], now, maxRetries)]
         == InterruptAll(table, done + {id}, now, maxRetries)
  {
  }

  lemma RecoverKeepsKeys(jobs: map<JobId, Job>, ids: set<JobId>, now: int, maxRetries: nat)
    requires UniqueKeys(jobs)
    ensures UniqueKeys(InterruptAll(jobs, ids, now, maxRetries))
  {
    var after := InterruptAll(jobs, ids, now, maxRetries);
    assert forall i | i in after :: i in jobs && after[i].key == jobs[i].key;
  }

  class JobStore {
    var jobs: map<JobId, Job>
    var lease: Option<Lease>

    ghost predicate Valid()
      reads this
    {
      UniqueKeys(jobs)
    }

    ghost function State(): Db
      reads this
    {
      Db(jobs, lease)
    }

    constructor ()
      ensures Valid() && State() == EMPTY
    {
      jobs := map[];
      lease := None;
    }

    method Enqueue(now: int, jobType: JobType, requestedBy: string, key: string, freshId: JobId) returns (r: Enqueued)
      requires Valid()
      modifies this
      ensures Valid()
      ensures State() == JobTable.Enqueue(old(State()), now, jobType, requestedBy, key, freshId)
      ensures EnqueueOutcome(old(State()), jobType, requestedBy, key, freshId, r)
    {
      var existing := set i | i in jobs && jobs[i].key == key;
      if existing != {} {
        var i :| i in existing;
        assert HasKey(jobs, key);
        return if jobs[i].jobType == jobType && jobs[i].requestedBy == requestedBy then Replayed(i) else Conflict;
      }
      assert forall i | i in jobs && jobs[i].key == key :: i in existing;
      if freshId in jobs {
        // The insert fails on the primary key; looking the key up again in the same transaction finds nothing.
        return IdTaken;
      }
      jobs := jobs[freshId := NewJob(now, jobType, requestedBy, key)];
      return Accepted(freshId);
    }

    method RecoverInterrupted(now: int, maxRetries: nat) returns (recovered: nat)
      requires Valid()
      modifies this
      ensures Valid()
      ensures State() == Recover(old(State()), now, maxRetries)
      ensures recovered == |Orphans(old(State()), now)|
    {
      ghost var table := jobs;
      lease := Purge(lease, now);
      var rows := RunningIds(jobs);
      recovered := 0;
      InterruptNone(jobs, now, maxRetries);
      while rows != {}
        invariant rows <= RunningIds(table) && lease == Purge(old(lease), now)
        invariant InterruptedOutside(table, lease, rows, jobs, recovered, now, maxRetries)
        decreases rows
      {
        var id :| id in rows;
        InterruptOneMore(table, lease, rows, id, jobs, recovered, now, maxRetries);
        if !Holds(lease, id) {
          jobs := jobs[id := Interrupt(jobs[id], now, maxRetries)];
          recovered := recovered + 1;
        }
        rows := rows - {id};
      }
      assert Unprotected(table, lease, {}) == Orphans(old(State()), now);
      RecoverKeepsKeys(table, Orphans(old(State()), now), now, maxRetries);
    }

    method ClaimNext(now: int, leaseSeconds: int) returns (claimed: Option<JobId>)
      requires Valid()
      modifies this
      ensures Valid()
      ensures State() == Claim(old(State()), now, leaseSeconds)
      ensures claimed == if CanClaim(old(State()), now) then Some(Head(old(jobs))) else None
    {
      lease := Purge(lease, now);
      if lease.Some? {
        return None;
      }
      var queued := QueuedIds(jobs);
      if queued == {} {
        return None;
      }
      HeadExists(jobs);
      var id :| id in queued && forall j | j in queued && j != id :: Ahead(jobs[id], id, jobs[j], j);
      assert IsHead(jobs, id);
      HeadIsUnique(jobs, id, Head(jobs));
      lease := Some(Lease(id, now, now + leaseSeconds * MICROS_PER_SECOND));
      jobs := jobs[id := Start(jobs[id], now)];
      return Some(id);
    }

    method Finish(now: int, id: JobId, status: Status, failure: Option<FailureCategory>, message: Option<Message>)
        returns (r: Finished)
      requires Valid()
      modifies this
      ensures Valid()
      ensures State() == JobTable.Finish(old(State()), now, id, status, failure, message)
      ensures r == FinishOutcome(old(State()), id, status)
    {
      if !Terminal(status) {
        return NotTerminal;
      }
      if id !in RunningIds(jobs) {
        return NotRunning;
      }
      jobs := jobs[id := Close(jobs[id], now, status, failure, message)];
      if Holds(lease, id) {
        lease := None;
      }
      return Done;
    }
  }
}
