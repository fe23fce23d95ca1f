/** The functions of app/jobs/worker.py, each updating the agent_runs table in place; their
    effects are the steps whose interleavings JobQueue studies. */
module Worker {
  import opened Options
  import opened JobQueue

  datatype Full = Full(capacity: nat)

  class AgentRuns {
    var jobs: map<JobId, Job>
    const cfg: Settings

    constructor (cfg: Settings)
      ensures jobs == map[] && this.cfg == cfg
    {
      jobs, this.cfg := map[], cfg;
    }

    method EnqueueJob(id: JobId, p: Project, kind: string, refType: Option<string>, refId: Option<Ref>, now: int)
      returns (r: Result<JobId, Full>)
      requires id !in jobs
      modifies this`jobs
      ensures match EnqueueOutcome(cfg, old(jobs), p, kind, refType, refId)
              case Added =>
                && r == Ok(id) && jobs == old(jobs)[id := NewJob(p, kind, refType, refId, now)]
                && IsNew(jobs[id], p, kind, refType, now) && jobs[id].refId == refId
              case AlreadyActive =>
                jobs == old(jobs) && r.Ok? && r.value in Duplicates(jobs, p, kind, refType, refId.value)
              case QueueFull => jobs == old(jobs) && r == Err(Full(cfg.maxActive))
    {
      if refId.Some? {
        var existing := Duplicates(jobs, p, kind, refType, refId.value);
        if existing != {} {
          var j :| j in existing;
          return Ok(j);
        }
      }
      if ActiveCount(jobs, p, cfg.maxActive) >= cfg.maxActive {
        return Err(Full(cfg.maxActive));
      }
      jobs := jobs[id := NewJob(p, kind, refType, refId, now)];
      r := Ok(id);
    }

    method EnqueueJobs(ids: seq<JobId>, p: Project, kind: string, refType: string, refs: seq<Ref>, now: int)
      returns (queued: nat, alreadyActive: nat, capacityReached: bool)
      requires |ids| == |refs|
      modifies this`jobs
      ensures var b := BulkOutcome(cfg, old(jobs), p, kind, refType, refs);
              && jobs == InsertAll(old(jobs), ids, b.accepted, p, kind, refType, now)
              && queued == |b.accepted| && alreadyActive == b.alreadyActive && capacityReached == b.capacityReached
    {
      var unique := Unique(refs);
      if unique == [] {
        assert ExistingRefs(jobs, p, kind, refType, unique) == {};
        return 0, 0, false;
      }
      var existing := ExistingRefs(jobs, p, kind, refType, unique);
      var candidates := Candidates(jobs, p, kind, refType, unique);
      var available := cfg.maxActive - ActiveCount(jobs, p, cfg.maxActive);
      var accepted := if available < |candidates| then candidates[..available] else candidates;
      InsertRefs(ids, accepted, p, kind, refType, now);
      return |accepted|, |existing|, |accepted| < |candidates|;
    }

    /** One new row for each accepted ref. */
    method InsertRefs(ids: seq<JobId>, refs: seq<Ref>, p: Project, kind: string, refType: string, now: int)
      requires |refs| <= |ids|
      modifies this`jobs
      ensures jobs == InsertAll(old(jobs), ids, refs, p, kind, refType, now)
    {
      for k := 0 to |refs|
        invariant InsertAll(jobs, ids[k..], refs[k..], p, kind, refType, now) ==
                  InsertAll(old(jobs), ids, refs, p, kind, refType, now)
      {
        assert ids[k..][1..] == ids[k + 1..] && refs[k..][1..] == refs[k + 1..];
        jobs := jobs[ids[k] := NewJob(p, kind, Some(refType), Some(refs[k]), now)];
      }
    }

    method ReclaimExpiredLeases(now: int) returns (count: nat)
      modifies this`jobs
      ensures jobs == ReclaimAll(old(jobs), now)
      ensures forall j | j in jobs ::
                jobs[j] == if old(jobs)[j].status == Running && old(jobs)[j].leasedUntil.Some?
                              && old(jobs)[j].leasedUntil.value < now
                           then old(jobs)[j].(status := Pending, leasedUntil := None)
                           else old(jobs)[j]
      ensures count == |set j | j in old(jobs) && Expired(old(jobs)[j], now)|
    {
      count := |set j | j in jobs && Expired(jobs[j], now)|;
      jobs := map j | j in jobs ::
        if jobs[j].status == Running && jobs[j].leasedUntil.Some? && jobs[j].leasedUntil.value < now
        then jobs[j].(status := Pending, leasedUntil := None)
        else jobs[j];
    }

    /** The claiming half of process_one. */
    method ClaimNext(locked: set<JobId>, now: int) returns (run: Option<JobId>)
      modifies this`jobs
      ensures run.None? ==> jobs == old(jobs) && forall j | j in jobs && jobs[j].status == Pending :: j in locked
      ensures run.Some? ==> IsNext(old(jobs), locked, run.value)
      ensures run.Some? ==>
                && jobs == old(jobs)[run.value := Claimed(old(jobs)[run.value], now + cfg.leaseSeconds)]
                && jobs[run.value] == old(jobs)[run.value].(
                     status := Running, leasedUntil := Some(now + cfg.leaseSeconds), finishedAt := None, error := None)
    {
      var todo := set j | j in jobs && jobs[j].status == Pending && j !in locked;
      assert forall j | j in jobs && jobs[j].status == Pending && j !in locked :: j in todo;
      if todo == {} {
        return None;
      }
      ghost var all := todo;
      var best :| best in todo;
      todo := todo - {best};
      while todo != {}
        invariant todo <= all && best in all
        invariant forall i | i in all && i !in todo :: Before(jobs, best, i)
      {
        var j :| j in todo;
        todo := todo - {j};
        if Before(jobs, j, best) {
          best := j;
        }
      }
      assert IsNext(jobs, locked, best);
      jobs := jobs[best := jobs[best].(status := Running, leasedUntil := Some(now + cfg.leaseSeconds))];
      jobs := jobs[best := jobs[best].(finishedAt := None, error := None)];
      assert jobs == old(jobs)[best := Claimed(old(jobs)[best], now + cfg.leaseSeconds)];
      run := Some(best);
    }

    /** The handler returned: written over whatever the row says by now. */
    method RecordOk(run: JobId, result: string, now: int)
      requires run in jobs
      modifies this`jobs
      ensures jobs == old(jobs)[run := Finished(old(jobs)[run], now, Returned(result))]
      ensures jobs[run] == old(jobs)[run].(
                status := JobQueue.Done, result := Some(result), finishedAt := Some(now), leasedUntil := None)
    {
      jobs := jobs[run := jobs[run].(status := JobQueue.Done)];
      jobs := jobs[run := jobs[run].(result := Some(result))];
      jobs := jobs[run := jobs[run].(finishedAt := Some(now), leasedUntil := None)];
      assert jobs == old(jobs)[run := Finished(old(jobs)[run], now, Returned(result))];
    }

    /** The handler raised. */
    method RecordError(run: JobId, error: string, now: int)
      modifies this`jobs
      ensures run !in old(jobs) ==> jobs == old(jobs)
      ensures run in old(jobs) ==>
                && jobs == old(jobs)[run := Finished(old(jobs)[run], now, Raised(error))]
                && jobs[run] == old(jobs)[run].(
                     status := Failed, error := Some(error), finishedAt := Some(now), leasedUntil := None)
    {
      if run in jobs {
        jobs := jobs[run := jobs[run].(status := Failed, error := Some(error))];
        jobs := jobs[run := jobs[run].(finishedAt := Some(now), leasedUntil := None)];
        assert jobs == old(jobs)[run := Finished(old(jobs)[run], now, Raised(error))];
      }
    }

    /** The handler was cancelled: only a row still running goes back. */
    method RequeueCancelled(run: JobId)
      modifies this`jobs
      ensures run in old(jobs) && old(jobs)[run].status == Running ==>
                && jobs == old(jobs)[run := Requeued(old(jobs)[run])]
                && jobs[run] == old(jobs)[run].(status := Pending, leasedUntil := None)
      ensures !(run in old(jobs) && old(jobs)[run].status == Running) ==> jobs == old(jobs)
    {
      if run in jobs && jobs[run].status == Running {
        jobs := jobs[run := jobs[run].(status := Pending, leasedUntil := None)];
      }
    }
  }
}
