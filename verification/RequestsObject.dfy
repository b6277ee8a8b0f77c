/** The table of background requests as the object it is (fabric/async_requests.py), proved
    against `Requests`. */
module RequestsObject {
  import opened Bytes
  import Q = Requests

  class Jobs {
    var jobs: seq<Q.Job>
    var threads: set<string>
    var closed: bool
    const limit: nat
    const concurrency: nat
    const retention: real

    ghost function State(): Q.Table
      reads this
    {
      Q.Table(jobs, threads, closed, limit, concurrency, retention)
    }

    constructor (limit: nat, concurrency: nat, retention: real)
      ensures State() == Q.Empty(limit, concurrency, retention)
    {
      this.limit, this.concurrency, this.retention := limit, concurrency, retention;
      jobs, threads, closed := [], {}, false;
    }

    /** `_prune`. */
    method Prune(now: real)
      modifies `jobs
      ensures State() == Q.Prune(old(State()), now)
    {
      var kept := [];
      for i := 0 to |jobs|
        invariant jobs == old(jobs) && kept == Q.Kept(State(), jobs[..i], now)
      {
        assert jobs[..i + 1][..i] == jobs[..i] && jobs[..i + 1][i] == jobs[i];
        if jobs[i].finished.None? || jobs[i].finished.value > now - retention { kept := kept + [jobs[i]]; }
      }
      assert jobs[..|jobs|] == jobs;
      jobs := kept;
    }

    /** The completed job that finished first, of a target or of all. */
    method FindOldest(target: Option<string>) returns (oldest: Option<nat>, count: nat)
      ensures oldest == Q.Oldest(jobs, target) && (target.Some? ==> count == Q.Own(jobs, target.value))
    {
      oldest, count := None, 0;
      for i := 0 to |jobs|
        invariant oldest == Q.Oldest(jobs[..i], target) && (target.Some? ==> count == Q.Own(jobs[..i], target.value))
      {
        assert jobs[..i + 1][..i] == jobs[..i] && jobs[..i + 1][i] == jobs[i];
        if jobs[i].finished.Some? && (target.Some? ==> jobs[i].target == target.value) {
          count := count + 1;
          if oldest.None? || jobs[oldest.value].finished.value > jobs[i].finished.value { oldest := Some(i); }
        }
      }
      assert jobs[..|jobs|] == jobs;
    }

    method IsBusy(target: string) returns (busy: bool)
      ensures busy == Q.Busy(jobs, target)
    {
      for i := 0 to |jobs|
        invariant forall j :: j in jobs[..i] ==> !(j.target == target && j.finished.None?)
      {
        if jobs[i].target == target && jobs[i].finished.None? {
          assert jobs[i] in jobs;
          return true;
        }
      }
      assert jobs[..|jobs|] == jobs;
      return false;
    }

    /** `submit`; `id` is the identifier drawn for the job. */
    method Submit(target: string, id: string, now: real) returns (outcome: Q.Outcome)
      modifies this
      ensures (State(), outcome) == Q.Submit(old(State()), target, id, now)
    {
      hide Q.Kept, Q.Busy, Q.Oldest, Q.Own;
      Prune(now);
      if closed { return Q.ShuttingDown; }
      var busy := IsBusy(target);
      if busy { return Q.AlreadyRunning; }
      if |threads| >= concurrency { return Q.NoThread; }
      var own, count := FindOldest(Some(target));
      if count >= Q.RECORDS_PER_TARGET && own.Some? { jobs := jobs[..own.value] + jobs[own.value + 1..]; }
      if |jobs| >= limit {
        var oldest, _ := FindOldest(None);
        if oldest.None? { return Q.NoRoom; }
        jobs := jobs[..oldest.value] + jobs[oldest.value + 1..];
      }
      jobs := jobs + [Q.Job(id, target, None)];
      threads := threads + {id};
      return Q.Accepted;
    }

    /** The last locked section of `_run`. */
    method Finish(id: string, now: real)
      modifies this
      ensures State() == Q.Finish(old(State()), id, now)
    {
      var i := 0;
      while i < |jobs|
        invariant i <= |jobs| == |old(jobs)| && threads == old(threads) && closed == old(closed)
        invariant forall k :: 0 <= k < |jobs| ==>
                    jobs[k] == if k < i && old(jobs)[k].id == id then old(jobs)[k].(finished := Some(now))
                        else old(jobs)[k]
      {
        if jobs[i].id == id { jobs := jobs[i := jobs[i].(finished := Some(now))]; }
        i := i + 1;
      }
      threads := threads - {id};
    }
  }
}
