/**
 The job queue of pkg/manager/jobqueue.go: a mutex, a condition variable and a fixed pool
 of workers. The class holds the critical sections; the protocol below it interleaves them.
 */
module JobQueue {
  import opened Wrappers

  /** `ticket` numbers the accepted jobs in order of acceptance; `id` need not be unique. */
  datatype Job = Job(id: string, ticket: nat)

  /** The queue without its first job that carries the given id. */
  function Without(jobs: seq<Job>, id: string): seq<Job> {
    if jobs == [] then []
    else if jobs[0].id == id then jobs[1..]
    else [jobs[0]] + Without(jobs[1..], id)
  }

  ghost predicate Pending(jobs: seq<Job>, id: string) { exists j :: j in jobs && j.id == id }

  lemma {:induction false} WithoutAt(jobs: seq<Job>, id: string, k: nat)
    requires k < |jobs| && jobs[k].id == id && forall i :: 0 <= i < k ==> jobs[i].id != id
    ensures Without(jobs, id) == jobs[..k] + jobs[k + 1..]
  {
    if k > 0 {
      WithoutAt(jobs[1..], id, k - 1);
      assert jobs[..k] == [jobs[0]] + jobs[1..][..k - 1];
    }
  }

  lemma {:induction false} WithoutNone(jobs: seq<Job>, id: string)
    requires forall i :: 0 <= i < |jobs| ==> jobs[i].id != id
    ensures Without(jobs, id) == jobs
  {
    if jobs != [] { WithoutNone(jobs[1..], id); }
  }

  class Queue {
    var jobs: seq<Job>
    var closed: bool

    constructor ()
      ensures jobs == [] && !closed
    {
      jobs, closed := [], false;
    }

    /** The critical section of Submit; the signal follows it under the same lock. */
    method Submit(job: Job) returns (accepted: bool)
      modifies this
      ensures accepted == !old(closed) && closed == old(closed)
      ensures jobs == if accepted then old(jobs) + [job] else old(jobs)
    {
      if closed {
        return false;
      }
      jobs := jobs + [job];
      return true;
    }

    /** What pop does each time it holds the lock: take the head, leave for good, or wait. */
    method TryPop() returns (job: Option<Job>, wait: bool)
      modifies this
      ensures closed == old(closed)
      ensures wait <==> old(jobs) == [] && !closed
      ensures old(jobs) != [] ==> job == Some(old(jobs)[0]) && jobs == old(jobs)[1..]
      ensures old(jobs) == [] ==> job == None && jobs == []
    {
      if |jobs| == 0 && !closed {
        return None, true;
      }
      if closed && |jobs| == 0 {
        return None, false;
      }
      job := Some(jobs[0]);
      jobs := jobs[1..];
      return job, false;
    }

    method DeleteJob(id: string) returns (found: bool)
      modifies this
      ensures closed == old(closed)
      ensures found <==> Pending(old(jobs), id)
      ensures jobs == Without(old(jobs), id)
      ensures !found ==> jobs == old(jobs)
    {
      for i := 0 to |jobs|
        invariant jobs == old(jobs) && closed == old(closed)
        invariant forall k :: 0 <= k < i ==> jobs[k].id != id
      {
        if jobs[i].id == id {
          WithoutAt(jobs, id, i);
          assert jobs[i] in old(jobs);
          jobs := jobs[..i] + jobs[i + 1..];
          return true;
        }
      }
      WithoutNone(jobs, id);
      return false;
    }

    method FindJob(id: string) returns (job: Option<Job>)
      ensures job.Some? <==> Pending(jobs, id)
      ensures job.Some? ==> job.value.id == id
      ensures job.Some? ==>
        (exists k :: 0 <= k < |jobs| && jobs[k] == job.value && Without(jobs, id) == jobs[..k] + jobs[k + 1..])
    {
      for i := 0 to |jobs|
        invariant forall k :: 0 <= k < i ==> jobs[k].id != id
      {
        if jobs[i].id == id {
          WithoutAt(jobs, id, i);
          return Some(jobs[i]);
        }
      }
      return None;
    }
  }
}
