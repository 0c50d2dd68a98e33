/**
 The worker pool of pkg/manager/jobqueue.go as a protocol: submitters, deleters, a closer
 and a fixed number of workers, each event one critical section or one step outside the lock.
 */
module JobQueueProtocol {
  import opened Wrappers
  import Runs
  import opened JobQueue

  datatype Worker =
    | Ready               // on its way to lock the queue in pop
    | Waiting             // in cond.Wait, not signalled
    | Woken               // signalled, on its way to lock the queue again
    | Processing(job: Job)
    | Exited

  /** `accepted`, `delivered` and `deleted` record the history of the queue, oldest first. */
  datatype State = State(
    jobs: seq<Job>, closed: bool, workers: seq<Worker>,
    accepted: seq<Job>, delivered: seq<Job>, deleted: seq<Job>, broadcast: bool)

  datatype Event =
    | Submit(id: string, woken: Option<nat>) // the worker cond.Signal wakes, if any waits
    | Refuse(id: string)
    | Pop(w: nat)
    | Finish(w: nat)
    | Delete(id: string)
    | CloseFlag
    | Broadcast

  function Start(maxWorkers: int): State {
    State([], false, seq(if maxWorkers <= 0 then 5 else maxWorkers, _ => Ready), [], [], [], false)
  }

  function WakeAll(workers: seq<Worker>): seq<Worker> {
    if workers == [] then []
    else [if workers[0].Waiting? then Woken else workers[0]] + WakeAll(workers[1..])
  }

  predicate Locks(s: State, w: nat) { w < |s.workers| && (s.workers[w].Ready? || s.workers[w].Woken?) }

  function Fire(s: State, ev: Event): Option<State> {
    match ev
    case Submit(id, woken) =>
      if s.closed then None
      else
        var job := Job(id, |s.accepted|);
        var s' := s.(jobs := s.jobs + [job], accepted := s.accepted + [job]);
        if woken.None? then
          if Waiting in s.workers then None else Some(s')
        else if woken.value < |s.workers| && s.workers[woken.value].Waiting? then
          Some(s'.(workers := s.workers[woken.value := Woken]))
        else None
    case Refuse(id) => if s.closed then Some(s) else None
    case Pop(w) =>
      if !Locks(s, w) then None
      else if s.jobs == [] then
        Some(s.(workers := s.workers[w := if s.closed then Exited else Waiting]))
      else
        Some(s.(jobs := s.jobs[1..], delivered := s.delivered + [s.jobs[0]],
                workers := s.workers[w := Processing(s.jobs[0])]))
    case Finish(w) =>
      if w < |s.workers| && s.workers[w].Processing? then Some(s.(workers := s.workers[w := Ready])) else None
    case Delete(id) => Some(s.(jobs := Without(s.jobs, id), deleted := s.deleted + Removed(s.jobs, id)))
    case CloseFlag => Some(s.(closed := true))
    case Broadcast => if s.closed then Some(s.(workers := WakeAll(s.workers), broadcast := true)) else None
  }

  /** The job a delete takes out, if any. */
  function Removed(jobs: seq<Job>, id: string): seq<Job> {
    if jobs == [] then [] else if jobs[0].id == id then [jobs[0]] else Removed(jobs[1..], id)
  }

  function Run(s: State, events: seq<Event>): Option<State> { Runs.Run(Fire, s, events) }

  ghost predicate Reachable(s: State) {
    exists maxWorkers, events :: Run(Start(maxWorkers), events) == Some(s)
  }

  // ---------------------------------------------------------------- invariant

  function WokenCount(workers: seq<Worker>): nat {
    if workers == [] then 0 else (if workers[0].Woken? then 1 else 0) + WokenCount(workers[1..])
  }

  /** While some worker waits unsignalled, every pending job has a woken worker coming for it. */
  ghost predicate NoLostWakeup(s: State) {
    Waiting in s.workers ==> |s.jobs| <= WokenCount(s.workers)
  }

  ghost predicate Shutdown(s: State) {
    && (Exited in s.workers ==> s.closed && s.jobs == [])
    && (s.broadcast ==> s.closed && Waiting !in s.workers)
  }

  ghost predicate Increasing(jobs: seq<Job>) {
    forall i, j :: 0 <= i < j < |jobs| ==> jobs[i].ticket < jobs[j].ticket
  }

  /** Tickets count accepted jobs, and every accepted job is delivered, pending or deleted. */
  ghost predicate Conserved(accepted: seq<Job>, delivered: seq<Job>, jobs: seq<Job>, deleted: seq<Job>) {
    && (forall i :: 0 <= i < |accepted| ==> accepted[i].ticket == i)
    && Increasing(delivered + jobs)
    && multiset(accepted) == multiset(delivered) + multiset(jobs) + multiset(deleted)
  }

  ghost predicate Inv(s: State) {
    && |s.workers| > 0
    && NoLostWakeup(s)
    && Shutdown(s)
    && Conserved(s.accepted, s.delivered, s.jobs, s.deleted)
  }

  lemma {:induction false} WokenUpdate(workers: seq<Worker>, w: nat, x: Worker)
    requires w < |workers|
    ensures WokenCount(workers[w := x]) + (if workers[w].Woken? then 1 else 0)
      == WokenCount(workers) + (if x.Woken? then 1 else 0)
  {
    if w == 0 {
      assert workers[w := x][1..] == workers[1..];
    } else {
      assert workers[w := x][1..] == workers[1..][w - 1 := x];
      WokenUpdate(workers[1..], w - 1, x);
    }
  }

  lemma {:induction false} WakeAllMeaning(workers: seq<Worker>)
    ensures |WakeAll(workers)| == |workers|
    ensures forall i :: 0 <= i < |workers| ==>
      WakeAll(workers)[i] == if workers[i].Waiting? then Woken else workers[i]
  {
    if workers != [] { WakeAllMeaning(workers[1..]); }
  }

  lemma {:induction false} DeleteConserves(jobs: seq<Job>, id: string)
    ensures multiset(jobs) == multiset(Without(jobs, id)) + multiset(Removed(jobs, id))
    ensures |Without(jobs, id)| + |Removed(jobs, id)| == |jobs|
  {
    if jobs != [] {
      assert jobs == [jobs[0]] + jobs[1..];
      if jobs[0].id != id { DeleteConserves(jobs[1..], id); }
    }
  }

  /** Deleting keeps the order of what stays. */
  lemma {:induction false} DeleteKeepsOrder(front: seq<Job>, jobs: seq<Job>, id: string)
    requires Increasing(front + jobs)
    ensures Increasing(front + Without(jobs, id))
    decreases |jobs|
  {
    if jobs == [] {
    } else if jobs[0].id == id {
      var all, rest := front + jobs, front + jobs[1..];
      forall i, j | 0 <= i < j < |rest| ensures rest[i].ticket < rest[j].ticket {
        var i' := if i < |front| then i else i + 1;
        var j' := if j < |front| then j else j + 1;
        assert all[i'] == rest[i] && all[j'] == rest[j];
      }
    } else {
      assert front + jobs == (front + [jobs[0]]) + jobs[1..];
      DeleteKeepsOrder(front + [jobs[0]], jobs[1..], id);
      assert front + Without(jobs, id) == (front + [jobs[0]]) + Without(jobs[1..], id);
    }
  }

  lemma SubmitConserves(accepted: seq<Job>, delivered: seq<Job>, jobs: seq<Job>, deleted: seq<Job>, id: string)
    requires Conserved(accepted, delivered, jobs, deleted)
    ensures var job := Job(id, |accepted|);
      Conserved(accepted + [job], delivered, jobs + [job], deleted)
  {
    var job := Job(id, |accepted|);
    assert delivered + (jobs + [job]) == (delivered + jobs) + [job];
    forall i | 0 <= i < |delivered + jobs| ensures (delivered + jobs)[i].ticket < job.ticket {
      var j := (delivered + jobs)[i];
      assert j in multiset(delivered) + multiset(jobs);
      assert j in multiset(accepted);
      assert j in accepted;
    }
  }

  lemma PopConserves(accepted: seq<Job>, delivered: seq<Job>, jobs: seq<Job>, deleted: seq<Job>)
    requires Conserved(accepted, delivered, jobs, deleted) && jobs != []
    ensures Conserved(accepted, delivered + [jobs[0]], jobs[1..], deleted)
  {
    assert jobs == [jobs[0]] + jobs[1..];
    assert (delivered + [jobs[0]]) + jobs[1..] == delivered + jobs;
  }

  lemma FireConserves(s: State, ev: Event)
    requires Inv(s) && Fire(s, ev).Some?
    ensures var s' := Fire(s, ev).value; Conserved(s'.accepted, s'.delivered, s'.jobs, s'.deleted)
  {
    match ev
    case Submit(id, woken) => SubmitConserves(s.accepted, s.delivered, s.jobs, s.deleted, id);
    case Pop(w) => if s.jobs != [] { PopConserves(s.accepted, s.delivered, s.jobs, s.deleted); }
    case Delete(id) =>
      DeleteConserves(s.jobs, id);
      DeleteKeepsOrder(s.delivered, s.jobs, id);
    case _ =>
  }

  lemma FireKeepsWakeups(s: State, ev: Event)
    requires Inv(s) && Fire(s, ev).Some?
    ensures var s' := Fire(s, ev).value; |s'.workers| > 0 && NoLostWakeup(s') && Shutdown(s')
  {
    match ev
    case Submit(id, woken) =>
      if woken.Some? { WokenUpdate(s.workers, woken.value, Woken); }
    case Pop(w) =>
      var s' := Fire(s, ev).value;
      WokenUpdate(s.workers, w, s'.workers[w]);
    case Finish(w) => WokenUpdate(s.workers, w, Ready);
    case Delete(id) => DeleteConserves(s.jobs, id);
    case Broadcast =>
      WakeAllMeaning(s.workers);
      var s' := Fire(s, ev).value;
      if Exited in s'.workers {
        var i :| 0 <= i < |s'.workers| && s'.workers[i] == Exited;
        assert s.workers[i] == Exited;
      }
    case _ =>
  }

  lemma {:induction false} RunKeepsInv(s: State, events: seq<Event>)
    requires Inv(s) && Run(s, events).Some?
    ensures Inv(Run(s, events).value)
    decreases |events|
  {
    if events != [] {
      FireConserves(s, events[0]);
      FireKeepsWakeups(s, events[0]);
      RunKeepsInv(Fire(s, events[0]).value, events[1..]);
    }
  }

  lemma ReachableInv(s: State)
    requires Reachable(s)
    ensures Inv(s)
  {
    var maxWorkers, events :| Run(Start(maxWorkers), events) == Some(s);
    RunKeepsInv(Start(maxWorkers), events);
  }

  // ----------------------------------------------------------------- theorems

  lemma WakeupsAreNotLost(s: State)
    requires Reachable(s)
    ensures NoLostWakeup(s)
  {
    ReachableInv(s);
  }

  /** Every accepted job is at exactly one place, once: delivered to a worker, pending, or deleted. */
  lemma ExactlyOnce(s: State, job: Job)
    requires Reachable(s) && job in s.accepted
    ensures multiset(s.delivered)[job] + multiset(s.jobs)[job] + multiset(s.deleted)[job] == 1
  {
    ReachableInv(s);
    TicketsAreUnique(s.accepted, job);
  }

  lemma {:induction false} TicketsAreUnique(accepted: seq<Job>, job: Job)
    requires forall i, j :: 0 <= i < j < |accepted| ==> accepted[i].ticket != accepted[j].ticket
    ensures multiset(accepted)[job] == if job in accepted then 1 else 0
  {
    if accepted != [] {
      var n := |accepted| - 1;
      assert accepted == accepted[..n] + [accepted[n]];
      TicketsAreUnique(accepted[..n], job);
    }
  }

  /** Nothing is delivered, pending or deleted that was not accepted; delivery is in order of acceptance. */
  lemma FirstInFirstOut(s: State)
    requires Reachable(s)
    ensures forall j :: j in s.delivered || j in s.jobs || j in s.deleted ==> j in s.accepted
    ensures Increasing(s.delivered + s.jobs)
  {
    ReachableInv(s);
    forall j | j in s.delivered || j in s.jobs || j in s.deleted ensures j in s.accepted {
      assert j in multiset(s.accepted);
    }
  }

  /** No worker can take a step of its own. */
  ghost predicate Quiescent(s: State) {
    forall w :: Fire(s, Pop(w)) == None && Fire(s, Finish(w)) == None
  }

  /** Left to themselves the workers empty the queue; after Close they have all exited. */
  lemma QuiescentIsDrained(s: State)
    requires Reachable(s) && Quiescent(s)
    ensures s.jobs == []
    ensures s.broadcast ==> forall w :: 0 <= w < |s.workers| ==> s.workers[w].Exited?
    ensures !s.closed ==> forall w :: 0 <= w < |s.workers| ==> s.workers[w].Waiting?
  {
    ReachableInv(s);
    forall w | 0 <= w < |s.workers| ensures s.workers[w].Waiting? || s.workers[w].Exited? {
      assert Fire(s, Pop(w)) == None && Fire(s, Finish(w)) == None;
    }
    NoneWoken(s.workers);
    assert s.workers[0].Waiting? || s.workers[0].Exited?;
  }

  lemma {:induction false} NoneWoken(workers: seq<Worker>)
    requires forall w :: 0 <= w < |workers| ==> !workers[w].Woken?
    ensures WokenCount(workers) == 0
  {
    if workers != [] { NoneWoken(workers[1..]); }
  }

  /** Once a worker has exited, no accepted job is left in the queue, and none will be added. */
  lemma ExitedMeansEmpty(s: State, ev: Event)
    requires Reachable(s) && Exited in s.workers
    ensures s.jobs == []
    ensures Fire(s, ev).Some? ==> Fire(s, ev).value.jobs == [] && Fire(s, ev).value.accepted == s.accepted
  {
    ReachableInv(s);
  }

  function Effort(w: Worker): nat {
    match w
    case Processing(_) => 3
    case Ready => 2
    case Woken => 2
    case Waiting => 0
    case Exited => 0
  }

  function Efforts(workers: seq<Worker>): nat {
    if workers == [] then 0 else Effort(workers[0]) + Efforts(workers[1..])
  }

  /** How many steps the workers can still take on their own. */
  function WorkLeft(s: State): nat { 2 * |s.jobs| + Efforts(s.workers) }

  lemma {:induction false} EffortsUpdate(workers: seq<Worker>, w: nat, x: Worker)
    requires w < |workers|
    ensures Efforts(workers[w := x]) + Effort(workers[w]) == Efforts(workers) + Effort(x)
  {
    if w == 0 {
      assert workers[w := x][1..] == workers[1..];
    } else {
      assert workers[w := x][1..] == workers[1..][w - 1 := x];
      EffortsUpdate(workers[1..], w - 1, x);
    }
  }

  lemma WorkerStepsRunOut(s: State, ev: Event)
    requires (ev.Pop? || ev.Finish?) && Fire(s, ev).Some?
    ensures WorkLeft(Fire(s, ev).value) < WorkLeft(s)
  {
    var s' := Fire(s, ev).value;
    EffortsUpdate(s.workers, ev.w, s'.workers[ev.w]);
  }

  /** From every reachable state the workers alone reach a state with an empty queue. */
  lemma {:induction false} WorkersDrain(s: State) returns (events: seq<Event>, s': State)
    requires Reachable(s)
    ensures forall i :: 0 <= i < |events| ==> events[i].Pop? || events[i].Finish?
    ensures |events| <= WorkLeft(s)
    ensures Run(s, events) == Some(s') && Quiescent(s') && s'.jobs == []
    ensures s'.accepted == s.accepted && s'.deleted == s.deleted
    ensures s'.closed == s.closed && s'.broadcast == s.broadcast && |s'.workers| == |s.workers|
    decreases WorkLeft(s)
  {
    if Quiescent(s) {
      QuiescentIsDrained(s);
      events, s' := [], s;
    } else {
      var w :| Fire(s, Pop(w)) != None || Fire(s, Finish(w)) != None;
      var ev := if Fire(s, Pop(w)) != None then Pop(w) else Finish(w);
      var next := Fire(s, ev).value;
      WorkerStepsRunOut(s, ev);
      StepReachable(s, ev);
      var rest;
      rest, s' := WorkersDrain(next);
      events := [ev] + rest;
      assert events[1..] == rest;
    }
  }

  lemma StepReachable(s: State, ev: Event)
    requires Reachable(s) && Fire(s, ev).Some?
    ensures Reachable(Fire(s, ev).value)
  {
    var maxWorkers, events :| Run(Start(maxWorkers), events) == Some(s);
    Runs.RunThen(Fire, Start(maxWorkers), events, ev);
    assert Run(Start(maxWorkers), events + [ev]) == Fire(s, ev);
  }

  /** The pool starts open and empty, with the workers asked for or with five. */
  lemma StartMeaning(maxWorkers: int)
    ensures var s := Start(maxWorkers);
      && !s.closed && s.jobs == [] && |s.workers| == (if maxWorkers >= 1 then maxWorkers else 5)
      && forall w :: 0 <= w < |s.workers| ==> s.workers[w] == Ready
  {}

  /** Submit never blocks: open, it takes the job and wakes a waiting worker if there is one; closed, it refuses. */
  lemma SubmitNeverBlocks(s: State, id: string)
    ensures !s.closed <==> exists woken :: Fire(s, Submit(id, woken)).Some?
    ensures s.closed <==> Fire(s, Refuse(id)).Some?
    ensures forall w: nat :: Fire(s, Submit(id, Some(w))).Some? ==>
      w < |s.workers| && s.workers[w].Waiting? && Fire(s, Submit(id, Some(w))).value.workers[w].Woken?
  {
    if !s.closed {
      if Waiting in s.workers {
        var w :| 0 <= w < |s.workers| && s.workers[w] == Waiting;
        assert Fire(s, Submit(id, Some(w))).Some?;
      } else {
        assert Fire(s, Submit(id, None)).Some?;
      }
    }
  }

  /** Close completes: after its two steps the workers alone finish every pending job and all exit. */
  lemma CloseCompletes(s: State) returns (events: seq<Event>, s': State)
    requires Reachable(s)
    ensures forall i :: 0 <= i < |events| ==> events[i].Pop? || events[i].Finish?
    ensures Run(s, [CloseFlag, Broadcast] + events) == Some(s')
    ensures forall w :: 0 <= w < |s'.workers| ==> s'.workers[w].Exited?
    ensures s'.jobs == [] && s'.accepted == s.accepted && s'.deleted == s.deleted && |s'.workers| == |s.workers|
  {
    var s1 := s.(closed := true);
    assert Fire(s, CloseFlag) == Some(s1);
    StepReachable(s, CloseFlag);
    var s2 := s1.(workers := WakeAll(s1.workers), broadcast := true);
    assert Fire(s1, Broadcast) == Some(s2);
    StepReachable(s1, Broadcast);
    WakeAllMeaning(s1.workers);
    events, s' := WorkersDrain(s2);
    StepsReachable(s2, events);
    QuiescentIsDrained(s');
    hide Fire;
    Runs.RunAlong(Fire, [s, s1, s2], [CloseFlag, Broadcast]);
    Runs.RunSplit(Fire, s, [CloseFlag, Broadcast], events);
  }

  lemma {:induction false} StepsReachable(s: State, events: seq<Event>)
    requires Reachable(s) && Run(s, events).Some?
    ensures Reachable(Run(s, events).value)
    decreases |events|
  {
    if events != [] {
      StepReachable(s, events[0]);
      StepsReachable(Fire(s, events[0]).value, events[1..]);
    }
  }
}
