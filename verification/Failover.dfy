/**
 ExecuteWithFailover and the acquisition paths under it, internal/nntp/client.go, as one
 goroutine runs them. The environment (other goroutines, the network, the caller's
 context, the operation itself) answers arbitrarily at every point where the code asks it.
 The ghost fields are a ledger of what this goroutine does to the semaphores and pools.
 */
module Failover {
  import opened Wrappers
  import opened Errors
  import Race
  import Retry

  /** Host names, by number. */
  type Host = nat

  datatype Conn = Conn(id: nat, address: Host)

  /** A request for a connection: of any provider, or of one by name. */
  datatype Request = Any(from: Option<Host>) | Named(host: Host, ok: bool)

  /** One token per slot counted at index i of `hosts`. */
  ghost function Slots(hosts: seq<Host>, counts: seq<int>): multiset<Host>
    requires |hosts| == |counts|
  {
    if hosts == [] then multiset{}
    else (if counts[0] > 0 then multiset{hosts[0]} else multiset{}) + Slots(hosts[1..], counts[1..])
  }

  lemma {:induction false} NoSlots(hosts: seq<Host>, counts: seq<int>)
    requires |hosts| == |counts| && forall i :: 0 <= i < |counts| ==> counts[i] == 0
    ensures Slots(hosts, counts) == multiset{}
  {
    if hosts != [] { NoSlots(hosts[1..], counts[1..]); }
  }

  lemma {:induction false} OneSlot(hosts: seq<Host>, counts: seq<int>, w: nat)
    requires w < |hosts| == |counts|
    requires forall i :: 0 <= i < |counts| ==> counts[i] == if i == w then 1 else 0
    ensures Slots(hosts, counts) == multiset{hosts[w]}
  {
    if w == 0 {
      NoSlots(hosts[1..], counts[1..]);
    } else {
      OneSlot(hosts[1..], counts[1..], w - 1);
    }
  }

  /** The slots a finished race leaves taken: the winner's, a stranded one, or none. */
  lemma RaceSlots(hosts: seq<Host>, s: Race.State)
    requires Race.Reachable(|hosts|, s) && Race.Finished(s)
    ensures |s.tokens| == |hosts| && (s.receiver.outcome.Won? ==> s.receiver.outcome.i < |hosts|)
    ensures s.receiver.outcome.Won? ==> Slots(hosts, s.tokens) == multiset{hosts[s.receiver.outcome.i]}
    ensures s.receiver.outcome.NoConnection? ==> Slots(hosts, s.tokens) == multiset{}
    ensures s.receiver.outcome.Cancelled? ==> |Slots(hosts, s.tokens)| == if s.winner.Some? then 1 else 0
  {
    Race.SlotsConserved(|hosts|, s);
    Race.ReachableInv(|hosts|, s);
    var outcome := s.receiver.outcome;
    if outcome.Won? {
      OneSlot(hosts, s.tokens, outcome.i);
    } else if outcome.Cancelled? && s.winner.Some? {
      OneSlot(hosts, s.tokens, s.winner.value);
    } else {
      NoSlots(hosts, s.tokens);
    }
  }

  /**
   What one goroutine has done to the semaphores and stacks: the slots it took and did not
   give back, the slots a cancelled race left without an owner, and two faults the code
   must never commit.
   */
  datatype Ledger = Ledger(
    tokens: multiset<Host>,
    stranded: multiset<Host>,
    overdrawn: bool,  // a slot was given back that was not held
    misfiled: bool)   // a connection was pushed on another host's stack

  ghost function Take(l: Ledger, host: Host): Ledger { l.(tokens := l.tokens + multiset{host}) }

  ghost function Give(l: Ledger, host: Host): Ledger {
    l.(tokens := l.tokens - multiset{host}, overdrawn := l.overdrawn || host !in l.tokens)
  }

  ghost function File(l: Ledger, conn: Conn, host: Host): Ledger {
    l.(misfiled := l.misfiled || conn.address != host)
  }

  lemma TakeThenGive(l: Ledger, host: Host)
    ensures Give(Take(l, host), host) == l
  {
    assert l.tokens + multiset{host} - multiset{host} == l.tokens;
  }

  lemma SwapSlots(l: Ledger, a: Host, b: Host)
    ensures Give(Take(Take(l, a), b), a) == Take(l, b)
  {
    assert l.tokens + multiset{a} + multiset{b} - multiset{a} == l.tokens + multiset{b};
  }

  /** The two faults are seen: a slot given back that was not held, a connection under another host. */
  lemma FaultsAreSeen(l: Ledger, conn: Conn, host: Host)
    ensures Give(l, host).overdrawn <==> l.overdrawn || l.tokens[host] == 0
    ensures File(l, conn, host).misfiled <==> l.misfiled || conn.address != host
    ensures Give(l, host).stranded == File(l, conn, host).stranded == l.stranded && File(l, conn, host).tokens == l.tokens
  {}

  ghost predicate StrandsOne(before: Ledger, after: Ledger) {
    && after == before.(stranded := after.stranded)
    && before.stranded <= after.stranded && |after.stranded| == |before.stranded| + 1
  }

  /** A race that was cancelled after it had chosen a winner. */
  ghost predicate Strands(s: Race.State) { s.receiver == Race.Returned(Race.Cancelled) && s.winner.Some? }

  /** Of the races after the first n, the last one stranded its winner's slot. */
  ghost predicate LastStrands(n: nat, races: seq<Race.State>) { |races| > n && Strands(races[|races| - 1]) }

  /** Nothing is left over, but for the one slot of the winner a cancelled race has dropped. */
  ghost predicate Settled(before: Ledger, after: Ledger, stranded: bool) {
    if stranded then StrandsOne(before, after) else after == before
  }

  /** A call that strands a slot ends with the context's error. */
  ghost predicate EndsCall<T>(stranded: bool, contextDone: bool, r: Result<T, Error>) {
    stranded ==> contextDone && r == Err(Context)
  }

  lemma SettledAtOnce(l: Ledger)
    ensures Settled(l, l, false)
  {}

  /** Errors after which the operation is repeated on another connection. */
  ghost predicate MayRepeat(e: Error) {
    e == Nntp(TypeConnection) || e == Nntp(TypeTimeout) || e == Nntp(TypeServerBusy)
  }

  /** Errors after which another provider may still do it; any other ends the operation at once. */
  ghost predicate MayGoOn(e: Error) { MayRepeat(e) || e == Nntp(TypeArticleNotFound) || e == Panic }

  /** When the last call met an error that ends the operation, that error is the result. */
  ghost predicate StopsAt(calls: seq<Option<Error>>, r: Result<(), Error>) {
    calls != [] && calls[|calls| - 1].Some? && !MayGoOn(calls[|calls| - 1].value) ==>
      r == Err(calls[|calls| - 1].value)
  }

  /** After a round that another may follow, every call of it may be followed by another. */
  lemma LastCallGoesOn(calls: seq<Option<Error>>, r: Result<(), Error>)
    requires forall k :: 0 <= k < |calls| - 1 ==> calls[k].Some? && MayRepeat(calls[k].value)
    requires r.Err? && calls != [] ==> calls[|calls| - 1].Some?
    requires StopsAt(calls, r)
    ensures forall k :: 0 <= k < |calls| - 1 ==> calls[k].Some? && MayGoOn(calls[k].value)
    ensures r.Err? ==> (Fatal(r.error) <==> !MayGoOn(r.error))
    ensures r.Err? && MayGoOn(r.error) ==> forall k :: 0 <= k < |calls| ==> calls[k].Some? && MayGoOn(calls[k].value)
  {
    if r.Err? { ClassesOf(r.error); }
  }

  /**
   The requests of a reconnection that ends with a connection of that provider: the first
   provider is asked by name unless it has just given one, and is preferred when it gives one.
   */
  ghost predicate Reconnects(before: seq<Request>, after: seq<Request>, first: Host, provider: Option<Host>) {
    if provider == None then after == before + [Any(None)]
    else if provider == Some(first) then
      || after == before + [Any(provider)]
      || exists other :: other != first && after == before + [Any(Some(other))] + [Named(first, true)]
    else after == before + [Any(provider)] + [Named(first, false)]
  }

  lemma NotStranded(before: Ledger, after: Ledger)
    requires Settled(before, after, false)
    ensures before == after
  {}

  lemma ClassesOf(e: Error)
    ensures Retriable(e) <==> MayRepeat(e)
    ensures Fatal(e) <==> !MayGoOn(e)
  {}

  /** The providers that are not excluded, by priority. */
  ghost function Eligible(hosts: seq<Host>, excluded: set<Host>): (s: seq<Host>)
    ensures forall h :: h in s <==> h in hosts && h !in excluded
  {
    if hosts == [] then []
    else
      var init := Eligible(hosts[..|hosts| - 1], excluded);
      if hosts[|hosts| - 1] in excluded then init else init + [hosts[|hosts| - 1]]
  }

  ghost predicate Distinct(s: seq<Host>) { forall i, j :: 0 <= i < j < |s| ==> s[i] != s[j] }

  /** Where a retry loop saw its context end: nowhere, before the next attempt, or asleep after the last. */
  datatype Ended = Never | Before | Asleep

  /** What retry.Do would have met in a loop that made these attempts. */
  ghost function Met(outcomes: seq<Retry.Attempt>, ended: Ended): Retry.World {
    var n := |outcomes|;
    Retry.World(
      k => if 1 <= k <= n then outcomes[k - 1] else Retry.Success,
      _ => true,
      k => if ended.Before? && k == n + 1 then Some(Context) else None,
      k => if ended.Asleep? && k == n then Some(Context) else None)
  }

  /** The attempts and the result are those of retry.Do in that world. */
  ghost predicate RunOfDo(cfg: Retry.Config, outcomes: seq<Retry.Attempt>, ended: Ended, r: Result<(), Error>) {
    var w := Met(outcomes, ended);
    var last := if ended.Before? then |outcomes| + 1 else |outcomes|;
    && 1 <= last <= Retry.Attempts(cfg)
    && (forall k :: 1 <= k < last ==> Retry.GoesOn(cfg, w, k))
    && Retry.StopsWith(cfg, w, last, !ended.Before?, r)
  }

  lemma RunIsDo(cfg: Retry.Config, outcomes: seq<Retry.Attempt>, ended: Ended, r: Result<(), Error>)
    requires cfg.mode == Retry.BackOffDelay && 0 < cfg.delay <= cfg.maxDelay
    requires |outcomes| + (if ended.Before? then 1 else 0) <= Retry.Attempts(cfg)
    requires forall k :: 0 <= k < |outcomes| - 1 ==> outcomes[k].Retryable?
    requires ended.Before? ==> r == Err(Context) && forall k :: 0 <= k < |outcomes| ==> outcomes[k].Retryable?
    requires ended.Asleep? ==>
      r == Err(Context) && outcomes != [] && outcomes[|outcomes| - 1].Retryable? && |outcomes| < Retry.Attempts(cfg)
    requires ended.Never? ==> outcomes != [] && match outcomes[|outcomes| - 1]
      case Success => r == Ok(())
      case Unrecoverable(e) => r == Err(e)
      case Retryable(e) => r == Err(e) && |outcomes| == Retry.Attempts(cfg)
    ensures RunOfDo(cfg, outcomes, ended, r)
  {
    if outcomes != [] {
      Retry.BackOffWaits(cfg, |outcomes| - 1);
      Retry.Pow2Positive(|outcomes| - 1);
      assert cfg.delay * Retry.Pow2(|outcomes| - 1) > 0;
    }
  }

  class Client {
    const hosts: seq<Host>  // providers by priority; pools exist for exactly these hosts
    const retries: int
    var contextDone: bool
    ghost var ledger: Ledger
    ghost var calls: seq<Option<Error>> // outcome of every call of the operation, in order
    ghost var races: seq<Race.State>    // end of every race this goroutine has started, in order
    ghost var asked: seq<Request>       // every request for a connection, in order

    constructor (hosts: seq<Host>, retries: int)
      ensures this.hosts == hosts && this.retries == retries
      ensures ledger == Ledger(multiset{}, multiset{}, false, false) && calls == [] && races == [] && asked == []
      ensures !contextDone
    {
      this.hosts, this.retries, contextDone := hosts, retries, false;
      ledger, calls, races, asked := Ledger(multiset{}, multiset{}, false, false), [], [], [];
    }

    /** Delays in milliseconds. */
    function RetryConfig(): Retry.Config { Retry.Config(retries + 1, 500, 30000, Retry.BackOffDelay) }

    function Attempts(): (n: nat)
      ensures retries >= 0 ==> n == retries + 1
    {
      Retry.Attempts(RetryConfig())
    }

    // ------------------------------------------------------------ environment

    /** The context may end at any time; it never comes back. */
    method CheckContext() returns (done: bool)
      modifies this`contextDone
      ensures done == contextDone && (old(contextDone) ==> contextDone)
    {
      if * { contextDone := true; }
      done := contextDone;
    }

    method IsClosed(conn: Conn) returns (closed: bool)
    {
      closed := *;
    }

    /** getOrCreateFromPool: a connection of that pool, or any error. */
    method Open(host: Host) returns (r: Result<Conn, Error>)
      ensures r.Ok? ==> r.value.address == host
    {
      if * {
        var id: nat := *;
        r := Ok(Conn(id, host));
      } else {
        var e: Error := *;
        r := Err(e);
      }
    }

    /** safeExecute: success, any error, or a recovered panic. */
    method SafeExecute(conn: Conn) returns (e: Option<Error>)
      modifies this`calls
      ensures calls == old(calls) + [e]
    {
      e := *;
      calls := calls + [e];
    }

    // ------------------------------------------------------- returning slots

    /** Only an open connection of an open client is pushed, and the slot is freed either way. */
    method Put(conn: Option<Conn>, provider: Host, connClosed: bool, clientClosed: bool) returns (pushed: bool)
      modifies this`ledger
      ensures pushed <==> conn.Some? && provider in hosts && !connClosed && !clientClosed
      ensures ledger ==
        if conn.None? || provider !in hosts then old(ledger)
        else if pushed then Give(File(old(ledger), conn.value, provider), provider)
        else Give(old(ledger), provider)
    {
      if conn.None? || provider !in hosts {
        return false;
      }
      if connClosed {
        ledger := Give(ledger, provider);
        return false;
      }
      if clientClosed {
        ledger := Give(ledger, provider);
        return false;
      }
      ledger := File(ledger, conn.value, provider);
      ledger := Give(ledger, provider);
      return true;
    }

    method Release(conn: Option<Conn>)
      modifies this`ledger
      ensures ledger ==
        if conn.Some? && conn.value.address in hosts then Give(old(ledger), conn.value.address) else old(ledger)
    {
      if conn.Some? && conn.value.address in hosts {
        ledger := Give(ledger, conn.value.address);
      }
    }

    method ReturnOrRelease(conn: Option<Conn>, provider: Host)
      modifies this`ledger
      ensures conn.None? ==> ledger == old(ledger)
      ensures conn.Some? && conn.value.address == provider && provider in hosts ==>
        ledger == Give(old(ledger), provider)
    {
      if conn.None? {
        return;
      }
      var closed := IsClosed(conn.value);
      if closed {
        Release(conn);
      } else {
        var closedSince := IsClosed(conn.value);
        var clientClosed: bool := *;
        var _ := Put(conn, provider, closedSince, clientClosed);
      }
    }

    // ------------------------------------------------------------ acquisition

    method GetConnectionFromProvider(provider: Host) returns (r: Result<Conn, Error>)
      modifies this`ledger, this`contextDone, this`asked
      ensures old(contextDone) ==> contextDone
      ensures ledger == if r.Ok? then Take(old(ledger), provider) else old(ledger)
      ensures r.Ok? ==> r.value.address == provider && provider in hosts
      ensures asked == old(asked) + [Named(provider, r.Ok?)]
      ensures provider !in hosts ==> r == Err(Other)
      ensures contextDone && !old(contextDone) ==> r == Err(Context)
    {
      if provider !in hosts {
        r := Err(Other);
      } else if * { // the semaphore had room first
        ledger := Take(ledger, provider);
        r := Open(provider);
        if r.Err? {
          TakeThenGive(old(ledger), provider);
          ledger := Give(ledger, provider);
        }
      } else { // the context ended first
        contextDone := true;
        r := Err(Context);
      }
      asked := asked + [Named(provider, r.Ok?)];
    }

    /** The end of any complete run of the race. */
    method CompleteRace(n: nat) returns (s: Race.State)
      ensures Race.Reachable(n, s) && Race.Finished(s) && s.receiver.Returned?
    {
      hide Race.Start, Race.AllDone;
      Race.CompleteRunExists(n);
      var events: seq<Race.Event> :| Race.Complete(n, events);
      s := Race.Run(Race.Start(n), events).value;
    }

    /** Any complete run of the race, with the slots that run leaves taken. */
    method RaceForConnection(eligible: seq<Host>) returns (r: Result<(Conn, Host), Error>)
      modifies this`ledger, this`contextDone, this`races
      ensures old(contextDone) ==> contextDone
      ensures |races| == |old(races)| + 1 && old(races) <= races
      ensures r.Ok? ==>
        && r.value.0.address == r.value.1 && r.value.1 in eligible
        && ledger == Take(old(ledger), r.value.1) && !LastStrands(|old(races)|, races)
      ensures r.Err? ==> Settled(old(ledger), ledger, LastStrands(|old(races)|, races))
      ensures EndsCall(LastStrands(|old(races)|, races), contextDone, r)
    {
      hide Slots, Race.Reachable, Race.Finished;
      var s := CompleteRace(|eligible|);
      RaceSlots(eligible, s);
      races := races + [s];
      match s.receiver.outcome
      case Won(i) =>
        ledger := ledger.(tokens := ledger.tokens + Slots(eligible, s.tokens));
        var id: nat := *;
        r := Ok((Conn(id, eligible[i]), eligible[i]));
      case NoConnection =>
        ledger := ledger.(tokens := ledger.tokens + Slots(eligible, s.tokens));
        var e: Error := *;
        r := Err(e);
      case Cancelled =>
        ledger := ledger.(stranded := ledger.stranded + Slots(eligible, s.tokens));
        contextDone := true;
        r := Err(Context);
    }

    /**
     A scan by priority, then a race; `scanned` providers had no slot or gave no connection
     when the scan ended.
     */
    method GetAnyAvailableConnection(excluded: set<Host>)
      returns (r: Result<(Conn, Host), Error>, ghost scanned: nat)
      modifies this`ledger, this`contextDone, this`races, this`asked
      ensures asked == old(asked) + [Any(if r.Ok? then Some(r.value.1) else None)]
      ensures old(contextDone) ==> contextDone
      ensures |races| <= |old(races)| + 1 && old(races) <= races
      ensures r.Ok? ==>
        && r.value.0.address == r.value.1 && r.value.1 in hosts && r.value.1 !in excluded
        && ledger == Take(old(ledger), r.value.1) && !LastStrands(|old(races)|, races)
      ensures r.Err? ==> Settled(old(ledger), ledger, LastStrands(|old(races)|, races))
      ensures EndsCall(LastStrands(|old(races)|, races), contextDone, r)
      ensures scanned <= |Eligible(hosts, excluded)|
      ensures races != old(races) ==> scanned == |Eligible(hosts, excluded)| > 0
      ensures r.Ok? && races == old(races) ==>
        scanned < |Eligible(hosts, excluded)| && r.value.1 == Eligible(hosts, excluded)[scanned]
      ensures Eligible(hosts, excluded) == [] ==> r == Err(Other)
    {
      hide Settled, Strands;
      SettledAtOnce(ledger);
      var eligible: seq<Host> := [];
      for i := 0 to |hosts|
        invariant eligible == Eligible(hosts[..i], excluded)
      {
        assert hosts[..i + 1][..i] == hosts[..i];
        if hosts[i] !in excluded {
          eligible := eligible + [hosts[i]];
        }
      }
      assert hosts[..|hosts|] == hosts;
      scanned := 0;
      if eligible == [] {
        asked := asked + [Any(None)];
        return Err(Other), scanned;
      }
      for i := 0 to |eligible|
        invariant scanned == i
        invariant ledger == old(ledger) && contextDone == old(contextDone) && races == old(races) && asked == old(asked)
      {
        if * { // a slot was free
          ledger := Take(ledger, eligible[i]);
          var conn := Open(eligible[i]);
          if conn.Ok? {
            asked := asked + [Any(Some(eligible[i]))];
            return Ok((conn.value, eligible[i])), scanned;
          }
          TakeThenGive(old(ledger), eligible[i]);
          ledger := Give(ledger, eligible[i]);
        }
        scanned := i + 1;
      }
      r := RaceForConnection(eligible);
      asked := asked + [Any(if r.Ok? then Some(r.value.1) else None)];
    }

    // ---------------------------------------------------------------- failover

    /**
     After a retriable error: another connection, of the round's first provider unless that
     one, asked for it, gave none.
     */
    method Reconnect(first: Host) returns (r: Result<(Conn, Host), Error>)
      requires first in hosts
      modifies this`ledger, this`contextDone, this`races, this`asked
      ensures old(contextDone) ==> contextDone
      ensures old(races) <= races
      ensures r.Ok? ==>
        && r.value.0.address == r.value.1 && r.value.1 in hosts
        && ledger == Take(old(ledger), r.value.1) && !LastStrands(|old(races)|, races)
      ensures Reconnects(old(asked), asked, first, if r.Ok? then Some(r.value.1) else None)
      ensures r.Err? ==> Settled(old(ledger), ledger, LastStrands(|old(races)|, races))
      ensures EndsCall(LastStrands(|old(races)|, races), contextDone, r)
    {
      hide Settled, LastStrands, Eligible, Take, Give, File;
      ghost var scanned;
      r, scanned := GetAnyAvailableConnection({});
      if r.Ok? && r.value.0.address != first {
        var preferred := GetConnectionFromProvider(first);
        if preferred.Ok? {
          SwapSlots(old(ledger), r.value.1, first);
          ReturnOrRelease(Some(r.value.0), r.value.1);
          r := Ok((preferred.value, first));
        }
      }
    }

    /** What this goroutine owns between two steps: the slot of its current connection, if it has one. */
    ghost predicate Owns(before: Ledger, conn: Option<Conn>, provider: Host)
      reads this
    {
      if conn.None? then ledger == before
      else conn.value.address == provider && provider in hosts && ledger == Take(before, provider)
    }

    /** The closure given to retry.Do: one call of the operation and what follows a failure. */
    method Attempt(first: Host, conn: Conn, provider: Host, ghost before: Ledger)
      returns (a: Retry.Attempt, conn': Option<Conn>, provider': Host)
      requires first in hosts && Owns(before, Some(conn), provider)
      modifies this
      ensures old(contextDone) ==> contextDone
      ensures old(races) <= races
      ensures if LastStrands(|old(races)|, races)
        then conn'.None? && a == Retry.Unrecoverable(Context) && contextDone && StrandsOne(before, ledger)
        else Owns(before, conn', provider')
      ensures |calls| == |old(calls)| + 1 && old(calls) <= calls
      ensures calls[|old(calls)|].None? || !MayRepeat(calls[|old(calls)|].value) ==> asked == old(asked)
      ensures match calls[|old(calls)|]
        case None => a.Success? && conn' == Some(conn) && provider' == provider
        case Some(e) =>
          if MayRepeat(e) then
            && ((a == Retry.Retryable(e) && conn'.Some?) || (a.Unrecoverable? && conn'.None?))
            && Reconnects(old(asked), asked, first, if conn'.Some? then Some(provider') else None)
          else if e == Panic then a == Retry.Unrecoverable(e) && conn'.None?
          else a == Retry.Unrecoverable(e) && conn' == Some(conn) && provider' == provider
    {
      conn', provider' := Some(conn), provider;
      var e := SafeExecute(conn);
      if e.None? {
        return Retry.Success, conn', provider';
      }
      ClassesOf(e.value);
      TakeThenGive(before, provider);
      if Retriable(e.value) {
        Release(Some(conn));
        var again := Reconnect(first);
        if again.Err? {
          return Retry.Unrecoverable(again.error), None, provider';
        }
        return Retry.Retryable(e.value), Some(again.value.0), again.value.1;
      }
      if e.value == Panic {
        conn' := None;
        Release(Some(conn));
      }
      return Retry.Unrecoverable(e.value), conn', provider';
    }

    /**
     retry.Do around Attempt; it may leave the last connection with the caller. The
     attempts made and the moment the context was seen to end explain the result as Do's.
     */
    method RetryOn(first: Host, conn: Conn, ghost before: Ledger)
      returns (r: Result<(), Error>, conn': Option<Conn>, provider': Host,
               ghost outcomes: seq<Retry.Attempt>, ghost ended: Ended)
      requires first in hosts && Owns(before, Some(conn), first)
      modifies this
      ensures old(contextDone) ==> contextDone
      ensures old(races) <= races
      ensures if LastStrands(|old(races)|, races) then conn'.None? && StrandsOne(before, ledger)
        else Owns(before, conn', provider')
      ensures EndsCall(LastStrands(|old(races)|, races), contextDone, r)
      ensures |old(calls)| <= |calls| <= |old(calls)| + Attempts() && old(calls) <= calls
      ensures r.Ok? ==> |calls| > |old(calls)| && calls[|calls| - 1] == None
      ensures r.Err? && |calls| > |old(calls)| ==> calls[|calls| - 1].Some?
      ensures forall k :: |old(calls)| <= k < |calls| - 1 ==> calls[k].Some? && MayRepeat(calls[k].value)
      ensures StopsAt(calls[|old(calls)|..], r)
      ensures |calls| == |old(calls)| + |outcomes|
      ensures RunOfDo(RetryConfig(), outcomes, ended, r)
    {
      hide RunOfDo, Settled, Retriable, Take, Reconnects;
      conn', provider' := Some(conn), first;
      outcomes, ended := [], Never;
      var attempt := 1;
      while true
        invariant 1 <= attempt <= Attempts()
        invariant |outcomes| == attempt - 1 && forall k :: 0 <= k < |outcomes| ==> outcomes[k].Retryable?
        invariant conn'.Some? && Owns(before, conn', provider')
        invariant old(races) <= races && !LastStrands(|old(races)|, races)
        invariant old(contextDone) ==> contextDone
        invariant |calls| == |old(calls)| + attempt - 1 && old(calls) <= calls
        invariant forall k :: |old(calls)| <= k < |calls| ==> calls[k].Some? && MayRepeat(calls[k].value)
        decreases Attempts() - attempt
      {
        var done := CheckContext();
        if done {
          ended := Before;
          r := Err(Context);
          RunIsDo(RetryConfig(), outcomes, ended, r);
          return;
        }
        var a;
        a, conn', provider' := Attempt(first, conn'.value, provider', before);
        outcomes := outcomes + [a];
        if a.Success? {
          r := Ok(());
          RunIsDo(RetryConfig(), outcomes, ended, r);
          return;
        }
        if a.Unrecoverable? || attempt == Attempts() {
          r := Err(a.error);
          RunIsDo(RetryConfig(), outcomes, ended, r);
          return;
        }
        done := CheckContext(); // asleep
        if done {
          ended := Asleep;
          r := Err(Context);
          RunIsDo(RetryConfig(), outcomes, ended, r);
          return;
        }
        attempt := attempt + 1;
      }
    }

    /** One provider: run the retry loop on its connection, then return whatever connection is left. */
    method RunRound(first: Host, conn: Conn, ghost before: Ledger) returns (r: Result<(), Error>)
      requires first in hosts && Owns(before, Some(conn), first)
      modifies this
      ensures old(contextDone) ==> contextDone
      ensures old(races) <= races
      ensures Settled(before, ledger, LastStrands(|old(races)|, races))
      ensures EndsCall(LastStrands(|old(races)|, races), contextDone, r)
      ensures |old(calls)| <= |calls| <= |old(calls)| + Attempts() && old(calls) <= calls
      ensures r.Ok? ==> |calls| > |old(calls)| && calls[|calls| - 1] == None
      ensures r.Err? && |calls| > |old(calls)| ==> calls[|calls| - 1].Some?
      ensures forall k :: |old(calls)| <= k < |calls| - 1 ==> calls[k].Some? && MayRepeat(calls[k].value)
      ensures StopsAt(calls[|old(calls)|..], r)
    {
      hide MayRepeat, MayGoOn, StopsAt, RunOfDo;
      var conn', provider';
      ghost var outcomes, ended;
      r, conn', provider', outcomes, ended := RetryOn(first, conn, before);
      TakeThenGive(before, provider');
      ReturnOrRelease(conn', provider');
    }

    /** A connection from a provider not excluded, and a round on it; no provider when none could be had. */
    method Turn(excluded: set<Host>, ghost before: Ledger) returns (r: Result<(), Error>, first: Option<Host>)
      requires ledger == before
      modifies this
      ensures old(contextDone) ==> contextDone
      ensures old(races) <= races
      ensures Settled(before, ledger, LastStrands(|old(races)|, races))
      ensures EndsCall(LastStrands(|old(races)|, races), contextDone, r)
      ensures first.None? ==> r.Err? && calls == old(calls)
      ensures first.Some? ==> first.value in hosts && first.value !in excluded
      ensures |old(calls)| <= |calls| <= |old(calls)| + Attempts() && old(calls) <= calls
      ensures r.Ok? ==> |calls| > |old(calls)| && calls[|calls| - 1] == None
      ensures r.Err? && |calls| > |old(calls)| ==> calls[|calls| - 1].Some?
      ensures forall k :: |old(calls)| <= k < |calls| - 1 ==> calls[k].Some? && MayRepeat(calls[k].value)
      ensures StopsAt(calls[|old(calls)|..], r)
    {
      hide Settled, Strands, Eligible, MayRepeat, MayGoOn;
      var acquired;
      ghost var scanned;
      acquired, scanned := GetAnyAvailableConnection(excluded);
      if acquired.Err? {
        return Err(acquired.error), None;
      }
      var (conn, provider) := acquired.value;
      r := RunRound(provider, conn, before);
      first := Some(provider);
    }

    /**
     `starts` lists the providers whose connection a round began with and `rounds` counts
     the rounds, with or without a connection.
     */
    method ExecuteWithFailover() returns (r: Result<(), Error>, ghost starts: seq<Host>, ghost rounds: nat)
      modifies this
      // slot-neutral and neither fault committed, but for one slot exactly when the last race strands it
      ensures old(races) <= races
      ensures Settled(old(ledger), ledger, LastStrands(|old(races)|, races))
      ensures EndsCall(LastStrands(|old(races)|, races), contextDone, r)
      // bounded work on distinct providers
      ensures |starts| <= rounds <= |hosts| && Distinct(starts) && forall h :: h in starts ==> h in hosts
      ensures |calls| - |old(calls)| <= |starts| * Attempts()
      // the outcome is that of the operation
      ensures old(calls) <= calls
      ensures r.Ok? <==> |calls| > |old(calls)| && calls[|calls| - 1] == None
      // it is called again only after an error that may go on, and any other error is the result
      ensures forall k :: |old(calls)| <= k < |calls| - 1 ==> calls[k].Some? && MayGoOn(calls[k].value)
      ensures StopsAt(calls[|old(calls)|..], r)
      ensures hosts == [] ==> r == Err(Other)
      // and only an error that may not go on ends it before every round is used
      ensures r.Err? && rounds < |hosts| ==> !MayGoOn(r.error)
    {
      assert !MayGoOn(Context);
      hide Settled, Strands, Eligible, MayGoOn, MayRepeat;
      r := Err(Other);
      SettledAtOnce(ledger);
      var excluded: set<Host> := {};
      starts, rounds := [], 0;
      for attempts := 0 to |hosts|
        invariant rounds == attempts && |starts| <= rounds && r.Err?
        invariant attempts == 0 ==> r == Err(Other)
        invariant old(races) <= races
        invariant Settled(old(ledger), ledger, LastStrands(|old(races)|, races))
        invariant EndsCall(LastStrands(|old(races)|, races), contextDone, r)
        invariant Distinct(starts) && forall h :: h in starts ==> h in hosts && h in excluded
        invariant |calls| <= |old(calls)| + |starts| * Attempts() && old(calls) <= calls
        invariant forall k :: |old(calls)| <= k < |calls| ==> calls[k].Some? && MayGoOn(calls[k].value)
      {
        var done := CheckContext();
        if done {
          return Err(Context), starts, rounds;
        }
        NotStranded(old(ledger), ledger);
        ghost var callsBefore := calls;
        var first;
        r, first := Turn(excluded, old(ledger));
        rounds := rounds + 1;
        if first.None? {
          continue;
        }
        OneMore(|starts|, Attempts());
        starts := starts + [first.value];
        LastCallGoesOn(calls[|callsBefore|..], r);
        if r.Ok? || Fatal(r.error) {
          return r, starts, rounds;
        }
        excluded := excluded + {first.value};
      }
    }
  }

  lemma OneMore(n: nat, a: nat)
    ensures (n + 1) * a == n * a + a
  {
  }
}
