/**
 One provider pool shared by any number of goroutines, internal/nntp/client.go.
 An event is one atomic step: a channel operation on the semaphore, one critical
 section under `pp.mu`, or the outcome of a dial or a health check. A run is any
 interleaving of events; an event that is not enabled has no successor.
 */
module PoolProtocol {
  import opened Wrappers
  import Runs
  import opened ConnStack

  /** Where a goroutine stands between `pp.slots <- struct{}{}` and `<-pp.slots`. */
  datatype Phase =
    | SlotOnly              // about to lock the stack
    | Checking(entry: Entry) // popped an entry, not yet found healthy
    | Dialling              // saw the stack empty under the lock
    | Holding(conn: nat)    // connection checked out
    | Stamped(entry: Entry) // in put, timestamp read, lock not yet taken
    | Pushed                // entry on the stack, slot not yet freed
    | Closing               // connection closed or never made, slot not yet freed
  {
    predicate OwnsConn() { Checking? || Holding? || Stamped? }

    predicate UsesConn() { OwnsConn() || Dialling? }

    function Conn(): nat
      requires OwnsConn()
    {
      match this
      case Checking(e) => e.conn
      case Stamped(e) => e.conn
      case Holding(c) => c
    }
  }

  /**
   `phases` has a key for every goroutine inside the slot protocol and no other; `dialled`
   numbers the connections and `gone` holds those that have been closed.
   */
  datatype State = State(
    idle: seq<Entry>, slots: nat, phases: map<nat, Phase>, closed: bool, clock: int, dialled: nat, gone: set<nat>)
  {
    predicate In(t: nat, p: Phase) { t in phases && phases[t] == p }
  }

  datatype Config = Config(max: nat, idleTimeout: int)

  datatype Event =
    | Acquire(t: nat)   // select on the semaphore
    | Abandon(t: nat)   // slot won after the race was cancelled
    | Pop(t: nat)
    | SeeEmpty(t: nat)
    | Healthy(t: nat)
    | Unhealthy(t: nat) // expired or failed its ping: closed, loop again
    | DialOk(t: nat)
    | DialFail(t: nat)
    | Discard(t: nat)   // release, or put of a closed connection, or put after Close
    | Stamp(t: nat)
    | Push(t: nat)
    | Cap(t: nat)       // the branch of put that finds the stack full
    | Free(t: nat)      // receive from the semaphore
    | Reap
    | CloseFlag
    | CloseIdle
    | Tick

  function Start(clock: int): State { State([], 0, map[], false, clock, 0, {}) }

  function Conns(idle: seq<Entry>): set<nat> { set e | e in idle :: e.conn }

  function Fire(c: Config, s: State, ev: Event): Option<State> {
    match ev
    case Acquire(t) =>
      if t !in s.phases && s.slots < c.max
      then Some(s.(slots := s.slots + 1, phases := s.phases[t := SlotOnly])) else None
    case Abandon(t) =>
      if s.In(t, SlotOnly) then Some(s.(phases := s.phases[t := Closing])) else None
    case Pop(t) =>
      if s.In(t, SlotOnly) && s.idle != [] then
        var n := |s.idle| - 1;
        Some(s.(idle := s.idle[..n], phases := s.phases[t := Checking(s.idle[n])]))
      else None
    case SeeEmpty(t) =>
      if s.In(t, SlotOnly) && s.idle == [] then Some(s.(phases := s.phases[t := Dialling])) else None
    case Healthy(t) =>
      if t in s.phases && s.phases[t].Checking? && !Expired(s.phases[t].entry, s.clock, c.idleTimeout)
      then Some(s.(phases := s.phases[t := Holding(s.phases[t].entry.conn)])) else None
    case Unhealthy(t) =>
      if t in s.phases && s.phases[t].Checking?
      then Some(s.(phases := s.phases[t := SlotOnly], gone := s.gone + {s.phases[t].entry.conn})) else None
    case DialOk(t) =>
      if s.In(t, Dialling)
      then Some(s.(phases := s.phases[t := Holding(s.dialled)], dialled := s.dialled + 1)) else None
    case DialFail(t) =>
      if s.In(t, Dialling) then Some(s.(phases := s.phases[t := Closing])) else None
    case Discard(t) =>
      if t in s.phases && s.phases[t].Holding?
      then Some(s.(phases := s.phases[t := Closing], gone := s.gone + {s.phases[t].conn})) else None
    case Stamp(t) =>
      if t in s.phases && s.phases[t].Holding? && !s.closed
      then Some(s.(phases := s.phases[t := Stamped(Entry(s.phases[t].conn, s.clock))])) else None
    case Push(t) =>
      if t in s.phases && s.phases[t].Stamped? && |s.idle| < c.max
      then Some(s.(idle := s.idle + [s.phases[t].entry], phases := s.phases[t := Pushed])) else None
    case Cap(t) =>
      if t in s.phases && s.phases[t].Stamped? && |s.idle| >= c.max
      then Some(s.(phases := s.phases[t := Closing], gone := s.gone + {s.phases[t].entry.conn})) else None
    case Free(t) =>
      if (s.In(t, Pushed) || s.In(t, Closing)) && s.slots > 0
      then Some(s.(slots := s.slots - 1, phases := s.phases - {t})) else None
    case Reap =>
      var left := Reaped(s.idle, s.clock, c.idleTimeout);
      Some(s.(idle := left, gone := s.gone + (Conns(s.idle) - Conns(left))))
    case CloseFlag => Some(s.(closed := true))
    case CloseIdle => if s.closed then Some(s.(idle := [], gone := s.gone + Conns(s.idle))) else None
    case Tick => Some(s.(clock := s.clock + 1))
  }

  function Steps(c: Config): (State, Event) -> Option<State> { (s, ev) => Fire(c, s, ev) }

  function Run(c: Config, s: State, events: seq<Event>): Option<State> { Runs.Run(Steps(c), s, events) }

  ghost predicate Reachable(c: Config, s: State) {
    exists clock, events :: clock > 0 && Run(c, Start(clock), events) == Some(s)
  }

  // ---------------------------------------------------------------- invariant

  /** The goroutines that own a connection or are dialling one. */
  function ConnUsers(phases: map<nat, Phase>): set<nat> {
    set t | t in phases && phases[t].UsesConn()
  }

  /** Slots taken are goroutines in the protocol, and connections in use or idle fit the maximum. */
  ghost predicate Counted(max: nat, idle: seq<Entry>, slots: nat, phases: map<nat, Phase>) {
    slots == |phases| <= max && |idle| + |ConnUsers(phases)| <= max
  }

  /** No connection is on the stack twice, owned twice, or both owned and on the stack. */
  ghost predicate Exclusive(idle: seq<Entry>, phases: map<nat, Phase>) {
    && (forall i, j :: 0 <= i < j < |idle| ==> idle[i].conn != idle[j].conn)
    && (forall i, t :: 0 <= i < |idle| && t in phases && phases[t].OwnsConn() ==>
          idle[i].conn != phases[t].Conn())
    && (forall t, u :: t in phases && u in phases && t != u ==>
          phases[t].OwnsConn() && phases[u].OwnsConn() ==> phases[t].Conn() != phases[u].Conn())
  }

  ghost predicate DialledBefore(idle: seq<Entry>, phases: map<nat, Phase>, dialled: nat) {
    && (forall i :: 0 <= i < |idle| ==> idle[i].conn < dialled)
    && (forall t :: t in phases && phases[t].OwnsConn() ==> phases[t].Conn() < dialled)
  }

  ghost predicate Inv(c: Config, s: State) {
    && Counted(c.max, s.idle, s.slots, s.phases)
    && Exclusive(s.idle, s.phases)
    && DialledBefore(s.idle, s.phases, s.dialled)
  }

  lemma UsersAfter(phases: map<nat, Phase>, t: nat, p: Phase)
    ensures |ConnUsers(phases[t := p])| ==
      |ConnUsers(phases) - {t}| + (if p.UsesConn() then 1 else 0)
  {
    var after := ConnUsers(phases[t := p]);
    if p.UsesConn() {
      assert after == (ConnUsers(phases) - {t}) + {t};
    } else {
      assert after == ConnUsers(phases) - {t};
    }
  }

  lemma {:induction false} SubsetSize(a: set<nat>, b: set<nat>)
    requires a <= b
    ensures |a| <= |b|
    ensures a < b ==> |a| < |b|
  {
    if a != {} {
      var x :| x in a;
      SubsetSize(a - {x}, b - {x});
    }
  }

  /** One goroutine moves on; a use of a connection appears only while another disappears or none is idle. */
  lemma MoveKeepsCount(max: nat, idle: seq<Entry>, slots: nat, phases: map<nat, Phase>, t: nat, p: Phase, idle': seq<Entry>)
    requires Counted(max, idle, slots, phases) && t in phases
    requires
      || |idle'| + (if p.UsesConn() then 1 else 0) <= |idle| + (if phases[t].UsesConn() then 1 else 0)
      || (idle == idle' == [] && !phases[t].UsesConn())
    ensures Counted(max, idle', slots, phases[t := p])
  {
    UsersAfter(phases, t, p);
    assert phases[t := p].Keys == phases.Keys;
    if t !in ConnUsers(phases) {
      assert ConnUsers(phases) - {t} == ConnUsers(phases);
      assert ConnUsers(phases) < phases.Keys;
      SubsetSize(ConnUsers(phases), phases.Keys);
    }
  }

  /** One goroutine moves on; what it owns afterwards it owned before, or took off the stack, or just dialled. */
  lemma MoveKeepsOwner(idle: seq<Entry>, phases: map<nat, Phase>, dialled: nat, t: nat, p: Phase, idle': seq<Entry>, dialled': nat)
    requires Exclusive(idle, phases) && DialledBefore(idle, phases, dialled) && t in phases
    requires idle' <= idle && dialled <= dialled'
    requires p.OwnsConn() ==>
      || (phases[t].OwnsConn() && p.Conn() == phases[t].Conn())
      || dialled <= p.Conn() < dialled'
      || (|idle'| < |idle| && p.Conn() == idle[|idle'|].conn)
    ensures Exclusive(idle', phases[t := p]) && DialledBefore(idle', phases[t := p], dialled')
  {
  }

  lemma PushKeepsOwner(idle: seq<Entry>, phases: map<nat, Phase>, dialled: nat, t: nat)
    requires Exclusive(idle, phases) && DialledBefore(idle, phases, dialled)
    requires t in phases && phases[t].Stamped?
    ensures Exclusive(idle + [phases[t].entry], phases[t := Pushed])
    ensures DialledBefore(idle + [phases[t].entry], phases[t := Pushed], dialled)
  {
    assert phases[t].Conn() == phases[t].entry.conn;
  }

  lemma MoveKeepsInv(c: Config, s: State, t: nat, p: Phase, dialled: nat)
    requires Inv(c, s) && t in s.phases && s.dialled <= dialled
    requires p.OwnsConn() ==>
      || (s.phases[t].OwnsConn() && p.Conn() == s.phases[t].Conn())
      || s.dialled <= p.Conn() < dialled
    requires p.UsesConn() ==> s.phases[t].UsesConn() || s.idle == []
    ensures Inv(c, s.(phases := s.phases[t := p], dialled := dialled))
  {
    MoveKeepsCount(c.max, s.idle, s.slots, s.phases, t, p, s.idle);
    MoveKeepsOwner(s.idle, s.phases, s.dialled, t, p, s.idle, dialled);
  }

  lemma PopKeepsInv(c: Config, s: State, t: nat)
    requires Inv(c, s) && s.In(t, SlotOnly) && s.idle != []
    ensures var n := |s.idle| - 1;
      Inv(c, s.(idle := s.idle[..n], phases := s.phases[t := Checking(s.idle[n])]))
  {
    var n := |s.idle| - 1;
    MoveKeepsCount(c.max, s.idle, s.slots, s.phases, t, Checking(s.idle[n]), s.idle[..n]);
    MoveKeepsOwner(s.idle, s.phases, s.dialled, t, Checking(s.idle[n]), s.idle[..n], s.dialled);
  }

  lemma PushKeepsInv(c: Config, s: State, t: nat)
    requires Inv(c, s) && t in s.phases && s.phases[t].Stamped?
    ensures Inv(c, s.(idle := s.idle + [s.phases[t].entry], phases := s.phases[t := Pushed]))
  {
    MoveKeepsCount(c.max, s.idle, s.slots, s.phases, t, Pushed, s.idle + [s.phases[t].entry]);
    PushKeepsOwner(s.idle, s.phases, s.dialled, t);
  }

  lemma EnterKeepsOwner(idle: seq<Entry>, phases: map<nat, Phase>, dialled: nat, t: nat)
    requires Exclusive(idle, phases) && DialledBefore(idle, phases, dialled) && t !in phases
    ensures Exclusive(idle, phases[t := SlotOnly]) && DialledBefore(idle, phases[t := SlotOnly], dialled)
  {
  }

  lemma EnterKeepsCount(max: nat, idle: seq<Entry>, slots: nat, phases: map<nat, Phase>, t: nat)
    requires Counted(max, idle, slots, phases) && t !in phases && slots < max
    ensures Counted(max, idle, slots + 1, phases[t := SlotOnly])
  {
    assert ConnUsers(phases[t := SlotOnly]) == ConnUsers(phases);
    assert phases[t := SlotOnly].Keys == phases.Keys + {t};
  }

  lemma EnterKeepsInv(c: Config, s: State, t: nat)
    requires Inv(c, s) && t !in s.phases && s.slots < c.max
    ensures Inv(c, s.(slots := s.slots + 1, phases := s.phases[t := SlotOnly]))
  {
    hide Counted, Exclusive, DialledBefore;
    EnterKeepsOwner(s.idle, s.phases, s.dialled, t);
    EnterKeepsCount(c.max, s.idle, s.slots, s.phases, t);
  }

  lemma LeaveKeepsInv(c: Config, s: State, t: nat)
    requires Inv(c, s) && (s.In(t, Pushed) || s.In(t, Closing))
    ensures s.slots > 0
    ensures Inv(c, s.(slots := s.slots - 1, phases := s.phases - {t}))
  {
    var phases := s.phases - {t};
    assert ConnUsers(phases) == ConnUsers(s.phases);
    assert t in s.phases.Keys && phases.Keys == s.phases.Keys - {t};
    assert Exclusive(s.idle, phases);
  }

  lemma ReapKeepsInv(c: Config, s: State)
    requires Inv(c, s)
    ensures Inv(c, s.(idle := Reaped(s.idle, s.clock, c.idleTimeout)))
  {
    var k := ReapedIsSuffix(s.idle, s.clock, c.idleTimeout);
  }

  lemma ClearKeepsInv(c: Config, s: State)
    requires Inv(c, s)
    ensures Inv(c, s.(idle := []))
  {
  }

  lemma FireKeepsInv(c: Config, s: State, ev: Event)
    requires Inv(c, s) && Fire(c, s, ev).Some?
    ensures Inv(c, Fire(c, s, ev).value)
  {
    hide Counted, Exclusive, DialledBefore, Reaped;
    match ev
    case Pop(t) => PopKeepsInv(c, s, t);
    case Push(t) => PushKeepsInv(c, s, t);
    case Acquire(t) => EnterKeepsInv(c, s, t);
    case Free(t) => LeaveKeepsInv(c, s, t);
    case Reap => ReapKeepsInv(c, s);
    case CloseFlag =>
    case CloseIdle => ClearKeepsInv(c, s);
    case Tick =>
    case DialOk(t) => MoveKeepsInv(c, s, t, Holding(s.dialled), s.dialled + 1);
    case Abandon(t) => MoveKeepsInv(c, s, t, Closing, s.dialled);
    case SeeEmpty(t) => MoveKeepsInv(c, s, t, Dialling, s.dialled);
    case Healthy(t) => MoveKeepsInv(c, s, t, Holding(s.phases[t].entry.conn), s.dialled);
    case Unhealthy(t) => MoveKeepsInv(c, s, t, SlotOnly, s.dialled);
    case DialFail(t) => MoveKeepsInv(c, s, t, Closing, s.dialled);
    case Discard(t) => MoveKeepsInv(c, s, t, Closing, s.dialled);
    case Stamp(t) => MoveKeepsInv(c, s, t, Stamped(Entry(s.phases[t].conn, s.clock)), s.dialled);
    case Cap(t) => MoveKeepsInv(c, s, t, Closing, s.dialled);
  }

  lemma {:induction false} RunKeepsInv(c: Config, s: State, events: seq<Event>)
    requires Inv(c, s) && Run(c, s, events).Some?
    ensures Inv(c, Run(c, s, events).value)
    decreases |events|
  {
    if events != [] {
      FireKeepsInv(c, s, events[0]);
      RunKeepsInv(c, Fire(c, s, events[0]).value, events[1..]);
    }
  }

  lemma ReachableInv(c: Config, s: State)
    requires Reachable(c, s)
    ensures Inv(c, s)
  {
    var clock, events :| clock > 0 && Run(c, Start(clock), events) == Some(s);
    assert ConnUsers(Start(clock).phases) == {};
    RunKeepsInv(c, Start(clock), events);
  }

  // ----------------------------------------------------------------- theorems

  /** Idle connections plus those held or being dialled never exceed the provider's maximum. */
  lemma PoolBound(c: Config, s: State)
    requires Reachable(c, s)
    ensures |s.idle| + |ConnUsers(s.phases)| <= c.max
    ensures s.slots == |s.phases| <= c.max
  {
    ReachableInv(c, s);
  }

  /** The branch of put that finds the stack full is never taken. */
  lemma CapUnreachable(c: Config, s: State, t: nat)
    requires Reachable(c, s)
    ensures Fire(c, s, Cap(t)) == None
  {
    ReachableInv(c, s);
    if t in s.phases && s.phases[t].Stamped? {
      assert t in ConnUsers(s.phases);
      assert |ConnUsers(s.phases)| >= 1;
    }
  }

  /** No two goroutines ever use one connection, and none uses one that is on the stack. */
  lemma ConnectionsAreExclusive(c: Config, s: State)
    requires Reachable(c, s)
    ensures Exclusive(s.idle, s.phases)
  {
    ReachableInv(c, s);
  }

  /** A pooled connection is handed out only within the idle timeout of its last use. */
  lemma ReusedIsFresh(c: Config, s: State, t: nat)
    requires Fire(c, s, Healthy(t)).Some?
    ensures t in s.phases && s.phases[t].Checking?
    ensures var last := s.phases[t].entry.lastUsed; last == 0 || s.clock - last <= c.idleTimeout
    ensures Fire(c, s, Healthy(t)).value.In(t, Holding(s.phases[t].entry.conn))
  {}

  /** In an open pool an idle connection stays on the stack until a goroutine takes it or it has expired. */
  lemma IdleStays(c: Config, s: State, ev: Event, e: Entry)
    requires !s.closed && Fire(c, s, ev).Some? && e in s.idle
    ensures var s' := Fire(c, s, ev).value;
      || e in s'.idle
      || (ev.Pop? && s'.In(ev.t, Checking(e)))
      || (ev.Reap? && e.lastUsed != 0 && s.clock - e.lastUsed > c.idleTimeout)
  {
    if ev.Reap? {
      var k := ReapedIsSuffix(s.idle, s.clock, c.idleTimeout);
      assert s.idle == s.idle[..k] + s.idle[k..];
    } else if ev.Pop? {
      var n := |s.idle| - 1;
      assert s.idle == s.idle[..n] + [s.idle[n]];
    }
  }

  /** Giving a slot back never blocks, and does not need another goroutine's help. */
  lemma FreeNeverBlocks(c: Config, s: State, t: nat)
    requires Reachable(c, s) && (s.In(t, Pushed) || s.In(t, Closing))
    ensures Fire(c, s, Free(t)).Some?
  {
    ReachableInv(c, s);
    assert t in s.phases.Keys;
  }

  /** Once every goroutine has left the protocol no slot is missing. */
  lemma NoSlotLeaks(c: Config, s: State)
    requires Reachable(c, s)
    ensures s.slots == 0 <==> s.phases == map[]
  {
    ReachableInv(c, s);
    assert s.phases == map[] <==> s.phases.Keys == {};
  }

  // ----------------------------------------------------------- where connections go

  /** The connections some goroutine has checked out. */
  function Owned(phases: map<nat, Phase>): set<nat> { set t | t in phases && phases[t].OwnsConn() :: phases[t].Conn() }

  /** Every connection ever dialled is on the stack, checked out or closed, and no closed one is either of the others. */
  ghost predicate Accounted(idle: seq<Entry>, phases: map<nat, Phase>, dialled: nat, gone: set<nat>) {
    && (forall n: nat :: n < dialled <==> n in Conns(idle) || n in Owned(phases) || n in gone)
    && gone !! Conns(idle) && gone !! Owned(phases)
  }

  lemma OwnedAfter(idle: seq<Entry>, phases: map<nat, Phase>, t: nat, p: Phase)
    requires Exclusive(idle, phases) && t in phases
    ensures Owned(phases[t := p]) ==
      (Owned(phases) - (if phases[t].OwnsConn() then {phases[t].Conn()} else {}))
      + (if p.OwnsConn() then {p.Conn()} else {})
  {
    var before, after := Owned(phases), Owned(phases[t := p]);
    forall n | n in before && !(phases[t].OwnsConn() && n == phases[t].Conn()) ensures n in after {
      var u :| u in phases && phases[u].OwnsConn() && phases[u].Conn() == n;
      assert phases[t := p][u] == phases[u];
    }
    forall n | n in after && !(p.OwnsConn() && n == p.Conn())
      ensures n in before && !(phases[t].OwnsConn() && n == phases[t].Conn())
    {
      var u :| u in phases[t := p] && phases[t := p][u].OwnsConn() && phases[t := p][u].Conn() == n;
      assert phases[u] == phases[t := p][u];
    }
    if p.OwnsConn() { assert phases[t := p][t] == p; }
  }

  lemma ConnsAppend(idle: seq<Entry>, e: Entry)
    ensures Conns(idle + [e]) == Conns(idle) + {e.conn}
  {
    assert e in idle + [e];
    forall x | x in idle ensures x in idle + [e] {}
  }

  /** A goroutine that neither gains nor loses a connection. */
  lemma SameOwner(s: State, t: nat, p: Phase)
    requires Exclusive(s.idle, s.phases) && Accounted(s.idle, s.phases, s.dialled, s.gone) && t in s.phases
    requires p.OwnsConn() == s.phases[t].OwnsConn() && (p.OwnsConn() ==> p.Conn() == s.phases[t].Conn())
    ensures Accounted(s.idle, s.phases[t := p], s.dialled, s.gone)
  {
    OwnedAfter(s.idle, s.phases, t, p);
    assert Owned(s.phases[t := p]) == Owned(s.phases);
  }

  /** A goroutine closes its connection. */
  lemma OwnerCloses(s: State, t: nat, p: Phase)
    requires Exclusive(s.idle, s.phases) && Accounted(s.idle, s.phases, s.dialled, s.gone) && t in s.phases
    requires s.phases[t].OwnsConn() && !p.OwnsConn()
    ensures Accounted(s.idle, s.phases[t := p], s.dialled, s.gone + {s.phases[t].Conn()})
  {
    OwnedAfter(s.idle, s.phases, t, p);
    assert s.phases[t].Conn() in Owned(s.phases);
    NotIdle(s, t);
  }

  lemma NotIdle(s: State, t: nat)
    requires Exclusive(s.idle, s.phases) && t in s.phases && s.phases[t].OwnsConn()
    ensures s.phases[t].Conn() !in Conns(s.idle)
  {}

  lemma OwnerPushes(s: State, t: nat)
    requires Exclusive(s.idle, s.phases) && Accounted(s.idle, s.phases, s.dialled, s.gone) && t in s.phases
    requires s.phases[t].Stamped?
    ensures Accounted(s.idle + [s.phases[t].entry], s.phases[t := Pushed], s.dialled, s.gone)
  {
    OwnedAfter(s.idle, s.phases, t, Pushed);
    ConnsAppend(s.idle, s.phases[t].entry);
    assert s.phases[t].Conn() in Owned(s.phases);
  }

  lemma TopIsTaken(s: State, t: nat)
    requires Exclusive(s.idle, s.phases) && Accounted(s.idle, s.phases, s.dialled, s.gone) && s.In(t, SlotOnly)
    requires s.idle != []
    ensures var n := |s.idle| - 1;
      Accounted(s.idle[..n], s.phases[t := Checking(s.idle[n])], s.dialled, s.gone)
  {
    var n := |s.idle| - 1;
    OwnedAfter(s.idle, s.phases, t, Checking(s.idle[n]));
    assert s.idle == s.idle[..n] + [s.idle[n]];
    ConnsAppend(s.idle[..n], s.idle[n]);
  }

  lemma OneIsDialled(s: State, t: nat)
    requires Exclusive(s.idle, s.phases) && Accounted(s.idle, s.phases, s.dialled, s.gone) && s.In(t, Dialling)
    ensures Accounted(s.idle, s.phases[t := Holding(s.dialled)], s.dialled + 1, s.gone)
  {
    OwnedAfter(s.idle, s.phases, t, Holding(s.dialled));
  }

  lemma SomeAreClosed(s: State, left: seq<Entry>)
    requires Accounted(s.idle, s.phases, s.dialled, s.gone) && forall e :: e in left ==> e in s.idle
    requires Exclusive(s.idle, s.phases)
    ensures Accounted(left, s.phases, s.dialled, s.gone + (Conns(s.idle) - Conns(left)))
  {
    forall t | t in s.phases && s.phases[t].OwnsConn() ensures s.phases[t].Conn() !in Conns(s.idle) { NotIdle(s, t); }
  }

  lemma OwnedOutside(phases: map<nat, Phase>, t: nat, p: Phase)
    requires !p.OwnsConn()
    ensures t !in phases ==> Owned(phases[t := p]) == Owned(phases)
    ensures t in phases && !phases[t].OwnsConn() ==> Owned(phases - {t}) == Owned(phases)
  {
    if t !in phases {
      forall u | u in phases ensures phases[t := p][u] == phases[u] {}
    }
    if t in phases && !phases[t].OwnsConn() {
      forall u | u in phases && u != t ensures u in phases - {t} && (phases - {t})[u] == phases[u] {}
    }
  }

  lemma FireKeepsAccounts(c: Config, s: State, ev: Event)
    requires Exclusive(s.idle, s.phases) && Accounted(s.idle, s.phases, s.dialled, s.gone) && Fire(c, s, ev).Some?
    ensures var s' := Fire(c, s, ev).value; Accounted(s'.idle, s'.phases, s'.dialled, s'.gone)
  {
    match ev
    case Reap =>
      var k := ReapedIsSuffix(s.idle, s.clock, c.idleTimeout);
      SomeAreClosed(s, s.idle[k..]);
    case CloseIdle =>
      SomeAreClosed(s, []);
      assert Conns([]) == {} && Conns(s.idle) - {} == Conns(s.idle);
    case CloseFlag =>
    case Tick =>
    case _ => StepKeepsAccounts(c, s, ev);
  }

  lemma StepKeepsAccounts(c: Config, s: State, ev: Event)
    requires Exclusive(s.idle, s.phases) && Accounted(s.idle, s.phases, s.dialled, s.gone) && Fire(c, s, ev).Some?
    requires !ev.Reap? && !ev.CloseIdle? && !ev.CloseFlag? && !ev.Tick?
    ensures var s' := Fire(c, s, ev).value; Accounted(s'.idle, s'.phases, s'.dialled, s'.gone)
  {
    hide Conns;
    match ev
    case Acquire(t) => OwnedOutside(s.phases, t, SlotOnly);
    case Free(t) => OwnedOutside(s.phases, t, Closing);
    case Pop(t) => TopIsTaken(s, t);
    case Push(t) => OwnerPushes(s, t);
    case DialOk(t) => OneIsDialled(s, t);
    case Unhealthy(t) => OwnerCloses(s, t, SlotOnly);
    case Discard(t) => OwnerCloses(s, t, Closing);
    case Cap(t) => OwnerCloses(s, t, Closing);
    case Healthy(t) => SameOwner(s, t, Holding(s.phases[t].entry.conn));
    case Stamp(t) => SameOwner(s, t, Stamped(Entry(s.phases[t].conn, s.clock)));
    case SeeEmpty(t) => SameOwner(s, t, Dialling);
    case DialFail(t) => SameOwner(s, t, Closing);
    case Abandon(t) => SameOwner(s, t, Closing);
    case _ =>
  }

  lemma {:induction false} RunKeepsAccounts(c: Config, s: State, events: seq<Event>)
    requires Inv(c, s) && Accounted(s.idle, s.phases, s.dialled, s.gone) && Run(c, s, events).Some?
    ensures var s' := Run(c, s, events).value; Accounted(s'.idle, s'.phases, s'.dialled, s'.gone)
    decreases |events|
  {
    if events != [] {
      FireKeepsInv(c, s, events[0]);
      FireKeepsAccounts(c, s, events[0]);
      RunKeepsAccounts(c, Fire(c, s, events[0]).value, events[1..]);
    }
  }

  /** No connection is lost: each one dialled is idle, checked out or closed, and a closed one is never used again. */
  lemma NoConnectionLost(c: Config, s: State)
    requires Reachable(c, s)
    ensures Accounted(s.idle, s.phases, s.dialled, s.gone)
  {
    var clock, events :| clock > 0 && Run(c, Start(clock), events) == Some(s);
    assert ConnUsers(Start(clock).phases) == {};
    RunKeepsAccounts(c, Start(clock), events);
  }

  /** Steps of goroutine t that use up its stay inside the protocol. */
  function OwnSteps(t: nat): set<Event> {
    {SeeEmpty(t), Pop(t), Unhealthy(t), DialOk(t), Discard(t), Push(t), Free(t)}
  }

  /** Every goroutine inside can always take a step of its own. */
  lemma NobodyWaits(c: Config, s: State, t: nat)
    requires Reachable(c, s) && t in s.phases
    ensures exists ev :: Fire(c, s, ev).Some? && ev in OwnSteps(t)
  {
    ReachableInv(c, s);
    if s.phases[t].Stamped? { assert t in ConnUsers(s.phases); }
    var ev := match s.phases[t]
      case SlotOnly => if s.idle == [] then SeeEmpty(t) else Pop(t)
      case Checking(_) => Unhealthy(t)
      case Dialling => DialOk(t)
      case Holding(_) => Discard(t)
      case Stamped(_) => Push(t)
      case Pushed => Free(t)
      case Closing => Free(t);
    if s.phases[t].Pushed? || s.phases[t].Closing? { FreeNeverBlocks(c, s, t); }
    assert Fire(c, s, ev).Some?;
  }

  // ------------------------------------------------------------------ after Close

  /** The goroutines that have passed the closed check of put and not yet pushed. */
  function Putting(phases: map<nat, Phase>): set<nat> { set t | t in phases && phases[t].Stamped? }

  lemma PuttingAfter(phases: map<nat, Phase>, t: nat, p: Phase)
    requires !p.Stamped?
    ensures Putting(phases[t := p]) == Putting(phases) - {t}
    ensures Putting(phases - {t}) == Putting(phases) - {t}
    ensures |Putting(phases) - {t}| == |Putting(phases)| - if t in phases && phases[t].Stamped? then 1 else 0
  {}

  /** After Close, what is or can still get on the stack never grows. */
  lemma ClosedOnlyDrains(c: Config, s: State, ev: Event)
    requires s.closed && Fire(c, s, ev).Some?
    ensures var s' := Fire(c, s, ev).value;
      s'.closed && |s'.idle| + |Putting(s'.phases)| <= |s.idle| + |Putting(s.phases)|
  {
    hide Putting;
    var s' := Fire(c, s, ev).value;
    match ev
    case Reap => var k := ReapedIsSuffix(s.idle, s.clock, c.idleTimeout);
    case CloseFlag =>
    case CloseIdle =>
    case Tick =>
    case Stamp(_) =>
    case Free(t) => PuttingAfter(s.phases, t, Closing);
    case _ => PuttingAfter(s.phases, ev.t, s'.phases[ev.t]);
  }

  /** Once closed and cleared with nobody in put, the pool keeps no idle connection ever again. */
  lemma {:induction false} ClosedStaysEmpty(c: Config, s: State, events: seq<Event>)
    requires s.closed && s.idle == [] && Putting(s.phases) == {} && Run(c, s, events).Some?
    ensures var s' := Run(c, s, events).value; s'.closed && s'.idle == [] && Putting(s'.phases) == {}
    decreases |events|
  {
    if events != [] {
      ClosedOnlyDrains(c, s, events[0]);
      ClosedStaysEmpty(c, Fire(c, s, events[0]).value, events[1..]);
    }
  }

  /** Close with nobody in put: whatever the goroutines still do, nothing is left on the stack. */
  lemma CloseLeavesNothing(c: Config, s: State, events: seq<Event>)
    requires Putting(s.phases) == {} && Run(c, s, [CloseFlag, CloseIdle] + events).Some?
    ensures Run(c, s, [CloseFlag, CloseIdle]) == Some(s.(closed := true, idle := [], gone := s.gone + Conns(s.idle)))
    ensures var s' := Run(c, s, [CloseFlag, CloseIdle] + events).value; s'.closed && s'.idle == []
  {
    var s1, s2 := s.(closed := true), s.(closed := true, idle := [], gone := s.gone + Conns(s.idle));
    assert Fire(c, s, CloseFlag) == Some(s1) && Fire(c, s1, CloseIdle) == Some(s2);
    Runs.RunAlong(Steps(c), [s, s1, s2], [CloseFlag, CloseIdle]);
    Runs.RunSplit(Steps(c), s, [CloseFlag, CloseIdle], events);
    ClosedStaysEmpty(c, s2, events);
  }

  // ------------------------------------------------------- age order of the stack

  /** Each push follows its own timestamp with nothing in between. */
  ghost predicate AtomicPut(events: seq<Event>) {
    forall i :: 0 <= i < |events| && events[i].Push? ==> i > 0 && events[i - 1] == Stamp(events[i].t)
  }

  /** The goroutine's stamp is not older than the top of the stack. */
  ghost predicate InOrder(s: State, t: nat) {
    && t in s.phases && s.phases[t].Stamped?
    && (s.idle == [] || s.idle[|s.idle| - 1].lastUsed <= s.phases[t].entry.lastUsed)
  }

  /** No clock shows the zero time, so no goroutine carries it as a stamp. */
  ghost predicate Dated(s: State) {
    s.clock > 0 && forall t :: t in s.phases && s.phases[t].Stamped? ==> s.phases[t].entry.lastUsed != 0
  }

  lemma StartIsDated(clock: int)
    requires clock > 0
    ensures Dated(Start(clock)) && ByAge(Start(clock).idle)
  {}

  lemma DatedAfter(c: Config, s: State, ev: Event)
    requires Dated(s) && Fire(c, s, ev).Some?
    ensures Dated(Fire(c, s, ev).value)
  {}

  /** One step keeps the order unless it is a push, and then exactly when that push is in order. */
  lemma OrderAfter(c: Config, s: State, ev: Event)
    requires Dated(s) && ByAge(s.idle) && Fire(c, s, ev).Some?
    ensures ByAge(Fire(c, s, ev).value.idle) <==> (ev.Push? ==> InOrder(s, ev.t))
  {
    match ev
    case Push(t) => PushByAgeIff(s.idle, s.phases[t].entry);
    case Reap => ReapExactByAge(s.idle, s.clock, c.idleTimeout);
    case _ => IdleOtherwise(c, s, ev);
  }

  lemma {:induction false} OrderedUpTo(c: Config, states: seq<State>, events: seq<Event>, i: nat)
    requires |states| == |events| + 1 && i < |states| && Dated(states[0]) && ByAge(states[0].idle)
    requires forall k :: 0 <= k < |events| ==> Steps(c)(states[k], events[k]) == Some(states[k + 1])
    ensures Dated(states[i])
    ensures (forall k :: 0 <= k < i && events[k].Push? ==> InOrder(states[k], events[k].t)) ==> ByAge(states[i].idle)
  {
    if i > 0 {
      OrderedUpTo(c, states, events, i - 1);
      assert Fire(c, states[i - 1], events[i - 1]) == Some(states[i]);
      hide Fire, Steps, Dated, ByAge, InOrder;
      DatedAfter(c, states[i - 1], events[i - 1]);
      if ByAge(states[i - 1].idle) { OrderAfter(c, states[i - 1], events[i - 1]); }
    }
  }

  /**
   Over any run the stack is ordered by age in every state if and only if every push finds
   an empty stack or a top that is not newer than its own stamp.
   */
  lemma OrderedIff(c: Config, s: State, events: seq<Event>)
    requires Dated(s) && ByAge(s.idle) && Run(c, s, events).Some?
    ensures var states := Runs.States(Steps(c), s, events);
      (forall i :: 0 <= i < |states| ==> ByAge(states[i].idle))
      <==> forall i :: 0 <= i < |events| && events[i].Push? ==> InOrder(states[i], events[i].t)
  {
    var states := Runs.States(Steps(c), s, events);
    forall i | 0 <= i < |states| ensures Dated(states[i]) { OrderedUpTo(c, states, events, i); }
    if forall i :: 0 <= i < |events| && events[i].Push? ==> InOrder(states[i], events[i].t) {
      forall i | 0 <= i < |states| ensures ByAge(states[i].idle) { OrderedUpTo(c, states, events, i); }
    }
    if forall i :: 0 <= i < |states| ==> ByAge(states[i].idle) {
      forall i | 0 <= i < |events| && events[i].Push? ensures InOrder(states[i], events[i].t) {
        assert ByAge(states[i].idle) && Fire(c, states[i], events[i]) == Some(states[i + 1]);
        assert ByAge(states[i + 1].idle);
        OrderAfter(c, states[i], events[i]);
      }
    }
  }
  /** Nothing on the stack is newer than the clock. */
  ghost predicate TopPast(s: State) { s.idle != [] ==> s.idle[|s.idle| - 1].lastUsed <= s.clock }

  /** The top stays behind the clock, unless a stamp is pushed that is ahead of it. */
  lemma TopPastAfter(c: Config, s: State, ev: Event)
    requires ByAge(s.idle) && TopPast(s) && Fire(c, s, ev).Some?
    requires ev.Push? ==> s.phases[ev.t].entry.lastUsed <= s.clock
    ensures TopPast(Fire(c, s, ev).value)
  {
    hide Conns, Expired;
    if ev.Reap? {
      var k := ReapedIsSuffix(s.idle, s.clock, c.idleTimeout);
    } else if !ev.Push? {
      IdleOtherwise(c, s, ev);
      hide Fire, ByAge;
      if s.idle != [] && Fire(c, s, ev).value.idle == s.idle[..|s.idle| - 1] { TopPastBelow(s); }
    }
  }

  /** What lies below the top is not newer. */
  lemma TopPastBelow(s: State)
    requires ByAge(s.idle) && TopPast(s) && s.idle != []
    ensures |s.idle| > 1 ==> s.idle[|s.idle| - 2].lastUsed <= s.clock
  {}

  lemma IdleOtherwise(c: Config, s: State, ev: Event)
    requires Fire(c, s, ev).Some? && !ev.Push? && !ev.Reap?
    ensures var s' := Fire(c, s, ev).value;
      (s'.idle == s.idle || s'.idle == [] || (s.idle != [] && s'.idle == s.idle[..|s.idle| - 1])) && s'.clock >= s.clock
  {
  }

  /** The stamp that was just read is the clock's. */
  lemma JustStamped(c: Config, s: State, t: nat)
    requires Fire(c, s, Stamp(t)).Some?
    ensures var s' := Fire(c, s, Stamp(t)).value;
      s'.In(t, Stamped(Entry(s.phases[t].conn, s.clock))) && s'.clock == s.clock
  {}

  /** When timestamp and push are one step, every run keeps the stack ordered by age. */
  lemma {:induction false} AtomicPutKeepsAge(c: Config, clock: int, events: seq<Event>)
    requires clock > 0 && AtomicPut(events) && Run(c, Start(clock), events).Some?
    ensures var s := Run(c, Start(clock), events).value; Dated(s) && ByAge(s.idle) && TopPast(s)
    decreases |events|
  {
    if events != [] {
      var n := |events| - 1;
      var init, ev := events[..n], events[n];
      assert events == init + [ev];
      Runs.RunThen(Steps(c), Start(clock), init, ev);
      AtomicPutKeepsAge(c, clock, init);
      var s := Run(c, Start(clock), init).value;
      if ev.Push? {
        assert init == events[..n - 1] + [Stamp(ev.t)];
        Runs.RunThen(Steps(c), Start(clock), events[..n - 1], Stamp(ev.t));
        JustStamped(c, Run(c, Start(clock), events[..n - 1]).value, ev.t);
      }
      hide Fire, Dated, ByAge;
      DatedAfter(c, s, ev);
      OrderAfter(c, s, ev);
      TopPastAfter(c, s, ev);
    }
  }

  /** A goroutine takes a slot, sees the stack empty and dials. */
  lemma DialOne(c: Config, s0: State, t: nat) returns (events: seq<Event>, s: State)
    requires t !in s0.phases && s0.slots < c.max && s0.idle == []
    ensures Run(c, s0, events) == Some(s)
    ensures s == s0.(slots := s0.slots + 1, phases := s0.phases[t := Holding(s0.dialled)], dialled := s0.dialled + 1)
  {
    events := [Acquire(t), SeeEmpty(t), DialOk(t)];
    var s1 := s0.(slots := s0.slots + 1, phases := s0.phases[t := SlotOnly]);
    var s2 := s1.(phases := s1.phases[t := Dialling]);
    s := s2.(phases := s2.phases[t := Holding(s2.dialled)], dialled := s2.dialled + 1);
    assert Fire(c, s0, Acquire(t)) == Some(s1) && Fire(c, s1, SeeEmpty(t)) == Some(s2);
    assert Fire(c, s2, DialOk(t)) == Some(s);
    Runs.RunAlong(Steps(c), [s0, s1, s2, s], events);
    assert s.phases == s0.phases[t := Holding(s0.dialled)];
  }

  /** Two goroutines each dial a connection. */
  lemma TwoDial(c: Config) returns (events: seq<Event>, s: State)
    requires c.max == 2
    ensures Run(c, Start(1), events) == Some(s)
    ensures s.idle == [] && s.clock == 1 && !s.closed && s.In(0, Holding(0)) && s.In(1, Holding(1))
  {
    var one, s1 := DialOne(c, Start(1), 0);
    var two;
    two, s := DialOne(c, s1, 1);
    Runs.RunSplit(Steps(c), Start(1), one, two);
    events := one + two;
  }

  /** The first to stamp is the last to push. */
  lemma PushInReverse(c: Config, s0: State) returns (events: seq<Event>, s: State)
    requires c.max == 2
    requires s0.idle == [] && s0.clock == 1 && !s0.closed && s0.In(0, Holding(0)) && s0.In(1, Holding(1))
    ensures Run(c, s0, events) == Some(s) && s.idle == [Entry(1, 2), Entry(0, 1)]
  {
    var e0, e1 := Entry(0, 1), Entry(1, 2);
    events := [Stamp(0), Tick, Stamp(1), Push(1), Push(0)];
    var s1 := s0.(phases := s0.phases[0 := Stamped(e0)]);
    var s2 := s1.(clock := 2);
    var s3 := s2.(phases := s2.phases[1 := Stamped(e1)]);
    var s4 := s3.(idle := s3.idle + [e1], phases := s3.phases[1 := Pushed]);
    s := s4.(idle := s4.idle + [e0], phases := s4.phases[0 := Pushed]);
    assert Fire(c, s0, Stamp(0)) == Some(s1) && Fire(c, s1, Tick) == Some(s2);
    assert Fire(c, s2, Stamp(1)) == Some(s3) && Fire(c, s3, Push(1)) == Some(s4);
    assert Fire(c, s4, Push(0)) == Some(s);
    Runs.RunAlong(Steps(c), [s0, s1, s2, s3, s4, s], events);
  }

  /**
   The code stamps before it locks, and then the order can break: two goroutines put,
   the one that stamped first pushes last, and the reaper leaves an expired entry.
   */
  lemma LateLockBreaksAge() returns (c: Config, s: State, now: int)
    ensures Reachable(c, s)
    ensures !ByAge(s.idle)
    ensures Reaped(s.idle, now, c.idleTimeout) != Live(s.idle, now, c.idleTimeout)
  {
    c, now := Config(2, 5), 7;
    var open, s0 := TwoDial(c);
    var close, s1 := PushInReverse(c, s0);
    s := s1;
    Runs.RunSplit(Steps(c), Start(1), open, close);
    assert Run(c, Start(1), open + close) == Some(s);
    var e0, e1 := Entry(0, 1), Entry(1, 2);
    assert !Expired(e1, 7, 5) && Expired(e0, 7, 5) && s.idle[0] == e1 && s.idle[1] == e0;
    assert Reaped(s.idle, 7, 5) == s.idle;
    LiveMeaning(s.idle, 7, 5);
    assert e0 in s.idle && e0 !in Live(s.idle, 7, 5);
  }
}
