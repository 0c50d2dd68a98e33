/**
 raceForConnection, internal/nntp/client.go: one goroutine per eligible provider races
 for a slot, a receiver takes results from a buffered channel, and a drainer takes over
 when the caller's context ends. An event is one atomic step; a run is any interleaving.
 */
module Race {
  import opened Wrappers
  import Runs

  datatype Phase =
    | Waiting  // select between the semaphore and the inner context
    | GotSlot  // slot taken, inner context not yet looked at
    | Opening  // in getOrCreateFromPool
    | HasConn  // select between the result channel and the inner context
    | Failed   // slot given back, select between the channel and the inner context
    | Done

  datatype Msg = Conn(i: nat) | Error

  /** What raceForConnection returns. */
  datatype Outcome = Won(i: nat) | NoConnection | Cancelled

  datatype Receiver = Receiving | Returned(outcome: Outcome)

  /**
   `tokens[i]` counts the slots of provider i taken by this race and not given back. It is
   an int: a slot given back twice would make it negative.
   */
  datatype State = State(
    phases: seq<Phase>, tokens: seq<int>, chan: seq<Msg>, closed: bool,
    parentDone: bool, innerDone: bool, winner: Option<nat>, receiver: Receiver)

  datatype Event =
    | TakeSlot(i: nat)
    | StopWaiting(i: nat)
    | CheckStopped(i: nat)
    | CheckGoesOn(i: nat)
    | OpenOk(i: nat)
    | OpenFails(i: nat)
    | SendConn(i: nat)
    | PutBack(i: nat)
    | SendError(i: nat)
    | DropError(i: nat)
    | CloseChan
    | ParentEnds
    | Receive
    | SeeClosed
    | SeeParentDone
    | Drain

  function Start(n: nat): State {
    State(seq(n, _ => Waiting), seq(n, _ => 0), [], false, false, false, None, Receiving)
  }

  function Move(s: State, i: nat, p: Phase, delta: int): State
    requires i < |s.phases| == |s.tokens|
  {
    s.(phases := s.phases[i := p], tokens := s.tokens[i := s.tokens[i] + delta])
  }

  function GiveBack(tokens: seq<int>, i: nat): seq<int> {
    if i < |tokens| then tokens[i := tokens[i] - 1] else tokens
  }

  predicate At(s: State, i: nat, p: Phase) {
    i < |s.phases| == |s.tokens| && s.phases[i] == p
  }

  predicate AllDone(s: State) { forall i :: 0 <= i < |s.phases| ==> s.phases[i] == Done }

  /** Steps of the goroutine for provider i; the channel has room for one result per goroutine. */
  function FireRacer(s: State, ev: Event): Option<State> {
    match ev
    case TakeSlot(i) => if At(s, i, Waiting) then Some(Move(s, i, GotSlot, 1)) else None
    case StopWaiting(i) => if At(s, i, Waiting) && s.innerDone then Some(Move(s, i, Done, 0)) else None
    case CheckStopped(i) => if At(s, i, GotSlot) && s.innerDone then Some(Move(s, i, Done, -1)) else None
    case CheckGoesOn(i) => if At(s, i, GotSlot) && !s.innerDone then Some(Move(s, i, Opening, 0)) else None
    case OpenOk(i) => if At(s, i, Opening) then Some(Move(s, i, HasConn, 0)) else None
    case OpenFails(i) => if At(s, i, Opening) then Some(Move(s, i, Failed, -1)) else None
    case SendConn(i) =>
      if At(s, i, HasConn) && |s.chan| < |s.phases|
      then Some(Move(s, i, Done, 0).(chan := s.chan + [Conn(i)])) else None
    case PutBack(i) => if At(s, i, HasConn) && s.innerDone then Some(Move(s, i, Done, -1)) else None
    case SendError(i) =>
      if At(s, i, Failed) && |s.chan| < |s.phases|
      then Some(Move(s, i, Done, 0).(chan := s.chan + [Error])) else None
    case DropError(i) => if At(s, i, Failed) && s.innerDone then Some(Move(s, i, Done, 0)) else None
    case _ => None
  }

  /** Steps of the closer, the caller's context, the receiver loop and the drainer. */
  function FireRest(s: State, ev: Event): Option<State> {
    match ev
    case CloseChan =>
      if AllDone(s) && !s.closed then Some(s.(closed := true, innerDone := true)) else None
    case ParentEnds => if !s.parentDone then Some(s.(parentDone := true, innerDone := true)) else None
    case Receive =>
      if s.receiver.Receiving? && s.chan != [] then
        match s.chan[0]
        case Error => Some(s.(chan := s.chan[1..]))
        case Conn(i) =>
          if s.winner.None? then Some(s.(chan := s.chan[1..], winner := Some(i), innerDone := true))
          else Some(s.(chan := s.chan[1..], tokens := GiveBack(s.tokens, i)))
      else None
    case SeeClosed =>
      if s.receiver.Receiving? && s.chan == [] && s.closed then
        Some(s.(receiver := Returned(if s.winner.Some? then Won(s.winner.value) else NoConnection)))
      else None
    case SeeParentDone =>
      if s.receiver.Receiving? && s.parentDone
      then Some(s.(innerDone := true, receiver := Returned(Cancelled))) else None
    case Drain =>
      if s.receiver == Returned(Cancelled) && s.chan != [] then
        match s.chan[0]
        case Error => Some(s.(chan := s.chan[1..]))
        case Conn(i) => Some(s.(chan := s.chan[1..], tokens := GiveBack(s.tokens, i)))
      else None
    case _ => None
  }

  function Fire(s: State, ev: Event): Option<State> {
    if FireRacer(s, ev).Some? then FireRacer(s, ev) else FireRest(s, ev)
  }

  function Run(s: State, events: seq<Event>): Option<State> { Runs.Run(Fire, s, events) }

  ghost predicate Reachable(n: nat, s: State) {
    exists events :: Run(Start(n), events) == Some(s)
  }

  /** Every goroutine, the closer and the drainer have finished and the call has returned. */
  predicate Finished(s: State) {
    AllDone(s) && s.closed && s.chan == [] && s.receiver.Returned?
  }

  // ---------------------------------------------------------------- invariant

  predicate HoldsSlot(p: Phase) { p == GotSlot || p == Opening || p == HasConn }

  /** The slots of provider i that somebody answers for: its goroutine, a queued result, the winner. */
  function Owed(s: State, i: nat): int
    requires i < |s.phases|
  {
    (if HoldsSlot(s.phases[i]) then 1 else 0)
    + (if Conn(i) in s.chan then 1 else 0)
    + (if s.winner == Some(i) then 1 else 0)
  }

  /** Only a finished goroutine has a result in the channel or has been received, and once at most. */
  ghost predicate Sent(s: State) {
    && (forall k :: 0 <= k < |s.chan| && s.chan[k].Conn? ==>
          s.chan[k].i < |s.phases| && s.phases[s.chan[k].i] == Done && s.winner != Some(s.chan[k].i))
    && (forall k, l :: 0 <= k < l < |s.chan| && s.chan[k].Conn? ==> s.chan[k] != s.chan[l])
    && (s.winner.Some? ==> s.winner.value < |s.phases| && s.phases[s.winner.value] == Done)
  }

  function Unfinished(phases: seq<Phase>): nat {
    if phases == [] then 0 else (if phases[0] == Done then 0 else 1) + Unfinished(phases[1..])
  }

  ghost predicate Inv(n: nat, s: State) {
    && |s.phases| == |s.tokens| == n
    && (forall i :: 0 <= i < n ==> s.tokens[i] == Owed(s, i))
    && Sent(s)
    && |s.chan| + Unfinished(s.phases) <= n
    && (s.winner.Some? || s.parentDone || s.closed ==> s.innerDone)
    && (s.closed ==> AllDone(s))
    && (s.receiver == Returned(Cancelled) ==> s.parentDone)
    && (s.receiver.Returned? && s.receiver != Returned(Cancelled) ==>
          s.closed && s.chan == [] &&
          s.receiver.outcome == if s.winner.Some? then Won(s.winner.value) else NoConnection)
  }

  lemma {:induction false} UnfinishedUpdate(phases: seq<Phase>, i: nat, p: Phase)
    requires i < |phases|
    ensures Unfinished(phases[i := p]) + (if phases[i] == Done then 0 else 1)
      == Unfinished(phases) + (if p == Done then 0 else 1)
  {
    if i == 0 {
      assert phases[i := p][1..] == phases[1..];
    } else {
      assert phases[i := p][1..] == phases[1..][i - 1 := p];
      UnfinishedUpdate(phases[1..], i - 1, p);
    }
  }

  lemma {:induction false} UnfinishedBound(phases: seq<Phase>)
    ensures Unfinished(phases) <= |phases|
    ensures (forall i :: 0 <= i < |phases| ==> phases[i] == Done) ==> Unfinished(phases) == 0
    ensures (forall i :: 0 <= i < |phases| ==> phases[i] != Done) ==> Unfinished(phases) == |phases|
    ensures (exists i :: 0 <= i < |phases| && phases[i] != Done) ==> Unfinished(phases) >= 1
  {
    if phases != [] {
      UnfinishedBound(phases[1..]);
      if i :| 0 < i < |phases| && phases[i] != Done {
        assert phases[1..][i - 1] == phases[i];
      }
    }
  }

  lemma StartInv(n: nat)
    ensures Inv(n, Start(n))
  {
    UnfinishedBound(Start(n).phases);
  }

  lemma MoveKeepsInv(n: nat, s: State, i: nat, p: Phase, delta: int)
    requires Inv(n, s) && i < n && s.phases[i] != Done
    requires delta == (if HoldsSlot(p) then 1 else 0) - (if HoldsSlot(s.phases[i]) then 1 else 0)
    ensures Inv(n, Move(s, i, p, delta))
  {
    UnfinishedUpdate(s.phases, i, p);
  }

  lemma SendKeepsSent(s: State, i: nat, msg: Msg)
    requires Sent(s) && i < |s.phases| == |s.tokens| && s.phases[i] != Done && (msg == Conn(i) || msg == Error)
    ensures Sent(Move(s, i, Done, 0).(chan := s.chan + [msg]))
    ensures Conn(i) !in s.chan
  {
  }

  lemma SendKeepsInv(n: nat, s: State, i: nat)
    requires Inv(n, s) && i < n && (s.phases[i] == HasConn || s.phases[i] == Failed)
    ensures Inv(n, Move(s, i, Done, 0).(chan := s.chan + [if s.phases[i] == HasConn then Conn(i) else Error]))
  {
    UnfinishedUpdate(s.phases, i, Done);
    var msg := if s.phases[i] == HasConn then Conn(i) else Error;
    SendKeepsSent(s, i, msg);
    assert s.winner != Some(i);
    hide Unfinished, Sent;
    var s' := Move(s, i, Done, 0).(chan := s.chan + [msg]);
    assert forall m :: m in s'.chan <==> m in s.chan || m == msg;
  }

  /** The first message leaves the channel; no other message is equal to it. */
  lemma FirstIsAlone(s: State)
    requires Sent(s) && s.chan != []
    ensures forall i :: Conn(i) in s.chan <==> Conn(i) == s.chan[0] || Conn(i) in s.chan[1..]
    ensures s.chan[0].Conn? ==> s.chan[0] !in s.chan[1..]
  {
    assert s.chan == [s.chan[0]] + s.chan[1..];
    if s.chan[0].Conn? {
      assert forall l :: 0 < l < |s.chan| ==> s.chan[0] != s.chan[l];
    }
  }

  lemma TakeErrorKeepsInv(n: nat, s: State)
    requires Inv(n, s) && s.chan != [] && s.chan[0].Error?
    ensures Inv(n, s.(chan := s.chan[1..]))
  {
    FirstIsAlone(s);
    hide Unfinished;
  }

  lemma TakeWinnerKeepsInv(n: nat, s: State)
    requires Inv(n, s) && s.chan != [] && s.chan[0].Conn? && s.winner.None?
    ensures Inv(n, s.(chan := s.chan[1..], winner := Some(s.chan[0].i), innerDone := true))
  {
    FirstIsAlone(s);
    hide Unfinished;
  }

  lemma TakeExtraKeepsInv(n: nat, s: State)
    requires Inv(n, s) && s.chan != [] && s.chan[0].Conn?
    ensures Inv(n, s.(chan := s.chan[1..], tokens := GiveBack(s.tokens, s.chan[0].i)))
  {
    FirstIsAlone(s);
    hide Unfinished;
    assert s.winner != Some(s.chan[0].i);
  }

  lemma TakeKeepsInv(n: nat, s: State, ev: Event)
    requires Inv(n, s) && (ev == Receive || ev == Drain) && FireRest(s, ev).Some?
    ensures Inv(n, FireRest(s, ev).value)
  {
    hide Sent, Owed, Unfinished, GiveBack;
    if s.chan[0].Error? {
      TakeErrorKeepsInv(n, s);
    } else if ev == Receive && s.winner.None? {
      TakeWinnerKeepsInv(n, s);
    } else {
      TakeExtraKeepsInv(n, s);
    }
  }

  lemma RestKeepsInv(n: nat, s: State, ev: Event)
    requires Inv(n, s) && ev in {CloseChan, ParentEnds, SeeClosed, SeeParentDone} && FireRest(s, ev).Some?
    ensures Inv(n, FireRest(s, ev).value)
  {
  }

  lemma FireKeepsInv(n: nat, s: State, ev: Event)
    requires Inv(n, s) && Fire(s, ev).Some?
    ensures Inv(n, Fire(s, ev).value)
  {
    hide Sent, Owed, Unfinished;
    match ev
    case TakeSlot(i) => MoveKeepsInv(n, s, i, GotSlot, 1);
    case StopWaiting(i) => MoveKeepsInv(n, s, i, Done, 0);
    case CheckStopped(i) => MoveKeepsInv(n, s, i, Done, -1);
    case CheckGoesOn(i) => MoveKeepsInv(n, s, i, Opening, 0);
    case OpenOk(i) => MoveKeepsInv(n, s, i, HasConn, 0);
    case OpenFails(i) => MoveKeepsInv(n, s, i, Failed, -1);
    case SendConn(i) => SendKeepsInv(n, s, i);
    case PutBack(i) => MoveKeepsInv(n, s, i, Done, -1);
    case SendError(i) => SendKeepsInv(n, s, i);
    case DropError(i) => MoveKeepsInv(n, s, i, Done, 0);
    case Receive => TakeKeepsInv(n, s, ev);
    case Drain => TakeKeepsInv(n, s, ev);
    case _ => RestKeepsInv(n, s, ev);
  }

  lemma {:induction false} RunKeepsInv(n: nat, s: State, events: seq<Event>)
    requires Inv(n, s) && Run(s, events).Some?
    ensures Inv(n, Run(s, events).value)
    decreases |events|
  {
    if events != [] {
      FireKeepsInv(n, s, events[0]);
      RunKeepsInv(n, Fire(s, events[0]).value, events[1..]);
    }
  }

  lemma ReachableInv(n: nat, s: State)
    requires Reachable(n, s)
    ensures Inv(n, s)
  {
    var events :| Run(Start(n), events) == Some(s);
    StartInv(n);
    RunKeepsInv(n, Start(n), events);
  }

  // ----------------------------------------------------------------- theorems

  /** The slots one provider of a finished race is left with. */
  function SlotsLeft(outcome: Outcome, winner: Option<nat>, i: nat): int {
    match outcome
    case Won(w) => if i == w then 1 else 0
    case NoConnection => 0
    case Cancelled => if winner == Some(i) then 1 else 0
  }

  /**
   Slot accounting of every finished run: a success leaves exactly the winner's slot, a
   failure none, and a cancellation none unless a winner had been chosen, whose slot then
   has no owner any more.
   */
  lemma SlotsConserved(n: nat, s: State)
    requires Reachable(n, s) && Finished(s)
    ensures |s.tokens| == n
    ensures forall i :: 0 <= i < n ==> s.tokens[i] == SlotsLeft(s.receiver.outcome, s.winner, i)
    ensures s.receiver.outcome.Won? ==> s.receiver.outcome.i < n
  {
    ReachableInv(n, s);
  }

  /** A slot is stranded (held although the caller got no connection) exactly in one kind of run. */
  lemma StrandedIff(n: nat, s: State)
    requires Reachable(n, s) && Finished(s)
    ensures (!s.receiver.outcome.Won? && exists i :: 0 <= i < |s.tokens| && s.tokens[i] != 0)
      <==> s.receiver.outcome == Cancelled && s.winner.Some?
    ensures forall i, j :: 0 <= i < j < |s.tokens| ==> s.tokens[i] == 0 || s.tokens[j] == 0
  {
    ReachableInv(n, s);
    if s.winner.Some? { assert s.tokens[s.winner.value] == Owed(s, s.winner.value); }
  }

  /** No slot is ever given back that is not held. */
  lemma NoDoubleRelease(n: nat, s: State, i: nat)
    requires Reachable(n, s) && i < |s.tokens|
    ensures 0 <= s.tokens[i] <= 1
  {
    ReachableInv(n, s);
    if Conn(i) in s.chan {
      var k :| 0 <= k < |s.chan| && s.chan[k] == Conn(i);
    }
  }

  /** The buffer never fills up, so a goroutine with a result never blocks on sending it. */
  lemma SendNeverBlocks(n: nat, s: State, i: nat)
    requires Reachable(n, s)
    ensures At(s, i, HasConn) ==> Fire(s, SendConn(i)).Some?
    ensures At(s, i, Failed) ==> Fire(s, SendError(i)).Some?
  {
    ReachableInv(n, s);
    UnfinishedBound(s.phases);
  }

  /** Opening can end either way, and after the race is decided a connection or an error need not be sent. */
  lemma EveryWayOut(s: State, i: nat)
    requires |s.tokens| == |s.phases|
    ensures At(s, i, Opening) <==> Fire(s, OpenOk(i)).Some?
    ensures At(s, i, Opening) <==> Fire(s, OpenFails(i)).Some?
    ensures s.innerDone ==> (At(s, i, HasConn) <==> Fire(s, PutBack(i)).Some?)
    ensures s.innerDone ==> (At(s, i, Failed) <==> Fire(s, DropError(i)).Some?)
    ensures !s.innerDone ==> Fire(s, PutBack(i)).None? && Fire(s, DropError(i)).None?
  {}

  lemma OnlyRacerOpens() returns (events: seq<Event>, s: State)
    ensures Run(Start(1), events) == Some(s)
    ensures s == State([Opening], [1], [], false, false, false, None, Receiving)
  {
    hide AllDone, GiveBack;
    events := [TakeSlot(0), CheckGoesOn(0)];
    var s0 := Start(1);
    var s1 := Move(s0, 0, GotSlot, 1);
    s := Move(s1, 0, Opening, 0);
    assert Fire(s0, TakeSlot(0)) == Some(s1) && Fire(s1, CheckGoesOn(0)) == Some(s);
    Runs.RunAlong(Fire, [s0, s1, s], events);
  }

  lemma OnlyRacerSends(s0: State) returns (events: seq<Event>, s: State)
    requires s0 == State([Opening], [1], [], false, false, false, None, Receiving)
    ensures Run(s0, events) == Some(s)
    ensures s == State([Done], [1], [Conn(0)], false, false, false, None, Receiving)
  {
    hide AllDone, GiveBack;
    events := [OpenOk(0), SendConn(0)];
    var s1 := Move(s0, 0, HasConn, 0);
    s := Move(s1, 0, Done, 0).(chan := [Conn(0)]);
    assert [] + [Conn(0)] == [Conn(0)];
    assert Fire(s0, OpenOk(0)) == Some(s1) && Fire(s1, SendConn(0)) == Some(s);
    Runs.RunAlong(Fire, [s0, s1, s], events);
  }

  lemma WinnerThenCancelled(s0: State) returns (events: seq<Event>, s: State)
    requires s0 == State([Done], [1], [Conn(0)], false, false, false, None, Receiving)
    ensures Run(s0, events) == Some(s)
    ensures s == State([Done], [1], [], false, true, true, Some(0), Receiving)
  {
    hide AllDone, GiveBack;
    events := [Receive, ParentEnds];
    var s1 := State([Done], [1], [], false, false, true, Some(0), Receiving);
    s := State([Done], [1], [], false, true, true, Some(0), Receiving);
    assert [Conn(0)][1..] == [];
    assert Fire(s0, Receive) == Some(s1) && Fire(s1, ParentEnds) == Some(s);
    Runs.RunAlong(Fire, [s0, s1, s], events);
  }

  lemma ReturnsCancelled(s0: State) returns (events: seq<Event>, s: State)
    requires s0 == State([Done], [1], [], false, true, true, Some(0), Receiving)
    ensures Run(s0, events) == Some(s)
    ensures s == State([Done], [1], [], true, true, true, Some(0), Returned(Cancelled))
  {
    hide GiveBack;
    events := [SeeParentDone, CloseChan];
    var s1 := State([Done], [1], [], false, true, true, Some(0), Returned(Cancelled));
    s := State([Done], [1], [], true, true, true, Some(0), Returned(Cancelled));
    assert Fire(s0, SeeParentDone) == Some(s1) && Fire(s1, CloseChan) == Some(s);
    Runs.RunAlong(Fire, [s0, s1, s], events);
  }

  /** A run that strands a slot exists, with a single provider. */
  lemma StrandingRun() returns (events: seq<Event>, s: State)
    ensures Run(Start(1), events) == Some(s)
    ensures Finished(s) && s.receiver.outcome == Cancelled && s.tokens == [1]
  {
    var opens, s1 := OnlyRacerOpens();
    var sends, s2 := OnlyRacerSends(s1);
    var wins, s3 := WinnerThenCancelled(s2);
    var ends;
    ends, s := ReturnsCancelled(s3);
    hide Fire, Start;
    Runs.RunSplit(Fire, Start(1), opens, sends);
    Runs.RunSplit(Fire, Start(1), opens + sends, wins);
    Runs.RunSplit(Fire, Start(1), opens + sends + wins, ends);
    events := opens + sends + wins + ends;
  }

  /** Once the race is decided or cancelled no goroutine begins to open a connection. */
  lemma DoneStopsOpening(s: State, ev: Event)
    requires s.innerDone && Fire(s, ev).Some?
    ensures var s' := Fire(s, ev).value;
      s'.innerDone && |s'.phases| == |s.phases| &&
      forall i :: 0 <= i < |s.phases| && s'.phases[i] == Opening ==> s.phases[i] == Opening
  {
    hide AllDone, GiveBack;
  }

  // ----------------------------------------------------- who wins, if nobody cancels

  /** Goroutine i has been through one of its two ways of opening at most, as its phase says. */
  ghost predicate Opened(p: Phase, past: seq<Event>, i: nat) {
    && !(OpenOk(i) in past && OpenFails(i) in past)
    && (p == Waiting || p == GotSlot || p == Opening ==> OpenOk(i) !in past && OpenFails(i) !in past)
    && (p == HasConn ==> OpenOk(i) in past)
    && (p == Failed ==> OpenFails(i) in past)
  }

  /** A result or a winner comes from a connection that was opened. */
  ghost predicate Results(chan: seq<Msg>, winner: Option<nat>, past: seq<Event>) {
    && (forall i :: Conn(i) in chan ==> OpenOk(i) in past)
    && (winner.Some? ==> OpenOk(winner.value) in past)
  }

  /** As long as the caller's context lives and nobody has won, nobody gives up. */
  ghost predicate NobodyGivesUp(s: State, past: seq<Event>) {
    && (!s.parentDone && s.winner.None? && !s.closed ==> !s.innerDone)
    && (!s.parentDone && s.winner.None? ==>
          forall i :: 0 <= i < |s.phases| && s.phases[i] == Done ==>
            Conn(i) in s.chan || (OpenFails(i) in past && SendError(i) in past))
  }

  ghost predicate History(s: State, past: seq<Event>) {
    && (forall i :: 0 <= i < |s.phases| ==> Opened(s.phases[i], past, i))
    && (forall i: nat :: OpenOk(i) in past || OpenFails(i) in past ==> i < |s.phases|)
    && Results(s.chan, s.winner, past)
    && (s.parentDone <==> ParentEnds in past)
    && NobodyGivesUp(s, past)
  }

  lemma StartHistory(n: nat)
    ensures History(Start(n), [])
  {}

  lemma OpenedAfter(n: nat, s: State, past: seq<Event>, ev: Event)
    requires Inv(n, s) && History(s, past) && Fire(s, ev).Some?
    ensures var s' := Fire(s, ev).value;
      && (forall i :: 0 <= i < |s'.phases| ==> Opened(s'.phases[i], past + [ev], i))
      && (forall i: nat :: OpenOk(i) in past + [ev] || OpenFails(i) in past + [ev] ==> i < |s'.phases|)
  {
    hide Sent, Owed, Unfinished, NobodyGivesUp, Results, AllDone;
  }

  lemma ResultsAfter(n: nat, s: State, past: seq<Event>, ev: Event)
    requires Inv(n, s) && History(s, past) && Fire(s, ev).Some?
    ensures var s' := Fire(s, ev).value;
      Results(s'.chan, s'.winner, past + [ev]) && (s'.parentDone <==> ParentEnds in past + [ev])
  {
    hide Sent, Owed, Unfinished, NobodyGivesUp, AllDone;
    if ev == Receive && s.chan != [] { assert s.chan[0] in s.chan; }
  }

  lemma GiveUpAfter(n: nat, s: State, past: seq<Event>, ev: Event)
    requires Inv(n, s) && History(s, past) && Fire(s, ev).Some?
    ensures NobodyGivesUp(Fire(s, ev).value, past + [ev])
  {
    hide Sent, Owed, Unfinished, Results;
    if (ev == Receive || ev == Drain) && s.chan != [] {
      assert s.chan == [s.chan[0]] + s.chan[1..];
    }
  }

  lemma {:induction false} HistoryOf(n: nat, events: seq<Event>)
    requires Run(Start(n), events).Some?
    ensures Inv(n, Run(Start(n), events).value) && History(Run(Start(n), events).value, events)
    decreases |events|
  {
    if events == [] {
      StartInv(n);
      StartHistory(n);
    } else {
      var init, ev := events[..|events| - 1], events[|events| - 1];
      assert events == init + [ev];
      Runs.RunThen(Fire, Start(n), init, ev);
      HistoryOf(n, init);
      var s := Run(Start(n), init).value;
      FireKeepsInv(n, s, ev);
      OpenedAfter(n, s, init, ev);
      ResultsAfter(n, s, init, ev);
      GiveUpAfter(n, s, init, ev);
    }
  }

  /** After the call has returned, its result stays and no winner is chosen. */
  lemma ReturnedIsFinal(s: State, ev: Event)
    requires s.receiver.Returned? && Fire(s, ev).Some?
    ensures Fire(s, ev).value.receiver == s.receiver && Fire(s, ev).value.winner == s.winner
  {
    hide AllDone, GiveBack;
  }

  /**
   Unless the caller's context ends, a race ends without a connection exactly when every
   provider's attempt to open one failed; otherwise it is won by one that was opened.
   */
  lemma NoConnectionIff(n: nat, events: seq<Event>)
    requires Complete(n, events) && ParentEnds !in events
    ensures var outcome := Run(Start(n), events).value.receiver.outcome;
      && (outcome == NoConnection <==> forall i :: 0 <= i < n ==> OpenFails(i) in events)
      && (outcome.Won? <==> exists i :: 0 <= i < n && OpenOk(i) in events)
      && (outcome.Won? ==> OpenOk(outcome.i) in events)
      && (outcome == NoConnection ==> forall i :: 0 <= i < n ==> SendError(i) in events)
  {
    HistoryOf(n, events);
    var s := Run(Start(n), events).value;
    hide Sent, Owed, Unfinished, Start;
    assert s.receiver.outcome != Cancelled;
    if s.winner.Some? {
      assert s.receiver.outcome == Won(s.winner.value);
      assert Opened(s.phases[s.winner.value], events, s.winner.value);
    } else {
      assert s.receiver.outcome == NoConnection;
      forall i | 0 <= i < n ensures OpenFails(i) in events && OpenOk(i) !in events && SendError(i) in events {
        assert Opened(s.phases[i], events, i);
      }
    }
  }

  // ------------------------------------------------------ the race always finishes

  function Rank(p: Phase): nat {
    match p
    case Waiting => 5
    case GotSlot => 4
    case Opening => 3
    case HasConn => 2
    case Failed => 2
    case Done => 0
  }

  function Ranks(phases: seq<Phase>): nat {
    if phases == [] then 0 else Rank(phases[0]) + Ranks(phases[1..])
  }

  /** An upper bound on the steps still to come. */
  function Remaining(s: State): nat {
    Ranks(s.phases) + |s.chan| + (if s.closed then 0 else 1) + (if s.parentDone then 0 else 1)
    + (if s.receiver.Receiving? then 1 else 0)
  }

  lemma {:induction false} RanksUpdate(phases: seq<Phase>, i: nat, p: Phase)
    requires i < |phases|
    ensures Ranks(phases[i := p]) + Rank(phases[i]) == Ranks(phases) + Rank(p)
  {
    if i == 0 {
      assert phases[i := p][1..] == phases[1..];
    } else {
      assert phases[i := p][1..] == phases[1..][i - 1 := p];
      RanksUpdate(phases[1..], i - 1, p);
    }
  }

  lemma MoveDecreases(s: State, i: nat, p: Phase, delta: int)
    requires i < |s.phases| == |s.tokens| && Rank(p) < Rank(s.phases[i])
    ensures Ranks(Move(s, i, p, delta).phases) + Rank(s.phases[i]) == Ranks(s.phases) + Rank(p)
  {
    RanksUpdate(s.phases, i, p);
  }

  lemma RestDecreases(s: State, ev: Event)
    requires FireRest(s, ev).Some?
    ensures Remaining(FireRest(s, ev).value) < Remaining(s)
  {
    hide Ranks, GiveBack;
  }

  lemma FireDecreases(s: State, ev: Event)
    requires Fire(s, ev).Some?
    ensures Remaining(Fire(s, ev).value) < Remaining(s)
  {
    hide Ranks, AllDone, GiveBack;
    match ev
    case TakeSlot(i) => MoveDecreases(s, i, GotSlot, 1);
    case StopWaiting(i) => MoveDecreases(s, i, Done, 0);
    case CheckStopped(i) => MoveDecreases(s, i, Done, -1);
    case CheckGoesOn(i) => MoveDecreases(s, i, Opening, 0);
    case OpenOk(i) => MoveDecreases(s, i, HasConn, 0);
    case OpenFails(i) => MoveDecreases(s, i, Failed, -1);
    case SendConn(i) => MoveDecreases(s, i, Done, 0);
    case PutBack(i) => MoveDecreases(s, i, Done, -1);
    case SendError(i) => MoveDecreases(s, i, Done, 0);
    case DropError(i) => MoveDecreases(s, i, Done, 0);
    case _ => RestDecreases(s, ev);
  }

  lemma {:induction false} RunsAreBounded(s: State, events: seq<Event>)
    requires Run(s, events).Some?
    ensures |events| + Remaining(Run(s, events).value) <= Remaining(s)
    decreases |events|
  {
    if events != [] {
      FireDecreases(s, events[0]);
      RunsAreBounded(Fire(s, events[0]).value, events[1..]);
    }
  }

  /** No run is longer than 5n + 3 steps. */
  lemma RaceTerminates(n: nat, events: seq<Event>)
    requires Run(Start(n), events).Some?
    ensures |events| <= 5 * n + 3
  {
    RunsAreBounded(Start(n), events);
    AllWaiting(n);
  }

  lemma {:induction false} AllWaiting(n: nat)
    ensures Ranks(seq(n, _ => Waiting)) == 5 * n
  {
    if n > 0 {
      assert seq(n, _ => Waiting)[1..] == seq(n - 1, _ => Waiting);
      AllWaiting(n - 1);
    }
  }

  /** Unless every provider is busy (some goroutine waits for a slot), an unfinished race can go on. */
  lemma RaceGoesOn(n: nat, s: State)
    requires Reachable(n, s) && !Finished(s)
    requires s.innerDone || Waiting !in s.phases
    ensures exists ev :: Fire(s, ev).Some? && !ev.TakeSlot? && ev != ParentEnds
  {
    ReachableInv(n, s);
    if i :| 0 <= i < n && s.phases[i] != Done {
      SendNeverBlocks(n, s, i);
      var ev := match s.phases[i]
        case Waiting => StopWaiting(i)
        case GotSlot => if s.innerDone then CheckStopped(i) else CheckGoesOn(i)
        case Opening => OpenOk(i)
        case HasConn => SendConn(i)
        case Failed => SendError(i)
        case Done => CloseChan;
      assert Fire(s, ev).Some?;
    } else if !s.closed {
      assert Fire(s, CloseChan).Some?;
    } else if s.receiver.Receiving? {
      assert Fire(s, if s.chan == [] then SeeClosed else Receive).Some?;
    } else {
      assert Fire(s, Drain).Some?;
    }
  }

  /** A run from start to finish. */
  predicate Complete(n: nat, events: seq<Event>) {
    Run(Start(n), events).Some? && Finished(Run(Start(n), events).value)
  }

  lemma InnerStaysDone(s: State, ev: Event)
    requires s.innerDone && Fire(s, ev).Some?
    ensures Fire(s, ev).value.innerDone
  {
    hide AllDone, GiveBack;
  }

  /** One more step of a cancelled race. */
  lemma OneMore(n: nat, events: seq<Event>) returns (ev: Event)
    requires Run(Start(n), events).Some? && Run(Start(n), events).value.innerDone
    requires !Finished(Run(Start(n), events).value)
    ensures Run(Start(n), events + [ev]).Some? && Run(Start(n), events + [ev]).value.innerDone
    ensures Remaining(Run(Start(n), events + [ev]).value) < Remaining(Run(Start(n), events).value)
  {
    var s := Run(Start(n), events).value;
    RaceGoesOn(n, s);
    hide Fire, Remaining, Finished, Start;
    ev :| Fire(s, ev).Some? && !ev.TakeSlot? && ev != ParentEnds;
    Runs.RunThen(Fire, Start(n), events, ev);
    FireDecreases(s, ev);
    InnerStaysDone(s, ev);
  }

  /** Whatever has happened so far, a cancelled race can be driven to its end. */
  lemma {:induction false} CanFinish(n: nat, events: seq<Event>) returns (all: seq<Event>)
    requires Run(Start(n), events).Some? && Run(Start(n), events).value.innerDone
    ensures events <= all && Complete(n, all)
    decreases Remaining(Run(Start(n), events).value)
  {
    hide Run, Start, Remaining, Finished;
    all := events;
    if !Finished(Run(Start(n), events).value) {
      var ev := OneMore(n, events);
      all := CanFinish(n, events + [ev]);
    }
  }

  lemma CompleteRunExists(n: nat)
    ensures exists events :: Complete(n, events)
  {
    var one := [ParentEnds];
    var s := Start(n).(parentDone := true, innerDone := true);
    assert Fire(Start(n), ParentEnds) == Some(s);
    assert one[1..] == [] && Run(s, []) == Some(s);
    var all := CanFinish(n, one);
  }
}
