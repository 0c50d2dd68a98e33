/**
 Several provider pools and the goroutines of ExecuteWithFailover that hold and wait for
 their slots, internal/nntp/client.go. After a retriable error a goroutine takes any
 connection and then, still holding its slot, waits for one of the provider it prefers.
 */
module SwapProtocol {
  import opened Wrappers
  import Runs

  type Pool = nat

  /** A goroutine inside ExecuteWithFailover; `first` is the provider its round began with. */
  datatype Phase =
    | Seeking(eligible: set<Pool>, wanted: Option<Pool>) // in getAnyAvailableConnection
    | Working(held: Pool, first: Pool)                  // running the operation
    | Swapping(held: Pool, first: Pool)                 // holds one slot, waits for another
    | Returning(held: Pool, first: Pool)                // has both, about to give back `held`
  {
    predicate Holds(p: Pool) {
      match this
      case Seeking(_, _) => false
      case Working(held, _) => p == held
      case Swapping(held, _) => p == held
      case Returning(held, first) => p == held || p == first
    }
  }

  /** The goroutines inside, and the capacity of each pool. */
  datatype State = State(max: map<Pool, nat>, phases: map<nat, Phase>)

  /** Each slot taken from a pool has one goroutine that holds it. */
  function Holders(phases: map<nat, Phase>, p: Pool): set<nat> { set t | t in phases && phases[t].Holds(p) }

  predicate Free(s: State, p: Pool) { p in s.max && |Holders(s.phases, p)| < s.max[p] }

  datatype Event =
    | Enter(t: nat, eligible: set<Pool>)
    | Take(t: nat, p: Pool)
    | Retry(t: nat)      // a retriable error: slot given back, any connection will do
    | Leave(t: nat)      // success, or an error that ends the round
    | TakeFirst(t: nat)
    | FirstFails(t: nat) // a slot was free, but no connection came of it
    | GiveBack(t: nat)
    | ContextEnds(t: nat)

  function With(s: State, t: nat, p: Phase): State { s.(phases := s.phases[t := p]) }

  function Fire(s: State, ev: Event): Option<State> {
    match ev
    case Enter(t, eligible) =>
      if t !in s.phases && eligible != {} && eligible <= s.max.Keys
      then Some(With(s, t, Seeking(eligible, None))) else None
    case Take(t, p) =>
      if t in s.phases && s.phases[t].Seeking? && p in s.phases[t].eligible && Free(s, p) then
        match s.phases[t].wanted
        case None => Some(With(s, t, Working(p, p)))
        case Some(f) => Some(With(s, t, if p == f then Working(p, p) else Swapping(p, f)))
      else None
    case Retry(t) =>
      if t in s.phases && s.phases[t].Working?
      then Some(With(s, t, Seeking(s.max.Keys, Some(s.phases[t].first)))) else None
    case Leave(t) =>
      if t in s.phases && s.phases[t].Working? then Some(s.(phases := s.phases - {t})) else None
    case TakeFirst(t) =>
      if t in s.phases && s.phases[t].Swapping? && Free(s, s.phases[t].first)
      then Some(With(s, t, Returning(s.phases[t].held, s.phases[t].first))) else None
    case FirstFails(t) =>
      if t in s.phases && s.phases[t].Swapping? && Free(s, s.phases[t].first)
      then Some(With(s, t, Working(s.phases[t].held, s.phases[t].first))) else None
    case GiveBack(t) =>
      if t in s.phases && s.phases[t].Returning?
      then Some(With(s, t, Working(s.phases[t].first, s.phases[t].first))) else None
    case ContextEnds(t) =>
      if t in s.phases && s.phases[t].Seeking? then Some(s.(phases := s.phases - {t}))
      else if t in s.phases && s.phases[t].Swapping?
      then Some(With(s, t, Working(s.phases[t].held, s.phases[t].first))) else None
  }

  function Run(s: State, events: seq<Event>): Option<State> { Runs.Run(Fire, s, events) }

  ghost predicate Reachable(s: State) {
    exists max: map<Pool, nat>, events ::
      (forall p :: p in max ==> max[p] > 0) && Run(State(max, map[]), events) == Some(s)
  }

  ghost predicate PhaseOk(max: map<Pool, nat>, p: Phase) {
    match p
    case Seeking(eligible, first) =>
      eligible != {} && eligible <= max.Keys && (first.Some? ==> first.value in max)
    case Working(held, first) => held in max && first in max
    case Swapping(held, first) => held in max && first in max && held != first
    case Returning(held, first) => held in max && first in max && held != first
  }

  ghost predicate Inv(s: State) {
    && (forall p :: p in s.max ==> s.max[p] > 0 && |Holders(s.phases, p)| <= s.max[p])
    && (forall t :: t in s.phases ==> PhaseOk(s.max, s.phases[t]))
  }

  lemma {:induction false} SubsetSize(a: set<nat>, b: set<nat>)
    requires a <= b
    ensures |a| <= |b|
    ensures |a| == |b| ==> a == b
  {
    if a != {} {
      var x :| x in a;
      SubsetSize(a - {x}, b - {x});
      assert (a - {x}) + {x} == a && (b - {x}) + {x} == b;
    }
  }

  /** One goroutine moves on; it holds a new slot only of a pool that had one. */
  lemma MoveKeepsBound(s: State, t: nat, p: Phase, pool: Pool)
    requires Inv(s) && pool in s.max
    requires p.Holds(pool) && !(t in s.phases && s.phases[t].Holds(pool)) ==> Free(s, pool)
    ensures |Holders(s.phases[t := p], pool)| <= s.max[pool]
  {
    var before, after := Holders(s.phases, pool), Holders(s.phases[t := p], pool);
    if p.Holds(pool) {
      assert after == before + {t};
    } else {
      assert after <= before;
      SubsetSize(after, before);
    }
  }

  lemma MoveKeepsInv(s: State, t: nat, p: Phase)
    requires Inv(s) && PhaseOk(s.max, p)
    requires forall pool :: pool in s.max && p.Holds(pool) && !(t in s.phases && s.phases[t].Holds(pool)) ==> Free(s, pool)
    ensures Inv(With(s, t, p))
  {
    forall pool | pool in s.max ensures |Holders(s.phases[t := p], pool)| <= s.max[pool] {
      MoveKeepsBound(s, t, p, pool);
    }
  }

  lemma LeaveKeepsInv(s: State, t: nat)
    requires Inv(s)
    ensures Inv(s.(phases := s.phases - {t}))
  {
    forall pool | pool in s.max ensures |Holders(s.phases - {t}, pool)| <= s.max[pool] {
      SubsetSize(Holders(s.phases - {t}, pool), Holders(s.phases, pool));
    }
  }

  lemma FireKeepsInv(s: State, ev: Event)
    requires Inv(s) && Fire(s, ev).Some?
    ensures Inv(Fire(s, ev).value) && Fire(s, ev).value.max == s.max
  {
    hide Holders;
    var s' := Fire(s, ev).value;
    if ev.t in s'.phases {
      MoveKeepsInv(s, ev.t, s'.phases[ev.t]);
    } else {
      LeaveKeepsInv(s, ev.t);
    }
  }

  lemma {:induction false} RunKeepsInv(s: State, events: seq<Event>)
    requires Inv(s) && Run(s, events).Some?
    ensures Inv(Run(s, events).value) && Run(s, events).value.max == s.max
    decreases |events|
  {
    if events != [] {
      FireKeepsInv(s, events[0]);
      RunKeepsInv(Fire(s, events[0]).value, events[1..]);
    }
  }

  lemma ReachableInv(s: State)
    requires Reachable(s)
    ensures Inv(s)
  {
    var max: map<Pool, nat>, events :|
      (forall p :: p in max ==> max[p] > 0) && Run(State(max, map[]), events) == Some(s);
    assert forall p :: Holders(map[], p) == {};
    RunKeepsInv(State(max, map[]), events);
  }

  // ----------------------------------------------------------------- theorems

  /** A goroutine that is inside can move without its context ending. */
  ghost predicate CanMove(s: State) {
    exists ev :: Fire(s, ev).Some? && !ev.Enter? && !ev.ContextEnds?
  }

  /** Nobody is between two pools. */
  ghost predicate NobodySwaps(s: State) { forall t :: t in s.phases ==> !s.phases[t].Swapping? }

  lemma HolderMoves(s: State, t: nat)
    requires t in s.phases && (s.phases[t].Working? || s.phases[t].Returning?)
    ensures CanMove(s)
  {
    if s.phases[t].Working? {
      assert Fire(s, Leave(t)).Some?;
    } else {
      assert Fire(s, GiveBack(t)).Some?;
    }
  }

  lemma SeekerMoves(s: State, t: nat)
    requires Inv(s) && t in s.phases && forall u :: u in s.phases ==> s.phases[u].Seeking?
    ensures CanMove(s)
  {
    var p :| p in s.phases[t].eligible;
    assert Holders(s.phases, p) == {};
    assert Fire(s, Take(t, p)).Some?;
  }

  /** Unless some goroutine waits for a second slot while holding one, a goroutine inside can move. */
  lemma GoesOnWithoutSwaps(s: State)
    requires Reachable(s) && s.phases != map[] && NobodySwaps(s)
    ensures CanMove(s)
  {
    ReachableInv(s);
    hide Inv, Reachable, CanMove;
    if t :| t in s.phases && (s.phases[t].Working? || s.phases[t].Returning?) {
      HolderMoves(s, t);
    } else {
      var t :| t in s.phases;
      SeekerMoves(s, t);
    }
  }

  /** Some goroutine is inside, and only the end of a context could let any of them move. */
  ghost predicate Stuck(s: State) { s.phases != map[] && !CanMove(s) }

  /**
   When it is stuck: everybody waits, somebody waits for a second slot, and every slot of
   every pool waited for is held by a goroutine that waits for another pool itself.
   */
  lemma StuckIff(s: State)
    requires Reachable(s)
    ensures Stuck(s) <==>
      && (exists t :: t in s.phases && s.phases[t].Swapping?)
      && (forall t :: t in s.phases ==> s.phases[t].Seeking? || s.phases[t].Swapping?)
      && (forall t :: t in s.phases && s.phases[t].Swapping? ==> !Free(s, s.phases[t].first))
      && (forall t, p :: t in s.phases && s.phases[t].Seeking? && p in s.phases[t].eligible ==> !Free(s, p))
  {
    if Stuck(s) {
      if NobodySwaps(s) { GoesOnWithoutSwaps(s); }
      forall t | t in s.phases ensures s.phases[t].Seeking? || s.phases[t].Swapping? {
        assert Fire(s, Leave(t)).None? && Fire(s, GiveBack(t)).None?;
      }
      forall t | t in s.phases && s.phases[t].Swapping? ensures !Free(s, s.phases[t].first) {
        assert Fire(s, TakeFirst(t)).None?;
      }
      forall t, p | t in s.phases && s.phases[t].Seeking? && p in s.phases[t].eligible ensures !Free(s, p) {
        assert Fire(s, Take(t, p)).None?;
      }
    }
  }

  lemma WaitedForIsHeld(s: State, t: nat)
    requires Reachable(s) && Stuck(s) && t in s.phases && s.phases[t].Swapping?
    ensures var p := s.phases[t].first;
      p in s.max && |Holders(s.phases, p)| == s.max[p] > 0 &&
      forall u :: u in Holders(s.phases, p) ==> s.phases[u].Swapping? && s.phases[u].held == p != s.phases[u].first
  {
    ReachableInv(s);
    StuckIff(s);
  }

  /** With a single provider nobody ever waits for a second slot. */
  lemma OnePoolNeverSticks(s: State)
    requires Reachable(s) && forall p, q :: p in s.max && q in s.max ==> p == q
    ensures !Stuck(s)
  {
    ReachableInv(s);
    forall t | t in s.phases ensures !s.phases[t].Swapping? {
      assert PhaseOk(s.max, s.phases[t]);
    }
    hide Reachable, CanMove;
    if s.phases != map[] { GoesOnWithoutSwaps(s); }
  }

  /** A swap for which there is a slot ends with the preferred provider's slot and without the other. */
  lemma SwapCompletes(s: State, t: nat)
    requires Reachable(s) && t in s.phases && s.phases[t].Swapping? && Free(s, s.phases[t].first)
    ensures var f := s.phases[t].first;
      && Run(s, [TakeFirst(t), GiveBack(t)]) == Some(With(s, t, Working(f, f)))
      && Fire(s, FirstFails(t)) == Some(With(s, t, Working(s.phases[t].held, f)))
  {
    var h, f := s.phases[t].held, s.phases[t].first;
    var s1 := With(s, t, Returning(h, f));
    assert Fire(s, TakeFirst(t)) == Some(s1);
    assert s1.phases[t := Working(f, f)] == s.phases[t := Working(f, f)];
    assert Fire(s1, GiveBack(t)) == Some(With(s, t, Working(f, f)));
    Runs.RunAlong(Fire, [s, s1, With(s, t, Working(f, f))], [TakeFirst(t), GiveBack(t)]);
  }

  /** The end of a context touches only those who wait: a seeker leaves, a swapper keeps what it has and works on. */
  lemma ContextMeaning(s: State, t: nat)
    ensures Fire(s, ContextEnds(t)).Some? <==> t in s.phases && (s.phases[t].Seeking? || s.phases[t].Swapping?)
    ensures t in s.phases && s.phases[t].Seeking? ==> t !in Fire(s, ContextEnds(t)).value.phases
    ensures t in s.phases && s.phases[t].Swapping? ==>
      Fire(s, ContextEnds(t)).value.phases[t] == Working(s.phases[t].held, s.phases[t].first)
  {}

  /** A stuck state is undone by the end of the context of any goroutine between two pools. */
  lemma ContextUnsticks(s: State, t: nat)
    requires Reachable(s) && Stuck(s) && t in s.phases && s.phases[t].Swapping?
    ensures CanMove(Fire(s, ContextEnds(t)).value)
  {
    HolderMoves(Fire(s, ContextEnds(t)).value, t);
  }

  /** The goroutines between two pools stay where they are. */
  ghost predicate Frozen(s: State, later: State) {
    later.max == s.max &&
    forall t :: t in s.phases && s.phases[t].Swapping? ==> t in later.phases && later.phases[t] == s.phases[t]
  }

  lemma StaysFull(s: State, later: State, t: nat)
    requires Reachable(s) && Stuck(s) && Inv(later) && Frozen(s, later)
    requires t in s.phases && s.phases[t].Swapping?
    ensures !Free(later, s.phases[t].first)
  {
    var p := s.phases[t].first;
    WaitedForIsHeld(s, t);
    SubsetSize(Holders(s.phases, p), Holders(later.phases, p));
  }

  lemma FrozenStep(s: State, later: State, ev: Event)
    requires Reachable(s) && Stuck(s) && Inv(later) && Frozen(s, later)
    requires Fire(later, ev).Some? && !ev.ContextEnds?
    ensures Frozen(s, Fire(later, ev).value)
  {
    if ev.t in s.phases && s.phases[ev.t].Swapping? { StaysFull(s, later, ev.t); }
  }

  /** Once stuck, as long as no context ends, those goroutines never move again, whoever else comes. */
  lemma {:induction false} StuckForGood(s: State, later: State, events: seq<Event>)
    requires Reachable(s) && Stuck(s) && Inv(later) && Frozen(s, later)
    requires Run(later, events).Some? && forall i :: 0 <= i < |events| ==> !events[i].ContextEnds?
    ensures Frozen(s, Run(later, events).value)
    decreases |events|
  {
    if events != [] {
      FrozenStep(s, later, events[0]);
      FireKeepsInv(later, events[0]);
      StuckForGood(s, Fire(later, events[0]).value, events[1..]);
    }
  }

  // ------------------------------------------- which providers can get stuck

  /** Goroutines below n begin with b and end up holding a; the others the other way round. */
  function FirstOf(n: nat, a: Pool, b: Pool, t: nat): Pool { if t < n then b else a }

  function HeldOf(n: nat, a: Pool, b: Pool, t: nat): Pool { if t < n then a else b }

  /** The first k goroutines have failed on their first provider and seek any. */
  function Gathered(pools: set<Pool>, n: nat, a: Pool, b: Pool, k: nat): map<nat, Phase> {
    map t: nat | t < k :: Seeking(pools, Some(FirstOf(n, a, b, t)))
  }

  /** Of all of them, the first k hold a slot of the other provider. */
  function Crossed(pools: set<Pool>, n: nat, a: Pool, b: Pool, all: nat, k: nat): map<nat, Phase> {
    map t: nat | t < all ::
      if t < k then Swapping(HeldOf(n, a, b, t), FirstOf(n, a, b, t)) else Seeking(pools, Some(FirstOf(n, a, b, t)))
  }

  function Range(lo: nat, hi: nat): (r: set<nat>)
    requires lo <= hi
    ensures |r| == hi - lo && forall t :: t in r <==> lo <= t < hi
  {
    if lo == hi then {} else Range(lo, hi - 1) + {hi - 1}
  }

  lemma HolderIff(pools: set<Pool>, n: nat, a: Pool, b: Pool, all: nat, k: nat, t: nat)
    requires a != b && k <= all
    ensures t in Holders(Crossed(pools, n, a, b, all, k), a) <==> t < k && t < n
    ensures t in Holders(Crossed(pools, n, a, b, all, k), b) <==> n <= t < k
  {}

  lemma CrossedHolders(pools: set<Pool>, n: nat, a: Pool, b: Pool, all: nat, k: nat)
    requires a != b && k <= all && n <= all
    ensures |Holders(Crossed(pools, n, a, b, all, k), a)| == if k < n then k else n
    ensures |Holders(Crossed(pools, n, a, b, all, k), b)| == if k < n then 0 else k - n
  {
    hide Holders, Crossed, Range;
    var m := if k < n then k else n;
    forall t: nat ensures t in Holders(Crossed(pools, n, a, b, all, k), a) <==> t in Range(0, m)
                  ensures t in Holders(Crossed(pools, n, a, b, all, k), b) <==> t in Range(m, k)
    {
      HolderIff(pools, n, a, b, all, k, t);
    }
    assert Holders(Crossed(pools, n, a, b, all, k), a) == Range(0, m);
    assert Holders(Crossed(pools, n, a, b, all, k), b) == Range(m, k);
  }

  /** One more goroutine takes a connection of its first provider and fails on it. */
  lemma GatherOne(max: map<Pool, nat>, n: nat, a: Pool, b: Pool, k: nat) returns (events: seq<Event>)
    requires a in max && b in max && max[a] > 0 && max[b] > 0
    ensures Run(State(max, Gathered(max.Keys, n, a, b, k)), events) == Some(State(max, Gathered(max.Keys, n, a, b, k + 1)))
  {
    var f := FirstOf(n, a, b, k);
    events := [Enter(k, max.Keys), Take(k, f), Retry(k)];
    var s0 := State(max, Gathered(max.Keys, n, a, b, k));
    var s1 := With(s0, k, Seeking(max.Keys, None));
    var s2 := With(s1, k, Working(f, f));
    var s3 := With(s2, k, Seeking(max.Keys, Some(f)));
    assert Holders(s1.phases, f) == {};
    assert s3.phases == Gathered(max.Keys, n, a, b, k + 1);
    hide Gathered, Holders;
    assert Fire(s0, events[0]) == Some(s1) && Fire(s1, events[1]) == Some(s2) && Fire(s2, events[2]) == Some(s3);
    Runs.RunAlong(Fire, [s0, s1, s2, s3], events);
  }

  lemma {:induction false} GatherAll(max: map<Pool, nat>, n: nat, a: Pool, b: Pool, k: nat) returns (events: seq<Event>)
    requires a in max && b in max && max[a] > 0 && max[b] > 0
    ensures Run(State(max, map[]), events) == Some(State(max, Gathered(max.Keys, n, a, b, k)))
  {
    if k == 0 {
      events := [];
      assert Gathered(max.Keys, n, a, b, 0) == map[];
    } else {
      hide Gathered, Fire;
      var before := GatherAll(max, n, a, b, k - 1);
      var more := GatherOne(max, n, a, b, k - 1);
      Runs.RunSplit(Fire, State(max, map[]), before, more);
      events := before + more;
    }
  }

  /** The next goroutine gets a slot of the provider it does not prefer. */
  lemma CrossOne(max: map<Pool, nat>, a: Pool, b: Pool, k: nat)
    requires a in max && b in max && a != b && k < max[a] + max[b]
    ensures var n, all := max[a], max[a] + max[b];
      Fire(State(max, Crossed(max.Keys, n, a, b, all, k)), Take(k, HeldOf(n, a, b, k)))
      == Some(State(max, Crossed(max.Keys, n, a, b, all, k + 1)))
  {
    var n, all := max[a], max[a] + max[b];
    CrossedHolders(max.Keys, n, a, b, all, k);
    hide Holders;
    var s := State(max, Crossed(max.Keys, n, a, b, all, k));
    assert Free(s, HeldOf(n, a, b, k));
    assert With(s, k, Swapping(HeldOf(n, a, b, k), FirstOf(n, a, b, k))).phases == Crossed(max.Keys, n, a, b, all, k + 1);
  }

  lemma {:induction false} CrossAll(max: map<Pool, nat>, a: Pool, b: Pool, k: nat) returns (events: seq<Event>)
    requires a in max && b in max && a != b && max[a] > 0 && max[b] > 0 && k <= max[a] + max[b]
    ensures Run(State(max, map[]), events) == Some(State(max, Crossed(max.Keys, max[a], a, b, max[a] + max[b], k)))
  {
    if k == 0 {
      events := GatherAll(max, max[a], a, b, max[a] + max[b]);
      assert Crossed(max.Keys, max[a], a, b, max[a] + max[b], 0) == Gathered(max.Keys, max[a], a, b, max[a] + max[b]);
    } else {
      hide Crossed, Fire;
      var before := CrossAll(max, a, b, k - 1);
      CrossOne(max, a, b, k - 1);
      var ev := Take(k - 1, HeldOf(max[a], a, b, k - 1));
      Runs.RunThen(Fire, State(max, map[]), before, ev);
      events := before + [ev];
    }
  }

  /** From any two providers: as many goroutines as they have slots, crossed. */
  lemma CrossedIsStuck(max: map<Pool, nat>, a: Pool, b: Pool)
    requires a in max && b in max && a != b && forall p :: p in max ==> max[p] > 0
    ensures var s := State(max, Crossed(max.Keys, max[a], a, b, max[a] + max[b], max[a] + max[b]));
      Reachable(s) && Stuck(s)
  {
    var n, all := max[a], max[a] + max[b];
    var s := State(max, Crossed(max.Keys, n, a, b, all, all));
    var events := CrossAll(max, a, b, all);
    assert Reachable(s);
    CrossedHolders(max.Keys, n, a, b, all, all);
    hide Holders, Reachable, CanMove;
    assert 0 in s.phases && s.phases[0].Swapping?;
    StuckIff(s);
  }

  /** Failing over can get stuck exactly when there are two providers, however many connections they allow. */
  lemma CanStickIff(max: map<Pool, nat>)
    requires forall p :: p in max ==> max[p] > 0
    ensures (exists s :: Reachable(s) && s.max == max && Stuck(s)) <==> exists p, q :: p in max && q in max && p != q
  {
    if p, q :| p in max && q in max && p != q {
      CrossedIsStuck(max, p, q);
    }
    if s :| Reachable(s) && s.max == max && Stuck(s) {
      if forall p, q :: p in max && q in max ==> p == q { OnePoolNeverSticks(s); }
    }
  }

  /** Two providers with one connection each, and two goroutines that fail at the same time. */
  lemma TwoSwapAndStick()
    ensures var s := State(map[0 := 1, 1 := 1], map[0 := Swapping(0, 1), 1 := Swapping(1, 0)]);
      Reachable(s) && Stuck(s)
  {
    var max: map<Pool, nat> := map[0 := 1, 1 := 1];
    CrossedIsStuck(max, 0, 1);
    assert Crossed(max.Keys, 1, 0, 1, 2, 2) == map[0 := Swapping(0, 1), 1 := Swapping(1, 0)];
  }
}
