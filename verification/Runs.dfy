/** Runs of an event machine: its step function folded over a sequence of events. */
module Runs {
  import opened Wrappers

  /** The state after a run, or None when some event of the run was not enabled. */
  function Run<S, E>(fire: (S, E) -> Option<S>, s: S, events: seq<E>): Option<S>
    decreases |events|
  {
    if events == [] then Some(s)
    else match fire(s, events[0])
      case None => None
      case Some(s') => Run(fire, s', events[1..])
  }

  /** A run in two parts. */
  lemma {:induction false} RunSplit<S, E>(fire: (S, E) -> Option<S>, s: S, a: seq<E>, b: seq<E>)
    ensures Run(fire, s, a + b) == match Run(fire, s, a) case None => None case Some(m) => Run(fire, m, b)
    decreases |a|
  {
    if a == [] {
      assert a + b == b;
    } else {
      assert (a + b)[0] == a[0] && (a + b)[1..] == a[1..] + b;
      match fire(s, a[0])
      case None =>
      case Some(m) => RunSplit(fire, m, a[1..], b);
    }
  }

  /** A run with one more event. */
  lemma RunThen<S, E>(fire: (S, E) -> Option<S>, s: S, events: seq<E>, ev: E)
    ensures Run(fire, s, events + [ev]) ==
      match Run(fire, s, events) case None => None case Some(m) => fire(m, ev)
  {
    RunSplit(fire, s, events, [ev]);
    match Run(fire, s, events)
    case None =>
    case Some(m) =>
      assert Run(fire, m, [ev]) == match fire(m, ev) case None => None case Some(s') => Run(fire, s', [ev][1..]);
  }

  /** A run can be given by the states it passes through. */
  lemma {:induction false} RunAlong<S, E>(fire: (S, E) -> Option<S>, states: seq<S>, events: seq<E>)
    requires |states| == |events| + 1
    requires forall i :: 0 <= i < |events| ==> fire(states[i], events[i]) == Some(states[i + 1])
    ensures Run(fire, states[0], events) == Some(states[|events|])
    decreases |events|
  {
    if events != [] {
      assert fire(states[0], events[0]) == Some(states[1]);
      RunAlong(fire, states[1..], events[1..]);
    }
  }

  /** The states a run passes through, from its start to its end. */
  function States<S, E>(fire: (S, E) -> Option<S>, s: S, events: seq<E>): (states: seq<S>)
    requires Run(fire, s, events).Some?
    ensures |states| == |events| + 1
    ensures states[0] == s && states[|events|] == Run(fire, s, events).value
    ensures forall i :: 0 <= i < |events| ==> fire(states[i], events[i]) == Some(states[i + 1])
    decreases |events|
  {
    if events == [] then [s] else [s] + States(fire, fire(s, events[0]).value, events[1..])
  }
}
