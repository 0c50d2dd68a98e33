/** The retry loop of internal/retry/retry.go and its sequence of waits. */
module Retry {
  import opened Wrappers
  import opened Errors

  datatype DelayMode = FixedDelay | BackOffDelay

  datatype Config = Config(attempts: int, delay: int, maxDelay: int, mode: DelayMode)

  datatype Attempt = Success | Retryable(error: Error) | Unrecoverable(error: Error)

  /**
   What one call of Do meets: the outcome of attempt k, the predicate of RetryIf (always
   true when not set), and the context's error before attempt k or asleep after it.
   */
  datatype World = World(
    fn: nat -> Attempt, retryIf: Error -> bool, before: nat -> Option<Error>, asleep: nat -> Option<Error>)

  function Attempts(cfg: Config): nat { if cfg.attempts <= 0 then 1 else cfg.attempts }

  /** The update of `delay` after a sleep. */
  function NextDelay(cfg: Config, delay: int): int {
    var doubled :=
      if cfg.mode == BackOffDelay && delay > 0 then
        if cfg.maxDelay > 0 && 2 * delay > cfg.maxDelay then cfg.maxDelay else 2 * delay
      else delay;
    if cfg.mode == FixedDelay && cfg.maxDelay > 0 && doubled > cfg.maxDelay then cfg.maxDelay else doubled
  }

  function DelayAfter(cfg: Config, k: nat): int {
    if k == 0 then cfg.delay else NextDelay(cfg, DelayAfter(cfg, k - 1))
  }

  function Pow2(k: nat): nat { if k == 0 then 1 else 2 * Pow2(k - 1) }

  function Min(a: int, b: int): int { if a <= b then a else b }

  /** Attempt k failed in a way that lets the loop go round again. */
  ghost predicate GoesOn(cfg: Config, w: World, k: nat)
    requires k >= 1
  {
    && w.before(k).None?
    && w.fn(k).Retryable?
    && w.retryIf(w.fn(k).error)
    && k < Attempts(cfg)
    && (DelayAfter(cfg, k - 1) > 0 ==> w.asleep(k).None?)
  }

  /** How attempt k, where the loop stops, decides the result; `ran` says whether fn was called in it. */
  ghost predicate StopsWith(cfg: Config, w: World, k: nat, ran: bool, r: Result<(), Error>)
    requires k >= 1
  {
    if w.before(k).Some? then !ran && r == Err(w.before(k).value)
    else
      ran && match w.fn(k)
        case Success => r == Ok(())
        case Unrecoverable(e) => r == Err(e)
        case Retryable(e) =>
          if !w.retryIf(e) || k == Attempts(cfg) then r == Err(e)
          else DelayAfter(cfg, k - 1) > 0 && w.asleep(k).Some? && r == Err(w.asleep(k).value)
  }

  method Do(cfg: Config, w: World) returns (r: Result<(), Error>, runs: nat, waits: seq<int>, ghost last: nat)
    ensures 1 <= last <= Attempts(cfg) && last - 1 <= runs <= last
    ensures runs <= if cfg.attempts >= 1 then cfg.attempts else 1
    ensures forall k :: 1 <= k < last ==> GoesOn(cfg, w, k)
    ensures StopsWith(cfg, w, last, runs == last, r)
    ensures last - 1 <= |waits| <= runs
    ensures forall k {:trigger waits[k]} :: 0 <= k < |waits| ==> waits[k] == DelayAfter(cfg, k)
  {
    var attempts := if cfg.attempts <= 0 then 1 else cfg.attempts;
    var delay := cfg.delay;
    runs, waits := 0, [];
    var attempt := 1;
    while true
      invariant 1 <= attempt <= attempts == Attempts(cfg)
      invariant runs == attempt - 1 == |waits|
      invariant delay == DelayAfter(cfg, attempt - 1)
      invariant forall k {:trigger waits[k]} :: 0 <= k < |waits| ==> waits[k] == DelayAfter(cfg, k)
      invariant forall k :: 1 <= k < attempt ==> GoesOn(cfg, w, k)
      decreases attempts - attempt
    {
      last := attempt;
      if w.before(attempt).Some? {
        return Err(w.before(attempt).value), runs, waits, last;
      }
      runs := runs + 1;
      var outcome := w.fn(attempt);
      if outcome.Success? {
        return Ok(()), runs, waits, last;
      }
      if outcome.Unrecoverable? || !w.retryIf(outcome.error) || attempt == attempts {
        return Err(outcome.error), runs, waits, last;
      }
      waits := waits + [delay];
      if delay > 0 && w.asleep(attempt).Some? {
        return Err(w.asleep(attempt).value), runs, waits, last;
      }
      delay := NextDelay(cfg, delay);
      attempt := attempt + 1;
    }
  }

  lemma {:induction false} Pow2Positive(k: nat)
    ensures Pow2(k) > 0
  {
    if k > 0 { Pow2Positive(k - 1); }
  }

  lemma Doubled(delay: int, p: int)
    ensures delay * (2 * p) == 2 * (delay * p)
    ensures delay > 0 && p > 0 ==> delay * p > 0
  {}

  /** Doubling up to a cap: the k-th wait under backoff. */
  lemma {:induction false} BackOffWaits(cfg: Config, k: nat)
    requires cfg.mode == BackOffDelay && 0 < cfg.delay <= cfg.maxDelay
    ensures DelayAfter(cfg, k) == Min(cfg.delay * Pow2(k), cfg.maxDelay)
  {
    if k > 0 {
      BackOffWaits(cfg, k - 1);
      Pow2Positive(k - 1);
      Doubled(cfg.delay, Pow2(k - 1));
    }
  }

  /** Doubling without a cap. */
  lemma {:induction false} UncappedWaits(cfg: Config, k: nat)
    requires cfg.mode == BackOffDelay && cfg.maxDelay <= 0 < cfg.delay
    ensures DelayAfter(cfg, k) == cfg.delay * Pow2(k)
  {
    if k > 0 {
      UncappedWaits(cfg, k - 1);
      Pow2Positive(k - 1);
      Doubled(cfg.delay, Pow2(k - 1));
    }
  }

  /** With a first delay above the cap, only the first wait differs. */
  lemma {:induction false} CappedWaits(cfg: Config, k: nat)
    requires cfg.mode == BackOffDelay && 0 < cfg.maxDelay < cfg.delay && k > 0
    ensures DelayAfter(cfg, k) == cfg.maxDelay
  {
    if k > 1 { CappedWaits(cfg, k - 1); }
  }

  /** A fixed delay is cut to the cap from the second wait on. */
  lemma {:induction false} FixedWaits(cfg: Config, k: nat)
    requires cfg.mode == FixedDelay && k > 0
    ensures DelayAfter(cfg, k) == if cfg.maxDelay > 0 then Min(cfg.delay, cfg.maxDelay) else cfg.delay
  {
    if k > 1 { FixedWaits(cfg, k - 1); }
  }
}
