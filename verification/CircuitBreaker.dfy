/** The circuit breaker as a timed state machine under any number of concurrent callers. */
module CircuitBreaker {
  import opened Toid

  /** Instants and durations, in any unit. */
  type Instant = nat

  datatype State = Closed | Open(openedAt: Instant) | HalfOpen(probeStarted: Instant)
  datatype Config = Config(failureThreshold: U32, resetTimeout: nat)
  datatype Breaker = Breaker(state: State, failures: U32)

  const NEW := Breaker(Closed, 0)

  /** When the current refusal period began. */
  function Since(state: State): Instant
    requires !state.Closed?
  {
    match state
    case Open(openedAt) => openedAt
    case HalfOpen(probeStarted) => probeStarted
  }

  /** `Instant::elapsed`, which is zero for an instant still to come. */
  function Elapsed(since: Instant, now: Instant): nat {
    if now < since then 0 else now - since
  }

  /** One locked section; `check` reads the clock once to decide and once more when it claims the probe. */
  datatype Step = Check(decided: Instant, claimed: Instant) | Success | Failure(at: Instant)

  /** Whether `check` lets a call through. */
  predicate Admits(config: Config, b: Breaker, decided: Instant) {
    b.state.Closed? || Elapsed(Since(b.state), decided) >= config.resetTimeout
  }

  function Apply(config: Config, b: Breaker, step: Step): Breaker {
    match step
    case Check(decided, claimed) =>
      if b.state.Closed? || !Admits(config, b, decided) then b else b.(state := HalfOpen(claimed))
    case Success => Breaker(Closed, 0)
    case Failure(at) =>
      // The counter wraps at 2^32 in a release build.
      var failures := if b.failures == U32_MAX then 0 else b.failures + 1;
      Breaker(if failures >= config.failureThreshold then Open(at) else b.state, failures)
  }

  function Run(config: Config, b: Breaker, steps: seq<Step>): Breaker {
    if steps == [] then b else Apply(config, Run(config, b, steps[..|steps| - 1]), steps[|steps| - 1])
  }

  /** The breaker before step `n`. */
  function Before(config: Config, steps: seq<Step>, n: nat): Breaker
    requires n <= |steps|
  {
    Run(config, NEW, steps[..n])
  }

  // --- assumptions on runs ---------------------------------------------------------------------------

  function StartOf(step: Step): Instant {
    match step
    case Check(decided, _) => decided
    case Success => 0
    case Failure(at) => at
  }

  function EndOf(step: Step): Instant {
    match step
    case Check(_, claimed) => claimed
    case Success => 0
    case Failure(at) => at
  }

  /** The clock never runs backwards, within a step or across steps. */
  ghost predicate Monotone(steps: seq<Step>) {
    && (forall i :: 0 <= i < |steps| && steps[i].Check? ==> steps[i].decided <= steps[i].claimed)
    && (forall i, j :: 0 <= i < j < |steps| && !steps[i].Success? && !steps[j].Success? ==>
          EndOf(steps[i]) <= StartOf(steps[j]))
  }

  /** The consecutive-failure counter is never at its limit when another failure arrives. */
  ghost predicate NoOverflow(config: Config, steps: seq<Step>) {
    forall n :: 0 <= n < |steps| && steps[n].Failure? ==> Before(config, steps, n).failures < U32_MAX
  }

  // --- properties of every run ---------------------------------------------------------------------------

  lemma RunNext(config: Config, steps: seq<Step>, n: nat)
    requires n < |steps|
    ensures Before(config, steps, n + 1) == Apply(config, Before(config, steps, n), steps[n])
  {
    assert steps[..n + 1][..n] == steps[..n];
  }

  /** A breaker that is not closed has seen at least the threshold of consecutive failures. */
  lemma {:induction false} NotClosedHasFailed(config: Config, steps: seq<Step>, n: nat)
    requires n <= |steps| && NoOverflow(config, steps)
    ensures var b := Before(config, steps, n);
      !b.state.Closed? ==> b.failures >= config.failureThreshold && b.failures >= 1
  {
    if n > 0 {
      NotClosedHasFailed(config, steps, n - 1);
      RunNext(config, steps, n - 1);
    }
  }

  /** Only `on_success` closes the breaker. */
  lemma OnlySuccessCloses(config: Config, steps: seq<Step>, n: nat)
    requires n < |steps|
    requires !Before(config, steps, n).state.Closed? && Before(config, steps, n + 1).state.Closed?
    ensures steps[n].Success?
  {
    RunNext(config, steps, n);
  }

  /** A check that lets a call through although the breaker is not closed. */
  predicate Probe(config: Config, steps: seq<Step>, i: nat)
    requires i < |steps|
  {
    && steps[i].Check? && !Before(config, steps, i).state.Closed?
    && Admits(config, Before(config, steps, i), steps[i].decided)
  }

  ghost predicate NoSuccess(steps: seq<Step>, from: nat, to: nat)
    requires to <= |steps|
  {
    forall k :: from <= k < to ==> !steps[k].Success?
  }

  /** From a probe on, until a success, the refusal period starts no earlier than the probe was claimed. */
  lemma {:induction false} RefusesSince(config: Config, steps: seq<Step>, i: nat, n: nat)
    requires i < n <= |steps| && Monotone(steps) && Probe(config, steps, i) && NoSuccess(steps, i, n)
    ensures var state := Before(config, steps, n).state; !state.Closed? && Since(state) >= steps[i].claimed
    decreases n
  {
    RunNext(config, steps, n - 1);
    if n - 1 > i {
      RefusesSince(config, steps, i, n - 1);
      assert EndOf(steps[i]) <= StartOf(steps[n - 1]);
    }
  }

  /** Between two successes, any two probes are at least the reset timeout apart. */
  lemma ProbesAreSpaced(config: Config, steps: seq<Step>, i: nat, j: nat)
    requires i < j < |steps| && Monotone(steps)
    requires Probe(config, steps, i) && Probe(config, steps, j) && NoSuccess(steps, i, j)
    ensures steps[i].claimed + config.resetTimeout <= steps[j].decided
  {
    RefusesSince(config, steps, i, j);
    assert EndOf(steps[i]) <= StartOf(steps[j]);
  }

  // --- what the breaker remembers -------------------------------------------------------------------------

  /** The failures since the last success. */
  function FailuresSince(steps: seq<Step>): nat {
    if steps == [] then 0
    else
      var before := FailuresSince(steps[..|steps| - 1]);
      match steps[|steps| - 1]
      case Check(_, _) => before
      case Success => 0
      case Failure(_) => before + 1
  }

  /** The counter is that number, in 32 bits. */
  lemma {:induction false} CountIs(config: Config, steps: seq<Step>, n: nat)
    requires n <= |steps|
    ensures Before(config, steps, n).failures == FailuresSince(steps[..n]) % 0x1_0000_0000
  {
    if n > 0 {
      CountIs(config, steps, n - 1);
      RunNext(config, steps, n - 1);
      assert steps[..n][..n - 1] == steps[..n - 1];
    }
  }

  lemma {:induction false} CountFits(config: Config, steps: seq<Step>, n: nat)
    requires n <= |steps| && NoOverflow(config, steps)
    ensures Before(config, steps, n).failures == FailuresSince(steps[..n])
  {
    if n > 0 {
      CountFits(config, steps, n - 1);
      RunNext(config, steps, n - 1);
      assert steps[..n][..n - 1] == steps[..n - 1];
    }
  }

  /** It is closed exactly while there are fewer failures since the last success than the threshold. */
  lemma {:induction false} ClosedIff(config: Config, steps: seq<Step>, n: nat)
    requires n <= |steps| && NoOverflow(config, steps) && config.failureThreshold >= 1
    ensures Before(config, steps, n).state.Closed? <==> FailuresSince(steps[..n]) < config.failureThreshold
  {
    CountFits(config, steps, n);
    if n > 0 {
      ClosedIff(config, steps, n - 1);
      CountFits(config, steps, n - 1);
      RunNext(config, steps, n - 1);
      assert steps[..n][..n - 1] == steps[..n - 1];
    }
  }

  /** What each step leaves: a success a new breaker, a failure past the threshold one opened at that time. */
  lemma StepLeaves(config: Config, steps: seq<Step>, n: nat)
    requires n < |steps| && NoOverflow(config, steps)
    ensures steps[n].Success? ==> Before(config, steps, n + 1) == Breaker(Closed, 0)
    ensures steps[n].Failure? && FailuresSince(steps[..n + 1]) >= config.failureThreshold ==>
      Before(config, steps, n + 1).state == Open(steps[n].at)
    ensures Probe(config, steps, n) ==> Before(config, steps, n + 1).state == HalfOpen(steps[n].claimed)
    ensures steps[n].Check? && !Probe(config, steps, n) ==> Before(config, steps, n + 1) == Before(config, steps, n)
  {
    RunNext(config, steps, n);
    CountFits(config, steps, n + 1);
  }

  /** Only checks that were refused, or met a closed breaker, lie between. */
  ghost predicate OnlyRefusals(config: Config, steps: seq<Step>, from: nat, to: nat)
    requires to <= |steps|
  {
    forall k :: from <= k < to ==> steps[k].Check? && !Probe(config, steps, k)
  }

  lemma {:induction false} RefusalsChangeNothing(config: Config, steps: seq<Step>, i: nat, n: nat)
    requires i <= n <= |steps| && OnlyRefusals(config, steps, i, n) && NoOverflow(config, steps)
    ensures Before(config, steps, n) == Before(config, steps, i)
    decreases n
  {
    if i < n {
      RefusalsChangeNothing(config, steps, i, n - 1);
      StepLeaves(config, steps, n - 1);
    }
  }

  /**
   * After a failure past the threshold, also that of a probe, or after a probe, a call is let through exactly
   * once the reset timeout has passed since that failure or since the probe was claimed.
   */
  lemma CoolsDown(config: Config, steps: seq<Step>, i: nat, n: nat, decided: Instant)
    requires i < n <= |steps| && NoOverflow(config, steps) && OnlyRefusals(config, steps, i + 1, n)
    requires || Probe(config, steps, i)
             || (steps[i].Failure? && FailuresSince(steps[..i + 1]) >= config.failureThreshold)
    ensures var since := if steps[i].Failure? then steps[i].at else steps[i].claimed;
      Admits(config, Before(config, steps, n), decided)
      <==> config.resetTimeout == 0 || since + config.resetTimeout <= decided
  {
    StepLeaves(config, steps, i);
    RefusalsChangeNothing(config, steps, i + 1, n);
  }

  // --- what the overflow assumption is for --------------------------------------------------------------

  lemma {:induction false} Failing(config: Config, at: Instant, n: nat)
    requires 1 <= config.failureThreshold <= n <= U32_MAX
    ensures Run(config, NEW, seq(n, _ => Failure(at))) == Breaker(Open(at), n)
    decreases n
  {
    var steps := seq(n, _ => Failure(at));
    assert steps[..n - 1] == seq(n - 1, _ => Failure(at));
    if n - 1 >= config.failureThreshold {
      Failing(config, at, n - 1);
    } else {
      FailingBelow(config, at, n - 1);
    }
  }

  lemma {:induction false} FailingBelow(config: Config, at: Instant, n: nat)
    requires n < config.failureThreshold
    ensures Run(config, NEW, seq(n, _ => Failure(at))) == Breaker(Closed, n)
    decreases n
  {
    if n > 0 {
      var steps := seq(n, _ => Failure(at));
      assert steps[..n - 1] == seq(n - 1, _ => Failure(at));
      FailingBelow(config, at, n - 1);
    }
  }

  /** A closed breaker is always below its threshold, overflow or not. */
  lemma {:induction false} ClosedHasFew(config: Config, steps: seq<Step>, n: nat)
    requires n <= |steps| && config.failureThreshold >= 1
    ensures Before(config, steps, n).state.Closed? ==> Before(config, steps, n).failures < config.failureThreshold
  {
    if n > 0 {
      ClosedHasFew(config, steps, n - 1);
      RunNext(config, steps, n - 1);
    }
  }

  /** Throughout a run, not closed means enough failures, exactly when the counter never overflows. */
  lemma CountsAreKeptIff(config: Config, steps: seq<Step>)
    requires config.failureThreshold >= 1
    ensures (forall n :: 0 <= n <= |steps| && !Before(config, steps, n).state.Closed?
               ==> Before(config, steps, n).failures >= config.failureThreshold)
       <==> NoOverflow(config, steps)
  {
    if NoOverflow(config, steps) {
      forall n | 0 <= n <= |steps| && !Before(config, steps, n).state.Closed?
        ensures Before(config, steps, n).failures >= config.failureThreshold
      {
        NotClosedHasFailed(config, steps, n);
      }
    } else {
      var n :| 0 <= n < |steps| && steps[n].Failure? && Before(config, steps, n).failures == U32_MAX;
      ClosedHasFew(config, steps, n);
      RunNext(config, steps, n);
      assert !Before(config, steps, n + 1).state.Closed? && Before(config, steps, n + 1).failures == 0;
    }
  }

  /** With 2^32 consecutive failures the count wraps to zero while the breaker stays open. */
  lemma OverflowForgets(config: Config, at: Instant)
    requires config.failureThreshold >= 1
    ensures Run(config, NEW, seq(U32_MAX + 1, _ => Failure(at))) == Breaker(Open(at), 0)
  {
    var steps := seq(U32_MAX + 1, _ => Failure(at));
    Failing(config, at, U32_MAX);
    assert steps[..U32_MAX] == seq(U32_MAX, _ => Failure(at));
  }

  // --- the breaker as it runs ------------------------------------------------------------------------------

  class SharedBreaker {
    const config: Config
    var state: State
    var failures: U32

    constructor (config: Config)
      ensures this.config == config && Value() == NEW
    {
      this.config := config;
      state, failures := Closed, 0;
    }

    function Value(): Breaker
      reads this
    {
      Breaker(state, failures)
    }

    method Check(decided: Instant, claimed: Instant) returns (ok: bool)
      modifies this`state
      ensures ok <==> Admits(config, old(Value()), decided)
      ensures Value() == Apply(config, old(Value()), Step.Check(decided, claimed))
    {
      var since;
      match state {
        case Closed => return true;
        case Open(openedAt) => since := openedAt;
        case HalfOpen(probeStarted) => since := probeStarted;
      }
      if Elapsed(since, decided) >= config.resetTimeout {
        state := HalfOpen(claimed);
        return true;
      }
      ok := false;
    }

    method OnSuccess()
      modifies this
      ensures Value() == Apply(config, old(Value()), Success)
    {
      failures := 0;
      state := Closed;
    }

    method OnFailure(at: Instant)
      modifies this
      ensures Value() == Apply(config, old(Value()), Failure(at))
    {
      failures := if failures == U32_MAX then 0 else failures + 1;
      if failures >= config.failureThreshold {
        state := Open(at);
      }
    }

    /** Other callers run their locked sections. */
    method Others(steps: seq<Step>)
      modifies this
      ensures Value() == Run(config, old(Value()), steps)
    {
      var b := Run(config, Value(), steps);
      state, failures := b.state, b.failures;
    }
  }
}
