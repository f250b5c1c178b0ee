/** One guarded call: `execute`, with other callers using the same breaker at every await. */
module ResilientCall {
  import opened Wrappers
  import opened Toid
  import opened CircuitBreaker

  datatype CallKind = ReadOnly | Submit

  /** What the guarded operation returns. */
  datatype Outcome<T, E> = Good(value: T) | Bad(error: E, retriable: bool)

  datatype ResilienceError<E> = Circuit | Exhausted(error: E)

  /** One thing the call itself did, in order. */
  datatype Action<T, E> = Checked(admitted: bool) | Called(outcome: Outcome<T, E>) | Recorded(success: bool)

  /** Clock readings and what other callers did at one point. */
  datatype Turn = Turn(others: seq<Step>, decided: Instant, claimed: Instant, at: Instant)

  function Attempts(kind: CallKind, maxAttempts: U32): (n: nat)
    ensures 1 <= n <= U32_MAX
  {
    if kind == Submit then 1 else if maxAttempts == 0 then 1 else maxAttempts
  }

  /** A submission is never repeated, and a read is tried at least once. */
  lemma AttemptsIs(maxAttempts: U32)
    ensures Attempts(Submit, maxAttempts) == 1 && Attempts(ReadOnly, 0) == 1
    ensures maxAttempts >= 1 ==> Attempts(ReadOnly, maxAttempts) == maxAttempts
  {
  }

  /** How many times the operation was called. */
  function Calls<T, E>(log: seq<Action<T, E>>): nat {
    if log == [] then 0
    else Calls(log[..|log| - 1]) + if log[|log| - 1].Called? then 1 else 0
  }

  /** Every call comes right after its own successful check, and every record right after what it records. */
  ghost predicate Disciplined<T(!new), E(!new)>(log: seq<Action<T, E>>) {
    forall i :: 0 <= i < |log| ==> FollowsOn(log, i)
  }

  ghost predicate FollowsOn<T(!new), E(!new)>(log: seq<Action<T, E>>, i: nat)
    requires i < |log|
  {
    match log[i]
    case Called(_) => i > 0 && log[i - 1] == Checked(true)
    case Recorded(success) =>
      && i > 0 && log[i - 1].Called?
      && (success <==> log[i - 1].outcome.Good?)
      && (log[i - 1].outcome.Bad? ==> log[i - 1].outcome.retriable)
    case Checked(_) => i == 0 || log[i - 1] == Recorded(false)
  }

  /** What the caller is told, given what was done: the log ends in exactly the reason for the result. */
  ghost predicate Explains<T(!new), E(!new)>(log: seq<Action<T, E>>, r: Result<T, ResilienceError<E>>, attempts: nat) {
    var n := |log|;
    match r
    case Ok(value) => n >= 2 && log[n - 1] == Recorded(true) && log[n - 2] == Called(Good(value))
    case Err(Circuit) => n >= 1 && log[n - 1] == Checked(false)
    case Err(Exhausted(error)) =>
      || (n >= 1 && log[n - 1] == Called(Bad(error, false)))
      || (n >= 3 && log[n - 1] == Checked(true) && log[n - 2] == Recorded(false)
          && log[n - 3] == Called(Bad(error, true)) && Calls(log) == attempts)
  }

  /** The breaker after the logged actions, with other callers' steps in between. */
  ghost function Replay<T(!new), E(!new)>(config: Config, b: Breaker, log: seq<Action<T, E>>, env: nat -> Turn): Breaker
  {
    if log == [] then b
    else
      var done := log[..|log| - 1];
      After(config, Replay(config, b, done, env), Calls(done), log[|log| - 1], env)
  }

  /** One more action, after `calls` calls of the operation. */
  ghost function After<T(!new), E(!new)>(config: Config, b: Breaker, calls: nat, action: Action<T, E>,
                         env: nat -> Turn): Breaker
  {
    match action
    case Checked(_) =>
      var turn := env(2 * calls);
      Apply(config, Run(config, b, turn.others), Check(turn.decided, turn.claimed))
    case Called(_) => Run(config, b, env(2 * calls + 1).others)
    case Recorded(success) =>
      if success then Apply(config, b, Success) else Apply(config, b, Failure(env(2 * calls).at))
  }

  /** The action is what the breaker and the operation really answered. */
  ghost predicate True<T(!new), E(!new)>(config: Config, b: Breaker, calls: nat, action: Action<T, E>,
                         script: nat -> Outcome<T, E>, env: nat -> Turn)
  {
    match action
    case Checked(admitted) =>
      admitted <==> Admits(config, Run(config, b, env(2 * calls).others), env(2 * calls).decided)
    case Called(outcome) => outcome == script(calls)
    case Recorded(_) => true
  }

  /** A truthful, disciplined log that accounts for the breaker's state. */
  ghost predicate Story<T(!new), E(!new)>(config: Config, b: Breaker, log: seq<Action<T, E>>,
                                          script: nat -> Outcome<T, E>, env: nat -> Turn, now: Breaker)
  {
    now == Replay(config, b, log, env) && Honest(config, b, log, script, env)
  }

  ghost predicate Honest<T(!new), E(!new)>(config: Config, b: Breaker, log: seq<Action<T, E>>,
                           script: nat -> Outcome<T, E>, env: nat -> Turn)
  {
    log == [] ||
    var n := |log| - 1;
    && Honest(config, b, log[..n], script, env)
    && FollowsOn(log, n)
    && True(config, Replay(config, b, log[..n], env), Calls(log[..n]), log[n], script, env)
  }

  lemma Tell<T(!new), E(!new)>(config: Config, b: Breaker, log: seq<Action<T, E>>, script: nat -> Outcome<T, E>,
               env: nat -> Turn, now: Breaker, action: Action<T, E>)
    requires Story(config, b, log, script, env, now)
    requires FollowsOn(log + [action], |log|) && True(config, now, Calls(log), action, script, env)
    ensures Story(config, b, log + [action], script, env, After(config, now, Calls(log), action, env))
    ensures Calls(log + [action]) == Calls(log) + if action.Called? then 1 else 0
  {
    assert (log + [action])[..|log|] == log;
  }

  /** Every action of an honest log follows on from the one before it. */
  lemma {:induction false} HonestIsDisciplined<T(!new), E(!new)>(config: Config, b: Breaker, log: seq<Action<T, E>>,
                                                 script: nat -> Outcome<T, E>, env: nat -> Turn)
    requires Honest(config, b, log, script, env)
    ensures Disciplined(log)
  {
    if log != [] {
      var n := |log| - 1;
      HonestIsDisciplined(config, b, log[..n], script, env);
      forall i | 0 <= i < |log| ensures FollowsOn(log, i) {
        if i < n {
          assert FollowsOn(log[..n], i);
        }
      }
    }
  }

  /** Check the breaker and write it down. */
  method TryCheck<T(!new), E(!new)>(breaker: SharedBreaker, turn: Turn, log: seq<Action<T, E>>, ghost b: Breaker,
                    ghost script: nat -> Outcome<T, E>, ghost env: nat -> Turn)
    returns (admitted: bool, longer: seq<Action<T, E>>)
    requires Story(breaker.config, b, log, script, env, breaker.Value()) && turn == env(2 * Calls(log))
    requires log == [] || log[|log| - 1] == Recorded(false)
    modifies breaker
    ensures longer == log + [Checked(admitted)] && Calls(longer) == Calls(log)
    ensures Story(breaker.config, b, longer, script, env, breaker.Value())
  {
    ghost var now := breaker.Value();
    breaker.Others(turn.others);
    admitted := breaker.Check(turn.decided, turn.claimed);
    longer := log + [Checked(admitted)];
    Tell(breaker.config, b, log, script, env, now, Checked(admitted));
  }

  /** Call the operation, which takes its time, and write down what it returned. */
  method Call<T(!new), E(!new)>(breaker: SharedBreaker, turn: Turn, log: seq<Action<T, E>>, ghost b: Breaker,
                script: nat -> Outcome<T, E>, ghost env: nat -> Turn, k: nat)
    returns (outcome: Outcome<T, E>, longer: seq<Action<T, E>>)
    requires Story(breaker.config, b, log, script, env, breaker.Value()) && k == Calls(log) && turn == env(2 * k + 1)
    requires log != [] && log[|log| - 1] == Checked(true)
    modifies breaker
    ensures outcome == script(k) && longer == log + [Called(outcome)] && Calls(longer) == k + 1
    ensures Story(breaker.config, b, longer, script, env, breaker.Value())
  {
    ghost var now := breaker.Value();
    outcome := script(k);
    breaker.Others(turn.others);
    longer := log + [Called(outcome)];
    Tell(breaker.config, b, log, script, env, now, Called(outcome));
  }

  /** Report the outcome to the breaker. */
  method Record<T(!new), E(!new)>(breaker: SharedBreaker, success: bool, turn: Turn, log: seq<Action<T, E>>,
                  ghost b: Breaker, ghost script: nat -> Outcome<T, E>, ghost env: nat -> Turn)
    returns (longer: seq<Action<T, E>>)
    requires Story(breaker.config, b, log, script, env, breaker.Value()) && turn == env(2 * Calls(log))
    requires log != [] && log[|log| - 1].Called? && (success <==> log[|log| - 1].outcome.Good?)
    requires log[|log| - 1].outcome.Bad? ==> log[|log| - 1].outcome.retriable
    modifies breaker
    ensures longer == log + [Recorded(success)] && Calls(longer) == Calls(log)
    ensures Story(breaker.config, b, longer, script, env, breaker.Value())
  {
    Tell(breaker.config, b, log, script, env, breaker.Value(), Recorded(success));
    longer := log + [Recorded(success)];
    if success {
      breaker.OnSuccess();
    } else {
      breaker.OnFailure(turn.at);
    }
  }

  /** The log so far is that of a call whose `attempt` attempts all failed retriably. */
  ghost predicate Retrying<T(!new), E(!new)>(log: seq<Action<T, E>>, attempt: nat, lastError: Option<E>) {
    var n := |log|;
    && n >= 1 && log[n - 1] == Checked(true) && Calls(log) == attempt
    && (attempt > 0 ==>
          && n >= 3 && lastError.Some?
          && log[n - 2] == Recorded(false) && log[n - 3] == Called(Bad(lastError.value, true)))
  }

  /** One turn of the loop: the final result, or None and the error to go on after. */
  method Attempt<T(!new), E(!new)>(breaker: SharedBreaker, attempt: nat, log: seq<Action<T, E>>, ghost b: Breaker,
                   script: nat -> Outcome<T, E>, env: nat -> Turn)
    returns (done: Option<Result<T, ResilienceError<E>>>, lastError: Option<E>, longer: seq<Action<T, E>>)
    requires Story(breaker.config, b, log, script, env, breaker.Value()) && Calls(log) == attempt
    requires log != [] && log[|log| - 1] == Checked(true)
    modifies breaker
    ensures Story(breaker.config, b, longer, script, env, breaker.Value()) && Calls(longer) == attempt + 1
    ensures done.None? ==> Retrying(longer, attempt + 1, lastError)
    ensures done.Some? ==> forall attempts: nat :: Explains(longer, done.value, attempts)
  {
    var outcome, admitted;
    lastError := None;
    outcome, longer := Call(breaker, env(2 * attempt + 1), log, b, script, env, attempt);
    if outcome.Good? {
      longer := Record(breaker, true, env(2 * attempt + 2), longer, b, script, env);
      return Some(Ok(outcome.value)), None, longer;
    }
    if !outcome.retriable {
      return Some(Err(Exhausted(outcome.error))), None, longer;
    }
    longer := Record(breaker, false, env(2 * attempt + 2), longer, b, script, env);
    admitted, longer := TryCheck(breaker, env(2 * attempt + 2), longer, b, script, env);
    if !admitted {
      return Some(Err(Circuit)), None, longer;
    }
    done, lastError := None, Some(outcome.error);
  }

  /**
   * `execute`: for every script of outcomes and whatever other callers do to the breaker meanwhile.
   * `script(k)` is what the k-th call of the operation returns.
   */
  method Execute<T(!new), E(!new)>(breaker: SharedBreaker, maxAttempts: U32, kind: CallKind,
                                   script: nat -> Outcome<T, E>, env: nat -> Turn)
    returns (r: Result<T, ResilienceError<E>>, log: seq<Action<T, E>>)
    modifies breaker
    ensures Calls(log) <= Attempts(kind, maxAttempts) && Disciplined(log)
    ensures kind == Submit ==> Calls(log) <= 1
    ensures Story(breaker.config, old(breaker.Value()), log, script, env, breaker.Value())
    ensures Explains(log, r, Attempts(kind, maxAttempts))
  {
    ghost var b := breaker.Value();
    var admitted;
    admitted, log := TryCheck(breaker, env(0), [], b, script, env);
    HonestIsDisciplined(breaker.config, b, log, script, env);
    if !admitted {
      return Err(Circuit), log;
    }
    var attempts := Attempts(kind, maxAttempts);
    var lastError: Option<E> := None;
    var attempt := 0;
    while attempt < attempts
      invariant 0 <= attempt <= attempts && Retrying(log, attempt, lastError)
      invariant Story(breaker.config, b, log, script, env, breaker.Value()) && Disciplined(log)
    {
      var done;
      done, lastError, log := Attempt(breaker, attempt, log, b, script, env);
      HonestIsDisciplined(breaker.config, b, log, script, env);
      if done.Some? {
        return done.value, log;
      }
      attempt := attempt + 1;
    }
    r := Err(Exhausted(lastError.value));
  }
}
