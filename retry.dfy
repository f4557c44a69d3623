/** The retry coordinator: runs an operation up to `maxRetries` times, fails
    fast on the two terminal errors, retries every other error after a capped
    exponential backoff with jitter, and raises a concurrency error once the
    last permitted attempt has failed.

    The operation is a function from the attempt index (0, 1, ...) to its
    outcome; `random(i)` is the jitter draw in [0, 1) taken before the retry
    that follows attempt i. Sleeping is not modelled: each delay is recorded
    with the `onRetry` notice that announces it. */
module Retry {
  import opened Entities

  /** What a caller may pass: every field is optional. */
  datatype RetryConfig = RetryConfig(
    maxRetries: Option<int>,
    baseBackoffMs: Option<int>,
    maxBackoffMs: Option<int>,
    jitterMs: Option<int>)

  /** The configuration the loop runs with. */
  datatype Config = Config(maxRetries: int, baseBackoffMs: int, maxBackoffMs: int, jitterMs: int)

  const DefaultConfig := Config(500, 5, 1000, 10)

  const NoOverrides := RetryConfig(None, None, None, None)

  /** The defaults overlaid with the fields the caller supplied. */
  function Merge(config: Option<RetryConfig>): Config
  {
    match config
    case None => DefaultConfig
    case Some(c) =>
      Config(c.maxRetries.GetOr(DefaultConfig.maxRetries),
             c.baseBackoffMs.GetOr(DefaultConfig.baseBackoffMs),
             c.maxBackoffMs.GetOr(DefaultConfig.maxBackoffMs),
             c.jitterMs.GetOr(DefaultConfig.jitterMs))
  }

  /** The defaults are 500 attempts, 5 ms base, 1000 ms cap and 10 ms jitter;
      passing no config and passing an empty one are the same; a supplied
      field wins over its default and leaves every other field at its default. */
  lemma MergeOverridesOwnField(c: RetryConfig)
    ensures Merge(None) == Config(500, 5, 1000, 10)
    ensures Merge(Some(NoOverrides)) == Merge(None)
    ensures c.maxRetries.Some? ==> Merge(Some(c)).maxRetries == c.maxRetries.value
    ensures c.maxRetries.None? ==> Merge(Some(c)).maxRetries == 500
    ensures c.baseBackoffMs.Some? ==> Merge(Some(c)).baseBackoffMs == c.baseBackoffMs.value
    ensures c.baseBackoffMs.None? ==> Merge(Some(c)).baseBackoffMs == 5
    ensures c.maxBackoffMs.Some? ==> Merge(Some(c)).maxBackoffMs == c.maxBackoffMs.value
    ensures c.maxBackoffMs.None? ==> Merge(Some(c)).maxBackoffMs == 1000
    ensures c.jitterMs.Some? ==> Merge(Some(c)).jitterMs == c.jitterMs.value
    ensures c.jitterMs.None? ==> Merge(Some(c)).jitterMs == 10
  {
  }

  /** Supplying every field reproduces exactly the configuration supplied. */
  lemma MergeFullConfig(cfg: Config)
    ensures Merge(Some(RetryConfig(Some(cfg.maxRetries), Some(cfg.baseBackoffMs), Some(cfg.maxBackoffMs), Some(cfg.jitterMs)))) == cfg
  {
  }

  function Pow2(n: nat): nat
  {
    if n == 0 then 1 else 2 * Pow2(n - 1)
  }

  lemma {:induction false} Pow2Monotone(a: nat, b: nat)
    requires a <= b
    ensures 1 <= Pow2(a) <= Pow2(b)
    decreases b
  {
    if a < b {
      Pow2Monotone(a, b - 1);
    } else if a > 0 {
      Pow2Monotone(a - 1, a - 1);
    }
  }

  /** The deterministic part of the delay: 2^attempt times the base, capped. */
  function Backoff(attempt: nat, cfg: Config): int
  {
    var exponential := Pow2(attempt) * cfg.baseBackoffMs;
    if exponential < cfg.maxBackoffMs then exponential else cfg.maxBackoffMs
  }

  /** The delay before the next attempt: the capped backoff plus jitter. */
  function CalculateDelay(attempt: nat, cfg: Config, random: real): real
  {
    Backoff(attempt, cfg) as real + random * cfg.jitterMs as real
  }

  /** The backoff never exceeds the cap, equals 2^attempt * base below it,
      and never decreases from one attempt to a later one (for a
      non-negative base). */
  lemma {:induction false} BackoffCappedAndMonotone(a: nat, b: nat, cfg: Config)
    requires a <= b && cfg.baseBackoffMs >= 0
    ensures Backoff(a, cfg) <= cfg.maxBackoffMs
    ensures Backoff(a, cfg) == cfg.maxBackoffMs || Backoff(a, cfg) == Pow2(a) * cfg.baseBackoffMs
    ensures Backoff(a, cfg) <= Backoff(b, cfg)
  {
    Pow2Monotone(a, b);
    MulMonotone(Pow2(a), Pow2(b), cfg.baseBackoffMs);
  }

  lemma MulMonotone(x: int, y: int, k: int)
    requires x <= y && k >= 0
    ensures x * k <= y * k
  {
  }

  /** With a draw in [0, 1) and a non-negative jitter, the delay lies in
      [backoff, backoff + jitterMs), and is exactly the backoff when the
      jitter is zero. */
  lemma DelayBounds(attempt: nat, cfg: Config, random: real)
    requires 0.0 <= random < 1.0 && cfg.jitterMs >= 0
    ensures Backoff(attempt, cfg) as real <= CalculateDelay(attempt, cfg, random)
    ensures cfg.jitterMs > 0 ==> CalculateDelay(attempt, cfg, random) < (Backoff(attempt, cfg) + cfg.jitterMs) as real
    ensures cfg.jitterMs == 0 ==> CalculateDelay(attempt, cfg, random) == Backoff(attempt, cfg) as real
  {
    var j := cfg.jitterMs as real;
    assert 0.0 <= random * j;
    assert cfg.jitterMs > 0 ==> random * j < 1.0 * j;
  }

  /** One `onRetry` notice: the number of the attempt about to run, the delay
      before it, and the error that caused it. */
  datatype Notice = Notice(attempt: nat, delay: real, error: Error)

  /** What a run of the coordinator produced: the returned value or the
      thrown error, how many times the operation ran, the `onRetry` notices in
      order, and the argument of `onMaxRetriesExceeded` if it fired. */
  datatype RetryRun<T> = RetryRun(result: Result<T>, calls: nat, retried: seq<Notice>, exceeded: Option<int>)

  predicate RetryableFailure<T>(r: Result<T>)
  {
    r.Err? && r.error.Retryable()
  }

  /** What the coordinator does with the outcome of attempt `attempt`. */
  datatype Step<T> = Return(result: Result<T>, exceeded: Option<int>) | RetryNext

  /** A success is returned; a terminal error is rethrown; a retryable error
      on the last permitted attempt fires `onMaxRetriesExceeded` and becomes
      the concurrency error; any other error is retried. */
  function Decide<T>(attempt: nat, cfg: Config, outcome: Result<T>): Step<T>
  {
    if outcome.Ok? then Return(outcome, None)
    else if !outcome.error.Retryable() then Return(outcome, None)
    else if attempt == cfg.maxRetries - 1 then Return(Err(ConcurrencyExhausted(cfg.maxRetries)), Some(cfg.maxRetries))
    else RetryNext
  }

  /** The coordinator from attempt index `attempt` on, with `lastError` the
      error of the attempt before it (the reference definition the loop is
      proved against). */
  function RetryFrom<T>(op: nat -> Result<T>, cfg: Config, random: nat -> real, attempt: nat, lastError: Option<Error>): RetryRun<T>
    decreases cfg.maxRetries - attempt
  {
    if attempt >= cfg.maxRetries then RetryRun(Err(lastError.GetOr(Unexpected)), attempt, [], None)
    else match Decide(attempt, cfg, op(attempt))
      case Return(result, exceeded) => RetryRun(result, attempt + 1, [], exceeded)
      case RetryNext =>
        var rest := RetryFrom(op, cfg, random, attempt + 1, Some(op(attempt).error));
        rest.(retried := [Notice(attempt + 1, CalculateDelay(attempt, cfg, random(attempt)), op(attempt).error)] + rest.retried)
  }

  /** The whole coordinator run with a given configuration. */
  function Run<T>(op: nat -> Result<T>, cfg: Config, random: nat -> real): RetryRun<T>
  {
    RetryFrom(op, cfg, random, 0, None)
  }

  /** Everything a run from attempt `a` can do: it calls the operation between
      once and up to the last permitted attempt; every attempt before the last
      one failed retryably and produced one notice, numbered and timed in
      order; and it ends either with the last attempt's own outcome (a success
      or a terminal error) or, when the last permitted attempt also failed
      retryably, with the concurrency error and `onMaxRetriesExceeded`. */
  lemma {:induction false} RetryFromShape<T>(op: nat -> Result<T>, cfg: Config, random: nat -> real, a: nat, last: Option<Error>)
    requires a < cfg.maxRetries
    decreases cfg.maxRetries - a
    ensures var run := RetryFrom(op, cfg, random, a, last);
      && a + 1 <= run.calls <= cfg.maxRetries
      && |run.retried| == run.calls - a - 1
      && (forall i :: a <= i < run.calls - 1 ==> RetryableFailure(op(i)))
      && (forall k :: 0 <= k < |run.retried| ==>
            run.retried[k] == Notice(a + k + 1, CalculateDelay(a + k, cfg, random(a + k)), op(a + k).error))
      && (run.exceeded.Some? <==> RetryableFailure(op(run.calls - 1)))
      && (run.exceeded.Some? ==>
            run.calls == cfg.maxRetries && run.exceeded == Some(cfg.maxRetries)
            && run.result == Err(ConcurrencyExhausted(cfg.maxRetries)))
      && (run.exceeded.None? ==> run.result == op(run.calls - 1))
  {
    var outcome := op(a);
    if outcome.Ok? || !outcome.error.Retryable() || a == cfg.maxRetries - 1 {
    } else {
      var rest := RetryFrom(op, cfg, random, a + 1, Some(outcome.error));
      RetryFromShape(op, cfg, random, a + 1, Some(outcome.error));
      var run := RetryFrom(op, cfg, random, a, last);
      var n := Notice(a + 1, CalculateDelay(a, cfg, random(a)), outcome.error);
      assert run == rest.(retried := [n] + rest.retried);
      forall k | 0 <= k < |run.retried|
        ensures run.retried[k] == Notice(a + k + 1, CalculateDelay(a + k, cfg, random(a + k)), op(a + k).error)
      {
        if k > 0 {
          assert run.retried[k] == rest.retried[k - 1];
        }
      }
    }
  }

  /** With no permitted attempt the operation never runs and the fallback
      error is raised. */
  lemma NoAttempts<T>(op: nat -> Result<T>, cfg: Config, random: nat -> real)
    requires cfg.maxRetries <= 0
    ensures Run(op, cfg, random) == RetryRun(Err(Unexpected), 0, [], None)
  {
  }

  /** A run is completely determined by the first attempt that does not fail
      retryably: if that is attempt k and k is permitted, the run returns its
      outcome after exactly k + 1 calls, with notices for attempts 1 .. k;
      if every permitted attempt fails retryably, the operation runs exactly
      maxRetries times and the concurrency error replaces the last error. */
  lemma FirstDecisiveAttempt<T>(op: nat -> Result<T>, cfg: Config, random: nat -> real, k: nat)
    requires k < cfg.maxRetries
    requires forall i :: 0 <= i < k ==> RetryableFailure(op(i))
    ensures var run := Run(op, cfg, random);
      (!RetryableFailure(op(k)) ==> run.result == op(k) && run.calls == k + 1 && run.exceeded.None?)
      && (k == cfg.maxRetries - 1 && RetryableFailure(op(k)) ==>
            run.result == Err(ConcurrencyExhausted(cfg.maxRetries)) && run.calls == cfg.maxRetries
            && run.exceeded == Some(cfg.maxRetries))
  {
    var run := Run(op, cfg, random);
    RetryFromShape(op, cfg, random, 0, None);
    if run.calls - 1 > k {
      assert RetryableFailure(op(k));
    }
  }

  /** The first attempt's success is returned after exactly one call. */
  lemma FirstSuccess<T>(op: nat -> Result<T>, cfg: Config, random: nat -> real)
    requires cfg.maxRetries >= 1 && op(0).Ok?
    ensures Run(op, cfg, random) == RetryRun(op(0), 1, [], None)
  {
  }

  /** A terminal error on the first attempt propagates unchanged after one call. */
  lemma TerminalErrorFailsFast<T>(op: nat -> Result<T>, cfg: Config, random: nat -> real)
    requires cfg.maxRetries >= 1 && op(0).Err? && (op(0).error.AccountNotFound? || op(0).error.InsufficientFunds?)
    ensures Run(op, cfg, random) == RetryRun(op(0), 1, [], None)
  {
  }

  /** The run with the notices collected so far placed in front of the
      remaining run's. */
  function Prepend<T>(ns: seq<Notice>, run: RetryRun<T>): RetryRun<T>
  {
    run.(retried := ns + run.retried)
  }

  /** One turn of the loop, when the attempt's outcome ends the run. */
  lemma ReturnStep<T>(op: nat -> Result<T>, cfg: Config, random: nat -> real, attempt: nat, lastError: Option<Error>,
                      retried: seq<Notice>, outcome: Result<T>)
    requires attempt < cfg.maxRetries && op(attempt) == outcome && Decide(attempt, cfg, outcome).Return?
    ensures Prepend(retried, RetryFrom(op, cfg, random, attempt, lastError))
         == RetryRun(Decide(attempt, cfg, outcome).result, attempt + 1, retried, Decide(attempt, cfg, outcome).exceeded)
  {
    assert retried + [] == retried;
  }

  /** One turn of the loop, when the attempt's outcome is retried. */
  lemma RetryStep<T>(op: nat -> Result<T>, cfg: Config, random: nat -> real, attempt: nat, lastError: Option<Error>,
                     retried: seq<Notice>, outcome: Result<T>)
    requires attempt < cfg.maxRetries && op(attempt) == outcome && Decide(attempt, cfg, outcome).RetryNext?
    ensures outcome.Err?
    ensures Prepend(retried, RetryFrom(op, cfg, random, attempt, lastError))
         == Prepend(retried + [Notice(attempt + 1, CalculateDelay(attempt, cfg, random(attempt)), outcome.error)],
                    RetryFrom(op, cfg, random, attempt + 1, Some(outcome.error)))
  {
    var n := Notice(attempt + 1, CalculateDelay(attempt, cfg, random(attempt)), outcome.error);
    var rest := RetryFrom(op, cfg, random, attempt + 1, Some(outcome.error));
    assert retried + ([n] + rest.retried) == (retried + [n]) + rest.retried;
  }

  /** Where the loop stands between attempts: the next attempt to make, with
      the previous error and the notices so far, or the finished run. */
  datatype Turn<T> = Pending(attempt: nat, lastError: Option<Error>, retried: seq<Notice>) | Done(run: RetryRun<T>)

  /** The loop's turn after the attempt's outcome: returned, or retried after
      a notice of the coming attempt and its delay. */
  function NextTurn<T>(turn: Turn<T>, cfg: Config, random: nat -> real, outcome: Result<T>): (next: Turn<T>)
    requires turn.Pending?
    ensures next.Done? <==> Decide(turn.attempt, cfg, outcome).Return?
    ensures next.Done? ==> next.run.calls == turn.attempt + 1 && next.run.retried == turn.retried
    ensures next.Pending? ==> outcome.Err? && next.attempt == turn.attempt + 1 && next.lastError == Some(outcome.error)
  {
    var a := turn.attempt;
    match Decide(a, cfg, outcome)
    case Return(result, exceeded) => Done(RetryRun(result, a + 1, turn.retried, exceeded))
    case RetryNext =>
      Pending(a + 1, Some(outcome.error), turn.retried + [Notice(a + 1, CalculateDelay(a, cfg, random(a)), outcome.error)])
  }

  /** The run a turn leads to. */
  ghost function Resume<T>(op: nat -> Result<T>, cfg: Config, random: nat -> real, turn: Turn<T>): RetryRun<T>
  {
    match turn
    case Done(run) => run
    case Pending(a, last, ns) => Prepend(ns, RetryFrom(op, cfg, random, a, last))
  }

  /** A turn of the loop leads to the same run, and a retried attempt was not
      the last one permitted. */
  lemma TurnStep<T>(op: nat -> Result<T>, cfg: Config, random: nat -> real, turn: Turn<T>)
    requires turn.Pending? && turn.attempt < cfg.maxRetries
    ensures var next := NextTurn(turn, cfg, random, op(turn.attempt));
      && Resume(op, cfg, random, next) == Resume(op, cfg, random, turn)
      && (next.Pending? ==> next.attempt < cfg.maxRetries)
  {
    var outcome := op(turn.attempt);
    if Decide(turn.attempt, cfg, outcome).Return? {
      ReturnStep(op, cfg, random, turn.attempt, turn.lastError, turn.retried, outcome);
    } else {
      RetryStep(op, cfg, random, turn.attempt, turn.lastError, turn.retried, outcome);
    }
  }

  /** The coordinator's loop. */
  method ExecuteWithRetry<T>(op: nat -> Result<T>, config: Option<RetryConfig>, random: nat -> real)
    returns (run: RetryRun<T>)
    ensures run == Run(op, Merge(config), random)
  {
    var cfg := Merge(config);
    var turn: Turn<T> := Pending(0, None, []);
    while turn.Pending? && turn.attempt < cfg.maxRetries
      invariant Run(op, cfg, random) == Resume(op, cfg, random, turn)
      decreases if turn.Pending? then cfg.maxRetries - turn.attempt + 1 else 0
    {
      var outcome := op(turn.attempt);
      TurnStep(op, cfg, random, turn);
      turn := NextTurn(turn, cfg, random, outcome);
    }
    match turn
    case Done(r) =>
      run := r;
    case Pending(attempt, lastError, retried) =>
      // no attempt was permitted
      run := RetryRun(Err(lastError.GetOr(Unexpected)), attempt, retried, None);
  }
}
