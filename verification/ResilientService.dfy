/** Retries around a circuit breaker around an LLM service
    (internal/infrastructure/resilience/resilient_wrapper.go). */
module ResilientService {
  import opened Text
  import CB = CircuitBreaker
  import R = Retry

  const ERR_CIRCUIT_OPEN := "circuit breaker is open"

  datatype Reply = Answer(text: string) | Broken(error: string)

  /** What the environment does with attempt k: when the breaker is asked, and, if the inner service is
      reached, what it replies and when. */
  datatype Attempt = Attempt(enter: int, exit: int, reply: Reply)

  datatype CallResult = Rejected | Ran(reply: Reply) {
    function Error(): Option<string> {
      match this
      case Rejected => Some(ERR_CIRCUIT_OPEN)
      case Ran(Broken(e)) => Some(e)
      case Ran(Answer(_)) => None
    }
  }

  /** One `Call` of the breaker around the inner service. */
  function CallOnce(cfg: CB.Config, b: CB.Breaker, a: Attempt): (CB.Breaker, CallResult) {
    var (w, admitted) := CB.Enter(cfg, b, a.enter);
    if !admitted then (w, Rejected)
    else if a.reply.Broken? then (CB.OnFailure(cfg, w, a.exit), Ran(a.reply))
    else (CB.OnSuccess(w, a.exit), Ran(a.reply))
  }

  /** The breaker after the first k calls. */
  function BreakerAfter(cfg: CB.Config, b: CB.Breaker, env: seq<Attempt>, k: nat): CB.Breaker
    requires k <= |env|
  {
    if k == 0 then b else CallOnce(cfg, BreakerAfter(cfg, b, env, k - 1), env[k - 1]).0
  }

  function ResultAt(cfg: CB.Config, b: CB.Breaker, env: seq<Attempt>, k: nat): CallResult
    requires k < |env|
  {
    CallOnce(cfg, BreakerAfter(cfg, b, env, k), env[k]).1
  }

  /** How many of the first k calls reach the inner service. */
  function Reached(cfg: CB.Config, b: CB.Breaker, env: seq<Attempt>, k: nat): nat
    requires k <= |env|
  {
    if k == 0 then 0
    else Reached(cfg, b, env, k - 1) + if ResultAt(cfg, b, env, k - 1).Ran? then 1 else 0
  }

  /** The error of each call, as Retry sees it. */
  function Errors(cfg: CB.Config, b: CB.Breaker, env: seq<Attempt>): nat -> Option<string> {
    (k: nat) => if k < |env| then ResultAt(cfg, b, env, k).Error() else None
  }

  function Calls(cfg: CB.Config, b: CB.Breaker, env: seq<Attempt>, maxAttempts: int): (n: nat)
    requires maxAttempts <= |env|
    ensures n <= |env|
  {
    R.CallsMade(Errors(cfg, b, env), 0, maxAttempts)
  }

  class ResilientLLMService {
    const circuitBreaker: CB.CircuitBreaker
    const retryPolicy: R.RetryPolicy

    constructor (maxFailures: nat, resetTimeout: int, maxRetries: int, retryDelay: int, now: int)
      ensures fresh(circuitBreaker) && circuitBreaker.Stats() == CB.Fresh(now)
      ensures circuitBreaker.Cfg() == CB.Config(maxFailures, resetTimeout)
      ensures retryPolicy.maxAttempts == maxRetries && retryPolicy.initialDelay == retryDelay
              && retryPolicy.maxDelay == 0
    {
      circuitBreaker := new CB.CircuitBreaker(maxFailures, resetTimeout, now);
      retryPolicy := new R.RetryPolicy(maxRetries, retryDelay, 0);
    }

    method Call(a: Attempt) returns (r: CallResult)
      modifies circuitBreaker
      ensures (circuitBreaker.Stats(), r) == CallOnce(circuitBreaker.Cfg(), old(circuitBreaker.Stats()), a)
      ensures r.Ran? ==> r.reply == a.reply
    {
      var admitted := circuitBreaker.CallEnter(a.enter);
      if !admitted {
        return Rejected;
      }
      match a.reply
      case Broken(_) =>
        circuitBreaker.RecordFailure(a.exit);
        return Ran(a.reply);
      case Answer(_) =>
        circuitBreaker.RecordSuccess(a.exit);
        return Ran(a.reply);
    }

    /** The closure given to Retry is one breaker call; `env` says what each call would meet, `sleeps` are
        the durations slept in between. */
    method Complete(env: seq<Attempt>) returns (response: Option<string>, err: Option<string>, sleeps: seq<int>)
      requires retryPolicy.maxAttempts <= |env|
      modifies circuitBreaker, retryPolicy
      ensures var cfg, b := circuitBreaker.Cfg(), old(circuitBreaker.Stats());
              var n := Calls(cfg, b, env, retryPolicy.maxAttempts);
              && circuitBreaker.Stats() == BreakerAfter(cfg, b, env, n)
              && err == (if n == 0 then None else ResultAt(cfg, b, env, n - 1).Error())
              && response == (if n > 0 && err.None? then Some(env[n - 1].reply.text) else None)
              && sleeps == R.Delays(retryPolicy.initialDelay, retryPolicy.maxDelay, if n == 0 then 0 else n - 1)
              && retryPolicy.totalAttempts == R.Bumped(old(retryPolicy.totalAttempts), n)
              && retryPolicy.totalRetries == R.Bumped(old(retryPolicy.totalRetries), R.RetriesCounted(|sleeps|))
    {
      hide CallOnce, R.CallsMade, R.Bumped, R.RetriesCounted, R.DelayAt, R.Delays, R.NextDelay, R.Wrap64, R.Increment;
      hide BreakerAfter, ResultAt;
      ghost var cfg, b := circuitBreaker.Cfg(), circuitBreaker.Stats();
      var policy := retryPolicy;
      R.CallsDone(Errors(cfg, b, env), policy.maxAttempts);
      R.BumpedZero(policy.totalAttempts);
      R.BumpedZero(policy.totalRetries);
      R.DelayStart(policy.initialDelay, policy.maxDelay);
      NoCallsYet(cfg, b, env);
      response, err, sleeps := None, None, [];
      var delay := policy.initialDelay;
      var attempt := 0;
      while attempt < policy.maxAttempts
        invariant 0 <= attempt && (attempt > 0 ==> attempt <= policy.maxAttempts)
        invariant circuitBreaker.Stats() == BreakerAfter(cfg, b, env, attempt)
        invariant R.CallsMade(Errors(cfg, b, env), attempt, policy.maxAttempts)
                  == Calls(cfg, b, env, policy.maxAttempts)
        invariant response == None && (attempt > 0 ==> err.Some?) && (attempt == 0 ==> err.None?)
        invariant attempt > 0 ==> err == ResultAt(cfg, b, env, attempt - 1).Error()
        invariant |sleeps| == if attempt == 0 || attempt < policy.maxAttempts then attempt else attempt - 1
        invariant delay == R.DelayAt(policy.initialDelay, policy.maxDelay, |sleeps|)
        invariant sleeps == R.Delays(policy.initialDelay, policy.maxDelay, |sleeps|)
        invariant policy.totalAttempts == R.Bumped(old(policy.totalAttempts), attempt)
        invariant policy.totalRetries == R.Bumped(old(policy.totalRetries), R.RetriesCounted(|sleeps|))
      {
        R.CallsStep(Errors(cfg, b, env), attempt, policy.maxAttempts);
        CallStep(cfg, b, env, attempt);
        R.BumpedOnce(old(policy.totalAttempts), attempt);
        policy.totalAttempts := R.Increment(policy.totalAttempts);
        var r := Call(env[attempt]);
        err := r.Error();
        if err.None? {
          response := Some(r.reply.text);
          return;
        }
        if attempt < policy.maxAttempts - 1 {
          R.DelayStep(policy.initialDelay, policy.maxDelay, |sleeps|);
          R.CountedStep(|sleeps|);
          if attempt > 0 {
            R.BumpedOnce(old(policy.totalRetries), |sleeps| - 1);
            policy.totalRetries := R.Increment(policy.totalRetries);
          }
          sleeps := sleeps + [delay];
          delay := R.NextDelay(delay, policy.maxDelay);
        }
        attempt := attempt + 1;
        R.CallsDone(Errors(cfg, b, env), policy.maxAttempts);
      }
    }
  }

  lemma NoCallsYet(cfg: CB.Config, b: CB.Breaker, env: seq<Attempt>)
    ensures BreakerAfter(cfg, b, env, 0) == b
  {
  }

  lemma CallStep(cfg: CB.Config, b: CB.Breaker, env: seq<Attempt>, k: nat)
    requires k < |env|
    ensures (BreakerAfter(cfg, b, env, k + 1), ResultAt(cfg, b, env, k))
            == CallOnce(cfg, BreakerAfter(cfg, b, env, k), env[k])
  {
  }

  // ---------- one Complete on a closed breaker ----------

  function Min(x: int, y: int): int {
    if x <= y then x else y
  }

  /** Attempts after the one that can trip the breaker come within the reset timeout of its failure. */
  ghost predicate WithinTimeout(cfg: CB.Config, env: seq<Attempt>, trip: nat) {
    forall i :: 1 <= trip <= i < |env| ==> env[i].enter - env[trip - 1].exit <= cfg.resetTimeout
  }

  lemma FailingCall(cfg: CB.Config, c: CB.Breaker, a: Attempt)
    requires CallOnce(cfg, c, a).1.Error().Some? && cfg.maxFailures < CB.UINT32
    ensures var (d, r) := CallOnce(cfg, c, a);
            && (c.state == CB.Closed && c.failures < cfg.maxFailures ==>
                  && r.Ran? && d.failures == c.failures + 1 && d.lastFailureTime == a.exit
                  && d.state == if c.failures + 1 < cfg.maxFailures then CB.Closed else CB.Open)
            && (c.state == CB.Open && a.enter - c.lastFailureTime <= cfg.resetTimeout ==> d == c && r == Rejected)
  {
  }

  lemma AnyCall(cfg: CB.Config, c: CB.Breaker, a: Attempt)
    ensures c.state == CB.Closed ==> CallOnce(cfg, c, a).1.Ran?
    ensures c.state == CB.Open && a.enter - c.lastFailureTime <= cfg.resetTimeout ==> CallOnce(cfg, c, a).1 == Rejected
  {
  }

  lemma {:induction false} FailingPrefix(cfg: CB.Config, b: CB.Breaker, env: seq<Attempt>, k: nat)
    requires b.state == CB.Closed && b.failures < cfg.maxFailures < CB.UINT32 && k <= |env|
    requires WithinTimeout(cfg, env, cfg.maxFailures - b.failures)
    requires forall i :: 0 <= i < k ==> ResultAt(cfg, b, env, i).Error().Some?
    ensures var c := BreakerAfter(cfg, b, env, k);
            var trip := cfg.maxFailures - b.failures;
            && Reached(cfg, b, env, k) == Min(k, trip)
            && (if k < trip then c.state == CB.Closed && c.failures == b.failures + k
                else c.state == CB.Open && c.lastFailureTime == env[trip - 1].exit)
  {
    hide CallOnce;
    if k > 0 {
      FailingPrefix(cfg, b, env, k - 1);
      assert ResultAt(cfg, b, env, k - 1).Error().Some?;
      FailingCall(cfg, BreakerAfter(cfg, b, env, k - 1), env[k - 1]);
    }
  }

  /** A `Complete` that finds the breaker closed with f consecutive failures, and whose attempts after
      the trip stay within the reset timeout, reaches the inner service exactly min(n, maxFailures - f)
      times in its n calls; if it ends in an error, n is the whole retry budget. */
  lemma CompleteReaches(cfg: CB.Config, b: CB.Breaker, env: seq<Attempt>, maxRetries: nat)
    requires b.state == CB.Closed && b.failures < cfg.maxFailures < CB.UINT32 && maxRetries <= |env|
    requires WithinTimeout(cfg, env, cfg.maxFailures - b.failures)
    ensures var n := Calls(cfg, b, env, maxRetries);
            && Reached(cfg, b, env, n) == Min(n, cfg.maxFailures - b.failures)
            && n <= maxRetries
            && (n > 0 && ResultAt(cfg, b, env, n - 1).Error().Some? ==> n == maxRetries)
  {
    hide CallOnce;
    var n := Calls(cfg, b, env, maxRetries);
    if n > 0 {
      AnyCall(cfg, BreakerAfter(cfg, b, env, n - 1), env[n - 1]);
      forall i | 0 <= i < n - 1 ensures ResultAt(cfg, b, env, i).Error().Some? {
        assert Errors(cfg, b, env)(i).Some?;
      }
      FailingPrefix(cfg, b, env, n - 1);
      assert n < maxRetries ==> Errors(cfg, b, env)(n - 1).None?;
    }
  }

  /** With a dead inner service the calls past the trip are rejected, yet each still spends a retry:
      the caller is told that the circuit is open rather than what failed. */
  lemma DeadServiceEndsRejected(cfg: CB.Config, b: CB.Breaker, env: seq<Attempt>, maxRetries: nat)
    requires b.state == CB.Closed && b.failures < cfg.maxFailures < CB.UINT32 && maxRetries <= |env|
    requires WithinTimeout(cfg, env, cfg.maxFailures - b.failures)
    requires forall i :: 0 <= i < |env| ==> env[i].reply.Broken?
    requires maxRetries > cfg.maxFailures - b.failures
    ensures Calls(cfg, b, env, maxRetries) == maxRetries
    ensures Reached(cfg, b, env, maxRetries) == cfg.maxFailures - b.failures
    ensures ResultAt(cfg, b, env, maxRetries - 1) == Rejected
  {
    forall i | 0 <= i < |env| ensures ResultAt(cfg, b, env, i).Error().Some? {
    }
    CompleteReaches(cfg, b, env, maxRetries);
    FailingPrefix(cfg, b, env, maxRetries - 1);
    var n := Calls(cfg, b, env, maxRetries);
    assert n > 0 && ResultAt(cfg, b, env, n - 1).Error().Some?;
  }

  /** A `Complete` that returns an answer, having found the breaker in whatever state, leaves it closed with
      no failures counted. */
  lemma AnswerCloses(cfg: CB.Config, b: CB.Breaker, env: seq<Attempt>, maxRetries: nat)
    requires maxRetries <= |env| && Calls(cfg, b, env, maxRetries) > 0
    requires var n := Calls(cfg, b, env, maxRetries); ResultAt(cfg, b, env, n - 1).Error().None?
    ensures var n := Calls(cfg, b, env, maxRetries);
            && ResultAt(cfg, b, env, n - 1) == Ran(env[n - 1].reply) && env[n - 1].reply.Answer?
            && BreakerAfter(cfg, b, env, n).state == CB.Closed && BreakerAfter(cfg, b, env, n).failures == 0
  {
    var n := Calls(cfg, b, env, maxRetries);
    AnsweredCall(cfg, BreakerAfter(cfg, b, env, n - 1), env[n - 1]);
  }

  lemma AnsweredCall(cfg: CB.Config, c: CB.Breaker, a: Attempt)
    requires CallOnce(cfg, c, a).1.Error().None?
    ensures var (d, r) := CallOnce(cfg, c, a);
            r == Ran(a.reply) && a.reply.Answer? && d.state == CB.Closed && d.failures == 0
  {
  }
}
