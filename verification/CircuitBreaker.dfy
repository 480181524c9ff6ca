/** The circuit breaker (internal/infrastructure/resilience/circuit_breaker.go).

    `Call` is two critical sections around an unlocked function, so a run is any interleaving of
    entries and exits. Each critical section reads one time, and times never decrease. */
module CircuitBreaker {
  import opened Text

  const UINT32: nat := 0x1_0000_0000
  const UINT64: nat := 0x1_0000_0000_0000_0000

  datatype Mode = Closed | Open | HalfOpen

  datatype Config = Config(maxFailures: nat, resetTimeout: int)

  datatype Breaker = Breaker(
    state: Mode, failures: nat, successCount: nat, failureCount: nat, lastFailureTime: int, lastStateChange: int)

  function Fresh(now: int): Breaker {
    Breaker(Closed, 0, 0, 0, 0, now)
  }

  /** An open breaker becomes half-open once the timeout has passed since the last failure. */
  function Wake(cfg: Config, b: Breaker, now: int): Breaker {
    if b.state == Open && now - b.lastFailureTime > cfg.resetTimeout
    then b.(state := HalfOpen, lastStateChange := now)
    else b
  }

  /** The first critical section of Call: the new breaker, and whether the function may run. */
  function Enter(cfg: Config, b: Breaker, now: int): (Breaker, bool) {
    var w := Wake(cfg, b, now);
    (w, w.state != Open)
  }

  function OnSuccess(b: Breaker, now: int): Breaker {
    var c := b.(successCount := (b.successCount + 1) % UINT64, failures := 0);
    if c.state == HalfOpen then c.(state := Closed, lastStateChange := now) else c
  }

  function OnFailure(cfg: Config, b: Breaker, now: int): Breaker {
    var c := b.(failureCount := (b.failureCount + 1) % UINT64, failures := (b.failures + 1) % UINT32,
        lastFailureTime := now);
    if c.failures >= cfg.maxFailures || c.state == HalfOpen then c.(state := Open, lastStateChange := now) else c
  }

  class CircuitBreaker {
    const maxFailures: nat
    const resetTimeout: int
    var state: Mode
    var failures: nat
    var successCount: nat
    var failureCount: nat
    var lastFailureTime: int
    var lastStateChange: int

    function Cfg(): Config {
      Config(maxFailures, resetTimeout)
    }

    function Stats(): Breaker
      reads this
    {
      Breaker(state, failures, successCount, failureCount, lastFailureTime, lastStateChange)
    }

    constructor (maxFailures: nat, resetTimeout: int, now: int)
      ensures Stats() == Fresh(now) && Cfg() == Config(maxFailures, resetTimeout)
    {
      this.maxFailures, this.resetTimeout := maxFailures, resetTimeout;
      state, failures, successCount, failureCount := Closed, 0, 0, 0;
      lastFailureTime, lastStateChange := 0, now;
    }

    method CallEnter(now: int) returns (admitted: bool)
      modifies this
      ensures (Stats(), admitted) == Enter(Cfg(), old(Stats()), now)
    {
      if state == Open && now - lastFailureTime > resetTimeout {
        state := HalfOpen;
        lastStateChange := now;
      }
      if state == Open {
        return false;
      }
      return true;
    }

    method RecordSuccess(now: int)
      modifies this
      ensures Stats() == OnSuccess(old(Stats()), now)
    {
      successCount := (successCount + 1) % UINT64;
      failures := 0;
      if state == HalfOpen {
        state := Closed;
        lastStateChange := now;
      }
    }

    method RecordFailure(now: int)
      modifies this
      ensures Stats() == OnFailure(Cfg(), old(Stats()), now)
    {
      failureCount := (failureCount + 1) % UINT64;
      failures := (failures + 1) % UINT32;
      lastFailureTime := now;
      if failures >= maxFailures {
        state := Open;
        lastStateChange := now;
      }
      if state == HalfOpen {
        state := Open;
        lastStateChange := now;
      }
    }

    method IsHalfOpen(now: int) returns (r: bool)
      modifies this
      ensures Stats() == Wake(Cfg(), old(Stats()), now) && r == (Stats().state == HalfOpen)
    {
      if state == Open && now - lastFailureTime > resetTimeout {
        state := HalfOpen;
        lastStateChange := now;
      }
      return state == HalfOpen;
    }
  }

  // ---------- interleaved runs ----------

  datatype Event = Entry(now: int) | Success(now: int) | Failure(now: int) | Poll(now: int)

  /** The breaker with what happened to it: calls in flight, and completed and rejected calls. */
  datatype System = System(b: Breaker, now: int, inFlight: nat, succeeded: nat, failed: nat, rejected: nat)

  function Start(now: int): System {
    System(Fresh(now), now, 0, 0, 0, 0)
  }

  function Step(cfg: Config, s: System, e: Event): Option<System> {
    if e.now < s.now then None
    else match e
      case Entry(now) =>
        var (b, admitted) := Enter(cfg, s.b, now);
        Some(if admitted then s.(b := b, now := now, inFlight := s.inFlight + 1)
             else s.(b := b, now := now, rejected := s.rejected + 1))
      case Success(now) =>
        if s.inFlight == 0 then None
        else Some(s.(b := OnSuccess(s.b, now), now := now, inFlight := s.inFlight - 1, succeeded := s.succeeded + 1))
      case Failure(now) =>
        if s.inFlight == 0 then None
        else Some(s.(b := OnFailure(cfg, s.b, now), now := now, inFlight := s.inFlight - 1, failed := s.failed + 1))
      case Poll(now) => Some(s.(b := Wake(cfg, s.b, now), now := now))
  }

  function Run(cfg: Config, s: System, es: seq<Event>): Option<System>
    decreases |es|
  {
    if es == [] then Some(s)
    else match Step(cfg, s, es[0])
      case None => None
      case Some(t) => Run(cfg, t, es[1..])
  }

  /** The times at which a run lets callers into the guarded function. */
  function Admissions(cfg: Config, s: System, es: seq<Event>): seq<int>
    requires Run(cfg, s, es).Some?
    decreases |es|
  {
    if es == [] then []
    else
      (if es[0].Entry? && Enter(cfg, s.b, es[0].now).1 then [es[0].now] else [])
      + Admissions(cfg, Step(cfg, s, es[0]).value, es[1..])
  }

  ghost predicate Inv(cfg: Config, s: System) {
    && (s.b.state == Closed ==> s.b.failures < cfg.maxFailures)
    && s.b.successCount == s.succeeded % UINT64
    && s.b.failureCount == s.failed % UINT64
    && (s.b.state == Open ==> s.b.lastFailureTime <= s.now)
  }

  lemma CounterWraps(n: nat)
    ensures (n % UINT64 + 1) % UINT64 == (n + 1) % UINT64
  {
  }

  lemma StepKeepsInv(cfg: Config, s: System, e: Event)
    requires 1 <= cfg.maxFailures < UINT32 && Inv(cfg, s) && Step(cfg, s, e).Some?
    ensures Inv(cfg, Step(cfg, s, e).value)
  {
    CounterWraps(s.succeeded);
    CounterWraps(s.failed);
  }

  /** In every interleaving: a closed breaker is below its threshold, and the counters count exactly
      the completed calls, so rejections and half-open polls change neither. */
  lemma {:induction false} RunKeepsInv(cfg: Config, s: System, es: seq<Event>)
    requires 1 <= cfg.maxFailures < UINT32 && Inv(cfg, s) && Run(cfg, s, es).Some?
    ensures Inv(cfg, Run(cfg, s, es).value)
    decreases |es|
  {
    if es != [] {
      StepKeepsInv(cfg, s, es[0]);
      RunKeepsInv(cfg, Step(cfg, s, es[0]).value, es[1..]);
    }
  }

  lemma EveryInterleaving(cfg: Config, t0: int, es: seq<Event>)
    requires 1 <= cfg.maxFailures < UINT32 && Run(cfg, Start(t0), es).Some?
    ensures var s := Run(cfg, Start(t0), es).value;
            && (s.b.state == Closed ==> s.b.failures < cfg.maxFailures)
            && s.b.successCount == s.succeeded % UINT64 && s.b.failureCount == s.failed % UINT64
  {
    RunKeepsInv(cfg, Start(t0), es);
  }

  /** Only a failing exit opens the breaker, and it stamps its own time. */
  lemma OpenedByFailure(cfg: Config, s: System, e: Event)
    requires Step(cfg, s, e).Some? && s.b.state != Open && Step(cfg, s, e).value.b.state == Open
    ensures e.Failure? && Step(cfg, s, e).value.b.lastFailureTime == e.now
  {
  }

  /** Until the timeout has passed since time t, an open breaker stays open whatever exits do. */
  lemma {:induction false} ShutSince(cfg: Config, s: System, es: seq<Event>, t: int)
    requires Run(cfg, s, es).Some?
    requires (s.b.state == Open && s.b.lastFailureTime >= t && s.now >= t) || s.now > t + cfg.resetTimeout
    ensures forall a :: a in Admissions(cfg, s, es) ==> a > t + cfg.resetTimeout
    decreases |es|
  {
    if es != [] {
      ShutSince(cfg, Step(cfg, s, es[0]).value, es[1..], t);
    }
  }

  /** After any step that opens the breaker at time t, no guarded function starts up to t + resetTimeout. */
  lemma NoStartWhileOpen(cfg: Config, s: System, e: Event, rest: seq<Event>)
    requires Step(cfg, s, e).Some? && s.b.state != Open && Step(cfg, s, e).value.b.state == Open
    requires Run(cfg, Step(cfg, s, e).value, rest).Some?
    ensures forall a :: a in Admissions(cfg, Step(cfg, s, e).value, rest) ==> a > e.now + cfg.resetTimeout
  {
    OpenedByFailure(cfg, s, e);
    ShutSince(cfg, Step(cfg, s, e).value, rest, e.now);
  }

  /** The number of calls that arrive. */
  function Arrivals(es: seq<Event>): nat {
    if es == [] then 0 else (if es[0].Entry? then 1 else 0) + Arrivals(es[1..])
  }

  /** The half-open state is documented to let a single test request through. Until the first exit it lets
      in every call that arrives, whenever that is. */
  lemma {:induction false} HalfOpenAdmitsAll(cfg: Config, s: System, es: seq<Event>)
    requires s.b.state == HalfOpen && Run(cfg, s, es).Some?
    requires forall i :: 0 <= i < |es| ==> es[i].Entry? || es[i].Poll?
    ensures var t := Run(cfg, s, es).value;
            && t.b == s.b && t.rejected == s.rejected && t.inFlight == s.inFlight + Arrivals(es)
            && |Admissions(cfg, s, es)| == Arrivals(es)
    decreases |es|
  {
    if es != [] {
      assert forall i :: 0 <= i < |es[1..]| ==> es[1..][i] == es[i + 1];
      HalfOpenAdmitsAll(cfg, Step(cfg, s, es[0]).value, es[1..]);
    }
  }

  // ---------- recovery ----------

  /** A caller is let in exactly if the breaker is not open, or has been for longer than the timeout since
      the last failure; it is then half-open, and a poll at that time says so. */
  lemma AdmittedIff(cfg: Config, s: System, now: int)
    requires now >= s.now
    ensures Run(cfg, s, [Entry(now)]).Some? && Run(cfg, s, [Poll(now)]).Some?
    ensures var due := s.b.state == Open && now - s.b.lastFailureTime > cfg.resetTimeout;
            && (Admissions(cfg, s, [Entry(now)]) == [now] <==> s.b.state != Open || due)
            && (Run(cfg, s, [Entry(now)]).value.b.state == HalfOpen <==> s.b.state == HalfOpen || due)
            && (Run(cfg, s, [Poll(now)]).value.b.state == HalfOpen <==> s.b.state == HalfOpen || due)
  {
    assert [Entry(now)][1..] == [] && [Poll(now)][1..] == [];
    var t, u := Step(cfg, s, Entry(now)).value, Step(cfg, s, Poll(now)).value;
    assert Run(cfg, t, []) == Some(t) && Run(cfg, u, []) == Some(u) && Admissions(cfg, t, []) == [];
  }

  function Failures(es: seq<Event>): nat {
    if es == [] then 0 else (if es[0].Failure? then 1 else 0) + Failures(es[1..])
  }

  /** A closed breaker with failures to spare stays closed, and lets everyone in. */
  lemma {:induction false} ClosedStays(cfg: Config, s: System, es: seq<Event>)
    requires cfg.maxFailures < UINT32 && Run(cfg, s, es).Some?
    requires s.b.state == Closed && s.b.failures + Failures(es) < cfg.maxFailures
    ensures Run(cfg, s, es).value.b.state == Closed && |Admissions(cfg, s, es)| == Arrivals(es)
    decreases |es|
  {
    if es != [] {
      ClosedStays(cfg, Step(cfg, s, es[0]).value, es[1..]);
    }
  }

  /** One success from any state but open, half-open included, gives the breaker its whole allowance back:
      whatever comes next, with fewer than maxFailures failures in it, everyone is let in and the breaker
      ends closed. */
  lemma SuccessRecovers(cfg: Config, s: System, t: int, es: seq<Event>)
    requires cfg.maxFailures < UINT32 && s.b.state != Open && Run(cfg, s, [Success(t)] + es).Some?
    requires Failures(es) < cfg.maxFailures
    ensures Run(cfg, s, [Success(t)] + es).value.b.state == Closed
    ensures |Admissions(cfg, s, [Success(t)] + es)| == Arrivals(es)
  {
    var all := [Success(t)] + es;
    assert all[0] == Success(t) && all[1..] == es;
    ClosedStays(cfg, Step(cfg, s, all[0]).value, es);
  }

  /** While open a late success changes nothing about admission: only the timeout lets callers in again. */
  lemma LateSuccessChangesNothing(cfg: Config, s: System, t: int)
    requires s.b.state == Open && Step(cfg, s, Success(t)).Some?
    ensures var u := Step(cfg, s, Success(t)).value;
            u.b.state == Open && u.b.lastFailureTime == s.b.lastFailureTime
  {
  }

  /** Every change of state is stamped with its time, and only a failure of an open breaker stamps without one. */
  lemma ChangesAreStamped(cfg: Config, s: System, e: Event)
    requires Step(cfg, s, e).Some?
    ensures var u := Step(cfg, s, e).value;
            && (u.b.state != s.b.state ==> u.b.lastStateChange == e.now)
            && (u.b.state == s.b.state && !(e.Failure? && s.b.state == Open) ==>
                  u.b.lastStateChange == s.b.lastStateChange)
  {
  }

  /** The breaker trips exactly at its threshold while closed, and at once while half-open. */
  lemma FailureTripsIff(cfg: Config, s: System, t: int)
    requires cfg.maxFailures < UINT32 && Step(cfg, s, Failure(t)).Some? && s.b.failures < cfg.maxFailures
    requires s.b.state != Open
    ensures Step(cfg, s, Failure(t)).value.b.state == Open
       <==> s.b.state == HalfOpen || s.b.failures + 1 == cfg.maxFailures
  {
  }

  // ---------- success-free stretches of sequential calls ----------

  /** One sequential call: entered at `enter`, and if admitted it fails at `exit`. */
  datatype Try = Try(enter: int, exit: int)

  ghost predicate Ordered(calls: seq<Try>, from: int, to: int) {
    if calls == [] then from <= to
    else from <= calls[0].enter <= calls[0].exit && Ordered(calls[1..], calls[0].exit, to)
  }

  function FailOnce(cfg: Config, b: Breaker, c: Try): (Breaker, bool) {
    var (w, admitted) := Enter(cfg, b, c.enter);
    (if admitted then OnFailure(cfg, w, c.exit) else w, admitted)
  }

  /** How many of the calls reach the guarded function. */
  function Reached(cfg: Config, b: Breaker, calls: seq<Try>): nat
    decreases |calls|
  {
    if calls == [] then 0
    else
      var (b', admitted) := FailOnce(cfg, b, calls[0]);
      (if admitted then 1 else 0) + Reached(cfg, b', calls[1..])
  }

  lemma {:induction false} OrderedSpan(calls: seq<Try>, from: int, to: int)
    requires Ordered(calls, from, to)
    ensures from <= to
    decreases |calls|
  {
    if calls != [] {
      OrderedSpan(calls[1..], calls[0].exit, to);
    }
  }

  lemma Scale(d: int, x: int, y: int)
    requires d > 0 && x <= y
    ensures d * x <= d * y
  {
  }

  lemma QuotientIs(x: int, d: int, q: int)
    requires d > 0 && d * q <= x < d * q + d
    ensures x / d == q
  {
    var p := x / d;
    assert d * p <= x < d * p + d;
    if p < q {
      Scale(d, p + 1, q);
    } else if q < p {
      Scale(d, q + 1, p);
    }
  }

  lemma QuotientMonotone(x: int, y: int, d: int)
    requires d > 0 && x <= y
    ensures x / d <= y / d
  {
    var p, q := x / d, y / d;
    assert d * p <= x && y < d * q + d;
    if p > q {
      Scale(d, q + 1, p);
    }
  }

  lemma QuotientStep(x: int, y: int, d: int)
    requires d > 0 && x + d <= y
    ensures 1 + x / d <= y / d
  {
    var p := x / d;
    assert d * p <= x < d * p + d;
    assert d * (p + 1) == d * p + d;
    QuotientIs(x + d, d, p + 1);
    QuotientMonotone(x + d, y, d);
  }

  /** From open, each further admission costs a full timeout since the failure before it. */
  lemma {:induction false} OpenPays(cfg: Config, b: Breaker, calls: seq<Try>, from: int, to: int)
    requires cfg.resetTimeout > 0 && b.state == Open && b.lastFailureTime <= from && Ordered(calls, from, to)
    ensures Reached(cfg, b, calls) <= (to - b.lastFailureTime) / cfg.resetTimeout
    decreases |calls|
  {
    OrderedSpan(calls, from, to);
    var last, d := b.lastFailureTime, cfg.resetTimeout;
    if calls == [] {
      QuotientMonotone(0, to - last, d);
    } else {
      var c := calls[0];
      var (b', admitted) := FailOnce(cfg, b, c);
      OpenPays(cfg, b', calls[1..], c.exit, to);
      if admitted {
        QuotientStep(to - c.exit, to - last, d);
      }
    }
  }

  /** From half-open the first call is free; from open it is once the timeout has passed. */
  lemma {:induction false} ProbePays(cfg: Config, b: Breaker, calls: seq<Try>, from: int, to: int)
    requires cfg.resetTimeout > 0 && b.state != Closed && Ordered(calls, from, to)
    requires b.state == Open ==> b.lastFailureTime <= from
    ensures Reached(cfg, b, calls) <= 1 + (to - from) / cfg.resetTimeout
    decreases |calls|
  {
    OrderedSpan(calls, from, to);
    if calls == [] {
      QuotientMonotone(0, to - from, cfg.resetTimeout);
    } else {
      var c := calls[0];
      var (b', admitted) := FailOnce(cfg, b, c);
      assert admitted ==> b'.state == Open && b'.lastFailureTime == c.exit;
      assert !admitted ==> b' == b && b.state == Open;
      hide FailOnce;
      OrderedSpan(calls[1..], c.exit, to);
      QuotientMonotone(to - c.exit, to - from, cfg.resetTimeout);
      if admitted {
        OpenPays(cfg, b', calls[1..], c.exit, to);
      } else {
        ProbePays(cfg, b', calls[1..], c.exit, to);
      }
    }
  }

  lemma {:induction false} ClosedPays(cfg: Config, b: Breaker, calls: seq<Try>, from: int, to: int)
    requires cfg.resetTimeout > 0 && b.state == Closed && b.failures < cfg.maxFailures < UINT32
    requires Ordered(calls, from, to)
    ensures Reached(cfg, b, calls) <= cfg.maxFailures - b.failures + (to - from) / cfg.resetTimeout
    decreases |calls|
  {
    OrderedSpan(calls, from, to);
    if calls == [] {
      QuotientMonotone(0, to - from, cfg.resetTimeout);
    } else {
      var c := calls[0];
      var (b', admitted) := FailOnce(cfg, b, c);
      assert admitted && b'.failures == b.failures + 1 && b'.lastFailureTime == c.exit;
      assert b'.state == if b.failures + 1 < cfg.maxFailures then Closed else Open;
      hide FailOnce;
      OrderedSpan(calls[1..], c.exit, to);
      QuotientMonotone(to - c.exit, to - from, cfg.resetTimeout);
      if b'.state == Closed {
        ClosedPays(cfg, b', calls[1..], c.exit, to);
      } else {
        OpenPays(cfg, b', calls[1..], c.exit, to);
      }
    }
  }

  /** In a success-free stretch of sequential calls from `from` to `to`, in whatever state the breaker
      is found, at most maxFailures + floor((to - from) / resetTimeout) calls reach the function. */
  lemma FailingStretchBound(cfg: Config, b: Breaker, calls: seq<Try>, from: int, to: int)
    requires cfg.resetTimeout > 0 && 1 <= cfg.maxFailures < UINT32 && Ordered(calls, from, to)
    requires b.state == Closed ==> b.failures < cfg.maxFailures
    requires b.state == Open ==> b.lastFailureTime <= from
    ensures Reached(cfg, b, calls) <= cfg.maxFailures + (to - from) / cfg.resetTimeout
  {
    if b.state == Closed {
      ClosedPays(cfg, b, calls, from, to);
    } else {
      ProbePays(cfg, b, calls, from, to);
    }
  }
}
