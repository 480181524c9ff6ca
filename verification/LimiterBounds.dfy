/** What a configured limit grants within one window, to a lone bucket and to each user of the shared
    limiter (internal/infrastructure/ratelimit/token_bucket.go). */
module LimiterBounds {
  import opened Text
  import opened TokenBuckets
  import opened KeyedLimiter

  function Seconds(nanoseconds: int): real {
    nanoseconds as real / 1000000000.0
  }

  /** How many intervals fit in the window: at least the number of requests. */
  function Refills(limit: RateLimit): (q: int)
    requires limit.Proper()
    ensures q >= 0
  {
    ProperIsUsable(limit);
    limit.window / limit.Interval()
  }

  // ---------- arithmetic ----------

  lemma DivideScaled(w: real, i: real, s: real)
    requires i > 0.0 && s > 0.0
    ensures (w / s) * (1.0 / (i / s)) == w / i
  {
    var x, y := w / s, i / s;
    var z := 1.0 / y;
    assert x * s == w && y * s == i && z * y == 1.0;
    assert (x * z) * i == (x * s) * (z * y);
  }

  lemma RealQuotient(w: int, i: int)
    requires w >= 0 && i > 0
    ensures (w / i) as real <= w as real / i as real < (w / i + 1) as real
  {
    var q, r := w / i, w % i;
    assert w == q * i + r && 0 <= r < i;
    ProductAsReal(q, i);
    QuotientOf(w as real, i as real, q as real, r as real);
  }

  lemma QuotientOf(w: real, i: real, q: real, r: real)
    requires i > 0.0 && w == q * i + r && 0.0 <= r < i
    ensures q <= w / i < q + 1.0
  {
    var x := w / i;
    assert x * i == w && (q + 1.0) * i == q * i + i;
    RealScale(x, q, i);
    RealScale(x, q + 1.0, i);
  }

  lemma RealScale(x: real, y: real, i: real)
    requires i > 0.0
    ensures x < y <==> x * i < y * i
  {
    assert y * i - x * i == (y - x) * i;
  }

  lemma ProductAsReal(n: int, i: int)
    ensures (n * i) as real == n as real * i as real
  {
  }

  /** One window's time earns the window divided by the interval. */
  lemma WindowEarns(limit: RateLimit)
    requires limit.Proper()
    ensures limit.Usable()
    ensures Refills(limit) as real <= Gain(Seconds(limit.window), Rate(limit.Interval())) < (Refills(limit) + 1) as real
    ensures Gain(Seconds(limit.Interval()), Rate(limit.Interval())) == 1.0
  {
    ProperIsUsable(limit);
    var w, i := limit.window, limit.Interval();
    RealQuotient(w, i);
    DivideScaled(w as real, i as real, 1000000000.0);
    DivideScaled(i as real, i as real, 1000000000.0);
  }

  /** The refills of one window are the requests exactly if the division leaves less than one interval. */
  lemma RefillsAreRequestsIff(limit: RateLimit)
    requires limit.Proper()
    ensures Refills(limit) >= limit.requests
    ensures Refills(limit) == limit.requests <==> limit.window % limit.requests < limit.window / limit.requests
  {
    ProperIsUsable(limit);
    var w, n := limit.window, limit.requests;
    var i, r := w / n, w % n;
    assert w == n * i + r;
    Divides(w, n, i, r);
  }

  lemma Divides(w: int, n: int, i: int, r: int)
    requires n >= 1 && i >= 1 && w == n * i + r && 0 <= r
    ensures w / i >= n && (w / i == n <==> r < i)
  {
    var q, s := w / i, w % i;
    assert w == q * i + s && 0 <= s < i;
    assert (q - n) * i == r - s;
    SmallProduct(q - n, i, r - s);
  }

  lemma SmallProduct(d: int, i: int, p: int)
    requires i >= 1 && d * i == p && p > -i
    ensures d >= 0 && (d == 0 <==> p == 0) && (d >= 1 ==> p >= i)
  {
    assert (d + 1) * i == p + i && (d - 1) * i == p - i;
    ProductSign(d + 1, i);
    ProductSign(d, i);
    ProductSign(d - 1, i);
  }

  lemma ProductSign(d: int, i: int)
    requires i >= 1
    ensures (d > 0 <==> d * i > 0) && (d < 0 <==> d * i < 0)
  {
    if d > 0 {
      assert d * i >= i;
    } else if d < 0 {
      assert d * i <= -i;
    }
  }

  // ---------- the bound ----------

  /** In one window a limit of n requests never grants more than n and what refills meanwhile; that is 2n
      when the division leaves less than one interval. */
  lemma WithinOneWindow(limit: RateLimit, b: Bucket, times: seq<real>, i: nat, j: nat, s: real)
    requires limit.Proper() && Fits(limit, b) && Ordered(b, times) && i <= j <= |times|
    requires forall k :: i <= k < j ==> s <= times[k] <= s + Seconds(limit.window)
    ensures Count(Answers(b, times)[i..j]) <= limit.requests + Refills(limit)
    ensures limit.window % limit.requests < limit.window / limit.requests ==>
              Count(Answers(b, times)[i..j]) <= 2 * limit.requests
  {
    WindowEarns(limit);
    RefillsAreRequestsIff(limit);
    hide Gain, Rate, Refills;
    WindowBound(b, times, i, j, s, Seconds(limit.window));
    BelowNext(Count(Answers(b, times)[i..j]), limit.requests + Refills(limit));
  }

  /** A bucket that the limiter made for this limit. */
  ghost predicate Fits(limit: RateLimit, b: Bucket)
    requires limit.Proper()
  {
    ProperIsUsable(limit);
    b.Valid() && b.capacity == limit.requests && b.rate == Rate(limit.Interval())
  }

  lemma FreshFits(limit: RateLimit, now: real)
    requires limit.Proper()
    ensures limit.Usable() && Fits(limit, FreshBucket(limit, now))
  {
    ProperIsUsable(limit);
  }

  lemma BelowNext(c: int, n: int)
    requires c as real < (n + 1) as real
    ensures c <= n
  {
  }

  // ---------- it is reached ----------

  /** A bucket that holds k tokens grants k requests at once. */
  lemma {:induction false} Burst(b: Bucket, t: real, k: nat)
    requires b.Valid() && b.last <= t && b.Refilled(t) >= k as real
    ensures var times := seq(k, _ => t);
            && Answers(b, times) == seq(k, _ => true)
            && (k > 0 ==> After(b, times) == b.(tokens := b.Refilled(t) - k as real, last := t))
    decreases k
  {
    hide Gain, Bucket.Refilled;
    if k > 0 {
      var times := seq(k, _ => t);
      var b' := Serve(b, t).0;
      ServeKeepsValid(b, t);
      assert b' == b.(tokens := b.Refilled(t) - 1.0, last := t);
      RefillNow(b');
      Burst(b', t, k - 1);
      assert times[0] == t && times[1..] == seq(k - 1, _ => t);
    }
  }

  /** k times, each d after the one before. */
  function Drips(t: real, d: real, k: nat): (times: seq<real>)
    ensures |times| == k
    decreases k
  {
    if k == 0 then [] else [t + d] + Drips(t + d, d, k - 1)
  }

  lemma {:induction false} DripsWithin(t: real, d: real, k: nat)
    requires d >= 0.0
    ensures forall i :: 0 <= i < k ==> t <= Drips(t, d, k)[i] <= t + k as real * d
    ensures forall i, j :: 0 <= i < j < k ==> Drips(t, d, k)[i] <= Drips(t, d, k)[j]
    decreases k
  {
    if k > 0 {
      DripsWithin(t + d, d, k - 1);
      OneMore(k, d);
    }
  }

  lemma OneMore(k: int, d: real)
    requires k >= 1 && d >= 0.0
    ensures k as real * d == (k - 1) as real * d + d >= d
  {
  }

  /** An empty bucket that earns one token each d grants one request each d. */
  lemma {:induction false} DripsGranted(b: Bucket, t: real, d: real, k: nat)
    requires b.Valid() && b.capacity >= 1 && b.tokens == 0.0 && b.last == t && Gain(d, b.rate) == 1.0
    ensures Answers(b, Drips(t, d, k)) == seq(k, _ => true)
    decreases k
  {
    hide Gain;
    if k > 0 {
      var next := t + d;
      assert next - b.last == d;
      var b' := Serve(b, next).0;
      assert Serve(b, next).1 && b' == b.(tokens := 0.0, last := next);
      DripsGranted(b', next, d, k - 1);
      assert Drips(t, d, k)[1..] == Drips(next, d, k - 1);
    }
  }

  /** All the requests of a limit at once, then one each interval. */
  function Greedy(limit: RateLimit, t: real): (times: seq<real>)
    requires limit.Proper()
    ensures |times| == limit.requests + Refills(limit)
  {
    ProperIsUsable(limit);
    seq(limit.requests, _ => t) + Drips(t, Seconds(limit.Interval()), Refills(limit))
  }

  lemma GreedyWithin(limit: RateLimit, t: real)
    requires limit.Proper()
    ensures forall i :: 0 <= i < |Greedy(limit, t)| ==> t <= Greedy(limit, t)[i] <= t + Seconds(limit.window)
    ensures forall i, j :: 0 <= i < j < |Greedy(limit, t)| ==> Greedy(limit, t)[i] <= Greedy(limit, t)[j]
  {
    hide Drips, Refills, Seconds;
    ProperIsUsable(limit);
    IntervalsFit(limit);
    DripsWithin(t, Seconds(limit.Interval()), Refills(limit));
  }

  /** The bound is reached by every limit: all these requests are granted, and they lie in one window. */
  lemma BoundIsReached(limit: RateLimit, t: real)
    requires limit.Proper()
    ensures limit.Usable()
    ensures forall i :: 0 <= i < |Greedy(limit, t)| ==> t <= Greedy(limit, t)[i] <= t + Seconds(limit.window)
    ensures forall i, j :: 0 <= i < j < |Greedy(limit, t)| ==> Greedy(limit, t)[i] <= Greedy(limit, t)[j]
    ensures Answers(FreshBucket(limit, t), Greedy(limit, t)) == seq(limit.requests + Refills(limit), _ => true)
  {
    ProperIsUsable(limit);
    GreedyWithin(limit, t);
    WindowEarns(limit);
    FreshFits(limit, t);
    hide Answers, Drips, Refills, Seconds, Gain, Rate, RateLimit.Interval, RateLimit.Usable;
    BurstThenDrips(FreshBucket(limit, t), limit.requests, t, Seconds(limit.Interval()), Refills(limit));
  }

  lemma IntervalsFit(limit: RateLimit)
    requires limit.Proper()
    ensures limit.Usable() && Seconds(limit.Interval()) >= 0.0
    ensures Refills(limit) as real * Seconds(limit.Interval()) <= Seconds(limit.window)
  {
    ProperIsUsable(limit);
    var w, i := limit.window, limit.Interval();
    var q := w / i;
    assert q * i <= w;
    ProductAsReal(q, i);
    ScaleDown(q as real, i as real, w as real, 1000000000.0);
  }

  lemma ScaleDown(q: real, i: real, w: real, s: real)
    requires s > 0.0 && q * i <= w
    ensures q * (i / s) <= w / s
  {
    var x, y := q * (i / s), w / s;
    assert (i / s) * s == i && y * s == w;
    assert x * s == q * ((i / s) * s);
    RealScale(y, x, s);
  }

  lemma BurstThenDrips(b: Bucket, n: nat, t: real, d: real, q: nat)
    requires b.Valid() && b.capacity == n >= 1 && b.tokens == n as real && b.last == t && Gain(d, b.rate) == 1.0
    ensures Answers(b, seq(n, _ => t) + Drips(t, d, q)) == seq(n + q, _ => true)
  {
    hide Gain, Answers, After, Drips;
    var first, second := seq(n, _ => t), Drips(t, d, q);
    RefillNow(b);
    Burst(b, t, n);
    DripsGranted(After(b, first), t, d, q);
    AnswersSplit(b, first + second, n);
    assert (first + second)[..n] == first && (first + second)[n..] == second;
    var all := Answers(b, first + second);
    assert all == all[..n] + all[n..];
  }

  // ---------- the shared limiter ----------

  /** The times at which one user asks for one action. */
  function TimesFor(ops: seq<Op>, user: string, action: string): seq<real> {
    if ops == [] then []
    else (if IsFor(ops[0], user, action) then [ops[0].time] else []) + TimesFor(ops[1..], user, action)
  }

  /** No reset reaches the pair's bucket. */
  ghost predicate NeverReset(ops: seq<Op>, user: string, action: string) {
    forall i :: 0 <= i < |ops| && ops[i].Forget? ==> !ResetDrops(ops[i].user, Key(user, action))
  }

  function Asks(times: seq<real>): seq<LoneOp> {
    if times == [] then [] else [Ask(times[0])] + Asks(times[1..])
  }

  lemma {:induction false} ProjectAsks(ops: seq<Op>, user: string, action: string)
    requires NeverReset(ops, user, action)
    ensures Project(ops, user, action) == Asks(TimesFor(ops, user, action))
    decreases |ops|
  {
    hide ResetDrops;
    if ops != [] {
      assert forall i :: 0 <= i < |ops[1..]| ==> ops[1..][i] == ops[i + 1];
      ProjectAsks(ops[1..], user, action);
      var rest := TimesFor(ops[1..], user, action);
      if IsFor(ops[0], user, action) {
        assert ([ops[0].time] + rest)[1..] == rest;
      } else {
        assert [] + rest == rest;
      }
    }
  }

  /** A lone bucket that is never dropped answers as a token bucket does. */
  lemma {:induction false} LoneIsBucket(limit: RateLimit, b: Bucket, times: seq<real>)
    requires limit.Usable()
    ensures LoneAnswers(limit, Some(b), Asks(times)) == Answers(b, times)
    decreases |times|
  {
    hide Serve;
    if times != [] {
      LoneIsBucket(limit, Serve(b, times[0]).0, times[1..]);
      assert Asks(times)[1..] == Asks(times[1..]);
    }
  }

  /** The bucket that serves the pair: the one found, or the one made at its first request. */
  function ServingBucket(limit: RateLimit, m: Buckets, key: string, times: seq<real>): Bucket
    requires limit.Usable() && times != []
  {
    if key in m then m[key] else FreshBucket(limit, times[0])
  }

  /** The table gives this limit to the action: its own entry comes first, the default entry only if it has
      none. */
  ghost predicate Configured(limits: Limits, action: string, limit: RateLimit) {
    if action in limits then limit == limits[action]
    else "default" in limits && limit == limits["default"]
  }

  lemma ConfiguredLimit(limits: Limits, action: string, limit: RateLimit)
    requires Configured(limits, action, limit)
    ensures LimitFor(limits, action) == limit
  {
  }

  /** So what one user gets for one action from the shared limiter is what one token bucket with the action's
      configured limit answers. */
  lemma SharedIsBucket(limits: Limits, m: Buckets, ops: seq<Op>, user: string, action: string, limit: RateLimit)
    requires forall i :: 0 <= i < |ops| ==> Legal(limits, ops[i])
    requires ':' !in user && Configured(limits, action, limit) && limit.Usable() && NeverReset(ops, user, action)
    requires TimesFor(ops, user, action) != []
    ensures var times := TimesFor(ops, user, action);
            AnswersFor(limits, m, ops, user, action)
            == Answers(ServingBucket(limit, m, Key(user, action), times), times)
  {
    ConfiguredLimit(limits, action, limit);
    hide Serve, Legal, LimitFor, Key, FreshBucket, RateLimit.Usable, NeverReset, IsFor, Configured;
    var times := TimesFor(ops, user, action);
    PerKeyProjection(limits, m, ops, user, action);
    ProjectAsks(ops, user, action);
    var found := Find(m, Key(user, action));
    var b := ServingBucket(limit, m, Key(user, action), times);
    LoneIsBucket(limit, b, times);
    if found.None? {
      assert Asks(times)[0] == Ask(times[0]);
      assert LoneAnswers(limit, None, Asks(times)) == LoneAnswers(limit, Some(b), Asks(times));
    }
  }

  /** Hence the bound of the configured limit holds for each user and action of the shared limiter, whatever
      the others do. */
  lemma SharedWithinOneWindow(limits: Limits, m: Buckets, ops: seq<Op>, user: string, action: string, limit: RateLimit,
                              i: nat, j: nat, s: real)
    requires forall i :: 0 <= i < |ops| ==> Legal(limits, ops[i])
    requires ':' !in user && Configured(limits, action, limit) && limit.Proper() && NeverReset(ops, user, action)
    requires var key, times := Key(user, action), TimesFor(ops, user, action);
             && i <= j <= |times|
             && (key in m ==> Fits(limit, m[key]) && (times != [] ==> m[key].last <= times[0]))
             && (forall i, j :: 0 <= i < j < |times| ==> times[i] <= times[j])
             && (forall k :: i <= k < j ==> s <= times[k] <= s + Seconds(limit.window))
    ensures var answers := AnswersFor(limits, m, ops, user, action);
            && |answers| == |TimesFor(ops, user, action)|
            && Count(answers[i..j]) <= limit.requests + Refills(limit)
  {
    hide AnswersFor, Answers, Legal, LimitFor, Key, FreshBucket, NeverReset, TimesFor, Configured;
    var key, times := Key(user, action), TimesFor(ops, user, action);
    ProperIsUsable(limit);
    if times == [] {
      NoRequestsNoAnswers(limits, m, ops, user, action, limit);
    } else {
      SharedIsBucket(limits, m, ops, user, action, limit);
      FreshFits(limit, times[0]);
      var b := ServingBucket(limit, m, key, times);
      FreshStarts(limit, times[0]);
      WithinOneWindow(limit, b, times, i, j, s);
    }
  }

  lemma FreshStarts(limit: RateLimit, now: real)
    requires limit.Usable()
    ensures FreshBucket(limit, now).last == now
  {
  }

  lemma NoRequestsNoAnswers(limits: Limits, m: Buckets, ops: seq<Op>, user: string, action: string, limit: RateLimit)
    requires forall i :: 0 <= i < |ops| ==> Legal(limits, ops[i])
    requires ':' !in user && Configured(limits, action, limit) && limit.Usable() && NeverReset(ops, user, action)
    requires TimesFor(ops, user, action) == []
    ensures AnswersFor(limits, m, ops, user, action) == []
  {
    ConfiguredLimit(limits, action, limit);
    hide Legal, LimitFor, Key, RateLimit.Usable, NeverReset, IsFor, Configured;
    PerKeyProjection(limits, m, ops, user, action);
    ProjectAsks(ops, user, action);
  }

  /** And no admission choice under the same refills and cap serves the user better at any prefix. */
  lemma SharedIsOptimal(limits: Limits, m: Buckets, ops: seq<Op>, user: string, action: string, limit: RateLimit,
                        choice: seq<bool>, k: nat)
    requires forall i :: 0 <= i < |ops| ==> Legal(limits, ops[i])
    requires ':' !in user && Configured(limits, action, limit) && limit.Usable() && NeverReset(ops, user, action)
    requires var times := TimesFor(ops, user, action);
             && times != [] && |choice| == |times| && k <= |times|
             && var b := ServingBucket(limit, m, Key(user, action), times);
             b.Valid() && Ordered(b, times) && Admissible(b, times, choice)
    ensures var answers := AnswersFor(limits, m, ops, user, action);
            |answers| == |choice| && Count(choice[..k]) <= Count(answers[..k])
  {
    hide *;
    var times := TimesFor(ops, user, action);
    SharedIsBucket(limits, m, ops, user, action, limit);
    GreedyIsOptimal(ServingBucket(limit, m, Key(user, action), times), times, choice, k);
  }

  /** Two tables that give the action the same limit give it the same answers, resets included: where it has
      its own entry no other one matters, the default entry neither. */
  lemma OnlyOwnLimitMatters(limits: Limits, other: Limits, m: Buckets, ops: seq<Op>, user: string, action: string,
                            limit: RateLimit)
    requires forall i :: 0 <= i < |ops| ==> Legal(limits, ops[i]) && Legal(other, ops[i])
    requires ':' !in user && limit.Usable() && Configured(limits, action, limit) && Configured(other, action, limit)
    ensures AnswersFor(limits, m, ops, user, action) == AnswersFor(other, m, ops, user, action)
  {
    ConfiguredLimit(limits, action, limit);
    ConfiguredLimit(other, action, limit);
    hide *;
    PerKeyProjection(limits, m, ops, user, action);
    PerKeyProjection(other, m, ops, user, action);
  }
}
