/** Token buckets and the keyed rate limiter (internal/infrastructure/ratelimit/token_bucket.go).

    Times are seconds read under the bucket's lock, so they never decrease; tokens are reals. */
module TokenBuckets {
  /** Tokens earned in `dt` seconds. */
  function Gain(dt: real, rate: real): real {
    dt * rate
  }

  datatype Bucket = Bucket(capacity: int, rate: real, tokens: real, last: real) {
    predicate Valid() {
      rate >= 0.0 && 0.0 <= tokens <= capacity as real
    }

    /** Tokens at `now`: lazily refilled, capped at the capacity. */
    function Refilled(now: real): real {
      var t := tokens + Gain(now - last, rate);
      if t > capacity as real then capacity as real else t
    }
  }

  function NewBucket(capacity: int, rate: real, now: real): Bucket {
    Bucket(capacity, rate, capacity as real, now)
  }

  /** One `Allow` at time `now`. */
  function Serve(b: Bucket, now: real): (Bucket, bool) {
    var t := b.Refilled(now);
    if t >= 1.0 then (b.(tokens := t - 1.0, last := now), true)
    else (b.(tokens := t, last := now), false)
  }

  function Answers(b: Bucket, times: seq<real>): (r: seq<bool>)
    ensures |r| == |times|
    decreases |times|
  {
    if times == [] then [] else [Serve(b, times[0]).1] + Answers(Serve(b, times[0]).0, times[1..])
  }

  function After(b: Bucket, times: seq<real>): Bucket
    decreases |times|
  {
    if times == [] then b else After(Serve(b, times[0]).0, times[1..])
  }

  /** The times are in order and none lies before the bucket's last refill. */
  ghost predicate Ordered(b: Bucket, times: seq<real>) {
    (times != [] ==> b.last <= times[0]) && forall i, j :: 0 <= i < j < |times| ==> times[i] <= times[j]
  }

  function Count(answers: seq<bool>): nat {
    if answers == [] then 0 else (if answers[0] then 1 else 0) + Count(answers[1..])
  }

  class TokenBucket {
    const capacity: int
    var tokens: real
    const refillRate: real
    var lastRefillTime: real

    function State(): Bucket
      reads this
    {
      Bucket(capacity, refillRate, tokens, lastRefillTime)
    }

    /** `refillInterval` in nanoseconds; zero would give an infinite rate. */
    constructor (capacity: int, refillInterval: int, now: real)
      requires refillInterval != 0
      ensures State() == NewBucket(capacity, Rate(refillInterval), now)
      ensures capacity >= 0 && refillInterval > 0 ==> State().Valid()
    {
      this.capacity := capacity;
      tokens := capacity as real;
      refillRate := Rate(refillInterval);
      lastRefillTime := now;
    }

    method Allow(now: real) returns (granted: bool)
      modifies this
      ensures (State(), granted) == Serve(old(State()), now)
      ensures old(State().Valid()) && old(lastRefillTime) <= now ==> State().Valid()
    {
      hide Gain;
      ghost var before := State();
      var elapsed := now - lastRefillTime;
      tokens := tokens + Gain(elapsed, refillRate);
      if tokens > capacity as real {
        tokens := capacity as real;
      }
      lastRefillTime := now;
      if before.Valid() && before.last <= now {
        ServeKeepsValid(before, now);
      }
      if tokens >= 1.0 {
        tokens := tokens - 1.0;
        return true;
      }
      return false;
    }
  }

  function Rate(refillInterval: int): (r: real)
    requires refillInterval != 0
    ensures r > 0.0 <==> refillInterval > 0
  {
    1.0 / (refillInterval as real / 1000000000.0)
  }

  // ---------- refill arithmetic ----------

  lemma GainAdds(x: real, y: real, rate: real)
    ensures Gain(x + y, rate) == Gain(x, rate) + Gain(y, rate)
  {
  }

  lemma RefillNow(b: Bucket)
    requires b.Valid()
    ensures b.Refilled(b.last) == b.tokens
  {
  }

  lemma GainNonNegative(x: real, rate: real)
    requires x >= 0.0 && rate >= 0.0
    ensures Gain(x, rate) >= 0.0
  {
  }

  lemma ServeKeepsValid(b: Bucket, now: real)
    requires b.Valid() && b.last <= now
    ensures Serve(b, now).0.Valid() && b.Refilled(now) >= 0.0 && b.Refilled(now) >= b.tokens
  {
    hide Gain;
    GainNonNegative(now - b.last, b.rate);
  }

  lemma {:induction false} AfterKeepsValid(b: Bucket, times: seq<real>)
    requires b.Valid() && Ordered(b, times)
    ensures After(b, times).Valid()
    ensures After(b, times).last == (if times == [] then b.last else times[|times| - 1])
    ensures After(b, times).capacity == b.capacity && After(b, times).rate == b.rate
    decreases |times|
  {
    hide Gain;
    if times != [] {
      ServeKeepsValid(b, times[0]);
      AfterKeepsValid(Serve(b, times[0]).0, times[1..]);
    }
  }

  /** Refilling in two steps with no token taken between them is refilling once. */
  lemma RefillTwice(b: Bucket, mid: real, now: real)
    requires b.Valid() && b.last <= mid <= now
    ensures b.(tokens := b.Refilled(mid), last := mid).Refilled(now) == b.Refilled(now)
  {
    hide Gain;
    GainNonNegative(mid - b.last, b.rate);
    GainNonNegative(now - mid, b.rate);
    GainAdds(mid - b.last, now - mid, b.rate);
  }

  // ---------- window bound ----------

  /** Granted requests are paid for by the tokens held at the start and those refilled since. */
  lemma {:induction false} GrantsArePaid(b: Bucket, times: seq<real>, span: real)
    requires b.Valid() && Ordered(b, times) && span == After(b, times).last - b.last
    ensures Count(Answers(b, times)) as real + After(b, times).tokens <= b.tokens + Gain(span, b.rate)
    decreases |times|
  {
    hide Gain;
    GainNonNegative(0.0, b.rate);
    if times != [] {
      var b' := Serve(b, times[0]).0;
      ServeKeepsValid(b, times[0]);
      AfterKeepsValid(b', times[1..]);
      var wait, span' := times[0] - b.last, After(b', times[1..]).last - times[0];
      GrantsArePaid(b', times[1..], span');
      GainAdds(wait, span', b.rate);
      assert span == wait + span';
      assert Answers(b, times)[1..] == Answers(b', times[1..]);
    }
  }

  lemma {:induction false} AnswersSplit(b: Bucket, times: seq<real>, i: nat)
    requires i <= |times|
    ensures Answers(b, times)[..i] == Answers(b, times[..i])
    ensures Answers(b, times)[i..] == Answers(After(b, times[..i]), times[i..])
    decreases |times|
  {
    hide Gain;
    if i > 0 {
      var b' := Serve(b, times[0]).0;
      AnswersSplit(b', times[1..], i - 1);
      assert times[1..][..i - 1] == times[..i][1..];
      assert times[1..][i - 1..] == times[i..];
      var a := Answers(b, times);
      assert a == [a[0]] + Answers(b', times[1..]);
      assert a[..i] == [a[0]] + Answers(b', times[1..])[..i - 1];
      assert a[i..] == Answers(b', times[1..])[i - 1..];
    } else {
      assert times[..0] == [] && times[0..] == times;
    }
  }

  /** The first request of a window may find a full bucket, but no more than that. */
  lemma GrantsFromFirst(b: Bucket, times: seq<real>, span: real)
    requires b.Valid() && Ordered(b, times) && times != [] && span == times[|times| - 1] - times[0]
    ensures Count(Answers(b, times)) as real <= b.capacity as real + Gain(span, b.rate)
  {
    hide Gain;
    var (d, granted) := Serve(b, times[0]);
    ServeKeepsValid(b, times[0]);
    AfterKeepsValid(d, times[1..]);
    GrantsArePaid(d, times[1..], span);
    assert Answers(b, times)[1..] == Answers(d, times[1..]);
  }

  lemma GainMonotone(x: real, y: real, rate: real)
    requires x <= y && rate >= 0.0
    ensures Gain(x, rate) <= Gain(y, rate)
  {
    GainNonNegative(y - x, rate);
    GainAdds(x, y - x, rate);
  }

  /** In every run and every interval [s, s + w], at most capacity + w * rate requests are granted. */
  lemma WindowBound(b: Bucket, times: seq<real>, i: nat, j: nat, s: real, w: real)
    requires b.Valid() && Ordered(b, times)
    requires i <= j <= |times| && w >= 0.0
    requires forall k :: i <= k < j ==> s <= times[k] <= s + w
    ensures Count(Answers(b, times)[i..j]) as real <= b.capacity as real + Gain(w, b.rate)
  {
    hide Gain;
    if i == j {
      GainNonNegative(w, b.rate);
    } else {
      var c, window := After(b, times[..i]), times[i..j];
      AfterKeepsValid(b, times[..i]);
      WindowOfRun(b, times, i, j);
      var span := window[|window| - 1] - window[0];
      GrantsFromFirst(c, window, span);
      GainMonotone(span, w, b.rate);
    }
  }

  lemma WindowOfRun(b: Bucket, times: seq<real>, i: nat, j: nat)
    requires i <= j <= |times|
    ensures Answers(b, times)[i..j] == Answers(After(b, times[..i]), times[i..j])
  {
    AnswersSplit(b, times[..j], i);
    AnswersSplit(b, times, j);
    assert times[..j][i..] == times[i..j] && times[..j][..i] == times[..i];
    assert Answers(b, times)[i..j] == Answers(b, times)[..j][i..];
  }

  // ---------- greedy admission is optimal ----------

  /** An admission choice that takes a token only when one is there, under the same refill and cap. */
  ghost predicate Admissible(b: Bucket, times: seq<real>, choice: seq<bool>)
    requires |choice| == |times|
    decreases |times|
  {
    if times == [] then true
    else
      var t := b.Refilled(times[0]);
      && (choice[0] ==> t >= 1.0)
      && Admissible(b.(tokens := if choice[0] then t - 1.0 else t, last := times[0]), times[1..], choice[1..])
  }

  lemma {:induction false} GreedyLeads(g: Bucket, h: Bucket, times: seq<real>, choice: seq<bool>, lead: nat, k: nat)
    requires g.Valid() && h.Valid() && Ordered(g, times)
    requires h == g.(tokens := h.tokens) && h.tokens <= g.tokens + lead as real
    requires |choice| == |times| && Admissible(h, times, choice) && k <= |times|
    ensures Count(choice[..k]) <= lead + Count(Answers(g, times)[..k])
    decreases |times|
  {
    hide Gain;
    if k > 0 {
      var now := times[0];
      ServeKeepsValid(g, now);
      ServeKeepsValid(h, now);
      var t := h.Refilled(now);
      var h' := h.(tokens := if choice[0] then t - 1.0 else t, last := now);
      var (g', granted) := Serve(g, now);
      assert t <= g.Refilled(now) + lead as real;
      var lead' := lead + (if granted then 1 else 0) - (if choice[0] then 1 else 0);
      assert lead == 0 && choice[0] ==> granted;
      GreedyLeads(g', h', times[1..], choice[1..], lead', k - 1);
      assert choice[..k][1..] == choice[1..][..k - 1];
      var a := Answers(g, times);
      assert a[1..] == Answers(g', times[1..]);
      assert a[..k][1..] == a[1..][..k - 1];
      assert a[..k][0] == granted && choice[..k][0] == choice[0];
    }
  }

  /** At every prefix `Allow` has admitted at least as many requests as any other admissible choice. */
  lemma GreedyIsOptimal(b: Bucket, times: seq<real>, choice: seq<bool>, k: nat)
    requires b.Valid() && Ordered(b, times)
    requires |choice| == |times| && Admissible(b, times, choice) && k <= |times|
    ensures Count(choice[..k]) <= Count(Answers(b, times)[..k])
  {
    GreedyLeads(b, b, times, choice, 0, k);
  }

  /** What `Allow` does is itself such a choice. */
  lemma {:induction false} AnswersAreAdmissible(b: Bucket, times: seq<real>)
    ensures Admissible(b, times, Answers(b, times))
    decreases |times|
  {
    hide Gain;
    if times != [] {
      AnswersAreAdmissible(Serve(b, times[0]).0, times[1..]);
      assert Answers(b, times)[1..] == Answers(Serve(b, times[0]).0, times[1..]);
    }
  }

  // ---------- denied requests are free ----------

  function Keep<T>(xs: seq<T>, mask: seq<bool>): seq<T>
    requires |xs| == |mask|
  {
    if xs == [] then [] else (if mask[0] then [xs[0]] else []) + Keep(xs[1..], mask[1..])
  }

  lemma {:induction false} DeniedLeavesNoTrace(b: Bucket, c: Bucket, times: seq<real>, mask: seq<bool>)
    requires b.Valid() && c.Valid() && Ordered(c, times) && b.last <= c.last
    requires c == b.(tokens := b.Refilled(c.last), last := c.last)
    requires |mask| == |times|
    requires forall i :: 0 <= i < |mask| ==> mask[i] || !Answers(c, times)[i]
    ensures Answers(b, Keep(times, mask)) == Keep(Answers(c, times), mask)
    decreases |times|
  {
    hide Gain;
    if times != [] {
      var now := times[0];
      RefillTwice(b, c.last, now);
      ServeKeepsValid(c, now);
      ServeKeepsValid(b, now);
      var (c', granted) := Serve(c, now);
      var rest := Answers(c', times[1..]);
      assert Answers(c, times) == [granted] + rest;
      forall i | 0 <= i < |mask[1..]| ensures mask[1..][i] || !rest[i] {
        assert mask[1..][i] == mask[i + 1] && rest[i] == Answers(c, times)[i + 1];
      }
      if mask[0] {
        var b' := Serve(b, now).0;
        assert b' == c';
        RefillNow(b');
        assert c' == b'.(tokens := b'.Refilled(c'.last), last := c'.last);
        DeniedLeavesNoTrace(b', c', times[1..], mask[1..]);
        assert Keep(times, mask) == [now] + Keep(times[1..], mask[1..]);
        assert ([now] + Keep(times[1..], mask[1..]))[1..] == Keep(times[1..], mask[1..]);
      } else {
        assert !Answers(c, times)[0];
        assert c' == b.(tokens := b.Refilled(now), last := now);
        assert Keep(times, mask) == Keep(times[1..], mask[1..]);
        assert Answers(c, times)[1..] == rest;
        assert Keep(Answers(c, times), mask) == Keep(rest, mask[1..]);
        DeniedLeavesNoTrace(b, c', times[1..], mask[1..]);
      }
    }
  }

  /** Deleting any of the denied requests from a run changes no other answer. */
  lemma DeniedRequestsAreFree(b: Bucket, times: seq<real>, mask: seq<bool>)
    requires b.Valid() && Ordered(b, times) && |mask| == |times|
    requires forall i :: 0 <= i < |mask| ==> mask[i] || !Answers(b, times)[i]
    ensures Answers(b, Keep(times, mask)) == Keep(Answers(b, times), mask)
  {
    DeniedLeavesNoTrace(b, b, times, mask);
  }
}
