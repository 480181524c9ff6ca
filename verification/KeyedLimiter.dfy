/** The rate limiter that keeps one token bucket per user and action
    (internal/infrastructure/ratelimit/token_bucket.go). */
module KeyedLimiter {
  import opened Text
  import opened TokenBuckets

  /** `window` in nanoseconds. */
  datatype RateLimit = RateLimit(requests: int, window: int) {
    /** With no requests the integer division below panics; a window of fewer nanoseconds than requests
        makes a zero interval, and with it an infinite rate. */
    predicate Usable() {
      requests != 0 && Quotient(window, requests) != 0
    }

    /** As configured in earnest: at least one request, and at least a nanosecond for each. */
    predicate Proper() {
      1 <= requests <= window
    }

    function Interval(): (r: int)
      requires Usable()
      ensures r != 0
    {
      Quotient(window, requests)
    }
  }

  /** Integer division that truncates toward zero. */
  function Quotient(d: int, n: int): int
    requires n != 0
  {
    if d >= 0 then d / n else -(-d / n)
  }

  lemma ProperIsUsable(limit: RateLimit)
    requires limit.Proper()
    ensures limit.Usable() && limit.Interval() == limit.window / limit.requests > 0
  {
    QuotientPositive(limit.window, limit.requests);
  }

  lemma QuotientPositive(d: int, n: int)
    requires 1 <= n <= d
    ensures d / n > 0
  {
  }

  type Limits = map<string, RateLimit>

  /** A missing action takes the default entry; a missing default is the zero value. */
  function LimitFor(limits: Limits, action: string): RateLimit {
    if action in limits then limits[action]
    else if "default" in limits then limits["default"]
    else RateLimit(0, 0)
  }

  function Key(user: string, action: string): string {
    user + ":" + action
  }

  function FreshBucket(limit: RateLimit, now: real): Bucket
    requires limit.Usable()
  {
    NewBucket(limit.requests, Rate(limit.Interval()), now)
  }

  type Buckets = map<string, Bucket>

  function Find(m: Buckets, key: string): Option<Bucket> {
    if key in m then Some(m[key]) else None
  }

  /** `Allow` on the bucket found or created. */
  function ServeOption(limit: RateLimit, b: Option<Bucket>, now: real): (Bucket, bool)
    requires limit.Usable()
  {
    Serve(if b.Some? then b.value else FreshBucket(limit, now), now)
  }

  /** `Reset(user)` drops every key that properly extends the user's name. */
  predicate ResetDrops(user: string, key: string) {
    |user| < |key| && user <= key
  }

  class RateLimiter {
    const limits: Limits
    var buckets: map<string, TokenBucket>

    ghost predicate Valid()
      reads this, buckets.Values
    {
      forall k, l :: k in buckets && l in buckets && k != l ==> buckets[k] != buckets[l]
    }

    function View(): Buckets
      reads this, buckets.Values
    {
      map k | k in buckets :: buckets[k].State()
    }

    constructor (limits: Limits)
      ensures Valid() && View() == map[] && this.limits == limits && buckets == map[]
    {
      this.limits := limits;
      buckets := map[];
    }

    method GetBucket(key: string, limit: RateLimit, now: real) returns (bucket: TokenBucket)
      requires Valid() && limit.Usable()
      modifies this
      ensures Valid() && key in buckets && buckets[key] == bucket
      ensures if key in old(buckets) then buckets == old(buckets)
              else fresh(bucket) && buckets == old(buckets)[key := bucket] && bucket.State() == FreshBucket(limit, now)
      ensures View() == old(View())[key := bucket.State()]
      ensures bucket.State() == if key in old(View()) then old(View())[key] else FreshBucket(limit, now)
    {
      if key in buckets {
        return buckets[key];
      }
      bucket := new TokenBucket(limit.requests, limit.Interval(), now);
      buckets := buckets[key := bucket];
    }

    method Allow(user: string, action: string, now: real) returns (granted: bool)
      requires Valid() && LimitFor(limits, action).Usable()
      modifies this, buckets.Values
      ensures Valid() && fresh(buckets.Values - old(buckets.Values))
      ensures (View(), Some(granted)) == Apply(limits, old(View()), Request(user, action, now))
      ensures action in limits && limits[action].Usable() ==>
                granted == ServeOption(limits[action], Find(old(View()), user + ":" + action), now).1
      ensures action !in limits && "default" in limits && limits["default"].Usable() ==>
                granted == ServeOption(limits["default"], Find(old(View()), user + ":" + action), now).1
    {
      hide RateLimit.Usable, ServeOption, Find;
      var limit := LimitFor(limits, action);
      granted := AllowKey(Key(user, action), limit, now);
    }

    /** The second half of Allow: the bucket of the key is found or made, and asked. */
    method AllowKey(key: string, limit: RateLimit, now: real) returns (granted: bool)
      requires Valid() && limit.Usable()
      modifies this, buckets.Values
      ensures Valid() && fresh(buckets.Values - old(buckets.Values))
      ensures var (b, answer) := ServeOption(limit, Find(old(View()), key), now);
              granted == answer && View() == old(View())[key := b]
    {
      hide Gain, Rate, NewBucket, Bucket.Refilled, Serve, FreshBucket, RateLimit.Usable;
      var bucket := GetBucket(key, limit, now);
      label served:
      granted := bucket.Allow(now);
      OthersKept@served(key);
    }

    /** When only one bucket's fields change, the view changes only there. */
    twostate lemma OthersKept(key: string)
      requires old(Valid()) && key in old(buckets) && buckets == old(buckets)
      requires forall b: TokenBucket :: b in old(buckets.Values) && b != buckets[key] ==> unchanged(b)
      ensures View() == old(View())[key := buckets[key].State()]
    {
      forall k | k in buckets && k != key ensures buckets[k].State() == old(buckets[k].State()) {
        assert buckets[k] in old(buckets.Values);
      }
    }

    method Reset(user: string)
      requires Valid()
      modifies this
      ensures Valid() && buckets.Values <= old(buckets.Values)
      ensures View() == Apply(limits, old(View()), Forget(user)).0
    {
      var rest := buckets.Keys;
      while rest != {}
        invariant rest <= old(buckets.Keys)
        invariant buckets == map k | k in old(buckets) && (k in rest || !ResetDrops(user, k)) :: old(buckets)[k]
        decreases rest
      {
        var key :| key in rest;
        if ResetDrops(user, key) {
          buckets := buckets - {key};
        }
        rest := rest - {key};
      }
    }
  }

  // ---------- the limiter over whole runs ----------

  datatype Op = Request(user: string, action: string, time: real) | Forget(user: string)

  ghost predicate Legal(limits: Limits, op: Op) {
    match op
    case Request(user, action, _) => ':' !in user && LimitFor(limits, action).Usable()
    case Forget(_) => true
  }

  /** The new buckets and, for a request, its answer. */
  function Apply(limits: Limits, m: Buckets, op: Op): (Buckets, Option<bool>)
    requires op.Request? ==> LimitFor(limits, op.action).Usable()
  {
    match op
    case Request(user, action, time) =>
      var key := Key(user, action);
      var (b, granted) := ServeOption(LimitFor(limits, action), Find(m, key), time);
      (m[key := b], Some(granted))
    case Forget(user) => (map k | k in m && !ResetDrops(user, k) :: m[k], None)
  }

  predicate IsFor(op: Op, user: string, action: string) {
    op.Request? && op.user == user && op.action == action
  }

  /** The answers one user gets for one action from the shared limiter. */
  ghost function AnswersFor(limits: Limits, m: Buckets, ops: seq<Op>, user: string, action: string): seq<bool>
    requires forall i :: 0 <= i < |ops| ==> Legal(limits, ops[i])
    decreases |ops|
  {
    if ops == [] then []
    else
      assert Legal(limits, ops[0]);
      var (m', answer) := Apply(limits, m, ops[0]);
      (if IsFor(ops[0], user, action) then [answer.value] else []) + AnswersFor(limits, m', ops[1..], user, action)
  }

  /** What a lone bucket sees of a run: its own requests, and the resets that drop it. */
  datatype LoneOp = Ask(time: real) | Drop

  function Project(ops: seq<Op>, user: string, action: string): seq<LoneOp> {
    if ops == [] then []
    else
      (match ops[0]
       case Request(_, _, time) => if IsFor(ops[0], user, action) then [Ask(time)] else []
       case Forget(u) => if ResetDrops(u, Key(user, action)) then [Drop] else [])
      + Project(ops[1..], user, action)
  }

  ghost function LoneAnswers(limit: RateLimit, b: Option<Bucket>, ops: seq<LoneOp>): seq<bool>
    requires limit.Usable()
    decreases |ops|
  {
    if ops == [] then []
    else match ops[0]
      case Ask(time) =>
        var (b', granted) := ServeOption(limit, b, time);
        [granted] + LoneAnswers(limit, Some(b'), ops[1..])
      case Drop => LoneAnswers(limit, None, ops[1..])
  }

  function BeforeColon(s: string): string {
    if s == "" || s[0] == ':' then "" else [s[0]] + BeforeColon(s[1..])
  }

  lemma {:induction false} KeyShowsUser(u: string, a: string)
    requires ':' !in u
    ensures BeforeColon(Key(u, a)) == u
  {
    if u != "" {
      KeyShowsUser(u[1..], a);
      assert Key(u, a)[1..] == Key(u[1..], a);
    }
  }

  /** Names without a colon never share a key. */
  lemma {:induction false} KeyInjective(u: string, a: string, v: string, b: string)
    requires ':' !in u && ':' !in v && Key(u, a) == Key(v, b)
    ensures u == v && a == b
  {
    KeyShowsUser(u, a);
    KeyShowsUser(v, b);
    assert Key(u, a)[|u| + 1..] == a && Key(v, b)[|v| + 1..] == b;
  }

  /** Two pairs share a bucket exactly if they are the same, or one user's name goes on, after a colon,
      with the beginning of the other pair's action. */
  lemma KeysCollideIff(u: string, a: string, v: string, b: string)
    ensures Key(u, a) == Key(v, b)
       <==> || (u == v && a == b)
            || (exists x :: v == u + ":" + x && a == x + ":" + b)
            || (exists x :: u == v + ":" + x && b == x + ":" + a)
  {
    LongerUser(u, a, v, b);
    LongerUser(v, b, u, a);
    if |u| == |v| && Key(u, a) == Key(v, b) {
      assert Key(u, a)[..|u|] == u && Key(v, b)[..|v|] == v;
      assert Key(u, a)[|u| + 1..] == a && Key(v, b)[|v| + 1..] == b;
    }
  }

  lemma LongerUser(u: string, a: string, v: string, b: string)
    ensures |u| < |v| && Key(u, a) == Key(v, b) ==> exists x :: v == u + ":" + x && a == x + ":" + b
    ensures forall x :: v == u + ":" + x && a == x + ":" + b ==> Key(u, a) == Key(v, b)
  {
    if |u| < |v| && Key(u, a) == Key(v, b) {
      var k, x := Key(u, a), v[|u| + 1..];
      assert k[..|v|] == v && k[..|u|] == u && k[|u|] == ':' && k[|u| + 1..] == a;
      assert v == u + ":" + x;
      assert a == k[|u| + 1..] == x + ":" + b;
    }
    forall x | v == u + ":" + x && a == x + ":" + b ensures Key(u, a) == Key(v, b) {
      assert u + ":" + (x + ":" + b) == (u + ":" + x) + ":" + b;
    }
  }

  lemma {:induction false} PerKeyProjection(limits: Limits, m: Buckets, ops: seq<Op>, user: string, action: string)
    requires forall i :: 0 <= i < |ops| ==> Legal(limits, ops[i])
    requires ':' !in user && LimitFor(limits, action).Usable()
    ensures AnswersFor(limits, m, ops, user, action)
         == LoneAnswers(LimitFor(limits, action), Find(m, Key(user, action)), Project(ops, user, action))
    decreases |ops|
  {
    if ops != [] {
      var op := ops[0];
      assert Legal(limits, ops[0]);
      var m' := Apply(limits, m, op).0;
      var key := Key(user, action);
      PerKeyProjection(limits, m', ops[1..], user, action);
      var rest := Project(ops[1..], user, action);
      if IsFor(op, user, action) {
        assert Project(ops, user, action) == [Ask(op.time)] + rest;
        assert ([Ask(op.time)] + rest)[1..] == rest;
      } else if op.Request? {
        if Key(op.user, op.action) == key {
          KeyInjective(op.user, op.action, user, action);
        }
        assert Find(m', key) == Find(m, key);
        assert Project(ops, user, action) == rest;
      } else if ResetDrops(op.user, key) {
        assert Project(ops, user, action) == [Drop] + rest;
        assert ([Drop] + rest)[1..] == rest;
      } else {
        assert Find(m', key) == Find(m, key);
        assert Project(ops, user, action) == rest;
      }
    }
  }

  // ---------- Reset and other users ----------

  lemma {:induction false} PrefixOfColonFree(u: string, v: string, rest: string)
    requires ':' !in u
    ensures u <= Key(v, rest) <==> u <= v
  {
    var k := Key(v, rest);
    assert u != "" ==> u[0] in u;
    if u != "" && v != "" {
      PrefixOfColonFree(u[1..], v[1..], rest);
      assert k[1..] == Key(v[1..], rest);
      assert u <= k <==> u[0] == k[0] && u[1..] <= k[1..];
      assert u <= v <==> u[0] == v[0] && u[1..] <= v[1..];
    }
  }

  /** `Reset(u)` is meant for one user, but it also drops the buckets of exactly those users whose
      name extends `u`. */
  lemma ResetReach(limits: Limits, m: Buckets, u: string, v: string, action: string)
    requires ':' !in u
    ensures Find(Apply(limits, m, Forget(u)).0, Key(v, action))
         == if u <= v then None else Find(m, Key(v, action))
  {
    PrefixOfColonFree(u, v, action);
  }
}
