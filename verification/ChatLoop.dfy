/** The tool-calling loop of ProcessMessage and its use of the cache (internal/usecase/chat/service.go). */
module ChatLoop {
  import opened Text
  import opened LlmCache

  datatype Message = Message(role: string, content: string)

  const MAX_ITERATIONS: nat := 5

  datatype Result =
    | Final(response: LlmResponse)
    | LlmFailed(error: string)
    | TooManyIterations

  datatype Reply = Reply(response: LlmResponse) | LlmError(error: string)

  /** buildCacheKey: roles and contents, separated by dashed lines. */
  function CacheKey(messages: seq<Message>): string {
    if messages == [] then ""
    else if |messages| == 1 then messages[0].role + ": " + messages[0].content
    else
      var last := messages[|messages| - 1];
      CacheKey(messages[..|messages| - 1]) + "\n---\n" + last.role + ": " + last.content
  }

  /** No cached response asks for a tool. */
  ghost predicate Clean(m: Entries) {
    forall k :: k in m ==> m[k].response.toolCalls == []
  }

  /** What the rounds of tool calls append: the assistant's text and the formatted tool results. */
  function ToolRounds(seen: nat -> Reply, toolText: nat -> string, n: nat): seq<Message> {
    if n == 0 then []
    else ToolRounds(seen, toolText, n - 1)
         + [Message("assistant", if seen(n - 1).Reply? then seen(n - 1).response.content else ""),
             Message("user", toolText(n - 1))]
  }

  /** Every one of the first n replies asked for tools. */
  ghost predicate AskedForTools(seen: nat -> Reply, n: nat) {
    forall i: nat :: i < n ==> seen(i).Reply? && seen(i).response.toolCalls != []
  }

  /** What the loop sees in iteration i: a cache hit stands in for the first completion. */
  function Seen(hit: Option<LlmResponse>, llm: nat -> Reply): nat -> Reply {
    (i: nat) => if i == 0 && hit.Some? then Reply(hit.value) else llm(i)
  }

  /** One message through the cache: read at `getTime`; then the reply of the first iteration, if it is
      final, is written at `setTime`, be it new or the hit itself. */
  datatype Use = Use(key: Key, getTime: int, setTime: int, answer: Reply, victim: Option<Key>)

  /** Entries after the read; an expired entry is dropped. */
  function AfterGet(m: Entries, k: Key, now: int): Entries {
    if k in m && now > m[k].expiresAt then m - {k} else m
  }

  function AfterUse(m: Entries, ttl: int, u: Use): Entries {
    var read := AfterGet(m, u.key, u.getTime);
    var hit := Lookup(m, u.key, u.getTime);
    match if hit.Some? then Reply(hit.value) else u.answer
    case LlmError(_) => read
    case Reply(r) => if r.toolCalls == [] then AfterSet(read, u.victim, u.key, Entry(r, u.setTime + ttl)) else read
  }

  function HitOf(cache: LLMCache?, k: Key, now: int): Option<LlmResponse>
    reads cache
  {
    if cache == null then None else Lookup(cache.entries, k, now)
  }

  /** `llm(i)` is what a completion in iteration i would return, `toolText(i)` the results of its tool
      calls, and `getTime`, `setTime` the times of the cache read and write. */
  method ProcessMessages(cache: LLMCache?, history: seq<Message>, llm: nat -> Reply, toolText: nat -> string,
                         getTime: int, setTime: int)
    returns (result: Result, messages: seq<Message>, llmCalls: nat, toolRuns: nat, ghost victim: Option<Key>)
    modifies cache
    ensures toolRuns <= MAX_ITERATIONS && (result == TooManyIterations <==> toolRuns == 5)
    ensures var hit := old(HitOf(cache, KeyOf(CacheKey(history)), getTime));
            var seen := Seen(hit, llm);
            && AskedForTools(seen, toolRuns) && messages == history + ToolRounds(seen, toolText, toolRuns)
            && llmCalls == (if toolRuns == MAX_ITERATIONS then toolRuns else toolRuns + 1)
                           - (if hit.Some? then 1 else 0)
            && (if toolRuns == MAX_ITERATIONS then result == TooManyIterations
                else match seen(toolRuns)
                  case LlmError(e) => result == LlmFailed(e)
                  case Reply(r) => r.toolCalls == [] && result == Final(r))
    ensures cache != null ==>
              && cache.entries == AfterUse(old(cache.entries), cache.ttl,
                  Use(KeyOf(CacheKey(history)), getTime, setTime, llm(0), victim))
              && if result.Final? && toolRuns == 0
                 then VictimOk(AfterGet(old(cache.entries), KeyOf(CacheKey(history)), getTime), cache.maxSize, victim)
                 else victim.None?
    ensures cache != null && old(Clean(cache.entries)) ==>
              Clean(cache.entries)
              && (old(HitOf(cache, KeyOf(CacheKey(history)), getTime)).Some? ==> llmCalls == toolRuns == 0)
  {
    hide KeyOf, CacheKey, ToolRounds, VictimOk, AfterSet, AfterUse, AfterGet, Lookup, Clean, AskedForTools;
    messages, llmCalls, toolRuns, victim, result := history, 0, 0, None, TooManyIterations;
    ghost var key := KeyOf(CacheKey(history));
    ghost var hit := HitOf(cache, key, getTime);
    ghost var seen := Seen(hit, llm);
    ghost var use := Use(key, getTime, setTime, llm(0), None);
    NoRounds(seen, toolText, history);
    if cache != null {
      ReadIs(cache.entries, key, getTime);
    }
    while toolRuns < MAX_ITERATIONS
      invariant toolRuns <= MAX_ITERATIONS && victim.None? && result == TooManyIterations
      invariant llmCalls == if hit.Some? && toolRuns > 0 then toolRuns - 1 else toolRuns
      invariant AskedForTools(seen, toolRuns) && messages == history + ToolRounds(seen, toolText, toolRuns)
      invariant toolRuns == 0 ==> messages == history
      invariant cache != null ==>
                  cache.entries ==
                    if toolRuns == 0 then old(cache.entries) else AfterUse(old(cache.entries), cache.ttl, use)
    {
      var iteration := toolRuns;
      var response: Option<LlmResponse> := None;
      if iteration == 0 && cache != null {
        response := cache.Get(CacheKey(messages), getTime);
      }
      if iteration == 0 && cache != null {
        UseIs(old(cache.entries), cache.ttl, use);
      }
      if response.None? {
        llmCalls := llmCalls + 1;
        match llm(iteration) {
          case LlmError(e) => result := LlmFailed(e); break;
          case Reply(r) => response := Some(r);
        }
      }
      assert seen(iteration) == Reply(response.value);
      if response.value.toolCalls == [] {
        if cache != null && iteration == 0 {
          victim := cache.Set(CacheKey(messages), response.value, setTime);
          UseIs(old(cache.entries), cache.ttl, use.(victim := victim));
        }
        result := Final(response.value);
        break;
      }
      RoundsStep(seen, toolText, history, iteration);
      messages := messages + [Message("assistant", response.value.content)];
      messages := messages + [Message("user", toolText(iteration))];
      toolRuns := toolRuns + 1;
    }
    if cache != null && old(Clean(cache.entries)) {
      UseKeepsClean(old(cache.entries), cache.ttl, use.(victim := victim));
      CleanHit(old(cache.entries), key, getTime);
      if toolRuns > 0 {
        FirstRound(seen, toolRuns);
      }
    }
  }

  /** What the cache holds after the read. */
  lemma ReadIs(m: Entries, k: Key, now: int)
    ensures AfterGet(m, k, now) == if k in m && Lookup(m, k, now).None? then m - {k} else m
  {
  }

  /** And after the write, if there is one. */
  lemma UseIs(m: Entries, ttl: int, u: Use)
    ensures var read, hit := AfterGet(m, u.key, u.getTime), Lookup(m, u.key, u.getTime);
            var r := if hit.Some? then Reply(hit.value) else u.answer;
            AfterUse(m, ttl, u)
            == if r.Reply? && r.response.toolCalls == []
               then AfterSet(read, u.victim, u.key, Entry(r.response, u.setTime + ttl)) else read
  {
  }

  lemma CleanHit(m: Entries, k: Key, now: int)
    requires Clean(m)
    ensures Lookup(m, k, now).Some? ==> Lookup(m, k, now).value.toolCalls == []
  {
  }

  lemma FirstRound(seen: nat -> Reply, n: nat)
    requires AskedForTools(seen, n) && n > 0
    ensures seen(0).Reply? && seen(0).response.toolCalls != []
  {
  }

  lemma NoRounds(seen: nat -> Reply, toolText: nat -> string, history: seq<Message>)
    ensures history + ToolRounds(seen, toolText, 0) == history && AskedForTools(seen, 0)
  {
  }

  lemma RoundsStep(seen: nat -> Reply, toolText: nat -> string, history: seq<Message>, n: nat)
    requires seen(n).Reply? && seen(n).response.toolCalls != [] && AskedForTools(seen, n)
    ensures history + ToolRounds(seen, toolText, n + 1)
         == history + ToolRounds(seen, toolText, n) + [Message("assistant", seen(n).response.content)]
             + [Message("user", toolText(n))]
    ensures AskedForTools(seen, n + 1)
  {
  }

  /** Round i adds the assistant's text of that iteration and, as the user, the results of its tools. */
  lemma {:induction false} RoundAt(seen: nat -> Reply, toolText: nat -> string, n: nat, i: nat)
    requires AskedForTools(seen, n) && i < n
    ensures |ToolRounds(seen, toolText, n)| == 2 * n
    ensures ToolRounds(seen, toolText, n)[2 * i] == Message("assistant", seen(i).response.content)
    ensures ToolRounds(seen, toolText, n)[2 * i + 1] == Message("user", toolText(i))
  {
    RoundsLength(seen, toolText, n - 1);
    if i < n - 1 {
      RoundAt(seen, toolText, n - 1, i);
    }
  }

  lemma {:induction false} RoundsLength(seen: nat -> Reply, toolText: nat -> string, n: nat)
    ensures |ToolRounds(seen, toolText, n)| == 2 * n
  {
    if n > 0 {
      RoundsLength(seen, toolText, n - 1);
    }
  }

  /** Two different conversations can have one cache key, since contents may hold the separator. */
  lemma ConversationsCollide(a: string, b: string)
    ensures var one, two := [Message("user", a + "\n---\nuser: " + b)], [Message("user", a), Message("user", b)];
            one != two && CacheKey(one) == CacheKey(two)
  {
    var two := [Message("user", a), Message("user", b)];
    assert two[..1] == [two[0]];
    assert "user: " + (a + "\n---\nuser: " + b) == "user: " + a + "\n---\n" + "user" + ": " + b;
  }

  // ---------- the cache over messages, one after another ----------

  lemma UseKeepsClean(m: Entries, ttl: int, u: Use)
    requires Clean(m)
    ensures Clean(AfterUse(m, ttl, u))
  {
  }

  /** The key is asked for before the entry expires, each time, and no other use evicts it. */
  ghost predicate KeptAlive(ttl: int, us: seq<Use>, k: Key, expiresAt: int)
    decreases |us|
  {
    us != [] ==>
      if us[0].key == k then us[0].getTime <= expiresAt && KeptAlive(ttl, us[1..], k, us[0].setTime + ttl)
      else us[0].victim != Some(k) && KeptAlive(ttl, us[1..], k, expiresAt)
  }

  function LastExpiry(ttl: int, us: seq<Use>, k: Key, expiresAt: int): int
    decreases |us|
  {
    if us == [] then expiresAt
    else LastExpiry(ttl, us[1..], k, if us[0].key == k then us[0].setTime + ttl else expiresAt)
  }

  /** Each hit writes the entry back with a later expiry: a key asked for at least once per TTL is served
      from its first answer for as long as it is not evicted, however old that answer is and whatever
      other keys do in between. */
  lemma {:induction false} HitsRenew(ttl: int, us: seq<Use>, k: Key, first: LlmResponse, start: Entries)
    requires k in start && start[k].response == first && first.toolCalls == []
    requires KeptAlive(ttl, us, k, start[k].expiresAt)
    ensures var m := Replay(ttl, start, us);
            k in m && m[k] == Entry(first, LastExpiry(ttl, us, k, start[k].expiresAt))
    decreases |us|
  {
    if us != [] {
      HitsRenew(ttl, us[1..], k, first, AfterUse(start, ttl, us[0]));
    }
  }

  function Replay(ttl: int, m: Entries, us: seq<Use>): Entries
    decreases |us|
  {
    if us == [] then m else Replay(ttl, AfterUse(m, ttl, us[0]), us[1..])
  }
}
