/** The response cache under concurrent messages (internal/usecase/chat/service.go,
    internal/infrastructure/cache/llm_cache.go), with ProcessMessage as its only writer.

    A message reads the cache, drops the entry if it had expired, and later writes back the hit or the
    answer of its first completion. Each of these is one step, so a run is any interleaving of them. */
module ChatCache {
  import opened Text
  import opened LlmCache
  import opened ChatLoop

  /** A message: past a read that saw an expired entry, past a read with its hit, or past its write. */
  datatype Task = Expired(key: Key) | Asked(key: Key, hit: Option<LlmResponse>) | Finished(key: Key)

  datatype Chat = Chat(entries: Entries, tasks: seq<Task>)

  datatype ChatEvent =
    | Fetch(key: Key, now: int)
    | Drop(id: nat)
    | Finish(id: nat, answer: Reply, now: int, victim: Option<Key>)

  function Fetched(m: Entries, key: Key, now: int): Task {
    if key !in m then Asked(key, None)
    else if now > m[key].expiresAt then Expired(key)
    else Asked(key, Some(m[key].response))
  }

  /** What the message ends its first iteration with. */
  function Outcome(t: Task, answer: Reply): Reply
    requires t.Asked?
  {
    if t.hit.Some? then Reply(t.hit.value) else answer
  }

  predicate Writes(r: Reply) {
    r.Reply? && r.response.toolCalls == []
  }

  function Step(ttl: int, s: Chat, e: ChatEvent): Option<Chat> {
    match e
    case Fetch(key, now) => Some(s.(tasks := s.tasks + [Fetched(s.entries, key, now)]))
    case Drop(id) =>
      if id < |s.tasks| && s.tasks[id].Expired?
      then Some(Chat(s.entries - {s.tasks[id].key}, s.tasks[id := Asked(s.tasks[id].key, None)]))
      else None
    case Finish(id, answer, now, victim) =>
      if id < |s.tasks| && s.tasks[id].Asked? then
        var t, r := s.tasks[id], Outcome(s.tasks[id], answer);
        Some(Chat(if Writes(r) then AfterSet(s.entries, victim, t.key, Entry(r.response, now + ttl)) else s.entries,
                  s.tasks[id := Finished(t.key)]))
      else None
  }

  const EMPTY := Chat(map[], [])

  /** The run is built from its last event, as the cache's own runs are. */
  function Run(ttl: int, es: seq<ChatEvent>): Option<Chat> {
    if es == [] then Some(EMPTY)
    else match Run(ttl, es[..|es| - 1])
      case None => None
      case Some(s) => Step(ttl, s, es[|es| - 1])
  }

  lemma RunSnoc(ttl: int, es: seq<ChatEvent>, e: ChatEvent)
    requires Run(ttl, es).Some?
    ensures Run(ttl, es + [e]) == Step(ttl, Run(ttl, es).value, e)
  {
    assert (es + [e])[..|es|] == es;
  }

  // ---------- it is a run of the cache ----------

  /** What one event does to the cache. */
  function Effect(s: Chat, e: ChatEvent): seq<LlmCache.Event> {
    match e
    case Fetch(_, _) => []
    case Drop(id) => if id < |s.tasks| then [LlmCache.Remove(s.tasks[id].key)] else []
    case Finish(id, answer, now, victim) =>
      if id < |s.tasks| && s.tasks[id].Asked? && Writes(Outcome(s.tasks[id], answer))
      then [LlmCache.Put(s.tasks[id].key, Outcome(s.tasks[id], answer).response, now, victim)]
      else []
  }

  function Log(ttl: int, es: seq<ChatEvent>): seq<LlmCache.Event>
    requires Run(ttl, es).Some?
  {
    if es == [] then [] else Log(ttl, es[..|es| - 1]) + Effect(Run(ttl, es[..|es| - 1]).value, es[|es| - 1])
  }

  /** So all that holds of runs of the cache holds under concurrent messages. */
  lemma {:induction false} EntriesAreCacheRun(ttl: int, es: seq<ChatEvent>)
    requires Run(ttl, es).Some?
    ensures Run(ttl, es).value.entries == LlmCache.Run(ttl, Log(ttl, es))
  {
    hide Step, Effect;
    if es != [] {
      var before := es[..|es| - 1];
      EntriesAreCacheRun(ttl, before);
      EffectStep(ttl, Run(ttl, before).value, es[|es| - 1], Log(ttl, before));
    }
  }

  lemma EffectStep(ttl: int, s: Chat, e: ChatEvent, log: seq<LlmCache.Event>)
    requires s.entries == LlmCache.Run(ttl, log) && Step(ttl, s, e).Some?
    ensures Step(ttl, s, e).value.entries == LlmCache.Run(ttl, log + Effect(s, e))
  {
    hide LlmCache.Run, AfterSet, Outcome;
    assert log + [] == log;
    match e
    case Fetch(_, _) =>
    case Drop(id) => CacheRunSnoc(ttl, log, LlmCache.Remove(s.tasks[id].key));
    case Finish(id, answer, now, victim) =>
      var r := Outcome(s.tasks[id], answer);
      if Writes(r) {
        CacheRunSnoc(ttl, log, LlmCache.Put(s.tasks[id].key, r.response, now, victim));
      }
  }

  lemma CacheRunSnoc(ttl: int, log: seq<LlmCache.Event>, e: LlmCache.Event)
    ensures LlmCache.Run(ttl, log + [e]) == LlmCache.Step(ttl, LlmCache.Run(ttl, log), e)
  {
    assert (log + [e])[..|log|] == log;
  }

  // ---------- no cached response asks for a tool ----------

  ghost predicate CleanTasks(tasks: seq<Task>) {
    forall i :: 0 <= i < |tasks| && tasks[i].Asked? && tasks[i].hit.Some? ==> tasks[i].hit.value.toolCalls == []
  }

  /** In every interleaving no cached response ever asks for a tool, nor does any hit; so a hit costs neither
      a completion nor a tool call. */
  lemma {:induction false} SoleWriterKeepsClean(ttl: int, es: seq<ChatEvent>)
    requires Run(ttl, es).Some?
    ensures Clean(Run(ttl, es).value.entries) && CleanTasks(Run(ttl, es).value.tasks)
  {
    if es != [] {
      SoleWriterKeepsClean(ttl, es[..|es| - 1]);
    }
  }

  // ---------- where a response comes from ----------

  /** Some message with this key was answered so. */
  ghost predicate Answered(es: seq<ChatEvent>, tasks: seq<Task>, k: Key, r: LlmResponse) {
    exists i :: 0 <= i < |es| && AnswersWith(es[i], tasks, k, r)
  }

  ghost predicate AnswersWith(e: ChatEvent, tasks: seq<Task>, k: Key, r: LlmResponse) {
    e.Finish? && e.id < |tasks| && tasks[e.id].key == k && e.answer == Reply(r)
  }

  /** Tasks are only added, and keep their keys. */
  ghost predicate SameKeys(tasks: seq<Task>, more: seq<Task>) {
    |tasks| <= |more| && forall i :: 0 <= i < |tasks| ==> more[i].key == tasks[i].key
  }

  lemma StillAnswered(es: seq<ChatEvent>, e: ChatEvent, tasks: seq<Task>, more: seq<Task>, k: Key, r: LlmResponse)
    requires Answered(es, tasks, k, r) && SameKeys(tasks, more)
    ensures Answered(es + [e], more, k, r)
  {
    var i :| 0 <= i < |es| && AnswersWith(es[i], tasks, k, r);
    assert (es + [e])[i] == es[i];
  }

  ghost predicate AllAnswered(es: seq<ChatEvent>, s: Chat) {
    && (forall k :: k in s.entries ==> Answered(es, s.tasks, k, s.entries[k].response))
    && (forall i :: 0 <= i < |s.tasks| && s.tasks[i].Asked? && s.tasks[i].hit.Some? ==>
          Answered(es, s.tasks, s.tasks[i].key, s.tasks[i].hit.value))
  }

  lemma StepKeepsAnswered(ttl: int, es: seq<ChatEvent>, s: Chat, e: ChatEvent)
    requires AllAnswered(es, s) && Step(ttl, s, e).Some?
    ensures AllAnswered(es + [e], Step(ttl, s, e).value)
  {
    hide Answered;
    var t := Step(ttl, s, e).value;
    assert SameKeys(s.tasks, t.tasks);
    forall k | k in t.entries ensures Answered(es + [e], t.tasks, k, t.entries[k].response) {
      if k in s.entries && t.entries[k].response == s.entries[k].response {
        StillAnswered(es, e, s.tasks, t.tasks, k, s.entries[k].response);
      } else {
        NewAnswer(ttl, es, s, e, k);
      }
    }
    forall i | 0 <= i < |t.tasks| && t.tasks[i].Asked? && t.tasks[i].hit.Some?
      ensures Answered(es + [e], t.tasks, t.tasks[i].key, t.tasks[i].hit.value)
    {
      StillAnswered(es, e, s.tasks, t.tasks, t.tasks[i].key, t.tasks[i].hit.value);
    }
  }

  lemma NewAnswer(ttl: int, es: seq<ChatEvent>, s: Chat, e: ChatEvent, k: Key)
    requires AllAnswered(es, s) && Step(ttl, s, e).Some? && k in Step(ttl, s, e).value.entries
    requires !(k in s.entries && Step(ttl, s, e).value.entries[k].response == s.entries[k].response)
    ensures Answered(es + [e], Step(ttl, s, e).value.tasks, k, Step(ttl, s, e).value.entries[k].response)
  {
    var t := Step(ttl, s, e).value;
    assert e.Finish? && s.tasks[e.id].key == k && SameKeys(s.tasks, t.tasks);
    if s.tasks[e.id].hit.Some? {
      StillAnswered(es, e, s.tasks, t.tasks, k, s.tasks[e.id].hit.value);
    } else {
      assert (es + [e])[|es|] == e && AnswersWith(e, t.tasks, k, t.entries[k].response);
    }
  }

  /** In every interleaving each cached response, and each hit, is what some message with that very key was
      answered. */
  lemma {:induction false} CachedWasAnswered(ttl: int, es: seq<ChatEvent>)
    requires Run(ttl, es).Some?
    ensures AllAnswered(es, Run(ttl, es).value)
  {
    if es != [] {
      var before := es[..|es| - 1];
      CachedWasAnswered(ttl, before);
      StepKeepsAnswered(ttl, before, Run(ttl, before).value, es[|es| - 1]);
      assert before + [es[|es| - 1]] == es;
    }
  }

  // ---------- a late write-back ----------

  /** Two messages miss, one is answered `older`, a third one hits that, the second is answered `newer`, and
      then the third writes its hit back. */
  function Overtaken(k: Key, older: LlmResponse, newer: LlmResponse, last: Reply, t: int): seq<ChatEvent> {
    [Fetch(k, t), Fetch(k, t), Finish(0, Reply(older), t, None), Fetch(k, t),
     Finish(1, Reply(newer), t, None), Finish(2, last, t, None)]
  }

  function OvertakenStates(ttl: int, k: Key, older: LlmResponse, newer: LlmResponse, t: int): (states: seq<Chat>)
    ensures |states| == 7
  {
    var (miss, done, hit) := (Asked(k, None), Finished(k), Asked(k, Some(older)));
    var (o, n) := (map[k := Entry(older, t + ttl)], map[k := Entry(newer, t + ttl)]);
    [EMPTY, Chat(map[], [miss]), Chat(map[], [miss, miss]), Chat(o, [done, miss]), Chat(o, [done, miss, hit]),
     Chat(n, [done, done, hit]), Chat(o, [done, done, done])]
  }

  lemma OvertakenStep(ttl: int, k: Key, older: LlmResponse, newer: LlmResponse, last: Reply, t: int, i: nat)
    requires older.toolCalls == newer.toolCalls == [] && ttl >= 0 && i < 6
    ensures Step(ttl, OvertakenStates(ttl, k, older, newer, t)[i], Overtaken(k, older, newer, last, t)[i])
         == Some(OvertakenStates(ttl, k, older, newer, t)[i + 1])
  {
    var (miss, done, hit) := (Asked(k, None), Finished(k), Asked(k, Some(older)));
    assert [] + [miss] == [miss] && [miss] + [miss] == [miss, miss] && [done, miss] + [hit] == [done, miss, hit];
    assert [miss, miss][0 := done] == [done, miss] && [done, miss, hit][1 := done] == [done, done, hit];
    assert [done, done, hit][2 := done] == [done, done, done];
    assert map[k := Entry(older, t + ttl)][k := Entry(newer, t + ttl)] == map[k := Entry(newer, t + ttl)];
    assert map[k := Entry(newer, t + ttl)][k := Entry(older, t + ttl)] == map[k := Entry(older, t + ttl)];
  }

  lemma {:induction false} OvertakenRun(ttl: int, k: Key, older: LlmResponse, newer: LlmResponse, last: Reply, t: int,
                                        n: nat)
    requires older.toolCalls == newer.toolCalls == [] && ttl >= 0 && n <= 6
    ensures Run(ttl, Overtaken(k, older, newer, last, t)[..n]) == Some(OvertakenStates(ttl, k, older, newer, t)[n])
  {
    if n > 0 {
      var es := Overtaken(k, older, newer, last, t);
      OvertakenRun(ttl, k, older, newer, last, t, n - 1);
      OvertakenStep(ttl, k, older, newer, last, t, n - 1);
      RunSnoc(ttl, es[..n - 1], es[n - 1]);
      assert es[..n - 1] + [es[n - 1]] == es[..n];
    }
  }

  /** A late write-back, though nothing is evicted, puts an older hit over a newer answer to the same key: what
      is served next is the older one. */
  lemma LateWriteBack(ttl: int, k: Key, older: LlmResponse, newer: LlmResponse, last: Reply, t: int)
    requires older.toolCalls == newer.toolCalls == [] && ttl >= 0
    ensures var es := Overtaken(k, older, newer, last, t);
            && Run(ttl, es[..5]).Some? && Lookup(Run(ttl, es[..5]).value.entries, k, t) == Some(newer)
            && Run(ttl, es).Some? && Lookup(Run(ttl, es).value.entries, k, t) == Some(older)
  {
    var es := Overtaken(k, older, newer, last, t);
    OvertakenRun(ttl, k, older, newer, last, t, 5);
    OvertakenRun(ttl, k, older, newer, last, t, 6);
    assert es[..6] == es;
  }
}
