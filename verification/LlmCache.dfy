/** The LLM response cache (internal/infrastructure/cache/llm_cache.go).

    Keys are hashes of trimmed prompts; the hash is taken to be injective. A `Get` reads under the read
    lock and deletes an expired entry under the write lock, so it is two steps of a run. */
module LlmCache {
  import opened Text

  datatype LlmResponse = LlmResponse(content: string, toolCalls: seq<string>, completionTokens: int)

  datatype Key = Digest(normalized: string)

  function KeyOf(prompt: string): Key {
    Digest(TrimSpace(prompt))
  }

  datatype Entry = Entry(response: LlmResponse, expiresAt: int)

  type Entries = map<Key, Entry>

  ghost predicate IsOldest(m: Entries, k: Key) {
    k in m && forall l :: l in m ==> m[k].expiresAt <= m[l].expiresAt
  }

  ghost predicate AtCapacity(m: Entries, maxSize: int) {
    |m| >= maxSize && m != map[]
  }

  /** A `Set` at capacity first drops a victim with the earliest expiry. */
  ghost predicate VictimOk(m: Entries, maxSize: int, victim: Option<Key>) {
    if AtCapacity(m, maxSize) then victim.Some? && IsOldest(m, victim.value) else victim.None?
  }

  function AfterSet(m: Entries, victim: Option<Key>, k: Key, e: Entry): Entries {
    (if victim.Some? then m - {victim.value} else m)[k := e]
  }

  class LLMCache {
    var entries: Entries
    const maxSize: int
    const ttl: int
    var hits: nat
    var misses: nat
    var evictions: nat

    constructor (maxSize: int, ttl: int)
      ensures this.maxSize == maxSize && this.ttl == ttl && entries == map[] && hits == misses == evictions == 0
    {
      this.maxSize, this.ttl, entries := maxSize, ttl, map[];
      hits, misses, evictions := 0, 0, 0;
    }

    /** The search visits the map in any order, so among equal expiries any may be the victim. */
    method EvictOldest() returns (victim: Option<Key>)
      modifies this`entries, this`evictions
      ensures if old(entries) == map[] then victim.None? && entries == old(entries) && evictions == old(evictions)
              else && victim.Some? && IsOldest(old(entries), victim.value)
                   && entries == old(entries) - {victim.value} && evictions == old(evictions) + 1
    {
      victim := None;
      var oldestTime := 0;
      var rest := entries.Keys;
      while rest != {}
        invariant rest <= entries.Keys
        invariant victim.None? ==> rest == entries.Keys
        invariant victim.Some? ==> victim.value in entries && oldestTime == entries[victim.value].expiresAt
                                   && forall l :: l in entries && l !in rest ==> oldestTime <= entries[l].expiresAt
        decreases rest
      {
        var key :| key in rest;
        if victim.None? || entries[key].expiresAt < oldestTime {
          victim := Some(key);
          oldestTime := entries[key].expiresAt;
        }
        rest := rest - {key};
      }
      if victim.Some? {
        entries := entries - {victim.value};
        evictions := evictions + 1;
      }
    }

    method Set(prompt: string, response: LlmResponse, now: int) returns (victim: Option<Key>)
      modifies this`entries, this`evictions
      ensures VictimOk(old(entries), maxSize, victim)
      ensures entries == AfterSet(old(entries), victim, KeyOf(prompt), Entry(response, now + ttl))
      ensures evictions == old(evictions) + if victim.Some? then 1 else 0
      ensures victim.Some? <==> |old(entries)| >= maxSize && old(entries) != map[]
    {
      victim := None;
      if |entries| >= maxSize {
        victim := EvictOldest();
      }
      entries := entries[KeyOf(prompt) := Entry(response, now + ttl)];
    }

    /** With nothing in between its two steps. */
    method Get(prompt: string, now: int) returns (r: Option<LlmResponse>)
      modifies this`entries, this`hits, this`misses
      ensures var k := KeyOf(prompt);
              && r == Lookup(old(entries), k, now)
              && entries == (if k in old(entries) && r.None? then old(entries) - {k} else old(entries))
              && hits == old(hits) + (if r.Some? then 1 else 0) && misses == old(misses) + if r.Some? then 0 else 1
    {
      var k := KeyOf(prompt);
      if k !in entries {
        misses := misses + 1;
        return None;
      }
      var entry := entries[k];
      if now > entry.expiresAt {
        entries := entries - {k};
        misses := misses + 1;
        return None;
      }
      hits := hits + 1;
      return Some(entry.response);
    }

    method Delete(prompt: string)
      modifies this`entries
      ensures entries == old(entries) - {KeyOf(prompt)}
    {
      entries := entries - {KeyOf(prompt)};
    }

    method Clear()
      modifies this`entries
      ensures entries == map[]
    {
      entries := map[];
    }
  }

  /** What a read at `now` sees. */
  function Lookup(m: Entries, k: Key, now: int): Option<LlmResponse> {
    if k in m && now <= m[k].expiresAt then Some(m[k].response) else None
  }

  // ---------- runs ----------

  /** `Remove` is `Delete`, or the second step of a `Get` that saw an expired entry; its first step
      changes no entry and may come anywhere. */
  datatype Event = Put(key: Key, response: LlmResponse, now: int, victim: Option<Key>) | Remove(key: Key) | Wipe

  ghost predicate Enabled(maxSize: int, m: Entries, e: Event) {
    e.Put? ==> VictimOk(m, maxSize, e.victim)
  }

  function Step(ttl: int, m: Entries, e: Event): Entries {
    match e
    case Put(k, r, now, victim) => AfterSet(m, victim, k, Entry(r, now + ttl))
    case Remove(k) => m - {k}
    case Wipe => map[]
  }

  /** The run is built from its last event, so that the log can be read backwards. */
  function Run(ttl: int, es: seq<Event>): Entries {
    if es == [] then map[] else Step(ttl, Run(ttl, es[..|es| - 1]), es[|es| - 1])
  }

  ghost predicate Legal(maxSize: int, ttl: int, es: seq<Event>) {
    es == [] || (Legal(maxSize, ttl, es[..|es| - 1]) && Enabled(maxSize, Run(ttl, es[..|es| - 1]), es[|es| - 1]))
  }

  /** The last Set of a key that no later Remove or Clear undid. */
  function LastPut(es: seq<Event>, k: Key): Option<Event> {
    if es == [] then None
    else
      var e := es[|es| - 1];
      if e.Put? && e.key == k then Some(e)
      else if e.Wipe? || (e.Remove? && e.key == k) then None
      else LastPut(es[..|es| - 1], k)
  }

  /** Whatever is present is the last Set of its key, with its expiry. */
  lemma {:induction false} PresentIsLastPut(maxSize: int, ttl: int, es: seq<Event>, k: Key)
    requires Legal(maxSize, ttl, es) && k in Run(ttl, es)
    ensures LastPut(es, k).Some? && LastPut(es, k).value.Put?
    ensures var p := LastPut(es, k).value; Run(ttl, es)[k] == Entry(p.response, p.now + ttl)
  {
    var e := es[|es| - 1];
    if !(e.Put? && e.key == k) {
      PresentIsLastPut(maxSize, ttl, es[..|es| - 1], k);
    }
  }

  /** A hit returns exactly the response last Set for the key, not older than the TTL. */
  lemma HitIsLastPut(maxSize: int, ttl: int, es: seq<Event>, k: Key, now: int)
    requires Legal(maxSize, ttl, es) && Lookup(Run(ttl, es), k, now).Some?
    ensures var p := LastPut(es, k);
            && p.Some? && p.value.Put?
            && Lookup(Run(ttl, es), k, now).value == p.value.response && now - p.value.now <= ttl
  {
    PresentIsLastPut(maxSize, ttl, es, k);
  }

  /** A present key hits for exactly its time to live since it was last Set. */
  lemma PresentHitsIff(maxSize: int, ttl: int, es: seq<Event>, k: Key, now: int)
    requires Legal(maxSize, ttl, es) && k in Run(ttl, es)
    ensures LastPut(es, k).Some? && LastPut(es, k).value.Put?
    ensures Lookup(Run(ttl, es), k, now).Some? <==> now <= LastPut(es, k).value.now + ttl
  {
    PresentIsLastPut(maxSize, ttl, es, k);
  }

  /** As long as fewer keys than the cache holds are ever Set, nothing is evicted: whatever was Set, and not
      removed since, is present. */
  lemma {:induction false} RoomKeepsAll(maxSize: int, ttl: int, es: seq<Event>, keys: set<Key>, k: Key)
    requires Legal(maxSize, ttl, es) && |keys| < maxSize
    requires forall i :: 0 <= i < |es| && es[i].Put? ==> es[i].key in keys
    ensures Run(ttl, es).Keys <= keys
    ensures LastPut(es, k).Some? ==> k in Run(ttl, es)
  {
    if es != [] {
      var before := es[..|es| - 1];
      assert forall i :: 0 <= i < |before| ==> before[i] == es[i];
      RoomKeepsAll(maxSize, ttl, before, keys, k);
      SubsetCounts(Run(ttl, before), keys);
      assert es[|es| - 1].Put? ==> es[|es| - 1].victim.None?;
    }
  }

  lemma SubsetCounts(m: Entries, keys: set<Key>)
    requires m.Keys <= keys
    ensures |m| <= |keys|
  {
    assert keys == m.Keys + (keys - m.Keys);
    assert |m.Keys| == |m|;
  }

  lemma DropCounts(m: Entries, k: Key)
    ensures |m - {k}| == |m| - if k in m then 1 else 0
  {
    assert (m - {k}).Keys == m.Keys - {k};
    assert |m.Keys| == |m| && |(m - {k}).Keys| == |m - {k}|;
  }

  lemma PutCounts(m: Entries, k: Key, e: Entry)
    ensures |m[k := e]| == |m| + if k in m then 0 else 1
  {
    assert m[k := e].Keys == m.Keys + {k};
    assert |m.Keys| == |m| && |m[k := e].Keys| == |m[k := e]|;
  }

  /** The cache never holds more than its maximum size, or one entry. */
  lemma {:induction false} SizeBound(maxSize: int, ttl: int, es: seq<Event>)
    requires Legal(maxSize, ttl, es)
    ensures |Run(ttl, es)| <= if maxSize > 1 then maxSize else 1
  {
    if es != [] {
      var m, e := Run(ttl, es[..|es| - 1]), es[|es| - 1];
      SizeBound(maxSize, ttl, es[..|es| - 1]);
      match e
      case Put(k, r, now, victim) =>
        if victim.Some? {
          DropCounts(m, victim.value);
          PutCounts(m - {victim.value}, k, Entry(r, now + ttl));
        } else {
          PutCounts(m, k, Entry(r, now + ttl));
        }
      case Remove(k) => DropCounts(m, k);
      case Wipe =>
    }
  }

  /** Sets happen at strictly increasing times. */
  ghost predicate Ticking(es: seq<Event>) {
    forall i, j :: 0 <= i < j < |es| && es[i].Put? && es[j].Put? ==> es[i].now < es[j].now
  }

  lemma {:induction false} LastPutInLog(es: seq<Event>, k: Key)
    requires LastPut(es, k).Some?
    ensures LastPut(es, k).value in es && LastPut(es, k).value.Put? && LastPut(es, k).value.key == k
  {
    var e := es[|es| - 1];
    if !(e.Put? && e.key == k) {
      LastPutInLog(es[..|es| - 1], k);
    }
  }

  lemma TickingPrefix(es: seq<Event>)
    requires Ticking(es) && es != []
    ensures Ticking(es[..|es| - 1])
    ensures es[|es| - 1].Put? ==> forall e :: e in es[..|es| - 1] && e.Put? ==> e.now < es[|es| - 1].now
  {
  }

  /** Two Sets of a ticking log at the same time are the same Set. */
  lemma SameTimeSamePut(es: seq<Event>, a: Event, b: Event)
    requires Ticking(es) && a in es && b in es && a.Put? && b.Put? && a.now == b.now
    ensures a == b
  {
    var i :| 0 <= i < |es| && es[i] == a;
    var j :| 0 <= j < |es| && es[j] == b;
  }

  /** With a ticking clock eviction is first-in-first-out: a key that is absent only because it was
      evicted was last Set before every key still present. */
  lemma {:induction false} EvictedAreOlder(maxSize: int, ttl: int, es: seq<Event>, gone: Key, kept: Key)
    requires Legal(maxSize, ttl, es) && Ticking(es)
    requires gone !in Run(ttl, es) && LastPut(es, gone).Some? && kept in Run(ttl, es)
    ensures LastPut(es, kept).Some? && LastPut(es, kept).value.Put? && LastPut(es, gone).value.Put?
    ensures LastPut(es, gone).value.now < LastPut(es, kept).value.now
  {
    PresentIsLastPut(maxSize, ttl, es, kept);
    LastPutInLog(es, gone);
    var before, e := es[..|es| - 1], es[|es| - 1];
    var m := Run(ttl, before);
    TickingPrefix(es);
    if e.Put? && e.key == kept {
      LastPutInLog(before, gone);
    } else {
      if gone in m {
        // this step evicted it: it was the oldest, and the other one stayed
        assert e.Put? && e.victim == Some(gone) && kept in m;
        PresentIsLastPut(maxSize, ttl, before, gone);
        PresentIsLastPut(maxSize, ttl, before, kept);
        assert m[gone].expiresAt <= m[kept].expiresAt;
        LastPutInLog(before, kept);
        LastPutInLog(before, gone);
        if LastPut(before, gone).value.now == LastPut(before, kept).value.now {
          SameTimeSamePut(before, LastPut(before, gone).value, LastPut(before, kept).value);
        }
      } else {
        EvictedAreOlder(maxSize, ttl, before, gone, kept);
      }
    }
  }

  /** Setting a key that is already cached needs no room, yet at capacity it drops another live entry
      exactly if the key is not itself the victim. */
  lemma ResetCanEvict(m: Entries, maxSize: int, victim: Option<Key>, k: Key, e: Entry)
    requires VictimOk(m, maxSize, victim) && k in m
    ensures (AfterSet(m, victim, k, e).Keys == m.Keys) <==> (victim.None? || victim.value == k)
    ensures |AfterSet(m, victim, k, e)| == |m| - if victim.Some? && victim.value != k then 1 else 0
  {
    if victim.Some? {
      DropCounts(m, victim.value);
      PutCounts(m - {victim.value}, k, e);
    } else {
      PutCounts(m, k, e);
    }
  }
}
