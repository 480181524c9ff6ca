/** The versioned vault under concurrency (internal/infrastructure/crypto/versioned_vault.go): no lock spans
    a whole store, re-encryption or rotation.

    A store reads the current version and key under one lock and writes the entry under another; a
    re-encryption reads the entry, looks up its key, and then stores. Each of these critical sections is
    one step here, so a run is any interleaving of them with key changes and deletions. */
module VaultInterleaving {
  import opened Text
  import opened VersionedVault
  import KR = KeyRotation

  /** An operation in flight: a re-encryption that has read the entry, or has decrypted it; a store, direct or
      of a re-encryption, that is about to write data under a version; or one that has ended. */
  datatype Task =
    | Read(name: string, data: bytes)
    | Plain(name: string, value: bytes)
    | Ready(name: string, value: bytes, version: int, data: bytes, direct: bool)
    | Ended

  datatype System = System(vault: Vault, tasks: seq<Task>)

  datatype Event =
    | BeginStore(name: string, value: bytes, nonce: Option<bytes>)
    | BeginReEncrypt(name: string)
    | Decrypt(id: nat)
    | Encrypt(id: nat, nonce: Option<bytes>)
    | Write(id: nat, env: Env)
    | DeleteName(name: string, env: Env)
    | AddKey(version: int, key: bytes)
    | Switch(version: int)
    | RemoveKey(version: int)

  /** The task that encrypting leaves: one that is ready to write, or ended by an error. */
  function Prepared(a: Aead, s: Vault, name: string, value: bytes, nonce: Option<bytes>, direct: bool): Task {
    match Prepare(a, s, value, nonce)
    case Err(_) => Ended
    case Ok(data) => Ready(name, value, s.currentVersion, data, direct)
  }

  function Opened(a: Aead, s: Vault, t: Task): Task
    requires t.Read?
  {
    match OpenData(a, s, t.data) case Err(_) => Ended case Ok(p) => Plain(t.name, p)
  }

  function Step(a: Aead, s: System, e: Event): Option<System> {
    var v, ts := s.vault, s.tasks;
    match e
    case BeginStore(name, value, nonce) => Some(s.(tasks := ts + [Prepared(a, v, name, value, nonce, true)]))
    case BeginReEncrypt(name) =>
      Some(s.(tasks := ts + [match InnerRetrieve(a, v, name) case Err(_) => Ended case Ok(d) => Read(name, d)]))
    case Decrypt(id) =>
      if id < |ts| && ts[id].Read? then Some(s.(tasks := ts[id := Opened(a, v, ts[id])])) else None
    case Encrypt(id, nonce) =>
      if id < |ts| && ts[id].Plain?
      then Some(s.(tasks := ts[id := Prepared(a, v, ts[id].name, ts[id].value, nonce, false)])) else None
    case Write(id, env) =>
      if id < |ts| && ts[id].Ready?
      then Some(System(InnerStore(a, v, ts[id].name, ts[id].data, env).0, ts[id := Ended])) else None
    case DeleteName(name, env) => Some(s.(vault := Delete(v, name, env).0))
    case AddKey(version, key) => Some(s.(vault := AddKeyVersion(v, version, key).0))
    case Switch(version) => Some(s.(vault := SetCurrentVersion(v, version).0))
    case RemoveKey(version) => Some(s.(vault := RemoveKeyVersion(v, version).0))
  }

  function Run(a: Aead, s: System, es: seq<Event>): Option<System>
    decreases |es|
  {
    if es == [] then Some(s)
    else match Step(a, s, es[0])
      case None => None
      case Some(t) => Run(a, t, es[1..])
  }

  // ---------- what the writes mean ----------

  /** The entry reaches the map, whether or not the file is written. */
  predicate Lands(e: Event) {
    e.Write? && e.env.innerNonce.Some?
  }

  /** Direct stores and deletions change the plain map; re-encryptions mean nothing. */
  function Meaning(s: System, m: map<string, bytes>, e: Event): map<string, bytes> {
    if Lands(e) && e.id < |s.tasks| && s.tasks[e.id].Ready? && s.tasks[e.id].direct
    then m[s.tasks[e.id].name := s.tasks[e.id].value]
    else if e.DeleteName? then m - {e.name}
    else m
  }

  function RunMeaning(a: Aead, s: System, m: map<string, bytes>, es: seq<Event>): map<string, bytes>
    requires Run(a, s, es).Some?
    decreases |es|
  {
    if es == [] then m else RunMeaning(a, Step(a, s, es[0]).value, Meaning(s, m, es[0]), es[1..])
  }

  // ---------- exactly when a run keeps the map ----------

  /** A write is good if its data opens as what the map then means for the name; removing a version is good
      if no entry is under it; everything else is. */
  ghost predicate Good(a: Aead, s: System, m: map<string, bytes>, e: Event) {
    match e
    case Write(id, _) =>
      Lands(e) && id < |s.tasks| && s.tasks[id].Ready? ==>
        var t, m' := s.tasks[id], Meaning(s, m, e);
        t.name in m' && OpenData(a, s.vault, t.data) == Ok(m'[t.name])
    case RemoveKey(version) =>
      version != s.vault.currentVersion ==>
        forall n :: n in s.vault.credentials ==> KeyVersion(a, s.vault, n) != Ok(version)
    case _ => true
  }

  lemma WriteIsRead(a: Aead, v: Vault, name: string, data: bytes, env: Env, n: string)
    requires a.Correct() && |v.innerKey| == 32 && env.innerNonce.Some?
    ensures var v' := InnerStore(a, v, name, data, env).0;
            && v'.keys == v.keys && v'.currentVersion == v.currentVersion && v'.innerKey == v.innerKey
            && v'.credentials.Keys == v.credentials.Keys + {name}
            && Retrieve(a, v', n) == (if n == name then OpenData(a, v, data) else Retrieve(a, v, n))
            && InnerRetrieve(a, v', n) == (if n == name then Ok(data) else InnerRetrieve(a, v, n))
  {
    hide ExtractVersion;
    assert a.unseal(a.seal(data, v.innerKey, env.innerNonce.value), v.innerKey) == Some(data);
  }

  /** One step keeps the vault standing for the map exactly if it is good. */
  lemma StepHoldsIff(a: Aead, s: System, m: map<string, bytes>, e: Event)
    requires a.Correct() && |s.vault.innerKey| == 32 && KR.Holds(a, s.vault, m) && Step(a, s, e).Some?
    ensures KR.Holds(a, Step(a, s, e).value.vault, Meaning(s, m, e)) <==> Good(a, s, m, e)
    ensures Step(a, s, e).value.vault.innerKey == s.vault.innerKey
  {
    hide Aead.Correct, Retrieve, KeyVersion, InnerRetrieve, OpenData, InnerStore;
    match e
    case Write(id, env) =>
      if Lands(e) {
        WriteHoldsIff(a, s, m, e);
      } else {
        NoNonceNoWrite(a, s.vault, s.tasks[id].name, s.tasks[id].data, env);
      }
    case DeleteName(name, env) =>
      forall n | n in m && n != name ensures Retrieve(a, Delete(s.vault, name, env).0, n) == Ok(m[n]) {
        KR.DeleteKeepsOthers(a, s.vault, name, env, n);
      }
    case AddKey(version, key) =>
      forall n | n in m ensures Retrieve(a, AddKeyVersion(s.vault, version, key).0, n) == Ok(m[n]) {
        KR.AddKeyKeeps(a, s.vault, version, key, n);
      }
    case Switch(version) =>
      forall n | n in m ensures Retrieve(a, SetCurrentVersion(s.vault, version).0, n) == Ok(m[n]) {
        KR.SetCurrentKeeps(a, s.vault, version, n);
      }
    case RemoveKey(version) =>
      if version != s.vault.currentVersion {
        forall n | n in m
          ensures Retrieve(a, RemoveKeyVersion(s.vault, version).0, n) == Ok(m[n])
             <==> KeyVersion(a, s.vault, n) != Ok(version)
        {
          KR.RemoveReach(a, s.vault, version, n);
        }
      }
    case _ =>
  }

  lemma NoNonceNoWrite(a: Aead, v: Vault, name: string, data: bytes, env: Env)
    requires env.innerNonce.None?
    ensures InnerStore(a, v, name, data, env).0 == v
  {
  }

  lemma WriteHoldsIff(a: Aead, s: System, m: map<string, bytes>, e: Event)
    requires a.Correct() && |s.vault.innerKey| == 32 && KR.Holds(a, s.vault, m) && Step(a, s, e).Some? && Lands(e)
    ensures KR.Holds(a, Step(a, s, e).value.vault, Meaning(s, m, e)) <==> Good(a, s, m, e)
    ensures Step(a, s, e).value.vault.innerKey == s.vault.innerKey
  {
    hide Aead.Correct, Retrieve, KeyVersion, InnerRetrieve, OpenData, InnerStore;
    var t, v', m' := s.tasks[e.id], Step(a, s, e).value.vault, Meaning(s, m, e);
    forall n
      ensures Retrieve(a, v', n) == if n == t.name then OpenData(a, s.vault, t.data) else Retrieve(a, s.vault, n)
    {
      WriteIsRead(a, s.vault, t.name, t.data, e.env, n);
    }
    WriteIsRead(a, s.vault, t.name, t.data, e.env, t.name);
    assert t.name in v'.credentials;
    assert forall n :: n != t.name ==> (n in m' <==> n in m) && (n in m ==> m'[n] == m[n]);
  }

  /** The vault stands for the map at every moment of the run. */
  ghost predicate AlwaysHolds(a: Aead, s: System, m: map<string, bytes>, es: seq<Event>)
    requires Run(a, s, es).Some?
    decreases |es|
  {
    && KR.Holds(a, s.vault, m)
    && (es != [] ==> AlwaysHolds(a, Step(a, s, es[0]).value, Meaning(s, m, es[0]), es[1..]))
  }

  ghost predicate AllGood(a: Aead, s: System, m: map<string, bytes>, es: seq<Event>)
    requires Run(a, s, es).Some?
    decreases |es|
  {
    es != [] ==> Good(a, s, m, es[0]) && AllGood(a, Step(a, s, es[0]).value, Meaning(s, m, es[0]), es[1..])
  }

  /** In every interleaving: the vault always stands for the map of direct stores and deletions if and only if
      every write opens as what the map then means, and no version with entries is removed. */
  lemma {:induction false} RunHoldsIff(a: Aead, s: System, m: map<string, bytes>, es: seq<Event>)
    requires a.Correct() && |s.vault.innerKey| == 32 && KR.Holds(a, s.vault, m) && Run(a, s, es).Some?
    ensures AlwaysHolds(a, s, m, es) <==> AllGood(a, s, m, es)
    decreases |es|
  {
    hide Aead.Correct, KR.Holds, Good, Step, Meaning;
    if es != [] {
      StepHoldsIff(a, s, m, es[0]);
      var t, m' := Step(a, s, es[0]).value, Meaning(s, m, es[0]);
      if KR.Holds(a, t.vault, m') {
        RunHoldsIff(a, t, m', es[1..]);
      }
    }
  }

  // ---------- a discipline that suffices ----------

  predicate ReEncrypting(t: Task) {
    t.Read? || t.Plain? || (t.Ready? && !t.direct)
  }

  function HeaderVersion(data: bytes): Option<int> {
    match ExtractVersion(data) case None => None case Some((version, _)) => Some(version)
  }

  /** No direct write or deletion of a name falls between a re-encryption's read and its write; no version is
      removed while an entry is under it or a write under it is pending, nor is a removed number given out
      again while a read under it is in flight. */
  ghost predicate Calm(a: Aead, s: System, e: Event) {
    match e
    case Write(id, _) =>
      Lands(e) && id < |s.tasks| && s.tasks[id].Ready? && s.tasks[id].direct ==> NotReEncrypting(s, s.tasks[id].name)
    case DeleteName(name, _) => name in s.vault.credentials ==> NotReEncrypting(s, name)
    case AddKey(version, _) =>
      version !in s.vault.keys ==>
        KR.InRange(version)
        && forall i :: 0 <= i < |s.tasks| && s.tasks[i].Read? ==> HeaderVersion(s.tasks[i].data) != Some(version)
    case RemoveKey(version) =>
      version != s.vault.currentVersion ==>
        && (forall n :: n in s.vault.credentials ==> KeyVersion(a, s.vault, n) != Ok(version))
        && forall i :: 0 <= i < |s.tasks| && s.tasks[i].Ready? ==> s.tasks[i].version != version
    case _ => true
  }

  ghost predicate NotReEncrypting(s: System, name: string) {
    forall i :: 0 <= i < |s.tasks| && ReEncrypting(s.tasks[i]) ==> s.tasks[i].name != name
  }

  /** What a task in flight holds still agrees with the map. */
  ghost predicate Fresh(a: Aead, v: Vault, m: map<string, bytes>, t: Task) {
    match t
    case Read(name, data) =>
      && name in m && HeaderVersion(data).Some?
      && (HeaderVersion(data).value in v.keys ==> OpenData(a, v, data) == Ok(m[name]))
    case Plain(name, value) => name in m && m[name] == value
    case Ready(name, value, version, data, direct) =>
      && version in v.keys && HeaderVersion(data) == Some(version) && OpenData(a, v, data) == Ok(value)
      && (!direct ==> name in m && m[name] == value)
    case Ended => true
  }

  ghost predicate Steady(a: Aead, s: System, m: map<string, bytes>) {
    && KR.Sound(s.vault) && KR.Holds(a, s.vault, m)
    && forall i :: 0 <= i < |s.tasks| ==> Fresh(a, s.vault, m, s.tasks[i])
  }

  /** Encrypted data opens as its value, under the version it was encrypted with. */
  lemma PreparedIsFresh(a: Aead, v: Vault, m: map<string, bytes>, name: string, value: bytes, nonce: Option<bytes>,
                        direct: bool)
    requires a.Correct() && KR.Sound(v) && (!direct ==> name in m && m[name] == value)
    ensures Fresh(a, v, m, Prepared(a, v, name, value, nonce, direct))
  {
    if nonce.Some? {
      var k := v.keys[v.currentVersion];
      HeaderRoundTrip(v.currentVersion, a.seal(value, k, nonce.value));
      assert a.unseal(a.seal(value, k, nonce.value), k) == Some(value);
    }
  }

  lemma ReadIsFresh(a: Aead, v: Vault, m: map<string, bytes>, name: string)
    requires KR.Holds(a, v, m)
    ensures Fresh(a, v, m, match InnerRetrieve(a, v, name) case Err(_) => Ended case Ok(d) => Read(name, d))
  {
    if name in m {
      assert Retrieve(a, v, name) == Ok(m[name]);
    }
  }

  lemma OpenedIsFresh(a: Aead, v: Vault, m: map<string, bytes>, t: Task)
    requires t.Read? && Fresh(a, v, m, t)
    ensures Fresh(a, v, m, Opened(a, v, t))
  {
  }

  /** Fresh tasks stay fresh when keys are added that none of them refers to, or removed that no write needs. */
  lemma KeysKeepFresh(a: Aead, v: Vault, w: Vault, m: map<string, bytes>, t: Task)
    requires Fresh(a, v, m, t)
    requires forall k :: k in v.keys && k in w.keys ==> v.keys[k] == w.keys[k]
    requires t.Ready? ==> t.version in w.keys
    requires t.Read? && HeaderVersion(t.data).value in w.keys ==> HeaderVersion(t.data).value in v.keys
    ensures Fresh(a, w, m, t)
  {
  }

  lemma MapKeepsFresh(a: Aead, v: Vault, m: map<string, bytes>, m': map<string, bytes>, name: string, t: Task)
    requires Fresh(a, v, m, t) && (ReEncrypting(t) ==> t.name != name)
    requires forall n :: n != name ==> (n in m <==> n in m') && (n in m ==> m[n] == m'[n])
    ensures Fresh(a, v, m', t)
  {
  }

  lemma SetTask(a: Aead, s: System, m: map<string, bytes>, id: nat, t: Task)
    requires Steady(a, s, m) && id < |s.tasks| && Fresh(a, s.vault, m, t)
    ensures Steady(a, s.(tasks := s.tasks[id := t]), m)
  {
  }

  lemma AddTask(a: Aead, s: System, m: map<string, bytes>, t: Task)
    requires Steady(a, s, m) && Fresh(a, s.vault, m, t)
    ensures Steady(a, s.(tasks := s.tasks + [t]), m)
  {
  }

  lemma KeyStepKeepsSteady(a: Aead, s: System, m: map<string, bytes>, e: Event)
    requires a.Correct() && Steady(a, s, m) && Calm(a, s, e) && (e.AddKey? || e.Switch? || e.RemoveKey?)
    ensures Good(a, s, m, e) && Steady(a, Step(a, s, e).value, m)
  {
    hide Aead.Correct, Retrieve, KeyVersion, InnerRetrieve, OpenData, Fresh, HeaderVersion, ReEncrypting;
    StepHoldsIff(a, s, m, e);
    var t := Step(a, s, e).value;
    forall i | 0 <= i < |s.tasks| ensures Fresh(a, t.vault, m, s.tasks[i]) {
      FreshShape(a, s.vault, m, s.tasks[i]);
      KeysKeepFresh(a, s.vault, t.vault, m, s.tasks[i]);
    }
  }

  lemma FreshShape(a: Aead, v: Vault, m: map<string, bytes>, t: Task)
    requires Fresh(a, v, m, t)
    ensures t.Ready? ==> t.version in v.keys
    ensures t.Read? ==> HeaderVersion(t.data).Some?
  {
  }

  /** A write, direct or not, and a deletion. */
  lemma WriteKeepsSteady(a: Aead, s: System, m: map<string, bytes>, e: Event)
    requires a.Correct() && Steady(a, s, m) && Calm(a, s, e) && (e.Write? || e.DeleteName?) && Step(a, s, e).Some?
    ensures Good(a, s, m, e) && Steady(a, Step(a, s, e).value, Meaning(s, m, e))
  {
    hide Aead.Correct, Retrieve, KeyVersion, InnerRetrieve, HeaderVersion, ReEncrypting, OpenData;
    assert Good(a, s, m, e);
    StepHoldsIff(a, s, m, e);
    var t, m' := Step(a, s, e).value, Meaning(s, m, e);
    var name := if e.Write? then s.tasks[e.id].name else e.name;
    SameKeysAfter(a, s, e);
    forall i | 0 <= i < |t.tasks| ensures Fresh(a, t.vault, m', t.tasks[i]) {
      if t.tasks[i] != Ended {
        assert t.tasks[i] == s.tasks[i];
        if m' == m {
          assert Fresh(a, s.vault, m', s.tasks[i]);
        } else {
          MapKeepsFresh(a, s.vault, m, m', name, s.tasks[i]);
        }
        FreshShape(a, s.vault, m', s.tasks[i]);
        KeysKeepFresh(a, s.vault, t.vault, m', s.tasks[i]);
      }
    }
  }

  lemma SameKeysAfter(a: Aead, s: System, e: Event)
    requires (e.Write? || e.DeleteName?) && Step(a, s, e).Some?
    ensures Step(a, s, e).value.vault.keys == s.vault.keys
    ensures Step(a, s, e).value.vault.currentVersion == s.vault.currentVersion
  {
  }

  lemma StepKeepsSteady(a: Aead, s: System, m: map<string, bytes>, e: Event)
    requires a.Correct() && Steady(a, s, m) && Calm(a, s, e) && Step(a, s, e).Some?
    ensures Good(a, s, m, e) && Steady(a, Step(a, s, e).value, Meaning(s, m, e))
  {
    hide Aead.Correct, Fresh, Prepared, InnerRetrieve, Opened;
    match e
    case BeginStore(name, value, nonce) =>
      PreparedIsFresh(a, s.vault, m, name, value, nonce, true);
      AddTask(a, s, m, Prepared(a, s.vault, name, value, nonce, true));
    case BeginReEncrypt(name) =>
      ReadIsFresh(a, s.vault, m, name);
      AddTask(a, s, m, match InnerRetrieve(a, s.vault, name) case Err(_) => Ended case Ok(d) => Read(name, d));
    case Decrypt(id) =>
      OpenedIsFresh(a, s.vault, m, s.tasks[id]);
      SetTask(a, s, m, id, Opened(a, s.vault, s.tasks[id]));
    case Encrypt(id, nonce) =>
      PlainIsCurrent(a, s.vault, m, s.tasks[id]);
      PreparedIsFresh(a, s.vault, m, s.tasks[id].name, s.tasks[id].value, nonce, false);
      SetTask(a, s, m, id, Prepared(a, s.vault, s.tasks[id].name, s.tasks[id].value, nonce, false));
    case AddKey(_, _) => KeyStepKeepsSteady(a, s, m, e);
    case Switch(_) => KeyStepKeepsSteady(a, s, m, e);
    case RemoveKey(_) => KeyStepKeepsSteady(a, s, m, e);
    case _ => WriteKeepsSteady(a, s, m, e);
  }

  lemma PlainIsCurrent(a: Aead, v: Vault, m: map<string, bytes>, t: Task)
    requires t.Plain? && Fresh(a, v, m, t)
    ensures t.name in m && m[t.name] == t.value
  {
  }

  ghost predicate AllCalm(a: Aead, s: System, es: seq<Event>)
    requires Run(a, s, es).Some?
    decreases |es|
  {
    es != [] ==> Calm(a, s, es[0]) && AllCalm(a, Step(a, s, es[0]).value, es[1..])
  }

  /** In every interleaving that keeps the discipline, the vault always stands for the map of direct stores
      and deletions: live rotation loses nothing. */
  lemma {:induction false} CalmRunHolds(a: Aead, s: System, m: map<string, bytes>, es: seq<Event>)
    requires a.Correct() && Steady(a, s, m) && Run(a, s, es).Some? && AllCalm(a, s, es)
    ensures AlwaysHolds(a, s, m, es) && AllGood(a, s, m, es)
    ensures Steady(a, Run(a, s, es).value, RunMeaning(a, s, m, es))
    decreases |es|
  {
    hide Aead.Correct, Fresh, Good, Calm, Step, Meaning;
    if es != [] {
      StepKeepsSteady(a, s, m, es[0]);
      CalmRunHolds(a, Step(a, s, es[0]).value, Meaning(s, m, es[0]), es[1..]);
    }
  }

  // ---------- rotation while stores go on ----------

  /** Every write in flight is under the current version. */
  ghost predicate WritesCurrent(s: System) {
    forall i :: 0 <= i < |s.tasks| && s.tasks[i].Ready? ==> s.tasks[i].version == s.vault.currentVersion
  }

  /** The names whose entries a run writes or deletes. */
  function Touched(a: Aead, s: System, es: seq<Event>): set<string>
    requires Run(a, s, es).Some?
    decreases |es|
  {
    if es == [] then {}
    else
      (if Lands(es[0]) then {s.tasks[es[0].id].name} else if es[0].DeleteName? then {es[0].name} else {})
      + Touched(a, Step(a, s, es[0]).value, es[1..])
  }

  ghost predicate CurrentBut(a: Aead, s: System, stale: set<string>) {
    && WritesCurrent(s)
    && (forall i :: 0 <= i < |s.tasks| && s.tasks[i].Ready? ==>
          HeaderVersion(s.tasks[i].data) == Some(s.tasks[i].version))
    && forall n :: n in s.vault.credentials ==> n in stale || KeyVersion(a, s.vault, n) == Ok(s.vault.currentVersion)
  }

  lemma StepKeepsCurrent(a: Aead, s: System, e: Event, stale: set<string>)
    requires a.Correct() && KR.Sound(s.vault) && CurrentBut(a, s, stale) && !e.Switch? && Step(a, s, e).Some?
    requires e.AddKey? ==> KR.InRange(e.version)
    ensures var t := Step(a, s, e).value;
            && KR.Sound(t.vault) && t.vault.currentVersion == s.vault.currentVersion
            && CurrentBut(a, t, stale - Touched(a, s, [e]))
  {
    hide Aead.Correct, InnerRetrieve, InnerStore, HeaderVersion, OpenData, Prepare, PrependVersion;
    var t := Step(a, s, e).value;
    match e
    case Write(id, env) =>
      var r := s.tasks[id];
      if Lands(e) {
        forall n
          ensures InnerRetrieve(a, t.vault, n) == if n == r.name then Ok(r.data) else InnerRetrieve(a, s.vault, n)
        {
          WriteIsRead(a, s.vault, r.name, r.data, env, n);
        }
        WriteIsRead(a, s.vault, r.name, r.data, env, r.name);
        HeaderIsKeyVersion(a, t.vault, r.name, r.data);
        forall n | n != r.name ensures KeyVersion(a, t.vault, n) == KeyVersion(a, s.vault, n) {
        }
      } else {
        NoNonceNoWrite(a, s.vault, r.name, r.data, env);
      }
    case DeleteName(name, env) =>
      forall n | n != name ensures KeyVersion(a, t.vault, n) == KeyVersion(a, s.vault, n) {
        DeleteKeepsEntry(a, s.vault, name, env, n);
      }
    case BeginStore(name, value, nonce) => PreparedHeader(a, s.vault, name, value, nonce, true);
    case Encrypt(id, nonce) => PreparedHeader(a, s.vault, s.tasks[id].name, s.tasks[id].value, nonce, false);
    case AddKey(version, key) =>
      forall n ensures KeyVersion(a, t.vault, n) == KeyVersion(a, s.vault, n) {
        KeysKeepEntry(a, s.vault, t.vault, n);
      }
    case RemoveKey(version) =>
      forall n ensures KeyVersion(a, t.vault, n) == KeyVersion(a, s.vault, n) {
        KeysKeepEntry(a, s.vault, t.vault, n);
      }
    case _ =>
  }

  lemma HeaderIsKeyVersion(a: Aead, v: Vault, name: string, data: bytes)
    requires InnerRetrieve(a, v, name) == Ok(data) && HeaderVersion(data).Some?
    ensures KeyVersion(a, v, name) == Ok(HeaderVersion(data).value)
  {
  }

  lemma DeleteKeepsEntry(a: Aead, v: Vault, name: string, env: Env, n: string)
    requires n != name
    ensures KeyVersion(a, Delete(v, name, env).0, n) == KeyVersion(a, v, n)
  {
  }

  lemma KeysKeepEntry(a: Aead, v: Vault, w: Vault, n: string)
    requires w.credentials == v.credentials && w.innerKey == v.innerKey
    ensures KeyVersion(a, w, n) == KeyVersion(a, v, n)
  {
  }

  lemma PreparedHeader(a: Aead, v: Vault, name: string, value: bytes, nonce: Option<bytes>, direct: bool)
    requires KR.Sound(v)
    ensures var t := Prepared(a, v, name, value, nonce, direct);
            t.Ready? ==> t.version == v.currentVersion && HeaderVersion(t.data) == Some(v.currentVersion)
  {
    if nonce.Some? {
      HeaderRoundTrip(v.currentVersion, a.seal(value, v.keys[v.currentVersion], nonce.value));
    }
  }

  ghost predicate NoSwitch(es: seq<Event>) {
    forall i :: 0 <= i < |es| ==> !es[i].Switch? && (es[i].AddKey? ==> KR.InRange(es[i].version))
  }

  lemma {:induction false} RunKeepsCurrent(a: Aead, s: System, es: seq<Event>, stale: set<string>)
    requires a.Correct() && KR.Sound(s.vault) && CurrentBut(a, s, stale) && NoSwitch(es) && Run(a, s, es).Some?
    ensures var t := Run(a, s, es).value;
            && t.vault.currentVersion == s.vault.currentVersion && CurrentBut(a, t, stale - Touched(a, s, es))
    decreases |es|
  {
    hide Aead.Correct, KR.Sound, CurrentBut, Step, Lands;
    if es == [] {
      assert stale - {} == stale;
    } else {
      assert !es[0].Switch? && (es[0].AddKey? ==> KR.InRange(es[0].version));
      assert forall i :: 0 <= i < |es[1..]| ==> es[1..][i] == es[i + 1];
      StepKeepsCurrent(a, s, es[0], stale);
      TouchedSplit(a, s, es);
      var rest := stale - Touched(a, s, [es[0]]);
      RunKeepsCurrent(a, Step(a, s, es[0]).value, es[1..], rest);
      assert rest - Touched(a, Step(a, s, es[0]).value, es[1..]) == stale - Touched(a, s, es);
    }
  }

  lemma TouchedSplit(a: Aead, s: System, es: seq<Event>)
    requires es != [] && Run(a, s, es).Some?
    ensures Run(a, s, [es[0]]).Some?
    ensures Touched(a, s, es) == Touched(a, s, [es[0]]) + Touched(a, Step(a, s, es[0]).value, es[1..])
  {
    var t := Step(a, s, es[0]).value;
    assert [es[0]][0] == es[0] && [es[0]][1..] == [];
    assert Run(a, t, []) == Some(t) && Touched(a, t, []) == {};
  }

  /** If no store began under another version is still to write when the names are listed, and every listed
      name is written or deleted while the current version stays, then, whatever stores go on meanwhile, any
      other version can be removed. */
  lemma RotationFreesOthers(a: Aead, s: System, m: map<string, bytes>, es: seq<Event>, version: int)
    requires a.Correct() && Steady(a, s, m) && WritesCurrent(s)
    requires NoSwitch(es) && Run(a, s, es).Some? && AllCalm(a, s, es)
    requires s.vault.credentials.Keys <= Touched(a, s, es) && version != s.vault.currentVersion
    ensures var t := Run(a, s, es).value;
            && Calm(a, t, RemoveKey(version))
            && Steady(a, Step(a, t, RemoveKey(version)).value, RunMeaning(a, s, m, es))
  {
    hide Aead.Correct, KR.Sound, KR.Holds, AllCalm, Touched, HeaderVersion, KeyVersion;
    forall i | 0 <= i < |s.tasks| && s.tasks[i].Ready?
      ensures HeaderVersion(s.tasks[i].data) == Some(s.tasks[i].version)
    {
      assert Fresh(a, s.vault, m, s.tasks[i]);
    }
    var names := s.vault.credentials.Keys;
    RunKeepsCurrent(a, s, es, names);
    assert names - Touched(a, s, es) == {};
    CalmRunHolds(a, s, m, es);
    hide Steady, Fresh;
    StepKeepsSteady(a, Run(a, s, es).value, RunMeaning(a, s, m, es), RemoveKey(version));
  }

  // ---------- the discipline is needed ----------

  /** A run read off from the states it passes through. */
  lemma {:induction false} Follow(a: Aead, es: seq<Event>, states: seq<System>, ms: seq<map<string, bytes>>)
    requires |states| == |ms| == |es| + 1
    requires forall i :: 0 <= i < |es| ==> Step(a, states[i], es[i]) == Some(states[i + 1])
    requires forall i :: 0 <= i < |es| ==> Meaning(states[i], ms[i], es[i]) == ms[i + 1]
    ensures Run(a, states[0], es) == Some(states[|es|]) && RunMeaning(a, states[0], ms[0], es) == ms[|es|]
    decreases |es|
  {
    hide Step, Meaning;
    if es != [] {
      assert states[1..][|es| - 1] == states[|es|] && ms[1..][|es| - 1] == ms[|es|];
      forall i | 0 <= i < |es[1..]|
        ensures Step(a, states[1..][i], es[1..][i]) == Some(states[1..][i + 1])
        ensures Meaning(states[1..][i], ms[1..][i], es[1..][i]) == ms[1..][i + 1]
      {
        assert states[1..][i] == states[i + 1] && states[1..][i + 1] == states[i + 2];
        assert ms[1..][i] == ms[i + 1] && ms[1..][i + 1] == ms[i + 2] && es[1..][i] == es[i + 1];
      }
      Follow(a, es[1..], states[1..], ms[1..]);
    }
  }

  lemma ReadThenPlain(a: Aead, v: Vault, m: map<string, bytes>, name: string)
    requires KR.Holds(a, v, m) && name in m
    ensures InnerRetrieve(a, v, name).Ok? && OpenData(a, v, InnerRetrieve(a, v, name).value) == Ok(m[name])
  {
    assert Retrieve(a, v, name) == Ok(m[name]);
  }

  lemma PrepareOpens(a: Aead, v: Vault, value: bytes, nonce: bytes)
    requires a.Correct() && KR.Sound(v)
    ensures Prepare(a, v, value, Some(nonce)).Ok?
    ensures OpenData(a, v, Prepare(a, v, value, Some(nonce)).value) == Ok(value)
    ensures HeaderVersion(Prepare(a, v, value, Some(nonce)).value) == Some(v.currentVersion)
  {
    PreparedIsFresh(a, v, map[], "", value, Some(nonce), true);
  }

  lemma SameKeysOpen(a: Aead, v: Vault, w: Vault, data: bytes)
    requires v.keys == w.keys
    ensures OpenData(a, v, data) == OpenData(a, w, data)
  {
  }

  /** A re-encryption reads the entry, a store begins and writes, and then the re-encryption writes. */
  function LostUpdate(name: string, value: bytes, nonce: bytes, env: Env): seq<Event> {
    [BeginReEncrypt(name), BeginStore(name, value, Some(nonce)), Decrypt(0), Encrypt(0, Some(nonce)),
     Write(1, env), Write(0, env)]
  }

  /** The re-encryption writes the old value back over a store that came in between and returned without
      error: what was stored is lost. */
  lemma StoreIsLost(a: Aead, v: Vault, m: map<string, bytes>, name: string, value: bytes, nonce: bytes, env: Env)
    requires a.Correct() && KR.Sound(v) && KR.Holds(a, v, m) && name in m && m[name] != value && env.innerNonce.Some?
    ensures var s, es := System(v, []), LostUpdate(name, value, nonce, env);
            && Run(a, s, es).Some? && RunMeaning(a, s, m, es) == m[name := value]
            && Retrieve(a, Run(a, s, es).value.vault, name) == Ok(m[name])
  {
    hide Aead.Correct, KR.Holds, Retrieve, InnerRetrieve, InnerStore, OpenData, Prepare, Run, RunMeaning;
    var es := LostUpdate(name, value, nonce, env);
    ReadThenPlain(a, v, m, name);
    PrepareOpens(a, v, value, nonce);
    PrepareOpens(a, v, m[name], nonce);
    var read := Read(name, InnerRetrieve(a, v, name).value);
    var store := Ready(name, value, v.currentVersion, Prepare(a, v, value, Some(nonce)).value, true);
    var back := Ready(name, m[name], v.currentVersion, Prepare(a, v, m[name], Some(nonce)).value, false);
    var w := InnerStore(a, v, name, store.data, env).0;
    var x := InnerStore(a, w, name, back.data, env).0;
    WriteIsRead(a, v, name, store.data, env, name);
    WriteIsRead(a, w, name, back.data, env, name);
    SameKeysOpen(a, v, w, back.data);
    var states := [System(v, []), System(v, [read]), System(v, [read, store]), System(v, [Plain(name, m[name]), store]),
                   System(v, [back, store]), System(w, [back, Ended]), System(x, [Ended, Ended])];
    var m' := m[name := value];
    var ms := [m, m, m, m, m, m', m'];
    TwoBegin(a, v, name, value, nonce, read, store);
    TwoEncrypt(a, v, name, m[name], nonce, read, store, back);
    TwoWrite(a, v, env, store, back);
    hide Step;
    Follow(a, es, states, ms);
  }

  lemma TwoBegin(a: Aead, v: Vault, name: string, value: bytes, nonce: bytes, read: Task, store: Task)
    requires InnerRetrieve(a, v, name).Ok? && read == Read(name, InnerRetrieve(a, v, name).value)
    requires store == Prepared(a, v, name, value, Some(nonce), true)
    ensures Step(a, System(v, []), BeginReEncrypt(name)) == Some(System(v, [read]))
    ensures Step(a, System(v, [read]), BeginStore(name, value, Some(nonce))) == Some(System(v, [read, store]))
  {
    hide InnerRetrieve, Prepare;
    assert [] + [read] == [read] && [read] + [store] == [read, store];
  }

  lemma TwoEncrypt(a: Aead, v: Vault, name: string, before: bytes, nonce: bytes, read: Task, store: Task, back: Task)
    requires read.Read? && read.name == name && OpenData(a, v, read.data) == Ok(before)
    requires back == Prepared(a, v, name, before, Some(nonce), false)
    ensures Step(a, System(v, [read, store]), Decrypt(0)) == Some(System(v, [Plain(name, before), store]))
    ensures Step(a, System(v, [Plain(name, before), store]), Encrypt(0, Some(nonce))) == Some(System(v, [back, store]))
  {
    hide OpenData, Prepare;
    assert [read, store][0 := Plain(name, before)] == [Plain(name, before), store];
    assert [Plain(name, before), store][0 := back] == [back, store];
  }

  lemma TwoWrite(a: Aead, v: Vault, env: Env, store: Task, back: Task)
    requires store.Ready? && back.Ready?
    ensures var w := InnerStore(a, v, store.name, store.data, env).0;
            && Step(a, System(v, [back, store]), Write(1, env)) == Some(System(w, [back, Ended]))
            && Step(a, System(w, [back, Ended]), Write(0, env))
               == Some(System(InnerStore(a, w, back.name, back.data, env).0, [Ended, Ended]))
  {
    hide InnerStore;
    assert [back, store][1 := Ended] == [back, Ended] && [back, Ended][0 := Ended] == [Ended, Ended];
  }

  /** A store begins, the version it read is rotated away and removed, and then it writes. */
  function Stranding(name: string, value: bytes, nonce: bytes, version: int, newVersion: int, key: bytes, env: Env)
    : seq<Event>
  {
    [BeginStore(name, value, Some(nonce)), AddKey(newVersion, key), Switch(newVersion), RemoveKey(version),
     Write(0, env)]
  }

  /** No entry is under the version when it is removed, and the rotation returns no error; yet what was stored
      cannot be read. */
  lemma StoreIsStranded(a: Aead, v: Vault, m: map<string, bytes>, name: string, value: bytes, nonce: bytes,
                        newVersion: int, key: bytes, env: Env)
    requires a.Correct() && KR.Sound(v) && KR.Holds(a, v, m) && env.innerNonce.Some?
    requires newVersion !in v.keys && KR.InRange(newVersion) && |key| == 32
    requires forall n :: n in v.credentials ==> KeyVersion(a, v, n) != Ok(v.currentVersion)
    ensures var s, es := System(v, []), Stranding(name, value, nonce, v.currentVersion, newVersion, key, env);
            && Run(a, s, es).Some? && RunMeaning(a, s, m, es) == m[name := value]
            && Retrieve(a, Run(a, s, es).value.vault, name) == Err(KeyVersionMissing)
    ensures var (added, err) := AddKeyVersion(v, newVersion, key);
            var (switched, err') := SetCurrentVersion(added, newVersion);
            err.None? && err'.None? && RemoveKeyVersion(switched, v.currentVersion).1.None?
  {
    hide Aead.Correct, KR.Holds, Retrieve, InnerRetrieve, InnerStore, OpenData, Prepare, Run, RunMeaning;
    var version := v.currentVersion;
    var es := Stranding(name, value, nonce, version, newVersion, key, env);
    PrepareOpens(a, v, value, nonce);
    var store := Ready(name, value, version, Prepare(a, v, value, Some(nonce)).value, true);
    var v1 := AddKeyVersion(v, newVersion, key).0;
    var v2 := SetCurrentVersion(v1, newVersion).0;
    var v3 := RemoveKeyVersion(v2, version).0;
    var v4 := InnerStore(a, v3, name, store.data, env).0;
    assert version !in v3.keys && v3.innerKey == v.innerKey;
    WriteIsRead(a, v3, name, store.data, env, name);
    MissingVersion(a, v3, store.data, version);
    var states := [System(v, []), System(v, [store]), System(v1, [store]), System(v2, [store]), System(v3, [store]),
                   System(v4, [Ended])];
    var m' := m[name := value];
    var ms := [m, m, m, m, m, m'];
    assert [] + [store] == [store] && [store][0 := Ended] == [Ended];
    assert Step(a, states[0], es[0]) == Some(states[1]);
    assert Step(a, states[4], es[4]) == Some(states[5]);
    Follow(a, es, states, ms);
  }

  lemma MissingVersion(a: Aead, v: Vault, data: bytes, version: int)
    requires HeaderVersion(data) == Some(version) && version !in v.keys
    ensures OpenData(a, v, data) == Err(KeyVersionMissing)
  {
  }
}
