/** Key rotation over the versioned vault loses no plaintext
    (internal/infrastructure/crypto/versioned_vault.go). */
module KeyRotation {
  import opened Text
  import opened VersionedVault

  ghost predicate InRange(version: int) {
    0 <= version < UINT32
  }

  /** Versions fit the header, keys fit the cipher, and the current version is always held. */
  ghost predicate Sound(s: Vault) {
    && |s.innerKey| == 32
    && s.currentVersion in s.keys
    && forall v :: v in s.keys ==> InRange(v) && |s.keys[v]| == 32
  }

  datatype Op =
    | AddKey(version: int, key: bytes)
    | SetCurrent(version: int)
    | RemoveKey(version: int)
    | ReEncryptOne(name: string, env: Env)
    | ReEncryptList(names: seq<string>, envs: nat -> Env)
    | StoreSecret(name: string, value: bytes, env: Env)
    | DeleteSecret(name: string, env: Env)

  function Apply(a: Aead, s: Vault, op: Op): (Vault, Option<Error>) {
    match op
    case AddKey(version, key) => AddKeyVersion(s, version, key)
    case SetCurrent(version) => SetCurrentVersion(s, version)
    case RemoveKey(version) => RemoveKeyVersion(s, version)
    case ReEncryptOne(name, env) => ReEncrypt(a, s, name, env)
    case ReEncryptList(names, envs) => ReEncryptNames(a, s, names, envs, 0)
    case StoreSecret(name, value, env) => Store(a, s, name, value, env)
    case DeleteSecret(name, env) => Delete(s, name, env)
  }

  // ---------- one operation ----------

  /** A store that got as far as the map can be read back, under the current version, even if writing
      the file failed; every other name is untouched. */
  lemma StoreReadsBack(a: Aead, s: Vault, name: string, value: bytes, env: Env)
    requires a.Correct() && Sound(s)
    ensures var (s', err) := Store(a, s, name, value, env);
            && Sound(s') && s'.keys == s.keys && s'.currentVersion == s.currentVersion
            && (if err.None? || err == Some(SaveFailed)
                then && Retrieve(a, s', name) == Ok(value) && KeyVersion(a, s', name) == Ok(s.currentVersion)
                     && s'.credentials.Keys == s.credentials.Keys + {name}
                else s' == s)
            && (err.None? ==> s'.disk == File(s'.credentials, s'.innerKey))
            && forall n :: n != name ==>
                 Retrieve(a, s', n) == Retrieve(a, s, n) && KeyVersion(a, s', n) == KeyVersion(a, s, n)
  {
    if env.nonce.Some? && env.innerNonce.Some? {
      var k := s.keys[s.currentVersion];
      var sealed := a.seal(value, k, env.nonce.value);
      var data := PrependVersion(s.currentVersion, sealed);
      HeaderRoundTrip(s.currentVersion, sealed);
      assert a.unseal(a.seal(data, s.innerKey, env.innerNonce.value), s.innerKey) == Some(data);
      assert a.unseal(sealed, k) == Some(value);
    }
  }

  /** For every current version, in the uint32 range or not: what was stored is read with the key of the
      version modulo 2^32. So it reads back exactly if that version is held with the same key. */
  lemma StoredReadsBackIff(a: Aead, s: Vault, name: string, value: bytes, env: Env)
    requires a.Correct() && |s.innerKey| == 32 && s.currentVersion in s.keys && |s.keys[s.currentVersion]| == 32
    requires env.nonce.Some? && env.innerNonce.Some?
    ensures var (v, held, r) := (s.currentVersion % UINT32, s.keys, Retrieve(a, Store(a, s, name, value, env).0, name));
            && (v !in held ==> r == Err(KeyVersionMissing))
            && (v in held && held[v] == held[s.currentVersion] ==> r == Ok(value))
            && (v in held && held[v] != held[s.currentVersion] && a.Authentic() ==> r == Err(Decryption))
  {
    var v, k := s.currentVersion % UINT32, s.keys[s.currentVersion];
    var sealed := a.seal(value, k, env.nonce.value);
    var data := PrependVersion(s.currentVersion, sealed);
    HeaderRoundTrip(s.currentVersion, sealed);
    assert a.unseal(a.seal(data, s.innerKey, env.innerNonce.value), s.innerKey) == Some(data);
    assert a.unseal(sealed, k) == Some(value);
    if v in s.keys && s.keys[v] != k && a.Authentic() {
      assert a.unseal(sealed, s.keys[v]) == None;
    }
  }

  /** Re-encrypting changes no plaintext, whether it succeeds or fails. */
  lemma ReEncryptKeeps(a: Aead, s: Vault, name: string, env: Env)
    requires a.Correct() && Sound(s)
    ensures var (s', err) := ReEncrypt(a, s, name, env);
            && Sound(s') && s'.keys == s.keys && s'.currentVersion == s.currentVersion
            && s'.credentials.Keys == s.credentials.Keys
            && (forall n :: Retrieve(a, s', n) == Retrieve(a, s, n))
            && (forall n :: n != name ==> KeyVersion(a, s', n) == KeyVersion(a, s, n))
            && (err.None? ==> KeyVersion(a, s', name) == Ok(s.currentVersion))
            && (err.Some? ==>
                  KeyVersion(a, s', name) == KeyVersion(a, s, name) || KeyVersion(a, s', name) == Ok(s.currentVersion))
  {
    var r := Retrieve(a, s, name);
    if r.Ok? {
      StoreReadsBack(a, s, name, r.value, env);
      assert name in s.credentials;
    }
  }

  /** A full or partial re-encryption changes no plaintext; a successful one leaves every listed name
      under the current version. */
  lemma {:induction false} ReEncryptNamesKeeps(a: Aead, s: Vault, names: seq<string>, env: nat -> Env, i: nat)
    requires a.Correct() && Sound(s) && i <= |names|
    ensures var (s', err) := ReEncryptNames(a, s, names, env, i);
            && Sound(s') && s'.keys == s.keys && s'.currentVersion == s.currentVersion
            && s'.credentials.Keys == s.credentials.Keys
            && (forall n :: Retrieve(a, s', n) == Retrieve(a, s, n))
            && (forall n :: KeyVersion(a, s, n) == Ok(s.currentVersion) ==>
                KeyVersion(a, s', n) == Ok(s.currentVersion))
            && (err.None? ==> forall j :: i <= j < |names| ==> KeyVersion(a, s', names[j]) == Ok(s.currentVersion))
    decreases |names| - i
  {
    hide Aead.Correct, Sound, Retrieve, KeyVersion, ReEncrypt;
    if i < |names| {
      ReEncryptKeeps(a, s, names[i], env(i));
      var (s1, err) := ReEncrypt(a, s, names[i], env(i));
      if err.None? {
        ReEncryptNamesKeeps(a, s1, names, env, i + 1);
      }
    }
  }

  /** Removing a version makes unreadable exactly the credentials that were under it. */
  lemma RemoveReach(a: Aead, s: Vault, version: int, n: string)
    requires RemoveKeyVersion(s, version).1.None? && Retrieve(a, s, n).Ok?
    ensures Retrieve(a, RemoveKeyVersion(s, version).0, n)
         == if KeyVersion(a, s, n) == Ok(version) then Err(KeyVersionMissing) else Retrieve(a, s, n)
  {
  }

  // ---------- whole runs refine a map of plaintexts ----------

  /** The vault stands for the map `m`. */
  ghost predicate Holds(a: Aead, s: Vault, m: map<string, bytes>) {
    s.credentials.Keys == m.Keys && forall n :: n in m ==> Retrieve(a, s, n) == Ok(m[n])
  }

  /** What the operation means for the plaintexts. */
  function Meaning(m: map<string, bytes>, op: Op, err: Option<Error>): map<string, bytes> {
    var reached := err.None? || err == Some(SaveFailed);
    match op
    case StoreSecret(name, value, _) => if reached then m[name := value] else m
    case DeleteSecret(name, _) => if reached then m - {name} else m
    case _ => m
  }

  /** Added versions fit the header, and only versions no credential is under are removed. */
  ghost predicate Careful(a: Aead, s: Vault, op: Op) {
    match op
    case AddKey(version, _) => InRange(version)
    case RemoveKey(version) => forall n :: n in s.credentials ==> KeyVersion(a, s, n) != Ok(version)
    case _ => true
  }

  lemma AddKeyKeeps(a: Aead, s: Vault, version: int, key: bytes, n: string)
    requires Retrieve(a, s, n).Ok?
    ensures Retrieve(a, AddKeyVersion(s, version, key).0, n) == Retrieve(a, s, n)
  {
  }

  lemma SetCurrentKeeps(a: Aead, s: Vault, version: int, n: string)
    ensures Retrieve(a, SetCurrentVersion(s, version).0, n) == Retrieve(a, s, n)
  {
  }

  lemma DeleteKeepsOthers(a: Aead, s: Vault, name: string, env: Env, n: string)
    requires n != name
    ensures Retrieve(a, Delete(s, name, env).0, n) == Retrieve(a, s, n)
  {
  }

  lemma StepRefines(a: Aead, s: Vault, m: map<string, bytes>, op: Op)
    requires a.Correct() && Sound(s) && Holds(a, s, m) && Careful(a, s, op)
    ensures var (s', err) := Apply(a, s, op); Sound(s') && Holds(a, s', Meaning(m, op, err))
  {
    hide Aead.Correct, Retrieve, KeyVersion, Store, ReEncrypt, ReEncryptNames, InRange;
    var (s', err) := Apply(a, s, op);
    match op
    case AddKey(version, key) =>
      forall n | n in m ensures Retrieve(a, s', n) == Ok(m[n]) {
        AddKeyKeeps(a, s, version, key, n);
      }
    case SetCurrent(version) =>
      forall n | n in m ensures Retrieve(a, s', n) == Ok(m[n]) {
        SetCurrentKeeps(a, s, version, n);
      }
    case RemoveKey(version) =>
      if err.None? {
        forall n | n in m ensures Retrieve(a, s', n) == Ok(m[n]) {
          RemoveReach(a, s, version, n);
        }
      }
    case ReEncryptOne(name, env) => ReEncryptKeeps(a, s, name, env);
    case ReEncryptList(names, envs) => ReEncryptNamesKeeps(a, s, names, envs, 0);
    case StoreSecret(name, value, env) => StoreReadsBack(a, s, name, value, env);
    case DeleteSecret(name, env) =>
      forall n | n in m && n != name ensures Retrieve(a, s', n) == Ok(m[n]) {
        DeleteKeepsOthers(a, s, name, env, n);
      }
  }

  ghost predicate CarefulRun(a: Aead, s: Vault, ops: seq<Op>)
    decreases |ops|
  {
    ops != [] ==> Careful(a, s, ops[0]) && CarefulRun(a, Apply(a, s, ops[0]).0, ops[1..])
  }

  function Run(a: Aead, s: Vault, ops: seq<Op>): Vault
    decreases |ops|
  {
    if ops == [] then s else Run(a, Apply(a, s, ops[0]).0, ops[1..])
  }

  function RunMeaning(a: Aead, s: Vault, m: map<string, bytes>, ops: seq<Op>): map<string, bytes>
    decreases |ops|
  {
    if ops == [] then m
    else var (s', err) := Apply(a, s, ops[0]); RunMeaning(a, s', Meaning(m, ops[0], err), ops[1..])
  }

  /** Over any run of operations, with errors anywhere, the vault stands for the plain map of what was
      stored and not deleted: adding, switching, re-encrypting and careful removal lose nothing. */
  lemma {:induction false} RotationLosesNothing(a: Aead, s: Vault, m: map<string, bytes>, ops: seq<Op>)
    requires a.Correct() && Sound(s) && Holds(a, s, m) && CarefulRun(a, s, ops)
    ensures Sound(Run(a, s, ops)) && Holds(a, Run(a, s, ops), RunMeaning(a, s, m, ops))
    decreases |ops|
  {
    if ops != [] {
      StepRefines(a, s, m, ops[0]);
      var (s', err) := Apply(a, s, ops[0]);
      RotationLosesNothing(a, s', Meaning(m, ops[0], err), ops[1..]);
    }
  }

  /** Adding and switching keys never reaches the file: after any run the whole map is still written, and
      every entry still wrapped, under the key the vault was opened with. */
  lemma {:induction false} FileKeyNeverRotates(a: Aead, s: Vault, ops: seq<Op>)
    requires s.disk.File? ==> s.disk.key == s.innerKey
    ensures var t := Run(a, s, ops); t.innerKey == s.innerKey && (t.disk.File? ==> t.disk.key == s.innerKey)
    decreases |ops|
  {
    if ops != [] {
      StepKeepsFileKey(a, s, ops[0]);
      FileKeyNeverRotates(a, Apply(a, s, ops[0]).0, ops[1..]);
    }
  }

  lemma StepKeepsFileKey(a: Aead, s: Vault, op: Op)
    requires s.disk.File? ==> s.disk.key == s.innerKey
    ensures var t := Apply(a, s, op).0; t.innerKey == s.innerKey && (t.disk.File? ==> t.disk.key == s.innerKey)
  {
    if op.ReEncryptList? {
      NamesKeepFileKey(a, s, op.names, op.envs, 0);
    }
  }

  lemma {:induction false} NamesKeepFileKey(a: Aead, s: Vault, names: seq<string>, envs: nat -> Env, i: nat)
    requires i <= |names| && (s.disk.File? ==> s.disk.key == s.innerKey)
    ensures var t := ReEncryptNames(a, s, names, envs, i).0;
            t.innerKey == s.innerKey && (t.disk.File? ==> t.disk.key == s.innerKey)
    decreases |names| - i
  {
    if i < |names| && ReEncrypt(a, s, names[i], envs(i)).1.None? {
      NamesKeepFileKey(a, ReEncrypt(a, s, names[i], envs(i)).0, names, envs, i + 1);
    }
  }

  /** After a successful full re-encryption any version but the current one can be removed. */
  lemma FullReEncryptFreesOthers(a: Aead, s: Vault, m: map<string, bytes>, names: seq<string>, env: nat -> Env,
      version: int)
    requires a.Correct() && Sound(s) && Holds(a, s, m) && Enumerates(names, s.credentials.Keys)
    requires version != s.currentVersion && ReEncryptNames(a, s, names, env, 0).1.None?
    ensures var s' := ReEncryptNames(a, s, names, env, 0).0;
            && Careful(a, s', RemoveKey(version)) && RemoveKeyVersion(s', version).1.None?
            && Holds(a, RemoveKeyVersion(s', version).0, m)
            && forall n :: n in m ==> KeyVersion(a, s', n) == Ok(s.currentVersion)
  {
    ReEncryptNamesKeeps(a, s, names, env, 0);
    var s' := ReEncryptNames(a, s, names, env, 0).0;
    forall n | n in s'.credentials ensures KeyVersion(a, s', n) == Ok(s.currentVersion) {
      assert n in names;
    }
    hide ReEncryptNames, Retrieve, KeyVersion;
    StepRefines(a, s', m, RemoveKey(version));
  }

  /** The rotation itself: add a key, make it current, re-encrypt all names. Whether or not that
      succeeds all plaintexts are kept; if it does, any other version can then be removed. */
  lemma RotateThenRemove(a: Aead, s: Vault, m: map<string, bytes>, version: int, key: bytes,
                         names: seq<string>, env: nat -> Env, oldVersion: int)
    requires a.Correct() && Sound(s) && Holds(a, s, m)
    requires InRange(version) && version !in s.keys && |key| == 32 && oldVersion != version
    requires Enumerates(names, s.credentials.Keys)
    ensures var s2 := SetCurrentVersion(AddKeyVersion(s, version, key).0, version).0;
            var (s3, err) := ReEncryptNames(a, s2, names, env, 0);
            && Holds(a, s3, m)
            && (err.None? ==>
                  && Holds(a, RemoveKeyVersion(s3, oldVersion).0, m)
                  && RemoveKeyVersion(s3, oldVersion).1.None?
                  && forall n :: n in m ==> KeyVersion(a, s3, n) == Ok(version))
  {
    hide Retrieve, KeyVersion, ReEncryptNames, Holds, Sound;
    StepRefines(a, s, m, AddKey(version, key));
    var s1 := AddKeyVersion(s, version, key).0;
    StepRefines(a, s1, m, SetCurrent(version));
    var s2 := SetCurrentVersion(s1, version).0;
    StepRefines(a, s2, m, ReEncryptList(names, env));
    if ReEncryptNames(a, s2, names, env, 0).1.None? {
      FullReEncryptFreesOthers(a, s2, m, names, env, oldVersion);
    }
  }

  // ---------- saving and opening again ----------

  /** The file holds the credentials as they are. */
  ghost predicate Saved(s: Vault) {
    s.disk == File(s.credentials, s.innerKey)
  }

  predicate Writes(op: Op) {
    op.StoreSecret? || op.DeleteSecret? || op.ReEncryptOne? || (op.ReEncryptList? && op.names != [])
  }

  lemma {:induction false} NamesKeepSaved(a: Aead, s: Vault, names: seq<string>, envs: nat -> Env, i: nat)
    requires i <= |names|
    ensures var (t, err) := ReEncryptNames(a, s, names, envs, i);
            && (Saved(s) && err != Some(SaveFailed) ==> Saved(t))
            && (i < |names| && err.None? ==> Saved(t))
    decreases |names| - i
  {
    if i < |names| && ReEncrypt(a, s, names[i], envs(i)).1.None? {
      NamesKeepSaved(a, ReEncrypt(a, s, names[i], envs(i)).0, names, envs, i + 1);
    }
  }

  /** Only a failed save leaves the file behind; any successful write catches up. */
  lemma StepKeepsSaved(a: Aead, s: Vault, op: Op)
    ensures var (t, err) := Apply(a, s, op);
            && (Saved(s) && err != Some(SaveFailed) ==> Saved(t))
            && (Writes(op) && err.None? ==> Saved(t))
  {
    if op.ReEncryptList? {
      NamesKeepSaved(a, s, op.names, op.envs, 0);
    }
  }

  predicate SavedAfter(saved: bool, op: Op, err: Option<Error>) {
    err != Some(SaveFailed) && (saved || (Writes(op) && err.None?))
  }

  /** Whether the file is up to date after a run: the last save did not fail. */
  function UpToDate(a: Aead, s: Vault, saved: bool, ops: seq<Op>): bool
    decreases |ops|
  {
    if ops == [] then saved
    else
      var (t, err) := Apply(a, s, ops[0]);
      UpToDate(a, t, SavedAfter(saved, ops[0], err), ops[1..])
  }

  lemma {:induction false} UpToDateIsSaved(a: Aead, s: Vault, saved: bool, ops: seq<Op>)
    requires (saved ==> Saved(s)) && UpToDate(a, s, saved, ops)
    ensures Saved(Run(a, s, ops))
    decreases |ops|
  {
    if ops != [] {
      StepKeepsSaved(a, s, ops[0]);
      var (t, err) := Apply(a, s, ops[0]);
      UpToDateIsSaved(a, t, SavedAfter(saved, ops[0], err), ops[1..]);
    }
  }

  /** Opening a file: its key becomes the only key, under the initial version. */
  function Opened(disk: Disk, initialVersion: int): Vault
    requires disk.File?
  {
    Vault(map[initialVersion := disk.key], initialVersion, disk.key, disk.credentials, disk)
  }

  function AddKeys(s: Vault, added: seq<(int, bytes)>): Vault
    decreases |added|
  {
    if added == [] then s else AddKeys(AddKeyVersion(s, added[0].0, added[0].1).0, added[1..])
  }

  lemma {:induction false} AddKeysHolds(s: Vault, added: seq<(int, bytes)>, held: map<int, bytes>)
    requires forall i :: 0 <= i < |added| ==> added[i].0 in held && held[added[i].0] == added[i].1 && |added[i].1| == 32
    requires forall v :: v in s.keys && v in held ==> s.keys[v] == held[v]
    ensures var t := AddKeys(s, added);
            && t == s.(keys := t.keys)
            && (forall v :: v in t.keys && v in held ==> t.keys[v] == held[v])
            && (forall v :: v in s.keys ==> v in t.keys)
            && (forall i :: 0 <= i < |added| ==> added[i].0 in t.keys)
    decreases |added|
  {
    if added != [] {
      assert forall i :: 0 <= i < |added[1..]| ==> added[1..][i] == added[i + 1];
      var s' := AddKeyVersion(s, added[0].0, added[0].1).0;
      AddKeysHolds(s', added[1..], held);
      assert added[0].0 in s'.keys;
      forall i | 0 <= i < |added| ensures added[i].0 in AddKeys(s, added).keys {
        if i > 0 {
          assert added[1..][i - 1] == added[i];
        }
      }
    }
  }

  /** A vault that holds the same credentials and at least the same keys reads the same. */
  lemma MoreKeysReadSame(a: Aead, s: Vault, t: Vault, n: string)
    requires t.credentials == s.credentials && t.innerKey == s.innerKey && Retrieve(a, s, n).Ok?
    requires forall v :: v in s.keys ==> v in t.keys && t.keys[v] == s.keys[v]
    ensures Retrieve(a, t, n) == Retrieve(a, s, n)
  {
  }

  /** Opening the saved file under its original key, and adding the key versions again, gives a vault that
      stands for the same map. */
  lemma ReopenedHolds(a: Aead, s: Vault, m: map<string, bytes>, initialVersion: int, added: seq<(int, bytes)>)
    requires Sound(s) && Holds(a, s, m) && Saved(s)
    requires initialVersion in s.keys ==> s.keys[initialVersion] == s.innerKey
    requires forall i :: 0 <= i < |added| ==> added[i].0 in s.keys && s.keys[added[i].0] == added[i].1
    requires forall v :: v in s.keys ==> v == initialVersion || exists i :: 0 <= i < |added| && added[i].0 == v
    ensures Holds(a, AddKeys(Opened(s.disk, initialVersion), added), m)
  {
    var t := AddKeys(Opened(s.disk, initialVersion), added);
    KeysAreBack(s, initialVersion, added);
    hide Retrieve, AddKeys, Opened, Sound, Saved;
    forall n | n in m ensures Retrieve(a, t, n) == Ok(m[n]) {
      MoreKeysReadSame(a, s, t, n);
    }
  }

  lemma KeysAreBack(s: Vault, initialVersion: int, added: seq<(int, bytes)>)
    requires Sound(s) && Saved(s)
    requires initialVersion in s.keys ==> s.keys[initialVersion] == s.innerKey
    requires forall i :: 0 <= i < |added| ==> added[i].0 in s.keys && s.keys[added[i].0] == added[i].1
    requires forall v :: v in s.keys ==> v == initialVersion || exists i :: 0 <= i < |added| && added[i].0 == v
    ensures var t := AddKeys(Opened(s.disk, initialVersion), added);
            && t.credentials == s.credentials && t.innerKey == s.innerKey
            && forall v :: v in s.keys ==> v in t.keys && t.keys[v] == s.keys[v]
  {
    AddKeysHolds(Opened(s.disk, initialVersion), added, s.keys);
    hide AddKeys;
    var t := AddKeys(Opened(s.disk, initialVersion), added);
    forall v | v in s.keys ensures v in t.keys {
      if v != initialVersion {
        var i :| 0 <= i < |added| && added[i].0 == v;
      }
    }
  }

  /** So over any run whose last save did not fail, the plain map survives closing and opening again. */
  lemma RunSurvivesReopening(a: Aead, s: Vault, m: map<string, bytes>, ops: seq<Op>, initialVersion: int,
      added: seq<(int, bytes)>)
    requires a.Correct() && Sound(s) && Holds(a, s, m) && CarefulRun(a, s, ops) && UpToDate(a, s, false, ops)
    requires var t := Run(a, s, ops);
             && (initialVersion in t.keys ==> t.keys[initialVersion] == t.innerKey)
             && (forall i :: 0 <= i < |added| ==> added[i].0 in t.keys && t.keys[added[i].0] == added[i].1)
             && (forall v :: v in t.keys ==> v == initialVersion || exists i :: 0 <= i < |added| && added[i].0 == v)
    ensures Saved(Run(a, s, ops))
    ensures Holds(a, AddKeys(Opened(Run(a, s, ops).disk, initialVersion), added), RunMeaning(a, s, m, ops))
  {
    hide Sound, Holds, AddKeys, CarefulRun, Aead.Correct;
    RotationLosesNothing(a, s, m, ops);
    UpToDateIsSaved(a, s, false, ops);
    ReopenedHolds(a, Run(a, s, ops), RunMeaning(a, s, m, ops), initialVersion, added);
  }
}
