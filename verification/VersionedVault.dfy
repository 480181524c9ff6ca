/** Credentials encrypted under versioned keys (internal/infrastructure/crypto/versioned_vault.go),
    kept in an encrypted file (internal/infrastructure/crypto/vault.go).

    AES-GCM (NIST SP 800-38D) is any pair of functions where decryption undoes encryption. */
module VersionedVault {
  import opened Text

  newtype byte = x: int | 0 <= x < 256
  type bytes = seq<byte>

  const UINT32: int := 0x1_0000_0000

  /** `seal(plaintext, key, nonce)` and `unseal(ciphertext, key)`. */
  datatype Aead = Aead(seal: (bytes, bytes, bytes) -> bytes, unseal: (bytes, bytes) -> Option<bytes>) {
    ghost predicate Correct() {
      forall p: bytes, k: bytes, n: bytes :: |k| == 32 ==> unseal(seal(p, k, n), k) == Some(p)
    }

    /** Nothing opens under another key. */
    ghost predicate Authentic() {
      forall p: bytes, k: bytes, n: bytes, other: bytes :: k != other ==> unseal(seal(p, k, n), other) == None
    }
  }

  // ---------- the version header ----------

  /** Four bytes, big-endian, of the version converted to uint32. */
  function PrependVersion(version: int, data: bytes): bytes {
    var v := version % UINT32;
    [(v / 0x100_0000) as byte, (v / 0x1_0000 % 256) as byte, (v / 256 % 256) as byte, (v % 256) as byte] + data
  }

  function ExtractVersion(data: bytes): Option<(int, bytes)> {
    if |data| < 4 then None
    else Some((((data[0] as int * 256 + data[1] as int) * 256 + data[2] as int) * 256 + data[3] as int, data[4..]))
  }

  /** The header keeps the version exactly if it is a uint32; otherwise it is truncated. */
  lemma HeaderRoundTrip(version: int, data: bytes)
    ensures ExtractVersion(PrependVersion(version, data)) == Some((version % UINT32, data))
    ensures ExtractVersion(PrependVersion(version, data)) == Some((version, data)) <==> 0 <= version < UINT32
  {
    FourDigits(version % UINT32);
    assert PrependVersion(version, data)[4..] == data;
  }

  /** The four base-256 digits of a uint32. */
  lemma FourDigits(v: int)
    requires 0 <= v < UINT32
    ensures ((v / 0x100_0000 * 256 + v / 0x1_0000 % 256) * 256 + v / 256 % 256) * 256 + v % 256 == v
  {
    var a, b := v / 256, v / 0x1_0000;
    assert a / 256 == b && b / 256 == v / 0x100_0000;
  }

  // ---------- the vaults as values ----------

  datatype Error =
    | NotFound | InnerDecryption | TooShort | KeyVersionMissing | Decryption
    | Randomness | SaveFailed | BadKey | VersionExists | VersionUnknown | VersionIsCurrent

  datatype Outcome<T> = Ok(value: T) | Err(error: Error)

  /** The vault file: the credentials map, encrypted as a whole under one key; or one that cannot be read,
      or holds something else. */
  datatype Disk = NoFile | Unreadable | File(credentials: map<string, bytes>, key: bytes)

  datatype Vault = Vault(
    keys: map<int, bytes>, currentVersion: int,
    innerKey: bytes, credentials: map<string, bytes>, disk: Disk)

  /** How writing the file goes: it is truncated before it is written, so a failure can break it. */
  datatype Saving = Written | Untouched | Broken

  /** What randomness and the file system do during one store. */
  datatype Env = Env(nonce: Option<bytes>, innerNonce: Option<bytes>, saving: Saving)

  function DiskAfter(disk: Disk, saving: Saving, credentials: map<string, bytes>, key: bytes): Disk {
    match saving case Written => File(credentials, key) case Untouched => disk case Broken => Unreadable
  }

  function InnerRetrieve(a: Aead, s: Vault, name: string): Outcome<bytes> {
    if name !in s.credentials then Err(NotFound)
    else match a.unseal(s.credentials[name], s.innerKey)
      case None => Err(InnerDecryption)
      case Some(d) => Ok(d)
  }

  function Save(s: Vault, env: Env): (Vault, Option<Error>) {
    (s.(disk := DiskAfter(s.disk, env.saving, s.credentials, s.innerKey)),
     if env.saving.Written? then None else Some(SaveFailed))
  }

  /** The map is updated before the file is written, so it stays updated when writing fails. */
  function InnerStore(a: Aead, s: Vault, name: string, data: bytes, env: Env): (Vault, Option<Error>) {
    if env.innerNonce.None? then (s, Some(Randomness))
    else Save(s.(credentials := s.credentials[name := a.seal(data, s.innerKey, env.innerNonce.value)]), env)
  }

  /** The first part of a store: the current version and its key are read under the lock, the value is
      encrypted and the header put in front. */
  function Prepare(a: Aead, s: Vault, value: bytes, nonce: Option<bytes>): Outcome<bytes> {
    if s.currentVersion !in s.keys then Err(KeyVersionMissing)
    else if nonce.None? then Err(Randomness)
    else Ok(PrependVersion(s.currentVersion, a.seal(value, s.keys[s.currentVersion], nonce.value)))
  }

  /** A store with nothing between its two parts. */
  function Store(a: Aead, s: Vault, name: string, value: bytes, env: Env): (Vault, Option<Error>) {
    match Prepare(a, s, value, env.nonce)
    case Err(e) => (s, Some(e))
    case Ok(data) => InnerStore(a, s, name, data, env)
  }

  /** The second part of a retrieval: the key of the header's version is looked up and used. */
  function OpenData(a: Aead, s: Vault, data: bytes): Outcome<bytes> {
    match ExtractVersion(data)
    case None => Err(TooShort)
    case Some((version, sealed)) =>
      if version !in s.keys then Err(KeyVersionMissing)
      else match a.unseal(sealed, s.keys[version])
        case None => Err(Decryption)
        case Some(p) => Ok(p)
  }

  function Retrieve(a: Aead, s: Vault, name: string): Outcome<bytes> {
    match InnerRetrieve(a, s, name)
    case Err(e) => Err(e)
    case Ok(d) => OpenData(a, s, d)
  }

  function KeyVersion(a: Aead, s: Vault, name: string): Outcome<int> {
    match InnerRetrieve(a, s, name)
    case Err(e) => Err(e)
    case Ok(d) => match ExtractVersion(d) case None => Err(TooShort) case Some((version, _)) => Ok(version)
  }

  function Delete(s: Vault, name: string, env: Env): (Vault, Option<Error>) {
    if name !in s.credentials then (s, Some(NotFound))
    else Save(s.(credentials := s.credentials - {name}), env)
  }

  function AddKeyVersion(s: Vault, version: int, key: bytes): (Vault, Option<Error>) {
    if |key| != 32 then (s, Some(BadKey))
    else if version in s.keys then (s, Some(VersionExists))
    else (s.(keys := s.keys[version := key]), None)
  }

  function SetCurrentVersion(s: Vault, version: int): (Vault, Option<Error>) {
    if version !in s.keys then (s, Some(VersionUnknown)) else (s.(currentVersion := version), None)
  }

  function RemoveKeyVersion(s: Vault, version: int): (Vault, Option<Error>) {
    if version == s.currentVersion then (s, Some(VersionIsCurrent)) else (s.(keys := s.keys - {version}), None)
  }

  function ReEncrypt(a: Aead, s: Vault, name: string, env: Env): (Vault, Option<Error>) {
    match Retrieve(a, s, name)
    case Err(e) => (s, Some(e))
    case Ok(value) => Store(a, s, name, value, env)
  }

  /** Re-encrypts the names in order and stops at the first error. */
  function ReEncryptNames(a: Aead, s: Vault, names: seq<string>, env: nat -> Env, i: nat): (Vault, Option<Error>)
    requires i <= |names|
    decreases |names| - i
  {
    if i == |names| then (s, None)
    else match ReEncrypt(a, s, names[i], env(i))
      case (s', Some(e)) => (s', Some(e))
      case (s', None) => ReEncryptNames(a, s', names, env, i + 1)
  }

  // ---------- the objects ----------

  class FileCredentialVault {
    const aead: Aead
    const encryptionKey: bytes
    var credentialsMap: map<string, bytes>
    var disk: Disk

    /** The key must be 32 bytes; an existing file must open under it. */
    static method Open(aead: Aead, encryptionKey: bytes, disk: Disk) returns (vault: FileCredentialVault?)
      ensures vault == null <==> |encryptionKey| != 32 || disk.Unreadable? || (disk.File? && disk.key != encryptionKey)
      ensures vault != null ==>
                && fresh(vault) && vault.aead == aead && vault.encryptionKey == encryptionKey && vault.disk == disk
                && vault.credentialsMap == if disk.File? then disk.credentials else map[]
    {
      if |encryptionKey| != 32 || disk.Unreadable? || (disk.File? && disk.key != encryptionKey) {
        return null;
      }
      vault := new FileCredentialVault(aead, encryptionKey, if disk.File? then disk.credentials else map[], disk);
    }

    constructor (aead: Aead, encryptionKey: bytes, credentialsMap: map<string, bytes>, disk: Disk)
      ensures this.aead == aead && this.encryptionKey == encryptionKey
      ensures this.credentialsMap == credentialsMap && this.disk == disk
    {
      this.aead, this.encryptionKey, this.credentialsMap, this.disk := aead, encryptionKey, credentialsMap, disk;
    }

    method SaveToFile(saving: Saving) returns (err: Option<Error>)
      modifies this`disk
      ensures disk == DiskAfter(old(disk), saving, credentialsMap, encryptionKey)
      ensures err == if saving.Written? then None else Some(SaveFailed)
    {
      match saving
      case Untouched => return Some(SaveFailed);
      case Broken =>
        disk := Unreadable;
        return Some(SaveFailed);
      case Written =>
        disk := File(credentialsMap, encryptionKey);
        return None;
    }

    method StoreSecret(key: string, value: bytes, env: Env) returns (err: Option<Error>)
      modifies this
      ensures if env.innerNonce.None?
              then credentialsMap == old(credentialsMap) && disk == old(disk) && err == Some(Randomness)
              else && credentialsMap
                      == old(credentialsMap)[key := aead.seal(value, encryptionKey, env.innerNonce.value)]
                   && disk == DiskAfter(old(disk), env.saving, credentialsMap, encryptionKey)
                   && err == if env.saving.Written? then None else Some(SaveFailed)
    {
      if env.innerNonce.None? {
        return Some(Randomness);
      }
      credentialsMap := credentialsMap[key := aead.seal(value, encryptionKey, env.innerNonce.value)];
      err := SaveToFile(env.saving);
    }

    method RetrieveSecret(key: string) returns (r: Outcome<bytes>)
      ensures r == if key !in credentialsMap then Err(NotFound)
                   else match aead.unseal(credentialsMap[key], encryptionKey)
                        case None => Err(InnerDecryption) case Some(d) => Ok(d)
    {
      if key !in credentialsMap {
        return Err(NotFound);
      }
      match aead.unseal(credentialsMap[key], encryptionKey)
      case None => return Err(InnerDecryption);
      case Some(d) => return Ok(d);
    }

    method DeleteSecret(key: string, env: Env) returns (err: Option<Error>)
      modifies this
      ensures if key !in old(credentialsMap)
              then credentialsMap == old(credentialsMap) && disk == old(disk) && err == Some(NotFound)
              else && credentialsMap == old(credentialsMap) - {key}
                   && disk == DiskAfter(old(disk), env.saving, credentialsMap, encryptionKey)
                   && err == if env.saving.Written? then None else Some(SaveFailed)
    {
      if key !in credentialsMap {
        return Some(NotFound);
      }
      credentialsMap := credentialsMap - {key};
      err := SaveToFile(env.saving);
    }
  }

  class VersionedVault {
    const aead: Aead
    var keys: map<int, bytes>
    var currentVersion: int
    const vault: FileCredentialVault

    ghost predicate Valid()
      reads this
    {
      vault.aead == aead
    }

    function State(): Vault
      reads this, vault
    {
      Vault(keys, currentVersion, vault.encryptionKey, vault.credentialsMap, vault.disk)
    }

    constructor (aead: Aead, vault: FileCredentialVault, initialVersion: int)
      requires vault.aead == aead
      ensures Valid() && this.aead == aead && this.vault == vault
      ensures State() == Vault(map[initialVersion := vault.encryptionKey], initialVersion,
                               vault.encryptionKey, vault.credentialsMap, vault.disk)
    {
      this.aead, this.vault := aead, vault;
      keys, currentVersion := map[initialVersion := vault.encryptionKey], initialVersion;
    }

    /** The first part of StoreCredential; only the read of version and key is under the lock. */
    method PrepareStore(value: bytes, nonce: Option<bytes>) returns (data: Outcome<bytes>)
      requires Valid()
      ensures data == Prepare(aead, State(), value, nonce)
    {
      if currentVersion !in keys {
        return Err(KeyVersionMissing);
      }
      if nonce.None? {
        return Err(Randomness);
      }
      var encrypted := aead.seal(value, keys[currentVersion], nonce.value);
      return Ok(PrependVersion(currentVersion, encrypted));
    }

    /** With nothing between its two parts. */
    method StoreCredential(name: string, value: bytes, env: Env) returns (err: Option<Error>)
      requires Valid()
      modifies vault
      ensures Valid() && (State(), err) == Store(aead, old(State()), name, value, env)
    {
      var data := PrepareStore(value, env.nonce);
      if data.Err? {
        return Some(data.error);
      }
      err := vault.StoreSecret(name, data.value, env);
    }

    /** The second part of RetrieveCredential; only the look-up of the key is under the lock. */
    method OpenEntry(data: bytes) returns (r: Outcome<bytes>)
      requires Valid()
      ensures r == OpenData(aead, State(), data)
    {
      var split := ExtractVersion(data);
      if split.None? {
        return Err(TooShort);
      }
      var (version, encrypted) := split.value;
      if version !in keys {
        return Err(KeyVersionMissing);
      }
      match aead.unseal(encrypted, keys[version])
      case None => return Err(Decryption);
      case Some(p) => return Ok(p);
    }

    method RetrieveCredential(name: string) returns (r: Outcome<bytes>)
      requires Valid()
      ensures r == Retrieve(aead, State(), name)
    {
      var inner := vault.RetrieveSecret(name);
      if inner.Err? {
        return Err(inner.error);
      }
      r := OpenEntry(inner.value);
    }

    method DeleteCredential(name: string, env: Env) returns (err: Option<Error>)
      requires Valid()
      modifies vault
      ensures (State(), err) == Delete(old(State()), name, env)
    {
      err := vault.DeleteSecret(name, env);
    }

    method AddKey(version: int, key: bytes) returns (err: Option<Error>)
      modifies this
      ensures (State(), err) == AddKeyVersion(old(State()), version, key)
    {
      if |key| != 32 {
        return Some(BadKey);
      }
      if version in keys {
        return Some(VersionExists);
      }
      keys := keys[version := key];
      return None;
    }

    method SetCurrent(version: int) returns (err: Option<Error>)
      modifies this
      ensures (State(), err) == SetCurrentVersion(old(State()), version)
    {
      if version !in keys {
        return Some(VersionUnknown);
      }
      currentVersion := version;
      return None;
    }

    method RemoveKey(version: int) returns (err: Option<Error>)
      modifies this
      ensures (State(), err) == RemoveKeyVersion(old(State()), version)
    {
      if version == currentVersion {
        return Some(VersionIsCurrent);
      }
      keys := keys - {version};
      return None;
    }

    /** With nothing between its read and its write. */
    method ReEncryptCredential(name: string, env: Env) returns (err: Option<Error>)
      requires Valid()
      modifies vault
      ensures Valid() && (State(), err) == ReEncrypt(aead, old(State()), name, env)
    {
      var value := RetrieveCredential(name);
      if value.Err? {
        return Some(value.error);
      }
      err := StoreCredential(name, value.value, env);
    }

    /** With nothing in between; `names` is the order in which the map happened to list its keys. */
    method ReEncryptAll(env: nat -> Env) returns (err: Option<Error>, ghost names: seq<string>)
      requires Valid()
      modifies vault
      ensures Enumerates(names, old(vault.credentialsMap).Keys)
      ensures (State(), err) == ReEncryptNames(aead, old(State()), names, env, 0)
    {
      var list: seq<string> := [];
      var rest := vault.credentialsMap.Keys;
      while rest != {}
        invariant Enumerates(list, vault.credentialsMap.Keys - rest) && rest <= vault.credentialsMap.Keys
        decreases rest
      {
        var name :| name in rest;
        list := list + [name];
        rest := rest - {name};
      }
      names := list;
      var i := 0;
      while i < |list|
        invariant i <= |list| && Valid()
        invariant ReEncryptNames(aead, State(), list, env, i) == ReEncryptNames(aead, old(State()), list, env, 0)
      {
        err := ReEncryptCredential(list[i], env(i));
        if err.Some? {
          return;
        }
        i := i + 1;
      }
      err := None;
    }
  }

  ghost predicate Enumerates(names: seq<string>, s: set<string>) {
    && (forall n :: n in names <==> n in s)
    && (forall i, j :: 0 <= i < j < |names| ==> names[i] != names[j])
  }
}
