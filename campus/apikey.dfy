/** The API-key document of src/models/ApiKey.js: its defaults, the
    `hashedKey` pre-save rule and the `verifyKey` acceptance predicate. */
module ApiKeyModel {
  import opened Common
  import opened Store

  /** The default lifetime of a key: `365 * 24 * 60 * 60 * 1000` milliseconds. */
  const KeyLifetimeMs: int := 365 * 24 * 60 * 60 * 1000

  /** `verifyKey`'s filter: the stored hash is the hash of the presented key,
      the key is active and it expires strictly after `now`. */
  predicate Accepts(k: ApiKey, raw: string, now: int)
  {
    k.hashedKey == Sha256(raw) && k.isActive && k.expiresAt > now
  }

  /** `ApiKey.verifyKey(raw)`: the first stored key the filter accepts. */
  function VerifyKey(keys: seq<Doc<ApiKey>>, raw: string, now: int): (r: Option<nat>)
    ensures r.Some? ==> r.value < |keys| && Accepts(keys[r.value].val, raw, now)
    ensures r.None? <==> forall j :: 0 <= j < |keys| ==> !Accepts(keys[j].val, raw, now)
  {
    FirstIndex(keys, (d: Doc<ApiKey>) => Accepts(d.val, raw, now))
  }

  /** Every stored `hashedKey` is the hash of the stored key: what the
      pre-save rule maintains. */
  predicate HashConsistent(keys: seq<Doc<ApiKey>>)
  {
    forall i :: 0 <= i < |keys| ==> keys[i].val.hashedKey == Sha256(keys[i].val.key)
  }

  /** Every stored key passed the `required` validators of `key` and `name`. */
  predicate Validated(keys: seq<Doc<ApiKey>>)
  {
    forall i :: 0 <= i < |keys| ==> keys[i].val.key != "" && keys[i].val.name != ""
  }

  /** The `unique: true` index on `key`. */
  predicate UniqueKeys(keys: seq<Doc<ApiKey>>)
  {
    forall i, j :: 0 <= i < j < |keys| ==> keys[i].val.key != keys[j].val.key
  }

  /** A revoked or expired key is never the one `verifyKey` returns. */
  lemma RevokedOrExpiredNeverVerifies(keys: seq<Doc<ApiKey>>, raw: string, now: int, i: nat)
    requires i < |keys| && (!keys[i].val.isActive || keys[i].val.expiresAt <= now)
    ensures VerifyKey(keys, raw, now) != Some(i)
  {
  }

  /** With consistent hashes and unique keys, the key `verifyKey` returns is
      the presented key itself, and it is the only stored key the filter
      accepts. */
  lemma VerifiedKeyIsUnique(keys: seq<Doc<ApiKey>>, raw: string, now: int)
    requires HashConsistent(keys) && UniqueKeys(keys)
    ensures VerifyKey(keys, raw, now).Some? ==>
      var i := VerifyKey(keys, raw, now).value;
      keys[i].val.key == raw &&
      forall j :: 0 <= j < |keys| && Accepts(keys[j].val, raw, now) ==> j == i
  {
    var r := VerifyKey(keys, raw, now);
    if r.Some? {
      var i := r.value;
      assert Sha256(keys[i].val.key) == Sha256(raw);
      forall j | 0 <= j < |keys| && Accepts(keys[j].val, raw, now) ensures j == i {
        assert Sha256(keys[j].val.key) == Sha256(raw);
      }
    }
  }

  /** A stored key after `lastUsedAt = new Date()` and `save()`: the date is
      set, and `updatedAt` moves to `now` only when the date changed. */
  function Used(k: ApiKey, now: int): (u: ApiKey)
    ensures u.lastUsedAt == Some(now)
    ensures u.updatedAt == if k.lastUsedAt == Some(now) then k.updatedAt else now
    ensures u.(lastUsedAt := k.lastUsedAt, updatedAt := k.updatedAt) == k
  {
    k.(lastUsedAt := Some(now), updatedAt := if k.lastUsedAt == Some(now) then k.updatedAt else now)
  }

  /** A key document in memory, between `new ApiKey(...)` or a `findOne` and
      its `save()`. `isNew` and `keyModified` are Mongoose's `isNew` and
      `isModified('key')`; `modified` says whether any other path changed;
      `hashedKey` is absent until the hook sets it. */
  class ApiKeyDocument {
    var user: Id
    var key: string
    var hashedKey: Option<Digest>
    var name: string
    var description: string
    var permissions: seq<Permission>
    var isActive: bool
    var lastUsedAt: Option<int>
    var expiresAt: int
    var createdAt: int
    var updatedAt: int
    var isNew: bool
    var keyModified: bool
    var modified: bool

    /** `new ApiKey({ user, name, description, permissions })`: the `key`
        default is a fresh UUID (given here as `generatedKey`), the key is
        active, never used, and expires one year after `now`. */
    constructor (user: Id, name: string, description: string, permissions: seq<Permission>,
                 generatedKey: string, now: int)
      ensures this.user == user && this.name == name && this.description == description
      ensures this.permissions == permissions && key == generatedKey && hashedKey.None?
      ensures isActive && lastUsedAt.None? && expiresAt == now + KeyLifetimeMs && createdAt == now
      ensures updatedAt == now && isNew && !keyModified && !modified
    {
      this.user := user;
      this.name := name;
      this.description := description;
      this.permissions := permissions;
      key := generatedKey;
      hashedKey := None;
      isActive := true;
      lastUsedAt := None;
      expiresAt := now + KeyLifetimeMs;
      createdAt := now;
      updatedAt := now;
      isNew := true;
      keyModified := false;
      modified := false;
    }

    /** A stored document loaded for modification. */
    constructor Load(k: ApiKey)
      ensures hashedKey == Some(k.hashedKey) && Snapshot() == k && !isNew && !keyModified && !modified
    {
      user := k.user;
      key := k.key;
      hashedKey := Some(k.hashedKey);
      name := k.name;
      description := k.description;
      permissions := k.permissions;
      isActive := k.isActive;
      lastUsedAt := k.lastUsedAt;
      expiresAt := k.expiresAt;
      createdAt := k.createdAt;
      updatedAt := k.updatedAt;
      isNew := false;
      keyModified := false;
      modified := false;
    }

    /** The stored form of the document once it has a hash. */
    function Snapshot(): ApiKey
      reads this
      requires hashedKey.Some?
    {
      ApiKey(user, key, hashedKey.value, name, description, permissions,
             isActive, lastUsedAt, expiresAt, createdAt, updatedAt)
    }

    /** Assigning `doc.key`: the path becomes modified only when the value
        changes. */
    method SetKey(k: string)
      modifies this`key, this`keyModified
      ensures key == k
      ensures keyModified <==> old(keyModified) || k != old(key)
    {
      if k != key {
        keyModified := true;
      }
      key := k;
    }

    /** Assigning `doc.isActive`. */
    method SetActive(b: bool)
      modifies this`isActive, this`modified
      ensures isActive == b
      ensures modified <==> old(modified) || b != old(isActive)
    {
      if b != isActive {
        modified := true;
      }
      isActive := b;
    }

    /** Assigning `doc.lastUsedAt = new Date()`; an equal date is no change. */
    method SetLastUsed(t: int)
      modifies this`lastUsedAt, this`modified
      ensures lastUsedAt == Some(t)
      ensures modified <==> old(modified) || old(lastUsedAt) != Some(t)
    {
      if lastUsedAt != Some(t) {
        modified := true;
      }
      lastUsedAt := Some(t);
    }

    /** `apiKeySchema.pre('save')`: the hash is recomputed from the key when
        the document is new or its key was modified, and kept otherwise. */
    method HashHook()
      modifies this`hashedKey
      ensures old(isNew || keyModified) ==> hashedKey == Some(Sha256(key))
      ensures !old(isNew || keyModified) ==> hashedKey == old(hashedKey)
    {
      if isNew || keyModified {
        hashedKey := Some(Sha256(key));
      }
    }

    /** The `timestamps` option: a new or changed document gets `updatedAt`. */
    method Stamp(now: int)
      modifies this`updatedAt
      ensures updatedAt == if isNew || keyModified || modified then now else old(updatedAt)
    {
      if isNew || keyModified || modified {
        updatedAt := now;
      }
    }

    /** `save()` as Mongoose runs it: the schema validators first (`key`,
        `hashedKey` and `name` are required), the pre-save hook after them.
        A new document has no hash yet, so it is refused. */
    method SaveAsWritten(now: int) returns (r: Result<ApiKey>)
      modifies this`hashedKey, this`updatedAt, this`isNew, this`keyModified, this`modified
      ensures old(isNew) && old(hashedKey).None? ==> r.Err?
      ensures r.Ok? ==> hashedKey.Some? && r.value == Snapshot() && !isNew && !keyModified && !modified
    {
      if key == "" || hashedKey.None? || name == "" {
        return Err("ApiKey validation failed");
      }
      HashHook();
      Stamp(now);
      isNew, keyModified, modified := false, false, false;
      r := Ok(Snapshot());
    }

    /** `save()` with the hash computed before validation (a `pre('validate')`
        hook): the stored hash is always the hash of the stored key, and
        `updatedAt` moves to `now` exactly when something changed. */
    method Save(now: int) returns (r: Result<ApiKey>)
      modifies this`hashedKey, this`updatedAt, this`isNew, this`keyModified, this`modified
      ensures r.Ok? <==> key != "" && name != "" && (old(isNew || keyModified) || old(hashedKey).Some?)
      ensures r.Ok? ==> hashedKey.Some? && r.value == Snapshot() && !isNew && !keyModified && !modified
      ensures r.Ok? && old(isNew || keyModified) ==> r.value.hashedKey == Sha256(key)
      ensures r.Ok? && !old(isNew || keyModified) ==> Some(r.value.hashedKey) == old(hashedKey)
      ensures r.Ok? ==> r.value.updatedAt == if old(isNew || keyModified || modified) then now else old(updatedAt)
    {
      HashHook();
      if key == "" || hashedKey.None? || name == "" {
        return Err("ApiKey validation failed");
      }
      Stamp(now);
      isNew, keyModified, modified := false, false, false;
      r := Ok(Snapshot());
    }
  }

  /** The key a request was admitted with, loaded, given `lastUsedAt = now`
      and saved: a stored key passes the validators, keeps its hash, and
      comes back as `Used(k, now)`. */
  method RecordUse(k: ApiKey, now: int) returns (u: ApiKey)
    requires k.key != "" && k.name != ""
    ensures u == Used(k, now)
  {
    var doc := new ApiKeyDocument.Load(k);
    doc.SetLastUsed(now);
    var saved := doc.Save(now);
    u := saved.value;
  }

  /** A freshly created key saved as written never reaches the store. */
  method NewKeyRefusedAsWritten(user: Id, name: string, generatedKey: string, now: int) returns (r: Result<ApiKey>)
    ensures r.Err?
  {
    var doc := new ApiKeyDocument(user, name, "", [Read], generatedKey, now);
    r := doc.SaveAsWritten(now);
  }

  /** With the hash computed before validation, a new key with a name is
      stored, and its hash is the hash of its key. */
  method NewKeyStoredWhenCorrected(user: Id, name: string, generatedKey: string, now: int) returns (r: Result<ApiKey>)
    requires name != "" && generatedKey != ""
    ensures r.Ok? && r.value.hashedKey == Sha256(generatedKey) && r.value.key == generatedKey
    ensures r.Ok? && r.value.isActive && r.value.expiresAt == now + KeyLifetimeMs
  {
    var doc := new ApiKeyDocument(user, name, "", [Read], generatedKey, now);
    r := doc.Save(now);
  }
}
