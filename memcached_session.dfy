/** The Memcached adapter: no state in memory besides the id. `get`, `has`,
    `set` and `delete` work on one cache entry per key, `id.key`; `setValues`,
    `all`, `clear` and `save` work on one blob stored under the bare id. */
module MemcachedSessions {
  import opened SessionValues
  import opened SessionIds

  /** A cache entry: the (unserialised) value and the expiration it was set with. */
  datatype Item = Item(value: Value, ttl: int)

  type Cache = map<string, Item>

  /** The Memcached server, as the entry held under each key. */
  class CacheStore {
    var items: Cache

    constructor (items: Cache)
      ensures this.items == items
    {
      this.items := items;
    }
  }

  /** `get(id.key)` then `getResultCode() === RES_SUCCESS`: the entry's value
      when the key is present, the default otherwise. */
  function Lookup(c: Cache, id: string, key: string, default: Value): Value
  {
    if CompositeKey(id, key) in c then c[CompositeKey(id, key)].value else default
  }

  /** `has()`: whether the `get` of `id.key` succeeds. */
  predicate Present(c: Cache, id: string, key: string)
  {
    CompositeKey(id, key) in c
  }

  /** `all()`: the blob under the bare id when it is present and an array, else `[]`. */
  function Blob(c: Cache, id: string): (r: State)
    ensures id in c && c[id].value.Arr? ==> Arr(r) == c[id].value
    ensures r != map[] ==> id in c && c[id].value == Arr(r)
  {
    if id in c && c[id].value.Arr? then c[id].value.entries else map[]
  }

  /** `set(id.key, value, lifetime)`. */
  function PutKey(c: Cache, id: string, key: string, value: Value, ttl: int): Cache
  {
    c[CompositeKey(id, key) := Item(value, ttl)]
  }

  /** `set(id, values, lifetime)`. */
  function PutBlob(c: Cache, id: string, values: State, ttl: int): Cache
  {
    c[id := Item(Arr(values), ttl)]
  }

  /** Every entry of session `id` removed: the blob and each `id.key`. */
  function RemoveSession(c: Cache, id: string): Cache
  {
    map k | k in c && k != id && !IsKeyOf(k, id) :: c[k]
  }

  /** After `set(key, value)`, `get(key)` yields `value` and `has(key)` holds. */
  lemma PutKeyGet(c: Cache, id: string, key: string, value: Value, ttl: int, default: Value)
    ensures Lookup(PutKey(c, id, key, value, ttl), id, key, default) == value
    ensures Present(PutKey(c, id, key, value, ttl), id, key)
  {
  }

  /** `set` of one key leaves every other key of every session alone: the
      composite key is injective because ids hold no dot. */
  lemma {:induction false} PutKeyIsolated(c: Cache, id: string, key: string, value: Value, ttl: int,
                                          other: string, k: string, default: Value)
    requires NoDot(id) && NoDot(other) && (other, k) != (id, key)
    ensures Lookup(PutKey(c, id, key, value, ttl), other, k, default) == Lookup(c, other, k, default)
    ensures Present(PutKey(c, id, key, value, ttl), other, k) == Present(c, other, k)
  {
    if CompositeKey(other, k) == CompositeKey(id, key) {
      CompositeKeyInjective(other, k, id, key);
    }
  }

  /** A value written by `set` never shows in any session's `all()`: a
      composite key is never a bare id. */
  lemma {:induction false} PutKeyLeavesBlobs(c: Cache, id: string, key: string, value: Value, ttl: int, other: string)
    requires NoDot(other)
    ensures Blob(PutKey(c, id, key, value, ttl), other) == Blob(c, other)
  {
    CompositeKeyNotBareId(id, key, other);
  }

  /** `setValues` replaces the blob and leaves every per-key entry of the session alone. */
  lemma PutBlobKeys(c: Cache, id: string, values: State, ttl: int, key: string, default: Value)
    ensures Blob(PutBlob(c, id, values, ttl), id) == values
    ensures Lookup(PutBlob(c, id, values, ttl), id, key, default) == Lookup(c, id, key, default)
    ensures Present(PutBlob(c, id, values, ttl), id, key) == Present(c, id, key)
  {
    assert |CompositeKey(id, key)| > |id|;
  }

  /** As written, `clear()` removes only the blob: after `set(key, value)` and
      `clear()`, `has(key)` still holds and `get(key)` still yields `value`. */
  lemma ClearKeepsPerKey(c: Cache, id: string, key: string, value: Value, ttl: int, default: Value)
    ensures Present(PutKey(c, id, key, value, ttl) - {id}, id, key)
    ensures Lookup(PutKey(c, id, key, value, ttl) - {id}, id, key, default) == value
    ensures Blob(PutKey(c, id, key, value, ttl) - {id}, id) == map[]
  {
    assert |CompositeKey(id, key)| > |id|;
  }

  /** Removing a whole session leaves neither its blob nor any of its keys. */
  lemma {:induction false} RemoveSessionEmpties(c: Cache, id: string, key: string, default: Value)
    requires NoDot(id)
    ensures !Present(RemoveSession(c, id), id, key)
    ensures Lookup(RemoveSession(c, id), id, key, default) == default
    ensures Blob(RemoveSession(c, id), id) == map[]
  {
    CompositeKeyOwner(id, key, id);
  }

  /** ...and touches no other session. */
  lemma {:induction false} RemoveSessionOthers(c: Cache, id: string, other: string, key: string, default: Value)
    requires NoDot(id) && NoDot(other) && other != id
    ensures Present(RemoveSession(c, id), other, key) == Present(c, other, key)
    ensures Lookup(RemoveSession(c, id), other, key, default) == Lookup(c, other, key, default)
    ensures Blob(RemoveSession(c, id), other) == Blob(c, other)
  {
    CompositeKeyOwner(other, key, id);
    BareIdNotKeyOf(other, id);
  }

  /** `save()` twice in a row leaves the cache as one `save()` does. */
  lemma SaveIdempotent(c: Cache, id: string, ttl: int)
    ensures PutBlob(PutBlob(c, id, Blob(c, id), ttl), id, Blob(PutBlob(c, id, Blob(c, id), ttl), id), ttl) ==
      PutBlob(c, id, Blob(c, id), ttl)
  {
    var once := PutBlob(c, id, Blob(c, id), ttl);
    assert Blob(once, id) == Blob(c, id);
  }

  class MemcachedSession {
    const name: string
    const lifetime: int
    const cache: CacheStore
    var id: string
    var started: bool

    /** Ids hold no dot: the composite keys of distinct sessions never meet. */
    predicate Valid()
      reads this
    {
      NoDot(id)
    }

    /** The id read from (or issued for) the cookie only reaches
        `session_id()`; the object's own id stays empty. */
    constructor (cache: CacheStore, name: string, lifetime: int)
      ensures this.cache == cache && this.name == name && this.lifetime == lifetime
      ensures id == "" && !started && Valid()
    {
      this.cache := cache;
      this.name := name;
      this.lifetime := lifetime;
      id := "";
      started := false;
    }

    /** Flash messages are not supported: `getFlash()` always throws. */
    function GetFlash(): (r: Outcome)
      ensures r.Fail? && r.error.FlashUnsupported?
    {
      Fail(FlashUnsupported("Flash messages are not supported in MemcachedSession."))
    }

    /** As written: an id is issued when there is none, then the first call
        reaches `$this->load()`, which the class does not declare, and throws
        before `started` is set. */
    method Start(entropy: string) returns (outcome: Outcome)
      modifies this`id, this`started
      ensures id == if old(id) == "" then NewId(entropy) else old(id)
      ensures started == old(started)
      ensures outcome == if old(started) then Pass else Fail(UndefinedMethod("load"))
      ensures old(Valid()) ==> Valid()
    {
      if id == "" {
        RegenerateId(entropy);
      }
      if !started {
        outcome := Fail(UndefinedMethod("load"));
        return;
      }
      outcome := Pass;
    }

    /** `start()` as evidently intended: the entries live in the cache, so
        starting only issues a missing id and raises the flag. */
    method StartWithoutLoad(entropy: string)
      modifies this`id, this`started
      ensures started
      ensures id == if old(id) == "" then NewId(entropy) else old(id)
      ensures old(started) && old(id) != "" ==> unchanged(this)
      ensures old(Valid()) ==> Valid()
    {
      if id == "" {
        RegenerateId(entropy);
      }
      if !started {
        started := true;
      }
    }

    function IsStarted(): bool
      reads this
    {
      started
    }

    /** A new id; the entries under the old id are neither moved nor removed. */
    method RegenerateId(entropy: string)
      modifies this`id
      ensures id == NewId(entropy) && Valid()
      ensures |SessionPrefix| <= |id| && id[..|SessionPrefix|] == SessionPrefix
    {
      id := StripDots(Uniqid(SessionPrefix, entropy));
    }

    /** Deletes the blob under the current id, then issues a new id; the
        per-key entries of the old id stay in the cache. */
    method Destroy(entropy: string)
      modifies this`id, cache
      ensures cache.items == old(cache.items) - {old(id)}
      ensures Blob(cache.items, old(id)) == map[]
      ensures forall k, d :: Lookup(cache.items, old(id), k, d) == Lookup(old(cache.items), old(id), k, d)
      ensures id == NewId(entropy) && Valid()
    {
      cache.items := cache.items - {id};
      forall k ensures CompositeKey(old(id), k) != old(id) {
        assert |CompositeKey(old(id), k)| > |old(id)|;
      }
      RegenerateId(entropy);
    }

    function Get(key: string, default: Value): (r: Value)
      reads this, cache
      ensures Has(key) ==> r == cache.items[CompositeKey(id, key)].value
      ensures !Has(key) ==> r == default
    {
      Lookup(cache.items, id, key, default)
    }

    function All(): State
      reads this, cache
    {
      Blob(cache.items, id)
    }

    function Has(key: string): bool
      reads this, cache
    {
      Present(cache.items, id, key)
    }

    /** Writes entry `id.key` with the session lifetime; nothing else changes. */
    method Set(key: string, value: Value)
      requires Valid()
      modifies cache
      ensures cache.items == PutKey(old(cache.items), id, key, value, lifetime)
      ensures Has(key) && forall d :: Get(key, d) == value
      ensures All() == old(All())
      ensures forall other, k, d :: NoDot(other) && (other, k) != (id, key) ==>
        Lookup(cache.items, other, k, d) == Lookup(old(cache.items), other, k, d)
    {
      ghost var before := cache.items;
      cache.items := PutKey(cache.items, id, key, value, lifetime);
      PutKeyLeavesBlobs(before, id, key, value, lifetime, id);
      forall other, k, d | NoDot(other) && (other, k) != (id, key)
        ensures Lookup(cache.items, other, k, d) == Lookup(before, other, k, d)
      {
        PutKeyIsolated(before, id, key, value, lifetime, other, k, d);
      }
    }

    /** Stores `values` as the blob under the bare id, replacing any earlier
        blob; the per-key entries are untouched. */
    method SetValues(values: State)
      modifies cache
      ensures cache.items == PutBlob(old(cache.items), id, values, lifetime)
      ensures All() == values
      ensures forall k :: Has(k) == old(Has(k))
      ensures forall k, d :: Get(k, d) == old(Get(k, d))
    {
      ghost var before := cache.items;
      cache.items := PutBlob(cache.items, id, values, lifetime);
      forall k, d ensures Get(k, d) == Lookup(before, id, k, d) && Has(k) == Present(before, id, k) {
        PutBlobKeys(before, id, values, lifetime, k, d);
      }
    }

    /** Deletes entry `id.key`; the blob is untouched. */
    method Delete(key: string)
      requires Valid()
      modifies cache
      ensures cache.items == old(cache.items) - {CompositeKey(id, key)}
      ensures !Has(key) && forall d :: Get(key, d) == d
      ensures All() == old(All())
    {
      cache.items := cache.items - {CompositeKey(id, key)};
      CompositeKeyNotBareId(id, key, id);
    }

    /** As written: deletes the blob under the bare id only, so `all()`
        becomes empty while every `has(key)` answers as before. */
    method Clear()
      modifies cache
      ensures cache.items == old(cache.items) - {id}
      ensures All() == map[]
      ensures forall k :: Has(k) == old(Has(k))
      ensures forall k, d :: Get(k, d) == old(Get(k, d))
    {
      ghost var before := cache.items;
      cache.items := cache.items - {id};
      forall k ensures CompositeKey(id, k) != id {
        assert |CompositeKey(id, k)| > |id|;
      }
      assert forall k :: Has(k) == Present(before, id, k);
      assert forall k, d :: Get(k, d) == Lookup(before, id, k, d);
    }

    /** `clear()` as evidently intended: every value of the session goes,
        whichever of the two key spaces it was written to; other sessions
        keep theirs. */
    method ClearAll()
      requires Valid()
      modifies cache
      ensures cache.items == RemoveSession(old(cache.items), id)
      ensures All() == map[]
      ensures forall k :: !Has(k)
      ensures forall k, d :: Get(k, d) == d
      ensures forall other, k, d :: NoDot(other) && other != id ==>
        Lookup(cache.items, other, k, d) == Lookup(old(cache.items), other, k, d) &&
        Present(cache.items, other, k) == Present(old(cache.items), other, k) &&
        Blob(cache.items, other) == Blob(old(cache.items), other)
    {
      ghost var before := cache.items;
      cache.items := RemoveSession(cache.items, id);
      forall k, d ensures !Present(cache.items, id, k) && Lookup(cache.items, id, k, d) == d {
        RemoveSessionEmpties(before, id, k, d);
      }
      RemoveSessionEmpties(before, id, "", Null);
      assert forall k :: !Has(k);
      assert forall k, d :: Get(k, d) == d;
      forall other, k, d | NoDot(other) && other != id
        ensures Lookup(cache.items, other, k, d) == Lookup(before, other, k, d) &&
          Present(cache.items, other, k) == Present(before, other, k) &&
          Blob(cache.items, other) == Blob(before, other)
      {
        RemoveSessionOthers(before, id, other, k, d);
      }
    }

    /** Writes `all()` back under the bare id with a fresh lifetime. */
    method Save()
      modifies cache
      ensures cache.items == PutBlob(old(cache.items), id, old(All()), lifetime)
      ensures All() == old(All())
    {
      var data := All();
      cache.items := PutBlob(cache.items, id, data, lifetime);
    }
  }

  /** As written, a value set and then cleared is still there. */
  method ClearedKeyStays(entropy: string) returns (s: MemcachedSession)
    ensures s.Has("user") && s.Get("user", Null) == Str("alice") && s.All() == map[]
  {
    var cache := new CacheStore(map[]);
    s := new MemcachedSession(cache, "app", 7200);
    s.RegenerateId(entropy);
    s.Set("user", Str("alice"));
    s.Clear();
  }
}
