/** The Redis adapter: the state lives in memory and reaches Redis only when
    `save()` stores it, serialised, under the session id. */
module RedisSessions {
  import opened SessionValues
  import opened SessionIds

  /** What `setex` stores: the (unserialised) state and its time to live. */
  datatype Record = Record(data: State, ttl: int)

  /** The Redis server, as the record held under each key. */
  class RedisStore {
    var records: map<string, Record>

    constructor (records: map<string, Record>)
      ensures this.records == records
    {
      this.records := records;
    }
  }

  /** The state `redis->get(key)` yields, or the empty state when the key is absent. */
  function Stored(records: map<string, Record>, key: string): State
  {
    if key in records then records[key].data else map[]
  }

  class RedisSession {
    const name: string
    const lifetime: int
    const redis: RedisStore
    var storage: State
    var id: string
    var started: bool

    /** As written: the record is looked up under `getId()`, which is still
        the empty id at this point, so the state comes from key "". */
    constructor (redis: RedisStore, name: string, lifetime: int)
      ensures this.redis == redis && this.name == name && this.lifetime == lifetime
      ensures id == "" && !started
      ensures storage == Stored(redis.records, "")
    {
      this.redis := redis;
      this.name := name;
      this.lifetime := lifetime;
      id := "";
      started := false;
      storage := Stored(redis.records, "");
    }

    /** The constructor as evidently intended: the session resumes the
        record saved under the identifier it is given. */
    constructor Resume(redis: RedisStore, name: string, lifetime: int, sessionId: string)
      ensures this.redis == redis && this.name == name && this.lifetime == lifetime
      ensures id == sessionId && !started
      ensures storage == Stored(redis.records, sessionId)
    {
      this.redis := redis;
      this.name := name;
      this.lifetime := lifetime;
      id := sessionId;
      started := false;
      storage := Stored(redis.records, sessionId);
    }

    /** `start()` issues an id only when there is none, and raises the flag. */
    method Start(entropy: string)
      modifies this`id, this`started
      ensures started
      ensures id == if old(id) == "" then NewId(entropy) else old(id)
    {
      if id == "" {
        RegenerateId(entropy);
      }
      started := true;
    }

    function IsStarted(): bool
      reads this
    {
      started
    }

    /** A new id; the record under the old id is neither moved nor removed. */
    method RegenerateId(entropy: string)
      modifies this`id
      ensures id == NewId(entropy)
      ensures |SessionPrefix| <= |id| && id[..|SessionPrefix|] == SessionPrefix && NoDot(id)
    {
      id := StripDots(Uniqid(SessionPrefix, entropy));
    }

    /** Empties the state and issues a new id; nothing in Redis is deleted. */
    method Destroy(entropy: string)
      modifies this`storage, this`id
      ensures storage == map[] && id == NewId(entropy)
      ensures unchanged(redis)
    {
      // the source repeats the loop of clear() here
      Clear();
      RegenerateId(entropy);
    }

    /** `$this->storage[$key] ?? $default`: a key holding `null` also yields the default. */
    function Get(key: string, default: Value): (r: Value)
      reads this
      ensures Has(key) && !All()[key].Null? ==> r == All()[key]
      ensures !Has(key) || All()[key].Null? ==> r == default
    {
      if key in storage && !storage[key].Null? then storage[key] else default
    }

    function All(): State
      reads this
    {
      storage
    }

    function Has(key: string): (r: bool)
      reads this
      ensures r <==> key in All()
    {
      key in storage
    }

    method Set(key: string, value: Value)
      modifies this`storage
      ensures storage == old(storage)[key := value]
      ensures Has(key) && (!value.Null? ==> forall d :: Get(key, d) == value)
      ensures forall k, d :: k != key ==> Get(k, d) == old(Get(k, d))
      ensures unchanged(redis)
    {
      storage := storage[key := value];
    }

    /** One assignment per entry; the result is `array_merge` of the two arrays. */
    method SetValues(values: State)
      modifies this`storage
      ensures storage == ArrayMerge(old(storage), values)
      ensures unchanged(redis)
    {
      var remaining := values.Keys;
      while remaining != {}
        invariant remaining <= values.Keys
        invariant storage == old(storage) + (values - remaining)
        decreases remaining
      {
        var key :| key in remaining;
        storage := storage[key := values[key]];
        remaining := remaining - {key};
        assert storage == old(storage) + (values - remaining);
      }
      assert values - remaining == values;
    }

    method Delete(key: string)
      modifies this`storage
      ensures storage == old(storage) - {key} && !Has(key)
      ensures unchanged(redis)
    {
      storage := storage - {key};
    }

    /** Unsets every key in turn; the id is kept and Redis is untouched. */
    method Clear()
      modifies this`storage
      ensures storage == map[] && forall k :: !Has(k)
      ensures unchanged(redis)
    {
      var keys := storage.Keys;
      while keys != {}
        invariant storage.Keys == keys
        decreases keys
      {
        var key :| key in keys;
        storage := storage - {key};
        keys := keys - {key};
      }
    }

    /** As written: `setex` is given a fourth argument (the prefix option)
        although it takes three, so the call throws and nothing is stored.
        There is no `modifies` clause: Redis is left as it was. */
    method Save() returns (outcome: Outcome)
      ensures outcome == Fail(ArgumentCount("setex"))
    {
      outcome := Fail(ArgumentCount("setex"));
    }

    /** `save()` as evidently intended: the three-argument `setex` stores the
        current state under the current id with the session lifetime. */
    method SaveRecord()
      modifies redis
      ensures redis.records == old(redis.records)[id := Record(storage, lifetime)]
      ensures Stored(redis.records, id) == storage
      ensures old(id in redis.records && redis.records[id] == Record(storage, lifetime)) ==>
        redis.records == old(redis.records)
    {
      redis.records := redis.records[id := Record(storage, lifetime)];
    }
  }

  /** `has()` tests presence, `get()` also skips a stored `null`. */
  lemma HasButDefault(s: RedisSession, key: string, default: Value)
    requires key in s.storage && s.storage[key] == Null
    ensures s.Has(key) && s.Get(key, default) == default
  {
  }

  /** As written, `save()` stores nothing: after `set` and `save`, Redis
      still holds no record for the session. */
  method SaveStoresNothing(entropy: string) returns (s: RedisSession)
    ensures s.Has("cart") && s.redis.records == map[]
    ensures Stored(s.redis.records, s.id) == map[]
  {
    var redis := new RedisStore(map[]);
    s := new RedisSession(redis, "app", 7200);
    s.Start(entropy);
    s.Set("cart", Int(3));
    var outcome := s.Save();
  }

  /** Even with the intended `save()`, a session built after another one
      saved its state does not see that state: the constructor reads key "". */
  method SavedStateNotReloaded(entropy: string) returns (first: RedisSession, second: RedisSession)
    ensures Stored(first.redis.records, first.id) == map["cart" := Int(3)]
    ensures second.redis == first.redis && second.storage == map[]
  {
    var redis := new RedisStore(map[]);
    first := new RedisSession(redis, "app", 7200);
    first.Start(entropy);
    first.Set("cart", Int(3));
    first.SaveRecord();
    assert first.id != "" by {
      assert first.id[..|SessionPrefix|] == SessionPrefix;
    }
    second := new RedisSession(redis, "app", 7200);
  }

  /** With `SaveRecord` and `Resume`, saving and resuming under the same id
      restores the state exactly (the durability round trip). */
  method SaveThenResume(s: RedisSession) returns (resumed: RedisSession)
    modifies s.redis
    ensures resumed.id == s.id && resumed.storage == s.storage
  {
    s.SaveRecord();
    resumed := new RedisSession.Resume(s.redis, s.name, s.lifetime, s.id);
  }
}
